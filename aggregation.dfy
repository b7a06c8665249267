/**
 * The aggregations of app.js: the pending badge (`pendingCount`) and the
 * three per-project figures of the dashboard, which read approved logs only
 * (`computeProjectDays`, `computeProjectHeadcount`,
 * `computeProjectBreakdown`). Each figure has a specification function here
 * and a loop method that computes it the way the code does.
 */
module Aggregation {
  import opened Util
  import opened Text
  import opened Entities

  /** A log enters the figures of `projectId` exactly when it is approved and of that project. */
  predicate Counts(l: LogRecord, projectId: string) {
    l.status == Approved && l.projectId == projectId
  }

  // ---------------------------------------------------------------- pending

  /** `db.logs.filter(l => l.status === "submitted")`. */
  function Pending(logs: seq<LogRecord>): (r: seq<LogRecord>)
    ensures forall l :: l in r <==> l in logs && l.status == Submitted
    ensures |r| <= |logs|
  {
    if logs == [] then []
    else
      var init := Pending(logs[..|logs| - 1]);
      if logs[|logs| - 1].status == Submitted then init + [logs[|logs| - 1]] else init
  }

  /** `pendingCount`: the number of submitted logs. */
  function PendingCount(logs: seq<LogRecord>): nat {
    |Pending(logs)|
  }

  /** The positions of the submitted logs. */
  function SubmittedPositions(logs: seq<LogRecord>): set<nat> {
    set i: nat | i < |logs| && logs[i].status == Submitted
  }

  /** The badge counts the submitted positions: one per submitted log, duplicates included. */
  lemma {:induction false} PendingCountIsPositionCount(logs: seq<LogRecord>)
    ensures PendingCount(logs) == |SubmittedPositions(logs)|
  {
    if logs != [] {
      var n := |logs| - 1;
      var init := logs[..n];
      PendingCountIsPositionCount(init);
      var s := SubmittedPositions(init);
      var expected := if logs[n].status == Submitted then s + {n} else s;
      forall i: nat ensures i in SubmittedPositions(logs) <==> i in expected {
        if i < n {
          assert init[i] == logs[i];
        }
      }
      assert SubmittedPositions(logs) == expected;
    }
  }

  /** The badge adds up over concatenated log lists (appending a batch). */
  lemma {:induction false} PendingCountAppend(a: seq<LogRecord>, b: seq<LogRecord>)
    ensures PendingCount(a + b) == PendingCount(a) + PendingCount(b)
  {
    if b != [] {
      var n := |b| - 1;
      assert (a + b)[..|a + b| - 1] == a + b[..n];
      PendingCountAppend(a, b[..n]);
    } else {
      assert a + b == a;
    }
  }

  /** A list of submitted logs adds its whole length to the badge. */
  lemma {:induction false} PendingCountAllSubmitted(b: seq<LogRecord>)
    requires forall i :: 0 <= i < |b| ==> b[i].status == Submitted
    ensures PendingCount(b) == |b|
  {
    if b != [] {
      PendingCountAllSubmitted(b[..|b| - 1]);
    }
  }

  // ------------------------------------------------------------- active days

  /** The dates on which project `projectId` has approved work. */
  function ApprovedDates(logs: seq<LogRecord>, projectId: string): set<string> {
    set l | l in logs && Counts(l, projectId) :: l.date
  }

  /** The `Set` key of `computeProjectDays`. */
  function DayKey(l: LogRecord): string {
    l.projectId + "__" + l.date
  }

  lemma ApprovedDatesSnoc(logs: seq<LogRecord>, l: LogRecord, projectId: string)
    ensures ApprovedDates(logs + [l], projectId)
      == ApprovedDates(logs, projectId) + (if Counts(l, projectId) then {l.date} else {})
  {
    assert forall x :: x in logs + [l] <==> x in logs || x == l;
  }

  /** The keys of `projectId` on the dates `dates`. */
  function DayKeys(projectId: string, dates: set<string>): set<string> {
    set d | d in dates :: projectId + "__" + d
  }

  /** Adding a date adds its key, and the keys of one project stay as many as the dates. */
  lemma DayKeysAdd(projectId: string, dates: set<string>, date: string)
    requires |DayKeys(projectId, dates)| == |dates|
    ensures DayKeys(projectId, dates + {date}) == DayKeys(projectId, dates) + {projectId + "__" + date}
    ensures |DayKeys(projectId, dates + {date})| == |dates + {date}|
  {
    var keys, key := DayKeys(projectId, dates), projectId + "__" + date;
    var after := DayKeys(projectId, dates + {date});
    forall x | x in after ensures x in keys + {key} {
      var d :| d in dates + {date} && x == projectId + "__" + d;
      if d != date {
        assert x in keys;
      }
    }
    forall x | x in keys + {key} ensures x in after {
      if x != key {
        var d :| d in dates && x == projectId + "__" + d;
      }
    }
    assert after == keys + {key};
    if date !in dates {
      forall d | d in dates ensures projectId + "__" + d != key {
        JoinCancelLeft(projectId, "__", d, date);
      }
      assert key !in keys;
      assert |keys + {key}| == |keys| + 1;
      assert |dates + {date}| == |dates| + 1;
    } else {
      assert key in keys;
      assert dates + {date} == dates;
    }
  }

  /**
   * `computeProjectDays`: the loop adds `projectId + "__" + date` to a set
   * for every approved log of the project. The answer is the number of
   * distinct dates with approved work: several logs on one date count once.
   */
  method ComputeProjectDays(logs: seq<LogRecord>, projectId: string) returns (n: nat)
    ensures n == |ApprovedDates(logs, projectId)|
  {
    var keys: set<string> := {};
    ghost var dates: set<string> := {};
    for i := 0 to |logs|
      invariant dates == ApprovedDates(logs[..i], projectId)
      invariant keys == DayKeys(projectId, dates) && |keys| == |dates|
    {
      var l := logs[i];
      assert logs[..i + 1] == logs[..i] + [l];
      ApprovedDatesSnoc(logs[..i], l, projectId);
      if l.status != Approved { continue; }
      if l.projectId != projectId { continue; }
      DayKeysAdd(projectId, dates, l.date);
      keys := keys + {DayKey(l)};
      dates := dates + {l.date};
    }
    assert logs[..|logs|] == logs;
    n := |keys|;
  }

  // --------------------------------------------------------------- headcount

  /** The writers with approved work on project `projectId`. */
  function ApprovedWriters(logs: seq<LogRecord>, projectId: string): set<string> {
    set l | l in logs && Counts(l, projectId) :: l.writerId
  }

  lemma ApprovedWritersSnoc(logs: seq<LogRecord>, l: LogRecord, projectId: string)
    ensures ApprovedWriters(logs + [l], projectId)
      == ApprovedWriters(logs, projectId) + (if Counts(l, projectId) then {l.writerId} else {})
  {
    assert forall x :: x in logs + [l] <==> x in logs || x == l;
  }

  /** `computeProjectHeadcount`: the number of distinct writers of approved logs of the project. */
  method ComputeProjectHeadcount(logs: seq<LogRecord>, projectId: string) returns (n: nat)
    ensures n == |ApprovedWriters(logs, projectId)|
  {
    var writers: set<string> := {};
    for i := 0 to |logs|
      invariant writers == ApprovedWriters(logs[..i], projectId)
    {
      var l := logs[i];
      assert logs[..i + 1] == logs[..i] + [l];
      ApprovedWritersSnoc(logs[..i], l, projectId);
      if l.status != Approved { continue; }
      if l.projectId != projectId { continue; }
      writers := writers + {l.writerId};
    }
    assert logs[..|logs|] == logs;
    n := |writers|;
  }

  // --------------------------------------------------------------- breakdown

  /** The key of `computeProjectBreakdown`: `category + "||" + process`. */
  function BreakdownKey(l: LogRecord): string {
    l.category + "||" + l.process
  }

  /** The breakdown keys that occur among approved logs of the project. */
  function BreakdownKeySet(logs: seq<LogRecord>, projectId: string): set<string> {
    set l | l in logs && Counts(l, projectId) :: BreakdownKey(l)
  }

  /** The sum of `ratio` over approved logs of the project whose key is `key`. */
  function RatioSum(logs: seq<LogRecord>, projectId: string, key: string): int {
    if logs == [] then 0
    else
      var l := logs[|logs| - 1];
      RatioSum(logs[..|logs| - 1], projectId, key)
        + (if Counts(l, projectId) && BreakdownKey(l) == key then l.ratio else 0)
  }

  lemma RatioSumSnoc(logs: seq<LogRecord>, l: LogRecord, projectId: string, key: string)
    ensures RatioSum(logs + [l], projectId, key)
      == RatioSum(logs, projectId, key) + (if Counts(l, projectId) && BreakdownKey(l) == key then l.ratio else 0)
  {
    assert (logs + [l])[..|logs|] == logs;
  }

  /** A key that no approved log of the project carries has nothing summed under it. */
  lemma {:induction false} RatioSumOutsideKeys(logs: seq<LogRecord>, projectId: string, key: string)
    requires key !in BreakdownKeySet(logs, projectId)
    ensures RatioSum(logs, projectId, key) == 0
  {
    if logs != [] {
      var n := |logs| - 1;
      assert logs == logs[..n] + [logs[n]];
      BreakdownKeySetSnoc(logs[..n], logs[n], projectId);
      RatioSumOutsideKeys(logs[..n], projectId, key);
    }
  }

  /** The sum of `ratio` over all approved logs of the project. */
  function TotalRatio(logs: seq<LogRecord>, projectId: string): int {
    if logs == [] then 0
    else
      var l := logs[|logs| - 1];
      TotalRatio(logs[..|logs| - 1], projectId) + (if Counts(l, projectId) then l.ratio else 0)
  }

  lemma BreakdownKeySetSnoc(logs: seq<LogRecord>, l: LogRecord, projectId: string)
    ensures BreakdownKeySet(logs + [l], projectId)
      == BreakdownKeySet(logs, projectId) + (if Counts(l, projectId) then {BreakdownKey(l)} else {})
  {
    assert forall x :: x in logs + [l] <==> x in logs || x == l;
  }

  /**
   * `computeProjectBreakdown`: the loop adds each approved log's ratio of the
   * project under its key. The map has exactly the keys that occur and each
   * value is the sum of ratios under that key.
   */
  method ComputeProjectBreakdown(logs: seq<LogRecord>, projectId: string) returns (m: map<string, int>)
    ensures m.Keys == BreakdownKeySet(logs, projectId)
    ensures forall k :: k in m ==> m[k] == RatioSum(logs, projectId, k)
  {
    m := map[];
    for i := 0 to |logs|
      invariant m.Keys == BreakdownKeySet(logs[..i], projectId)
      invariant forall k :: k in m ==> m[k] == RatioSum(logs[..i], projectId, k)
    {
      var l := logs[i];
      assert logs[..i + 1] == logs[..i] + [l];
      BreakdownKeySetSnoc(logs[..i], l, projectId);
      forall k {
        RatioSumSnoc(logs[..i], l, projectId, k);
      }
      if l.status != Approved { continue; }
      if l.projectId != projectId { continue; }
      var k := BreakdownKey(l);
      if k !in m {
        RatioSumOutsideKeys(logs[..i], projectId, k);
      }
      m := m[k := (if k in m then m[k] else 0) + l.ratio];
    }
    assert logs[..|logs|] == logs;
  }

  /** The breakdown values under the keys `ks`, added up. */
  function SumOver(ks: seq<string>, logs: seq<LogRecord>, projectId: string): int {
    if ks == [] then 0
    else SumOver(ks[..|ks| - 1], logs, projectId) + RatioSum(logs, projectId, ks[|ks| - 1])
  }

  /** Adding one log to the history adds its ratio once to a sum over distinct keys that hold its key. */
  lemma {:induction false} SumOverSnoc(ks: seq<string>, logs: seq<LogRecord>, l: LogRecord, projectId: string)
    requires Distinct(ks)
    ensures SumOver(ks, logs + [l], projectId)
      == SumOver(ks, logs, projectId) + (if Counts(l, projectId) && BreakdownKey(l) in ks then l.ratio else 0)
  {
    if ks != [] {
      var init := ks[..|ks| - 1];
      assert forall x :: x in ks <==> x in init || x == ks[|ks| - 1];
      assert (logs + [l])[..|logs|] == logs;
      SumOverSnoc(init, logs, l, projectId);
    }
  }

  /** Summing the breakdown over distinct keys that cover every approved key gives the total ratio. */
  lemma {:induction false} SumOverCoveringKeys(ks: seq<string>, logs: seq<LogRecord>, projectId: string)
    requires Distinct(ks)
    requires BreakdownKeySet(logs, projectId) <= set k | k in ks
    ensures SumOver(ks, logs, projectId) == TotalRatio(logs, projectId)
  {
    if logs == [] {
      SumOverEmptyHistory(ks, projectId);
    } else {
      var n := |logs| - 1;
      var l := logs[n];
      assert logs == logs[..n] + [l];
      BreakdownKeySetSnoc(logs[..n], l, projectId);
      SumOverCoveringKeys(ks, logs[..n], projectId);
      SumOverSnoc(ks, logs[..n], l, projectId);
    }
  }

  lemma {:induction false} SumOverEmptyHistory(ks: seq<string>, projectId: string)
    ensures SumOver(ks, [], projectId) == 0
  {
    if ks != [] {
      SumOverEmptyHistory(ks[..|ks| - 1], projectId);
    }
  }

  /** The breakdown keys in order of first occurrence, as `Object.entries` lists them. */
  function BreakdownKeys(logs: seq<LogRecord>, projectId: string): (ks: seq<string>)
    ensures Distinct(ks)
    ensures forall k :: k in ks <==> k in BreakdownKeySet(logs, projectId)
  {
    Dedup(KeysInOrder(logs, projectId))
  }

  function KeysInOrder(logs: seq<LogRecord>, projectId: string): (ks: seq<string>)
    ensures forall k :: k in ks <==> k in BreakdownKeySet(logs, projectId)
  {
    if logs == [] then []
    else
      var l := logs[|logs| - 1];
      assert logs == logs[..|logs| - 1] + [l];
      BreakdownKeySetSnoc(logs[..|logs| - 1], l, projectId);
      KeysInOrder(logs[..|logs| - 1], projectId) + (if Counts(l, projectId) then [BreakdownKey(l)] else [])
  }

  /**
   * The values of the breakdown add up to the total ratio of the project's
   * approved logs. That is a sum of percentages, not a distribution: it
   * may well exceed 100.
   */
  lemma BreakdownSumsToTotal(logs: seq<LogRecord>, projectId: string)
    ensures SumOver(BreakdownKeys(logs, projectId), logs, projectId) == TotalRatio(logs, projectId)
  {
    SumOverCoveringKeys(BreakdownKeys(logs, projectId), logs, projectId);
  }

  // ------------------------------------------- only approved logs matter

  /** `logs.filter(l => l.status === "approved")`. */
  function ApprovedLogs(logs: seq<LogRecord>): (r: seq<LogRecord>)
    ensures forall l :: l in r <==> l in logs && l.status == Approved
  {
    if logs == [] then []
    else
      var init := ApprovedLogs(logs[..|logs| - 1]);
      if logs[|logs| - 1].status == Approved then init + [logs[|logs| - 1]] else init
  }

  /** Two histories of the same length that differ only at positions that are not approved in either. */
  predicate AgreeOnApproved(a: seq<LogRecord>, b: seq<LogRecord>) {
    |a| == |b| && forall i :: 0 <= i < |a| && (a[i].status == Approved || b[i].status == Approved) ==> a[i] == b[i]
  }

  /** Changing logs that are not approved, into logs that are not approved, leaves the approved subsequence alone. */
  lemma {:induction false} AgreeOnApprovedSameApproved(a: seq<LogRecord>, b: seq<LogRecord>)
    requires AgreeOnApproved(a, b)
    ensures ApprovedLogs(a) == ApprovedLogs(b)
  {
    if a != [] {
      var n := |a| - 1;
      assert AgreeOnApproved(a[..n], b[..n]);
      AgreeOnApprovedSameApproved(a[..n], b[..n]);
    }
  }

  lemma {:induction false} RatioSumOfApproved(logs: seq<LogRecord>, projectId: string, key: string)
    ensures RatioSum(logs, projectId, key) == RatioSum(ApprovedLogs(logs), projectId, key)
  {
    if logs != [] {
      var n := |logs| - 1;
      RatioSumOfApproved(logs[..n], projectId, key);
      if logs[n].status == Approved {
        RatioSumSnoc(ApprovedLogs(logs[..n]), logs[n], projectId, key);
      }
    }
  }

  lemma {:induction false} TotalRatioOfApproved(logs: seq<LogRecord>, projectId: string)
    ensures TotalRatio(logs, projectId) == TotalRatio(ApprovedLogs(logs), projectId)
  {
    if logs != [] {
      var n := |logs| - 1;
      TotalRatioOfApproved(logs[..n], projectId);
      if logs[n].status == Approved {
        var init := ApprovedLogs(logs[..n]);
        assert (init + [logs[n]])[..|init|] == init;
      }
    }
  }

  /**
   * The dashboard figures are a function of the approved logs alone: two
   * histories with the same approved subsequence give the same active days,
   * headcount, breakdown and total for every project. Submitted and rejected
   * logs never count.
   */
  lemma FiguresDependOnApprovedOnly(a: seq<LogRecord>, b: seq<LogRecord>, projectId: string)
    requires ApprovedLogs(a) == ApprovedLogs(b)
    ensures ApprovedDates(a, projectId) == ApprovedDates(b, projectId)
    ensures ApprovedWriters(a, projectId) == ApprovedWriters(b, projectId)
    ensures BreakdownKeySet(a, projectId) == BreakdownKeySet(b, projectId)
    ensures forall k :: RatioSum(a, projectId, k) == RatioSum(b, projectId, k)
    ensures TotalRatio(a, projectId) == TotalRatio(b, projectId)
  {
    var r := ApprovedLogs(a);
    assert forall l :: l in a && Counts(l, projectId) <==> l in r && Counts(l, projectId);
    assert forall l :: l in b && Counts(l, projectId) <==> l in r && Counts(l, projectId);
    forall k
      ensures RatioSum(a, projectId, k) == RatioSum(b, projectId, k)
    {
      RatioSumOfApproved(a, projectId, k);
      RatioSumOfApproved(b, projectId, k);
    }
    TotalRatioOfApproved(a, projectId);
    TotalRatioOfApproved(b, projectId);
  }

  /** The approved logs of one project, as the dashboard's "approved entries" counts them. */
  function ApprovedCount(logs: seq<LogRecord>, projectId: string): (n: nat)
    ensures n <= |logs|
  {
    if logs == [] then 0
    else ApprovedCount(logs[..|logs| - 1], projectId) + (if Counts(logs[|logs| - 1], projectId) then 1 else 0)
  }

  /** Active days and headcount never exceed the number of approved logs of the project. */
  lemma {:induction false} FiguresBoundedByApprovedCount(logs: seq<LogRecord>, projectId: string)
    ensures |ApprovedDates(logs, projectId)| <= ApprovedCount(logs, projectId)
    ensures |ApprovedWriters(logs, projectId)| <= ApprovedCount(logs, projectId)
  {
    if logs != [] {
      var n := |logs| - 1;
      assert logs == logs[..n] + [logs[n]];
      ApprovedDatesSnoc(logs[..n], logs[n], projectId);
      ApprovedWritersSnoc(logs[..n], logs[n], projectId);
      FiguresBoundedByApprovedCount(logs[..n], projectId);
    }
  }
}
