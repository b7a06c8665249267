/**
 * The approval view: the submitted logs in `submittedAt` order, grouped by
 * writer and date, and the approve and reject buttons that stamp every log
 * of a group. Groups hold positions in `db.logs`, where the code holds
 * references to the same log objects.
 */
module Approval {
  import opened Util
  import opened Text
  import opened Entities
  import opened Aggregation

  /** Every member of `s` is a position of `db.logs`. */
  predicate InRange(logs: seq<LogRecord>, s: seq<nat>) {
    forall a :: 0 <= a < |s| ==> s[a] < |logs|
  }

  predicate Increasing(s: seq<nat>) {
    forall a, b :: 0 <= a < b < |s| ==> s[a] < s[b]
  }

  /** The positions of the submitted logs, in log order. */
  function SubmittedIndices(logs: seq<LogRecord>): (r: seq<nat>)
    ensures InRange(logs, r) && Increasing(r)
    ensures forall x: nat :: x in r <==> x < |logs| && logs[x].status == Submitted
  {
    if logs == [] then []
    else
      var n := |logs| - 1;
      SubmittedIndices(logs[..n]) + (if logs[n].status == Submitted then [n] else [])
  }

  // ------------------------------------------------------------- ordering

  /**
   * The order the approval list shows: earlier `submittedAt` first
   * (`localeCompare` on the fixed-width timestamps the code writes agrees
   * with character order), and, the sort being stable, log order among equal
   * timestamps.
   */
  predicate Before(logs: seq<LogRecord>, i: nat, j: nat)
    requires i < |logs| && j < |logs|
  {
    StrLt(logs[i].submittedAt, logs[j].submittedAt)
    || (logs[i].submittedAt == logs[j].submittedAt && i < j)
  }

  lemma BeforeTransitive(logs: seq<LogRecord>, i: nat, j: nat, k: nat)
    requires i < |logs| && j < |logs| && k < |logs|
    requires Before(logs, i, j) && Before(logs, j, k)
    ensures Before(logs, i, k)
  {
    var a, b, c := logs[i].submittedAt, logs[j].submittedAt, logs[k].submittedAt;
    if StrLt(a, b) && StrLt(b, c) {
      StrLtTransitive(a, b, c);
    }
  }

  predicate SortedByTime(logs: seq<LogRecord>, s: seq<nat>)
    requires InRange(logs, s)
  {
    forall a, b :: 0 <= a < b < |s| ==> Before(logs, s[a], s[b])
  }

  /** Insert `x`, which comes before every element of `s` in log order, in front of the first element not submitted earlier. */
  function Insert(logs: seq<LogRecord>, x: nat, s: seq<nat>): (r: seq<nat>)
    requires x < |logs| && InRange(logs, s)
    requires SortedByTime(logs, s)
    requires forall a :: 0 <= a < |s| ==> x < s[a]
    ensures InRange(logs, r) && SortedByTime(logs, r)
    ensures multiset(r) == multiset(s) + multiset{x}
  {
    if s == [] then [x]
    else if !StrLt(logs[s[0]].submittedAt, logs[x].submittedAt) then
      InsertFront(logs, x, s);
      [x] + s
    else
      var rest := Insert(logs, x, s[1..]);
      InsertBehindHead(logs, x, s, rest);
      [s[0]] + rest
  }

  /** `x`, not submitted later than the head and earlier in log order than every element, may go in front. */
  lemma InsertFront(logs: seq<LogRecord>, x: nat, s: seq<nat>)
    requires x < |logs| && InRange(logs, s) && SortedByTime(logs, s) && s != []
    requires forall a :: 0 <= a < |s| ==> x < s[a]
    requires !StrLt(logs[s[0]].submittedAt, logs[x].submittedAt)
    ensures InRange(logs, [x] + s) && SortedByTime(logs, [x] + s)
    ensures multiset([x] + s) == multiset(s) + multiset{x}
  {
    StrLtTotal(logs[s[0]].submittedAt, logs[x].submittedAt);
    assert Before(logs, x, s[0]);
    forall b | 0 <= b < |s| ensures Before(logs, x, s[b]) {
      if b > 0 { BeforeTransitive(logs, x, s[0], s[b]); }
    }
    var r := [x] + s;
    forall a, b | 0 <= a < b < |r| ensures Before(logs, r[a], r[b]) {
      if a > 0 {
        assert r[a] == s[a - 1] && r[b] == s[b - 1];
      } else {
        assert r[b] == s[b - 1];
      }
    }
  }

  /** The head, submitted before `x`, stays in front of the sorted rest into which `x` went. */
  lemma InsertBehindHead(logs: seq<LogRecord>, x: nat, s: seq<nat>, rest: seq<nat>)
    requires x < |logs| && InRange(logs, s) && SortedByTime(logs, s) && s != []
    requires StrLt(logs[s[0]].submittedAt, logs[x].submittedAt)
    requires InRange(logs, rest) && SortedByTime(logs, rest)
    requires multiset(rest) == multiset(s[1..]) + multiset{x}
    ensures InRange(logs, [s[0]] + rest) && SortedByTime(logs, [s[0]] + rest)
    ensures multiset([s[0]] + rest) == multiset(s) + multiset{x}
  {
    forall b | 0 <= b < |rest| ensures Before(logs, s[0], rest[b]) {
      assert rest[b] in multiset(rest);
      if rest[b] != x {
        assert rest[b] in multiset(s[1..]);
        var a :| 0 <= a < |s[1..]| && s[1..][a] == rest[b];
        assert s[a + 1] == rest[b];
      }
    }
    var r := [s[0]] + rest;
    forall a, b | 0 <= a < b < |r| ensures Before(logs, r[a], r[b]) {
      if a > 0 {
        assert r[a] == rest[a - 1] && r[b] == rest[b - 1];
      } else {
        assert r[b] == rest[b - 1];
      }
    }
    assert s == [s[0]] + s[1..];
  }

  /** The stable sort of log positions by submission time. */
  function SortByTime(logs: seq<LogRecord>, s: seq<nat>): (r: seq<nat>)
    requires InRange(logs, s) && Increasing(s)
    ensures InRange(logs, r) && SortedByTime(logs, r)
    ensures multiset(r) == multiset(s)
  {
    if s == [] then []
    else
      TailFacts(logs, s);
      var rest := SortByTime(logs, s[1..]);
      HeadBeforeRest(s, rest);
      Insert(logs, s[0], rest)
  }

  lemma TailFacts(logs: seq<LogRecord>, s: seq<nat>)
    requires s != [] && InRange(logs, s) && Increasing(s)
    ensures InRange(logs, s[1..]) && Increasing(s[1..])
    ensures forall x :: x in s[1..] ==> s[0] < x
    ensures multiset(s) == multiset(s[1..]) + multiset{s[0]}
  {
    assert s == [s[0]] + s[1..];
  }

  /** The sorted tail of an increasing sequence holds only elements after its head. */
  lemma HeadBeforeRest(s: seq<nat>, rest: seq<nat>)
    requires s != [] && Increasing(s) && multiset(rest) == multiset(s[1..])
    ensures forall a :: 0 <= a < |rest| ==> s[0] < rest[a]
  {
    forall a | 0 <= a < |rest| ensures s[0] < rest[a] {
      assert rest[a] in multiset(rest);
      assert rest[a] in s[1..];
    }
  }

  /** `db.logs.filter(submitted).sort(by submittedAt)`, as positions. */
  function PendingByTime(logs: seq<LogRecord>): (r: seq<nat>)
    ensures InRange(logs, r) && SortedByTime(logs, r)
    ensures forall x: nat :: x in r <==> x < |logs| && logs[x].status == Submitted
  {
    var s := SubmittedIndices(logs);
    var r := SortByTime(logs, s);
    assert forall x :: x in r <==> x in multiset(s);
    r
  }

  // ------------------------------------------------------------- grouping

  /** The grouping key `${writerId}__${date}`. */
  function GroupKey(l: LogRecord): string {
    l.writerId + "__" + l.date
  }

  /**
   * Dates from the date input have the form YYYY-MM-DD and never contain
   * '_', and then the key identifies writer and date exactly.
   */
  lemma GroupKeyIdentifiesWriterAndDate(l1: LogRecord, l2: LogRecord)
    requires '_' !in l1.date && '_' !in l2.date
    ensures GroupKey(l1) == GroupKey(l2) <==> l1.writerId == l2.writerId && l1.date == l2.date
  {
    if GroupKey(l1) == GroupKey(l2) {
      JoinInjectiveRight(l1.writerId, l1.date, l2.writerId, l2.date, "__");
    }
  }

  /** The members of `s` whose log has key `k`, in the order of `s`. */
  function KeyFilter(logs: seq<LogRecord>, s: seq<nat>, k: string): (r: seq<nat>)
    requires InRange(logs, s)
    ensures InRange(logs, r)
    ensures forall x :: x in r <==> x in s && GroupKey(logs[x]) == k
  {
    if s == [] then []
    else
      var n := |s| - 1;
      KeyFilter(logs, s[..n], k) + (if GroupKey(logs[s[n]]) == k then [s[n]] else [])
  }

  /** A group keeps the order of the list it was taken from. */
  lemma {:induction false} KeyFilterKeepsOrder(logs: seq<LogRecord>, s: seq<nat>, k: string)
    requires InRange(logs, s) && SortedByTime(logs, s)
    ensures SortedByTime(logs, KeyFilter(logs, s, k))
  {
    if s != [] {
      var n := |s| - 1;
      KeyFilterKeepsOrder(logs, s[..n], k);
      var init := KeyFilter(logs, s[..n], k);
      forall y | y in init ensures Before(logs, y, s[n]) {
        var a :| 0 <= a < n && s[..n][a] == y;
        assert s[a] == y;
      }
    }
  }

  /** The keys of the members of `s`, in order. */
  function KeysOf(logs: seq<LogRecord>, s: seq<nat>): (ks: seq<string>)
    requires InRange(logs, s)
    ensures |ks| == |s| && forall a :: 0 <= a < |s| ==> ks[a] == GroupKey(logs[s[a]])
  {
    if s == [] then [] else KeysOf(logs, s[..|s| - 1]) + [GroupKey(logs[s[|s| - 1]])]
  }

  /** `KeysOf` is the key of every member, so a key occurs exactly when a member has it. */
  lemma KeysOfMembers(logs: seq<LogRecord>, s: seq<nat>, k: string)
    requires InRange(logs, s)
    ensures k in KeysOf(logs, s) <==> exists x :: x in s && GroupKey(logs[x]) == k
  {
    var ks := KeysOf(logs, s);
    if k in ks {
      var a :| 0 <= a < |ks| && ks[a] == k;
      assert s[a] in s;
    }
  }

  /**
   * The grouping loop of the approval view: walk the submitted logs in time
   * order and push each onto the list of its key, creating the list the
   * first time the key is seen. `order` is the insertion order in which the
   * `Map` yields its groups, `groups` its contents.
   *
   * Every submitted log lies in the group of its key and in no other, no
   * group holds anything else, no group is empty, and each group is in
   * submission order.
   */
  method GroupPending(logs: seq<LogRecord>) returns (order: seq<string>, groups: map<string, seq<nat>>)
    ensures Distinct(order) && forall k :: k in groups <==> k in order
    ensures order == Dedup(KeysOf(logs, PendingByTime(logs)))
    ensures forall k :: k in groups ==> groups[k] == KeyFilter(logs, PendingByTime(logs), k)
    ensures forall k, x :: k in groups && x in groups[k] ==>
      x < |logs| && logs[x].status == Submitted && GroupKey(logs[x]) == k
    ensures forall x :: 0 <= x < |logs| && logs[x].status == Submitted ==>
      GroupKey(logs[x]) in groups && x in groups[GroupKey(logs[x])]
    ensures forall k :: k in groups ==> groups[k] != [] && InRange(logs, groups[k]) && SortedByTime(logs, groups[k])
  {
    var submitted := PendingByTime(logs);
    order, groups := GroupByKey(logs, submitted);
    GroupsPartition(logs, submitted, groups);
  }

  /**
   * The loop of the grouping: push each member of `s` onto the list of its
   * key, creating the list (and recording the key) the first time the key is
   * seen.
   */
  method GroupByKey(logs: seq<LogRecord>, s: seq<nat>) returns (order: seq<string>, groups: map<string, seq<nat>>)
    requires InRange(logs, s)
    ensures order == Dedup(KeysOf(logs, s))
    ensures forall k :: k in groups <==> k in order
    ensures forall k :: k in groups ==> groups[k] == KeyFilter(logs, s, k)
  {
    order, groups := [], map[];
    for i := 0 to |s|
      invariant GroupsOf(logs, s[..i], order, groups)
    {
      var l := s[i];
      var k := GroupKey(logs[l]);
      ghost var order0, groups0 := order, groups;
      if k !in groups {
        groups := groups[k := []];
        order := order + [k];
      }
      groups := groups[k := groups[k] + [l]];
      assert s[..i + 1] == s[..i] + [l];
      GroupStep(logs, s[..i], l, order0, groups0, order, groups);
    }
    assert s[..|s|] == s;
  }

  /** The loop invariant of `GroupByKey` once the logs of `pre` have been pushed. */
  ghost predicate GroupsOf(logs: seq<LogRecord>, pre: seq<nat>, order: seq<string>, groups: map<string, seq<nat>>)
    requires InRange(logs, pre)
  {
    && order == Dedup(KeysOf(logs, pre))
    && (forall k :: k in groups <==> k in order)
    && (forall k :: k in groups ==> groups[k] == KeyFilter(logs, pre, k))
  }

  /** Pushing the next log onto the list of its key (created when missing) keeps the invariant. */
  lemma GroupStep(logs: seq<LogRecord>, pre: seq<nat>, x: nat,
                  order: seq<string>, groups: map<string, seq<nat>>,
                  order': seq<string>, groups': map<string, seq<nat>>)
    requires InRange(logs, pre) && x < |logs|
    requires GroupsOf(logs, pre, order, groups)
    requires var k := GroupKey(logs[x]);
      && order' == (if k in groups then order else order + [k])
      && groups' == groups[k := (if k in groups then groups[k] else []) + [x]]
    ensures InRange(logs, pre + [x]) && GroupsOf(logs, pre + [x], order', groups')
  {
    var k := GroupKey(logs[x]);
    KeysOfSnoc(logs, pre, x);
    DedupSnoc(KeysOf(logs, pre), k);
    GroupStepContents(logs, pre, x, groups, groups');
  }

  /** The lists after one push are the key filters of the longer prefix. */
  lemma GroupStepContents(logs: seq<LogRecord>, pre: seq<nat>, x: nat,
                          groups: map<string, seq<nat>>, groups': map<string, seq<nat>>)
    requires InRange(logs, pre) && x < |logs|
    requires forall k :: k in groups ==> groups[k] == KeyFilter(logs, pre, k)
    requires forall k :: k in KeysOf(logs, pre) ==> k in groups
    requires var k := GroupKey(logs[x]);
      groups' == groups[k := (if k in groups then groups[k] else []) + [x]]
    ensures InRange(logs, pre + [x])
    ensures forall k :: k in groups' ==> groups'[k] == KeyFilter(logs, pre + [x], k)
  {
    var k := GroupKey(logs[x]);
    KeysOfSnoc(logs, pre, x);
    if k !in groups {
      KeysOfMembers(logs, pre, k);
      KeyFilterAbsent(logs, pre, k);
    }
    forall k' | k' in groups'
      ensures groups'[k'] == KeyFilter(logs, pre + [x], k')
    {
      KeyFilterSnoc(logs, pre, x, k');
    }
  }


  /** No member carries the key: its group is empty. */
  lemma {:induction false} KeyFilterAbsent(logs: seq<LogRecord>, s: seq<nat>, k: string)
    requires InRange(logs, s)
    requires forall x :: x in s ==> GroupKey(logs[x]) != k
    ensures KeyFilter(logs, s, k) == []
  {
    if s != [] {
      var n := |s| - 1;
      assert forall x :: x in s[..n] ==> x in s;
      KeyFilterAbsent(logs, s[..n], k);
      assert s[n] in s;
    }
  }

  lemma KeysOfSnoc(logs: seq<LogRecord>, pre: seq<nat>, x: nat)
    requires InRange(logs, pre) && x < |logs|
    ensures InRange(logs, pre + [x])
    ensures KeysOf(logs, pre + [x]) == KeysOf(logs, pre) + [GroupKey(logs[x])]
  {
    assert (pre + [x])[..|pre|] == pre;
  }

  lemma KeyFilterSnoc(logs: seq<LogRecord>, pre: seq<nat>, x: nat, k: string)
    requires InRange(logs, pre) && x < |logs|
    ensures InRange(logs, pre + [x])
    ensures KeyFilter(logs, pre + [x], k) == KeyFilter(logs, pre, k) + (if GroupKey(logs[x]) == k then [x] else [])
  {
    assert (pre + [x])[..|pre|] == pre;
  }

  /** The groups built from the time-ordered submitted logs partition them by key, each in time order. */
  lemma GroupsPartition(logs: seq<LogRecord>, submitted: seq<nat>, groups: map<string, seq<nat>>)
    requires submitted == PendingByTime(logs)
    requires forall k :: k in groups <==> k in KeysOf(logs, submitted)
    requires forall k :: k in groups ==> groups[k] == KeyFilter(logs, submitted, k)
    ensures forall k, x :: k in groups && x in groups[k] ==>
      x < |logs| && logs[x].status == Submitted && GroupKey(logs[x]) == k
    ensures forall x :: 0 <= x < |logs| && logs[x].status == Submitted ==>
      GroupKey(logs[x]) in groups && x in groups[GroupKey(logs[x])]
    ensures forall k :: k in groups ==> groups[k] != [] && InRange(logs, groups[k]) && SortedByTime(logs, groups[k])
  {
    forall k | k in groups
      ensures groups[k] != [] && SortedByTime(logs, groups[k])
    {
      KeysOfMembers(logs, submitted, k);
      KeyFilterKeepsOrder(logs, submitted, k);
    }
    forall x | 0 <= x < |logs| && logs[x].status == Submitted
      ensures GroupKey(logs[x]) in groups
    {
      KeysOfMembers(logs, submitted, GroupKey(logs[x]));
    }
  }

  // ------------------------------------------------------ approve / reject

  /** The log after the approve button: approved, by `uid`, at `t`. */
  function ApprovedLog(l: LogRecord, uid: string, t: string): (r: LogRecord)
    ensures r.status == Approved && r.approvedBy == uid && r.approvedAt == t
    ensures r.(status := l.status, approvedBy := l.approvedBy, approvedAt := l.approvedAt) == l
  {
    l.(status := Approved, approvedBy := uid, approvedAt := t)
  }

  /** The log after the reject button: rejected, by `uid`, at `t`, with the reason given. */
  function RejectedLog(l: LogRecord, uid: string, t: string, reason: string): (r: LogRecord)
    ensures r.status == Rejected && r.rejectedBy == uid && r.rejectedAt == t && r.rejectReason == reason
    ensures r.(status := l.status, rejectedBy := l.rejectedBy, rejectedAt := l.rejectedAt, rejectReason := l.rejectReason) == l
  {
    l.(status := Rejected, rejectedBy := uid, rejectedAt := t, rejectReason := reason)
  }

  /** `prompt(...) || ""`: a cancelled prompt or an empty answer gives the empty reason. */
  function ReasonOf(answer: Option<string>): (reason: string)
    ensures answer.Some? ==> reason == answer.value
    ensures answer.None? ==> reason == ""
  {
    if answer.Some? then answer.value else ""
  }

  /** `logs` with every member of `group` approved and every other log as it was. */
  function StampApproved(logs: seq<LogRecord>, group: seq<nat>, uid: string, t: string): (r: seq<LogRecord>)
    requires InRange(logs, group)
    ensures |r| == |logs|
    ensures forall i :: 0 <= i < |logs| ==> r[i] == if i in group then ApprovedLog(logs[i], uid, t) else logs[i]
  {
    seq(|logs|, i requires 0 <= i < |logs| => if i in group then ApprovedLog(logs[i], uid, t) else logs[i])
  }

  /** `logs` with every member of `group` rejected and every other log as it was. */
  function StampRejected(logs: seq<LogRecord>, group: seq<nat>, uid: string, t: string, reason: string): (r: seq<LogRecord>)
    requires InRange(logs, group)
    ensures |r| == |logs|
    ensures forall i :: 0 <= i < |logs| ==> r[i] == if i in group then RejectedLog(logs[i], uid, t, reason) else logs[i]
  {
    seq(|logs|, i requires 0 <= i < |logs| => if i in group then RejectedLog(logs[i], uid, t, reason) else logs[i])
  }

  /** The dates of the group's logs that belong to project `projectId`. */
  function GroupDates(logs: seq<LogRecord>, group: seq<nat>, projectId: string): set<string>
    requires InRange(logs, group)
  {
    set i | i in group && logs[i].projectId == projectId :: logs[i].date
  }

  /**
   * Approving a group of submitted logs adds their dates to the project's
   * active days and nothing else.
   */
  lemma ApproveAddsGroupDates(logs: seq<LogRecord>, group: seq<nat>, uid: string, t: string, projectId: string)
    requires InRange(logs, group)
    ensures ApprovedDates(StampApproved(logs, group, uid, t), projectId)
      == ApprovedDates(logs, projectId) + GroupDates(logs, group, projectId)
  {
    var after := StampApproved(logs, group, uid, t);
    forall d | d in ApprovedDates(after, projectId)
      ensures d in ApprovedDates(logs, projectId) + GroupDates(logs, group, projectId)
    {
      var l :| l in after && Counts(l, projectId) && l.date == d;
      var i :| 0 <= i < |after| && after[i] == l;
      if i !in group {
        assert logs[i] == l;
      }
    }
    forall d | d in GroupDates(logs, group, projectId)
      ensures d in ApprovedDates(after, projectId)
    {
      var i :| i in group && logs[i].projectId == projectId && logs[i].date == d;
      assert after[i] in after && Counts(after[i], projectId);
    }
    forall d | d in ApprovedDates(logs, projectId)
      ensures d in ApprovedDates(after, projectId)
    {
      var l :| l in logs && Counts(l, projectId) && l.date == d;
      var i :| 0 <= i < |logs| && logs[i] == l;
      assert after[i] in after && Counts(after[i], projectId);
    }
  }

  /**
   * Approving a group whose members are distinct submitted logs lowers the
   * pending badge by the size of the group.
   */
  lemma ApproveLowersPendingCount(logs: seq<LogRecord>, group: seq<nat>, uid: string, t: string)
    requires InRange(logs, group) && Distinct(group)
    requires forall a :: 0 <= a < |group| ==> logs[group[a]].status == Submitted
    ensures PendingCount(StampApproved(logs, group, uid, t)) == PendingCount(logs) - |group|
  {
    var after := StampApproved(logs, group, uid, t);
    var members := set x: nat | x in group;
    assert |members| == |group| by {
      DistinctCard(group);
    }
    assert SubmittedPositions(after) == SubmittedPositions(logs) - members;
    assert members <= SubmittedPositions(logs);
    assert SubmittedPositions(logs) == (SubmittedPositions(logs) - members) + members;
    PendingCountIsPositionCount(logs);
    PendingCountIsPositionCount(after);
  }

  /** A sequence without repetitions has as many elements as its set of members. */
  lemma {:induction false} DistinctCard(s: seq<nat>)
    requires Distinct(s)
    ensures |set x: nat | x in s| == |s|
  {
    if s != [] {
      var n := |s| - 1;
      var init := set x: nat | x in s[..n];
      assert Distinct(s[..n]);
      DistinctCard(s[..n]);
      assert s[n] !in init;
      assert (set x: nat | x in s) == init + {s[n]};
    }
  }

  /** Rejecting logs that are not approved touches no approved log and approves none. */
  lemma RejectAgreesOnApproved(logs: seq<LogRecord>, group: seq<nat>, uid: string, t: string, reason: string)
    requires InRange(logs, group)
    requires forall a :: 0 <= a < |group| ==> logs[group[a]].status != Approved
    ensures AgreeOnApproved(logs, StampRejected(logs, group, uid, t, reason))
  {
    var after := StampRejected(logs, group, uid, t, reason);
    forall i | 0 <= i < |logs| && i in group
      ensures logs[i].status != Approved && after[i].status == Rejected
    {
      var a :| 0 <= a < |group| && group[a] == i;
    }
  }

  /**
   * Rejecting a group that holds no approved log changes none of the
   * dashboard figures of any project: rejected logs never count.
   */
  lemma RejectKeepsFigures(logs: seq<LogRecord>, group: seq<nat>, uid: string, t: string, reason: string, projectId: string)
    requires InRange(logs, group)
    requires forall a :: 0 <= a < |group| ==> logs[group[a]].status != Approved
    ensures ApprovedDates(StampRejected(logs, group, uid, t, reason), projectId) == ApprovedDates(logs, projectId)
    ensures ApprovedWriters(StampRejected(logs, group, uid, t, reason), projectId) == ApprovedWriters(logs, projectId)
    ensures forall k :: RatioSum(StampRejected(logs, group, uid, t, reason), projectId, k) == RatioSum(logs, projectId, k)
  {
    var after := StampRejected(logs, group, uid, t, reason);
    RejectAgreesOnApproved(logs, group, uid, t, reason);
    AgreeOnApprovedSameApproved(logs, after);
    FiguresDependOnApprovedOnly(logs, after, projectId);
  }

  /** Rejecting never raises the pending badge. */
  lemma RejectDoesNotRaisePendingCount(logs: seq<LogRecord>, group: seq<nat>, uid: string, t: string, reason: string)
    requires InRange(logs, group)
    ensures PendingCount(StampRejected(logs, group, uid, t, reason)) <= PendingCount(logs)
  {
    var after := StampRejected(logs, group, uid, t, reason);
    PendingCountIsPositionCount(logs);
    PendingCountIsPositionCount(after);
    var before, now := SubmittedPositions(logs), SubmittedPositions(after);
    assert now <= before;
    assert before == now + (before - now);
  }

  /** A list in strict time order repeats no log. */
  lemma SortedDistinct(logs: seq<LogRecord>, s: seq<nat>)
    requires InRange(logs, s) && SortedByTime(logs, s)
    ensures Distinct(s)
  {
    forall a, b | 0 <= a < b < |s| ensures s[a] != s[b] {
      assert Before(logs, s[a], s[b]);
      StrLtIrreflexive(logs[s[a]].submittedAt);
    }
  }

  /**
   * Approving one of the groups the view shows lowers the pending badge by
   * exactly the size of the group and adds the group's dates to each
   * project's active days.
   */
  lemma ApproveShownGroup(logs: seq<LogRecord>, k: string, uid: string, t: string, projectId: string)
    ensures var g := KeyFilter(logs, PendingByTime(logs), k);
      && InRange(logs, g)
      && PendingCount(StampApproved(logs, g, uid, t)) == PendingCount(logs) - |g|
      && ApprovedDates(StampApproved(logs, g, uid, t), projectId)
         == ApprovedDates(logs, projectId) + GroupDates(logs, g, projectId)
  {
    var s := PendingByTime(logs);
    var g := KeyFilter(logs, s, k);
    KeyFilterKeepsOrder(logs, s, k);
    SortedDistinct(logs, g);
    forall a | 0 <= a < |g| ensures logs[g[a]].status == Submitted {
      assert g[a] in g;
    }
    ApproveLowersPendingCount(logs, g, uid, t);
    ApproveAddsGroupDates(logs, g, uid, t, projectId);
  }
}
