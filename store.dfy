/**
 * The in-memory database object `db` and the handlers that change it in
 * place: batch submission, approve and reject of a pending group, and the
 * checklist's add, checkbox and delete. The clock, `uuid()`, the signed-in
 * user and the answers to `confirm`/`prompt` are parameters.
 */
module Store {
  import opened Util
  import opened Text
  import opened Entities
  import opened Process
  import opened Submission
  import opened Aggregation
  import opened Approval
  import opened Checklist

  /** What every log written by the application satisfies: validated fields and stamps that agree with the status. */
  predicate LogsOk(logs: seq<LogRecord>) {
    forall i :: 0 <= i < |logs| ==> WellFormed(logs[i]) && StampsAgree(logs[i])
  }

  /** What every checklist item written by the application satisfies: a title, and no completion stamp while open. */
  predicate ItemsOk(items: seq<ChecklistItem>) {
    forall i :: 0 <= i < |items| ==> items[i].title != [] && ItemStampsAgree(items[i])
  }

  /** Appending an accepted batch of form entries keeps every log well formed and raises the pending badge by the batch size. */
  lemma SubmitKeepsLogsOk(logs: seq<LogRecord>, logIds: seq<string>, date: string, entries: seq<Draft>,
                          writerId: string, submittedAt: string)
    requires |logIds| == |entries|
    requires LogsOk(logs) && date != "" && AllEntriesOk(entries)
    requires forall i :: 0 <= i < |entries| ==> DraftOk(entries[i])
    ensures LogsOk(logs + SubmittedRecords(logIds, date, entries, writerId, submittedAt))
    ensures PendingCount(logs + SubmittedRecords(logIds, date, entries, writerId, submittedAt))
      == PendingCount(logs) + |entries|
  {
    var recs := SubmittedRecords(logIds, date, entries, writerId, submittedAt);
    SubmittedRecordsOk(logIds, date, entries, writerId, submittedAt);
    var after := logs + recs;
    forall i | 0 <= i < |after| ensures WellFormed(after[i]) && StampsAgree(after[i]) {
      if i >= |logs| {
        assert after[i] == recs[i - |logs|];
      }
    }
    PendingCountAppend(logs, recs);
    PendingCountAllSubmitted(recs);
  }

  /** Approving logs that were never rejected keeps every log well formed with agreeing stamps. */
  lemma ApproveKeepsLogsOk(logs: seq<LogRecord>, group: seq<nat>, uid: string, t: string)
    requires InRange(logs, group) && LogsOk(logs)
    requires forall a :: 0 <= a < |group| ==> logs[group[a]].status != Rejected
    ensures LogsOk(StampApproved(logs, group, uid, t))
  {
    var after := StampApproved(logs, group, uid, t);
    forall i | 0 <= i < |logs| && i in group
      ensures logs[i].status != Rejected
    {
      var a :| 0 <= a < |group| && group[a] == i;
    }
  }

  /** Rejecting logs that were never approved keeps every log well formed with agreeing stamps. */
  lemma RejectKeepsLogsOk(logs: seq<LogRecord>, group: seq<nat>, uid: string, t: string, reason: string)
    requires InRange(logs, group) && LogsOk(logs)
    requires forall a :: 0 <= a < |group| ==> logs[group[a]].status != Approved
    ensures LogsOk(StampRejected(logs, group, uid, t, reason))
  {
    var after := StampRejected(logs, group, uid, t, reason);
    forall i | 0 <= i < |logs| && i in group
      ensures logs[i].status != Approved
    {
      var a :| 0 <= a < |group| && group[a] == i;
    }
  }

  /**
   * The groups the approval view shows hold only pending logs, so either
   * button on any of them keeps every log well formed with agreeing stamps.
   */
  lemma ShownGroupKeepsLogsOk(logs: seq<LogRecord>, k: string, uid: string, t: string, reason: string)
    requires LogsOk(logs)
    ensures var g := KeyFilter(logs, PendingByTime(logs), k);
      && InRange(logs, g)
      && LogsOk(StampApproved(logs, g, uid, t))
      && LogsOk(StampRejected(logs, g, uid, t, reason))
  {
    var g := KeyFilter(logs, PendingByTime(logs), k);
    forall a | 0 <= a < |g| ensures logs[g[a]].status == Submitted {
      assert g[a] in g;
    }
    ApproveKeepsLogsOk(logs, g, uid, t);
    RejectKeepsLogsOk(logs, g, uid, t, reason);
  }

  /** `db`: its users, projects, work logs and checklist items. */
  class Db {
    var users: seq<User>
    var projects: seq<Project>
    var logs: seq<LogRecord>
    var checklists: seq<ChecklistItem>

    /** The invariant the handlers keep on everything they write. */
    ghost predicate Valid()
      reads this
    {
      LogsOk(logs) && ItemsOk(checklists)
    }

    /** A fresh database: the given users and projects, no logs and no checklist items. */
    constructor (users: seq<User>, projects: seq<Project>)
      ensures this.users == users && this.projects == projects
      ensures logs == [] && checklists == []
      ensures Valid()
    {
      this.users := users;
      this.projects := projects;
      logs := [];
      checklists := [];
    }

    /**
     * The submit button: validate the whole batch first; on the first
     * failure report it and change nothing, otherwise push one pending
     * record per entry, in entry order, all with the same `submittedAt`.
     * `logIds` are the fresh ids `uuid()` hands out, one per entry. The
     * entries come from the form, whose controls keep them well classified.
     */
    method Submit(date: string, entries: seq<Draft>, uid: string, logIds: seq<string>, submittedAt: string)
      returns (err: Option<SubmitError>)
      requires |logIds| == |entries|
      modifies this
      ensures err == None <==> date != "" && AllEntriesOk(entries)
      ensures err == Some(MissingDate) <==> date == ""
      ensures err.Some? && err.value.InvalidEntry? ==>
        && err.value.index < |entries|
        && EntryError(entries[err.value.index]) == Some(err.value.field)
        && forall j :: 0 <= j < err.value.index ==> EntryError(entries[j]) == None
      ensures err.None? ==> logs == old(logs) + SubmittedRecords(logIds, date, entries, uid, submittedAt)
      ensures err.Some? ==> logs == old(logs)
      ensures users == old(users) && projects == old(projects) && checklists == old(checklists)
      ensures old(Valid()) && (forall i :: 0 <= i < |entries| ==> DraftOk(entries[i])) ==> Valid()
    {
      err := ValidateBatch(date, entries);
      if err.Some? {
        return;
      }
      ghost var recs := SubmittedRecords(logIds, date, entries, uid, submittedAt);
      ghost var before, wasValid := logs, Valid();
      var ls := logs;
      for i := 0 to |entries|
        invariant ls == before + recs[..i]
      {
        var rec := SubmittedRecord(logIds[i], date, entries[i], uid, submittedAt);
        assert rec == recs[i];
        ls := ls + [rec];
        assert recs[..i + 1] == recs[..i] + [rec];
      }
      assert recs[..|entries|] == recs;
      logs := ls;
      if wasValid && forall i :: 0 <= i < |entries| ==> DraftOk(entries[i]) {
        SubmitKeepsLogsOk(before, logIds, date, entries, uid, submittedAt);
      }
    }

    /**
     * The approve button of a group: when confirmed, mark every log of the
     * group approved by `uid` at `t`; nothing else changes. The status is
     * not checked again here.
     */
    method Approve(group: seq<nat>, uid: string, t: string, confirmed: bool)
      requires InRange(logs, group)
      modifies this
      ensures logs == if confirmed then StampApproved(old(logs), group, uid, t) else old(logs)
      ensures users == old(users) && projects == old(projects) && checklists == old(checklists)
      ensures old(Valid()) && (forall a :: 0 <= a < |group| ==> old(logs)[group[a]].status != Rejected) ==> Valid()
    {
      if !confirmed {
        return;
      }
      ghost var before, wasValid := logs, Valid();
      var ls := logs;
      for i := 0 to |group|
        invariant |ls| == |before|
        invariant forall j :: 0 <= j < |ls| ==>
          ls[j] == if j in group[..i] then ApprovedLog(before[j], uid, t) else before[j]
      {
        ls := ls[group[i] := ApprovedLog(ls[group[i]], uid, t)];
        assert group[..i + 1] == group[..i] + [group[i]];
      }
      assert group[..|group|] == group;
      logs := ls;
      if wasValid && (forall a :: 0 <= a < |group| ==> before[group[a]].status != Rejected) {
        ApproveKeepsLogsOk(before, group, uid, t);
      }
    }

    /**
     * The reject button of a group: the reason is asked first (`answer`,
     * `None` when the prompt is cancelled); when confirmed, mark every log of
     * the group rejected by `uid` at `t` with that reason, the empty string
     * when none was given; nothing else changes.
     */
    method Reject(group: seq<nat>, uid: string, t: string, answer: Option<string>, confirmed: bool)
      requires InRange(logs, group)
      modifies this
      ensures logs == if confirmed then StampRejected(old(logs), group, uid, t, ReasonOf(answer)) else old(logs)
      ensures users == old(users) && projects == old(projects) && checklists == old(checklists)
      ensures old(Valid()) && (forall a :: 0 <= a < |group| ==> old(logs)[group[a]].status != Approved) ==> Valid()
    {
      var reason := ReasonOf(answer);
      if !confirmed {
        return;
      }
      ghost var before, wasValid := logs, Valid();
      var ls := logs;
      for i := 0 to |group|
        invariant |ls| == |before|
        invariant forall j :: 0 <= j < |ls| ==>
          ls[j] == if j in group[..i] then RejectedLog(before[j], uid, t, reason) else before[j]
      {
        ls := ls[group[i] := RejectedLog(ls[group[i]], uid, t, reason)];
        assert group[..i + 1] == group[..i] + [group[i]];
      }
      assert group[..|group|] == group;
      logs := ls;
      if wasValid && (forall a :: 0 <= a < |group| ==> before[group[a]].status != Approved) {
        RejectKeepsLogsOk(before, group, uid, t, reason);
      }
    }

    /**
     * The add button of the checklist: a blank title adds nothing; otherwise
     * the new open item is pushed at the end.
     */
    method AddChecklistItem(itemId: string, projectId: string, title: string, description: string,
                            imageDataUrl: string, uid: string, assigneeId: string, createdAt: string)
      returns (added: bool)
      modifies this
      ensures added <==> !IsBlank(title)
      ensures var r := NewItem(itemId, projectId, title, description, imageDataUrl, uid, assigneeId, createdAt);
        checklists == if r.Some? then old(checklists) + [r.value] else old(checklists)
      ensures users == old(users) && projects == old(projects) && logs == old(logs)
      ensures old(Valid()) ==> Valid()
    {
      var r := NewItem(itemId, projectId, title, description, imageDataUrl, uid, assigneeId, createdAt);
      if r.None? {
        return false;
      }
      checklists := checklists + [r.value];
      added := true;
    }

    /** The checkbox of item `idx`: checked marks it done by `uid` at `now`, unchecked reopens it; no other item changes. */
    method SetItemChecked(idx: nat, checked: bool, uid: string, now: string)
      requires idx < |checklists|
      modifies this
      ensures checklists == old(checklists)[idx := Toggled(old(checklists)[idx], checked, uid, now)]
      ensures users == old(users) && projects == old(projects) && logs == old(logs)
      ensures old(Valid()) ==> Valid()
    {
      checklists := checklists[idx := Toggled(checklists[idx], checked, uid, now)];
    }

    /** The delete button of an item: when confirmed, drop every item with its id and keep the rest in order. */
    method DeleteChecklistItem(itemId: string, confirmed: bool)
      modifies this
      ensures checklists == if confirmed then WithoutItem(old(checklists), itemId) else old(checklists)
      ensures users == old(users) && projects == old(projects) && logs == old(logs)
      ensures old(Valid()) ==> Valid()
    {
      if confirmed {
        checklists := WithoutItem(checklists, itemId);
      }
    }
  }
}
