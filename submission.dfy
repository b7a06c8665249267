/**
 * Validation of a work-log batch and the records a successful submission
 * appends (the submit handler of the log view).
 */
module Submission {
  import opened Util
  import opened Text
  import opened Entities
  import opened Process

  /** The entry field a validation message names. */
  datatype Field = ProjectField | ContentField | RatioField

  /** Why a submission was refused: no date, or entry `index` (0-based) failed on `field`. */
  datatype SubmitError = MissingDate | InvalidEntry(index: nat, field: Field)

  /**
   * The checks of one entry, in the code's order: a project is selected,
   * the content is not blank, the ratio lies in 0..100. The result is the
   * first check that fails.
   */
  function EntryError(d: Draft): (f: Option<Field>)
    ensures f == None <==> d.projectId != "" && !IsBlank(d.content) && 0 <= d.ratio <= 100
    ensures f == Some(ProjectField) <==> d.projectId == ""
    ensures f == Some(ContentField) <==> d.projectId != "" && IsBlank(d.content)
    ensures f == Some(RatioField) <==> d.projectId != "" && !IsBlank(d.content) && !(0 <= d.ratio <= 100)
  {
    if d.projectId == "" then Some(ProjectField)
    else if IsBlank(d.content) then Some(ContentField)
    else if !(0 <= d.ratio <= 100) then Some(RatioField)
    else None
  }

  /** Every entry of the batch passes its checks. */
  predicate AllEntriesOk(entries: seq<Draft>) {
    forall i :: 0 <= i < |entries| ==> EntryError(entries[i]) == None
  }

  /**
   * The validation loop of the submit handler: the date is checked first,
   * then the entries in order, stopping at the first failure. The result
   * names exactly that failure, or is `None` when the whole batch passes.
   */
  method ValidateBatch(date: string, entries: seq<Draft>) returns (err: Option<SubmitError>)
    ensures err == None <==> date != "" && AllEntriesOk(entries)
    ensures err == Some(MissingDate) <==> date == ""
    ensures err.Some? && err.value.InvalidEntry? ==>
      && date != ""
      && err.value.index < |entries|
      && EntryError(entries[err.value.index]) == Some(err.value.field)
      && forall j :: 0 <= j < err.value.index ==> EntryError(entries[j]) == None
  {
    if date == "" {
      return Some(MissingDate);
    }
    var i := 0;
    while i < |entries|
      invariant 0 <= i <= |entries|
      invariant forall j :: 0 <= j < i ==> EntryError(entries[j]) == None
    {
      var f := EntryError(entries[i]);
      if f.Some? {
        return Some(InvalidEntry(i, f.value));
      }
      i := i + 1;
    }
    return None;
  }

  /** The record pushed onto `db.logs` for one entry of an accepted batch. */
  function SubmittedRecord(logId: string, date: string, d: Draft, writerId: string, submittedAt: string): LogRecord {
    LogRecord(
      logId := logId, date := date, projectId := d.projectId,
      category := d.category, process := d.process,
      content := Trim(d.content), ratio := d.ratio, writerId := writerId,
      status := Submitted, submittedAt := submittedAt,
      approvedBy := "", approvedAt := "", rejectedBy := "", rejectedAt := "", rejectReason := "")
  }

  /** The records of an accepted batch, one per entry in entry order, the i-th with the i-th fresh id. */
  function SubmittedRecords(logIds: seq<string>, date: string, entries: seq<Draft>, writerId: string, submittedAt: string): (r: seq<LogRecord>)
    requires |logIds| == |entries|
    ensures |r| == |entries|
    ensures forall i :: 0 <= i < |r| ==> r[i] == SubmittedRecord(logIds[i], date, entries[i], writerId, submittedAt)
  {
    seq(|entries|, i requires 0 <= i < |entries| => SubmittedRecord(logIds[i], date, entries[i], writerId, submittedAt))
  }

  /**
   * What every stored log satisfies: the fields submission validated, already
   * trimmed, and the classification the form's controls guarantee.
   */
  predicate WellFormed(l: LogRecord) {
    && l.date != ""
    && WellClassified(l.category, l.process)
    && l.projectId != ""
    && l.content != [] && Trim(l.content) == l.content
    && 0 <= l.ratio <= 100
  }

  /** The stamps agree with the status: only the fields of the status reached are filled. */
  predicate StampsAgree(l: LogRecord) {
    && (l.status == Submitted ==> l.approvedBy == l.approvedAt == l.rejectedBy == l.rejectedAt == l.rejectReason == "")
    && (l.status == Approved ==> l.rejectedBy == l.rejectedAt == l.rejectReason == "")
    && (l.status == Rejected ==> l.approvedBy == l.approvedAt == "")
  }

  /**
   * A record made from a form entry that passed validation, on a non-empty
   * date, is well formed and pending, with empty approve and reject stamps.
   */
  lemma SubmittedRecordWellFormed(logId: string, date: string, d: Draft, writerId: string, submittedAt: string)
    requires date != "" && EntryError(d) == None && DraftOk(d)
    ensures var l := SubmittedRecord(logId, date, d, writerId, submittedAt);
      WellFormed(l) && StampsAgree(l) && l.status == Submitted
  {
    var l := SubmittedRecord(logId, date, d, writerId, submittedAt);
    assert l.content == Trim(d.content);
    assert l.content != [];
    TrimIdempotent(d.content);
    assert Trim(l.content) == l.content;
    assert WellFormed(l);
    assert StampsAgree(l);
  }

  /** The form's controls keep every ratio in range, so its batches never fail on the ratio. */
  lemma FormNeverFailsOnRatio(entries: seq<Draft>)
    requires forall i :: 0 <= i < |entries| ==> DraftOk(entries[i])
    ensures forall i :: 0 <= i < |entries| ==> EntryError(entries[i]) != Some(RatioField)
  {
  }

  /**
   * Every record of a batch of form entries that passed validation is well formed, pending,
   * written by the submitter, stamped with the one shared submission time,
   * and carries its entry's project, classification and ratio.
   */
  lemma SubmittedRecordsOk(logIds: seq<string>, date: string, entries: seq<Draft>, writerId: string, submittedAt: string)
    requires |logIds| == |entries|
    requires date != "" && AllEntriesOk(entries)
    requires forall i :: 0 <= i < |entries| ==> DraftOk(entries[i])
    ensures var r := SubmittedRecords(logIds, date, entries, writerId, submittedAt);
      forall i :: 0 <= i < |r| ==>
        && WellFormed(r[i]) && StampsAgree(r[i]) && r[i].status == Submitted
        && r[i].writerId == writerId && r[i].submittedAt == submittedAt && r[i].date == date
        && r[i].projectId == entries[i].projectId && r[i].category == entries[i].category
        && r[i].process == entries[i].process && r[i].ratio == entries[i].ratio
        && r[i].content == Trim(entries[i].content)
  {
    forall i | 0 <= i < |entries|
      ensures WellFormed(SubmittedRecord(logIds[i], date, entries[i], writerId, submittedAt))
    {
      SubmittedRecordWellFormed(logIds[i], date, entries[i], writerId, submittedAt);
    }
  }
}
