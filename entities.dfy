/**
 * The records kept in the work-log database (`db.users`, `db.projects`,
 * `db.logs`, `db.checklists`) and the draft entries of the work-log form.
 * Identifiers, timestamps and dates are the strings the application stores.
 */
module Entities {

  datatype User = User(userId: string, name: string, role: string)

  datatype Project = Project(
    projectId: string, projectCode: string, projectName: string,
    startDate: string, endDate: string)

  /** The three values the code writes into a log's `status`. */
  datatype Status = Submitted | Approved | Rejected

  /** One work-log record of `db.logs`. */
  datatype LogRecord = LogRecord(
    logId: string,
    date: string,
    projectId: string,
    category: string,
    process: string,
    content: string,
    ratio: int,
    writerId: string,
    status: Status,
    submittedAt: string,
    approvedBy: string,
    approvedAt: string,
    rejectedBy: string,
    rejectedAt: string,
    rejectReason: string)

  /** One entry of the work-log form before it is submitted. */
  datatype Draft = Draft(
    projectId: string, category: string, process: string, ratio: int, content: string)

  /** The two values the code writes into a checklist item's `status`. */
  datatype ItemStatus = Open | Done

  /** One item of `db.checklists`. */
  datatype ChecklistItem = ChecklistItem(
    itemId: string,
    projectId: string,
    title: string,
    description: string,
    imageDataUrl: string,
    writerId: string,
    assigneeId: string,
    status: ItemStatus,
    createdAt: string,
    doneBy: string,
    doneAt: string)
}
