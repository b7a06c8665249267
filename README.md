# Work-log approval store, modelled in Dafny

The system is a small groupware front end for a construction-cost office
(`app.js`). Staff file daily work logs. Each batch has one date and one or
more entries, and each entry has a project, a category and process from a
fixed process master, a ratio in percent and a free-text description.
Submitted logs wait in an approval queue. The queue groups them by writer
and date, in submission-time order, and a group is approved or rejected as
a whole. The dashboard figures per project (active days, headcount, ratio
per category/process) read approved logs only. A separate checklist per
project holds items that can be added, checked off, unchecked and deleted.

The model keeps the program's own structure:

- `Text` covers `String.prototype.trim` with ECMAScript's white-space set, JavaScript's `<` on strings, and the injectivity of the joined keys the code builds.
- `Helpers` covers `clamp`, `pad2` and `getRoute`.
- `Entities` holds the records of `db`.
- `Process` covers `PROCESS_MASTER` and `makeEmptyEntry`. It also holds the work-log form as a class whose entry list the handlers edit in place.
- `Submission` covers the validation loop of the submit handler and the records it pushes.
- `Aggregation` covers `pendingCount` and the three dashboard figures. Each figure has a specification function and a loop method that computes it the way the code does.
- `Breakdown` reads the breakdown per (category, process) pair. On logs classified from the process master, the joined key names exactly one pair.
- `Approval` covers the submitted-only, time-sorted list, the grouping loop into a `Map`, and the approve and reject stamps.
- `Checklist` covers the assignee filter, the new item, the checkbox transition and delete by id.
- `Store` holds `db` as a class. Its methods are the handlers that change it in place.

Groups hold positions in `db.logs` where the code holds references to the same log objects.

## Model

| member | source | states |
|---|---|---|
| Text.Trim | app.js:359 | `trim()` as stripping leading then trailing white space; what that yields is stated by `Text.TrimSpec` |
| Text.TrimStartSpec | app.js:359 | the leading-space strip removes a prefix made only of white space and leaves a string that does not start with white space |
| Text.TrimEndSpec | app.js:359 | the trailing-space strip removes a suffix made only of white space and leaves a string that does not end with white space |
| Text.TrimSpec | app.js:359 | `trim()` yields the piece of the input between a run of leading and a run of trailing white space, neither starting nor ending with white space |
| Text.IsBlank | app.js:347 | `!content \|\| !content.trim()` as "the trimmed text is empty"; `Text.BlankIffAllSpace` states what that means |
| Text.BlankIffAllSpace | app.js:347 | `!content \|\| !content.trim()` holds exactly when every character is white space (or the string is empty) |
| Text.TrimIdempotent | app.js:359 | trimming a trimmed string changes nothing |
| Text.StrLtIrreflexive | app.js:412-413 | string `<` never holds between a string and itself |
| Text.StrLtTransitive | app.js:412-413 | string `<` is transitive, so the submission-time order is a strict order |
| Text.StrLtTotal | app.js:412-413 | any two distinct strings are ordered one way or the other |
| Text.JoinInjectiveLeft | app.js:210 | in `a + sep + b`, when neither left part holds the separator's first character, equal joins have equal left parts |
| Text.JoinInjectiveRight | app.js:418 | in `a + sep + b`, when neither right part holds the separator's last character, equal joins have equal right parts |
| Text.JoinCancelLeft | app.js:190 | two keys with the same prefix and separator are equal only when their suffixes are |
| Util.Dedup | app.js:416-421 | the distinct keys of a list, which a `Map` filled along the list enumerates: the same members as the list, no repeats, no longer than the list |
| Util.DedupFirstOccurrence | app.js:416-421 | the keys come in first-occurrence order: a key listed before another occurs in the list before every occurrence of that other key, which is `Map` insertion order |
| Util.DedupSnoc | app.js:416-421 | a new key goes to the end of the insertion order and an old one changes nothing |
| Helpers.Clamp | app.js:46 | `Math.min(b, Math.max(a, n))` lies in `a..b` when `a <= b`, is `n` inside the range and the nearer bound outside it, and is `b` when the bounds are crossed |
| Helpers.DecimalString | app.js:34 | `String(n)` of a natural number below 10^21 is non-empty decimal digits without a leading zero, one digit below 10 and two below 100 |
| Helpers.DecimalRoundTrip | app.js:34 | reading back the digits `String(n)` prints gives `n` |
| Helpers.LeadingZero | app.js:34 | the `"0"` that `padStart` adds does not change the value |
| Helpers.Pad2 | app.js:34 | the result has at least two characters; it is exactly two digits iff `0 <= n < 100`; it denotes `n` for `n >= 0` (below 10^21); a negative `n` keeps its minus sign |
| Helpers.Pad2Digits | app.js:34 | for 0..99 the result is the tens digit followed by the units digit |
| Helpers.Pad2Ordered | app.js:34-39 | for 0..99 string order of the padded forms agrees with numeric order, so the timestamps built with `pad2` sort as strings |
| Helpers.TakeUntil | app.js:163 | the longest prefix without the stop character, which `[^?]*` matches greedily |
| Helpers.Route | app.js:161-165 | an empty hash means `#/log`; a hash starting `#/` yields the text after `#` up to the first `?`; any other hash yields `/log`; every route starts with `/` and holds no `?` |
| Helpers.RouteRoundTrip | app.js:161-165 | a path written into the hash, with or without a query, is read back unchanged |
| Process.ProcessMaster | app.js:13-16 | the two categories and their process lists, in display order; `Process.MasterListsNonEmpty` and `Process.MasterNamesHaveNoBar` state its properties |
| Process.MasterListsNonEmpty | app.js:13-16 | every category has a first process, so the reset on a category change is defined |
| Process.MasterNamesHaveNoBar | app.js:13-16 | no category or process name contains `\|`, so the breakdown key `category\|\|process` splits back uniquely |
| Process.MakeEmptyEntry | app.js:399-402 | the empty entry is the first project (or `""` with none), the structure category with its first process, ratio 50, no content, and so is well classified |
| Process.DraftForm.constructor | app.js:259 | the form opens with one empty entry |
| Process.DraftForm.AddEntry | app.js:336 | one empty entry is appended; the form keeps at least one entry, each well classified with a ratio in 0..100 |
| Process.DraftForm.RemoveEntry | app.js:295-301 | deleting is refused when only one entry is left, otherwise exactly that entry is spliced out; the invariant is kept |
| Process.DraftForm.SetProject | app.js:271 | only the chosen entry's project changes |
| Process.DraftForm.SetRatio | app.js:273-278 | the typed ratio is clamped to 0..100 and stored in the chosen entry only |
| Process.DraftForm.SetCategory | app.js:280-284 | changing the category resets the process to the first of the new category's list, so the entry stays well classified |
| Process.DraftForm.SetProcess | app.js:286 | a process from the category's own list is stored in the chosen entry only |
| Process.DraftForm.SetContent | app.js:288-293 | the typed text is stored untrimmed in the chosen entry only |
| Submission.EntryError | app.js:344-349 | an entry fails on the project when none is selected, on the content when the project is set but the content is blank, on the ratio when both are fine but the ratio is outside 0..100, and passes otherwise |
| Submission.ValidateBatch | app.js:341-349 | the batch passes iff the date is set and every entry passes; a missing date is reported first; otherwise the report names the first failing entry and its field, and all earlier entries pass |
| Submission.SubmittedRecord | app.js:353-369 | the record pushed for one entry; its fields are stated by `Submission.SubmittedRecordWellFormed` and `Submission.SubmittedRecordsOk` |
| Submission.SubmittedRecords | app.js:351-370 | an accepted batch yields one record per entry in entry order, the i-th built from the i-th entry and the i-th fresh id |
| Submission.SubmittedRecordWellFormed | app.js:353-369 | a record of an accepted form entry has a date, a project, a category and process from the master, non-empty trimmed content and a ratio in 0..100; it is pending with empty approve and reject stamps |
| Submission.SubmittedRecordsOk | app.js:351-370 | every record of an accepted batch of form entries is well formed and pending, written by the submitter with the shared `submittedAt`, and carries its entry's project, classification, ratio and trimmed content |
| Submission.FormNeverFailsOnRatio | app.js:348 | entries kept by the form never fail the ratio check |
| Aggregation.PendingCount | app.js:180-182 | the badge: the length of the list of submitted logs; `Aggregation.PendingCountIsPositionCount` states what it counts |
| Aggregation.Pending | app.js:181 | the filter keeps exactly the submitted logs |
| Aggregation.PendingCountIsPositionCount | app.js:180-182 | the badge equals the number of positions holding a submitted log |
| Aggregation.PendingCountAppend | app.js:180-182 | the badge adds up over concatenated log lists |
| Aggregation.PendingCountAllSubmitted | app.js:180-182 | a list of submitted logs contributes its whole length to the badge |
| Aggregation.ApprovedDatesSnoc | app.js:184-193 | one more log adds its date to the active days exactly when it is approved and of the project |
| Aggregation.DayKey | app.js:190 | the active-day key `${projectId}__${date}`; `Aggregation.DayKeysAdd` and `Aggregation.ComputeProjectDays` show one key per date |
| Aggregation.ComputeProjectDays | app.js:184-193 | the loop over the `Set` of `projectId__date` keys returns the number of distinct dates with approved logs of the project |
| Aggregation.ApprovedWritersSnoc | app.js:195-203 | one more log adds its writer exactly when it is approved and of the project |
| Aggregation.ComputeProjectHeadcount | app.js:195-203 | the loop returns the number of distinct writers of approved logs of the project |
| Aggregation.RatioSumSnoc | app.js:205-214 | one more approved log of the project adds its ratio to the sum of its own key and to no other |
| Aggregation.BreakdownKey | app.js:210 | the breakdown key `${category}\|\|${process}`; `Breakdown.BreakdownKeyIdentifiesPair` states that it names one pair |
| Breakdown.BreakdownKeyIdentifiesPair | app.js:210 | on well-classified logs, two keys `category\|\|process` are equal exactly when the categories and the processes are |
| Breakdown.RatioSumIsPairSum | app.js:205-214 | on well-classified logs, the value under `c\|\|p` is the ratio summed over the approved logs of the project in category `c` and process `p` |
| Aggregation.RatioSumOutsideKeys | app.js:205-214 | a key no approved log of the project carries has sum 0 |
| Aggregation.BreakdownKeySetSnoc | app.js:205-214 | one more log adds its key exactly when it counts |
| Aggregation.ComputeProjectBreakdown | app.js:205-214 | the object map has exactly the keys of the approved logs of the project, each holding the sum of their ratios |
| Aggregation.SumOverSnoc | app.js:205-214 | summing over distinct keys distributes over one more log |
| Aggregation.SumOverCoveringKeys | app.js:205-214 | summing over distinct keys that cover every key in use gives the total ratio |
| Aggregation.SumOverEmptyHistory | app.js:205-214 | with no logs every key sums to 0 |
| Aggregation.BreakdownKeys | app.js:205-214 | the keys in the map's enumeration order are distinct and are exactly the keys in use |
| Aggregation.KeysInOrder | app.js:205-214 | the keys of the counted logs, in log order, are exactly the keys in use |
| Aggregation.BreakdownSumsToTotal | app.js:205-214 | the breakdown values add up to the total ratio of the approved logs of the project, which may exceed 100 |
| Aggregation.ApprovedLogs | app.js:186-188 | the approved subsequence holds exactly the approved logs |
| Aggregation.AgreeOnApprovedSameApproved | app.js:186-188 | changing only logs that are approved in neither version leaves the approved subsequence alone |
| Aggregation.RatioSumOfApproved | app.js:205-214 | a key's sum depends only on the approved subsequence |
| Aggregation.TotalRatioOfApproved | app.js:205-214 | the total ratio depends only on the approved subsequence |
| Aggregation.FiguresDependOnApprovedOnly | app.js:184-214 | two log lists with the same approved subsequence have the same days, headcount, breakdown keys, sums and total |
| Aggregation.ApprovedCount | app.js:502 | the number of approved logs of the project, never more than the number of logs |
| Aggregation.FiguresBoundedByApprovedCount | app.js:184-203 | days and headcount never exceed the number of approved logs of the project |
| Approval.SubmittedIndices | app.js:412 | the filter keeps the positions of exactly the submitted logs, in log order |
| Approval.Before | app.js:412-413 | the display order: `localeCompare` on `submittedAt` as character order, ties kept in log order as a stable sort does; `Approval.BeforeTransitive` and `Approval.SortByTime` state its properties |
| Approval.BeforeTransitive | app.js:412-413 | the display order (earlier `submittedAt`, ties by log order) is transitive |
| Approval.Insert | app.js:412-413 | inserting into a time-sorted list keeps it sorted and adds exactly one element |
| Approval.SortByTime | app.js:412-413 | the stable sort by `submittedAt` is sorted and a permutation of its input |
| Approval.TailFacts | app.js:412-413 | the tail of an increasing list of positions is in range and increasing, its elements exceed the head, and together with the head it holds the same positions |
| Approval.HeadBeforeRest | app.js:412-413 | the head of a list in log order is before every later element in the sorted tail whenever their timestamps tie |
| Approval.PendingByTime | app.js:412-413 | the approval list holds exactly the submitted logs in time order |
| Approval.GroupKey | app.js:418 | the grouping key `${writerId}__${date}`; `Approval.GroupKeyIdentifiesWriterAndDate` states when it identifies writer and date |
| Approval.GroupKeyIdentifiesWriterAndDate | app.js:418 | with dates free of `_`, equal `writerId__date` keys mean the same writer and the same date |
| Approval.KeyFilter | app.js:416-421 | a group holds exactly the listed logs with its key |
| Approval.KeyFilterKeepsOrder | app.js:416-421 | a group taken from a time-sorted list is time-sorted |
| Approval.KeysOf | app.js:418 | the keys of the listed logs, position by position |
| Approval.KeysOfMembers | app.js:416-421 | a key occurs in the list of keys exactly when some listed log has it |
| Approval.GroupPending | app.js:412-421 | the groups partition the submitted logs: each is non-empty and time-sorted; all its members are submitted and carry its key; every submitted log lies in the group of its key; keys come in first-submission order |
| Approval.GroupByKey | app.js:416-421 | the `Map` loop yields the keys in first-occurrence order and, under each key, exactly the listed logs with that key, in list order |
| Approval.GroupStep | app.js:416-421 | one more push (creating the list if the key is new) keeps the loop invariant |
| Approval.GroupStepContents | app.js:416-421 | after one push, every list in the map is the key filter of the longer prefix |
| Approval.GroupsPartition | app.js:412-421 | groups equal to the key filters of the time-sorted submitted list partition the submitted logs |
| Approval.ApprovedLog | app.js:445-447 | the log becomes approved by the approver at the time; no other field changes |
| Approval.RejectedLog | app.js:462-465 | the log becomes rejected by the rejecter at the time with the reason; no other field changes |
| Approval.StampApproved | app.js:443-448 | every log of the group becomes approved by the approver at the time; every other log is unchanged |
| Approval.StampRejected | app.js:458-466 | every log of the group becomes rejected by the rejecter at the time with the reason; every other log is unchanged |
| Approval.ApproveAddsGroupDates | app.js:443-448 | approving adds the group's dates for the project to its active days, and nothing else |
| Approval.ApproveLowersPendingCount | app.js:443-448 | approving a group of distinct submitted logs lowers the badge by the group's size |
| Approval.DistinctCard | app.js:443-448 | a list without repeats has as many members as elements |
| Approval.RejectAgreesOnApproved | app.js:458-466 | rejecting logs that are not approved touches no approved log and approves none |
| Approval.RejectKeepsFigures | app.js:458-466 | rejecting a group without approved logs changes no project's days, headcount or breakdown sums |
| Approval.RejectDoesNotRaisePendingCount | app.js:458-466 | rejecting never raises the badge |
| Approval.SortedDistinct | app.js:412-413 | a time-sorted list repeats no log |
| Approval.ApproveShownGroup | app.js:412-448 | approving a group the view shows lowers the badge by exactly its size and adds its dates to the active days |
| Checklist.Assignable | app.js:770 | the role filter of the assignee dropdown: staff or leader |
| Checklist.AssigneeOptions | app.js:768-772 | the dropdown lists exactly the staff and leaders |
| Checklist.AssigneeOptionsAppend | app.js:768-772 | the dropdown keeps the order of `db.users` |
| Checklist.NewItem | app.js:779-801 | nothing is added iff the trimmed title is blank; otherwise the item has the trimmed title and description and the given ids, image and time; it starts open with empty `doneBy`/`doneAt` |
| Checklist.NewItemTrimmed | app.js:779-793 | the stored title and description need no further trimming |
| Checklist.Toggled | app.js:836-844 | checking sets done with `doneBy`/`doneAt`; unchecking sets open and clears both; no other field changes |
| Checklist.ToggledStampsAgree | app.js:836-844 | after any checkbox change an open item carries no completion stamp |
| Checklist.CheckThenUncheck | app.js:836-844 | checking and then unchecking equals unchecking alone, and it gives back an open, unstamped item unchanged |
| Checklist.WithoutItem | app.js:877 | the filter keeps exactly the items whose id differs |
| Checklist.WithoutItemAppend | app.js:877 | deletion distributes over concatenation, so the kept items stay in order |
| Checklist.WithoutAbsentItem | app.js:877 | deleting an id no item has changes nothing |
| Checklist.WithoutItemLength | app.js:877 | the list shrinks by exactly the number of items with that id |
| Checklist.WithoutItemIdempotent | app.js:877 | deleting the same id twice removes nothing more |
| Store.SubmitKeepsLogsOk | app.js:351-370 | appending an accepted batch of form entries keeps every log well formed with agreeing stamps and raises the badge by the batch size |
| Store.ApproveKeepsLogsOk | app.js:443-448 | approving logs that were never rejected keeps every log well formed with agreeing stamps |
| Store.RejectKeepsLogsOk | app.js:458-466 | rejecting logs that were never approved keeps every log well formed with agreeing stamps |
| Store.ShownGroupKeepsLogsOk | app.js:412-466 | either button on a group the view shows keeps every log well formed with agreeing stamps |
| Store.Db.constructor | app.js:57-80 | a fresh database has the given users and projects, no logs and no checklist items |
| Store.Db.Submit | app.js:338-377 | on a missing date or the first failing entry the report names it and nothing changes; otherwise exactly the batch records are appended after the old logs, in entry order; the invariant is kept for entries from the form |
| Store.Db.Approve | app.js:439-454 | when confirmed every log of the group is stamped approved and nothing else changes; when cancelled nothing changes |
| Store.Db.Reject | app.js:456-471 | when confirmed every log of the group is stamped rejected with `ReasonOf(answer)`, the prompt's answer or `""` when it is cancelled or empty, and nothing else changes; when cancelled nothing changes |
| Store.Db.AddChecklistItem | app.js:776-810 | a blank title adds nothing; otherwise the new open item is appended |
| Store.Db.SetItemChecked | app.js:831-848 | only the chosen item changes, by the checkbox transition |
| Store.Db.DeleteChecklistItem | app.js:873-882 | when confirmed exactly the items with that id are removed and the rest keep their order; when cancelled nothing changes |

## Left out

- Persistence is not modelled: `loadDB`, `saveDB`, the seed data and the stored current user (app.js:48-92) are storage I/O. `Store.Db` is the in-memory object, and `getUserId` is the `uid` parameter.
- `uuid()`, `nowISO()` and `todayISO()` are randomness and the clock. Fresh ids and timestamps are parameters, and `Store.Db.Submit` takes one id per entry.
- `confirm` and `prompt` are user dialogs. Their answers are the `confirmed` and `answer` parameters.
- `fileToDataURL` is an asynchronous file read. The image is an opaque string.
- Store.Db.AddChecklistItem: the handler is one atomic step here. In `app.js` it awaits `fileToDataURL` after the title check (app.js:787), and only then reads the selected project, the description and the clock, pushes and saves the `db` it captured. A `render()` during that wait (a hash change) loads a fresh `db`, and the save that follows overwrites whatever changed meanwhile. This interleaving is not modelled.
- Helpers.DecimalString: models `String(n)` only below 10^21. From 10^21 upward JavaScript prints exponent notation (`"1e+21"`), which the model does not produce.
- Helpers.Pad2: the same bound applies. `pad2` (app.js:34) only ever receives date and time fields below 100 (app.js:38, 43, 637, 704, 718).
- The DOM is not modelled: rendering, toasts, modals, the dashboard's percentage bars (floating-point division), the calendar's month arithmetic, hash rewriting and the event wiring.
- The checklist list's filter by project and its sort by `createdAt` only feed the rendering and are not modelled.
- Ratios are integers. The number input can hold a fraction or `NaN` in the browser. `NaN` fails the submit check just as an out-of-range value does, and fractions are not modelled.
- `Number(e.ratio) || 0` at submit time is the ratio itself, because validation has already put it in 0..100.
- `Approval.PendingByTime` treats `localeCompare` on `submittedAt` as character order. That holds for the fixed-width `YYYY-MM-DD HH:MM` stamps the code writes.
- Strings are sequences of code points. JavaScript compares UTF-16 code units, which gives the same order on the ASCII timestamps.
- `Approval.GroupKeyIdentifiesWriterAndDate` assumes dates contain no `_`. The date input yields `YYYY-MM-DD`, and a writer id containing `__` could otherwise merge two groups.
- Store.Db.Submit: the invariant is promised only when every entry is well classified with a ratio in 0..100. The form's controls guarantee this (`Process.DraftForm`), but the submit handler does not check the classification again.
- `Store.Db.Approve`: the invariant is promised only for groups without rejected logs. `Store.Db.Reject`: only for groups without approved logs. The groups the view shows hold only submitted logs (`Store.ShownGroupKeepsLogsOk`).

`app.js` does not do the following, and the model does not either:
- Approve and reject do not check the status again when clicked and raise no illegal-transition error. They stamp whatever the group holds, and only the submitted-only grouping keeps them on pending logs.
- There is no confirmation ledger on checklist items.
- There are no role-rank permission gates. The only role filter is the assignee dropdown.
- There is no remote mirror and no debounced sync.
