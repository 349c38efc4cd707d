# Appraisal platform: a verified model

This Dafny project models the stateful core of the appraisal platform's API: the appraisal calendar, the versioned
category assets with their bundle import and export, the record / submission / contract workflow, the two limiters
that count over time windows, and the hand-over of a deactivated user's work. For each of them it proves what every
run of calls keeps, or the exact condition under which the code keeps it.

One service call is one step: it commits when it returns and rolls back when it raises (`api/database/base.py:42-57`).
Rows are identified by their position in a table and times are integers in microseconds. Each service is a class whose
methods assign its fields the way the service assigns its rows; each method is proved equal to a step function, and the
theorems are proved about runs of that function.

| file | what it holds |
|---|---|
| `Common.dfy` | optional values, errors, results, time; `strip` and `lower` |
| `StatusMachine.dfy` | the status registry, the denylist, and what a timeline must look like |
| `Labels.dfy` | which labels and addresses are taken for the same, character by character |
| `Calendar.dfy` | appointments, travel buffers, the conflict scan, create / update / cancel |
| `CalendarSafety.dfy` | no double booking, the exact scan bound, the exact condition for buffered schedules |
| `CalendarLaws.dfy` | the calendar's calls in numbers and in answers of the maps service |
| `CalendarHints.dfy` | following the "next available" hint |
| `CalendarRecords.dfy` | the calendar as a caller of the record workflow; appointments per record |
| `DriveTimeCache.dfy` | the six-hour drive-time cache |
| `Versioning.dfy` | version chains, replay, point-in-time reads, for any kind of row |
| `BundleImport.dfy` | one section of a bundle import, for any kind of child row |
| `ImportTwice.dfy` | importing one section twice, whatever labels repeat |
| `CategoryStore.dfy` | categories and their five kinds of child row; every operation on them |
| `CategoryTheorems.dfy` | slugs, chains, anchored history, reads against replay |
| `CategoryLaws.dfy` | what edits write, which labels match, what imports add and report |
| `ComponentTheorems.dfy` | components imported twice, and their own export |
| `ImportTheorems.dfy` | importing twice, importing one's own export, moving a bundle |
| `Counterexamples.dfy` | runs from an empty store that reach the failures |
| `CategoryService.dfy` | the admin category service itself |
| `Workflow.dfy`, `WorkflowTheorems.dfy` | drafts, submission, review, eSign contracts; what they keep together |
| `WorkflowLaws.dfy` | where each call leads, and what must have happened before |
| `RateLimit.dfy` | the fixed-window rate limiter |
| `HealthAlerts.dfy` | the health poller's alerts |
| `Handover.dfy` | deactivating a user |

## What the code does not do

Where a stronger claim fails, the model keeps the code's behaviour, proves exactly when the claim holds, and shows a
run that reaches the failure.

- An update that changes only the address runs no conflict scan (`api/services/calendar_service.py:233-238`). With
  travel times that are fixed and at most 960 minutes, a schedule stays drivable exactly if no such edit is one the
  scan would have refused (`RunsStayBufferedIff`, `AddressEditCanBreakBuffer`). Double booking is still impossible.
- The scan reads one day either way. For any travel times, it is complete exactly if no drive takes more than 960
  minutes (`ScanBoundIsExact`).
- Creating an appointment looks at the record's status, not at its appointments, and a send-back or a transition by
  hand returns a record to `new_request` without cancelling the one it has. A record has at most one live appointment,
  and a new request has none, at every point exactly if no such call frees a record with a live appointment
  (`MixedRunsStayCleanIff`). Otherwise it can be booked twice, and cancelling one of the two puts it back to
  `new_request` with the other still live (`CancelStrandsIff`, `RecordsCanBeBookedTwice`).
- A hand-over gives appointments away without a scan. Over runs of hand-overs and calendar calls, nobody is double
  booked exactly if no appointment handed over overlaps one the colleague already has (`DeskRunsDoubleBookIff`,
  `HandoverCanDoubleBook`); a drivable calendar stays drivable exactly if the two diaries can be driven as one
  (`HandoverBuffersIff`).
- A hand-over asks for any shared work role, while the calendar asks for the primary role `appraiser`. Appointments
  stay with appraisers exactly if none is handed to a colleague with another primary role (`DeskRunsStaffIff`,
  `HandoverCanLeaveTheAppraisers`). And the calendar does not ask for the status: a deactivated appraiser can be given
  new appointments (`DeactivatedCanBeBooked`).
- `inspection_prompt_version_at` and `red_flag_rule_version_at` are documented to return the row that was current at
  the instant. They check only when a row was replaced, not when it was made, so a read is right exactly for the rows
  that existed at the instant (`ReadsAreRightIff`, `SuccessorAnswersForThePast`, `PastIsAnswered`). In runs whose
  imports branch no chain, the lowest readable version of a chain is the row that was current (`ReadsRefineReplay`).
  An edit stamped at the very instant of a submission loses the submission's anchor (`TiedEditLosesTheAnchor`).
- An import looks labels up once per section. Two items with one label that both change its row give that row two
  successors; chains stay chains exactly if that never happens (`RunsStayChainedIff`, `ImportCanBranchAChain`).
- The import is documented as idempotent. A null or missing field means "inherit" to the superseding functions but
  "different" to the comparison, so such an item can supersede its row again on every import; and items that share a
  label and differ take turns. Importing twice equals importing once exactly if, for every label in the payload, the
  last prompt item is complete (or the last rule item stable) and the others with the label ask for the same body
  (`ImportIsIdempotentIff`, `ImportCanDifferTheSecondTime`).
- An accepted import changes nothing exactly if the live category for the slug already has all of the payload
  (`ImportChangesNothingIff`). The export of any category is accepted (`AnyExportIsAccepted`). For a live category it
  changes nothing exactly if rows that share a label share their content; the export of a superseded category changes
  the successor unless that has the same rows (`OwnExportChangesNothingIff`, `OwnExportCanChange`,
  `SupersededExportCanChange`).
- A bundle moves unchanged exactly if no label is blank (`RoundTripIff`, `MovingCanLoseAPrompt`).
- Editing a category leaves its components, prompts, attachments, slots and rules on the superseded row
  (`SuccessorStartsEmpty`).
- A declined contract is said to be ready to send again (`api/routers/esign.py:219-228`), but the only caller of
  `dispatch_contract` is an approval. A contract means one approval came before, so the lookup of "the" approved
  submission then finds two and raises. No shipped call ever re-sends (`ApprovalSendsIff`,
  `ContractsKeepTheirEnvelopes`).
- Manual transitions and eSign callbacks can take a record out of review under a pending submission, or into it
  without one. The queue is right at every point exactly if none does (`RunsStayCoupledIff`,
  `SigningCanDisturbAReview`).
- `Retry-After` is truncated to whole seconds, so a client that obeys it can be refused again
  (`RetryAfterSufficesIff`, `RetryAfterCanFallShort`).
- A request whose handler raises is admitted and then not counted, because its transaction rolls back
  (`api/database/base.py:54-57`). The counter counts a window's admissions exactly if all of them commit; failing
  requests, however many, are all admitted while the counter is below the limit (`AdmissionsAreCountedIff`,
  `FailuresEscapeIff`).
- An outage that begins within 15 minutes of a service's last alert is never alerted, however long it lasts
  (`OutageIsAlertedIff`, `OutageCanGoUnalerted`).

## Model

| member | source | states |
|---|---|---|
| Calendar.ConflictWith | api/services/calendar_service.py:379-427 | one appointment gives no conflict exactly if one person can keep both, with the drive between them; a hint is later than the refused start |
| Calendar.CalendarService.SelectWindow | api/services/calendar_service.py:359-375 | the listing holds exactly the appraiser's live appointments that start within a day, other than the one being edited, ordered by start |
| Calendar.CalendarService.CheckConflict | api/services/calendar_service.py:341-450 | there is an answer exactly if the scan holds an appointment that cannot be kept, the drive being asked for from the earlier address to the later; the answer is for the earliest-starting such one |
| Calendar.CalendarService.CreateEvent | api/services/calendar_service.py:121-197 | new state and response, on every path: range, record, status, appraiser, conflict, write |
| Calendar.CalendarService.UpdateEvent | api/services/calendar_service.py:205-269 | new state and response for an edit, which scans only if the appraiser, start or duration changes; once done, each given field has its requested value |
| Calendar.CalendarService.CancelEvent | api/services/calendar_service.py:277-333 | the same for a cancellation, a second one being a no-op |
| CalendarLaws.CompatibleMeansReaches | api/services/calendar_service.py:393-419 | two appointments can both be kept exactly if one leaves the other the drive in that direction, or the fallback where an address is missing or the maps service has no answer |
| CalendarLaws.AnswerSaysWhy | api/services/calendar_service.py:383-427 | a reported conflict is a live appointment of the appraiser within a day that cannot be kept with the proposal; the hint is its end if they overlap, the earliest arrival if it comes first, and none if it comes later |
| CalendarLaws.CreateChecks | api/services/calendar_service.py:140-147 | which creates pass the checks, and which answer 404 or 422 |
| CalendarLaws.CreateWrites | api/services/calendar_service.py:137-189 | an accepted create leaves exactly one more appointment, with the requested fields, 60 minutes by default and the trimmed address, and its record moved and logged |
| CalendarLaws.OneRivalAcceptedIff | api/services/calendar_service.py:379-427 | against one live appointment of the appraiser, a create is accepted if and only if both can be kept or they start a day or more apart |
| CalendarLaws.UpdateChecks | api/services/calendar_service.py:218-231 | which edits pass the checks, and which answer 409 |
| CalendarLaws.UpdateWrites | api/services/calendar_service.py:224-255 | an accepted edit gives each field its requested value, keeps the others, and touches no other row |
| CalendarLaws.VacatedSlotIsFreeIff | api/services/calendar_service.py:250-255 | on a buffered calendar, the slot an edit moves from can be booked again if and only if the moved appointment can be kept with one there, or has changed appraiser |
| CalendarLaws.CancelWrites | api/services/calendar_service.py:284-313 | a cancellation stamps the appointment and takes a scheduled record back, without a log entry |
| CalendarLaws.RunsKeepAppointmentsApart | api/services/calendar_service.py:379-391 | in every run from an empty calendar, of two live appointments of one appraiser one ends before the other starts |
| CalendarLaws.RunsLeaveTimeToDrive | api/services/calendar_service.py:393-450 | with travel fixed and at most 960 minutes, in every run without an unchecked clash, whoever has one appointment after another has the time to drive from the first to the second |
| CalendarLaws.SecondVisitAcceptedIff | api/services/calendar_service.py:393-450 | with different times each way, and a fallback elsewhere, a second visit from an empty calendar is accepted if and only if the gap is as long as the drive in that direction |
| CalendarSafety.ScanIsComplete | api/services/calendar_service.py:359-428 | with buffers of at most 960 minutes, the one-day scan finds a conflict exactly if one exists at any date |
| CalendarSafety.ScanBoundIsExact | api/services/calendar_service.py:359-375 | for any travel times, the one-day scan and the full scan agree on every calendar if and only if no buffer is over 960 minutes |
| CalendarSafety.StepKeepsDurations | api/schemas/calendar.py:17-32 | every step keeps durations between 15 and 480 minutes |
| CalendarSafety.AcceptedIsApart | api/services/calendar_service.py:150-169 | an accepted row, scanned or not, overlaps no other of its appraiser |
| CalendarSafety.RunsNeverDoubleBook | api/services/calendar_service.py:233-256 | in every run, address-only edits and changing travel times included, no appraiser's live appointments overlap |
| CalendarSafety.WrittenRowCompatible | api/services/calendar_service.py:239-254 | with buffers of at most 960 minutes, a written row can be kept with the rest of the diary exactly if a scan of it finds nothing |
| CalendarSafety.StepKeepsBufferedIff | api/services/calendar_service.py:233-248 | with buffers of at most 960 minutes, a call keeps a buffered schedule buffered if and only if it is not an address-only edit the scan would have refused |
| CalendarSafety.RunsStayBufferedIff | api/services/calendar_service.py:224-256 | with travel fixed and at most 960 minutes, over every run, every two live appointments of an appraiser stay a drive apart at every point if and only if no such edit occurs |
| CalendarSafety.AddressEditCanBreakBuffer | api/services/calendar_service.py:233-256 | such an edit is reached from an empty calendar by two accepted creates and an update |
| CalendarHints.HintMakesProgress | api/services/calendar_service.py:379-410 | a hint lies after the refused start, uses up one of the two hints its appointment can give, and skips only starts that collide |
| CalendarHints.HintChainsAreShortAndSkipNothing | api/services/calendar_service.py:379-427 | following hints against n live appointments takes at most 2n steps; with buffers of at most 960 minutes every start passed over would have been refused |
| CalendarHints.TwoHintsFromOneRival | api/services/calendar_service.py:383-410 | the bound is met: one appointment gives an overlap hint and then a drive-time hint |
| CalendarRecords.RunIsWorkflow | api/services/calendar_service.py:183-189 | a run of calendar calls moves records exactly as the matching run of workflow calls does |
| CalendarRecords.StepCounts | api/services/calendar_service.py:161-169 | an accepted create adds one live appointment to its record, a cancellation takes one away, everything else leaves the numbers alone |
| CalendarRecords.RunsScheduleOnce | api/services/calendar_service.py:140-146 | over every run of calendar calls, a record has exactly one live appointment while scheduled and none otherwise |
| CalendarRecords.CancelStrandsIff | api/services/calendar_service.py:306-313 | from any state, a cancellation reverts a scheduled record, and leaves a live appointment behind exactly if there was another |
| CalendarRecords.SendBackKeepsOldAppointment | api/services/approval_service.py:240-247 | a send-back followed by a second scheduling does give a record two live appointments |
| CalendarRecords.OnlyTheseFree | api/services/approval_service.py:240-247 | among the other services' calls, exactly an accepted send-back or a transition by hand makes a record a new request |
| CalendarRecords.MixedRunsStayCleanIff | api/services/calendar_service.py:140-146 | over runs that mix calendar calls with any other calls on the records, a record has at most one live appointment and a new request none, at every point, if and only if no call frees a record with a live appointment; then no create is accepted for a booked record |
| CalendarRecords.RecordsCanBeBookedTwice | api/services/calendar_service.py:306-313 | from an empty calendar, a run reaches a record with two live appointments, and then a new request that still has one |
| CalendarRecords.MixedRunsNeverDoubleBook | api/services/calendar_service.py:233-256 | such mixed runs never double-book an appraiser |
| DriveTimeCache.RowsRecordFetches | api/services/google_maps_service.py:132-138 | every cached row records a fetch of the run and expires six hours after it |
| DriveTimeCache.AnswersAreFetched | api/services/google_maps_service.py:79-139 | in every run, an answer is what the maps service returned for addresses of the same normal form, to this call or less than six hours before |
| DriveTimeCache.FetchedTimeIsStable | api/services/google_maps_service.py:86-97 | for six hours after a fetch, every call of the same normal form gets the fetched time |
| DriveTimeCache.ExpiredRowsAreInvisible | api/services/google_maps_service.py:92-97 | caches that differ only in expired rows answer every later run alike |
| DriveTimeCache.DriveTimes.GetDriveTimeSeconds | api/services/google_maps_service.py:64-139 | answer and new cache on every path: empty address, hit, no key, failed call, write-through |
| DriveTimeCache.DriveTimes.UpsertDriveTime | api/services/google_maps_service.py:169-194 | until it expires, the written time is the answer for every address pair of the same normal form, and no other pair's answer changes |
| DriveTimeCache.FetchedTimeServesSixHours | api/services/google_maps_service.py:47-139 | a fetched time answers calls for the same drive, up to case and white space, for 21600 seconds, and no other call |
| DriveTimeCache.AnswersAreForTheSameDrive | api/services/google_maps_service.py:54-97 | in every run, an answer was returned for the same drive, up to case and white space, to this call or less than 21600 seconds before |
| Labels.TrimmedIsStrip | api/services/google_maps_service.py:54-56 | every string has one form without white space at its ends, and stripping finds it |
| Labels.NormalizeIff | api/services/admin_category_service.py:862-867 | two labels (or addresses) have one key if and only if they differ at most in the case of A-Z and in white space at the ends |
| Labels.BlankIff | api/services/admin_category_service.py:864-866 | a label is skipped as blank if and only if it is all white space |
| Versioning.EditKeepsChainedIff | api/services/category_versioning_service.py:145-165 | an edit keeps the chains (versions up by one, no branch, a row stamped exactly if it has its successor) if and only if it does not replace a row twice |
| Versioning.ReplayStaysChainedIff | api/services/category_versioning_service.py:182-207 | the same for a run of edits; a branch never heals |
| Versioning.VersionsAreUnique | api/services/category_versioning_service.py:160 | a version number occurs at most once in a chain |
| Versioning.NoVersionIsSkipped | api/services/category_versioning_service.py:202 | a chain runs through every version below its latest, all of them replaced |
| Versioning.OneCurrentRowPerChain | api/services/category_versioning_service.py:146-161 | a chain has exactly one unreplaced row, and it carries the highest version |
| Versioning.RowsAreFrozen | api/services/category_versioning_service.py:145-164 | rows keep owner, body, version and place in the chain; only the stamp and the in-place field move |
| Versioning.StampsAreFinal | api/services/admin_category_service.py:476-477 | in a run that replaces no row twice, a stamp never changes |
| Versioning.AnchoredIff | api/services/category_versioning_service.py:101-110 | a current row stays readable at an instant, unchanged, exactly as long as no edit replaces it with a stamp at or before it |
| Versioning.LaterRowsOutrank | api/services/category_versioning_service.py:149-161 | a row added later to a chain outranks the row that was current |
| Versioning.ReadsAtInstantRefineReplay | api/services/category_versioning_service.py:92-126 | the lowest version readable at an instant is the row that replaying the edits up to that instant leaves current |
| BundleImport.Lookup | api/services/admin_category_service.py:886-887 | the dictionary maps a key to a current row of the category that has it, never to an earlier one than another such row |
| BundleImport.ImportItems | api/services/admin_category_service.py:888-922 | the loop over a section's items computes the section's import |
| BundleImport.ImportIsReplay | api/services/admin_category_service.py:899-922 | an import is a replay of the edits it records, and only adds rows |
| BundleImport.ImportEdits | api/services/category_versioning_service.py:145-147 | an import of a versioned section makes only inserts, and replacements stamped by a reading of the clock |
| BundleImport.LookedUpRows | api/services/admin_category_service.py:892-908 | a looked-up row keeps its body and stays current until the first item that replaces it |
| BundleImport.AddedRowsAreExplained | api/services/admin_category_service.py:888-922 | every row an import adds is the next version of the last row of its label, or opens a chain for a label the category did not have; an item accounts for it |
| BundleImport.ReportsAreExact | api/services/admin_category_service.py:907-922 | the ids reported as added are exactly the new rows, in order, and those reported as superseded exactly the rows that stopped being current |
| BundleImport.ImportIsLegalIff | api/services/admin_category_service.py:886-908 | an import replaces no row twice if and only if no two of its items would replace the same row |
| BundleImport.DistinctItemsChangeOnce | api/services/admin_category_service.py:889-908 | items with distinct labels never do |
| BundleImport.ImportSettles | api/services/admin_category_service.py:888-922 | after importing items with distinct labels into rows with distinct labels, each item has one row with the body it asked for, and rows of other labels are untouched |
| ImportTwice.ImportLeavesLast | api/services/admin_category_service.py:888-922 | after any import of a versioned section, whatever labels repeat, the last current row of every label has the body the items left it |
| ImportTwice.ImportTwiceIff | api/services/admin_category_service.py:888-922 | whatever labels repeat, a second import of a versioned section makes no edit if and only if every labelled item keeps that body, and otherwise adds a row |
| ImportTwice.SecondImportSucceeds | api/services/admin_category_service.py:888-922 | the second import of an accepted section is accepted |
| BundleImport.ExportedRows | api/services/admin_category_service.py:785-797 | an export lists exactly the category's current rows |
| BundleImport.OwnExportKeepsIff | api/services/admin_category_service.py:892-899 | a category's own export keeps every row exactly if rows of one label have one content |
| BundleImport.ImportThenExport | api/services/admin_category_service.py:909-922 | exported items imported into a category without rows come out again, in order, but for blank labels |
| CategoryStore.CurrentBySlug | api/services/category_versioning_service.py:210-224 | the answer is a current, undeleted category with the slug, and there is an answer if one exists |
| CategoryTheorems.SnapshotNamesEachChainOnce | api/services/appraisal_submission_service.py:318-341 | the snapshot names each chain of the category by exactly one row, with the highest version of the chain |
| CategoryStore.ComponentLaws | api/services/admin_category_service.py:862-882 | components keep their name when a weight is written, and an exported component re-creates its row |
| CategoryStore.PromptLaws | api/services/admin_category_service.py:884-922 | prompts keep their label when superseded, an exported prompt re-creates its row, and a match never raises |
| CategoryStore.AttachmentLaws | api/services/admin_category_service.py:924-939 | attachments that match are left alone, and an exported one re-creates its row |
| CategoryStore.SlotLaws | api/services/admin_category_service.py:941-957 | photo slots that match are left alone, and an exported one re-creates its row |
| CategoryStore.RuleLaws | api/services/admin_category_service.py:959-999 | rules keep their label when superseded, an exported rule re-creates its row, and a match never raises |
| CategoryService.AdminCategories.CreateCategory | api/services/admin_category_service.py:217-241 | new state and response: a taken slug is refused, and nothing changes |
| CategoryService.AdminCategories.UpdateCategory | api/services/admin_category_service.py:244-287 | new state and response: missing, superseded or deleted, empty patch, slug clash, or one superseding edit |
| CategoryService.AdminCategories.SoftDeleteCategory | api/services/admin_category_service.py:304-345 | new state and response: refused while records use the category, and a no-op the second time |
| CategoryService.AdminCategories.UpdateInspectionPrompt | api/services/admin_category_service.py:456-520 | new state and response: `active` alone is written in place, anything else supersedes |
| CategoryService.AdminCategories.UpdateRedFlagRule | api/services/admin_category_service.py:559-621 | the same for red-flag rules |
| CategoryService.AdminCategories.TargetCategory | api/services/admin_category_service.py:842-854 | the category an import writes to: the current one for the slug, or a new one |
| CategoryService.AdminCategories.ImportSections | api/services/admin_category_service.py:860-999 | the five sections in turn, and the ids they report |
| CategoryService.AdminCategories.ImportFromPayload | api/services/admin_category_service.py:834-1019 | new state and report (labels matching as `Labels.NormalizeIff` says, rows added as `CategoryLaws.AddedPrompts` says); an error in a later section undoes the earlier ones |
| CategoryService.AdminCategories.ExportToPayload | api/services/admin_category_service.py:767-831 | 404 for an unknown category; otherwise the category's fields and, in each section, exactly its current rows, each once and in order |
| CategoryLaws.SectionsMatchOnLabels | api/services/admin_category_service.py:862-963 | in each of the five sections, an item matches a row if and only if its label is not blank and is the row's up to case and white space |
| CategoryLaws.CreatesIff | api/services/admin_category_service.py:872-998 | in each section, what an unmatched item becomes, field by field with the defaults for missing and null ones, and when it raises |
| CategoryLaws.AddedPrompts | api/services/admin_category_service.py:886-922 | each prompt an import adds is the next version of the last current prompt with the item's label, with what the item gives and the rest inherited; or, if there was none, version 1 with the defaults |
| CategoryLaws.AddedRules | api/services/admin_category_service.py:960-999 | the same for rules |
| CategoryLaws.MatchedLabelsAddNoChain | api/services/admin_category_service.py:892-908 | a label that matches a current prompt, in whatever case, opens no second chain |
| CategoryLaws.ImportReportsWhatItDid | api/services/admin_category_service.py:907-999 | the report lists exactly the prompts and rules that were added and superseded |
| CategoryLaws.ImportReportsPlainRows | api/services/admin_category_service.py:880-957 | the report lists exactly the components, attachments and photo slots that were added |
| CategoryLaws.ImportFindsOrMakes | api/services/admin_category_service.py:842-858 | an import writes to the live category with the slug, or makes one with the payload's fields exactly if there is none, and reports which |
| CategoryLaws.CreateCategoryWrites | api/services/admin_category_service.py:220-231 | a category is created active at version 1, exactly if no live one has its slug |
| CategoryLaws.UpdateCategoryWrites | api/services/category_versioning_service.py:247-264 | an edit supersedes the category; given fields are written, missing and null ones inherited |
| CategoryLaws.DeactivateCategoryWrites | api/services/admin_category_service.py:290-301 | deactivating supersedes the category with an inactive one, once |
| CategoryLaws.SoftDeleteFreesTheSlug | api/services/admin_category_service.py:310-335 | a category is deleted exactly if no record uses it; its slug is then free and it can no longer be edited |
| CategoryLaws.UpdatePromptWrites | api/services/admin_category_service.py:466-510 | which prompt edits are accepted; `active` alone is written in place, otherwise the successor has what is given and inherits the rest, `active` included |
| CategoryLaws.UpdateRuleWrites | api/services/admin_category_service.py:567-611 | the same for rules |
| CategoryLaws.AddWrites | api/services/admin_category_service.py:424-443 | a new prompt or rule is active, at version 1, in an existing category |
| CategoryLaws.MissingCategories | api/services/admin_category_service.py:251-257 | which calls on categories answer 404, and which edits 400 |
| CategoryLaws.PromptErrors | api/services/admin_category_service.py:474-481 | why an edit of a prompt is refused |
| CategoryLaws.RuleErrors | api/services/admin_category_service.py:575-582 | why an edit of a rule is refused |
| CategoryTheorems.RunsKeepSlugsUnique | api/services/admin_category_service.py:220-265 | over every run, at most one current, undeleted category holds a slug |
| CategoryTheorems.StepKeepsChainsIff | api/services/admin_category_service.py:834-1019 | a call keeps the category, prompt and rule chains if and only if it is not an import that changes one row twice |
| CategoryTheorems.RunsStayChainedIff | api/services/admin_category_service.py:886-908 | over every run, the chains hold at every point if and only if no import changes one row twice |
| CategoryTheorems.DistinctPayloadsChangeOnce | api/services/admin_category_service.py:886-889 | payloads with distinct labels never do |
| CategoryTheorems.RunIsReplay | api/services/category_versioning_service.py:129-264 | a run of calls is a run of edits on each versioned table |
| CategoryTheorems.RowIsAnchored | api/services/category_versioning_service.py:92-126 | a row current at an instant is read back at that instant, with its version and body, after any later run |
| CategoryTheorems.SubmissionsStayAnchored | api/services/appraisal_submission_service.py:208-222 | every prompt and rule in a submission's snapshot is read back at the submission time with the snapshot's version and its body, after any later run |
| CategoryTheorems.TiedEditLosesTheAnchor | api/services/category_versioning_service.py:104-107 | an edit stamped at the very instant of the submission makes that read return nothing |
| CategoryTheorems.StoreReadsRefineReplay | api/services/category_versioning_service.py:92-126 | for one versioned table and over runs from an empty store whose imports branch no chain, the lowest version readable at an instant is the row the calls up to that instant leave current |
| CategoryTheorems.ReadsRefineReplay | api/services/category_versioning_service.py:92-126 | so, in runs whose imports branch no chain and in every prompt and rule chain begun by that instant (and every category chain, read the same way), the lowest readable version is the row that was current |
| CategoryTheorems.ReplacedRowsStay | api/services/category_versioning_service.py:145-147 | over every run, once a row is replaced no later call stamps it again |
| CategoryTheorems.ReadsAreRightIff | api/services/category_versioning_service.py:92-126 | over every run from an empty store, reading a prompt or rule at an instant returns what was current then, and nothing otherwise, if and only if the row existed at the instant |
| CategoryTheorems.SuccessorAnswersForThePast | api/services/category_versioning_service.py:101-110 | for an instant before an edit, both the row that was current and its successor, which did not exist yet, are returned |
| ImportTheorems.PromptsConvergeIff | api/services/admin_category_service.py:894-906 | an accepted prompt section converges if and only if, for every label, the last item gives response type, required and order, and the others agree with it |
| ImportTheorems.RulesConvergeIff | api/services/admin_category_service.py:968-982 | an accepted rule section converges if and only if, for every label, the last item gives field and operator and leaves out value or actions only where the stored rule has none, and the others agree with it |
| ImportTheorems.ImportIsIdempotentIff | api/services/admin_category_service.py:834-841 | a second import of any accepted payload is accepted, and equals one import if and only if its prompt and rule labels settle so; it then reports nothing |
| ImportTheorems.DistinctImportIsIdempotentIff | api/services/admin_category_service.py:834-841 | for distinct labels in the payload: if and only if every labelled prompt is complete and every labelled rule stable |
| ComponentTheorems.ComponentsSettle | api/services/admin_category_service.py:862-882 | importing components twice leaves what importing them once leaves, whatever names repeat |
| ComponentTheorems.OwnComponentsKept | api/services/admin_category_service.py:862-871 | the components of a category's own export leave the table as it was, even where names repeat |
| ImportTheorems.OwnSectionKeptIff | api/services/admin_category_service.py:886-908 | a versioned section is left alone by its own export if and only if rows of one label have one content |
| ComponentTheorems.ComponentsUnchangedIff | api/services/admin_category_service.py:862-882 | an accepted import leaves the components as they are if and only if every labelled item finds a row with the weight its name asks for last |
| ImportTheorems.ImportChangesNothingIff | api/services/admin_category_service.py:834-1019 | an accepted import leaves the store as it is if and only if the slug has a live category with all of the payload |
| ImportTheorems.AnyExportIsAccepted | api/services/admin_category_service.py:767-1019 | the export of any category, live or not, is accepted by any store |
| ImportTheorems.OwnExportChangesNothingIff | api/services/admin_category_service.py:767-1019 | importing the export of any category of the store is accepted, and changes nothing if and only if the live category for its slug has all of it; for a live category, if and only if rows that share a label agree |
| ImportTheorems.SectionMovesIff | api/services/admin_category_service.py:909-922 | a section moved to a new category is exported again as it was if and only if no label is blank |
| ImportTheorems.RoundTripIff | api/services/admin_category_service.py:767-1019 | exporting, importing into a store without the slug and exporting again gives the same payload, item for item and apart from the version, if and only if no label is blank |
| ImportTheorems.SuccessorStartsEmpty | api/services/category_versioning_service.py:251-264 | editing a category moves none of its components, prompts, attachments, slots or rules to the successor |
| Counterexamples.ImportCanBranchAChain | api/services/admin_category_service.py:889-908 | from an empty store, a bundle with two items of one label branches a chain |
| Counterexamples.ImportCanDifferTheSecondTime | api/services/admin_category_service.py:894-922 | from an empty store, importing twice differs from importing once: for a prompt without `required`, and for two complete prompts of one label |
| Counterexamples.OwnExportCanChange | api/services/admin_category_service.py:886-906 | from an empty store, a category with two differing prompts of one label is changed by its own export |
| Counterexamples.SupersededExportCanChange | api/services/admin_category_service.py:842-854 | from an empty store, the export of a renamed category's superseded row changes the store, though its labels agree |
| Counterexamples.MovingCanLoseAPrompt | api/services/admin_category_service.py:889-891 | from an empty store, a prompt labelled with a space is lost when its bundle moves |
| Counterexamples.PastIsAnswered | api/services/category_versioning_service.py:101-110 | from an empty store, a successor made at 10 answers for the instant 5 |
| Workflow.ContractOf | api/services/esign_service.py:58-63 | the answer is a contract row of the record, and there is one if any exists |
| Workflow.FetchContract | api/routers/esign.py:66-73 | an accepted lookup returns a row that carries the envelope |
| Workflow.StepKeepsWellFormed | api/database/base.py:42-57 | no call makes a submission or contract of a record that does not exist |
| Workflow.Session.RecordTransition | api/services/equipment_status_service.py:74-119 | new record, new log and the event, or 409 on a same-state or forbidden edge with nothing changed |
| Workflow.Session.CreateDraft | api/services/appraisal_submission_service.py:62-96 | new state and response; at most one draft a record |
| Workflow.Session.Submit | api/services/appraisal_submission_service.py:179-250 | new state and response, on every path, with rollback if the record cannot move |
| Workflow.Session.Approve | api/services/approval_service.py:103-196 | new state and response, with rollback if the record cannot move; a failed dispatch does not undo the approval |
| Workflow.Session.Reject | api/services/approval_service.py:199-247 | new state and response, with rollback if the record cannot move |
| Workflow.Session.DispatchContract | api/services/esign_service.py:45-133 | an outstanding contract is left alone, a declined one is reset to the new envelope, and otherwise one is added |
| Workflow.Session.HandleEnvelopeCompleted | api/routers/esign.py:156-179 | new state and response: duplicates ignored, otherwise the contract completed and its record at `esigned_pending_publish`, or both rolled back if the record cannot move |
| Workflow.Session.HandleEnvelopeDeclined | api/routers/esign.py:204-229 | the same for a declined envelope, skipping the move if the record is already there |
| WorkflowLaws.TransitionsAreRefusedIff | api/services/equipment_status_machine.py:140-147 | a transition is refused exactly if it stays, takes a declined or sold record to `new_request`, or a sold one to `listed` or `appraisal_scheduled` |
| WorkflowLaws.NothingIsRevived | api/services/equipment_status_machine.py:140-147 | over every run, no timeline has such a move |
| WorkflowLaws.SubmitLeads | api/services/appraisal_submission_service.py:199-238 | which submits are accepted; the record goes to `appraisal_complete` and the title hold is recorded |
| WorkflowLaws.ApproveLeads | api/services/approval_service.py:131-162 | which approvals are accepted; the record goes to `approved_pending_esign` |
| WorkflowLaws.RejectLeads | api/services/approval_service.py:225-247 | a rejection sends the record back to `new_request` or on to `declined` |
| WorkflowLaws.SignatureLeads | api/routers/esign.py:156-179 | a first signature completes the contract with its time and sends the record to `esigned_pending_publish` |
| WorkflowLaws.DeclineLeads | api/routers/esign.py:204-229 | a declined signature leaves the record at `approved_pending_esign`, moved only if it was elsewhere |
| WorkflowLaws.RunsSendSignedRecords | api/routers/esign.py:164-179 | over every run, the record of every signed contract has been sent to `esigned_pending_publish` |
| WorkflowLaws.SubmissionsPassTheGates | api/services/appraisal_submission_service.py:205-223 | over every run, a submission past its draft was submitted with complete photos and keeps the title hold recorded then; an approved one was approved, with a hold confirmed; a rejected one rejected |
| WorkflowLaws.DraftLeads | api/services/appraisal_submission_service.py:74-90 | a draft is created exactly if its record exists and has none |
| WorkflowLaws.RunsKeepOneDraft | api/services/appraisal_submission_service.py:74-90 | over every run, a record has at most one draft |
| WorkflowLaws.DispatchLeads | api/services/esign_service.py:58-131 | a dispatch leaves an outstanding contract alone, does nothing without exactly one approval and a customer, and otherwise sends one contract, in the row of the declined one if there is one |
| WorkflowLaws.DecisionErrors | api/services/approval_service.py:131-138 | which submits, approvals and rejections answer 404, 422 and 409 |
| WorkflowLaws.MissingRecords | api/services/appraisal_submission_service.py:226-238 | with the record missing, a submit is still accepted and a review is refused |
| WorkflowLaws.MissingRecordsOfContracts | api/routers/esign.py:168-171 | with the record missing, a callback still writes the contract |
| WorkflowTheorems.TimelinesArePaths | api/services/equipment_status_service.py:97-119 | over every run of every caller, each record's log is a path of permitted moves that links up except for cancellations, and ends at the record's status |
| WorkflowTheorems.CancelLeavesAGap | api/services/calendar_service.py:307-313 | the gap a cancellation leaves does occur |
| WorkflowTheorems.ReviewNeverConflicts | api/services/approval_service.py:133-162 | on coupled states, approving or rejecting a submitted submission never meets the status machine's 409 |
| WorkflowTheorems.StepKeepsCouplingIff | api/services/appraisal_submission_service.py:205-238 | a call keeps submissions and records coupled if and only if it does not take a record into or out of review from outside |
| WorkflowTheorems.RunsStayCoupledIff | api/services/approval_service.py:133-247 | over every run of every caller, a record has exactly one submitted submission while complete and none otherwise, at every point, if and only if no call does that |
| WorkflowTheorems.SigningCanDisturbAReview | api/routers/esign.py:156-179 | from fresh records and without a manual transition, signing a first contract during a second review breaks the coupling |
| WorkflowTheorems.ReviewRunsAreCoupled | api/services/approval_service.py:133-247 | from fresh records, every run of calendar, draft, submit, approve and reject calls ends coupled |
| WorkflowTheorems.QueueListsEachOnce | api/services/approval_service.py:67-75 | the manager queue lists each undeleted record under review exactly once, and no other |
| WorkflowTheorems.RunsKeepContracts | api/services/esign_service.py:58-131 | over every run, a record has at most one contract, completed ones have a signing time, sent ones have none, and envelope ids stay unique if the provider never repeats one |
| WorkflowTheorems.RepeatedCallbackIsIgnored | api/routers/esign.py:159-162 | delivering a callback twice in a row equals delivering it once, accepted or refused |
| WorkflowTheorems.ResendingRetires | api/services/esign_service.py:120-124 | sending a declined contract again takes its old envelope out of use |
| WorkflowTheorems.RetiredEnvelopesAreDead | api/routers/esign.py:66-73 | from then on, over every run, callbacks for the old envelope get 404 and change nothing |
| WorkflowTheorems.ApprovalSendsIff | api/services/approval_service.py:189-194 | an approval sends a contract if and only if it is the record's first approval and the customer is found |
| WorkflowTheorems.ContractsKeepTheirEnvelopes | api/services/esign_service.py:73-86 | over every run of the shipped callers, a contract row keeps its record and its envelope for good |
| RateLimit.StartIsRecent | api/middleware/rate_limit.py:46-57 | whatever the window, an instant lies less than one window after its start |
| RateLimit.AlignedStart | api/middleware/rate_limit.py:46-57 | for aligned windows, the start is the last multiple of the window |
| RateLimit.WindowsTileIff | api/middleware/rate_limit.py:46-57 | windows start at the multiples of their length if and only if it divides the minute, or the hour in whole minutes |
| RateLimit.ConfiguredWindowsAreAligned | api/middleware/rate_limit.py:138-171 | every configured window is aligned |
| RateLimit.RetryAfterSufficesIff | api/middleware/rate_limit.py:73-79 | Retry-After lies between 1 and the window; waiting that long reaches a new window if and only if the refusal came on a whole second or in the window's last second |
| RateLimit.RetryAfterIsTight | api/middleware/rate_limit.py:73-79 | Retry-After is the whole seconds left of the window, or 1; a client that waits so long misses the new window by less than a second, if at all |
| RateLimit.RetryAfterCanFallShort | api/middleware/rate_limit.py:73-79 | for every limit and every aligned window of three seconds or more, a client that waits as long as it was told can be refused again |
| RateLimit.WindowsHoldTheLimit | api/middleware/rate_limit.py:59-73 | over every run, a counter counts the committed admissions of its window, and they never pass the limit |
| RateLimit.IntervalsHoldTwiceTheLimit | api/middleware/rate_limit.py:44-73 | any interval of one window's length holds at most twice the limit |
| RateLimit.TwiceTheLimitIsReached | api/middleware/rate_limit.py:44-73 | for every limit, every aligned window and every edge, a burst on either side of the edge reaches twice the limit |
| RateLimit.AdmissionsAreCountedIff | api/database/base.py:51-57 | over every run, a counter counts exactly the admitted requests of its window if and only if all of them commit, and then they stay within the limit |
| RateLimit.FailuresEscapeIff | api/database/base.py:51-57 | after any run, any number of failing requests in a window are all admitted if the counter is below the limit and none otherwise, and change no counter |
| RateLimit.RateLimiter.Handle | api/middleware/rate_limit.py:34-79 | new counters and verdict; a refused or failed request rolls its increment back; the seconds in a refusal are those left of the window, rounded down, but at least one |
| HealthAlerts.AlertsAreSpaced | api/services/health_check_service.py:257-263 | over every run, whatever the clock does, successive alerts for a service are at least 15 minutes apart |
| HealthAlerts.SpansHoldFewAlerts | api/services/health_check_service.py:261-263 | a span of T minutes holds at most T/15 + 1 alerts for a service |
| HealthAlerts.OutageIsAlertedIff | api/services/health_check_service.py:257-263 | an outage is alerted exactly once, at its first red probe, if that comes 15 minutes or more after the last alert, and otherwise never |
| HealthAlerts.OutageCanGoUnalerted | api/services/health_check_service.py:257-263 | a service that fails again 10 minutes after an alert is not alerted, however long it stays down |
| HealthAlerts.ProbeAlertsIff | api/services/health_check_service.py:257-263 | a probe alerts exactly if the service is red, was not, and was last alerted 900 seconds ago or more, or never |
| HealthAlerts.PassCoversEveryService | api/services/health_check_service.py:340-363 | a pass stores for each of the six probed services what was found, and `stubbed` for the other two |
| HealthAlerts.AlertTimesAppend | api/services/health_check_service.py:335-363 | the alerts of two runs in a row are those of the first and then those of the second |
| HealthAlerts.HealthPoller.UpsertState | api/services/health_check_service.py:175-213 | prior status and new row, with the last alert time kept |
| HealthAlerts.HealthPoller.MaybeDispatchAlert | api/services/health_check_service.py:247-327 | an alert is sent exactly on a change to red past the cooldown, and recorded |
| HealthAlerts.HealthPoller.RunAll | api/services/health_check_service.py:335-363 | a pass over all services is the run of its probes, and sends exactly that run's alerts |
| Handover.SlotsAreConserved | api/services/admin_user_service.py:195-207 | over any prefix of the records, the leaving user's open slots all pass to the colleague, and everyone else keeps theirs |
| Handover.EventsAreConserved | api/services/admin_user_service.py:252-254 | the same for future appointments |
| Handover.HandoverIsComplete | api/services/admin_user_service.py:74-88 | after an accepted deactivation the user has no open work, exactly the slots that named them name the colleague, and nothing else changed |
| Handover.DeactivationAcceptedIff | api/services/admin_user_service.py:42-72 | a deactivation is accepted exactly if the user can leave and there is no open work, or another active user who shares a work role takes it |
| Handover.NothingIsLeftBehind | api/services/admin_user_service.py:74-88 | the user then holds no undeleted record that is not sold, declined or withdrawn and awaits no appointment, and the colleague has them |
| Handover.HandoverDoubleBooksIff | api/services/admin_user_service.py:252-256 | a hand-over keeps the calendar free of double bookings if and only if no appointment handed over overlaps one of the colleague's |
| Handover.HandoverBuffersIff | api/services/admin_user_service.py:252-256 | it keeps a buffered calendar buffered if and only if every appointment handed over can be kept with every live one of the colleague |
| Handover.DeskRunsDoubleBookIff | api/services/admin_user_service.py:252-256 | over runs that mix hand-overs with calendar calls, nobody is double booked at any point if and only if no accepted hand-over collides |
| Handover.HandoverCanDoubleBook | api/services/admin_user_service.py:252-256 | from a fresh office, such a run double-books |
| Handover.DeskRunsStaffIff | api/services/calendar_service.py:482-497 | over such runs, every live appointment stays with someone the calendar accepts as an appraiser, at every point, if and only if none is handed to someone it does not |
| Handover.HandoverCanLeaveTheAppraisers | api/services/admin_user_service.py:169-180 | from a fresh office, an appointment is handed to a colleague whose primary role is another |
| Handover.DeactivatedCanBeBooked | api/services/calendar_service.py:482-497 | from a fresh office, a deactivated appraiser is given a new appointment |
| Handover.UserAdmin.OpenRecordsAssignedTo | api/services/admin_user_service.py:114-134 | lists each open record with a slot that names the user, once |
| Handover.UserAdmin.FutureEventsForAppraiser | api/services/admin_user_service.py:137-153 | lists each live future appointment of the user, once |
| Handover.UserAdmin.ReassignRecords | api/services/admin_user_service.py:184-240 | the loop rewrites exactly the listed records and returns their ids |
| Handover.UserAdmin.ReassignEvents | api/services/admin_user_service.py:243-273 | the loop rewrites exactly the listed events and returns their ids |
| Handover.UserAdmin.DeactivateUser | api/services/admin_user_service.py:32-111 | new state, errors on every path and the ids of the rows moved |

## Left out

- Concurrency: calls run one at a time. Row locks, and an insert that slips between another call's scan and its write, are not modelled.
- Identifiers: UUIDs are row positions, and a foreign key is assumed to point at a row that exists (`WellFormed`, `ChildrenHaveCategories`).
- Row order: a SELECT without ORDER BY is taken to return table order. What depends on it: the last-wins dictionaries of an import over rows that share a label, `OwnComponentsKept` (an export ends with the looked-up row's own item), and the order of items in `RoundTripIff` and `ExportToPayload`.
- Dates: instants are unbounded integers, so a datetime never overflows.
- Travel: the drive times are one function for the length of one scan. The theorems on double booking let it change from call to call; those on buffers fix it. The cache is modelled apart from the scan.
- Hashing: `_hash` is taken to be injective on the stripped, lower-cased address.
- Text: `strip` and `lower` are exact up to U+00A0 for spaces and for ASCII letters.
- Numbers: component weights are integers in units of 0.0001 percent, without database rounding. A weight that is not a number is not modelled.
- Payloads: the values of a bundle are of the right JSON type, missing or null; the advisory `version` and `replaced_at` of single items, and the payload's own `replaced_at`, are not modelled.
- History variables: `prior` (the row a successor replaced) and `issued` (the envelope ids handed out) are not columns. They are there to state theorems.
- Side effects: audit rows, e-mails, notifications and their keys, watchers, and the recipients of alerts.
- Category CRUD outside the versioned rows: adding and editing components, attachments and photo slots.
- Operations without a method: the step function also covers `add_inspection_prompt`, `add_red_flag_rule` and `deactivate_category`, for which no class method is written.
- Submissions: field values, scores and red-flag evaluation; photo completeness, access and the title hold are inputs. `update_draft`, price changes, the `category_version` snapshot and soft deletion are not modelled.
- Queue order: the manager queue holds the right submissions, in table order; `submitted_at` is not modelled.
- Callbacks: the HTTP layer and the HMAC check in front of the eSign handlers.
- Health probes, the geocode cache, accounts and login: I/O or calls into libraries, without state of interest here.
