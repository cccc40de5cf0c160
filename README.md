# Student dashboard — a verified model of its record stores

The repository is a browser dashboard for students. Under its DOM code each
page keeps a few in-memory record stores and changes them in event handlers:

- **script.js**, the dashboard page:
  - tasks whose status (pending, done, overdue) is derived from the due day;
  - notes and resources with create/edit forms;
  - a subject filter;
  - `normalizeUrl`.
- **pages-script.js**, rich-text pages:
  - kept newest first;
  - edited in a modal with an unsaved-changes gate;
  - a clickable emoji icon;
  - `formatDateISO`.
- **spaces.js**, one study space:
  - files, notes and links;
  - a single "current item" that drives the edit, rename and delete dialogs;
  - `getFileIcon`.
- **spaces-overview.js**, the list of spaces:
  - add, rename and delete;
  - the rename and delete targets;
  - the total count;
  - the colour band of each card.

The model has six modules, one file each:

- `Text` (text.dfy): ECMAScript `trim`, the ASCII case folding of an `i`-flag
  regular expression, `includes`, and decimal numerals with `padStart`.
- `Records` (records.dfy): `find`/`findIndex` (first match), `filter` by id,
  `map` by id, upsert, update of the first match, and `[...new Set(xs)]`.
- `Dashboard` (dashboard.dfy): script.js.
- `Pages` (pages.dfy): pages-script.js.
- `Workspace` (workspace.dfy): spaces.js.
- `SpacesOverview` (overview.dfy): spaces-overview.js.

Each page's module state is a class. Its arrays are `seq` fields and its
target variables are `Option<int>` fields. The handlers are methods that
modify only the fields the JavaScript assigns. Each method's `ensures` ties
the new state to pure functions of the old state. The properties the source
promises are proved about those functions as lemmas.

How the JavaScript is read:

- A variable holding `null` or a numeric id is an `Option<int>`. Its
  truthiness (`null` and `0` are falsy) is `Records.Truthy`, and `??` is
  `Records.IdOr`.
- Dates are integer day numbers, or `Pages.Instant` where the local calendar
  fields are read. The day-number task status and label count calendar days.
  Beside them, `Dashboard.StatusAt` and `Dashboard.DiffDays` model the
  program's millisecond instants in a zone at a given offset from UTC.
- The clock (`Date.now()`, `new Date()`), the answers to `confirm`, the picked
  file and locale date labels are parameters of the handlers.

Behaviour of the code that the model keeps as written:

- An edit-mode save whose id no longer exists inserts nothing. `map` finds
  nothing to replace, so the store is unchanged.
- Records are changed in place in several handlers:
  - `task.status`;
  - `files[i].name`;
  - `spaces[i].name`;
  - `pages.sort`.
- The note and link forms of spaces.js save blank fields: their submit
  handlers check nothing.
- `confirmDelete` in spaces-overview.js treats an id of `0` as "no target".
- A clock-based id is not unique by construction, so uniqueness is a
  hypothesis of `Records.AppendFreshId`, not an invariant.
- A successful `savePage` in create mode does not simply close the form (see
  Findings).
- `editCurrentNote` in spaces.js clears the current item and then reads its
  id, which throws (see Findings).
- A task's status and due-date label compare a UTC-midnight due date with
  local midnight, so away from UTC offset 0 an overdue task can be labelled
  "Due today" (see Findings).

## Model

| member | source | states |
|---|---|---|
| Text.Trim | script.js:339 | `trim` yields a string no longer than the input that starts and ends with non-space, and is empty exactly when the input is all white space |
| Text.TrimKeepsMiddle | script.js:339 | `trim` removes only white space and only at the ends: the result is the input's middle part, preceded and followed by white space alone |
| Text.TrimIdempotent | script.js:309 | trimming twice is trimming once |
| Text.LowerAscii | script.js:314 | maps exactly the ASCII capitals onto the lower-case letters and leaves every other character alone; against `normalizeUrl`'s all-ASCII scheme pattern this is the whole effect of the `i` flag, since without the `u` flag case folding never maps a non-ASCII character onto an ASCII one |
| Text.NatToString | pages-script.js:248-250 | `String(n)` is a non-empty string of digits without a leading zero |
| Text.NatToStringRoundTrip | pages-script.js:248-250 | reading back the numeral of `n` gives `n` |
| Text.NatToStringLength | pages-script.js:248-250 | numbers below 10, 100, 1000 and 10000 have numerals of 1 to 4 digits |
| Text.PadStart2 | pages-script.js:249-250 | `padStart(2, "0")` makes a one-character string two characters long with a leading zero and keeps longer strings |
| Records.FindIndex | spaces.js:325 | `findIndex` gives the first position holding the id, and none exactly when no record carries it |
| Records.Find | script.js:323 | `find` gives the record at the first position holding the id, exactly when one exists |
| Records.FilterOut | script.js:393 | `filter` keeps exactly the records whose id differs |
| Records.FilterOutAbsent | script.js:391-397 | deleting an absent id changes nothing |
| Records.FilterOutAppend | script.js:393 | filtering keeps the survivors in order (it distributes over concatenation) |
| Records.FilterOutIdempotent | script.js:391-397 | deleting twice equals deleting once |
| Records.ReplaceWhere | script.js:367 | `map` by id keeps the length |
| Records.Upsert | script.js:366-370 | a truthy editing id keeps the length, turns every record with that id into the new record and leaves the others in place; a falsy one keeps the store as a prefix and adds the record at the end |
| Records.ReplaceWhereFound | script.js:367 | after a replace the first record with the id is the new one, an absent id leaves the store unchanged, and unique ids stay unique |
| Records.AppendFreshId | script.js:369 | appending a record with a new id keeps ids unique |
| Records.UpdateFirst | spaces.js:325-327 | updating at `findIndex` keeps length and ids, changes only the first match into `f` of itself, and changes nothing when the id is absent |
| Records.UpdateFirstIdempotent | spaces.js:325-327 | repeating an idempotent update changes nothing |
| Records.UpdateFirstThenFilterOut | spaces.js:325-327 | update then delete equals delete |
| Records.FilterOutAfterReplace | script.js:367 | replace then delete equals delete |
| Records.Distinct | script.js:558 | `[...new Set(s)]` holds exactly the values of `s`, each once |
| Records.DistinctFirstOccurrenceOrder | script.js:558 | those values come in the order of their first occurrence |
| Dashboard.Derived | script.js:304-305 | a not-done status is overdue exactly when the due day is before today, and never done |
| Dashboard.Normalize | script.js:299-306 | a done task is unchanged; any other gets the derived status; only the status changes |
| Dashboard.NormalizeAll | script.js:233 | the pass over all tasks keeps the length, normalises each task at its own position and leaves every task normal |
| Dashboard.NormalizeAllOfNormal | script.js:233 | a second pass on the same day changes nothing |
| Dashboard.Toggled | script.js:325-330 | a not-done task becomes done; a done task becomes pending or overdue by its due day, never done; only the status changes |
| Dashboard.ToggleTwice | script.js:322-334 | toggling twice restores a normal task |
| Dashboard.DueDateText | script.js:261-284 | "Done" for a done task; otherwise overdue, today, tomorrow or a later date exactly for day differences <0, 0, 1 and >=2 |
| Dashboard.LabelOfDiff | script.js:271-283 | the label of a task that is not done reads "Overdue" exactly for a negative day difference and "Due today" exactly for zero |
| Dashboard.LabelAgreesWithStatus | script.js:261-284 | for a normal task the label reads overdue exactly when the status is overdue, and "Done" exactly when it is done (on day numbers; see Findings for the program's instants) |
| Dashboard.CeilDays | script.js:269 | the day count is the least whole number of days not below the millisecond difference |
| Dashboard.StatusAt | script.js:304-305 | on instants, a task is overdue exactly when its due instant is before the start of today, and never done |
| Dashboard.DiffDays | script.js:266-269 | the label's day difference is the ceiling, in days, of the due instant minus the start of today |
| Dashboard.CeilDaysShift | script.js:269 | whole days plus a part of a day round up to one more day exactly when the part is positive |
| Dashboard.UtcDatesByOffset | script.js:261-306 | with the due date read as UTC midnight and today as local midnight: east of UTC the status is the day-number one and the day difference is one too large; west of UTC the difference is the day-number one and a task is overdue on its due day |
| Dashboard.LabelDisagreesAwayFromUtc | script.js:261-306 | in UTC+8 a task due yesterday, and in UTC-5 a task due today, is overdue yet labelled "Due today" |
| Dashboard.LocalDatesMatchDayModel | script.js:293-305 | with the due date read as local midnight, the status and the day difference are the day-number ones in every zone |
| Dashboard.LocalLabelAgreesWithStatus | script.js:261-306 | with the due date read as local midnight, the label reads "Overdue" exactly when the status is overdue, in every zone |
| Dashboard.CountStatus | script.js:401-403 | a status count is at most the number of tasks |
| Dashboard.CountsPartition | script.js:400-408 | the pending, done and overdue counts sum to the number of tasks |
| Dashboard.NormalizeKeepsDoneCount | script.js:233 | normalisation never changes the done count |
| Dashboard.WithSubject | script.js:237 | the subject filter keeps exactly the tasks of that subject, in store order by `WithSubjectAppend` |
| Dashboard.WithSubjectAppend | script.js:237 | filtering by subject distributes over concatenation, so the kept tasks stay in store order |
| Dashboard.VisibleTasks | script.js:235-237 | "all" shows every task, any other value exactly the tasks of that subject |
| Dashboard.Subjects | script.js:558 | every task subject is offered, only task subjects are offered, and none twice |
| Dashboard.KeptSelection | script.js:559-571 | the selection is kept when it is "all" or still offered, and otherwise falls back to "all" |
| Dashboard.NormalizeUrl | script.js:308-319 | blank gives "#"; a trimmed URL with an http(s) scheme in any case is kept; otherwise "https://" is prefixed; non-blank input always yields a trimmed URL with such a scheme |
| Dashboard.NormalizeUrlIdempotent | script.js:308-319 | normalising a non-blank URL twice equals normalising once |
| Dashboard.NormalizeBlankUrlTwice | script.js:308-319 | a blank URL is not a fixed point: "#" normalises to "https://#" |
| Dashboard.TaskForm | script.js:339-364 | no task exactly when the trimmed name or the date is empty; id is editing id or clock; the name is trimmed; a blank subject becomes "General"; a task is done exactly when it is an edit of a done task; the status is normal |
| Dashboard.SavedSubjectNotBlank | script.js:363 | a saved task's subject is never blank |
| Dashboard.SaveOnRenderedStore | script.js:366-372 | saving into a store normalised today needs no further normalisation |
| Dashboard.DeleteOnRenderedStore | script.js:391-395 | deleting from a store normalised today needs no further normalisation |
| Dashboard.ToggleOnRenderedStore | script.js:322-334 | toggling in a store normalised today changes only the toggled task |
| Dashboard.EntryForm | script.js:432-447 | no note exactly when the trimmed title, trimmed URL or date is empty; otherwise the trimmed fields with the editing id or the clock |
| Dashboard.Dashboard.constructor | script.js:64-66 | no form is in edit mode |
| Dashboard.Dashboard.RenderTasks | script.js:232-237 | the loop normalises every task in place and returns the filtered tasks |
| Dashboard.Dashboard.UpdateSubjectFilter | script.js:553-572 | the options are the distinct subjects and the selection is kept or falls back |
| Dashboard.Dashboard.CloseAllModals | script.js:221-229 | every form leaves edit mode |
| Dashboard.Dashboard.ToggleTaskStatus | script.js:322-334 | toggles the first task with the id and renders; an unknown id changes nothing |
| Dashboard.Dashboard.HandleAddTask | script.js:337-375 | invalid input changes nothing; otherwise upsert, render, rebuild the filter, leave edit mode |
| Dashboard.Dashboard.StoreTask | script.js:366-374 | upsert, render, rebuild the filter, leave edit mode |
| Dashboard.Dashboard.EditTask | script.js:378-388 | enters edit mode only for an existing id |
| Dashboard.Dashboard.DeleteTask | script.js:391-397 | without confirmation nothing changes; with it the id is filtered out, then render and filter rebuild |
| Dashboard.Dashboard.HandleAddNote | script.js:432-457 | invalid input changes nothing; otherwise upsert and leave edit mode |
| Dashboard.Dashboard.EditNote | script.js:460-470 | enters edit mode only for an existing id |
| Dashboard.Dashboard.DeleteNote | script.js:473-478 | filters the id out only when confirmed |
| Dashboard.Dashboard.HandleAddResource | script.js:502-529 | invalid input changes nothing; otherwise upsert and leave edit mode |
| Dashboard.Dashboard.EditResource | script.js:532-542 | enters edit mode only for an existing id |
| Dashboard.Dashboard.DeleteResource | script.js:545-550 | filters the id out only when confirmed |
| Pages.TwoDigitField | pages-script.js:249-250 | a padded month or day is two digits that read back as the number |
| Pages.JoinedDateParses | pages-script.js:251 | year, month and day joined by dashes read back as their values |
| Pages.FormatDateISO | pages-script.js:247-252 | a four-digit year gives a 10-character `YYYY-MM-DD` that parses back to year, month + 1 and day |
| Pages.IndexOf | pages-script.js:235 | `indexOf` gives the first index of the value, or -1 exactly when it is absent |
| Pages.PageIconsDistinct | pages-script.js:221-234 | the twelve emojis are pairwise different |
| Pages.Step | pages-script.js:235-237 | one step stays in the cycle, and a value not in it steps to the first entry |
| Pages.NextIcon | pages-script.js:220-238 | the new icon is one of the twelve, and an unknown icon becomes the first |
| Pages.StepAt | pages-script.js:235-236 | entry j steps to entry (j+1) mod length |
| Pages.ClicksAt | pages-script.js:220-238 | n clicks from entry k reach entry (k+n) mod length |
| Pages.NextIconAt | pages-script.js:220-238 | each emoji is followed by the next, the last by the first |
| Pages.FullCycleReturns | pages-script.js:220-238 | as many clicks as there are entries (twelve for the icons) return to the start |
| Pages.InsertByRecency | pages-script.js:201 | inserting keeps the pages newest first and adds exactly that page |
| Pages.SortByRecency | pages-script.js:201 | the sort is a permutation of the pages, newest first |
| Pages.FilterOutKeepsOrder | pages-script.js:214 | deleting keeps the pages newest first |
| Pages.PageForm | pages-script.js:167-190 | no page exactly when the trimmed title is empty; id is editing id or clock; title and content trimmed; empty icon defaults to "📄"; ISO date of today; `createdAt` kept from the edited page when found and nonzero, else now |
| Pages.SaveProperties | pages-script.js:192-201 | after a save the pages are newest first and a permutation of the upsert; create adds one page holding the new one; edit keeps the count and holds the edited page when its id exists |
| Pages.PageEditor.constructor | pages-script.js:23 | the editor starts closed in create mode |
| Pages.PageEditor.CreateNewPage | pages-script.js:121-127 | an empty editor in create mode with the default icon, open |
| Pages.PageEditor.EditPage | pages-script.js:130-139 | loads the first page with the id into the open editor; an unknown id changes nothing |
| Pages.PageEditor.ClosePageEditor | pages-script.js:151-164 | with an unsaved create-mode draft and a declined confirm nothing changes; otherwise closed and in create mode |
| Pages.PageEditor.SavePageAsWritten | pages-script.js:167-205 | the pages become the save result; a blank title changes nothing else; after a create-mode save a declined confirm leaves the editor open in create mode |
| Pages.PageEditor.SavePage | pages-script.js:167-205 | the pages become the save result; a successful save closes the editor in create mode |
| Pages.PageEditor.DeletePage | pages-script.js:208-217 | filters the id out only when confirmed and keeps the pages newest first |
| Pages.PageEditor.ChangePageIcon | pages-script.js:220-238 | the icon becomes the next of the cycle |
| Pages.SavingDraftTwice | pages-script.js:167-205 | saving one create-mode draft twice, at two instants, adds two pages with the same title, content and icon: one under each id, each stamped with its own save time |
| Pages.DeclinedDiscardDuplicatesPage | pages-script.js:151-205 | save, decline the discard question, save again later: the editor stays open and the same title, content and icon are stored twice |
| Pages.SaveClosesEditor | pages-script.js:167-205 | with the corrected save the editor closes and the page is stored once |
| Workspace.FirstMatchPicksFirst | spaces.js:164-171 | the icon of the first matching rule is chosen |
| Workspace.FileIcon | spaces.js:164-171 | the icon is one of the five |
| Workspace.FileIconFollowsRules | spaces.js:164-171 | `getFileIcon` is the first match over the ordered rule table |
| Workspace.DocumentBeatsPresentation | spaces.js:164-171 | a type containing "document" never gets 📊, and gets 📝 when it contains no "pdf" |
| Workspace.SamplePresentationIcon | spaces.js:13 | the sample .pptx type gets 📝 |
| Workspace.SampleHasNoPdf | spaces.js:13 | the sample .pptx type contains no "pdf" |
| Workspace.NoteEdited | spaces.js:323-329 | the edit keeps length and ids; the first note with the id gets the new title and content; others are unchanged; an absent id changes nothing |
| Workspace.LinkEdited | spaces.js:386-392 | the same for links, keeping `createdAt` |
| Workspace.FileRenamed | spaces.js:473-476 | the same for files, keeping type and size |
| Workspace.EditThenDelete | spaces.js:495-514 | editing or renaming then deleting equals deleting |
| Workspace.Purge | spaces.js:498-514 | a collection is filtered exactly when the recorded type names it |
| Workspace.DeleteTouchesOneCollection | spaces.js:498-514 | only the named collection can change, and an unknown type changes none |
| Workspace.Workspace.constructor | spaces.js:62-63 | nothing is targeted |
| Workspace.Workspace.HandleFileUpload | spaces.js:298-314 | no file changes nothing; otherwise appends one record (type defaults to octet-stream) and the file count rises by one |
| Workspace.Workspace.EditNote | spaces.js:360-371 | targets an existing note; an unknown id changes nothing |
| Workspace.Workspace.ViewNote | spaces.js:348-358 | targets an existing note for the view dialog; an unknown id changes nothing |
| Workspace.Workspace.CloseViewNoteModal | spaces.js:549-553 | closing the view dialog clears the target |
| Workspace.Workspace.EditCurrentNoteAsWritten | spaces.js:373-377 | with a target, the call throws exactly then and leaves nothing targeted; without one it returns |
| Workspace.Workspace.EditCurrentNote | spaces.js:373-377 | with the id read before closing, an existing note stays targeted for editing |
| Workspace.ViewThenEditAsWritten | spaces.js:348-377 | viewing an existing note and pressing edit throws and leaves no note targeted |
| Workspace.ViewThenEdit | spaces.js:348-377 | with the corrected handler, viewing a note and pressing edit targets that note for editing |
| Workspace.Workspace.HandleNoteSubmit | spaces.js:317-346 | edits the targeted note or appends a new one, then clears the target |
| Workspace.Workspace.EditLink | spaces.js:416-427 | targets an existing link; an unknown id changes nothing |
| Workspace.Workspace.HandleLinkSubmit | spaces.js:380-414 | edits the targeted link or appends one with today's label, then clears the target |
| Workspace.Workspace.RenameFile | spaces.js:456-465 | targets an existing file; an unknown id changes nothing |
| Workspace.Workspace.HandleRenameSubmit | spaces.js:467-484 | no target changes nothing; otherwise renames the file with the target id and clears the target |
| Workspace.Workspace.DeleteItem | spaces.js:487-493 | records the type and id |
| Workspace.Workspace.ConfirmDelete | spaces.js:495-520 | no target changes nothing; otherwise only the named collection loses the id, then the target is cleared |
| Workspace.Workspace.CloseAllModals | spaces.js:587-593 | the target is cleared |
| Workspace.DeleteAndConfirm | spaces.js:487-520 | request then confirm removes exactly the named collection's records with the id and leaves the others |
| Workspace.CloseThenConfirm | spaces.js:587-593 | cancel then confirm removes nothing |
| SpacesOverview.CardGradient | spaces-overview.js:70 | the card class is one of the six, at index mod 6 |
| SpacesOverview.GradientColorsDistinct | spaces-overview.js:11-18 | the six classes are pairwise different |
| SpacesOverview.GradientRepeats | spaces-overview.js:70 | colours repeat every six cards |
| SpacesOverview.NeighbouringCardsDiffer | spaces-overview.js:70 | neighbouring cards never share a colour |
| SpacesOverview.CardGradients | spaces-overview.js:66-70 | the first six cards take the six classes in order, the colours repeat every six cards, and neighbouring cards never share a colour |
| SpacesOverview.Renamed | spaces-overview.js:154-156 | keeps length and ids; the first space with the id gets the name and keeps `createdAt`; others are unchanged; an absent id changes nothing |
| SpacesOverview.RenameTwice | spaces-overview.js:142-163 | the same rename twice equals once |
| SpacesOverview.RenameThenDelete | spaces-overview.js:171-174 | renaming then deleting equals deleting |
| SpacesOverview.Overview.constructor | spaces-overview.js:21-22 | nothing is targeted |
| SpacesOverview.Overview.HandleAddSpace | spaces-overview.js:104-129 | a blank name changes nothing; otherwise appends one space with the trimmed name and the total rises by one |
| SpacesOverview.Overview.OpenRenameModal | spaces-overview.js:132-139 | targets an existing space; an unknown id keeps the old target |
| SpacesOverview.Overview.HandleRenameSpace | spaces-overview.js:142-163 | no target or a blank name changes nothing and keeps the target; otherwise renames and clears the target |
| SpacesOverview.Overview.OpenDeleteDialog | spaces-overview.js:166-169 | holds the id |
| SpacesOverview.Overview.ConfirmDelete | spaces-overview.js:171-180 | a falsy target (none or 0) changes nothing; otherwise exactly that id is filtered out and the target cleared |
| SpacesOverview.Overview.CloseRenameModal | spaces-overview.js:199-203 | the rename target is cleared |
| SpacesOverview.Overview.CloseDeleteDialog | spaces-overview.js:205-208 | the delete target is cleared |
| SpacesOverview.Overview.CloseAllModals | spaces-overview.js:210-216 | both targets are cleared |
| SpacesOverview.DeleteAndConfirm | spaces-overview.js:166-180 | request then confirm removes exactly the spaces with the id, except that id 0 removes nothing |
| SpacesOverview.CancelThenConfirm | spaces-overview.js:210-216 | cancel then confirm removes nothing and leaves no target |

## Left out

- Rendering is not modelled: HTML templates, `innerHTML`, `createElement`, class toggling, tabs and card animations. Only the data each render reads is modelled: the filtered tasks, the counts and the card colours. The empty-state placeholder is not modelled.
- Toasts, `alert`, `setTimeout`, injected styles and event-listener wiring are presentation only.
- `formatDate` and `toLocaleDateString` depend on the locale. Dashboard dates are day numbers, and date labels of links and spaces are parameters.
- The text of a date string is not parsed. A dashboard due date is a day number, and the instant `new Date(dueDate)` gives for it is `Dashboard.UtcMidnight`.
- Dashboard.LabelAgreesWithStatus: the agreement holds on day numbers, which is the program only at UTC offset 0. The program compares a UTC-midnight due date with local midnight, and at other offsets the label and the status disagree (`Dashboard.UtcDatesByOffset`, and Findings).
- Dashboard.DueDateText: its day difference is the program's at UTC offset 0 or west of UTC. East of UTC the program's difference is one larger (`Dashboard.UtcDatesByOffset`).
- Dashboard.Derived: it is the program's status at UTC offset 0 or east of UTC. West of UTC the program already marks a task overdue on its due day (`Dashboard.UtcDatesByOffset`).
- `formatFileSize` is not modelled, because it is floating-point `Math.log`/`Math.pow`/`Math.round`.
- `stripHtml` is not modelled, because it needs the browser's HTML parser.
- mobile-nav.js only toggles CSS classes.
- Navigation is not modelled: `openSpace`, `goBack`, and the `URLSearchParams` lookup in `applySelectedSpace`.
- Some spaces.js dialog handlers are not modelled, because they only open or close dialogs, set or clear the current item, or show a toast:
  - `previewFile`;
  - `downloadFile`, `downloadCurrentFile` (a toast only; nothing is downloaded);
  - `openNoteModal`, `openLinkModal`;
  - `closePreviewModal`;
  - the upload, note, link, rename and delete close functions.
- The current item is modelled by its id. spaces.js and spaces-overview.js hold the record object itself, which aliases the array entry. The handlers read only its `.id`, and an object is always truthy.
- `updateSubjectFilter` returns early when the filter element is missing from the page. That case is not modelled, because the element is part of the page.
- Pages.SortByRecency: it proves that the result is sorted newest first and is a permutation. It does not prove that equal `createdAt` values keep their order, which `Array.prototype.sort` guarantees.
- Pages.FormatDateISO: the read-back property is stated for four-digit years only.
- Workspace.SamplePresentationIcon: only the sample .pptx type is evaluated. The other sample types are covered by the general lemmas `Workspace.FileIconFollowsRules` and `Workspace.DocumentBeatsPresentation`.

## Findings

| source | as written | input that shows it | evidently intended | confidence | as-written member | corrected member |
|---|---|---|---|---|---|---|
| pages-script.js:167-205 | After storing a new page, `savePage` calls `closePageEditor` (line 204) while the saved title is still in the editor and `editingPageId` is still `null`, so the editor asks whether to discard "unsaved changes". Declining leaves it open in create mode, and the next save stores the same page again under a new id. | create a page titled "A", save, answer "Cancel" to the discard question, save again | a successful save closes the editor without asking, so one save stores one page | not executed | Pages.DeclinedDiscardDuplicatesPage | Pages.PageEditor.SavePage |
| script.js:261-306 | `normalizeTaskStatus` and `getDueDateText` compare `new Date(dueDate)`, which is midnight UTC of the due day, with `getStartOfToday()`, which is local midnight. They count calendar days only at UTC offset 0. East of UTC the label's day difference is one too large; west of UTC a task is overdue on its due day. Either way an overdue task can be labelled "Due today". | in UTC+8, a task due yesterday; in UTC-5, a task due today | the due date is read as local midnight, so both count calendar days and a task is overdue exactly when its label reads "Overdue" | not executed | Dashboard.LabelDisagreesAwayFromUtc | Dashboard.LocalLabelAgreesWithStatus |
| spaces.js:373-377 | `editCurrentNote` calls `closeViewNoteModal`, which sets `currentItem` to `null` (line 551), and then reads `currentItem.id`. That read throws a TypeError, so the edit dialog never opens from the view dialog. | view an existing note, then press its edit button | the edit dialog opens on the viewed note: read the id before closing the view dialog | not executed | Workspace.ViewThenEditAsWritten | Workspace.ViewThenEdit |
