# MyKanban core in Dafny

MyKanban is a small command-line Kanban board. Tasks are kept in an SQLite
store (the `KANBAN` table, one nine-column row per task, ids assigned by
`AUTOINCREMENT`). This project models the parts of it that hold its rules:

- the `TaskStatus` enumeration;
- the `Task` entity: constructor validation, property setters, conversion
  to and from store rows and dictionaries, due-date labels, overdue test,
  equality;
- the `KanbanBoard` store front: add, edit with partial updates, delete,
  batch delete, get one, cached get-all, sorting and grouping by status;
- `UpcomingTask`, which scans the table for overdue and soon-due tasks and
  formats the reminders;
- the input validators of the command-line menu: status codes, the due
  date shape check, blank answers meaning "skip", task-id conversion and
  the activation prompt.

Python's behaviour is spelt out where the code relies on it:

- `str.strip`, `str.split`, `str(int)` and `int(str)`, in module `Text`;
- `datetime.strptime(s, "%Y-%m-%d")` and `timedelta` arithmetic on integer
  microseconds, in module `Calendar`.

Exceptions are values of `Values.Error`, and the catch sites that decide
what a caller sees are written out.

Modules, one per file:

| module | file | models |
|---|---|---|
| `Values` | values.dfy | dynamically typed cells (`None`, ints, strings), Python's truth test, exceptions |
| `Text` | text.dfy | the string built-ins listed above |
| `Calendar` | calendar.dfy | proleptic Gregorian dates, `toordinal`, `strptime` with `%Y-%m-%d` |
| `TaskStatus` | task_status.dfy | `TaskStatus` (DataStructures.py:12-33) |
| `KanbanDb` | kanban_db.dfy | the task store as a sequence of rows in id order, plus the set of known users |
| `Tasks` | task.dfy | `Task` (DataStructures.py:36-366), as pure field records and as a class with setters |
| `Kanban` | kanban.dfy | `KanbanBoard` (DataStructures.py:369-615) |
| `BoardView` | board_view.dfy | `_sort_tasks` and the grouping by status (DataStructures.py:649-666) |
| `Notification` | notification.dfy | `UpcomingTask` (Notification.py:8-80) |
| `Cli` | cli.dfy | the validators inside the menu loops of CLI.py |

The store module `KanbanInfoDatabase` is not part of this model. The board
uses it only through `GetTaskByID`, `GetAllTasks`, `AddTask`, `EditTask`,
`DelTask` and `CheckUserExist`. `KanbanDb.Database` gives these the meaning
the SQL schema implies:

- rows are kept in id order;
- a new row gets the next id, and ids are never reused;
- an edit rewrites the six editable columns of the rows with that id;
- a delete removes them.

Calls into code outside the model become parameters:

- `datetime.now()` is the `now` argument, as a date, an instant or an
  ISO string, depending on what the code does with it;
- `kdb.GetUserByPhone` is the function argument `nameOf`;
- the KANBAN table, or its absence, is the `table` argument.

## Model

| member | source | states |
|---|---|---|
| TaskStatus.GetValidStatuses | DataStructures.py:12-22 | the four status values, in declaration order, pairwise distinct |
| TaskStatus.FromValue | DataStructures.py:12-17 | a string names a member exactly when it is one of the valid statuses |
| TaskStatus.ValueRoundTrip | DataStructures.py:12-17 | value lookup and `.value` are inverse |
| TaskStatus.FromNumber | DataStructures.py:24-33 | defined exactly for 1..4, where number n gives the n-th valid status |
| Text.StripLeft | DataStructures.py:68 | the result is the suffix left after removing leading whitespace; it is empty exactly for blank input |
| Text.StripRight | DataStructures.py:68 | the result is the prefix left after removing trailing whitespace; it is empty exactly for blank input |
| Text.Strip | DataStructures.py:68 | no whitespace at either end; empty exactly when the input is blank |
| Text.StripOfStripped | DataStructures.py:126 | a string without surrounding whitespace is unchanged by stripping |
| Text.StripIdempotent | DataStructures.py:126 | stripping twice equals stripping once |
| Text.NatToString | Notification.py:53 | `str(n)` is a non-empty digit string without a leading zero |
| Text.NatToStringRoundTrip | Notification.py:53 | reading back the decimal rendering of n gives n |
| Text.NatToStringInjective | DataStructures.py:352 | distinct numbers render differently |
| Text.IntToString | Notification.py:68 | the rendering starts with '-' exactly for negative numbers |
| Text.Pad2 | Notification.py:53 | `{n:02d}` is two digits denoting n when n < 100 |
| Text.Pad4 | DataStructures.py:288 | four digits denoting n, for n < 10000 |
| Text.Split | CLI.py:82 | at least one part, and no part contains the separator |
| Text.JoinSplit | CLI.py:82 | joining the parts of a split with the same separator restores the string |
| Text.SplitNoSeparator | CLI.py:82 | a string without the separator splits into itself |
| Text.SplitAtFirst | CLI.py:82 | the first part of a split is the text before the first separator |
| Text.Lower | DataStructures.py:654 | same length; each ASCII letter A-Z is lowered and every other character is kept |
| BoardView.SortKey | DataStructures.py:651-658 | the key each sort uses: due date then title, lower-cased title, or due date; BoardView.SortedMeaning states what sorting by it means |
| Text.StrLessIrreflexive | DataStructures.py:652 | string `<` is irreflexive |
| Text.StrLessTransitive | DataStructures.py:652 | string `<` is transitive |
| Text.StrLessTotal | DataStructures.py:652 | any two distinct strings are ordered one way or the other |
| Text.StrLessAsymmetric | DataStructures.py:652 | string `<` is asymmetric |
| Calendar.MaxOrdinalIsLastDay | Notification.py:12 | 9999-12-31 is valid and is the last representable day |
| Calendar.DaysBeforeYearGrows | DataStructures.py:349 | the days before a later year include the whole earlier year |
| Calendar.MonthsFitInYear | DataStructures.py:349 | months follow each other inside their year |
| Calendar.OrdinalIncreasing | DataStructures.py:273 | an earlier date has a smaller ordinal |
| Calendar.OrdinalOrder | DataStructures.py:273 | comparing ordinals is comparing dates, both ways, and ordinals are injective |
| Calendar.Ordinal | Notification.py:46 | the day number `date` comparisons go by: days before the year, plus days before the month, plus the day; Calendar.OrdinalOrder and Calendar.OrdinalRange state that it orders dates and stays in range |
| Calendar.OrdinalRange | Notification.py:12 | every valid date has an ordinal between 1 and the last day's |
| Calendar.MatchMonth | DataStructures.py:189 | `%m` reads 1-12 from one or two characters and is followed by '-' |
| Calendar.MatchDay | DataStructures.py:189 | `%d` reads 1-31 from one or two characters |
| Calendar.ParseDate | DataStructures.py:186-192 | whatever `strptime` accepts is a calendar-valid date |
| Calendar.ParseFullDate | DataStructures.py:186-192 | on a `YYYY-MM-DD` string, parsing succeeds exactly for calendar-valid dates, with those fields |
| Calendar.FormatDate | DataStructures.py:288 | `isoformat()` yields the full-date shape spelling the same year, month and day |
| Calendar.ParseFormatDate | DataStructures.py:288 | parsing the ISO rendering of a valid date gives the date back |
| Calendar.ParseDateAcceptsShortFields | Notification.py:42 | "2024-1-5" is accepted as 5 January 2024: one-digit fields pass |
| Calendar.ParseDateRejectsFebruary30 | DataStructures.py:189-192 | "2024-02-30" is rejected |
| Calendar.ParseDateRejectsFebruary29 | DataStructures.py:189-192 | "2023-02-29" is rejected, since 2023 is not a leap year |
| Calendar.ParseDateRejectsYearZero | DataStructures.py:189-192 | "0000-01-01" is rejected, since year 0 is out of range |
| KanbanDb.Cells | DataStructures.py:310-311 | a stored row has nine columns, and the id comes first |
| KanbanDb.Find | DataStructures.py:454 | a row is found exactly when one with that id is stored, and it is that row |
| KanbanDb.Remove | DataStructures.py:543 | the rows with that id disappear and every other row stays |
| KanbanDb.Update | DataStructures.py:474-482 | same rows in the same order; those with the id get the new editable columns; the others are unchanged (Kanban.EditedRecordsFrame draws on it for the id, creation date and creator) |
| KanbanDb.RemoveKeepsOrder | DataStructures.py:543 | deleting keeps the store in id order |
| KanbanDb.FindInIncreasing | DataStructures.py:583 | in an id-ordered store, looking up a stored row's id finds that row |
| KanbanDb.Database.constructor | DataStructures.py:382-383 | the store opens with the given users, rows and next id |
| KanbanDb.Database.GetAllTasks | DataStructures.py:597 | one row per stored task, in storage order; Kanban.RebuildKeepsGoodRows states what is built from them |
| KanbanDb.Database.GetTaskByID | DataStructures.py:454 | `kdb.GetTaskByID`: the cells of the row KanbanDb.Find finds, or None |
| KanbanDb.Database.UserExists | DataStructures.py:415 | `kdb.CheckUserExist`: an integer key the user directory holds; Kanban.AddSpec and Kanban.EditWriteIsMerge state where it decides |
| KanbanDb.Database.AddTask | DataStructures.py:427-430 | appends the task under a fresh id with no editor; the next id grows and users are unchanged |
| KanbanDb.Database.EditTask | DataStructures.py:474-482 | the store becomes the updated store; ids and users are unchanged |
| KanbanDb.Database.DelTask | DataStructures.py:543 | the store loses exactly the rows with that id |
| Tasks.TitleCheck | DataStructures.py:80-81 | the title passes exactly when it is a non-blank string |
| Tasks.InitCreationDate | DataStructures.py:96-105 | None becomes the current time, a string is kept, and anything else raises TypeError |
| Tasks.Construct | DataStructures.py:41-94 | succeeds exactly when the title is non-blank, the status valid, both users positive and the creation date usable; then the title is stored stripped and the other arguments as given; a blank title or empty status gives its own ValueError |
| Tasks.WithTaskId | DataStructures.py:112-116 | accepted exactly for a positive int; otherwise ValueError; only the id changes |
| Tasks.WithTitle | DataStructures.py:122-126 | accepted exactly for a non-blank string, stored stripped; only the title changes |
| Tasks.WithStatus | DataStructures.py:132-134 | accepted exactly for one of the four statuses; otherwise ValueError; only the status changes |
| Tasks.WithPersonInCharge | DataStructures.py:140-146 | accepted exactly for a positive int naming a known user; only that field changes |
| Tasks.WithDueDate | DataStructures.py:152-156 | accepted exactly for a string `strptime` parses; another string gives ValueError and a non-string TypeError |
| Tasks.WithEditors | DataStructures.py:166-172 | accepted exactly for None or a positive int naming a known user |
| Tasks.FromDatabaseRow | DataStructures.py:307-326 | a row shorter than nine columns gives ValueError; a row builds a task exactly when it meets BuildsTask (non-blank title, known status, positive person-in-charge and creator, creation date not an int), and any built task is well formed |
| Tasks.Row | DataStructures.py:310-311 | a task's store row has nine columns |
| Tasks.FromDatabaseRowOfRow | DataStructures.py:307-326 | building a task from its own row gives the task back |
| Tasks.ToDict | DataStructures.py:277-289 | the dictionary has exactly the nine keys |
| Tasks.FromDict | DataStructures.py:291-304 | a missing required key gives KeyError, and any built task is well formed |
| Tasks.ToDictRequired | DataStructures.py:279-285 | the required keys hold the task's fields |
| Tasks.ToDictOptional | DataStructures.py:300-303 | the optional keys, read with their defaults, hold the task's fields |
| Tasks.ToDictLookups | DataStructures.py:291-304 | `from_dict(to_dict())` runs the constructor on the task's own fields |
| Tasks.FromDictToDict | DataStructures.py:277-304 | `from_dict(to_dict())` gives the task back |
| Tasks.DueUnit | DataStructures.py:357-364 | the unit part of a label starts with a space |
| Tasks.DueLabelForm | DataStructures.py:357-364 | from two days on, a label is "Due in ", a count and a unit |
| Tasks.DigitsPrefixUnique | DataStructures.py:352-364 | a digit run followed by a non-digit reads one way only |
| Tasks.DueInInjective | DataStructures.py:357-364 | "Due in" labels determine their count and unit |
| Tasks.DueUnitRange | DataStructures.py:357-364 | equal units mean the same band: days, weeks or months |
| Tasks.DueInBucket | DataStructures.py:357-364 | equal "Due in" labels mean equal buckets |
| Tasks.OverdueBucket | DataStructures.py:351-352 | equal overdue labels mean equal day differences |
| Tasks.DueLabelOverdue | DataStructures.py:351-364 | the label starts with "Overdue" exactly when the due date has passed |
| Tasks.DueLabelShortCases | DataStructures.py:353-356 | "Due today" and "Due tomorrow" belong to one day difference each |
| Tasks.DueLabelDeterminesBucket | DataStructures.py:351-364 | two day differences get the same label exactly when they fall in the same bucket: overdue by d, today, tomorrow, d days below a week, d//7 weeks below 30 days, d//30 months |
| Tasks.DueLabel | DataStructures.py:351-364 | the label for a due date d days away; Tasks.DueLabelDeterminesBucket, Tasks.DueLabelOverdue and Tasks.DueLabelForm state which buckets it tells apart |
| Tasks.TimeUntilDue | DataStructures.py:344-366 | a non-string due date raises TypeError; otherwise there is a label exactly when the date parses |
| Tasks.OverdueLabelAgrees | DataStructures.py:269-275 | a task is overdue exactly when its label starts with "Overdue" |
| Tasks.IsOverdue | DataStructures.py:269-275 | `_is_overdue`: the due date is a string that parses and lies before today; Tasks.OverdueLabelAgrees ties it to the label |
| Tasks.Task.constructor | DataStructures.py:41-75 | the object holds the validated fields |
| Tasks.Task.SetTaskId | DataStructures.py:112-116 | the id changes when accepted; otherwise the task is unchanged and the error reported |
| Tasks.Task.SetTitle | DataStructures.py:122-126 | the title changes when accepted; otherwise the task is unchanged and the error reported |
| Tasks.Task.SetStatus | DataStructures.py:132-134 | the status changes when accepted; otherwise the task is unchanged and the error reported |
| Tasks.Task.SetPersonInCharge | DataStructures.py:140-146 | the person changes when accepted; otherwise the task is unchanged and the error reported |
| Tasks.Task.SetDueDate | DataStructures.py:152-156 | the due date changes when accepted; otherwise the task is unchanged and the error reported |
| Tasks.Task.SetEditors | DataStructures.py:166-172 | the editor changes when accepted; otherwise the task is unchanged and the error reported |
| Tasks.Task.SetAdditionalInfo | DataStructures.py:178-180 | only the additional information changes, to any value |
| Tasks.EqualsProperties | DataStructures.py:338-342 | equality by id is symmetric and transitive, and a task equals itself exactly when it has an id |
| Tasks.Task.Equals | DataStructures.py:338-342 | `__eq__`: the same task id, which must not be None; Tasks.EqualsProperties states what kind of equality that is |
| Kanban.SetFieldSpec | DataStructures.py:496-517 | each field's setter succeeds exactly on the values it accepts and then assigns that field |
| Kanban.StepSpec | DataStructures.py:496-517 | a block succeeds exactly when all before it did and its value is None or accepted; it assigns only its field and reports its name when supplied |
| Kanban.StageOk | DataStructures.py:496-517 | after n blocks, success means every supplied value so far was accepted; then the first n supplied values are merged and named |
| Kanban.StageKeeps | DataStructures.py:492-517 | the blocks never change the id, creator, creation date or editor |
| Kanban.StagesSpec | DataStructures.py:496-517 | after all blocks: success exactly when every supplied value is accepted, with those values merged and named in order |
| Kanban.ApplyUpdatesSpec | DataStructures.py:492-523 | success exactly when every supplied value and the editor are accepted; then exactly the supplied fields change, the editor is set iff something was supplied, the list names the supplied fields plus "editor", and id, creator and creation date are kept |
| Kanban.ApplyUpdates | DataStructures.py:492-523 | the setters run block by block and stop at the first exception; Kanban.ApplyUpdatesSpec states the outcome |
| Kanban.ErrorSticks | DataStructures.py:492-523 | once a block raises, the update ends with that error and those fields |
| Kanban.StageNext | DataStructures.py:496-517 | the blocks run in order: title, status, person, due date, information |
| Kanban.StageWellFormed | DataStructures.py:496-517 | the blocks keep a task well formed |
| Kanban.StepWellFormed | DataStructures.py:496-517 | one block keeps a task well formed |
| Kanban.ApplyUpdatesWellFormed | DataStructures.py:492-523 | updating keeps a task well formed, whether it succeeds or fails |
| Kanban.StatusRejected | DataStructures.py:500-503 | an invalid status raises ValueError and leaves the fields alone |
| Kanban.InvalidStatusStopsUpdate | DataStructures.py:496-503 | with a valid title and an invalid status, the title is applied in memory and the update raises ValueError |
| Kanban.RecordOf | DataStructures.py:427-430 | a new row carries the id it was given |
| Kanban.AddSpec | DataStructures.py:393-438 | a task is added exactly when the status is valid, both users exist and are positive, and the title is non-blank; then it has no id and no editor, the creation date is now, the title is the stripped title, and the status, person in charge, creator, due date and additional info are the ones given |
| Kanban.AddAcceptsAnyDueDate | DataStructures.py:71 | the due date is not checked on add: "next week" is stored |
| Kanban.GetTaskSpec | DataStructures.py:580-589 | a missing id gives None, and any task returned is well formed |
| Kanban.FindAppendFresh | DataStructures.py:427-430 | a row appended under a fresh id is found by that id |
| Kanban.AddThenGet | DataStructures.py:427-430 | an added task is read back with the id the store gave it |
| Kanban.FindAfterRemove | DataStructures.py:543 | after deleting x, looking up x fails and other lookups are unchanged |
| Kanban.DeleteThenGet | DataStructures.py:535-543 | a deleted task can no longer be read or deleted |
| Kanban.DeleteIndependent | DataStructures.py:535-543 | deleting one id does not affect reading or deleting another |
| Kanban.DeleteSpec | DataStructures.py:525-551 | deletion succeeds exactly when the row exists and builds a task; Kanban.DeleteThenGet and Kanban.DeleteIndependent state its effect |
| Kanban.BatchStepReports | DataStructures.py:569-576 | one iteration reports its id once, as successful or failed, and adds nothing to not_found |
| Kanban.BatchStep | DataStructures.py:569-576 | one iteration of the batch loop; Kanban.BatchStepReports states that it reports its id exactly once |
| Kanban.BatchPartition | DataStructures.py:553-578 | every input id is reported exactly once, as successful or failed, and not_found stays empty |
| Kanban.BatchDistinct | DataStructures.py:553-578 | with distinct ids, the successful ids are the ones deletable at the start, in input order, and other ids are unaffected |
| Kanban.BatchSpec | DataStructures.py:553-578 | one deletion per id in order against the store the earlier ones left; Kanban.BatchPartition and Kanban.BatchDistinct state the lists |
| Kanban.BatchRepeatedId | DataStructures.py:553-578 | a deletable id given twice succeeds once and then fails |
| Kanban.BatchSecondFails | DataStructures.py:553-578 | once an id has been deleted, asking for it again fails |
| Kanban.BatchSingle | DataStructures.py:553-578 | a batch of one id is one `delete_task` |
| Kanban.BatchSnoc | DataStructures.py:569-576 | one more id runs one more `delete_task` against the store the earlier ones left |
| Kanban.EditOf | DataStructures.py:466-482 | a write stores exactly the updated fields |
| Kanban.EditSpecLoaded | DataStructures.py:453-466 | an edit is rejected when the task cannot be loaded or the editor is unknown; otherwise the updates on the loaded task decide it |
| Kanban.EditWriteIsMerge | DataStructures.py:440-490 | a write happens exactly when the task loads, the editor exists, everything supplied is accepted and something was supplied; it stores the merged fields stamped with the editor |
| Kanban.EditSpec | DataStructures.py:440-490 | `edit_task` as rejected, no change or a write of the merged fields; Kanban.EditWriteIsMerge states when each happens |
| Kanban.NothingApplied | DataStructures.py:492-523 | with nothing supplied, nothing changes and nothing is reported |
| Kanban.EditNothingSupplied | DataStructures.py:466-471 | an edit with nothing supplied succeeds without a write, and the editor is not recorded |
| Kanban.StatusOnlyApplied | DataStructures.py:500-523 | a valid status alone changes the status and the editor and reports both |
| Kanban.EditStatusOnly | DataStructures.py:440-490 | moving a task writes only the new status and the editor |
| Kanban.EditedRecordsFrame | DataStructures.py:474-482 | an edit keeps the row's id, creation date and creator, and leaves every other row alone |
| Kanban.Parsed | DataStructures.py:601-603 | one construction result per stored row, in order; Kanban.RebuildKeepsGoodRows says which of them survive |
| Kanban.RebuildFailsIff | DataStructures.py:599-615 | the rebuild fails exactly when some row raises something other than ValueError or IndexError |
| Kanban.RebuildSpec | DataStructures.py:597-615 | the rebuilt task list, or failure; Kanban.RebuildKeepsGoodRows and Kanban.RebuildFailsIff state which |
| Kanban.RebuildKeepsGoodRows | DataStructures.py:599-607 | a successful rebuild keeps the tasks of exactly the rows that build one, in row order |
| Kanban.Rebuild | DataStructures.py:599-607 | the loop of `get_all_tasks` over the row outcomes; Kanban.RebuildKeepsGoodRows and Kanban.RebuildFailsIff state its result |
| Kanban.KeptRowsComplete | DataStructures.py:601-607 | every row that builds a task is kept |
| Kanban.KeptRowsBound | DataStructures.py:601-607 | kept positions are positions of rows |
| Kanban.RebuildStep | DataStructures.py:601-607 | a good row is appended, a ValueError or IndexError row is skipped, and any other exception ends the rebuild |
| Kanban.RebuildEscapes | DataStructures.py:613-615 | once a row escapes, the whole rebuild fails |
| Kanban.RebuiltWellFormed | DataStructures.py:601-607 | a rebuild of well-formed tasks lists only well-formed tasks |
| Kanban.RebuildWellFormed | DataStructures.py:601-607 | every rebuilt task is well formed |
| Kanban.RebuildAllBuilt | DataStructures.py:601-607 | when every row builds its task, the rebuild is exactly those tasks |
| Kanban.RebuildWellFormedStore | DataStructures.py:597-611 | rebuilding from the rows of well-formed tasks gives those tasks back, in order |
| Kanban.RebuildPairEscapes | DataStructures.py:599-615 | a good row followed by an escaping row gives no tasks at all |
| Kanban.ParsedPair | DataStructures.py:601-603 | a two-row table builds its rows in order |
| Kanban.OneBadRowHidesAll | DataStructures.py:597-615 | a good row followed by a row with an integer creation date makes get-all fail and return [] |
| Kanban.IntCreationDateEscapes | DataStructures.py:104-105 | an integer creation date raises TypeError, which the row handler does not catch |
| Kanban.KanbanBoard.constructor | DataStructures.py:374-386 | the board starts without a cache and marked dirty |
| Kanban.KanbanBoard.ValidStatuses | DataStructures.py:388-391 | the board's statuses are the enum's values, in order |
| Kanban.KanbanBoard.IsValidStatusOnBoard | DataStructures.py:411 | `_is_valid_status`: on a board whose status list is the enum's, this is exactly the task-level status check |
| Kanban.KanbanBoard.InvalidateCache | DataStructures.py:433 | the cache is marked dirty |
| Kanban.KanbanBoard.AddTask | DataStructures.py:393-438 | returns AddSpec's verdict; on success one row is appended under the next id and the cache is dirty; on failure nothing is stored |
| Kanban.KanbanBoard.SaveNewTask | DataStructures.py:424-434 | appends the task under the next id and marks the cache dirty |
| Kanban.KanbanBoard.ApplyField | DataStructures.py:496-517 | one block moves the task from n applied blocks to n + 1, or ends the update with the error |
| Kanban.KanbanBoard.ApplyFieldBlocks | DataStructures.py:496-508 | the title, status and person blocks, then the rest |
| Kanban.KanbanBoard.ApplyLastFields | DataStructures.py:510-517 | the due date and information blocks |
| Kanban.KanbanBoard.ApplyEditor | DataStructures.py:519-523 | records the editor when anything changed |
| Kanban.KanbanBoard.ApplyTaskUpdates | DataStructures.py:492-523 | the task object ends as ApplyUpdates says, and the method returns its names or its error |
| Kanban.KanbanBoard.EditTask | DataStructures.py:440-490 | returns false exactly when the edit is rejected; writes, and marks the cache dirty, exactly when there is something to write |
| Kanban.KanbanBoard.SaveEdit | DataStructures.py:466-490 | applies the updates to the loaded task and, when something changed, writes it back |
| Kanban.KanbanBoard.DeleteTask | DataStructures.py:525-551 | returns whether the task was deletable; on success its rows are removed and the cache is dirty; otherwise nothing changes |
| Kanban.KanbanBoard.DeleteTasksBatch | DataStructures.py:553-578 | the result and the store are those of BatchSpec; the cache is dirty when anything was deleted; the users, the id counter and the cached list are kept |
| Kanban.KanbanBoard.DeleteForBatch | DataStructures.py:569-576 | one loop iteration: one `delete_task` and its report, with the users, the id counter and the cached list kept |
| Kanban.KanbanBoard.DeleteStep | DataStructures.py:569-576 | one `delete_task` on the current store, its id appended to `successful` or to `failed` by its outcome, as BatchStep says; the users, the id counter and the cached list are kept |
| Kanban.KanbanBoard.GetTask | DataStructures.py:580-589 | a fresh task object exactly when GetTaskSpec finds one, holding its fields |
| Kanban.KanbanBoard.GetAllTasks | DataStructures.py:591-615 | a clean cache is returned as it is; otherwise the rows are rebuilt, and the cache is refilled and marked clean, or [] is returned and the cache left alone |
| Kanban.KanbanBoard.CacheUsable | DataStructures.py:593 | the cache answers when it is not forced, not dirty and present; Kanban.KanbanBoard.GetAllTasks states both paths |
| Kanban.RebuildRows | DataStructures.py:599-607 | the loop over the rows computes RebuildSpec |
| Kanban.NewTasks | DataStructures.py:602-604 | one fresh task object per rebuilt record, in order |
| BoardView.KeyLessIrreflexive | DataStructures.py:651-658 | tuple comparison of sort keys is irreflexive |
| BoardView.KeyLessTransitive | DataStructures.py:651-658 | tuple comparison of sort keys is transitive |
| BoardView.KeyLessTotal | DataStructures.py:651-658 | distinct sort keys are ordered one way or the other |
| BoardView.NotLessTransitive | DataStructures.py:651-658 | "not less" is transitive |
| BoardView.InsertKeeps | DataStructures.py:649-658 | insertion adds exactly one element and keeps a sorted list sorted |
| BoardView.InsertAfterHead | DataStructures.py:649-658 | inserting after a smaller head keeps the list sorted |
| BoardView.InsertAtHead | DataStructures.py:649-658 | an element no greater than the head keeps the list sorted in front of it |
| BoardView.Sort | DataStructures.py:649-658 | the result is a permutation of the input and is sorted |
| BoardView.SortTasks | DataStructures.py:649-658 | `_sort_tasks` returns the same tasks, sorted by the key `sort_by` selects |
| BoardView.WithKeyCons | DataStructures.py:649-658 | the tasks with a key, split at the head |
| BoardView.InsertWithKey | DataStructures.py:649-658 | insertion puts an element after the equal-keyed ones |
| BoardView.SortStable | DataStructures.py:649-658 | the sort is stable: tasks with equal keys keep their order |
| BoardView.SortedMeaning | DataStructures.py:651-658 | sorted means by due date and then title, by lower-cased title, or by due date |
| BoardView.InStatus | DataStructures.py:662-666 | a status group is no longer than the task list and holds only tasks of the list that have that status |
| BoardView.GatheredSnoc | DataStructures.py:664-666 | one more task joins exactly one group, or the unknown-status tasks |
| BoardView.GroupsPartition | DataStructures.py:660-670 | the groups and the unknown-status tasks together are exactly the tasks |
| BoardView.GatheredEmpty | DataStructures.py:662 | no tasks give empty groups |
| BoardView.InStatusSorted | DataStructures.py:664-666 | a group keeps the sorted order and holds only tasks of its status |
| BoardView.GroupByStatus | DataStructures.py:660-666 | one group per valid status, in the tasks' order, plus the tasks of other statuses |
| Notification.SecondsOfDay | Notification.py:50-52 | a timedelta splits into days, seconds below a day and microseconds |
| Notification.ClockOfSeconds | Notification.py:51-52 | seconds of a day split into hours below 24 and minutes below 60 |
| Notification.DeltaParts | Notification.py:49-59 | hours are below 24, minutes below 60, and the delta shown is the real one truncated to the minute |
| Notification.OverdueIffDayPassed | Notification.py:43-48 | a task is overdue exactly when its due day is before today, because the due day counts to its last microsecond |
| Notification.DueMessageCases | Notification.py:47-62 | the first line says "overdue by" for past days and "due in" otherwise, with the distance to the end of the due day |
| Notification.DueMessage | Notification.py:47-62 | the first line of a reminder; Notification.DueMessageCases states its cases |
| Notification.DueTodayOverride | Notification.py:60-61 | for a task due today, less than a day is left, so forcing the day count to 0 changes nothing |
| Notification.DueDay | Notification.py:39-45 | a usable due date is a non-blank string holding a valid date |
| Notification.SelectedIffWithinHorizon | Notification.py:46 | a task is selected exactly when its due day is at most `Due` (14) days after today |
| Notification.Selected | Notification.py:46 | the test that picks a task for the listing; Notification.SelectedIffWithinHorizon states that it means "due within the horizon" |
| Notification.RowOutcome | Notification.py:28-79 | a short row raises IndexError; a row makes a reminder exactly when its due date is usable and within the horizon |
| Notification.Message | Notification.py:66-77 | the reminder text: the due line, then id, title, people, status, dates and details; Notification.RowOutcome says when it is produced |
| Notification.UnusableDueDateSkipped | Notification.py:39-45 | a due date that is not a string, blank, or unparseable skips the row |
| Notification.Outcomes | Notification.py:28 | one outcome per row, in order; Notification.GatherFramesReminders says how they become the listing |
| Notification.Reminders | Notification.py:78 | no more reminders than rows |
| Notification.Framed | Notification.py:78-79 | each reminder is followed by a separator |
| Notification.GatherFramesReminders | Notification.py:28-79 | without short rows, the reminders are listed in row order, each followed by a separator |
| Notification.Gather | Notification.py:28-79 | the loop over the rows' outcomes; Notification.GatherFramesReminders and Notification.GatherFailsIff state what it lists and when it fails |
| Notification.GatherFailsIff | Notification.py:28-37 | the scan fails, with IndexError, exactly when some row is short |
| Notification.UpcomingShape | Notification.py:14-80 | no table gives []; otherwise a separator, then each reminder with its separator; a short row gives IndexError |
| Notification.Upcoming | Notification.py:10-80 | the whole listing or error; Notification.UpcomingShape states its shape |
| Notification.GatherErrSticks | Notification.py:28-37 | once a row fails, the scan fails |
| Notification.GatherStep | Notification.py:28-79 | a short row fails, a skipped row adds nothing, and a reminder adds itself and a separator |
| Notification.UpcomingTask | Notification.py:10-80 | the result is exactly the list, or the error, Upcoming describes |
| Notification.CollectReminders | Notification.py:25-80 | the loop returns a separator followed by what Gather builds from the row outcomes, or Gather's IndexError |
| Cli.ParseIntOfString | CLI.py:64 | `int(str(i))` gives back i |
| Cli.ParseIntOfNat | CLI.py:64 | `int()` reads back a natural number's rendering |
| Cli.ParseIntOfNegative | CLI.py:64 | `int()` reads back a negative number's rendering |
| Cli.ParseInt | CLI.py:64 | `int()` on a stripped string: an optional sign and ASCII digits; Cli.ParseIntOfString states that it reads back every integer's rendering |
| Cli.StatusCodeMatchesEnum | CLI.py:64-75 | the menu's status codes agree with `TaskStatus.from_number`, and every status accepted is valid |
| Cli.StatusFromCode | CLI.py:65-75 | a status name exactly for the codes 1-4; Cli.StatusCodeMatchesEnum ties it to `TaskStatus.from_number` |
| Cli.DueDateShapeIsFullDate | CLI.py:82-86 | the shape check accepts exactly the RFC 3339 full-date shape, with ASCII digits |
| Cli.DueDateShapeOk | CLI.py:82-86 | three `-`-separated parts of 4, 2 and 2 ASCII digits; Cli.DueDateShapeIsFullDate states the shape it accepts |
| Cli.ShapeCheckAcceptsImpossibleDate | CLI.py:82-86 | the shape check accepts "2024-13-45", which `strptime` rejects |
| Cli.ShapeOfImpossibleDate | CLI.py:82-86 | "2024-13-45" has the full-date shape |
| Cli.NoMonthThirteen | DataStructures.py:186-192 | `strptime` rejects "2024-13-45" |
| Cli.SkipIfBlank | CLI.py:139 | a blank answer means "skip"; otherwise the stripped answer is used |
| Cli.StatusAnswer | CLI.py:63-78 | a status answer is accepted exactly for codes 1-4, and names a valid status; a non-number and an unknown code are rejected differently |
| Cli.StatusEdit | CLI.py:109-159 | a blank status answer means "skip"; otherwise it is read as on add |
| Cli.DueDateEdit | CLI.py:161-173 | a due date answer is accepted exactly when blank or full-date shaped; blank means "skip" |
| Cli.AddForm | CLI.py:59-96 | the add form is accepted exactly when the title is non-blank, the status code valid, the due date blank or full-date shaped and the creator non-blank; then it passes the stripped answers on |
| Cli.EditAnswers | CLI.py:135-177 | the edit answers are accepted exactly when the editor is non-blank and the status and due date answers pass; then blank answers mean "skip" |
| Cli.EditForm | CLI.py:134-177 | a non-number task id raises ValueError; otherwise the form is judged by its answers and addresses the displayed id itself (the corrected id, see ## Findings) |
| Cli.MoveForm | CLI.py:98-129 | a non-number id is rejected; otherwise the request is accepted exactly when the editor is not blank and the status answer is accepted, and then it changes only the status, for the displayed id itself (the corrected id, see ## Findings) |
| Cli.MoveIsStatusOnlyEdit | CLI.py:98-129 | moving a task is an edit that supplies only a status; it differs only in how a non-number id is handled |
| Cli.DeleteForm | CLI.py:179-189 | a non-number id is rejected; otherwise the task with the displayed id itself (the corrected id, see ## Findings) is deleted exactly when the answer is y or Y |
| Cli.LowerIsY | CLI.py:186-187 | the lowered answer is "y" exactly for "y" and "Y" |
| Cli.DisplayedIdOffByOne | CLI.py:101 | as written (here and at lines 134, 182 and 194), displayed id 1 addresses no task and displayed id 2 addresses task 1 |
| Cli.DisplayedIdFindsTask | DataStructures.py:254 | using the displayed id as it is addresses the task shown |
| Cli.Numbers | CLI.py:231 | one `int()` result per answer; Cli.ActivationAnswer says which answer is taken |
| Cli.FirstFinal | CLI.py:230-234 | finds the first answer that ends the loop: a non-number, 0 or 1 |
| Cli.FirstFinalAt | CLI.py:230-234 | the first final answer is determined by the answers before it |
| Cli.ActivationAnswer | CLI.py:230-235 | an activation status that gets through is 0 or 1 |
| Cli.ReadActivation | CLI.py:230-235 | the prompt loop returns ActivationAnswer and reads the answers up to the final one |
| Cli.Prompt | CLI.py:230-234 | the loop returns the first 0 or 1, raises ValueError on a non-number and EOFError when the answers run out |

## Left out

- Console input and output: the menu loops, `print`, `display_task`, `display_board`, `_display_flat_list` and `PrintNotification` only talk to the terminal.
- Database.py, Login.py, Kanban.py and License.py: SQLite access, login and registration menus, the entry point, and license-file reading. These are I/O with no rules beyond what the store model states.
- `KanbanInfoDatabase` is not part of this model. Its six calls are modelled by `KanbanDb.Database`, which follows the `AUTOINCREMENT` schema of the KANBAN table; its SQL and error reporting are left out.
- `kdb.GetUserByPhone` and `_get_user_display` / `_get_user_name`: foreign lookups, so the user-name function is a parameter (`nameOf`).
- The "assignee" sort of `_sort_tasks`: it depends on those foreign user names.
- `format_date`: it refers to an undefined `date_str` (DataStructures.py:213).
- `datetime.now()`, `datetime.fromisoformat` and time zones: the clock is a parameter, and the creation date is an opaque string.
- Tasks.InitCreationDate: keeps any string unchanged. `fromisoformat` would raise ValueError on a malformed string, and this model does not capture that.
- The source is cut off at DataStructures.py:670. The tail of the grouping, `_is_valid_status` and `_invalidate_cache` are missing; they are modelled as membership in `valid_statuses` and as setting the dirty flag.
- `datetime` objects as creation dates, booleans and floats as cell values: cells are None, integers or strings.
- `int()` on strings with `_` separators, and every digit test on non-ASCII digits: Cli.ParseInt, Cli.DueDateShapeOk, Calendar.ParseDate and Calendar.MatchDay accept ASCII digits only. Python's `int()` and `str.isdigit()` (CLI.py:84-86, 167-169) and the `\d` of `strptime` also accept other Unicode decimal digits, such as a full-width `２０２４-01-05`; the model rejects those.
- Text.Lower: lowers only ASCII A-Z, whereas Python's `str.lower()` lowers every cased character. BoardView.SortTasks and BoardView.SortedMeaning therefore order titles with non-ASCII capitals, such as "Éb" against "éa", by the unlowered letters.
- Cli.EditForm, Cli.MoveForm, Cli.DeleteForm: use the corrected id (the typed number itself); CLI.py:101, 134 and 182 pass n - 1 (see ## Findings).
- CLI.py calls `board.DisplayBoard`, `AddTask`, `EditTask` and `DelTask`, which `KanbanBoard` does not define, and `board.tasks` (menu choice 6). The model takes the form validators up to those calls and stops there.
- The CLI passes names as strings to a board that checks for integer user ids. `Cli.AddForm` and `Cli.EditAnswers` return the strings as read.
- The phone-number prompt (CLI.py:227) and `Database.ChangeActivationStatus` (CLI.py:235) happen outside the validators.
- Cli.AddForm: a blank due date gives None. In the source the variable `DueDate` is then unassigned, which raises NameError on the first task or reuses a stale value from earlier.
- BoardView.SortTasks: requires string due dates unless sorting by title, since Python raises TypeError when comparing None with a string; it also excludes "assignee". This is stricter than Python: `(due_date, title)` keys with two None due dates compare without error (the tuple moves on to the title), and lists of zero or one task are never compared at all.
- Concurrency and the store failing mid-call (`sqlite3` errors) are not modelled.
- The test scripts (systemtest.py, pytest.py, unittestsDataStructures.py) partly target another version of the API. They were read as corroboration only.

## Findings

| source | as written | input that shows it | evidently intended | confidence | as-written member | corrected member |
|---|---|---|---|---|---|---|
| CLI.py:101, 134, 182, 194 | the task id typed in is reduced by one before it reaches the board | tasks stored with ids 1 and 2; typing the displayed id 1 addresses id 0, which does not exist, and typing 2 addresses task 1 | the board lists each task under its store id (DataStructures.py:254), and store ids start at 1, so the typed id should be passed unchanged | medium, not executed | Cli.DisplayedIdOffByOne | Cli.DisplayedIdFindsTask |
