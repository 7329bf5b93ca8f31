# Gosidian, modelled and proved

A Dafny model of the parts of gosidian, a server of Markdown notes for people and
agents, whose correctness rests on more than one function at a time, with proofs of
what they promise. `dafny verify dfyconfig.toml` checks everything.

What is modelled, and the main results:

- **Who a commit is credited to** (`GitWrites`, `GitGroups`, `GitEffects`, `GitSync`,
  `GitProtocol`, `GitOrder`, `GitKept`, `GitCredit`, `GitMiscredit`). What a write names
  is exactly what it may change of the files. Writers lock a path, write, record
  the write and unlock, while a committer takes a snapshot of the records, lets git read
  the tree, asks the locks, reads the records made since, and decides what it takes.
  These are atomic steps that interleave freely, with editors outside writing at any
  time. Whatever is taken is of the snapshot; no attribution is lost; and it is said
  exactly when the credit goes to the writer of the bytes, for renames too.
- **Automations** (`Schedules`, `Automation`, `AutomationRuns`, `AutomationSettle`,
  `AutomationDisjoint`, `AutomationRows`, `AutomationDays`, `AutomationPlan`,
  `AutomationTold`, `AutomationEngine`). Over any run of ticks, prunes and jobs settled
  from anywhere, no slot is acted on twice with success, nor a row for its day, unless it
  is found gone long after; a row of another day is acted on again. Settling is the same
  in any order and number. The dry run is what a tick does, and its next moment is when
  that changes. A failure is told once.
- **The authors of notes** (`Authors`, `AuthorIndex`, `AuthorTrace`). The index kept
  event by event, from any rows its query may return, is the replay of the whole log,
  and names of each note who created it and who changed it last.
- **Frontmatter** (`Frontmatter`, `FrontmatterEdit`, `FrontmatterSet`,
  `FrontmatterSpans`, `FrontmatterLoop`, `FrontmatterMethod`, `FrontmatterLines`,
  `FrontmatterPlaces`, `FrontmatterNote`, `FrontmatterRefused`). Setting and removing
  keys keeps every other line, is read back, and changes nothing the second time; the
  loops over lines give exactly the edit said on entries; and it is said on lines which
  of them an edit may lose and exactly when it is refused.
- **Boards and tasks** (`Fleet`, `Board`, `BoardNext`, `Chains`, `Tasks`, `Sections`,
  `SectionsRead`, `SectionsLines`). A card placed is where it was asked; ranks stay apart; a board of
  ready cards never gets stuck; a task has one holder; a report appended is the one
  read.
- **Canvases** (`Canvas`, `CanvasPrint`): groups are a forest, every card is listed once.
- **Rows of databases** (`DbSchema`, `DbEdit`, `DbFits`): checking an edit by its own keys is
  checking the row it leaves.
- **Gantt chains** (`Gantt`), **the list of notes restored** (`TrashList`), and **token
  scopes** (`Tokens`, `TokenNarrow`, `TokenFolders`).

Functions say what an operation does; a method with the source's loops is proved to
give that function; lemmas prove what the source promises of it. State the source
changes in place is a class with the same fields (`GitSync.Sync`,
`AutomationEngine.Engine`, `AuthorIndex.Index`, `Tokens.Store`). Ranks, coordinates and
areas are reals, times are whole nanoseconds or seconds in a zone of fixed offset, SQL
tables and Go maps are maps; where Go reads a map in any order, the proofs hold for
every order.

Where code and comments disagree, the code is modelled:

- A rename of a project in the authors table depends on the order of the map not only
  when the new name is under the old one but also when the old is under the new
  (`Authors.OrderMattersIff`). Callers never give such names: sanitizeProjectName
  (internal/vault/vault.go) refuses a slash.
- The Gantt check says that a task waits for itself also of one that only leads to a
  circle (`Gantt.LeadingIsReported`).
- The moves of tasks are described as the server's and the people's, but a person's
  move of a card is not checked against them, and a run that ends while its task is in
  review goes to a state they do not list (`Tasks.OnlyMoves`).
- A file is meant to be credited to the writer of its bytes; two writes that cover a
  file, share no lock and are at work at once, or a rename git reads from a write at the
  new path and a later one at the old, break it (`GitMiscredit.OverlapMiscredits`,
  `GitMiscredit.RenameCreditsTheDelete`).
- A restored note whose name holds a comma and then a path under the place restored
  is read as two notes (`TrashList.ReadsBackIff`).
- A second narrowing of a token forgets the filter of the first
  (`TokenNarrow.NarrowWritesPath`). No caller narrows twice: tokens come from a store,
  without a filter (internal/mcp/server.go, internal/api/v1/vaultfiles.go).
- Checking an edit of a row shows a number as fmt.Sprint does, 1e+06, where the row is
  written, and read back, as 1000000 (`DbEdit.NumberReadOtherwise`); and a required field
  declared after another of its name is not asked for when the name is removed
  (`DbEdit.HiddenRequiredIsMissed`).

## Model

| member | source | states |
|---|---|---|
| `GitWrites.LastNamingIs` | internal/gitsync/writes.go:288-299 | the write a file goes to is the last one that names it: it names the file, no later one does, and there is none exactly when no write names it |
| `GitWrites.FilterNumbered` | internal/gitsync/writes.go:58-80 | dropping or picking writes by any test keeps their numbers growing from 1, which the order of the commits and forgetWrites rest on |
| `GitWrites.TakenAndLeftPartition` | internal/gitsync/writes.go:180-201 | leaveOut loses no staged change and takes none twice, whatever the locks answer and whatever was recorded since |
| `GitWrites.GroupHasWrite` | internal/gitsync/writes.go:300-319 | the group of a writer and a project holds the last write naming each of its files, so it has a first write to be ordered by |
| `GitWrites.BeforeTotal` | internal/gitsync/writes.go:320-322 | two groups of different writers or projects are in order one way and only one, ties on the first write broken by project |
| `GitWrites.MapKeyInjective` | internal/gitsync/writes.go:300-305 | two writers and projects never share a key of the map of groups, as no project name holds a NUL |
| `GitWrites.CollectFiles` | internal/gitsync/writes.go:286-307 | the loop over the changes gives each group exactly the files whose last write is its writer's, in their order, and the rest those no write names |
| `GitWrites.GroupByWriter` | internal/gitsync/writes.go:285-327 | the three loops and the sort give the groups of the staged changes: one a writer and project, with its files and the writes naming them, by first write; the files no write names last |
| `GitGroups.GroupingPartitions` | internal/gitsync/writes.go:279-327 | conservation: the commits together take every staged change, as often as it was staged |
| `GitGroups.GroupIsLastWriters` | internal/gitsync/writes.go:279-327 | a file is in the group of the last write naming it, which the group tells, and every path of a group is under its project, a folder at the root, or its project is none and its paths are of no folder; a file in the last, nameless group is named by no write |
| `GitGroups.GroupingUnique` | internal/gitsync/writes.go:309-326 | the order in which Go reads the map changes nothing: the groups of the same changes and writes are one list |
| `GitEffects.CoversIsEffect` | internal/gitsync/writes.go:214-226 | with what each action does to the files said on its own, as trees before and after: a write names a path exactly when it may change what is there (a delete what is at its path or under it, a rename both ends, a rename or delete of a project all under its names, a restore from the trash what is at the path or under it), or the path is under the trash entry of a project deleted |
| `GitEffects.CommittedAsMade` | internal/gitsync/writes.go:279-327 | so a change is committed in the name of the last write that may have made it, with the files of its project, and in nobody's exactly when none may |
| `GitEffects.ChangedHasWriter` | internal/gitsync/writes.go:279-327 | whatever the recorded writes, one after the other, change of the files is committed in the name of a writer |
| `GitEffects.TakenAndKeptByEffect` | internal/gitsync/writes.go:70-80 | a commit takes exactly the free changes no write recorded since may have made, and what is forgotten are the writes of the snapshot that may have made nothing left out |
| `GitEffects.TellsItsWrites` | internal/gitsync/writes.go:308-319 | the writes a commit tells are exactly those of its author that may have made one of its files, in the order they were recorded |
| `GitEffects.CommitsInOrder` | internal/gitsync/writes.go:320-327 | the commits come in the order of the first write each tells, those of one write by project in the order of text, and the files nobody wrote last |
| `GitSync.Sync.RecordWrite` | internal/gitsync/writes.go:39-48 | a write is added under the next number when git sync is on, and nothing changes when it is off |
| `GitSync.Sync.PendingWrites` | internal/gitsync/writes.go:51-55 | the snapshot of a commit: the writes so far and the last number given |
| `GitSync.Sync.ForgetWrites` | internal/gitsync/writes.go:74-80 | exactly the writes up to the snapshot that name no file left out go; the others stay in order |
| `GitSync.Sync.LeaveOut` | internal/gitsync/writes.go:180-201 | what the commit takes is free and named by no later write, what it leaves is the others, and the two are a partition of the staged changes |
| `GitProtocol.CoveredIsLocked` | internal/gitsync/writes.go:214-226 | whatever file a write names, one of the paths its writer locks is that file or a folder above it |
| `GitProtocol.LockedIsCovered` | internal/vault/locks.go:9-49 | and a writer locks no more: each of its locks is at, or is a folder above, a file the write names |
| `GitProtocol.FreeIsDone` | internal/vault/locks.go:56-69 | a lock found free shows that the writer of the bytes git read there before is done: its record was made |
| `GitProtocol.TakenIsFromSnapshot` | internal/gitsync/writes.go:173-201 | from any state of the invariant, what leaveOut takes is bytes of a write the snapshot holds: this step uses the locks asked first and the records read after |
| `GitProtocol.StepKeeps` | internal/gitsync/sync.go:832-931 | every atomic step of a writer, of an editor outside or of the committer keeps the invariant on the records, the files, what git read, the answers of the locks and what a commit takes |
| `GitProtocol.RunKeeps` | internal/gitsync/sync.go:832-931 | so does any interleaving of such steps |
| `GitProtocol.InitKeeps` | internal/gitsync/sync.go:832-840 | the invariant holds before the first write |
| `GitProtocol.WriteBytesKeeps` | internal/attach/attach.go:241-246 | a writer writing bytes under its lock keeps the invariant: no lock found free before is of a writer still to write there |
| `GitProtocol.RecordKeeps` | internal/audit/audit.go:212-233 | recording a write once its bytes are on disk keeps the invariant: the record is in the list and past the snapshot of a commit on its way |
| `GitProtocol.UnlockKeeps` | internal/attach/attach.go:248-254 | unlocking after the record keeps the invariant, so a free lock means a recorded write |
| `GitCredit.TakenIsOfTheSnapshot` | internal/gitsync/writes.go:173-201 | safety over whole runs: whatever a commit takes, at either end of a change, is bytes of an editor outside or of a write recorded in the snapshot |
| `GitKept.RunKeepsKept` | internal/gitsync/writes.go:58-80 | over any run, every record that covers a file not committed yet, and is not before the record of the bytes it holds, is in the list |
| `GitKept.LastRecordIsKept` | internal/gitsync/writes.go:58-80 | so the last record that covers a file, the write it will be credited to, is not forgotten before the file is committed |
| `GitCredit.NoAttributionIsLost` | internal/gitsync/writes.go:70-80 | safety over whole runs: at any moment the write whose bytes a file not committed yet holds is among the kept writes, with every write that covers the file recorded since, or its writer still holds the lock |
| `GitOrder.SharedLocksKeepApart` | internal/vault/locks.go:9-49 | if every two writes that cover a same file take a same lock, no two writers of a file are ever at work at once |
| `GitOrder.RunKeepsOrder` | internal/gitsync/writes.go:39-48 | in any run in which no two writers of a same file are at work at once, the bytes of each file, on disk and as git read them, are of the last record among those that wrote it |
| `GitCredit.CreditIsTheWriters` | internal/gitsync/writes.go:279-305 | in such a run, a change about to be committed is credited to the writer of exactly the bytes git read at an end of it if and only if those bytes are a writer's and the last write naming the change ever wrote that end; a change whose ends are all of writers to the writer of one of them if and only if that last write wrote one |
| `GitCredit.CreditedWhenNoneLater` | internal/gitsync/writes.go:288-299 | in any run at all, a change is credited to the writer of the bytes at its new path if and only if no later write of the snapshot covers that path nor, for a rename, the old one |
| `GitCredit.LaterNeverWrote` | internal/gitsync/writes.go:39-48 | with writers of a file apart, such a later write never wrote the end it covers |
| `GitCredit.RenameIsTheLaterEnd` | internal/gitsync/writes.go:228-231 | a rename whose ends are of writers, one of them the last write naming it, is credited to the writer of the new path's bytes if and only if the old path was not written after, by the order of the records |
| `GitMiscredit.OverlapMiscredits` | internal/gitsync/writes.go:214-226 | the boundary: any two writes that cover a file and share no lock can be at work at once, in a run that credits the bytes of one to the other |
| `GitMiscredit.RenameCreditsTheDelete` | internal/gitsync/writes.go:228-231 | a run without any overlap, for any two writes covering a new and an old path: the file made by one and the removal by another, read as a rename, go to the second, who wrote nothing of the new file |
| `Schedules.LastSlotIsLast` | internal/automation/schedule.go:82-103 | the slot found is the greatest at or before now, and less than a week ago |
| `Schedules.Last` | internal/automation/schedule.go:82-103 | the bounded loop, a day back at a time, finds it within its eight steps, for hourly, daily and weekly schedules |
| `Schedules.NextSlotIsNext` | internal/automation/schedule.go:106-119 | the slot found is the least after now |
| `Schedules.Next` | internal/automation/schedule.go:106-119 | the bounded loop, a day on at a time, finds it within its nine steps |
| `Schedules.SlotsMeet` | internal/automation/schedule.go:82-119 | no slot lies between the last and the next, and both stay the same for every moment between them |
| `Schedules.SlotIsTime` | internal/automation/schedule.go:82-119 | a slot of a schedule is a moment whose minute is the schedule's and, unless it is hourly, whose hour and weekday are, days counted from a Thursday |
| `AutomationPlan.PlanSlot` | internal/automation/engine.go:434-459 | the dry run of an every rule, with its loop over what is queued: the slot it fires or none, and the next one; it changes nothing |
| `AutomationPlan.PlanRows` | internal/automation/engine.go:434-498 | the dry run of a rule on rows, with its loops: the rows it hands off, those handed off already, those to come by day and at most 20, the next day, the error and the warning; it changes nothing |
| `AutomationPlan.PlanIsFireEvery` | internal/automation/engine.go:434-459 | a tick at the moment planned, now or later, acts on exactly the slot the dry run names and on none when it names none, whether its action works, is queued or fails; until the next slot named the dry run stays the same, and then that slot is the last |
| `AutomationPlan.PlanIsFireDue` | internal/automation/engine.go:460-476 | a tick at the moment planned acts on exactly the rows the dry run lists, whether its action works, is queued or fails, with the same warning, and tells the same error when the rows cannot be read, though the tick forgets old firings first and the plan does not |
| `AutomationPlan.PlanPartition` | internal/automation/engine.go:460-489 | the rows to hand off, those handed off and those to come are the rows with a date, each once |
| `AutomationPlan.ComingIs` | internal/automation/engine.go:477-490 | the rows to come are listed by day, and each comes in exactly from the day given |
| `AutomationPlan.ListIs` | internal/automation/engine.go:460-498 | of those the first are listed, twenty at most; the error is the rule's, or why its rows could not be read |
| `AutomationPlan.NextIsWhenRowsComeIn` | internal/automation/engine.go:490-496 | at a later moment the rows that come in are the same if and only if it is before the next day named, whatever the limit of the list leaves out |
| `AutomationRuns.FreeSlotIsNew` | internal/automation/engine.go:143-156 | in any state of the invariant, a slot the engine finds free was never acted on with success and no job at work holds it, though firings and whole rules are pruned |
| `AutomationRuns.EventKeeps` | internal/automation/runner.go:145-225 | every tick, prune, end of a job, settling, loss of an old job and freeing keeps the invariant |
| `AutomationRuns.RunKeeps` | internal/automation/engine.go:103-133 | so does any run of them with a clock that does not go back |
| `AutomationRuns.EachSlotOnce` | internal/automation/engine.go:143-186 | over any run, acting at once or through jobs settled from anywhere, no slot of an every rule is acted on twice with success |
| `AutomationRows.EventKeepsRow` | internal/automation/store.go:138-168 | an event other than a reading that finds the row gone long after its firing, or a prune of a rule long away, keeps the rule's memory of a row: once acted on it is fired or waits for the job that did it, and no other job holds it |
| `AutomationRows.EachRowOnce` | internal/automation/engine.go:187-233 | over any run in which the rule is not away for long, a row is acted on with success at most once for its date, though it leaves the rule's rows and comes back, as long as no reading under the cap finds it gone more than 400 days after its firing |
| `AutomationRows.GoneRowFiresAgain` | internal/automation/store.go:157-168 | that condition is exact: a row fired is acted on again when it comes back if and only if a reading under the cap found it gone more than 400 days after its firing |
| `AutomationDays.KeyIsDay` | internal/automation/engine.go:317-323 | two rows have one key exactly when they are of one path and the first ten characters of their dates are the same |
| `AutomationDays.NewDayIsHandedOff` | internal/automation/engine.go:187-233 | over any run, said on rows and dates: a row that comes in with a date whose first ten characters differ from those of every row of its path handed off or queued before is acted on by the tick, when the action works |
| `AutomationDays.EachDayOnce` | internal/automation/engine.go:187-233 | in any run whose rule is not away for long and which forgets no firing of that day, a row is acted on with success at most once for a day, under whatever dates that start with it |
| `AutomationTold.BeatIs` | internal/automation/engine.go:143-156 | a tick, or the end of a job, that fails leaves its message as the rule's error, told exactly when another stood; one that succeeds, or has no row to hand off, clears it; any other leaves it |
| `AutomationTold.ToldOnce` | internal/automation/engine.go:147-156 | over any run of ticks and ends of jobs: a failure is not told again while the rule neither succeeds nor fails otherwise, and another failure is |
| `AutomationTold.ToldAfterSuccess` | internal/automation/engine.go:147-156 | after a success, or at the start of a rule, the next failure is told |
| `AutomationTold.DueIs` | internal/automation/engine.go:187-213 | a tick has rows to hand off exactly when some of the first ten thousand has a date that came in and no key fired or queued |
| `AutomationSettle.SettleAllIs` | internal/automation/runner.go:145-190 | settling jobs one by one, repeats included, leaves what settling them at once by a closed rule leaves |
| `AutomationSettle.AnyOrderSettlesTheSame` | internal/automation/runner.go:131-225 | so Ended, Await and reconcile reach the same waiting and fired keys in any order and number |
| `AutomationSettle.SettledKeysFireOrFree` | internal/automation/runner.go:145-190 | a key stops waiting only as fired at the time its own job ended well, or free to fire again; waiting and fired stay disjoint and nothing else changes |
| `AutomationSettle.TickKeepsDisjoint` | internal/automation/engine.go:143-235 | a tick never marks as waiting what is fired, nor as fired what waits |
| `AutomationSettle.PruneKeepsDisjoint` | internal/automation/store.go:143-155 | nor does pruning |
| `AutomationDisjoint.EventKeepsDisjoint` | internal/automation/runner.go:145-225 | nor does any event: settling, freeing what waits for a lost job, and ticks and prunes |
| `AutomationDisjoint.RunKeepsDisjoint` | internal/automation/engine.go:103-133 | so over any run no key of any rule waits for a job and is fired at once |
| `AutomationSettle.LostJobFiresAgain` | internal/automation/runner.go:196-225 | the boundary of once: a job done that the runner drops before it is settled is taken as never done, and its slot is acted on again |
| `AutomationEngine.Engine.LogRun` | internal/automation/store.go:131-136 | the new entry is the last; before it are the last entries there were, all of them below the cap of 200 |
| `AutomationEngine.Engine.Prune` | internal/automation/store.go:143-155 | the loops over the two maps drop exactly the rules unseen for long and the slots fired long ago; row keys stay |
| `AutomationEngine.ForgetRows` | internal/automation/store.go:158-168 | the loop drops exactly the old firings of rows that are gone |
| `AutomationEngine.Engine.FireSlot` | internal/automation/engine.go:143-186 | fire on an every rule in place: the rule is seen, then the slot acted on unless it is before the rule, fired or queued |
| `AutomationEngine.Engine.FireRows` | internal/automation/engine.go:187-235 | fire on rows in place: the rows that come in and are not fired or queued for their date, all marked by one action |
| `AutomationEngine.RunAction` | internal/automation/runner.go:50-68 | acting at once marks every key fired; queueing marks every key with the job; a failure marks none and is told once |
| `AutomationEngine.Engine.Settle` | internal/automation/runner.go:145-190 | settle in place: the keys waiting for the job are freed or fired, and one log line tells it, unless nothing changed or the same error was told |
| `AutomationEngine.Engine.Reconcile` | internal/automation/runner.go:196-225 | looking the waiting jobs up in any order frees exactly the keys whose job is gone, fires those whose job ended well, frees those whose job failed, and leaves the rest |
| `Authors.RenameInAnyOrder` | internal/index/authors.go:100-113 | for two names neither a folder of the other, the loop that renames a project gives one table in whatever order Go reads the map, entries added meanwhile visited or not |
| `Authors.RenamedIs` | internal/index/authors.go:100-113 | the table renamed has, at each path, the row that moved there, else the row that stayed |
| `Authors.OrderMattersIff` | internal/index/authors.go:100-113 | the order of the map can change the result exactly when one of the two names is a folder of the other (not only the new under the old) |
| `Authors.TwiceMoved` | internal/index/authors.go:100-113 | a row that lands inside the old name again may be moved twice, by which some two orders differ |
| `Authors.DeleteUnder` | internal/index/authors.go:89-99 | the loop that deletes the rows under a folder deletes those and no other |
| `Authors.ApplyInPlace` | internal/index/authors.go:76-123 | apply, with its loops over the map, is the event applied at once |
| `AuthorTrace.TableIsTrace` | internal/index/authors.go:69-123 | the table of any log names of every note who created it, the author and time of the last create of it, followed through the renames of notes and projects since its row was made, or nobody; and who changed it last, by a create, update, append, restore or rename |
| `AuthorIndex.ApplyOnLoaded` | internal/index/authors.go:161-200 | an event applied to the rows loaded, or to any superset, gives every touched path the row it has in the whole table, and leaves the other paths alone |
| `AuthorIndex.RecordedIsApplied` | internal/index/authors.go:161-239 | loading some rows, applying, deleting what was loaded and inserting what is left gives the table of the event applied to it |
| `AuthorIndex.RecordAllIsReplay` | internal/index/authors.go:128-239 | so recording a log event by event, each on any rows its query may return, gives the replay of the whole log |
| `AuthorIndex.NoConflict` | internal/index/authors.go:200-230 | no row is inserted over one that was not deleted before |
| `AuthorIndex.Index.Sync` | internal/index/authors.go:258-283 | the audit fields of one note, or of every note, are those its author row gives, a field of the note's own kept |
| `AuthorIndex.Index.RebuildAuthors` | internal/index/authors.go:128-153 | rebuilding leaves the table of the whole log and every note's fields in agreement with it |
| `AuthorIndex.Index.RecordAuthor` | internal/index/authors.go:161-239 | recording one event leaves the table of the log with that event, and every note's fields in agreement, though only the touched notes are synced |
| `AuthorTrace.FieldsTell` | internal/index/authors.go:254-283 | after any log, the four audit fields of a note show who created it and when, and who changed it last and when, but for those empty and those the note has of its own |
| `Frontmatter.ParseGood` | internal/frontmatter/frontmatter.go:218-251 | reading loses no line: the entries read, written out, are the lines, and each is well formed |
| `Frontmatter.ParseLines` | internal/frontmatter/frontmatter.go:218-251 | round trip: well-formed entries written out are read back as they are |
| `FrontmatterSpans.ParseEntries` | internal/frontmatter/frontmatter.go:229-251 | the loop with cur and last gives the key, the first and last line, the value and the orphans of every entry |
| `FrontmatterEdit.EditKeepsTheRest` | internal/frontmatter/frontmatter.go:135-199 | after an edit every line that is of no key named stays, in order, lines after a removed key too, and every other entry is read as before |
| `FrontmatterEdit.EditIsReadBack` | internal/frontmatter/frontmatter.go:135-199 | each key set has exactly one entry, its line, wherever it was put; a key removed has none |
| `FrontmatterEdit.EditIsDone` | internal/frontmatter/frontmatter.go:135-199 | after an edit all its keys are as it leaves them at once |
| `FrontmatterEdit.DoneAgain` | internal/frontmatter/frontmatter.go:135-199 | an edit already done is possible and changes nothing |
| `FrontmatterSet.NoFieldError` | internal/frontmatter/frontmatter.go:77-99 | the fields SetKeys goes on with are of distinct keys, each with its line |
| `FrontmatterSet.SetKeysKeepsTheRest` | internal/frontmatter/frontmatter.go:67-216 | on the whole note: the opening mark, the closing mark and the body stay, no line between them is taken for a mark, and the lines and entries of other keys stay as they were |
| `FrontmatterSet.SetKeysReadsBack` | internal/frontmatter/frontmatter.go:67-216 | on the whole note, read again: each key set once with its encoded line, no key removed |
| `FrontmatterSet.SetKeysAgain` | internal/frontmatter/frontmatter.go:74-216 | the same edit of a note with frontmatter, again, succeeds and changes nothing |
| `FrontmatterSet.NewBlockAgain` | internal/frontmatter/frontmatter.go:103-119 | a note without frontmatter gets one read as the keys set, the note after it; the same edit again changes nothing exactly when the new block is valid YAML or no list item holds a comma |
| `FrontmatterNote.EditOnLines` | internal/frontmatter/frontmatter.go:67-216 | on the lines of the whole note: an edit done loses of the block only the key lines of the keys named, what continued those removed, and, of those set, lines that read, trimmed, as a dash and a plain scalar; every other line stays, in order, each key set has its one line, and no key removed has any |
| `FrontmatterNote.RefusedOnLines` | internal/frontmatter/frontmatter.go:144-180 | it is refused as too complex exactly when a key named appears twice, or a key set has lines other than those of plain scalars, a flow, anchor or block value, or lines that hang after it, or a key removed has an anchor or lines that hang after it; and for such a key |
| `FrontmatterNote.NewKeysGoLast` | internal/frontmatter/frontmatter.go:140-164 | a key set that was there keeps its place among the keys; a new one goes last, in the order asked, or just before tags when that is the last key |
| `FrontmatterRefused.DoneIff` | internal/frontmatter/frontmatter.go:67-216 | an edit is done exactly when every field is of a valid key, encoded and set once, every key to remove is valid and not set, and, where the note starts with a mark, another mark ends the block, no key is too complex, and the lines left are valid YAML, or were not before either and no list set holds an item with a comma |
| `FrontmatterRefused.FieldErrorIs` | internal/frontmatter/frontmatter.go:77-91 | otherwise the first field that is wrong is told, with what is wrong of it |
| `FrontmatterRefused.UnsetErrorIs` | internal/frontmatter/frontmatter.go:92-99 | or the first key to remove that is no key or is set too |
| `FrontmatterRefused.ValidKeyIs` | internal/frontmatter/frontmatter.go:57 | a key is of letters, digits, underscores and hyphens, and starts with neither a digit nor a hyphen |
| `FrontmatterRefused.MarksIs` | internal/frontmatter/frontmatter.go:103-136 | a mark is three dashes and nothing after but carriage returns |
| `FrontmatterRefused.EolIs` | internal/frontmatter/frontmatter.go:107-110 | a new block ends its lines in a carriage return and a newline exactly when the text has these two somewhere |
| `FrontmatterLoop.MarkSet` | internal/frontmatter/frontmatter.go:147-164 | replacing a key's line and dropping what continues it marks that entry and no other |
| `FrontmatterLoop.WrittenIsReplaced` | internal/frontmatter/frontmatter.go:182-199 | the lines kept, replaced and dropped, in order, are the entries edited |
| `FrontmatterLoop.EmittedIsEdited` | internal/frontmatter/frontmatter.go:140-199 | with the new entries written at the insertion point, they are the lines of the edit |
| `FrontmatterMethod.MarkWrites` | internal/frontmatter/frontmatter.go:144-164 | the loop over the keys set fails on the first too complex, else marks exactly the lines to replace and to drop and lists the lines to add |
| `FrontmatterMethod.MarkRemoved` | internal/frontmatter/frontmatter.go:165-180 | the loop over the keys removed fails on the first that cannot go, else marks their lines too |
| `FrontmatterMethod.WriteLines` | internal/frontmatter/frontmatter.go:182-199 | the last loop writes the opening mark, the marked lines with those added at the insertion point, and the rest of the note |
| `FrontmatterMethod.WriteEdited` | internal/frontmatter/frontmatter.go:182-215 | what is written is the edit, refused when it breaks the YAML or splits a list item |
| `FrontmatterMethod.SetLines` | internal/frontmatter/frontmatter.go:74-216 | SetKeys with all its checks, marks and loops gives the result, or the error, of the edit said on entries |
| `Fleet.TargetAgrees` | internal/fleet/board.go:274-298 | a card goes to a column of the board, or to none when closed: the column named, the first of that name; else its own when that has the state asked, else the first column of the state |
| `Fleet.TargetRefuses` | internal/fleet/board.go:274-298 | a move is refused exactly when the column named is not there or has another state, or an open state has no column |
| `Fleet.SameNameIs` | internal/fleet/board.go:247-298 | two names of columns are one exactly when letter by letter they are, whatever the case |
| `Board.SortedOnce` | internal/fleet/board.go:388-398 | two sortings by Order of the same cards are the same list |
| `Board.Place` | internal/fleet/board.go:411-442 | Place's two loops give the rank between the neighbours, or one more than the last, or a column numbered anew |
| `Board.PlacedBetween` | internal/fleet/board.go:405-442 | the new rank is positive and strictly between those before and after it, all ranks then positive, for any column in order, also with equal or missing ranks |
| `Board.PlaceIsWhereAsked` | internal/fleet/board.go:388-442 | the column sorted again after a card was placed has it at exactly the position asked, the others in their order |
| `Board.HalfGap` | internal/fleet/board.go:400-436 | a gap halved when Place allows it is one of the eleven sizes again |
| `Board.PlacedGaps` | internal/fleet/board.go:400-442 | in any run of placings from an empty column every gap is a power of two between 1/1024 and 1 |
| `Board.OrderIs` | internal/fleet/board.go:388-398 | a ranked card comes before one without rank, the lower rank first, and cards of one rank, or of none, by path in the order of text |
| `BoardNext.WaitsNot` | internal/fleet/task.go:381-398 | the loop of Waits says ready exactly for a submitted card, not held, whose dependencies are all completed tasks |
| `BoardNext.Next` | internal/fleet/board.go:335-358 | the card given is ready and none of a column before, nor of its column before it by Order, is; none is given exactly when no card can be taken |
| `BoardNext.TakesIs` | internal/fleet/task.go:381-398 | said on states: a card can be taken exactly when it is submitted, past any lease, in that column, and every task it depends on is there and completed |
| `BoardNext.NeverStuck` | internal/fleet/board.go:335-358 | while the open cards of a board are submitted, free and depend without a circle on completed tasks and each other, Next finds one |
| `BoardNext.CompletingKeepsFlow` | internal/fleet/board.go:335-358 | completing any open card of such a board keeps it so, with one open card less |
| `BoardNext.RunsDry` | internal/fleet/board.go:335-358 | taking what Next gives and completing it closes every card of such a board in as many rounds as it had open cards |
| `Chains.SomeEnds` | internal/fleet/task.go:388-397 | names that lead to each other without a circle: one leads to none |
| `Tasks.RunKeepsSound` | internal/fleet/task.go:400-506 | over any sequence of claims, starts, heartbeats, updates, closings, reviews, leases ended, runs ended and moves by people, refused ones included, a held task is working, waiting for input or in review, and only a held one has a lease |
| `Tasks.OneHolder` | internal/fleet/task.go:508-519 | after any run, who takes a task finds it held by nobody, and a holder loses it only by its own step, its lease, its run's end or a person |
| `Tasks.OnlyMoves` | internal/fleet/task.go:362-376 | after any run, a step changes the state by a move of the table or not at all, exactly when it is not a person's move off the table or a run that ends while its task is in review |
| `Tasks.TableIs` | internal/fleet/task.go:362-376 | the table of moves read from each state and to each state is one |
| `Tasks.StepWrites` | internal/fleet/task.go:400-506 | a step not refused writes the state it names: the one asked for by an update, a completion or a person; working for a claim or a start; review; failed exactly at the max-th attempt and submitted before it for one given back; the cases of a run's end for a release; it counts an attempt only when the task is taken, and but for holder and lease changes nothing else |
| `Tasks.StepNeeds` | internal/fleet/task.go:400-519 | exactly when each step is refused: who takes a task must find it submitted, past any lease and, for an agent, its dependencies completed; a holder's step must be its holder's, to a state it may ask for, by a move of the table; a lease is ended once it is over |
| `Tasks.DragOutside` | internal/mcp/board.go:131-182 | a person may put a completed card back at work, which is no move of the table |
| `Tasks.AttemptsCount` | internal/mcp/tools_task.go:475-487 | the attempts of a task are the times it was taken |
| `Tasks.LostHolders` | internal/fleet/task.go:461-487 | a task whose holders never come back is taken at most max times, and has failed exactly when it was given back for the max-th |
| `Sections.HeadingLevelLoop` | internal/fleet/task.go:319-330 | the loop counts the # of an ATX heading of level one to six with a space after, and gives 0 for any other line |
| `Sections.Demote` | internal/fleet/task.go:303-317 | demoting the lines in place, the fence followed line by line, is demoting each line outside code |
| `Sections.DemotedText` | internal/fleet/task.go:303-317 | the demoted text opens and closes the same fences and has no heading of level one or two outside code |
| `Sections.DemotedTrimmed` | internal/fleet/task.go:303-317 | a trimmed text demoted is trimmed |
| `SectionsRead.LastSectionLoop` | internal/fleet/task.go:335-357 | the loop with start and end gives the text of the last section of that heading, up to the next heading of level one or two |
| `SectionsRead.AppendedScan` | internal/fleet/task.go:293-301 | after a section is appended to a note with no open fence, reading finds it when it has the heading, and otherwise finds what it found before, ended there |
| `SectionsRead.ReadsBack` | internal/fleet/task.go:286-357 | round trip: the section appended to a note with no open fence is the one read, its text the text appended with headings demoted, whatever headings and code it holds |
| `SectionsRead.FoundIffClosed` | internal/fleet/task.go:332-357 | the section read starts at the one appended exactly when the note before has no open fence |
| `SectionsRead.LastIsRead` | internal/fleet/task.go:332-357 | after any sections, the last of a heading is read as it was appended, whatever comes after it under other headings |
| `SectionsRead.TrimmedEnd` | internal/fleet/task.go:293-295 | what comes before the section is untouched but for empty lines at its end |
| `SectionsLines.DemotedIs` | internal/fleet/task.go:303-330 | a heading, one to six # and a space, goes two levels down with its text, to the sixth at most, and any other line is left |
| `SectionsLines.CodeIs` | internal/parser/fences.go:14-44 | outside a block of code a line is code exactly when it opens one, by three backticks or tildes or more after blanks; in a block every line is, to the first of blanks around as many of that character or more |
| `SectionsLines.LastSectionIs` | internal/fleet/task.go:332-357 | the section read is the text after the last line outside code that is that heading of level two, up to the next heading of level one or two outside code or the end; none without such a line |
| `SectionsLines.AppendedAsText` | internal/fleet/task.go:293-301 | as a text: the note without empty lines at its end, an empty line, the heading of level two, an empty line, the text trimmed and demoted, and the end of the line |
| `Canvas.KeptIs` | internal/canvas/canvas.go:84-93 | the cards kept have distinct, non-empty ids, every id of the file is kept, and of each the first card |
| `Canvas.KeptInOrder` | internal/canvas/canvas.go:84-93 | the cards kept are in the order of the file |
| `Canvas.Parse` | internal/canvas/canvas.go:84-104 | the two loops keep the first card of each id, and the connections between cards that are there |
| `Canvas.BestIs` | internal/canvas/canvas.go:131-145 | the parent of a card is a group that contains it, none smaller, and there is none only when no other group contains it |
| `Canvas.SmallestByArea` | internal/canvas/canvas.go:131-145 | and of those that contain it none has a smaller area |
| `Canvas.BestIsFirst` | internal/canvas/canvas.go:131-145 | of groups of one area it is the first of the file |
| `Canvas.ContainsIsPoints` | internal/canvas/canvas.go:148-151 | a card with a size is contained exactly when every point of it is in the other |
| `Canvas.Parents` | internal/canvas/canvas.go:123-146 | the nested loops map each card to its parent and nothing else |
| `Canvas.ContainsIsStrict` | internal/canvas/canvas.go:148-151 | containment among groups is a strict partial order, whatever their sizes, negative ones too |
| `Canvas.ParentIs` | internal/canvas/canvas.go:123-146 | fewer groups contain a card's parent than the card, so following parents ends |
| `Canvas.NoLoop` | internal/canvas/canvas.go:123-146 | no card is above itself: the parents are a forest |
| `CanvasPrint.ReadingOrdered` | internal/canvas/canvas.go:154-161 | in the order listed, each card is lower than the one before, or as high and not further left |
| `CanvasPrint.ReadingStable` | internal/canvas/canvas.go:154-161 | the sort is stable: the cards of one place keep the order of the file |
| `CanvasPrint.OneChild` | internal/canvas/canvas.go:207-215 | of the children of a group only one is on the way up from a card |
| `CanvasPrint.PrintedTimes` | internal/canvas/canvas.go:224-255 | printing a card prints each card under it once, and no other |
| `CanvasPrint.EveryCardOnce` | internal/canvas/canvas.go:207-259 | the list has every card of the canvas exactly once, indented by the number of groups around it by parents, and nothing else |
| `Gantt.NeverEnds` | internal/diagram/parse.go:665-672 | a chain of after that meets a task twice never ends |
| `Gantt.Walk` | internal/diagram/parse.go:665-672 | the walk from a task ends, by the ids not yet seen, and reports exactly the chains that do not |
| `Gantt.Problems` | internal/diagram/parse.go:648-675 | with distinct ids, the problems are exactly the afters that name no task and the chains that never end, one a task and in order; none exactly when every after names a task and every chain ends |
| `Gantt.ItselfIsReported` | internal/diagram/parse.go:669-671 | a task that is after itself is reported |
| `Gantt.LeadingIsReported` | internal/diagram/parse.go:669-671 | the message says more than the check: a task that only leads to a circle is reported as waiting for itself |
| `Gantt.EndlessIs` | internal/diagram/parse.go:665-672 | a chain never ends exactly when there are chains of tasks of any length from there, each task after the next |
| `Gantt.MissingIs` | internal/diagram/parse.go:660-664 | an after is missing exactly when no task has that id |
| `TrashList.ReadNotes` | cmd/gosidian/authors.go:102-118 | the loop glues a part that starts no path to the one before, and drops what is not under the place |
| `TrashList.InsideIsNames` | cmd/gosidian/authors.go:102-118 | a path is of the place restored exactly when the names of the place are its first names, or all |
| `TrashList.ReadsBackIff` | cmd/gosidian/authors.go:94-118 | a comma-joined list of notes under a place is read back exactly when no part of a note after a comma is itself under the place, or, where the place's own name has a comma, when there is one note at most |
| `TrashList.SplitInTwo` | cmd/gosidian/authors.go:94-118 | a note whose name holds a comma and the place again is read as two |
| `Tokens.AllowsPathIs` | internal/auth/auth.go:154-192 | for projects named as folders are, a path is reached exactly when its top folder is |
| `Tokens.NormalizeProjects` | internal/auth/auth.go:976-991 | the loop keeps each trimmed, non-empty name once, in order |
| `Tokens.NormalizeIs` | internal/auth/auth.go:974-991 | the names kept are the trimmed, non-empty ones, each once |
| `Tokens.RenameFollows` | internal/auth/auth.go:707-754 | a scoped token reaches the new name when it reached the old or the new one, the old no longer, any other as before; an administrator's stays one, a scoped one scoped |
| `Tokens.RenameUnscopes` | internal/auth/auth.go:711-754 | a rename takes a token's scope away exactly when the new name is blank and its list held nothing else and it has no legacy project |
| `TokenFolders.MovedIs` | internal/auth/auth.go:737-747 | a write folder under the old name keeps its place under the new one, name by name, and any other stays |
| `TokenFolders.CountIsDiffer` | internal/auth/auth.go:711-754 | for names as they are minted, the number told is of the tokens a rename made differ |
| `Tokens.RemoveNarrows` | internal/auth/auth.go:756-805 | a deleted project goes from the scope, the token is revoked exactly when it had no other, and none becomes an administrator's; its project is then the first left, its list is of several only, and the rest of it stays |
| `Tokens.RemovedInOrder` | internal/auth/auth.go:765-805 | what is left of the store is what is left of each token, in the order of the tokens |
| `Tokens.Store.RenameProject` | internal/auth/auth.go:711-754 | every token of the store is renamed in place, and the number changed is returned |
| `Tokens.Store.RemoveProject` | internal/auth/auth.go:765-805 | every token of the store is narrowed, kept or revoked, in order, and those revoked and narrowed are counted: together the tokens that named the project |
| `Tokens.RunFollows` | internal/auth/auth.go:707-805 | over any run of renames and deletes a scoped token reaches exactly the projects it was given under their names of now, is revoked exactly when all are gone, and never becomes an administrator's |
| `TokenNarrow.Explain` | internal/authz/authz.go:116-155 | the loop over the grants gives the level of visibility, grants and role together |
| `TokenNarrow.WhoWrites` | internal/authz/authz.go:111-173 | a project is written by the owner and by a member whom the list grants writing or more, and by nobody else; who writes it reads it |
| `TokenNarrow.WhoReads` | internal/authz/authz.go:111-167 | a project is read by the owner, by whom is not restricted when it is public, by members not restricted when it is internal, and by a member or guest with an account whom the list grants reading or more; a private one by no other than the owner without a grant |
| `TokenNarrow.ReadableWritable` | internal/authz/token.go:26-42 | the loop over the token's projects, or all, gives those its owner reads, in order, and those it writes |
| `TokenNarrow.NarrowToken` | internal/authz/token.go:22-56 | its cases and the copy they make give the narrowed token or none: an owner's as it is, and any other's writing exactly when it wrote and its owner writes some project of it |
| `TokenNarrow.NarrowReads` | internal/authz/token.go:12-58 | the narrowed token reads exactly the paths both the token and its owner read, of the projects there are, and there is none exactly when that is nothing |
| `TokenNarrow.NarrowWritesPath` | internal/auth/auth.go:193-222 | it writes a path, its write folders counted, exactly when the token and its owner both write it, but where the token had a filter that refuses the path in a write folder and a project the owner writes, and the owner writes only some of its projects |
| `TokenNarrow.NarrowWrites` | internal/authz/token.go:12-58 | on every path it writes exactly what both write when no filter the token had is lost, always for a token without one, and, for tokens without write folders, only then |
| `TokenNarrow.FilterLost` | internal/authz/token.go:51-55 | a filter the token had is replaced where the owner writes only some of its projects: a write it refused is then allowed |
| `TokenFolders.InWritePathsIs` | internal/auth/auth.go:204-221 | a token with write folders writes a path exactly when, cleaned, it does not go up out of the vault nor start at the root, and the names of one of the folders are its first names, not all of them |
| `DbSchema.Validate` | internal/dbschema/dbschema.go:515-572 | the loops over the sorted keys of a row and over the fields, and the check of its id, give the problems of the row |
| `DbSchema.CheckEdit` | internal/dbschema/dbschema.go:579-619 | the loops over the sorted keys set and over the keys removed give the problems of the edit |
| `DbSchema.TakesValues` | internal/dbschema/dbschema.go:627-686 | for each kind of value, which types of fields take it |
| `DbFits.FineIs` | internal/dbschema/dbschema.go:528-572 | a row has no problem exactly when the first field of each key's name is stored and takes its value, or there is none and every row has that key, each required stored field has a value and no empty text, and the id shows as the name of the file |
| `DbFits.AcceptedIs` | internal/dbschema/dbschema.go:574-619 | an edit is accepted exactly when each key set fits so and is not emptied where it is required, an id set shows as the name of the file, and no key removed is of a required field |
| `DbFits.LinkIs` | internal/dbschema/dbschema.go:674-679 | a link is two brackets, anything, and two brackets |
| `DbEdit.ValidatedIs` | internal/dbschema/dbschema.go:538-572 | the order of the keys changes nothing: the problems told are those of a key, of a required field that is missing, or of the id |
| `DbEdit.EditAddsNoProblem` | internal/dbschema/dbschema.go:574-579 | where no required field is declared after one of its name that is not, an accepted edit leaves exactly the problems the row had, but for those of the keys it names: a row that breaks the schema elsewhere can be edited, and nothing new breaks |
| `DbEdit.EditIsRowEdited` | internal/dbschema/dbschema.go:574-619 | for such a schema and a row without problems, checking an edit by the keys it names is checking the row it leaves: an edit is accepted if and only if that row has no problem |
| `DbEdit.HiddenRequiredIsMissed` | internal/dbschema/dbschema.go:163-190 | the condition on the schema is exact: where a required field is declared after one of its name that is not, removing it is accepted and leaves the row without it |
| `DbEdit.AcceptedEditKeepsRow` | internal/dbschema/dbschema.go:574-686 | with values as JSON gives them, booleans and numbers shown as they are written too, an accepted edit of a row without problems leaves none, its values as they are read back as text |
| `DbEdit.NumberReadOtherwise` | internal/dbschema/dbschema.go:652-655 | the condition on numbers is needed: any number shown otherwise than it is written is accepted as an option shown so and refused once read back |
| `Text.LessTrichotomy` | internal/gitsync/writes.go:320-322 | the order of strings is total and strict |
| `Text.SplitConcat` | cmd/gosidian/authors.go:110-116 | the parts of two lists joined by a comma are those of each |
| `Text.UnderIsNames` | internal/gitsync/writes.go:214-226 | a path has a folder and a slash as its beginning exactly when the folder's names are its first names, not all of them |
| `Text.LessIs` | internal/fleet/board.go:388-398 | the order of strings: the first character that differs decides, and a beginning comes first |
| `Text.TrimIs` | internal/auth/auth.go:974-991 | what is trimmed of a text between blanks is the text, when it has none at its ends |

## Left out

- Git and its process, the push, the message of a commit, what git sync changes by itself (the files it takes out of git, .gitignore) and authorName: they do not decide who a file is credited to.
- The number of writes is unbounded in the model: the wrap-around of the 64-bit counter is not there.
- GitProtocol.StepKeeps: a writer that wrote bytes records them before it unlocks, and writes no more under that lock; a write whose audit entry fails to be recorded, and one that writes again after its record, are not steps of the model, and git reads a file at one moment.
- The locks are the paths a writer takes: the vault's own table of locks, the cleaning of a path to its key, and the map in which attachments keep theirs until Release are not modelled.
- GitEffects.CoversIsEffect: the content of a file is any text, and a write may leave it as it was; a write is recorded with another name than its own for a rename and with none for a write to a note.
- Which files git pairs as a rename is git's own choice: the theorems hold for any pairing of a file that went with one that differs.
- AutomationRows.EachRowOnce: a reading gives rows of different paths, as a query of notes does.
- AutomationPlan.PlanRows: titles, and the sort of rows that come in by the instant of their date, are not modelled; a day is a number where the source compares its text.
- AutomationRuns.EachSlotOnce: the clock does not go back, no tick is cut between an action and the save of the state, and the runner keeps a job done until it is settled; what happens when it does not is AutomationSettle.LostJobFiresAgain.
- Automation rules in quiet projects, the note an action writes, the order of the rows in its text, and parsing of schedules and of dates; a row's date is trimmed, and a row key is a pair where the source joins it to a string.
- Daylight saving: a schedule is in a zone of fixed offset.
- AutomationEngine.Engine.Reconcile: the runner's answers, one reading of each waiting job, are given as a map; Await's polling and its time limit are not modelled.
- AuthorIndex.RecordedIsApplied: for project renames where neither name is a folder of the other, the condition Authors.OrderMattersIff shows to be needed; SQL itself, and LIKE beyond that it may return more rows, are not modelled.
- FrontmatterMethod.SetLines: encodeLine, quoting and yaml.v3 are not modelled: a field comes with the line encodeLine wrote or none, which is one line of its key that starts no anchor and no block scalar, and what YAML says of the lines is a function; a note is the list of its lines.
- Fleet.TargetRefuses: strings.EqualFold is folding of ASCII letters.
- Limits of columns (Count, Full, Hard), the parsing of a board's block and the text a person reads of it are simple and left out.
- Board.PlacedGaps: ranks are reals, so the rounding of float64 is not there.
- Tasks.RunKeepsSound: the frontmatter of a task is read as the fields it has; that writing and reading a key agree is FrontmatterSet.SetKeysReadsBack. Budgets, objectives and their sub-tasks are not modelled, nor the columns a move changes.
- SectionsRead.ReadsBack: on the lines of the body after the frontmatter.
- Canvas.Parse: from the cards and connections JSON gives; colors and the limit of 5000 cards are left out, and so is the text of each card in the list.
- Gantt.Problems: the tasks of all sections as one list, with ids found distinct before; the other checks of diagrams are not modelled.
- TrashList.ReadNotes: which audit entries are restores, and the place they restored, are given.
- Tokens.Store.RenameProject: saving the file, which may fail, reloading it, hashes, expiry and refresh are not modelled.
- TokenNarrow.Explain: the reasons it gives beside the level are not modelled.
- TokenNarrow.NarrowWritesPath: path.Clean is a function given.
- DbEdit.AcceptedEditKeepsRow: the YAML of a schema is given as its fields, what texts are numbers, dates and URLs as functions, and that an edit written is read back as its values is FrontmatterSet.SetKeysReadsBack; the sort of problems is by key, their texts are not modelled.
- The rest of database schemas, as templates, rollups' own values, the next name of a row and the order of options, and the folder scopes of chat bots, are not modelled: each is a computation on one value without state.
