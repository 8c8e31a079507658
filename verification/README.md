# TerminalAI: a verified model of its core algorithms

TerminalAI runs a fleet of command-line coding agents. A daemon owns the sessions and
their processes; a desktop window keeps a live copy of the daemon's table, lists the
sessions by urgency, and shows their terminals. This project models the parts where the
order of events, a crash or the arithmetic decides whether that is right, and proves
what those parts keep. Nothing here is code of the program itself.

The form follows the source. State that the source changes step by step is a class or a
method with loops, each proved equal to a specification function or to a property; what
the property means is then proved of the specification, over all inputs and over all
runs. Protocols with several parties (the daemon and a window; a flusher and a replay;
many writers, in many processes, of one file) are state machines with an inductive
invariant, so that a result holds in every reachable state of every interleaving.

| file | what it is about |
|---|---|
| `SessionTable.dfy`, `SnapshotCoordinator.dfy` | the session table and its log; a window that applies pushed events, buffers them during a snapshot read, and replays the buffer over the snapshot |
| `FleetRows.dfy` | reordering a live list of row elements in place |
| `StableSort.dfy`, `FleetGrouping.dfy`, `FleetList.dfy` | the urgency order, the groups, and the order that is frozen while the operator uses the list |
| `OutputRoute.dfy` | joining a replay of terminal output to the live output that follows it |
| `AtomicFile.dfy`, `AtomicWriters.dfy` | replacing a file through a lock, a backup, a temporary file and a rename; first one writer with any effect failing, then any number of writers with process death and loss of power |
| `Text.dfy`, `HelpText.dfy`, `HelpLayout.dfy`, `HelpModes.dfy` | scanning an agent's help text for flags and option blocks; how printed options read back; flags that need another mode |
| `ProjectRoots.dfy` | the list of registered project directories |
| `RestartPolicy.dfy` | how often a crashed agent is restarted, and after how long |
| `FleetEvents.dfy` | the desktop's event loop: badge, progress bar, toasts, log buffer |
| `Admission.dfy` | the gate that decides whether a session may start |
| `Capabilities.dfy` | reading an agent's model catalogue page by page |
| `Decimals.dfy`, `PortBlocks.dfy` | the ports given to a session, computed from its id |
| `NameLists.dfy`, `Wrappers.dfy` | lists without repetition; optional values, results and bytes |

`dafny verify dfyconfig.toml` checks the whole project.

## Where the code and its own documentation disagree

The model follows the code. These are the places where its documentation, a comment or
the intent it states says otherwise, each with the lemma that shows it.

- The replay splice can lose terminal output: `OutputRoute.OneByteIsLost` is the smallest
  case, and `OutputRoute.FreshBytesAreLost` one in which nothing was printed twice.
  `OutputRoute.OverlapIsTrue` says exactly when the splice is right, and
  `OutputRoute.OvertakingReplayRepeats` that a replay which overtakes the events it
  covers shows bytes twice.
- Help text is read wrongly in three ways, where the comment calls silence the only
  failure. With no blank line between, an option printed deeper than the one above it,
  and any line that is no option at whatever indent, are read as part of the description
  above (`HelpLayout.DeeperOptionIsSwallowed`, `HelpLayout.FooterIsSwallowed`). And a
  description that begins with a dash declares a flag at some widths and not at others
  (`HelpLayout.WidthChangesFlags`, `HelpModes.WidthChangesReport`).
  `HelpLayout.ReadingBackIsExact` shows that for texts made of blank lines, options and
  other lines there is no fourth way.
- A mode flag spelled with a capital can never satisfy the requirement that names it, so
  a usable flag is reported (`HelpModes.CapitalModeIsReported`,
  `HelpModes.CapitalModeInText`).
- A spend ceiling of zero is kept and stops everything, although a zero limit is said to
  be dropped for the same reason in both places
  (`Admission.OnlyAZeroCeilingHaltsAnEmptyFleet`).
- The cap on live sessions can be passed: a session that comes back from a provider's
  rate limit takes its slot without asking, and nothing else passes it
  (`Admission.CapIsPassedOnlyByAReturn`).
- A root that could not be written to disk is in force until the next start
  (`ProjectRoots.FailedWriteStillCounts`).
- A failed sync of the parent directory is reported as a failed write, with the new
  content already visible (`AtomicFile.Folder.ReplaceBytes`).
- Session ids outside the numbering share the ports of `s0001`
  (`PortBlocks.ForeignIdsShareTheFirstBlock`).

## Model

| member | source | states |
|---|---|---|
| SessionTable.ReplayAppends | web/src/snapshotCoordinator.js:67-70 | replaying two stretches of events one after the other is replaying both |
| SessionTable.UntouchedRow | web/src/snapshotCoordinator.js:67-70 | a row that no replayed event mentions is still the snapshot's |
| SessionTable.TouchedRow | web/src/snapshotCoordinator.js:67-70 | a row that a replayed event mentions does not depend on the snapshot it is replayed over |
| SessionTable.ReplicaRow | web/src/snapshotCoordinator.js:57-70 | for any buffering start and any snapshot point, each row is the daemon's at the last event received if an event mentioned it, and at the snapshot point otherwise |
| SessionTable.ReplicaConverges | web/src/snapshotCoordinator.js:57-70 | replaying from any point no later than the snapshot reaches the daemon's table once the events up to the snapshot have come; events replayed twice leave no trace |
| SessionTable.LateBufferingRow | web/src/snapshotCoordinator.js:36-37 | why buffering must start before the read: a row is right exactly when a later event settled it or the missed events left it as it was |
| SessionTable.UpsertIsUpdate | web/src/sessionState.js:75-79 | overwriting the row with this id where it stands, or appending it, is a table update and keeps ids distinct |
| SessionTable.UpsertKeepsPlaces | web/src/sessionState.js:75-79 | every other row keeps its place and its value, the updated one its place, and a new one comes last |
| SessionTable.WithoutIsRemoval | web/src/sessionState.js:91-92 | filtering an id out is a table removal and keeps ids distinct |
| SessionTable.WithoutAppends | web/src/sessionState.js:91-92 | filtering keeps the order of the rows that stay |
| SnapshotCoordinator.SessionView.ApplySessionUpdate | web/src/sessionState.js:75-79 | the in-place update is the specified one and leaves focus, buffer and toasts alone |
| SnapshotCoordinator.SessionView.UpdateSession | web/src/sessionState.js:86-89 | a pushed update is buffered while a read is in flight and applied at once |
| SnapshotCoordinator.SessionView.ApplySessionRemoval | web/src/sessionState.js:91-101 | the row goes, with every toast about it and no other, and with the focus if it was focused; EventKeepsOthers says so of the specification |
| SnapshotCoordinator.SessionView.RemoveSession | web/src/sessionState.js:103-106 | a pushed removal is buffered while a read is in flight and applied at once |
| SnapshotCoordinator.SessionView.BeginSnapshot | web/src/snapshotCoordinator.js:36-37 | buffering starts empty before the read |
| SnapshotCoordinator.SessionView.AbandonSnapshot | web/src/snapshotCoordinator.js:47-56 | a refused read leaves the table as the live events made it |
| SnapshotCoordinator.SessionView.LandSnapshot | web/src/snapshotCoordinator.js:57-73 | overwrite, then replay the buffer in order, then stop buffering |
| SnapshotCoordinator.ApplyEventsIsReplay | web/src/snapshotCoordinator.js:67-70 | the window's list of rows, under any events, stays a table without repeated ids and is the table those events lead to |
| SnapshotCoordinator.EventKeepsOthers | web/src/sessionState.js:91-101 | a toast is still up after an event exactly when the event is not the removal of its session, and the focus stays exactly when the event is not the removal of the focused row |
| SnapshotCoordinator.EventsKeepOthers | web/src/sessionState.js:91-101 | after any events a toast is up exactly when it was and none of them removed its session, with its session unchanged, and the focus is where it was exactly when none of them removed that row |
| SnapshotCoordinator.LandKeepsOthers | web/src/snapshotCoordinator.js:60-70 | a landing takes back exactly the toasts whose session was removed while the read was in flight, and takes the focus of the snapshot unless that row was |
| SnapshotCoordinator.LandKeepsFocusOnRow | web/src/snapshotCoordinator.js:60-70 | after a landing the focus is on a row of the table or nowhere |
| SnapshotCoordinator.RunKeepsInv | web/src/snapshotCoordinator.js:28-93 | in every reachable state of daemon, channel and window, the buffer is the stretch of log since the read began and the table is the last snapshot with the log replayed over it |
| SnapshotCoordinator.SnapshotConvergence | web/src/snapshotCoordinator.js:28-71 | for every interleaving, ids are unique, and once a landed snapshot's point has been received the window's table is the daemon's as of the last event received |
| SnapshotCoordinator.EveryRowIsTheDaemons | web/src/snapshotCoordinator.js:57-71 | even before that, no row is invented or comes back: each is the daemon's own, as of the last event or of the snapshot |
| FleetRows.IndexRows | web/src/fleetRows.js:10-11 | the map from key to row, with its insertion order, holds exactly the rows there were |
| FleetRows.PlaceRow | web/src/fleetRows.js:25-29 | one turn puts the row right after those already placed, and moves it exactly when it was not at the cursor |
| FleetRows.TakeRow | web/src/fleetRows.js:18-24 | a key on record keeps its row object, another gets a new one; either way it shows its session and is visible |
| FleetRows.PlaceSession | web/src/fleetRows.js:15-30 | one turn of the loop keeps the walk's invariant and touches no other row |
| FleetRows.PlaceSessions | web/src/fleetRows.js:13-30 | the whole walk leaves the sessions' rows first and in order, then the old rows nobody asked for |
| FleetRows.DropLeftovers | web/src/fleetRows.js:32-39 | rows nobody asked for are hidden if they must survive and removed if not, in their old order |
| FleetRows.ReconcileKeyedRows | web/src/fleetRows.js:9-40 | reconciling refines rebuilding: the visible children are the sessions' rows in order, old keys keep their row object, new keys get a fresh one, leftovers are hidden after them in their old order, keys stay distinct, and no row is moved exactly when the sessions' rows already led the list |
| StableSort.SortIsStable | web/src/fleetGrouping.js:31-37 | sorting keeps the elements of each rank in their old order |
| StableSort.StableSortIsUnique | web/src/fleetGrouping.js:31-37 | a sorted list that does so is the only one, whatever algorithm the platform uses |
| FleetGrouping.SortedSessionsOrder | web/src/fleetGrouping.js:31-37 | the same sessions, most urgent first, longest in their status first among equals, ties in the table's order |
| FleetGrouping.SortedSessionsUnique | web/src/fleetGrouping.js:31-37 | no other list is all of that |
| FleetGrouping.UrgencyGoesByTiers | web/src/sessionStatus.js:7-21 | every status is in one of ten tiers, from exited up to needs-approval, and one status is more urgent than another exactly when its tier is higher |
| FleetGrouping.ApplyGrouping | web/src/fleetGrouping.js:62-78 | the one-pass filing, ranking and flattening computes the specified grouping |
| FleetGrouping.LayOut | web/src/fleetGrouping.js:77 | laying the ranked groups end to end |
| FleetGrouping.GroupIs | web/src/fleetGrouping.js:39-50 | sessions are grouped by folder, by agent under its product name, by translated status, or all together |
| FleetGrouping.GroupingPermutes | web/src/fleetGrouping.js:60-78 | grouping is a permutation and changes no order inside a group |
| FleetGrouping.RankedNamesOrder | web/src/fleetGrouping.js:72-76 | every group once, more urgent groups first, equal ones by name |
| FleetGrouping.GroupsInOrder | web/src/fleetGrouping.js:62-78 | members of a group stand together, and of two groups the one with the more urgent member comes first, ties by name |
| FleetGrouping.MostUrgentOnTop | web/src/fleetGrouping.js:70-77 | over the sorted sessions, the first row after grouping has the greatest urgency of the fleet |
| FleetGrouping.MembersSorted | web/src/fleetGrouping.js:60-61 | each group keeps the attention-first order |
| FleetList.PickedInFrozenOrder | web/src/fleetList.js:168-169 | the frozen rows that still exist come in the frozen order |
| FleetList.FrozenThenNewcomers | web/src/fleetList.js:166-172 | the shown order is the frozen rows that remain, in the frozen order, and after them everyone else in the desired order |
| FleetList.FiltersAppend | web/src/fleetList.js:149-172 | each of these filters keeps the order of what it keeps |
| FleetList.FrozenOrderPermutes | web/src/fleetList.js:166-172 | freezing drops nobody and doubles nobody |
| FleetList.PendingPriorityChanges | web/src/fleetList.js:149-164 | the counting loop over the two index maps computes the number of newcomers and displaced rows |
| FleetList.PendingCountsMoves | web/src/fleetList.js:149-164 | that number is how many sessions are not among the frozen ones, and at how many places the desired order and the frozen one differ once both are cut down to the sessions they share |
| FleetList.NothingPending | web/src/fleetList.js:149-164 | the count is zero exactly when the desired order is the frozen one restricted to the sessions that remain, so there is no newcomer either |
| FleetList.NothingPendingNothingMoves | web/src/fleetList.js:141-172 | with a count of zero the frozen list already is the desired list |
| FleetList.FreezingInPlace | web/src/fleetList.js:124-134 | freezing the order on screen changes nothing and leaves nothing pending |
| FleetList.FleetListSurface.RenderRows | web/src/fleetList.js:66-110 | the visible rows become the shown sessions' rows in order, and the freeze's pending count is brought up to date |
| FleetList.FleetListSurface.CurrentFleetOrder | web/src/fleetList.js:117-122 | the visible rows' ids are the shown sessions' ids |
| FleetList.FleetListSurface.BeginFleetOrderFreeze | web/src/fleetList.js:124-134 | a freeze starts only when there is none and the list is not empty, and what is shown stays |
| FleetList.FleetListSurface.ReleaseFleetOrderFreeze | web/src/fleetList.js:141-147 | letting go ends the freeze only when nothing is pending, and moves no row when the sessions are those last rendered |
| FleetList.FleetListSurface.ApplyFleetOrder | web/src/fleetList.js:182-190 | asking for the new order ends the freeze and shows the desired list, whatever was pending |
| OutputRoute.ReplayOverlap | crates/terminalai-app/src/output.rs:88-105 | the nested loops with their early break return the earliest end of a longest piece of the buffer that is a suffix of the replay, and 0 exactly when there is none |
| OutputRoute.BestEndUnique | crates/terminalai-app/src/output.rs:82-105 | there is only one such answer |
| OutputRoute.SpliceExact | crates/terminalai-app/src/output.rs:62-76 | dropping a prefix of the buffer joins replay and live output exactly when that prefix is what the replay covers |
| OutputRoute.OverlapIsTrue | crates/terminalai-app/src/output.rs:82-105 | the search finds that prefix exactly when the buffer reaches the end of the replay and, by the windows alone: if the replay began before the buffer, the part they share with one byte more in front of it is nowhere in the buffer; if not, the whole replay is nowhere in it earlier |
| OutputRoute.NothingLost | crates/terminalai-app/src/output.rs:82-105 | when the buffer reaches back as far as the replay, no byte is ever lost, with no other condition |
| OutputRoute.NothingTwice | crates/terminalai-app/src/output.rs:82-105 | when the replay reaches back as far as the buffer and the events it covers have come, no byte is ever shown twice |
| OutputRoute.AllNewKept | crates/terminalai-app/src/output.rs:82-105 | when everything buffered is new, all of it is kept exactly when the replay is empty or its last byte is nowhere in the buffer |
| OutputRoute.OneByteIsLost | crates/terminalai-app/src/output.rs:82-105 | the smallest loss: one byte printed twice is shown once |
| OutputRoute.FreshBytesAreLost | crates/terminalai-app/src/output.rs:82-105 | a loss with nothing printed twice: one byte in common, and three new bytes go |
| OutputRoute.OutputRoute.Queue | crates/terminalai-app/src/output.rs:37-44 | bytes are appended to the buffer |
| OutputRoute.OutputRoute.Flush | crates/terminalai-app/src/output.rs:46-60 | a route that is not replaying appends all of its buffer to what was sent and empties it, when the channel takes it; a replaying one sends nothing; a refused batch is gone, and only a refused batch is an error |
| OutputRoute.OutputRoute.CompleteReplay | crates/terminalai-app/src/output.rs:62-79 | the replay and then the buffer after the overlap are sent and the route goes live; a refused send leaves it replaying for good |
| OutputRoute.RunKeepsInv | crates/terminalai-app/src/output.rs:37-80 | in every interleaving of printing, queueing, flushing and replaying, what was sent, is being sent and is buffered is the replay followed by the stream from one point |
| OutputRoute.ExactlyOnce | crates/terminalai-app/src/output.rs:37-80 | that is every byte once and in order exactly when the point is the end of the replay; before the replay nothing is sent |
| OutputRoute.ReplayJoinsStream | crates/terminalai-app/src/output.rs:62-105 | in every run the arrival of the replay decides the join: exact exactly when its events have come and have no rival to the true overlap, never a loss when buffering began no later, never a repetition when it began no earlier and they have come |
| OutputRoute.OvertakingReplayRepeats | crates/terminalai-app/src/output.rs:62-105 | a replay that is not empty and arrives before its events shows its last byte twice once they have come |
| OutputRoute.DecidedOnArrival | crates/terminalai-app/src/output.rs:37-105 | so at every later state the pane has every byte once and in order exactly when, on arrival, the events had come and had no rival |
| OutputRoute.ReplayIsShown | crates/terminalai-app/src/output.rs:62-79 | in every run, when the replay arrives the pane has it and what was queued beyond the overlap, and nothing is left in the buffer |
| OutputRoute.FlushShowsAll | crates/terminalai-app/src/output.rs:46-60 | in every run, once a flush has taken its batch any send puts in the pane everything queued by then, whatever is printed or queued in between; a send right after puts exactly that there |
| OutputRoute.OutputChannels.Register | crates/terminalai-app/src/output.rs:107-120 | the newest pane's route is the only one left |
| OutputRoute.OutputChannels.Remove | crates/terminalai-app/src/output.rs:122-135 | a route removes itself and never a newer one |
| AtomicFile.TempNamesNeverCollide | crates/terminalai-core/src/atomic_file.rs:72-79 | equal temporary names mean the same file, process and sequence number |
| AtomicFile.TempNameApart | crates/terminalai-core/src/atomic_file.rs:72-87 | a temporary name is neither the file's nor its backup's |
| AtomicFile.Folder.ReplaceBytes | crates/terminalai-core/src/atomic_file.rs:50-70 | whichever effects fail, the call succeeds exactly when all of them did; before the rename the name is untouched and the temporary file is cleaned up, from it on the new bytes are there, whole and synced; and so at every moment in between |
| AtomicFile.Folder.WriteAtomic | crates/terminalai-core/src/atomic_file.rs:28-43 | the exact outcome of every pattern of failures: success, the new content and the untouched destination each exactly when the effects that decide them succeeded, the backup included; no temporary file remains unless removing one failed; nothing else changes; and a reader finds the old bytes or all of the new ones at every moment |
| AtomicWriters.NeverTorn | crates/terminalai-core/src/atomic_file.rs:28-79 | with any number of writers, processes that die and power that is lost at any step, the file is absent only if it always was and otherwise holds, whole and synced, a content some writer was given |
| AtomicWriters.BackupIsCurrentOrPrevious | crates/terminalai-core/src/atomic_file.rs:34-43 | among backup-keeping writers, from the second content on the backup exists and is the current content or the one just before it, also after a loss of power |
| AtomicWriters.HistoryIsOneRenameAtATime | crates/terminalai-core/src/atomic_file.rs:50-70 | the content changes only by the lock holder's rename, all at once, or by a loss of power going back |
| AtomicWriters.OneWriterAtATime | crates/terminalai-core/src/atomic_file.rs:133-154 | in every reachable state a writer holds the lock exactly when it is inside the locked section, so when none is inside, the lock is free and a waiting writer may take it |
| AtomicWriters.SuccessIsDurable | crates/terminalai-core/src/atomic_file.rs:28-79 | in every run, the step that ends a write without an error leaves the file with the contents asked for and the lock free, and no loss of power right after brings anything else back |
| AtomicWriters.NothingLeftBehind | crates/terminalai-core/src/atomic_file.rs:50-70 | in every run in which nobody dies and temporary files can be removed, whatever else fails, an idle folder has the files it began with, the file and its backup, and no other |
| AtomicWriters.WriterCanFinish | crates/terminalai-core/src/atomic_file.rs:28-79 | from any state with the lock free, a waiting writer whose temporary names are free gets by its own steps to exactly the folder with its contents, and with the old ones in the backup if one is kept |
| AtomicWriters.RunKeepsInv | crates/terminalai-core/src/atomic_file.rs:28-154 | the invariant behind these, over every run: every state of the folder that a loss of power could bring back is whole |
| HelpText.FlagsUsed | crates/terminalai-core/src/help.rs:51-77 | the loop with its break and skips computes the flags that UsedFlagsAre and UsedFlagsInOrder describe |
| HelpText.UsedFlagsAre | crates/terminalai-core/src/help.rs:38-77 | without repetition, exactly the names of the undeclared flag tokens before the first end-of-options marker, where a name is what comes before the first = of a token or all of it, and holds no = itself |
| HelpText.FlagNameIsTheName | crates/terminalai-core/src/help.rs:38-44 | a token has one name: the text that ends it or goes on with the first = |
| HelpText.UsedFlagsInOrder | crates/terminalai-core/src/help.rs:46-77 | the flags come in the order of first use: one more argument adds its name at the end, or nothing |
| HelpText.HelpListsFlag | crates/terminalai-core/src/help.rs:79-107 | the scan terminates and is true exactly when some occurrence of the flag has no letter, digit or dash on either side |
| HelpText.UnlistedMember | crates/terminalai-core/src/help.rs:113-118 | the flags reported as unlisted are exactly those in use that the help nowhere lists |
| HelpText.UnlistedAppends | crates/terminalai-core/src/help.rs:113-118 | they are reported in the order of use |
| HelpText.ReadOptionFlags | crates/terminalai-core/src/help.rs:185-202 | the loop computes the flags an option line begins with, which LeadingFlagsAre describes, and none when there are none |
| HelpText.LeadingFlagsAre | crates/terminalai-core/src/help.rs:194-200 | they are the names of the longest run of flag tokens at the start, one for each and in order, with trailing commas and values dropped |
| HelpText.OptionsHoldNoValue | crates/terminalai-core/src/help.rs:194-200 | no option of any help text declares a flag that holds a = |
| HelpText.HelpOptions | crates/terminalai-core/src/help.rs:136-183 | the loop over lines computes the specified blocks |
| Text.ByteLenAppends | crates/terminalai-core/src/help.rs:158 | the indent is counted in bytes of UTF-8: one for a character, and one more for each of the three limits it reaches |
| HelpLayout.TextIsRead | crates/terminalai-core/src/help.rs:136-183 | what any text made of blank lines, options and other lines reads back as, item by item |
| HelpLayout.WrapIndependence | crates/terminalai-core/src/help.rs:120-183 | two printings of the same options, at any widths and indents and among any other lines, give the same blocks exactly when they show the same flags on each option's own line, and so whenever each line holds all of its option's flags |
| HelpLayout.ReportIsWrapIndependent | crates/terminalai-core/src/help.rs:245-273 | so the report of restricted flags does not depend on the width then, for any arguments |
| HelpLayout.ReadingBackIsExact | crates/terminalai-core/src/help.rs:136-183 | the blocks are the printed options exactly when, as long as no blank line has come, no option stands deeper than the one above it and no other line follows one; and they are what any width would give exactly when, besides, each option's line holds all of its flags |
| HelpLayout.FlagsFitWhen | crates/terminalai-core/src/help.rs:185-202 | an option's line holds all of its flags unless it is nothing but flags and the line after it begins with one |
| HelpLayout.WidthChangesFlags | crates/terminalai-core/src/help.rs:185-202 | a description that begins with a dash: wrapped right after the flag it is description, on one line it declares a flag |
| HelpLayout.DeeperOptionIsSwallowed | crates/terminalai-core/src/help.rs:138-146 | an option that stands deeper becomes part of the description of the one above, its flags included, wherever in a text |
| HelpLayout.FooterIsSwallowed | crates/terminalai-core/src/help.rs:138-146 | a line that is no option does too, at any indent |
| HelpText.FindModeRequirement | crates/terminalai-core/src/help.rs:222-243 | the first flag of the clause after the earliest restriction phrase |
| HelpText.ClauseFlagIsFirst | crates/terminalai-core/src/help.rs:229-243 | it is the first token that is a flag once closing marks are cut off, and there is none when a token that ends a sentence comes before |
| HelpText.PhraseEndIsEarliest | crates/terminalai-core/src/help.rs:222-227 | the clause read begins where the first restriction phrase to end, ends; there is none exactly when no phrase occurs |
| HelpText.RestrictedMember | crates/terminalai-core/src/help.rs:255-273 | the report holds exactly the flags in use whose option needs a mode the arguments lack |
| HelpText.OptionForIsFirst | crates/terminalai-core/src/help.rs:263-266 | the option asked is the first that declares the flag, and there is none exactly when no option does |
| HelpText.RestrictedAppends | crates/terminalai-core/src/help.rs:262-272 | the report is in the order of use |
| HelpText.NothingAfterMarkerCounts | crates/terminalai-core/src/help.rs:51-59 | nothing after the end-of-options marker changes either report (Guideline 10 of section 12.2 of the POSIX.1-2017 Base Definitions) |
| HelpModes.RequirementIsLowered | crates/terminalai-core/src/help.rs:222-243 | the mode asked for is the one the option's text spells, in lower case |
| HelpText.ToLowerAt | crates/terminalai-core/src/help.rs:223 | lowering replaces each of the letters A to Z by the letter 32 further on and nothing else |
| HelpModes.CapitalNeverSatisfies | crates/terminalai-core/src/help.rs:222-243 | so it is never one spelled with a capital |
| HelpModes.LoweredModeSatisfies | crates/terminalai-core/src/help.rs:255-273 | of a flag whose option asks for a mode nothing is reported exactly when the lower-cased mode is in use |
| HelpModes.CapitalModeIsReported | crates/terminalai-core/src/help.rs:255-273 | so for any option the report is right for all arguments exactly when the mode it asks for has no capital |
| HelpModes.CapitalModeInText | crates/terminalai-core/src/help.rs:255-273 | a help text and a command line, for any flag and any such mode, in which the mode is given and reported missing |
| HelpModes.CapitalModeExample | crates/terminalai-core/src/help.rs:255-273 | the smallest such text: -x only works with -P |
| HelpModes.WidthChangesReport | crates/terminalai-core/src/help.rs:255-273 | two printings of one option for which the reports differ |
| ProjectRoots.ProjectRoots.Add | crates/terminalai-app/src/projects.rs:67-94 | the checks in their order, then replace the covered roots, sort and write |
| ProjectRoots.ProjectRoots.Remove | crates/terminalai-app/src/projects.rs:96-105 | an unknown root changes nothing and answers false; a known one is dropped and the rest written |
| ProjectRoots.AnswersAre | crates/terminalai-app/src/projects.rs:67-105 | which refusal is given in which case, each exactly; a refused call changes nothing, and one that succeeded has what is in memory on file |
| ProjectRoots.PathLeIs | crates/terminalai-app/src/projects.rs:92 | the list is sorted like a dictionary, component by component |
| ProjectRoots.AddKeepsGood | crates/terminalai-app/src/projects.rs:67-94 | an accepted root leaves the list sorted, at most sixteen long and with no root under another |
| ProjectRoots.AddCoversSubtree | crates/terminalai-app/src/projects.rs:88-93 | registering a root adds exactly the paths under it |
| ProjectRoots.RemoveUncoversSubtree | crates/terminalai-app/src/projects.rs:96-105 | removing a root takes away exactly the paths under it |
| ProjectRoots.EveryRunIsGood | crates/terminalai-app/src/projects.rs:67-105 | every reachable list, in memory and on file, through failed writes and restarts, is sorted, short and an antichain |
| ProjectRoots.RootsAreTheTops | crates/terminalai-app/src/projects.rs:96-103 | a path is a registered root exactly when it is covered and its parent is not |
| ProjectRoots.ListIsTheSet | crates/terminalai-app/src/projects.rs:67-105 | after any run the lists cover exactly what the same run on plain sets of paths offers, now and after a restart; the sets decide every refusal but that of a seventeenth root |
| ProjectRoots.FailedWriteStillCounts | crates/terminalai-app/src/projects.rs:91-93 | a root whose write failed is in force until the next start |
| RestartPolicy.CeilingIsExponential | crates/terminalai-core/src/restart.rs:142-148 | for every 32-bit attempt the ceiling is min(30 s, 250 ms * 2^(n-1)) in unbounded arithmetic; the clamped shift never shows |
| RestartPolicy.CeilingGrows | crates/terminalai-core/src/restart.rs:142-148 | a later attempt never has a lower ceiling |
| RestartPolicy.Jitter | crates/terminalai-core/src/restart.rs:156-165 | a delay never passes its ceiling, and a failed draw gives the ceiling |
| RestartPolicy.DrawsOfADelay | crates/terminalai-core/src/restart.rs:156-165 | the draws that give a delay are one in every ceiling + 1, at the same place in every block |
| RestartPolicy.EveryDelayIsPossible | crates/terminalai-core/src/restart.rs:124-165 | after any run whose last crash is restarted, the delays that some draw gives are exactly those up to 250 ms * 2^(n-1) for the n-th crash of its spell |
| RestartPolicy.CounterCountsTheSpell | crates/terminalai-core/src/restart.rs:100-126 | after any run of exits the counter is the number of crashes since the last process that ran a full window, stopping at five |
| RestartPolicy.SpellStep | crates/terminalai-core/src/restart.rs:58-107 | a process that ran for ten minutes begins a new spell, and every exit but code 0 and an interrupt adds a crash to it |
| RestartPolicy.DecisionCountsTheSpell | crates/terminalai-core/src/restart.rs:58-126 | so the decision for the last exit follows from that number and the exit code: finished for 0 and for an interrupt, failed from the sixth crash on, or a delay of at most 250 ms * 2^(n-1) and 4 s |
| RestartPolicy.CounterStaysInBudget | crates/terminalai-core/src/restart.rs:100-126 | the counter never passes five |
| RestartPolicy.RestartBudget | crates/terminalai-core/src/restart.rs:23-36 | restarts are at most 5 * (1 + full windows), hence at most 5 * (1 + run time / 10 min) |
| RestartPolicy.DelayBudget | crates/terminalai-core/src/restart.rs:100-165 | the delays of a run add up to at most 7.75 s for each spell between clean slates |
| RestartPolicy.BudgetsAreTight | crates/terminalai-core/src/restart.rs:100-165 | for every number of full windows there is a run that reaches both bounds |
| FleetEvents.ViewsOfSnapshot | crates/terminalai-app/src/events.rs:262-278 | the waiting set and the progress map of a snapshot are those of its table |
| FleetEvents.WaitingStep | crates/terminalai-app/src/events.rs:113-117 | inserting or removing one id keeps the waiting set what a recomputation would give |
| FleetEvents.ReportingStep | crates/terminalai-app/src/events.rs:118-125 | the same for the progress map |
| FleetEvents.AttentionComesFirst | crates/terminalai-app/src/toast.rs:39-44 | the statuses that raise a toast and count on the badge are those the fleet list puts above a rate-limited session |
| FleetEvents.BarIsHonest | crates/terminalai-core/src/progress.rs:241-287 | the honest bar is the one computed from the reports in any order; HonestBarTells says what it shows |
| FleetEvents.HonestBarTells | crates/terminalai-core/src/progress.rs:241-287 | a bar is honest exactly when it is absent if nobody reports, shows an error if and only if some report failed, shows progress or a pause if and only if that is the only report, and a figure if and only if the only report gives it |
| FleetEvents.FleetBar | crates/terminalai-core/src/progress.rs:248-287 | the bar computed from the progress map is the honest one, and tells all of that |
| FleetEvents.MaybeToast | crates/terminalai-app/src/events.rs:195-222 | a toast is attempted exactly when the status wants the operator and differs from the one in the session's last event; the memo stays what the events determine |
| FleetEvents.HandleSession | crates/terminalai-app/src/events.rs:98-149 | one session event keeps both views, the memo, the toasts and the finished work runs what the events so far determine |
| FleetEvents.RefreshTaskbar | crates/terminalai-app/src/events.rs:150-161 | badge and bar are sent when they changed and are then what the views say |
| FleetEvents.PushLog | crates/terminalai-app/src/events.rs:91-96 | pushing and trimming keeps the newest 256 records |
| FleetEvents.NewestAreTheLast | crates/terminalai-app/src/events.rs:91-96 | what is kept of any records is the last 256, in order |
| FleetEvents.FlushLogBatches | crates/terminalai-app/src/events.rs:410-416 | the buffer is offered as one batch and emptied, taken or not |
| FleetEvents.WhenBatchesAreOffered | crates/terminalai-app/src/events.rs:165-185 | a batch is offered exactly when records are waiting and the daemon is gone or the interval has passed, unless an event was refused in the same turn; the loop ends with the daemon, a refused event or a refused batch |
| FleetEvents.HandleEvent | crates/terminalai-app/src/events.rs:97-169 | an event other than output and logs is handled, shown and forwarded, agent events excepted; the loop ends if the window refuses it |
| FleetEvents.HandleTick | crates/terminalai-app/src/events.rs:67-186 | one turn keeps everything above and ends the loop exactly on a disconnection or a refused send |
| FleetEvents.BridgeDaemonEvents | crates/terminalai-app/src/events.rs:27-188 | after any ticks the views are those of the snapshot's table with the received events replayed over it, badge and bar show them, toasts and finished runs are those the events call for, pending logs are the newest 256 since the last flush, and events are forwarded in order |
| FleetEvents.OrderIsIrrelevant | crates/terminalai-core/src/progress.rs:248-287 | the bar is the same in whatever order the reports are walked |
| FleetEvents.ViewsAreTheDaemons | crates/terminalai-app/src/events.rs:27-37 | when the events the loop received reach its first snapshot, its views are the daemon's, and badge and bar show them, although some events were counted twice |
| FleetEvents.WithoutASnapshot | crates/terminalai-app/src/events.rs:27-36 | when the first snapshot fails, a waiting or reporting session is known exactly when an event has mentioned it |
| FleetEvents.LogsAreKept | crates/terminalai-app/src/events.rs:91-96 | while the loop is there, every log record has been taken by the window once and in order, or is still waiting, exactly when no interval between flushes saw more than 256 |
| FleetEvents.LastBatchMayBeLost | crates/terminalai-app/src/events.rs:174-185 | at the tick that ends the loop one batch at most is refused, and lost |
| Admission.AdmittedDemand | crates/terminalai-core/src/registry/mod.rs:1757-1768 | the saturating walk over the rows gives the sums of slots, processes and memory, cut off once at the 64-bit limit |
| Admission.CountsAre | crates/terminalai-core/src/admission.rs:257-264 | processes are the rows that neither exited nor are queued, and slots those of them that are not rate-limited |
| Admission.MemoryIs | crates/terminalai-core/src/admission.rs:273-293 | each process adds what it was last sampled at, or 509 MiB for Claude and 322 MiB for Codex |
| Admission.FleetDemand.Admit | crates/terminalai-core/src/admission.rs:276-279 | a session with a slot counts once as admitted and once as resident |
| Admission.FleetDemand.Reside | crates/terminalai-core/src/admission.rs:287-292 | a rate-limited session counts its process and its memory, sampled or assumed |
| Admission.OrderIsIrrelevant | crates/terminalai-core/src/admission.rs:273-293 | the summary is the same whatever order the rows are walked in |
| Admission.SlotsAreResident | crates/terminalai-core/src/admission.rs:257-264 | processes are the slots and exactly the rate-limited rows beside them |
| Admission.GateIsOpen | crates/terminalai-core/src/admission.rs:300-328 | the gate is open exactly when each limit that is set has room in unbounded arithmetic, saturation mattering only under the largest budget |
| Admission.BlockNamesTheLimit | crates/terminalai-core/src/admission.rs:300-328 | a closed gate names the limit in its way, slots before money before memory, each exactly |
| Admission.GateDecidesStarts | crates/terminalai-core/src/admission.rs:300-328 | a launch or a start runs at once exactly when there is that room, is queued otherwise, and changes nothing else |
| Admission.LimitsAreKept | crates/terminalai-core/src/admission.rs:58-107 | which limits a configuration ends up with: those asked for, except zero, negative and not finite ones, at least one session, and a window of a day by default |
| Admission.GateIsMonotone | crates/terminalai-core/src/admission.rs:300-328 | less demand never closes the gate |
| Admission.OnlyAZeroCeilingHaltsAnEmptyFleet | crates/terminalai-core/src/admission.rs:58-107 | whatever the configuration, the one thing that stops an empty fleet that has spent nothing is a spend ceiling of zero |
| Admission.SlotsOverRuns | crates/terminalai-core/src/admission.rs:300-303 | over every run of the fleet, admitted sessions never exceed the cap by more than the returns from a rate limit |
| Admission.CapIsPassedOnlyByAReturn | crates/terminalai-core/src/admission.rs:300-303 | one step passes the cap exactly when a rate-limited session comes back to a full fleet |
| Admission.CapIsPassedByAReturn | crates/terminalai-core/src/session.rs:118-125 | a run with a cap of one that ends with two slots held |
| Admission.MemoryStep | crates/terminalai-core/src/admission.rs:309-326 | one gated start leaves the projection within the budget less the headroom plus that session, or no more than that session in an empty fleet |
| Admission.MemoryOverRuns | crates/terminalai-core/src/admission.rs:309-326 | over every run from an empty fleet the projection stays within that allowance and what running sessions were seen to grow by |
| Admission.LaunchesStayNearTheBudget | crates/terminalai-core/src/admission.rs:309-326 | new sessions keep the projection within the budget when all are Codex and within 187 MiB of it otherwise, until they are seen to grow |
| Capabilities.UniqueStrings | crates/terminalai-core/src/capabilities.rs:519-522 | the retaining pass keeps the first of each non-empty string |
| Capabilities.UniqueModelCapabilities | crates/terminalai-core/src/capabilities.rs:535-538 | the retaining pass keeps the first model of each id |
| Capabilities.ParseCodexModelCatalog | crates/terminalai-core/src/capabilities.rs:413-462 | a page is refused exactly when its data, or failing that its models, is no list; otherwise its named items become models and their efforts a list |
| Capabilities.CatalogItemsAre | crates/terminalai-core/src/capabilities.rs:414-418 | the catalogue is the list under data, or under models if there is no data at all |
| Capabilities.ModelIs | crates/terminalai-core/src/capabilities.rs:420-446 | an item is a model exactly when the first of id, model and slug to hold a string holds a non-empty one; its other fields are read off their own keys |
| Capabilities.StringValuesAre | crates/terminalai-core/src/capabilities.rs:484-515 | a model's efforts come from the list under the first of two keys that is there at all, and are none when that is no list |
| Capabilities.EffortNameIs | crates/terminalai-core/src/capabilities.rs:484-512 | an effort is a string, or the first string under one of three keys |
| Capabilities.OneMoreItem | crates/terminalai-core/src/capabilities.rs:419-447 | models and efforts come in the order of their items, and items that give none are passed over |
| Capabilities.ProbeData.Merge | crates/terminalai-core/src/capabilities.rs:524-533 | appending a page and keeping the first of each |
| Capabilities.ProbeCodexAppServer | crates/terminalai-core/src/capabilities.rs:334-366 | the paging loop reads the specified pages, each request carrying the cursor of the answer before it |
| Capabilities.CursorIs | crates/terminalai-core/src/capabilities.rs:356-360 | the next cursor is the text under nextCursor in the result, or under next_cursor if nextCursor is not there; anything else ends the paging |
| Capabilities.UniqueMerges | crates/terminalai-core/src/capabilities.rs:524-533 | cutting down two lists and then their concatenation is cutting down the whole |
| Capabilities.FirstOfEachIdMerges | crates/terminalai-core/src/capabilities.rs:524-538 | the same for models by id |
| Capabilities.FirstIsKept | crates/terminalai-core/src/capabilities.rs:535-538 | a model is kept exactly when some place that holds it has no model of its id before it |
| Capabilities.PagesAreOneCatalog | crates/terminalai-core/src/capabilities.rs:338-364 | reading pages gives what one page with all their items would have given |
| Capabilities.ProbeSucceeds | crates/terminalai-core/src/capabilities.rs:338-364 | a probe succeeds exactly when every answer up to the first page without a cursor is a page |
| Capabilities.PagingIsIrrelevant | crates/terminalai-core/src/capabilities.rs:338-364 | two ways of cutting the same items into pages give the same models and the same ordered efforts |
| Capabilities.WhatAProbeHolds | crates/terminalai-core/src/capabilities.rs:413-538 | the models have exactly the ids read, and the efforts are those of every model read, so they contain those of every model kept |
| Decimals.ParsePadded | crates/terminalai-core/src/session.rs:65-69 | a sequence number written with leading zeros is read back, or refused past 64 bits |
| Decimals.ParsesNumerals | crates/terminalai-core/src/environment.rs:81-85 | reading digit by digit with an early end gives the number of a row of digits exactly when it fits 64 bits, and nothing for any other text |
| PortBlocks.BlockIsExact | crates/terminalai-core/src/environment.rs:76-97 | a valid request is refused exactly when its last port exceeds 65535 in unbounded arithmetic, and otherwise gets its consecutive ports untruncated |
| PortBlocks.RefusedWhen | crates/terminalai-core/src/environment.rs:58-97 | each refusal exactly: more than 16 ports, a base below 1024, a block past the last port |
| PortBlocks.BlocksMeetOnlyInOneSlot | crates/terminalai-core/src/environment.rs:71-75 | under one spec two blocks are equal or disjoint, and equal exactly for ids of one slot |
| PortBlocks.SessionFits | crates/terminalai-core/src/environment.rs:76-97 | session n gets a block exactly when base + 16 * (n - 1) + count - 1 is at most 65535, and every port in it is at least 1024 |
| PortBlocks.SessionsNeverShareAPort | crates/terminalai-core/src/environment.rs:71-75 | two numbered sessions never share a port |
| PortBlocks.ForeignIdsShareTheFirstBlock | crates/terminalai-core/src/environment.rs:81-85 | ids outside the numbering get the block of the first session |

## Left out

- Event delivery is taken to be in order and without loss. The daemon drops events for a
  subscriber that has stalled (crates/terminalai-core/src/admission.rs:343-346); after such
  a loss the convergence results hold again from the next snapshot that lands, since a run may
  begin with any rows.
- SnapshotCoordinator.SessionView.LandSnapshot: the sessions of a snapshot are taken to have
  distinct ids, as the daemon's table has. Rendering, announcements, the admission and store
  fields, and an exception thrown by rendering in the middle of the replay are not modelled.
- SnapshotCoordinator.SessionView.ApplySessionRemoval: which toasts are open is modelled;
  taking one off the screen is not. The order in which open toasts are visited is free.
- FleetRows.ReconcileKeyedRows: requires distinct keys, as session ids are; which rows to
  preserve is a set given to the call rather than a question asked of the document.
- FleetGrouping.ApplyGrouping: the translated status names, the folder label and the order of
  names in the reader's language are parameters; times are whole milliseconds and the
  half-step of the urgency scale is doubled. The filters are left out, being one-line tests.
- FleetList.FleetListSurface.ReleaseFleetOrderFreeze: the timer is the call itself, and the
  question whether the operator is using the list is an argument. Rows without an id, which
  the source skips, do not occur.
- OutputRoute.OutputRoute.Flush: a poisoned lock is not modelled. One flusher is assumed, as
  the event loop is the only caller.
- AtomicFile.Folder.WriteAtomic: directories are created or not, as an argument says. File
  names that are not valid text, which all map to one name, are left out, as are platforms
  where the lock does nothing. Windows writes a rename through; the model allows the rename to
  be lost until the directory is synced, which is weaker.
- AtomicWriters.NeverTorn: a loss of power brings back one of the states of the directory since
  its last sync, with anything at all in files that were never synced. File systems that reorder
  directory changes among themselves are not covered.
- HelpText.HelpListsFlag: requires a non-empty flag, which every flag in use is. Which characters
  are letters or digits is a parameter.
- HelpText.HelpOptions: a carriage return before a line break stays on the line, where trimming
  takes it off, so the blocks are the same.
- ProjectRoots.ProjectRoots.Add: paths are sequences of components compared as text. A file edited
  by hand, and one that cannot be parsed, are left out, so every run begins with an empty store. The
  copy of the list that callers are given is left out.
- RestartPolicy.RestartBudget: a run is a run of exits. An operator's revive sets the counter to
  zero and begins a new run.
- RestartPolicy.Jitter: that the draw is uniform is not modelled; the draw is any 64-bit number,
  or none.
- FleetEvents.BridgeDaemonEvents: receiving, clocks and the window's answers are given with each
  tick, and calls to taskbar, toasts and work runs are recorded. Schedules, the flushing of
  terminal output and the one-time warning about notifications are left out.
- Admission.LaunchesStayNearTheBudget: the bound is about the projection the gate reads. A session
  that starts again keeps its last sampled figure, for which MemoryOverRuns gives the bound.
- Admission.OnlyAZeroCeilingHaltsAnEmptyFleet: money is a real number, or not finite. Reading the
  limits from environment variables is left out.
- Capabilities.ProbeCodexAppServer: the answers are a list, already matched to their requests; a
  list that ends early stands for an agent that stops answering or sends no JSON. The request
  numbers, the handshake and the process are left out.
- PortBlocks.BlockIsExact: the hooks that receive the ports are left out.
- Work runs and schedules, the daemon's registry beyond the rows it counts, terminal scrollback, stored
  prompts and presets, and the offline demonstration are not part of this model.
