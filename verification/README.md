# Verified models of the terminal server, the embedded browser and the process owners

A Dafny 4.11 project that models the parts of the repository that carry real
state, loops or concurrency, and proves what they promise.

- **Terminal sessions** (`PtyStream`, `PtySessions`, `PtyServers`): the output ring
  with absolute cursors, coalescing into frames, eviction of slow consumers,
  detaching with a grace timer and reattaching with a replay. Session, socket,
  event loop and registry are classes; the shell's whole output is ghost state.
  A client is a value that folds the frames it receives.
- **Browser intents** (`BrowserLabels`, `BrowserIntents`, `BrowserLifecycles`,
  `BrowserCommands`, `BrowserOrder`): sequence-numbered commands that arrive in any
  order, scope barriers across labels, ownership and retirement. The recording
  sections are methods of a class that are proved against a value model, and the
  laws about order are proved of that model.
- **Browser worker** (`BrowserRequests`, `BrowserReconcile`, `BrowserPasses`,
  `BrowserWakeup`, `BrowserConvergence`, `BrowserFailingRuns`): one pass of the worker
  in the form of the code, with further commands arriving between any two of its
  steps; the two atomic flags by which commands wake workers, as a state machine over
  single operations; and a machine of both, in which a pass is cut into its atomic
  steps and a command into its lock sections: what the webview is once everything has
  come to rest.
- **Serve lease and status** (`ServeLease`, `ServeRelease`, `ServeStatus`, `ServeShapes`,
  `ServeRoutes`, `RustText`): the cross-process lease as a state machine in which every
  file operation is a step and any process may die between two, with exclusion and with
  release; and the classifier of the Serve status, against a specification on the fields
  of the JSON document alone.
- **Text** (`XmlText`, `LinuxStat`, `Digits`): escaping for a property list, and
  reading a line of /proc/pid/stat.
- **Bounded operations** (`BoundedOperations`, `PresenceWorker`): the race between a
  caller that gives up and the thread that finishes, and the worker above it.
- **Process trees** (`ProcessLog`, `ProcessDrain`, `ProcessOutcomes`): draining and
  stopping an owned process tree against a process table that may be different at every
  scan. The host keeps a log with times of scans, signals and their refusals, sleeps,
  readings and writes. Sending a signal requires that the log justifies it, and every
  result is stated as what the log then shows.
- **Navigation generations** (`NavigationTracker`).

Where an obvious claim is false of the code, the code is modelled as it is, a concrete
run shows the failure, and a theorem over all runs says exactly when the claim holds:

- a wakeup can be lost: `BrowserWakeup.ARequestCanBeLost`, `OnlyStealsLose`,
  `BrowserFailingRuns.AStolenRequestIsLost`;
- a scope command can change what is asked of a label and never have it reconciled:
  `BrowserFailingRuns.AScopeCommandCanMiss`, `BrowserConvergence.ScopeMissesExactly`;
- a navigation that reuses an applied sequence is not loaded:
  `BrowserFailingRuns.AReusedSequenceIsNotLoaded`, `BrowserPasses.TracesStayRightExactly`;
- a pass can return although an older command changed what is asked:
  `BrowserFailingRuns.APassCanMissAnOlderHide`, `BrowserRequests.ScopeCommandSlipsExactly`;
- a client whose greeting was lost is not exact: `PtyStream.UngreetedIsExactIff`;
- a newer scope command can be dropped or replaced for a label that its successor
  exempts: `BrowserOrder.ExemptingScopeDropsOlder`, `NewestCommandDecides`;
- a label hide need not hide: `HideDependsOnOrder`, `HideDecidesUnlessClosed`;
- a closed label can come back: `ScopeHideReopens`, `ClosedIsReopenedExactlyBy`;
- a navigation can be suppressed: `BoundsCanSuppressNavigation`,
  `NavigationSurvivesExactlyIf`;
- a panic can keep a slot: `BoundedOperations.APanicLosesASlot`, `LostExactlyOnPanic`;
- a kill frame can lose output: `PtySessions.KillLosesOutput`, `PtySession.OnKill`;
- a cursor of another shell can mislead: `PtyStream.OldCursorCanMislead`,
  `ContinuedIsExactIff`.

Parameters and nondeterminism stand for what the code does not control: transport
loss and the buffered amount of a socket, the moment a timer fires, native webview
calls, process tables, file contents, the boot id, clocks, tokens, and the parsing
of URLs, which is a pair of unspecified functions.

## Model

| member | source | states |
|---|---|---|
| PtyStream.TranscriptIsExact | src/lib/pty-ws-bridge.ts:165-190 | Over every history of one client with one shell, with any number of final frames lost on each socket, the transcript is exactly a piece of the shell's output that ends at the client's cursor |
| PtyStream.OneConnection | src/lib/pty-ws-bridge.ts:165-190 | Any number of frames of one exact socket takes a client with an exact transcript to one with an exact transcript |
| PtyStream.ReceivedSoFar | src/lib/pty-ws-bridge.ts:165-190 | After k frames the cursor is the socket's base plus the bytes received, and the transcript is what the greeting kept followed by those bytes |
| PtyStream.TranscriptGrowsOrResets | src/lib/pty-ws-bridge.ts:165-190 | Without a reset frame a transcript only grows, by exactly the payload received |
| PtySessions.KillLosesOutput | server.ts:2156-2169 | The handlers driven to a loss: a byte waits, a kill frame drops it while the socket stays attached, and the socket is handed the next byte and never the first |
| PtyStream.MissingIsLinked | server.ts:1932-1939 | Where handed over plus waiting is the output without a run of lost bytes, nothing is missing exactly if none was lost |
| PtyStream.MissingGrows | server.ts:1992-2021 | More output leaves a gap where it is |
| PtyStream.ContinuedIsExactIff | server.ts:2047-2050 | A cursor carries no shell: a client that continues at its cursor without a reset shows a piece of this shell's output exactly if what it already showed was one |
| PtyStream.OldCursorCanMislead | server.ts:2047-2050 | Concrete: a cursor of an old shell inside the ring of a new one gives a transcript of neither |
| PtyStream.UngreetedIsExactIff | server.ts:2031-2040 | A new client whose greeting was lost shows what it is sent but keeps no cursor: it is exact exactly while it was sent nothing, and asks for everything again |
| PtySessions.Socket.Send | server.ts:1901-1930 | A frame is appended exactly when the send succeeds; a send that fails, because the transport is not open or is lost or because the call throws, leaves the frames alone |
| PtySessions.Socket.Close | server.ts:1962-1972 | The socket is no longer open and keeps its first close code |
| PtySessions.PtySession.AppendScrollback | server.ts:1324-1351 | The ring stays the tail of the whole stream, at most 256 KiB; a chunk is dropped only if the bytes from it on are more than that, so nothing is dropped while the ring with the new output fits, and output of at least 256 KiB leaves exactly its own last 256 KiB |
| PtySessions.PtySession.NothingIsForgottenWhileShort | server.ts:1324-1351 | In every valid state of a shell that has printed at most 256 KiB the ring starts at 0: every new client is replayed everything and every cursor up to the end is continued without a reset |
| PtySessions.PtySession.ScrollbackFrom | server.ts:1354-1366 | The chunks concatenate to exactly the stream from the cursor on, for every cursor before, inside or after the ring |
| PtySessions.PtySession.ClearPendingPtyOutput | server.ts:1932-1939 | Nothing waits and the current flush timer is cancelled |
| PtySessions.PtySession.ArmPtyDetach | server.ts:1941-1953 | Exactly one new timer for the full grace period replaces the previous one |
| PtySessions.PtySession.DetachPtyConsumer | server.ts:1955-1960 | Only the attached socket is detached, with an empty queue and a new grace period; any other socket changes nothing |
| PtySessions.PtySession.EvictSlowPtyConsumer | server.ts:1962-1972 | The same, and the socket is closed with code 1013 |
| PtySessions.PtySession.FlushPtyOutput | server.ts:1974-1990 | The whole queue goes out as one frame of 1 to 16384 bytes; if it does not, the socket is no longer open or its send threw, and it is closed as too slow exactly if the frame would pass 512 KiB |
| PtySessions.PtySession.SendOrDrop | server.ts:1982-1989 | An open consumer gets the frame or is dropped, and a steady one is dropped only when its socket is no longer open |
| PtySessions.PtySession.QueuePtyOutput | server.ts:1992-2021 | While attached and open, bytes handed over plus bytes waiting grow by exactly the data; fewer than 16384 wait, and only with a flush timer armed |
| PtySessions.PtySession.FillFrames | server.ts:1995-2014 | The slicing loop conserves the bytes in order and leaves less than one frame waiting |
| PtySessions.PtySession.ReplayPtyOutput | server.ts:2026-2061 | A replay starts at the client's cursor if the ring still reaches it and at the ring otherwise, resets exactly then, and makes the socket exact for every kind of client, unless its greeting was lost to a send that threw; and with an empty transport buffer it never closes the socket as too slow, except when not even the greeting was sent; a steady open socket always stays attached and open |
| PtySessions.PtySession.GreetAndReplay | server.ts:2047-2061 | A cursor that the ring still reaches is continued without a reset; any other starts at the ring and is told to reset |
| PtySessions.PtySession.AdoptSession | server.ts:2175-2205 | The new socket starts at the right place and is exact exactly if it is not attached without its greeting; if it holds and has room for the greeting it stays attached and was told; the previous one is closed with code 1000 and receives nothing more, the pending reap is cancelled |
| PtySessions.PtySession.OnData | server.ts:2109-2117 | The stream grows by exactly the data, attached or not; every exact socket stays exact, an open consumer is owed exactly what waits and is dropped only if its socket is no longer open or its send threw; only full frames leave at once; every gap stays where it is |
| PtySessions.PtySession.OnFlushTimer | server.ts:2016-2019 | Any live flush timer, current or stale, keeps all of this and empties the queue into one frame; every gap stays where it is |
| PtySessions.PtySession.OnExit | server.ts:2118-2131 | A socket that was open and is not dropped by the last flush gets all that was queued and then the exit frame, unless that send fails; for an exact socket that is the whole output; it is no longer open |
| PtySessions.PtySession.SendExitAndClose | server.ts:2127-2130 | An open socket is closed after the exit frame, which comes after all it was handed, unless that send fails |
| PtySessions.PtySession.OnKill | server.ts:2156-2169 | For an exact socket that is open, handed over plus waiting is all of its output exactly if nothing waited when the kill frame came; otherwise exactly the waiting bytes are missing |
| PtySessions.PtySession.OnClose | server.ts:2227-2236 | Closing the attached socket starts a new grace period; closing any other socket changes nothing |
| PtySessions.PtySession.ClientTranscriptIsExact | server.ts:1932-2061 | In every valid state, for any sequence of exact sockets of this shell that a client used, its transcript is a piece of the shell's output ending at its cursor |
| PtySessions.PtySession.AttachedClientIsCurrent | server.ts:2172-2205 | While its socket is attached and open, the client's cursor plus the pending bytes is the end of the stream |
| PtyServers.PtyServer.AttachedOrReaping | server.ts:1941-1972 | A registered session is attached with no detach timer, or detached with exactly one |
| PtyServers.PtyServer.HandlePtyConnection | server.ts:2207-2225 | A connection adopts the shell registered under its thread or registers a new one; a healthy socket ends up attached, started and greeted as its cursor asks, the previous one closed with code 1000; no other shell changes |
| PtyServers.PtyServer.OnShellData | server.ts:2109-2117 | Output of any shell, registered or superseded, keeps the whole server valid |
| PtyServers.PtyServer.OnShellExit | server.ts:2118-2131 | The exit of a shell removes exactly itself from the registry, and nothing if another shell is registered; an open socket that the last flush does not drop gets all that was queued and then the exit frame, and is closed with code 1000, unless that send fails |
| PtyServers.PtyServer.OnKillMessage | server.ts:2142-2170 | A kill frame removes exactly the shell now registered under the thread, whichever socket of the thread sent it, so also one that was superseded |
| PtyServers.PtyServer.OnSocketClose | server.ts:2227-2236 | The close of a superseded socket leaves the session now registered, and all timers, unchanged |
| PtyServers.PtyServer.OnDetachTimer | server.ts:1943-1952 | A shell is reaped by timer exactly if it is the registered one, and then it has been detached for the full grace period |
| PtyServers.PtyServer.Elapse | server.ts:1941-1953 | Time may pass at any moment without touching any session |
| PtyServers.PtyServer.TransportChanges | server.ts:1974-1990 | The loss of a transport at any moment keeps the server valid |
| PtyServers.PtyServer.HandlerKeepsValid | server.ts:2107-2237 | A handler that touches one shell, its sockets and its own timer keeps every other shell valid |
| BrowserLabels.OwnerPrefixesAreDisjoint | src-tauri/src/browser.rs:120-139 | Whatever is named under one valid window's owner prefix lies under no other valid window's |
| BrowserLabels.WindowsAreIsolated | src-tauri/src/browser.rs:120-139 | Labels of different valid windows differ, and neither owner prefix is a prefix of what the other can name |
| BrowserLabels.MainWindowLabelIsDashSafe | src-tauri/src/main_window.rs:58-80 | A valid main-window label has no two adjacent dashes and does not end in one |
| BrowserLabels.MainWindowLabelsExactly | src-tauri/src/main_window.rs:58-80 | The valid labels are exactly the primary one and those of the prefix and one to 64 letters, digits, underscores and dashes, dashes alone and inside only, no underscore at an end |
| BrowserLabels.SafeLabelsExactly | src-tauri/src/browser.rs:106-118 | A client label is the prefix and the first 64 safe characters of the input, or the word default if it has none; short safe labels are kept as they are |
| BrowserLabels.FilterKeeps | src-tauri/src/browser.rs:108-112 | Exactly the safe characters are kept |
| BrowserLabels.FilterAppend | src-tauri/src/browser.rs:108-112 | In their order |
| BrowserLabels.NativeLabelsAreDistinct | src-tauri/src/browser.rs:124-129 | A native label tells its window and its client label |
| BrowserLabels.DashesWouldCollide | src-tauri/src/main_window.rs:58-80 | A label with two dashes, which is not valid, would collide |
| BrowserOrder.NewestCommandDecides | src-tauri/src/browser_state.rs:185-395 | Per label, in any order of arrival and whatever happens to other labels: the revision is that of the newest command for the label exactly if no scope command on its own prefix overtook it; then a navigate, close or scope command fixes the effective visibility, a navigate also URL and bounds, and a close leaves no navigation |
| BrowserOrder.RunToNewest | src-tauri/src/browser_state.rs:185-395 | At the end of every run the label, or the barrier, is as its newest command left it, or nothing of that command is left, exactly if it was overtaken |
| BrowserOrder.OrderDoesNotMatter | src-tauri/src/browser_state.rs:185-395 | Two arrivals of the same commands agree on the label whenever its newest command is decisive and the newest on its own prefix |
| BrowserOrder.NewestWins | src-tauri/src/browser_state.rs:199-207 | A recorded command that is newer than all the state says of the label holds |
| BrowserOrder.NewestIsRecorded | src-tauri/src/browser_state.rs:341-347 | It is recorded exactly if no newer barrier is on its own prefix |
| BrowserOrder.OlderChangesNothing | src-tauri/src/browser_state.rs:334-395 | After it no older command, and none of another label, changes what it decided |
| BrowserOrder.BarrierIsLost | src-tauri/src/browser_state.rs:334-357 | Unless one on its prefix that exempts the label replaces the barrier that was all it left |
| BrowserOrder.ExemptingScopeDropsOlder | src-tauri/src/browser_state.rs:341-347 | Concrete runs of a scope command that is overtaken by one that exempts the label |
| BrowserOrder.HideDependsOnOrder | src-tauri/src/browser_state.rs:256-282 | Concrete runs: with a label hide as the newest command the outcome depends on the order |
| BrowserOrder.HideDecidesUnlessClosed | src-tauri/src/browser_state.rs:256-332 | Exactly when, at the end of every run: the label is hidden if it was not closed when the hide arrived, or if the newest barrier over it at the end is newer than that close and hides |
| BrowserOrder.ClosedIsReopenedExactlyBy | src-tauri/src/browser_state.rs:301-395 | After any commands with distinct sequences, exactly which next commands take the effective visibility out of closed, by their sequence against the label and the barriers |
| BrowserOrder.StoredCloseIsOverwrittenExactlyBy | src-tauri/src/browser_state.rs:359-395 | Exactly which commands overwrite the stored close |
| BrowserOrder.ScopeHideReopens | src-tauri/src/browser_state.rs:379-386 | Concrete run: a later scope hide makes a closed label hidden |
| BrowserOrder.NavigationSurvivesExactlyIf | src-tauri/src/browser_state.rs:209-395 | At the end of every run the label's navigation is that of a given command exactly if its sequence was current when it arrived and no recorded navigate or close of the label came after it |
| BrowserOrder.BoundsCanSuppressNavigation | src-tauri/src/browser_state.rs:235-254 | Concrete runs: a bounds command that overtakes its navigate suppresses it |
| BrowserLifecycles.BrowserLifecycle.LatestScopeBarrier | src-tauri/src/browser_state.rs:185-197 | The barrier found covers the label and none that covers it is newer; none is found only if none covers it; of several as new it is the last in the order of the keys |
| BrowserIntents.NewestIsLastOfEquals | src-tauri/src/browser_state.rs:185-197 | Of covering barriers with the highest sequence the one found is the last in the order of the keys |
| BrowserLifecycles.BrowserLifecycle.CommandSequenceIsCurrent | src-tauri/src/browser_state.rs:199-207 | True exactly if no covering barrier and no recorded sequence of the label is newer |
| BrowserLifecycles.BrowserLifecycle.EffectiveBrowserIntent | src-tauri/src/browser_state.rs:301-332 | The effective intent of the label under a newest covering barrier |
| BrowserLifecycles.BrowserLifecycle.RecordNavigationIntent | src-tauri/src/browser_state.rs:209-233 | The state becomes what the command model says, and the result is whether to reconcile |
| BrowserLifecycles.BrowserLifecycle.RecordBoundsIntent | src-tauri/src/browser_state.rs:235-254 | The same for bounds |
| BrowserLifecycles.BrowserLifecycle.RecordVisibilityIntent | src-tauri/src/browser_state.rs:256-282 | The same for hide and close |
| BrowserLifecycles.BrowserLifecycle.RecordReloadIntent | src-tauri/src/browser_state.rs:284-299 | The same for reload |
| BrowserIntents.AsksForAPassExactly | src-tauri/src/browser_state.rs:235-299 | A recorded bounds command asks for a pass exactly if the label is or becomes open, a reload exactly if it is kept, and every other recorded command does |
| BrowserLifecycles.BrowserLifecycle.AdvanceScopeBarrier | src-tauri/src/browser_state.rs:334-357 | The barrier of the prefix is replaced unless it is newer |
| BrowserLifecycles.BrowserLifecycle.RecordScopeIntent | src-tauri/src/browser_state.rs:359-395 | The loop over the collected labels equals the scope command on the whole state at once |
| BrowserLifecycles.BrowserLifecycle.MarkNavigationApplied | src-tauri/src/browser_reconciliation.rs:509-527 | Marks exactly the label's current navigation |
| BrowserLifecycles.BrowserLifecycle.MarkReloadApplied | src-tauri/src/browser_reconciliation.rs:529-546 | Marks exactly the label's current reload |
| BrowserLifecycles.BrowserLifecycle.ClearAppliedBrowserState | src-tauri/src/browser_reconciliation.rs:548-555 | Clears both marks of exactly this label |
| BrowserLifecycles.BrowserLifecycle.RegisterBrowserOwner | src-tauri/src/browser_state.rs:10-34 | Refused exactly for a retired window or a label of another owner |
| BrowserLifecycles.BrowserLifecycle.RemoveBrowserOwnerResources | src-tauri/src/browser_state.rs:48-86 | Removes exactly the entries under the window's prefix from every table, returns exactly the labels among them, retires the window, keeps the state clean |
| BrowserLifecycles.BrowserLifecycle.RetiredWindowOwnsNothing | src-tauri/src/browser_state.rs:48-86 | In every clean state no table has an entry under a retired window's prefix |
| BrowserLifecycles.BrowserLifecycle.OwnLabelIsFree | src-tauri/src/browser_state.rs:10-34 | In a clean state a window's own label is never owned by another window |
| BrowserLifecycles.BrowserLifecycle.LabelSectionKeepsClean | src-tauri/src/browser_commands.rs:9-18 | Recording a label of a live window keeps the state clean |
| BrowserLifecycles.BrowserLifecycle.WorkerLockForLabel | src-tauri/src/browser_reconciliation.rs:431-445 | A worker gets a lock only for a label with an owner, so a running worker re-creates nothing of a retired window |
| BrowserLifecycles.BrowserLifecycle.WorkerSignalForLabel | src-tauri/src/browser_reconciliation.rs:447-461 | The same for the wakeup signal |
| BrowserLifecycles.BrowserLifecycle.EventTrackerForLabel | src-tauri/src/browser_reconciliation.rs:463-477 | The same for the event tracker |
| BrowserCommands.CommandStaysInWindow | src-tauri/src/browser_commands.rs:20-38 | No command of one window changes the effective intent of any label of another window |
| BrowserCommands.Revalidate | src-tauri/src/browser_commands.rs:9-38 | The section that registers a label: refused exactly if the window was retired; the state stays clean |
| BrowserCommands.BrowserNavigate | src-tauri/src/browser_commands.rs:40-85 | Refused exactly if the window was retired, a URL does not parse or the bounds are not finite, and then no intent changes; otherwise recorded as a navigate of the window's own label; the state stays clean |
| BrowserCommands.BrowserSetBounds | src-tauri/src/browser_commands.rs:88-120 | The same for bounds, which have no URL to refuse |
| BrowserCommands.BrowserHide | src-tauri/src/browser_commands.rs:123-146 | The same for hide, refused exactly if the window was retired |
| BrowserCommands.BrowserClose | src-tauri/src/browser_commands.rs:174-197 | The same for close |
| BrowserCommands.BrowserReload | src-tauri/src/browser_commands.rs:258-276 | The same for reload |
| BrowserCommands.CollectScopeLabels | src-tauri/src/browser_reconciliation.rs:766-798 | Exactly the webviews and known labels in scope, or a refusal exactly if the window was retired |
| BrowserCommands.RecordScope | src-tauri/src/browser_reconciliation.rs:799-818 | Checked again under the second lock; recorded under the window's own prefix; the state stays clean |
| BrowserCommands.PaneCoversItsTabs | src-tauri/src/browser_commands.rs:199-205 | A pane's prefix covers exactly the labels that extend its own by a tab suffix; without a pane it is the whole window |
| BrowserCommands.AnySections | src-tauri/src/browser_state.rs:10-86 | Over any run of command sections, worker sections and window removals, of any windows in any order: a retired window stays retired and no table has an entry under its prefix |
| BrowserReconcile.Desktop.ReconcileBrowser | src-tauri/src/browser_reconciliation.rs:576-697 | From any recorded state and whatever commands arrive, in any order of sequences: if the mark was right and no command slipped past the compared revisions, Ok means that the webview is as the newest intent asks with its navigation and reload done and marked; a quiet pass that is Ok has that exactly if the mark was right or the label is closed; with no native failure and an owner it is Ok unless at least 16 commands changed what it looks at, and it gives up only after 16 turns; every native call directly follows the look that allows it; without an owner nothing happens; never the missing-bounds error; no other webview changes |
| BrowserReconcile.Desktop.OneTurn | src-tauri/src/browser_reconciliation.rs:586-692 | The same for one turn of the loop; a turn is repeated only if a command changed what it looks at |
| BrowserReconcile.Desktop.Turns | src-tauri/src/browser_reconciliation.rs:586-697 | At most 16 turns, each of which but a last one that returns took at least one such command |
| BrowserReconcile.Desktop.ReadAgain | src-tauri/src/browser_reconciliation.rs:652-657 | Another look finds the snapshot's revision and what it wanted unless a command came between that changed them |
| BrowserReconcile.Desktop.ReconcileAfter | src-tauri/src/browser_reconciliation.rs:576-697 | After any commands in any order a quiet pass that is Ok brings the webview to what the label's intent asks after all of them exactly if they left the mark right or the label closed |
| BrowserReconcile.Desktop.constructor | src-tauri/src/browser_reconciliation.rs:576-580 | An empty state has the invariants of a pass, whatever webviews exist |
| BrowserReconcile.Desktop.ApplyClosed | src-tauri/src/browser_reconciliation.rs:595-600 | Ends without a webview and without marks, or with a webview that is out of sight because its native close failed |
| BrowserReconcile.Desktop.ApplyNavigation | src-tauri/src/browser_reconciliation.rs:601-673 | Ends with the webview at the snapshot's URL, shown or hidden as asked, navigation and reload marked, if the mark was right and nothing slipped; or superseded, never without a newer command; or failed |
| BrowserReconcile.Desktop.LoadNavigation | src-tauri/src/browser_reconciliation.rs:619-649 | Ends with a webview at the navigation's URL, and the navigation marked while the revision stays |
| BrowserReconcile.Desktop.Expose | src-tauri/src/browser_reconciliation.rs:651-673 | Ends with the webview shown or hidden as the snapshot asks, or superseded, never without a newer command |
| BrowserReconcile.Desktop.ApplyBare | src-tauri/src/browser_reconciliation.rs:674-684 | Without a navigation an existing webview is shown or hidden as asked, and none is created |
| BrowserReconcile.Desktop.Settle | src-tauri/src/browser_reconciliation.rs:686-692 | The last look accepts only a webview that is as that look asks |
| BrowserReconcile.Desktop.NavigationIsCurrent | src-tauri/src/browser_reconciliation.rs:495-507 | With no command that changes what is looked at the navigation stays current |
| BrowserRequests.ApplyKeepsBounds | src-tauri/src/browser_state.rs:209-299 | In every order of commands a label with a navigation, or asked to be visible, has bounds |
| BrowserRequests.MarkStaysRightExactly | src-tauri/src/browser_state.rs:209-233 | In any order of commands, a mark on an applied navigation turns wrong exactly if its sequence is used again for another URL |
| BrowserRequests.AnyOrderKeepsMark | src-tauri/src/browser_state.rs:209-395 | Any commands in any order that do not use the marked sequence keep the mark right |
| BrowserRequests.WrongIsNotSettled | src-tauri/src/browser_reconciliation.rs:619-649 | A webview at another URL than the marked one is not as asked, unless the label is closed |
| BrowserRequests.LabelCommandAsks | src-tauri/src/browser_state.rs:209-299 | What is wanted after a recorded command on the label, in terms of the look before it |
| BrowserRequests.LabelCommandSlipsExactly | src-tauri/src/browser_reconciliation.rs:686-692 | A label command changes what is wanted without raising the revision exactly if it reuses the sequence of the revision and asks for something else than is wanted |
| BrowserRequests.ScopeCommandAsks | src-tauri/src/browser_state.rs:334-395 | What is wanted of a label in scope after a scope command, in terms of the look and the sequences before it: through the barrier if it is the newest and newer than the label's visibility, through the label if it was collected and holds nothing newer |
| BrowserRequests.ScopeCommandSlipsExactly | src-tauri/src/browser_state.rs:334-395 | A scope command slips exactly if the label is in its scope, its sequence is not above the revision and it asks for something else than is wanted, or the label is exempt and the barrier it replaces made the difference |
| BrowserRequests.ScopeCommandIsUnnoticed | src-tauri/src/browser_state.rs:334-395 | The same by outcome, for any sequence of the command |
| BrowserRequests.NewerSlipsExactlyByLifting | src-tauri/src/browser_state.rs:334-395 | A command newer than the revision slips exactly if it exempts the label and lifts a barrier that made the difference |
| BrowserRequests.CommandDrifts | src-tauri/src/browser_state.rs:301-332 | Any other command: the revision does not fall, what is wanted changes only with it, and a navigation that stays keeps its marks |
| BrowserRequests.DriftsThen | src-tauri/src/browser_state.rs:301-332 | So do any number of them |
| BrowserPasses.StepKeepsSound | src-tauri/src/browser_reconciliation.rs:586-692 | Every atomic step of a pass keeps every mark and every snapshot right about its URL, and the webview as the next step expects it |
| BrowserPasses.StepKeepsFresh | src-tauri/src/browser_reconciliation.rs:586-692 | While nothing else is wanted, every step keeps the snapshot what is wanted, and a pass that returns Ok leaves the webview as asked with its navigation and reload done |
| BrowserPasses.StepKeepsWanted | src-tauri/src/browser_reconciliation.rs:509-545 | No step of a pass changes what is wanted |
| BrowserPasses.ChangesAreNoticed | src-tauri/src/browser_reconciliation.rs:607-692 | Whatever is recorded between two steps: a webview is created or sent only if its navigation is still current, a loaded one placed and a pass ended only if the revision is still the same; otherwise the turn ends with nothing touched |
| BrowserPasses.PassesEnd | src-tauri/src/browser_reconciliation.rs:586-697 | Every step brings a pass nearer to its end; it gives up only in its sixteenth turn, and succeeds only by a look that finds the snapshot's revision or no such label |
| BrowserPasses.UndisturbedPassSettles | src-tauri/src/browser_reconciliation.rs:586-692 | From every sound state an undisturbed turn returns Ok and leaves the webview as asked |
| BrowserPasses.FailuresTouchOnlyTheClosing | src-tauri/src/browser_reconciliation.rs:595-599 | A failed call changes nothing but the sight of a webview that could not be closed |
| BrowserPasses.TracesStayRightExactly | src-tauri/src/browser_state.rs:209-233 | A command makes a mark or a pass in progress wrong about a URL exactly if it uses the marked sequence, or that of the snapshot being loaded, for another URL |
| BrowserPasses.NewerNeverRepeats | src-tauri/src/browser_state.rs:209-233 | A sequence above the label's own never does |
| BrowserConvergence.ConvergesAtRest | src-tauri/src/browser_reconciliation.rs:576-819 | Over every interleaving of commands with their two lock sections, schedulers, workers and the single steps of their passes, with or without errors: unless a request was stolen, a command missed the label or a sequence was used for two URLs, at rest nothing else has been wanted since the newest pass started, and if it succeeded the webview is as the newest intent asks with its navigation and reload done |
| BrowserConvergence.AtomicRetirementConverges | src-tauri/src/browser_reconciliation.rs:755-759 | With the three last operations of a worker as one step no request is stolen |
| BrowserConvergence.LabelCommandsMissNothing | src-tauri/src/browser_commands.rs:72-83 | A label command that is recorded without asking for a pass changes nothing that is wanted |
| BrowserConvergence.ScopeMissesExactly | src-tauri/src/browser_reconciliation.rs:766-819 | A scope command misses a label it did not collect exactly if the label takes another visibility from the new barrier, or is exempt and takes another one because the older barrier is lifted |
| BrowserFailingRuns.AScopeCommandCanMiss | src-tauri/src/browser_reconciliation.rs:774-817 | A run for every label and pane: a tab opens and is shown between the two lock sections of a pane's hide, and stays shown at rest though it should be hidden |
| BrowserFailingRuns.ALiftedBarrierIsMissed | src-tauri/src/browser_reconciliation.rs:799-817 | A newer scope command that exempts a tab makes it visible again and asks for no pass over it |
| BrowserFailingRuns.AReusedSequenceIsNotLoaded | src-tauri/src/browser_reconciliation.rs:608-649 | A run with nothing lost: a navigation to another URL under the applied sequence is recorded and scheduled, its pass returns Ok, and at rest the webview is still at the first URL |
| BrowserFailingRuns.AStolenRequestIsLost | src-tauri/src/browser_reconciliation.rs:755-759 | A run for every label: a retiring worker takes the flag of a hide from a worker that has passed, and at rest the webview is shown though it should be hidden |
| BrowserFailingRuns.AnOlderHideSlips | src-tauri/src/browser_state.rs:359-395 | A hide older than the label's latest sequence hides it at the same revision, and asks for another pass |
| BrowserFailingRuns.APassCanMissAnOlderHide | src-tauri/src/browser_reconciliation.rs:686-692 | A run in which that hide arrives before the last look of a pass, which returns Ok with the webview shown |
| BrowserWakeup.EveryStepKeepsOneOwner | src-tauri/src/browser_reconciliation.rs:699-763 | After every atomic step `running` is set exactly if one worker owns reconciliation |
| BrowserWakeup.OnlyStealsLose | src-tauri/src/browser_reconciliation.rs:755-759 | A step leaves every request due to be seen exactly if it is not a retiring worker taking the dirty flag from an owner that has read the intents |
| BrowserWakeup.RunsWithoutStealsLoseNothing | src-tauri/src/browser_reconciliation.rs:699-763 | Over every run: one owner always, and without such a step nothing is lost |
| BrowserWakeup.EveryStepKeepsWatched | src-tauri/src/browser_reconciliation.rs:699-763 | A set dirty flag keeps somebody who will act on it |
| BrowserWakeup.DirtyIsAlwaysWatched | src-tauri/src/browser_reconciliation.rs:699-763 | Over every run, with steals: the dirty flag is never up with nobody left to see it, and at rest both flags are down |
| BrowserWakeup.AtomicRetirementLosesNothing | src-tauri/src/browser_reconciliation.rs:755-759 | With the three last operations as one step, every run that has come to rest has started a reconcile after the last request |
| BrowserWakeup.ARequestCanBeLost | src-tauri/src/browser_reconciliation.rs:755-759 | A concrete run of the code as it is that comes to rest with a request nobody saw |
| BrowserWakeup.EnvironmentCallbackTimeoutRetryState.NextAction | src-tauri/src/browser_reconciliation.rs:399-417 | The newest intent is reconciled exactly if one is pending, and then the counter stays; otherwise the first timeout of a revision is retried, and the counter is of that revision |
| BrowserWakeup.GoesOnExactly | src-tauri/src/browser_reconciliation.rs:744-754 | When a pass returns, the worker goes on exactly if the dirty flag was up or the revision that timed out has its retry left; the flag is down, and a newer intent leaves the counter |
| BrowserWakeup.CounterRemembers | src-tauri/src/browser_reconciliation.rs:399-421 | After any attempts the counter holds exactly the revision that timed out in vain with nothing but timeouts of it, or with newer intents, since |
| BrowserWakeup.AnotherAttemptExactlyIf | src-tauri/src/browser_reconciliation.rs:744-754 | After any attempts another one is made exactly if a newer intent is pending, or the last one timed out and that revision has not used its retry |
| BrowserWakeup.EveryWorkerGoesOnExactlyIf | src-tauri/src/browser_reconciliation.rs:714-763 | The same at every return of a pass in every run of the flag machine, for the attempts since the worker was spawned |
| BrowserWakeup.AloneWorkerLeaves | src-tauri/src/browser_reconciliation.rs:714-763 | An undisturbed pass is the last: the worker leaves, both flags are down and every request was seen |
| BrowserWakeup.EnvironmentCallbackTimeoutRetryState.Reset | src-tauri/src/browser_reconciliation.rs:419-421 | The counter is as new |
| BrowserWakeup.TriedAtMostTwice | src-tauri/src/browser_reconciliation.rs:715-754 | Of attempts in a row that time out at one revision at most two have no newer intent pending, whatever the counter held before |
| BrowserWakeup.SurvivedAtMostOnce | src-tauri/src/browser_reconciliation.rs:742-752 | The worker goes on after at most one of them |
| ServeLease.EveryRunIsSafe | src-tauri/src/desktop_reachability.rs:906-1020 | Over every interleaving of acquirers, reclaimers, releases and crashes: at most one running process holds the lease at any time, and no step but the owner's own removes the lease of a running owner |
| ServeLease.EveryStepKeepsConsistent | src-tauri/src/desktop_reachability.rs:906-1020 | Every step keeps: a holder's record is at the path; a reclaimer past the stale check has a dead owner, and past the second read it holds the fence and the path still names that owner; running attempts keep their candidates |
| ServeLease.AtMostOneHolder | src-tauri/src/desktop_reachability.rs:955-1020 | Two running holders are the same |
| ServeLease.OnlyTheOwnerReleases | src-tauri/src/desktop_reachability.rs:85-99 | While its process runs, only the holder's own drop removes its lease |
| ServeLease.OnlyDeadOwnersAreReclaimed | src-tauri/src/desktop_reachability.rs:906-943 | A lease that is not one's own is removed only under the fence and only if its owner is dead |
| ServeLease.StaleIsDead | src-tauri/src/desktop_reachability.rs:857-882 | A record whose pid no process has belongs to no running attempt, whatever pids are reused for |
| ServeLease.StaleLeaseIsTakenOver | src-tauri/src/desktop_reachability.rs:906-1020 | An attempt that finds a dead owner's lease, and is not interfered with, holds the lease after eleven steps, and the dead owner's candidate is gone |
| ServeRelease.NamedExactlyWhileHeld | src-tauri/src/desktop_reachability.rs:85-99 | Over every run: a record is at the path only while its attempt holds the lease or after it failed to remove it, and always so while its process runs; the same for its candidate until the attempt is over |
| ServeRelease.ReleaseFreesThePath | src-tauri/src/desktop_reachability.rs:85-99 | From every consistent state an undisturbed release ends, four steps on, with the path free and the candidate gone, and nothing else changed |
| ServeRelease.ReleasedLeaseIsTaken | src-tauri/src/desktop_reachability.rs:994-1001 | An attempt that links next holds the lease |
| ServeRelease.FreeLeaseIsTaken | src-tauri/src/desktop_reachability.rs:966-1001 | A fresh attempt at a free lease holds it after one step |
| ServeRelease.ReplacementIsLeft | src-tauri/src/desktop_reachability.rs:86-97 | Whatever replaced the lease from outside is left alone by the release |
| ServeRelease.LostCandidateTakesNothing | src-tauri/src/desktop_reachability.rs:1003-1006 | An attempt whose candidate was removed from outside ends without touching the path |
| ServeRelease.GivingUpLeavesNothing | src-tauri/src/desktop_reachability.rs:1012-1015 | Giving up removes the candidate and nothing else |
| ServeRelease.StopsTryingExactlyBy | src-tauri/src/desktop_reachability.rs:993-1019 | An attempt stops trying exactly by linking a free path, at the deadline, or by an error while linking; it links again only after a poll or a reclaim |
| ServeRelease.LinksAgainExactlyAfter | src-tauri/src/desktop_reachability.rs:1009-1018 | Whatever it finds |
| ServeRelease.LinkingDecides | src-tauri/src/desktop_reachability.rs:906-1019 | An undisturbed attempt that links holds a lease that is free, or stale with no reclaimer at work, and otherwise comes back to link again with nothing changed |
| ServeRelease.StaleExactly | src-tauri/src/desktop_reachability.rs:844-863 | Stale is a record of version 1 with a possible process id and a token of one to 128 letters, digits and dashes whose process does not run |
| ServeRelease.SecondLookDecides | src-tauri/src/desktop_reachability.rs:923-951 | Under the fence the lease is removed exactly if the same owner is still named in the same file and still does not run; otherwise the fence is given back and nothing changed |
| ServeStatus.RecognisedExactly | src-tauri/src/desktop_reachability.rs:592-616 | A proxy string is taken for a backend exactly if it is, between white space, an HTTP address of that loopback host and port with any path |
| RustText.ParsesExactly | src-tauri/src/desktop_reachability.rs:621-621 | A text reads as a port exactly if it is an optional plus sign, zeros and the decimals of a number up to 65535 |
| RustText.TrimsExactly | src-tauri/src/desktop_reachability.rs:620-620 | Trimming takes off exactly the white space at both ends |
| ServeRoutes.ServeProxyTargets | src-tauri/src/desktop_reachability.rs:644-724 | The loops find exactly the targets that a declarative reading of the status has |
| ServeRoutes.WebTargets | src-tauri/src/desktop_reachability.rs:650-686 | The same for the web hosts, with the ports that have usable handlers |
| ServeRoutes.TcpTargets | src-tauri/src/desktop_reachability.rs:688-707 | A listener is protected exactly if it is not a plain HTTP or HTTPS listener of a web port; matched are exactly the served ports |
| ServeRoutes.ListenerForms | src-tauri/src/desktop_reachability.rs:626-641 | The accepted listeners are exactly four objects: HTTP or HTTPS, and not both |
| ServeRoutes.CanonicalPorts | src-tauri/src/desktop_reachability.rs:692-696 | A TCP key counts as a port exactly if it is the decimal writing of a port above zero |
| ServeRoutes.RecognisedMeansUnprotected | src-tauri/src/desktop_reachability.rs:644-724 | All routes are loopback proxies, listeners and web ports match one for one and nothing else is configured, exactly if there are targets and none is protected |
| ServeRoutes.RecognisedExactlyByFields | src-tauri/src/desktop_reachability.rs:644-724 | That is, exactly if every host ends in a port above zero that a plain listener is on, its handlers are each nothing but a proxy to a loopback address, every listener belongs to a host, and the services, funnel and foreground settings are absent or empty |
| ServeRoutes.TargetsAreRoutes | src-tauri/src/desktop_reachability.rs:672-681 | The loopback targets are exactly the backends of such handlers |
| ServeRoutes.HandlerExactly | src-tauri/src/desktop_reachability.rs:672-681 | A handler is one exactly if its only field is a proxy text that is the address |
| ServeRoutes.HostPortExactly | src-tauri/src/desktop_reachability.rs:618-623 | The port of a host |
| ServeRoutes.ListenerBelongsExactly | src-tauri/src/desktop_reachability.rs:688-701 | A listener is good exactly if it is plain and on the port of some host |
| ServeRoutes.ServeRouteOwnedByBackend | src-tauri/src/desktop_reachability.rs:727-733 | True exactly if, on the JSON fields, the status has only loopback proxies on plain listeners and no other setting, and all of them go to the backend |
| ServeRoutes.OwnedMeansOneTarget | src-tauri/src/desktop_reachability.rs:727-733 | That is, exactly if the backend is the one and only target |
| ServeRoutes.OwnedExactlyByFields | src-tauri/src/desktop_reachability.rs:727-733 | The same on the fields |
| ServeRoutes.DecideServeRepair | src-tauri/src/desktop_reachability.rs:736-779 | Stated on the JSON fields: no-op exactly if there are only loopback proxies and all go to the request; repair exactly if there are only such proxies, not all to the request, nobody is localhost, and either a packaged build asks for port 3020 or no other backend answers; the mode is one the status shows |
| ServeRoutes.ServeModeFromStatus | src-tauri/src/desktop_reachability.rs:563-589 | No mode exactly without web hosts; otherwise the port of a listener with HTTP on, then of a host not on 443, then HTTPS |
| XmlText.OnePassSuffices | src-tauri/src/desktop_reachability.rs:1319-1326 | The five replacements equal one pass character by character |
| XmlText.EscapeRoundTrips | src-tauri/src/desktop_reachability.rs:1319-1326 | Decoding the entities gives back every string (section 2.4 of XML 1.0) |
| XmlText.PredefinedEntities | src-tauri/src/desktop_reachability.rs:1319-1326 | Each of the five characters becomes its predefined entity (section 4.6 of XML 1.0) and every other stays |
| XmlText.EscapedTextIsClean | src-tauri/src/desktop_reachability.rs:1319-1326 | The output has no markup character or quote, and every ampersand in it starts one of the five entities |
| XmlText.AcceptedTextIsClean | src-tauri/src/desktop_reachability.rs:1319-1326 | So does every text that decodes |
| BoundedOperations.EveryRunCounts | src-tauri/src/discord_presence.rs:135-200 | In every interleaving of any number of calls the counter is the abandoned calls whose threads have not left plus the callers in the claim window, so it never underflows |
| BoundedOperations.EveryStepKeepsCounted | src-tauri/src/discord_presence.rs:135-200 | Every step keeps that |
| BoundedOperations.StepKeepsGood | src-tauri/src/discord_presence.rs:149-200 | On one call every step changes the counter by exactly the slots it takes up |
| BoundedOperations.SlotsAreReleasedOnce | src-tauri/src/discord_presence.rs:156-163 | A slot that was given back stays back |
| BoundedOperations.OneSideWins | src-tauri/src/discord_presence.rs:171-200 | A timeout is reported only if the thread did not finish first, and a late receive always finds a result coming |
| BoundedOperations.CallsCannotStall | src-tauri/src/discord_presence.rs:135-200 | Before a call is over there is always a next step, and every step brings it nearer to its end, seven at most |
| BoundedOperations.ReturnsWhatWasComputed | src-tauri/src/discord_presence.rs:149-196 | In every run a caller returns only what its own operation has computed |
| BoundedOperations.AllSlotsComeBack | src-tauri/src/discord_presence.rs:135-200 | When all callers have returned and all threads have left, nothing is counted |
| BoundedOperations.APanicLosesASlot | src-tauri/src/discord_presence.rs:149-166 | A concrete run: an operation that panics after it was abandoned keeps its slot |
| BoundedOperations.LostExactlyOnPanic | src-tauri/src/discord_presence.rs:149-166 | An abandoned call keeps its slot for good exactly if its operation panics |
| PresenceWorker.StrandedStaysBounded | src-tauri/src/discord_presence.rs:232-315 | In every run, however operations block, finish or panic, the counter stays between zero and the limit, and the backoff is that of the operations in vain since the last successful publish |
| PresenceWorker.OnlyQuittingEnds | src-tauri/src/discord_presence.rs:232-315 | In every run the worker is done exactly if it was told to quit: no call ends it |
| PresenceWorker.SleepsExactly | src-tauri/src/discord_presence.rs:245-314 | How long it sleeps after each outcome; a call is started exactly if a slot is to spare |
| PresenceWorker.PublishesAgain | src-tauri/src/discord_presence.rs:245-314 | Whatever happened before, with a slot to spare and an answering peer it connects and publishes, and the backoff is as at the start |
| PresenceWorker.EveryStepKeepsBounded | src-tauri/src/discord_presence.rs:232-315 | Every step keeps a slot to spare while a call is pending |
| PresenceWorker.BackoffDoubles | src-tauri/src/discord_presence.rs:219-221 | After n timeouts the delay has doubled n times, up to the ceiling |
| ProcessDrain.Host.DrainAnchoredGroup | scripts/mobile-process-ownership.ts:425-487 | A different boot id means that nothing else happens. Otherwise all members are asked with SIGTERM, every look that finds some asks those again, and SIGKILL comes only after the whole wait has passed without two empty looks in a row; stopped exactly by two such looks, escalated exactly if in the second phase, still running only after its whole wait, and a failure exactly as it was thrown; the anchor is never signalled |
| ProcessDrain.Host.WaitForEmpty | scripts/mobile-process-ownership.ts:456-471 | Looks every 20 ms and signals what it finds; true exactly at the first two empty looks in a row, false only after the deadline without them |
| ProcessDrain.Host.SignalMembers | scripts/mobile-process-ownership.ts:441-455 | Every listed member is signalled directly after a scan that still shows it, or a later scan no longer shows it; a signal that finds no process is no failure, any other is; the anchor is spared and no other signal is sent |
| ProcessDrain.Host.WaitForSupervisorExit | scripts/mobile-process-ownership.ts:1006-1029 | True exactly at the first two scans in a row without the pid, false only after the deadline without them; fails on a scan that fails or shows another process under the pid; sends nothing |
| ProcessDrain.Host.WaitForExactProcessExit | scripts/mobile-process-ownership.ts:572-587 | True exactly at the first scan that does not show the process, false only after the deadline; sends nothing |
| ProcessDrain.Host.StopSupervisor | scripts/mobile-process-ownership.ts:1053-1071 | Gone at the first scan, another process, or asked with SIGTERM and killed only after its whole wait and a scan that still shows it; true and false exactly by what the waits saw; signals nobody else |
| ProcessDrain.Host.AskRoot | scripts/mobile-process-ownership.ts:1119-1147 | The root gets SIGTERM and its whole wait; only if it is still there then is the group to be drained; if it is gone, stopped exactly if the file says so for this root and the supervisor is gone |
| ProcessDrain.Host.ReviewDrain | scripts/mobile-process-ownership.ts:1150-1158 | After a failed drain its outcome stands, unless the file says stopped and the root is gone |
| ProcessDrain.Host.FinishRoot | scripts/mobile-process-ownership.ts:1159-1182 | After an emptied group the root is killed, then the supervisor stopped, then the stop recorded; still running only if the root outstays its wait |
| ProcessDrain.Host.RecordStop | scripts/mobile-process-ownership.ts:1171-1182 | What the file holds is written back as stopped exactly if it still names the same root, supervisor and address |
| ProcessDrain.Host.StopRooted | scripts/mobile-process-ownership.ts:1119-1182 | What was observed decides the outcome, through asking, draining and finishing; the root is killed only after its group was seen empty twice |
| ProcessDrain.Host.StopRootless | scripts/mobile-process-ownership.ts:1073-1117 | The supervisor gets SIGTERM and its wait; then each reading of the file, the pause until the launch should have ended, and the last look decide the outcome |
| ProcessDrain.Host.StopOwnedProcessTree | scripts/mobile-process-ownership.ts:1031-1207 | Every signal of every stop directly follows a scan in which the target has its recorded identity, and the outcome is decided by what was observed, for any recursion depth |
| ProcessDrain.Host.ConfirmStopped | scripts/mobile-process-ownership.ts:1183-1206 | After the tree vanished, stopped exactly if the file says so and its supervisor is seen gone twice in a row within five attempts |
| ProcessLog.OwnedMembers | scripts/mobile-process-ownership.ts:411-418 | Exactly the entries of the anchor's group and session except the anchor, or a mismatch exactly if the anchor is not intact |
| ProcessLog.ValidatedAnchor | scripts/mobile-process-ownership.ts:403-409 | A mismatch exactly if the first entry with the pid has another identity, or there is none |
| ProcessLog.MemberIsJustified | scripts/mobile-process-ownership.ts:441-455 | A listed member that a later scan shows with the same identity and an intact anchor may be signalled |
| ProcessLog.SafeSignal | scripts/mobile-process-ownership.ts:446-449 | Appending a justified signal keeps every signal justified |
| ProcessOutcomes.SuccessIsFounded | scripts/mobile-process-ownership.ts:1031-1207 | Over every course of a stop: success means that the file ended up saying stopped or a supervisor it named was seen gone; with escalation also that the recorded group was seen empty twice, then its root killed, and the stop written down |
| ProcessOutcomes.SignalsReachTheirTargets | scripts/mobile-process-ownership.ts:390-455 | In every safe log the process under a signalled pid, in the scan before, has all fields but the parent of a recorded one, or of one listed earlier next to the intact root in its group and session |
| ProcessOutcomes.TakenForTheSameExactly | scripts/mobile-process-ownership.ts:390-397 | A process is taken for the recorded one exactly if only its parent may differ |
| LinuxStat.RenderedIsReadBack | scripts/mobile-process-ownership.ts:161-190 | Parsing the rendering of any well-formed record gives its pid, parent, group, session and start ticks, whatever the command name contains (proc_pid_stat(5)) |
| LinuxStat.ScanReadsRendered | scripts/mobile-process-ownership.ts:206-218 | A scan skips exactly the records that are exiting or have no group or session and reads all others |
| LinuxStat.ExitingExactly | scripts/mobile-process-ownership.ts:199-204 | A record counts as exiting exactly if its state is Z or X or its group or session is -1 |
| LinuxStat.MalformedExactly | scripts/mobile-process-ownership.ts:161-165 | Any text is malformed exactly if no closing parenthesis follows an opening one |
| LinuxStat.AcceptedIsValid | scripts/mobile-process-ownership.ts:166-190 | Whatever is read from any text has a pid, group and session above zero, safe numbers and a token of boot, pid and decimal start time |
| LinuxStat.ScanReadsOrSkips | scripts/mobile-process-ownership.ts:206-218 | A scan reads any text as a single reading does, or skips it |
| LinuxStat.SplitJoin | scripts/mobile-process-ownership.ts:168-168 | Splitting undoes joining |
| LinuxStat.TokensAreDistinct | scripts/mobile-process-ownership.ts:184-190 | Under one boot, different pids or start times have different tokens |
| LinuxStat.LastIndexOf | scripts/mobile-process-ownership.ts:162-162 | The last occurrence |
| LinuxStat.IndexOf | scripts/mobile-process-ownership.ts:163-163 | The first occurrence |
| NavigationTracker.EveryRunIsGood | src-tauri/src/browser_events.rs:37-140 | In every run at most 64 URLs are known, the active URL maps to the active generation, and every generation reported was issued before |
| NavigationTracker.ReportingKeepsGood | src-tauri/src/browser_events.rs:126-140 | Every page event keeps that |
| NavigationTracker.PassiveEventsClaimNothing | src-tauri/src/browser_events.rs:126-140 | Finish and title events change no generation |
| NavigationTracker.PendingIsClaimedOnlyByItsUrl | src-tauri/src/browser_events.rs:43-103 | While a navigation of the renderer is pending nothing changes until its URL starts, which claims it |
| NavigationTracker.RedirectsStay | src-tauri/src/browser_events.rs:116-123 | A redirect of the loading page stays in its generation |
| NavigationTracker.UserGenerationIsOther | src-tauri/src/browser_events.rs:43-67 | A navigation of the user is refused exactly while one of the renderer is pending; otherwise its generation is the one above the active one, until the numbers run out, and its marker is the earlier one exactly for the same request within two seconds |
| NavigationTracker.UserIsClaimedExactlyBy | src-tauri/src/browser_events.rs:95-115 | It becomes the active one exactly by a start of its target, or of the same route if that is allowed, within two seconds |
| NavigationTracker.UnaskedStarts | src-tauri/src/browser_events.rs:116-123 | Any other start is that of a known URL, continues the page that is loading, or is nobody's |
| NavigationTracker.ForgetsOnlyWhenFull | src-tauri/src/browser_events.rs:69-83 | A URL is forgotten only when a new one comes into a full table, which keeps only the active one |
| NavigationTracker.UserGenerationIsNew | src-tauri/src/browser_events.rs:43-67 | In every run in which the renderer's generations ascend, a generation for the user is above all that were reported before |
| NavigationTracker.BrowserEventTracker.ExpectNavigation | src-tauri/src/browser_events.rs:37-41 | Replaces what is pending and drops a user navigation |
| NavigationTracker.BrowserEventTracker.BeginUserNavigation | src-tauri/src/browser_events.rs:43-67 | Nothing while a navigation is pending, a repeated request within two seconds gets the same generation, otherwise the next one |
| NavigationTracker.BrowserEventTracker.RememberSequence | src-tauri/src/browser_events.rs:69-83 | A full table is emptied but for the active URL |
| NavigationTracker.BrowserEventTracker.Activate | src-tauri/src/browser_events.rs:85-93 | Claims the generation for the URL |
| NavigationTracker.BrowserEventTracker.ObserveNavigation | src-tauri/src/browser_events.rs:95-124 | Which generation a started page claims |
| NavigationTracker.BrowserEventTracker.SequenceForEvent | src-tauri/src/browser_events.rs:126-140 | Which generation an event reports |

## Left out

- Terminal input, resizing, `terminatePtySessions`, authentication and the upgrade handshake: no effect on the output protocol.
- A transport that is lost never opens again; calls of `close` do not fail.
- Cursors are unbounded here; the wire carries them as 64-bit floats and the client ignores unsafe integers.
- A replay cursor carries no session identity, so `PtyStream.TranscriptIsExact` speaks of one shell; `PtyStream.ContinuedIsExactIff` says what a cursor of another shell leads to.
- The flush timer handle that a full frame drops without cancelling is modelled (`liveFlush`); no bound on live timers is claimed.
- The grace period is the default of 300000 ms; the environment can override it.
- Registering and focusing main windows (`MainWindowRegistry`) and emitting events to windows: easy members.
- A pass of the worker is not interleaved with retirement as a whole; `BrowserCommands.AnySections` interleaves the sections under the lock that a pass consists of.
- The order in which a hash map is iterated over is a function of its contents here; the results use only that it does not change while the map does not.
- BrowserOrder.ClosedIsReopenedExactlyBy: for commands with distinct sequences; which of two barriers with the same sequence counts depends on the order of the keys.
- BrowserReconcile.Desktop.ReconcileBrowser: the URL of a webview is the one the worker last sent it to; where the page goes by itself is not modelled, and neither is the call that tells the event tracker what to expect.
- BrowserReconcile.Desktop.ReconcileBrowser: an Ok pass past which a command slipped promises nothing about the webview, because the code compares only revisions; `BrowserRequests.LabelCommandSlipsExactly` and `ScopeCommandSlipsExactly` say which commands slip, and `BrowserFailingRuns.APassCanMissAnOlderHide` is such a run.
- BrowserReconcile.Desktop.OneTurn: likewise.
- BrowserConvergence.ConvergesAtRest: the window is not retired meanwhile; a native call that fails has no effect, except that a webview that could not be closed has been hidden.
- BrowserConvergence.ScopeMissesExactly: no two barriers over the label have the same sequence, the new one included, because which of two counts depends on the order of the keys.
- BrowserRequests.ScopeCommandSlipsExactly: likewise; `ScopeCommandIsUnnoticed` needs it only of the barriers before the command.
- BrowserRequests.ScopeCommandAsks: likewise.
- BrowserRequests.NewerSlipsExactlyByLifting: likewise.
- Poisoned locks.
- In `BrowserWakeup` a reconcile is one read of the newest intent (in `BrowserConvergence` it is a pass), and whether it times out is free; what the worker then does is decided by the retry counter.
- Creating, writing and syncing a lease candidate is one step; tokens are never reused; a file system error is the `Fail` event; the lock file is only touched through the protocol.
- The commands that run once the lease is held, the queue of repairs, and the HTTP probe, which is the parameter `responds`.
- JSON parsing, and the order of keys, which decides only which of several HTTP ports a mode shows.
- The Discord protocol itself; whether an operation succeeds and how long it takes is free, and a sleep is recorded only by its length.
- ProcessDrain.Host.StopOwnedProcessTree: the recursion of a rootless stop has a fuel parameter, because the owner file could lose and regain its root without end; out of fuel is a result of its own, given only after the root reappeared more often than the fuel allows.
- Launching and supervising the backend, and parsing the owner file: reading it returns any record or none.
- LinuxStat.RenderedIsReadBack: texts that JavaScript reads as numbers without being decimal integers are taken as not numbers; the kernel writes none.
- The macOS process helper and its line format.
- Client v1 discovery publication, bounds arithmetic, power policy, the heap monitor, and command-line parsing: easy members, or no exclusion to prove.
