# Raptor wings: a verified model of the node daemon's core

This project models the hard parts of the Go daemon under `apps/wings` and proves what they
promise. `dafny verify dfyconfig.toml` checks all of it.

| module | models |
|---|---|
| `Envelope`, `Link`, `LinkInvariants`, `LinkReplies`, `LinkAnswers`, `LinkDrain`, `Reconnect` | the dial-home link: frames, one connection as a step relation over its goroutines, semaphores, cancel table, bounded queue and writer, and the reconnect loop around it |
| `Paths`, `Volume`, `FileManager`, `TempFiles`, `VolumeLaws`, `VolumeManager`, `VolumeAnswers` | the file manager: raw caller paths, a volume as a finite tree with the system calls made on it, every operation as a function of the tree, the manager whose methods take the daemon's steps, and when each goes through |
| `RecycleBin`, `RoundTrip`, `BinRuns`, `Conservation`, `Sandbox`, `AtomicWrites` | what the file manager guarantees: restore after any run, conservation of contents, isolation of the bin, atomic concurrent writes |
| `Keys`, `Properties`, `PropertiesTheorems`, `Ini`, `IniTheorems`, `Dotted` | the config-file mergers; `Dotted` updates nested maps on the heap, in place |
| `SftpStore`, `Installs`, `Scheduler`, `SchedulerRuns`, `SqlLiteral` | the SFTP credential store, the install tracker, the cron runner and its store over whole histories, the SQL literal printers |
| `Common`, `Text`, `Machine` | result types, Go's string functions, int64 arithmetic |

Code that changes state is a class or a method with loops, proved against a function or a
history; the theorems are then lemmas about that function, run or history. The link is a state
machine (`Link.Enabled`, `Link.Apply`, `Link.Run`): every interleaving of every input is a run.

## Where the code and a promise differ

- The envelope's header says a cancelled operation ends with `err` of code `canceled`
  (`rpc/envelope.go:22-23`). The code closes a cancelled stream with `res`, and a request cancelled
  in line with no frame. The model follows the code: `LinkReplies.NeverAnswersCanceled`,
  `LinkReplies.CancelledStreamEndsPlainly`, `LinkReplies.FinishedRepliesOnce`.
- The reply grammar `chunk*` then one terminal frame needs handlers that stop emitting before they
  return; the console's two pumps (`api/console.go:69-82`) do not. The grammar holds if and only if
  handlers do: `LinkReplies.GrammarIffHandlersJoin`, with a failing run in
  `LinkReplies.LeakedEmitterBreaksGrammar`.
- The reconnect policy holds if and only if `MinBackoff <= MaxBackoff < 2^62` ns:
  `Reconnect.PolicyIff`; `Reconnect.PolicyFails` names two configurations outside.
- Restore resolves the recorded path from text twice, trimming it each time. It is exact if and
  only if the last name has no trailing white space and the parent, trimmed, is still a directory:
  `RecycleBin.RestoreIff`, `BinRuns.RoundTripOverRuns`. Otherwise the entry lands elsewhere, a
  stray directory is made, or the restore fails, as for `/dir /x` in a volume that two requests
  make: `BinRuns.BlankIsReached`, `BinRuns.RestoreGoesAstray`.
- A deletion whose sidecar cannot be written discards the payload (`filesystem.go:570-577`).
  `Conservation.OpConserves` counts exactly what is lost, `Conservation.TrashKeepsIff` says when
  nothing is, and `Conservation.SidecarLoss` loses a file.
- `.raptor-trash/../x` passes the guard, which cleans the text, while the kernel walks the raw path.
  So `Read`, `Open` and `Mkdir` tell whether a bin exists if and only if the raw path passes through
  it on its way out: `Sandbox.ReadBlindIff`, `Sandbox.MkdirBlindIff`, and for that very path
  `Sandbox.ThroughBin` and `Sandbox.BinIsNoticed`. Nothing in it is ever shown or changed.
- The properties merge is idempotent if and only if no kept line ends in a lone carriage return
  before another line: `PropertiesTheorems.MergeTwiceIff`, with a failing file in
  `PropertiesTheorems.StrayExample`.
- The order of dotted keys is immaterial if and only if no key's path is a prefix of another's:
  `Dotted.OrderFreeIff`; `Dotted.OrderShows` for `a` and `a.b`.
- The script timeout is right for 106751 steps and wrong for one more (`Scheduler.ScriptTimeout`,
  `Scheduler.BudgetOverflows`); the exact condition at every length is `Scheduler.TimeoutIff`.
- Storing a schedule's outcome without a reload keeps runner and store in agreement if and only if
  no definition the runner sees changes: `Scheduler.PutWithoutReload`. A fire that began before an
  edit parts them: `Scheduler.StaleFireDisagrees`, `Scheduler.StaleFireExample`.
- Runner and store agree over every history in which no change went unloaded
  (`SchedulerRuns.RunnerAgrees`). After a change whose reload failed they agree if and only if the
  store still runs what was last loaded (`SchedulerRuns.RunnerAgreesIff`, with a history that does
  not in `SchedulerRuns.UnloadedEdit`), and the next fire undoes the change
  (`SchedulerRuns.FireUndoesUnloaded`).
- A PostgreSQL literal also continues after white space with a newline and another quote (section
  4.1.2.1 of its documentation), and a `--` comment counts as white space (section 4.1.5). So its
  round trip needs that the text after it is no such continuation: `SqlLiteral.PgRoundTripIff`,
  with two that are in `SqlLiteral.PgProlonged` and `SqlLiteral.PgProlongedByComment`.

## Hypotheses

- Request ids are not reused on a connection (`Link.DistinctIds`), where the reply grammar and the
  exact cancel table are claimed; every other link invariant holds without it. In the drain a
  running handler can always return.
- Random names (temporary files, bin ids, SFTP usernames) are fresh, SHA-256 has no collisions and
  the wall clock does not go back.
- The volume has no symbolic links and only the file manager writes sidecars. `SecureJoin`,
  `OpenInRoot`, `MkdirAll` and the system calls behave as documented.
- A scheduler edit does not overlap a running fire; when it does, `Scheduler.PutWithoutReload` says
  what follows.

## Model

| member | source | states |
|---|---|---|
| LinkInvariants.InvStep | apps/wings/internal/link/client.go:172-308 | every step of every goroutine, of the read and write loops and of the panel keeps all invariants of slots, table, queue, log and request lives, with no assumption on the panel |
| LinkInvariants.InvRun | apps/wings/internal/link/client.go:129-170 | the invariants hold in every state any run reaches |
| LinkInvariants.QueueStep | apps/wings/internal/link/client.go:257-277 | the queue stays a bounded FIFO window of everything queued, and the socket has carried what left it, minus unencodable frames and the one being written |
| LinkInvariants.TableExactRun | apps/wings/internal/link/client.go:223-229 | without id reuse the cancel table is, over any run, exactly the requests not yet in cleanup |
| LinkReplies.RepliesAreWellFormed | apps/wings/internal/link/client.go:216-277 | in every reachable state each id has `chunk*` and at most one terminal frame with nothing after it, in the queue and on the socket, all frames valid, unary ids without chunks |
| LinkReplies.GrammarIffHandlersJoin | apps/wings/internal/link/stream.go:10-15 | that grammar holds over all runs if and only if every streaming handler stops emitting before it returns |
| LinkReplies.LeakedEmitterBreaksGrammar | apps/wings/internal/link/stream.go:49-72 | a handler that returns while something it started can still emit has a run in which a chunk follows the result |
| LinkReplies.FinishedRepliesOnce | apps/wings/internal/link/client.go:226-254 | a finished request, panicking ones included, queued exactly one terminal frame, unless it gave up in line (no frame; a cancel frame had reached its own context or the connection was done) or the connection was done when it sent; what that frame says is `LinkAnswers.UnaryAnswers`, `StreamAnswers` and `PanicAnswers` |
| LinkReplies.Accounting | apps/wings/internal/link/client.go:149-154 | slots taken equal the goroutines between acquire and release and never exceed the pools; the table is exact |
| LinkReplies.CancelAlwaysLands | apps/wings/internal/link/client.go:193-203 | whatever pools and queue hold, a cancel frame is read and marks its own request only, and a queued request can then leave without a frame |
| LinkReplies.NeverAnswersCanceled | apps/wings/internal/rpc/envelope.go:22-23 | no frame the daemon queues carries the documented code `canceled`; only `bad_request` and `internal` occur, on every `err` frame |
| LinkReplies.CancelledStreamEndsPlainly | apps/wings/internal/link/stream.go:62-72 | over any continuation without a panic the only terminal frame a cancelled stream queues is the plain `res`, whatever its handler returns; once finished it has queued exactly that one, unless the connection was done |
| LinkReplies.CancelledWhileRunning | apps/wings/internal/link/stream.go:63-67 | the same for any stream that is cancelled while its handler is running or emitting |
| LinkReplies.WireFollowsQueue | apps/wings/internal/link/client.go:257-277 | the socket carries a prefix of the encodable frames of a prefix of the queue order |
| LinkReplies.WireRepliesOk | apps/wings/internal/link/client.go:262-275 | so the reply grammar carries over from the queue to the socket |
| LinkAnswers.UnaryAnswers | apps/wings/internal/link/client.go:242-253 | over every run, a unary request whose dispatch has ended queues one frame at most, and exactly one once it has finished as replied: a result with the answer as its payload, `bad_request` for a payload that does not parse, `internal` for an answer that cannot be encoded, each with its text |
| LinkAnswers.StreamAnswers | apps/wings/internal/link/stream.go:62-72 | over every run the only terminal frame of a stream is the error its handler returned, with its text, or the plain result if it returned none or was cancelled by then; it is queued exactly once when the request finishes as replied |
| LinkAnswers.PanicAnswers | apps/wings/internal/link/client.go:227-233 | over every run the only terminal frame of a request that panics is an internal error with the panic's text |
| LinkAnswers.ChunksCarryEmits | apps/wings/internal/link/stream.go:49-60 | over every run the chunks of a request are the payloads of the emit calls that were let through, in the order of the calls, under the id of the request |
| LinkAnswers.EmitMoves | apps/wings/internal/link/stream.go:54-59 | after each emit, let through or dropped, the handler runs on; a dropped one queues nothing |
| LinkAnswers.FrameSpawns | apps/wings/internal/link/client.go:193-208 | a request frame with id and op registers and spawns one request, of the kind its op has; frames of other kinds than request and cancel do nothing |
| LinkAnswers.Admission | apps/wings/internal/link/client.go:149-154 | a waiting request gets in if and only if its own pool has a slot free, and a frame or heartbeat is queued if and only if fewer than 64 wait |
| LinkAnswers.RequestGetsAnswered | apps/wings/internal/link/client.go:216-254 | from every state of the invariants with a slot free and the writer alive, whatever else goes on, a unary request can be answered in ten steps, and all it has then queued is its answer |
| LinkAnswers.StreamGetsServed | apps/wings/internal/link/stream.go:20-72 | likewise a stream: everything its handler emits, in order, then its result or error |
| LinkAnswers.PanicGetsReported | apps/wings/internal/link/stream.go:31-37 | likewise a request whose handler panics after any number of chunks |
| Envelope.ValidIff | apps/wings/internal/rpc/envelope.go:100-122 | which frames pass the structural check |
| LinkDrain.StepMeasure | apps/wings/internal/link/client.go:235-254 | every internal step lowers the measure, an input raises it by at most 14 |
| LinkDrain.RunsAreBounded | apps/wings/internal/link/client.go:146-170 | a run from any state has at most the measure plus 15 steps per input |
| LinkDrain.StuckOnlyIfDrained | apps/wings/internal/link/client.go:303-308 | once the connection is done, some internal step is enabled until everything is drained: no wait is left unguarded |
| LinkDrain.DrainsByItself | apps/wings/internal/link/client.go:166-169 | from any state of a done connection, internal steps alone reach no live goroutine, empty table and empty semaphores within the measure |
| Reconnect.BackoffIsCapped | apps/wings/internal/link/client.go:115-122 | after k unstable sessions in a row the backoff is min(MinBackoff * 2^k, MaxBackoff) in int64 arithmetic |
| Reconnect.CapTooLarge | apps/wings/internal/link/client.go:121 | with a cap of 2^62 or more enough unstable sessions make the delay negative |
| Reconnect.PolicyIff | apps/wings/internal/link/client.go:94-124 | every delay follows the documented policy for all session outcomes if and only if min <= max < 2^62 |
| Reconnect.PolicyFails | apps/wings/internal/link/client.go:70-75 | two configurations that defaulting accepts and the policy fails for |
| Reconnect.ServeForever | apps/wings/internal/link/client.go:96-124 | the loop waits exactly those delays, the shortest one after every stable session |
| Paths.SecureJoin | apps/wings/internal/filesystem/filesystem.go:131-133 | the guard's component walk on text ends at the root joined with the lexically cleaned path |
| Paths.CleaningCancels | apps/wings/internal/filesystem/filesystem.go:131-133 | what cleaning means: a name followed by `..` leaves no trace wherever it stands, and neither do an empty component, a dot, or a `..` at the root |
| Paths.TextCancels | apps/wings/internal/filesystem/filesystem.go:131-133 | the same on text: `x/n/../y`, `x/./y` and `x//y` clean to what `x/y` cleans to, so the guard joins the root with the same path |
| Paths.DetoursVanish | apps/wings/internal/filesystem/filesystem.go:131-133 | the same for caller strings, trimming included, and `/../y` names what `/y` names |
| Paths.ResolveIsClean | apps/wings/internal/filesystem/filesystem.go:131-133 | for every caller string the result is below the root with no `.`, `..`, empty or slashed component |
| Paths.CleanTextIdempotent | apps/wings/internal/filesystem/saferoot_linux.go:48 | cleaning twice is cleaning once |
| Paths.OperationNamesResolved | apps/wings/internal/filesystem/saferoot_linux.go:47-57 | for every caller string, `splitParent` names exactly the path the guard resolved, and refuses exactly the root |
| Paths.WithinTrashIsInTrash | apps/wings/internal/filesystem/filesystem.go:190-193 | the prefix test on absolute text is exactly being the bin or inside it; siblings with a longer name are not caught |
| Volume.WalkNamesResolved | apps/wings/internal/filesystem/saferoot_linux.go:30-37 | an open of the raw path that succeeds opened what cleaning names |
| Volume.MkdirAllAdds | apps/wings/internal/filesystem/saferoot_linux.go:40-42 | mkdir -p makes its target a directory, adds only directories on the way to it and changes nothing |
| Volume.MoveAt | apps/wings/internal/filesystem/saferoot_linux.go:148 | after a rename each path reads as the corresponding path of the moved subtree, or as before |
| Volume.MoveKeeps | apps/wings/internal/filesystem/saferoot_linux.go:125-149 | a rename the kernel allows keeps the tree well-formed |
| FileManager.ExtOfLeaf | apps/wings/internal/filesystem/filesystem.go:685-686 | the extension taken from the absolute path is that of the last component |
| FileManager.RelPathRenders | apps/wings/internal/filesystem/filesystem.go:176-182 | relPath inverts joining under the root |
| FileManager.Guarded | apps/wings/internal/filesystem/filesystem.go:139-151 | the guards on absolute paths decide root and bin as the components do |
| FileManager.PayloadPath | apps/wings/internal/filesystem/filesystem.go:672 | the payload path the daemon writes out is read back as the payload of that entry, for every valid id |
| FileManager.EntryPath | apps/wings/internal/filesystem/filesystem.go:547-549 | the entry path the daemon writes out is read back as that entry |
| TempFiles.FileAlone | apps/wings/internal/filesystem/saferoot_linux.go:116-120 | unlinking a file takes away that entry alone and keeps the tree well-formed |
| TempFiles.TmpCommitted | apps/wings/internal/filesystem/saferoot_linux.go:101-114 | renaming it over the target sets exactly the target; only a directory there refuses |
| VolumeLaws.ApplyKeeps | apps/wings/internal/filesystem/filesystem.go:324-677 | every operation on every input keeps the tree well-formed and every sidecar naming an entry |
| VolumeAnswers.ReadIs | apps/wings/internal/filesystem/filesystem.go:282-320 | what reading and opening a plain path answer in every volume: the contents, too large above 2 MiB, a directory, a missing path, a path below a file, or one in the bin |
| VolumeAnswers.ListedIs | apps/wings/internal/filesystem/filesystem.go:223-278 | a listing shows exactly the names directly under the directory, directories as directories and files as files, without the bin at the root; and each error case |
| VolumeAnswers.WrittenIff | apps/wings/internal/filesystem/filesystem.go:155-172 | a write goes through if and only if the parent is a directory, the temporary name is free, the content arrives whole and the target is no directory outside root and bin; it then sets the target alone, and otherwise nothing changes |
| VolumeAnswers.WrittenReadsBack | apps/wings/internal/filesystem/filesystem.go:282-333 | a file reads back as it was written, or is refused as too large |
| VolumeAnswers.MkdirAllIff | apps/wings/internal/filesystem/saferoot_linux.go:40-42 | mkdir -p of a raw path goes through if and only if no step of its walk meets a file and nothing is to be created before a `..` |
| VolumeAnswers.MadeDirIff | apps/wings/internal/filesystem/filesystem.go:336-352 | so mkdir does, outside root and bin; its target is then a directory, entries are as they were, and only directories above the target are new |
| VolumeAnswers.RenamedIff | apps/wings/internal/filesystem/filesystem.go:356-386 | a rename goes through if and only if neither path is the root or in the bin, the source exists, the destination is free, its parent is a directory and it does not lie in the source; and how it is refused otherwise |
| VolumeAnswers.TrashRefused | apps/wings/internal/filesystem/filesystem.go:523-551 | how a deletion is refused, with the volume as it was |
| VolumeAnswers.TrashLeaves | apps/wings/internal/filesystem/filesystem.go:546-579 | a deletion leaves the subtree under `payload` of its entry and its name, path and time in `meta.json` |
| VolumeAnswers.SuffixedIs | apps/wings/internal/filesystem/filesystem.go:685-693 | the suffix of a restored name goes before its last dot, or at the end of a name without one |
| VolumeAnswers.SuffixReads | apps/wings/internal/filesystem/filesystem.go:687-697 | the suffixes are ` (restored)` and then ` (restored N)` with N in decimal |
| Text.DecimalReads | apps/wings/internal/filesystem/filesystem.go:690 | a decimal numeral reads back as its number and has no zero in front |
| VolumeAnswers.RestoreRefused | apps/wings/internal/filesystem/filesystem.go:644-660 | which ids restore refuses, and what a missing payload answers |
| VolumeAnswers.RestoreRemakesParent | apps/wings/internal/filesystem/filesystem.go:640-677 | when the directories above the original path are gone and no file is in the way, restore makes them anew and puts the payload exactly there |
| VolumeManager.Manager.ResolvePath | apps/wings/internal/filesystem/filesystem.go:131-133 | the guard's absolute path, and that comparing it as text decides root and bin |
| VolumeManager.Manager.CheckWriteTarget | apps/wings/internal/filesystem/filesystem.go:139-151 | refuses exactly the root and the bin |
| VolumeManager.Manager.List | apps/wings/internal/filesystem/filesystem.go:223-278 | the entries directly under a directory with their kinds, without the bin at the root, and each error case |
| VolumeManager.Manager.Read | apps/wings/internal/filesystem/filesystem.go:282-320 | the contents of a file of at most 2 MiB reached by the raw path, and each error case |
| VolumeManager.Manager.Open | apps/wings/internal/filesystem/filesystem.go:391-420 | the same without the size limit |
| VolumeManager.Manager.StartWriteInRoot | apps/wings/internal/filesystem/saferoot_linux.go:76-99 | creates exactly one empty temporary file beside the target, or fails and changes nothing |
| VolumeManager.Manager.Commit | apps/wings/internal/filesystem/saferoot_linux.go:101-114 | from any state with the temporary file in place, the target takes over all of its contents, or is a directory and stays one; the temporary name is given up and no other path changes |
| VolumeManager.Manager.Abort | apps/wings/internal/filesystem/saferoot_linux.go:116-120 | from any such state the temporary name is given up and no other path changes |
| VolumeManager.Manager.AtomicWrite | apps/wings/internal/filesystem/filesystem.go:155-172 | the steps together set exactly the target to all of the content or change nothing, in every failure case; no temporary file survives |
| VolumeManager.Manager.Write | apps/wings/internal/filesystem/filesystem.go:324-333 | the same for a caller's content |
| VolumeManager.Manager.Mkdir | apps/wings/internal/filesystem/filesystem.go:336-352 | mkdir -p of the raw path outside root and bin |
| VolumeManager.Manager.RenameInRoot | apps/wings/internal/filesystem/saferoot_linux.go:125-149 | the rename between the resolved paths, or nothing |
| VolumeManager.Manager.Rename | apps/wings/internal/filesystem/filesystem.go:356-386 | the steps compute the rename that `VolumeAnswers.RenamedIff` and `Conservation.RenameOverwritesNothing` are about |
| VolumeManager.Manager.Trash | apps/wings/internal/filesystem/filesystem.go:523-580 | the step-by-step deletion, its tear-downs included, computes the function of the tree that the theorems below are about |
| VolumeManager.Manager.FindNonConflicting | apps/wings/internal/filesystem/filesystem.go:681-698 | the loop finds the first free numbered name, or the time-stamped one after 999 |
| VolumeManager.Manager.RestoreTrash | apps/wings/internal/filesystem/filesystem.go:644-677 | the step-by-step restore computes the function of the tree that the theorems below are about |
| RecycleBin.RenderedResolves | apps/wings/internal/filesystem/filesystem.go:661-673 | writing a path out and resolving it again trims its last name, and nothing else |
| RecycleBin.ParentMade | apps/wings/internal/filesystem/filesystem.go:669-671 | restore's mkdir of the parent changes nothing if and only if the trimmed parent is a directory |
| RecycleBin.PutBackMoves | apps/wings/internal/filesystem/filesystem.go:669-676 | a successful restore moves the payload to a path outside the bin where nothing was, and removes the entry |
| RecycleBin.RestoreIff | apps/wings/internal/filesystem/filesystem.go:644-677 | from any volume, restore puts the payload, whatever it is, at the recorded, free path and removes just the entry if and only if the path survives trimming |
| RecycleBin.PutBackExactly | apps/wings/internal/filesystem/filesystem.go:669-676 | at a path that survives trimming the payload lands exactly there, or nothing changes because something is there |
| RecycleBin.RestoreBeside | apps/wings/internal/filesystem/filesystem.go:679-698 | when the original path is taken the subtree lands beside it, in the same directory with the same extension, under the first free numbered name; only if even the time-stamped name is taken does the restore fail, changing nothing |
| RecycleBin.RestoreWithoutSidecar | apps/wings/internal/filesystem/filesystem.go:593-601 | an entry without a sidecar is restored at the root under its id |
| RoundTrip.TrashedIs | apps/wings/internal/filesystem/filesystem.go:523-580 | Trash succeeds exactly when the entry exists and no file blocks the bin; the resulting tree in each case, with a failing sidecar losing the payload |
| RoundTrip.PutAtUndoes | apps/wings/internal/filesystem/filesystem.go:555-578 | putting the payload back undoes the deletion of a whole subtree |
| BinRuns.OpKeepsEntry | apps/wings/internal/filesystem/filesystem.go:324-677 | every operation that does not name a bin entry, other deletions and restores included, leaves its sidecar and payload as they are |
| BinRuns.EntryOutlivesRun | apps/wings/internal/filesystem/filesystem.go:324-677 | so does every run of them |
| BinRuns.RoundTripOverRuns | apps/wings/internal/filesystem/filesystem.go:523-677 | Trash, then any run that does not name the entry and leaves the path free and its parent a directory, then RestoreTrash: exactly the deleted subtree is back, every other path is as the run left it and the entry is gone, if and only if the path survives trimming |
| BinRuns.TrashThenRestore | apps/wings/internal/filesystem/filesystem.go:640-677 | with an empty run this is the volume back, with an empty bin; names without trailing white space survive trimming |
| BinRuns.BlankIsReached | apps/wings/internal/filesystem/filesystem.go:336-352 | a mkdir and a write make a directory whose name ends in a blank |
| BinRuns.RestoreGoesAstray | apps/wings/internal/filesystem/filesystem.go:661-673 | there a deletion followed by a restore does not give the volume back |
| Conservation.RenameOverwritesNothing | apps/wings/internal/filesystem/filesystem.go:354-386 | a rename that succeeds finds the whole subtree at a path where nothing was, leaves every other entry as it was and adds nothing; one that fails changes nothing |
| Conservation.RestoreOverwritesNothing | apps/wings/internal/filesystem/filesystem.go:640-698 | restore leaves every entry outside the restored one as it was, on every input, and lands the payload whole where nothing was |
| Conservation.OpConserves | apps/wings/internal/filesystem/filesystem.go:546-579 | for every content, each operation changes the number of user files holding it exactly by what a write adds and replaces and a sidecar failure loses |
| Conservation.RunConserves | apps/wings/internal/filesystem/filesystem.go:324-677 | the same law over any run of writes, mkdirs, renames, deletions and restores |
| Conservation.TrashKeepsIff | apps/wings/internal/filesystem/filesystem.go:570-577 | a deletion keeps every content if and only if its sidecar is written or the subtree holds no file |
| Conservation.SidecarLoss | apps/wings/internal/filesystem/filesystem.go:575-578 | a file deleted while its sidecar cannot be written is held nowhere any more |
| Sandbox.BrowsingLeavesBin | apps/wings/internal/filesystem/filesystem.go:187-193 | write, mkdir and rename leave the bin as it is, on every input |
| Sandbox.ListedAlike | apps/wings/internal/filesystem/filesystem.go:223-278 | listings do not depend on the bin |
| Sandbox.WrittenAlike | apps/wings/internal/filesystem/filesystem.go:324-333 | outcome and visible effect of a write do not depend on the bin |
| Sandbox.RenamedAlike | apps/wings/internal/filesystem/filesystem.go:356-386 | outcome and visible effect of a rename do not depend on the bin |
| Sandbox.ReadBlindIff | apps/wings/internal/filesystem/filesystem.go:282-320 | read and open give the same answer on all volumes that differ only in the bin if and only if the raw path stays out of it or ends in it |
| Sandbox.MkdirBlindIff | apps/wings/internal/filesystem/filesystem.go:336-352 | likewise mkdir, which is also blind when it refuses its target |
| Sandbox.ThroughBin | apps/wings/internal/filesystem/filesystem.go:294-297 | `.raptor-trash/../x` passes the guard as `/x`, and its raw walk passes through the bin |
| Sandbox.BinIsNoticed | apps/wings/internal/filesystem/filesystem.go:297-303 | two volumes that differ only in the bin answer read, open and mkdir of that path differently |
| Sandbox.SessionsAreBlind | apps/wings/internal/filesystem/filesystem.go:187-420 | over whole sessions of such requests the bin is neither observed nor changed |
| AtomicWrites.WritesAreLinear | apps/wings/internal/filesystem/filesystem.go:155-172 | in every interleaving of any number of writers, one access to the volume at a time (open the parent, create, write, rename, unlink), the returned writes are a sequence of whole writes with the same answers, and the volume reads as after it everywhere but at live temporary files |
| AtomicWrites.SequentialReads | apps/wings/internal/filesystem/filesystem.go:322-324 | after such a sequence each path holds what it held at first or all that one successful write brought |
| AtomicWrites.TargetsAreWhole | apps/wings/internal/filesystem/saferoot_linux.go:101-114 | so at every moment no path reads as a mixture |
| AtomicWrites.NothingLeftBehind | apps/wings/internal/filesystem/saferoot_linux.go:116-120 | once all have returned, however they ended, no temporary file is left and no other path has changed |
| AtomicWrites.EachWriteReturns | apps/wings/internal/filesystem/filesystem.go:155-172 | from every moment of every interleaving each write can return by at most five accesses of its own, answering what the same write alone would answer at that point |
| AtomicWrites.EachWriteCanFail | apps/wings/internal/filesystem/filesystem.go:167-170 | a write whose source gives out returns in two accesses with that error |
| Keys.SortedKeys | apps/wings/internal/server/config.go:84-91 | the keys in ascending order, each once |
| Keys.SortedUnique | apps/wings/internal/server/config.go:84-91 | there is only one such list |
| Keys.LessAt | apps/wings/internal/server/config.go:84-91 | the order of the keys is that of the first character in which they differ, a proper prefix first |
| Properties.RewriteLines | apps/wings/internal/server/config.go:96-112 | the loop overwrites exactly the entry lines of replaced keys, in place, and notes exactly those keys |
| Properties.AppendMissing | apps/wings/internal/server/config.go:113-121 | one line per missing key, in sorted order |
| Properties.MergeProperties | apps/wings/internal/server/config.go:95-123 | the loops together compute the merged text the theorems below are about |
| PropertiesTheorems.MergedEntries | apps/wings/internal/server/config.go:93-123 | reading the output gives the old entries overridden, then the missing keys in order |
| PropertiesTheorems.MergeOverrides | apps/wings/internal/server/config.go:93-123 | a replaced key carries only its new value, every other key exactly its old values |
| PropertiesTheorems.LinesStay | apps/wings/internal/server/config.go:93-106 | comments, blanks and unrelated lines stay at their place, less a final carriage return before another line |
| PropertiesTheorems.LineReads | apps/wings/internal/server/config.go:98-107 | a line with blanks around its key is an entry of the bare key with the trimmed value, unless its first visible character is `#` or `!` |
| PropertiesTheorems.LinesReplaced | apps/wings/internal/server/config.go:108-121 | each entry line of a replaced key becomes exactly `key=value` at its place, and a key without a line gets exactly that line after the old ones |
| PropertiesTheorems.MergeTwiceIff | apps/wings/internal/server/config.go:95-123 | merging twice is merging once if and only if no kept line ends in a stray carriage return |
| PropertiesTheorems.StrayExample | apps/wings/internal/server/config.go:96 | a file with two carriage returns before a newline changes again on the second merge |
| Ini.ParseText | apps/wings/internal/server/config.go:128-151 | the loop builds the parsed file and keeps order and table in step |
| Ini.SetEntry | apps/wings/internal/server/config.go:152-164 | replaces the first occurrence of the key, or appends, opening the section if needed |
| Ini.MergeINI | apps/wings/internal/server/config.go:127-185 | the loops together compute the merged text that `IniTheorems.MergeByText` and `MergeTwice` are about |
| Ini.Emit | apps/wings/internal/server/config.go:172-184 | prints the non-empty sections in order |
| IniTheorems.PlainIff | apps/wings/internal/server/config.go:132-150 | the exact condition under which a `key=value` line reads back as that entry |
| IniTheorems.ParsedIsPlain | apps/wings/internal/server/config.go:145-150 | whatever was read as an entry prints as a line that reads as the same entry |
| IniTheorems.ParsePrint | apps/wings/internal/server/config.go:172-184 | parsing the output gives the file in memory without its empty sections, in first-appearance order |
| IniTheorems.MergeOverrides | apps/wings/internal/server/config.go:152-171 | a replaced key has its new value at its first occurrence, every other value of every key and section is unchanged |
| IniTheorems.NamedBy | apps/wings/internal/server/config.go:165-170 | a text names key `k` of section `s` if and only if it is `s.k` with no dot in `s`, or, for the global section, `k` without a dot |
| IniTheorems.DecidedBy | apps/wings/internal/server/config.go:152-171 | which text decides about a key; of `.k` and `k`, both naming a global key, the later one in sorted order |
| IniTheorems.MergeByText | apps/wings/internal/server/config.go:127-185 | on the text of the keys: a key that `s.k` or `k` replaces has the value given with that text in place of its first one and keeps the others; a key no text names keeps all its values |
| IniTheorems.MergeKeepsOrder | apps/wings/internal/server/config.go:152-184 | sections and the keys in them stay in order, new ones come last, and sections without entries disappear |
| IniTheorems.MergeTwice | apps/wings/internal/server/config.go:127-185 | merging twice is byte for byte merging once |
| IniTheorems.Determined | apps/wings/internal/server/config.go:146-149 | a section is determined by its keys in order and the values of each |
| Dotted.SetDotted | apps/wings/internal/server/config.go:231-245 | the in-place walk keeps the maps a tree without sharing and changes the reading of exactly the named path, what is below it and what leads to it |
| Dotted.MergeJSON | apps/wings/internal/server/config.go:196-198 | after the sorted loop every path reads as after all edits |
| Dotted.ReachUnique | apps/wings/internal/server/config.go:231-245 | in such a tree no map is reached by two paths |
| Dotted.ClosedForm | apps/wings/internal/server/config.go:196-198 | for prefix-free keys each replaced path reads its value, unrelated paths read as before |
| Dotted.AnyOrder | apps/wings/internal/server/config.go:196-198 | the result is then the same for every order of the keys |
| Dotted.OrderFreeIff | apps/wings/internal/server/config.go:196-198 | the order of distinct keys is immaterial if and only if none is a prefix of another |
| Dotted.OrderShows | apps/wings/internal/server/config.go:196-198 | for `a` and `a.b` the order shows |
| Dotted.EditsAreDistinct | apps/wings/internal/server/config.go:196-197 | distinct dotted keys are distinct paths |
| Dotted.TextReads | apps/wings/internal/server/config.go:196-197 | for prefix-free keys the path named by `a.b.c` reads the value given with that text |
| SftpStore.Store.Mint | apps/wings/internal/sftp/store.go:70-94 | records the new credential as the latest event of its server, and both maps stay mutually inverse |
| SftpStore.Store.Authenticate | apps/wings/internal/sftp/store.go:98-114 | opens a server if and only if its latest event is the mint of exactly this credential and it has not expired |
| SftpStore.Store.Active | apps/wings/internal/sftp/store.go:118-131 | reports the latest credential if it has not expired |
| SftpStore.Store.Revoke | apps/wings/internal/sftp/store.go:134-140 | records the revocation |
| SftpStore.Store.RemoveLocked | apps/wings/internal/sftp/store.go:142-145 | removes both sides of one credential |
| SftpStore.Store.Sweep | apps/wings/internal/sftp/store.go:148-157 | reaps exactly the expired entries |
| SftpStore.Store.LookupMeansGranted | apps/wings/internal/sftp/store.go:98-114 | the two maps answer every login exactly as the history does |
| SftpStore.ReapingIsInvisible | apps/wings/internal/sftp/store.go:147-157 | stores with one history answer every login alike, however they were reaped |
| SftpStore.OneCredentialPerServer | apps/wings/internal/sftp/store.go:40-48 | at most one credential opens a server, and a credential opens one server |
| SftpStore.LaterEventsDecide | apps/wings/internal/sftp/store.go:69-94 | a mint or revocation ends all earlier grants of its server; other servers' events never matter |
| Installs.Manager.GetInstall | apps/wings/internal/server/server.go:80-84 | answers as the history says: nothing, a record in state `installing`, or one in state `failed` with the error of its finish |
| Installs.Manager.Register | apps/wings/internal/server/server.go:231-235 | registers a fresh record, replacing any other |
| Installs.Manager.FinishInstall | apps/wings/internal/server/server.go:89-100 | the table follows the history, in which a finish counts only for the registration still installing |
| Installs.Manager.CancelInstall | apps/wings/internal/server/server.go:103-112 | drops the record and aborts the install in flight |
| Installs.StatusStep | apps/wings/internal/server/server.go:86-112 | how each event moves the status of each server |
| Installs.DeleteIsFinal | apps/wings/internal/server/server.go:403-405 | after a delete no earlier install puts an entry back, in any interleaving |
| Installs.StaleFinishersAreIgnored | apps/wings/internal/server/server.go:86-94 | a stale finisher never changes a later record |
| Installs.FailureComesFromItsRegistration | apps/wings/internal/server/server.go:99 | a failed record is the finish of the registration it replaced, with its error, and nothing happened to the server since |
| Scheduler.Runner.Reload | apps/wings/internal/scheduler/scheduler.go:169-196 | the runner's entries are exactly the enabled stored schedules |
| Scheduler.Runner.Start | apps/wings/internal/scheduler/scheduler.go:106 | the runner agrees with the store |
| Scheduler.Runner.Upsert | apps/wings/internal/scheduler/scheduler.go:124-143 | stores exactly accepted schedules and then agrees with the store; one without id, server, steps or valid cron changes nothing |
| Scheduler.StepAccepted | apps/wings/internal/scheduler/scheduler.go:49-71 | exactly which steps a script may have |
| Scheduler.Runner.Remove | apps/wings/internal/scheduler/scheduler.go:146-151 | deletes one schedule and then agrees with the store |
| Scheduler.Runner.FireCtx | apps/wings/internal/scheduler/scheduler.go:233-255 | runs exactly the steps up to the first failure and stores the time, `ok` if and only if no step failed, and otherwise `error` with the failing step's number, type and error; agreement is kept |
| Scheduler.Runner.Tick | apps/wings/internal/scheduler/scheduler.go:179 | a cron fire runs the definition its last reload captured and stores the outcome just so, whether that definition is still current or not; if runner and store agreed, they still do and no definition changed |
| Scheduler.Runner.RunNow | apps/wings/internal/scheduler/scheduler.go:156-166 | likewise on the stored definition, for enabled and disabled schedules |
| Scheduler.FirstFailure | apps/wings/internal/scheduler/scheduler.go:235-240 | the first failing step: none before it fails and it does |
| Scheduler.RecordedIsLogged | apps/wings/internal/scheduler/scheduler.go:242-250 | the stored record says when the run was, `ok` if and only if no step failed, and otherwise `error` with the number, type and error of the first one that did |
| Scheduler.StepMeans | apps/wings/internal/scheduler/scheduler.go:258-292 | what each type of step does, and that it fails exactly as the world answers, or because it has no effect |
| Scheduler.PutWithoutReload | apps/wings/internal/scheduler/scheduler.go:251-253 | storing without a reload keeps agreement if and only if no definition the runner sees changes |
| Scheduler.StaleFireDisagrees | apps/wings/internal/scheduler/scheduler.go:231-255 | a fire whose snapshot is older than an edit parts the store from the runner |
| Scheduler.StaleFireExample | apps/wings/internal/scheduler/scheduler.go:231-255 | so it does for an accepted daily backup moved by an hour while it ran |
| SchedulerRuns.RunnerAgrees | apps/wings/internal/scheduler/scheduler.go:89-196 | over every history of start, upsert, remove, fire and run-now from an empty store, runner and store agree as long as no change went unloaded since the last reload |
| SchedulerRuns.RunnerAgreesIff | apps/wings/internal/scheduler/scheduler.go:168-173 | at every point of every history the runner holds what it last loaded, and agrees with the store if and only if the store enables just those schedules with the same definitions |
| SchedulerRuns.FireUndoesUnloaded | apps/wings/internal/scheduler/scheduler.go:139-149 | a fire puts the last loaded definition back into the store: an edit or deletion whose reload failed is undone |
| SchedulerRuns.UnloadedEdit | apps/wings/internal/scheduler/scheduler.go:139-142 | a history in which a stored edit whose reload failed leaves them apart |
| Scheduler.NoUnknownBranch | apps/wings/internal/scheduler/scheduler.go:258-292 | an accepted script never reaches the unknown-type or unknown-power branch |
| Scheduler.ScriptTimeout | apps/wings/internal/scheduler/scheduler.go:200-217 | for validated scripts of at most 106751 steps the int64 sum is the exact sum, capped at six hours, and at least one minute |
| Scheduler.TotalBounds | apps/wings/internal/scheduler/scheduler.go:201-212 | the exact sum lies between one second and one day per step above one minute |
| Scheduler.CostIs | apps/wings/internal/scheduler/scheduler.go:203-212 | a wait costs what it says, a backup half an hour, every other step half a minute |
| Scheduler.TimeoutIff | apps/wings/internal/scheduler/scheduler.go:200-217 | at any length the result is the intended one if and only if the sum fits or wraps to at least the cap |
| Scheduler.BudgetOverflows | apps/wings/internal/scheduler/scheduler.go:205 | 106752 maximal waits give a negative timeout |
| Scheduler.BudgetIsMonotone | apps/wings/internal/scheduler/scheduler.go:200-217 | appending a step never shortens the budget |
| SqlLiteral.PgRoundTripIff | apps/wings/internal/sqlbrowser/sqlbrowser.go:957-959 | a PostgreSQL lexer reads back exactly the string and stops at the continuation if and only if the continuation does not prolong the constant |
| SqlLiteral.PgProlonged | apps/wings/internal/sqlbrowser/sqlbrowser.go:957-959 | a newline and a second quoted string after the literal are read as part of it |
| SqlLiteral.PgProlongedByComment | apps/wings/internal/sqlbrowser/sqlbrowser.go:957-959 | so they are with a comment before the newline |
| SqlLiteral.MysqlTwoPasses | apps/wings/internal/sqlbrowser/sqlbrowser.go:963-966 | the two replacement passes are one character-wise escaping |
| SqlLiteral.MysqlRoundTripIff | apps/wings/internal/sqlbrowser/sqlbrowser.go:963-967 | a MySQL lexer with backslash escapes, the parser's joining of neighbouring tokens aside, reads back exactly the string if and only if the continuation starts with no single quote |

## Left out

- LinkDrain.DrainsByItself: a handler always can return, because handlers are not part of the model; the run found is finite under that hypothesis only.
- LinkReplies.LeakedEmitterBreaksGrammar: the console's two pumps are not modelled; its handler is any that is not known to stop emitting before it returns.
- LinkReplies.RepliesAreWellFormed: emits of several goroutines of one stream are taken one after another, and the heartbeat is an input.
- Link: JSON, base64, WebSocket, TLS and the HTTP replay of a dispatched request are left out; a dispatch is any outcome, and messages the read loop skips before any state changes never reach it.
- VolumeManager.Manager.List: sizes, permissions, times and the order of the listing are left out.
- VolumeManager.Manager.Read: an empty raw path opens the root; names that are not valid UTF-8 and I/O errors of opening or reading are left out.
- VolumeManager.Manager.Open: the same, and the file's times and mode.
- VolumeManager.Manager.Trash: the sidecar's type and size are left out, and of the I/O errors only that of writing the sidecar is modelled.
- VolumeManager.Manager.RestoreTrash: sidecars rewritten by the container and a failing final removal are left out; a sidecar's name is that of an entry.
- Volume: symbolic links, openat2 races and the non-Linux fallback are left out.
- AtomicWrites.WritesAreLinear: only writers interleave; directories are not moved while a write is in progress.
- Archives, permanent deletion, emptying, purging and listing the bin are left out: they would add only exceptions to conservation.
- Dotted.MergeJSON: works on a parsed document, because JSON text is left out; `coerce` is any function.
- `mergeYAML`, `mergeFile`, the switch over parsers and the file I/O around them are left out.
- Installs.Manager.Register: the overlap of two creates between check and registration is left out, as registration is its own step; the record of an install that panics stays `installing`, having no finish.
- Scheduler.Runner.FireCtx: steps answer from outside, and the context that bounds them is left out.
- SqlLiteral.MysqlRoundTripIff: the reader is the lexer alone; the parser's joining of neighbouring string tokens is left out.
- Backup, disk, Docker, firewall and download code is left out: shell-outs and client wrappers.
