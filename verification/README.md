# A model of the Common Tools Interface

The Common Tools Interface (CTI) lets debuggers and other tools launch or attach to parallel jobs, stage
files on their compute nodes and run tool daemons there. This project models the parts of it whose
correctness spans several functions or processes, and proves what they promise. Code that changes things
step by step is modelled by classes and loops, each proved against a function; what must hold over time is
proved over every run of a state machine, and the methods are proved to take its steps.

| files | part of CTI |
|---|---|
| `NodeLocks.dfy` | the lock files by which the back-end daemons on one node take turns |
| `FrontendDaemon.dfy`, `DaemonHistory.dfy`, `DaemonCauses.dfy`, `DaemonProcess.dfy` | the front-end daemon that tracks apps, utilities and MPIR launches: its steps, what they keep over every interleaving, what causes what, and the process itself |
| `Bytes.dfy`, `EnvStrings.dfy`, `Wire.dfy`, `WireChannel.dfy` | the protocol between front end and daemon, down to bytes and partial reads and writes |
| `EnvRestore.dfy` | the environment lent to an MPIR launch and put back |
| `Staging.dfy`, `SessionObjects.dfy` | sessions and manifests: what is staged, archived and found by the loader |
| `NodeFiles.dfy` | session and node together: what a tool daemon finds when it execs |
| `SshLayout.dfy`, `SshFiles.dfy` | the SSH front end's layout and pid files, and the back end that reads them |
| `SlurmLookup.dfy` | the Slurm back end's search of a layout file |
| `BinaryRanks.dfy` | the list of executables by rank |
| `FluxRanges.dfy`, `FluxPlacement.dfy` | Flux range lists and host placement |
| `Handles.dfy`, `FrontEndApi.dfy` | the ids clients hold for apps, sessions and manifests |
| `ReleaseIds.dfy` | client and daemon together: which app a release lets go of |
| `LineReader.dfy` | line-by-line reading through a fixed buffer |
| `Options.dfy`, `Pick.dfy` | optional values; choosing an element of a set |

Check everything with `dafny verify dfyconfig.toml`.

Some promises do not hold of the code as it stands. For each the model follows the code, and a lemma says
exactly when the promise is kept:

- The lock wait covers the numbers from 1 up, though the first daemon of a session has number 0 and the
  comment beside the wait speaks of all previous instances (`NodeLocks.OrderedExactly`); so a tool may miss a
  library that was shipped first (`NodeFiles.NewestAlwaysFoundExactly`).
- The maps between pids and ids stop being inverses once an app with a negative pid is forgotten
  (`DaemonHistory.InversesExactly`, `DaemonHistory.NegativePidIsStuck`).
- A failed request for an id is answered with 0, and the client looks for a number below 0; a failed check of
  an app looks like the answer no (`Wire.FailureReported`).
- A value with a second `=` or a blank in the wrong place is cut when split (`EnvStrings.SplitExactly`,
  `EnvStrings.BannedExactly`, `EnvStrings.SplitLosesEnd`, `EnvStrings.BansAnother`).
- Saved variables are put back first to last, so one that was saved twice comes back with an override in it
  (`EnvRestore.RestoredExactly`, `EnvRestore.DistinctNeeded`, `EnvRestore.TwiceOverriddenStays`).
- A manifest keeps sources by base name, so a name that is new in one folder and a duplicate in another is
  recorded and never sent (`Staging.LosesExactly`, `Staging.StraddlingIsLost`); and a file added later under the
  same name, for whatever folder, replaces the source (`Staging.ArrivesFromOwnSource`,
  `Staging.SameNameReplaces`).
- A manifest's files are recorded as sent before its package is: if the merge stops at a conflict, the package
  does not arrive or the daemon that unpacks it does not start, they are lost for good, as later manifests leave
  them out
  (`Staging.LosesExactly`, `Staging.FailedStartIsLost`, `Staging.CollisionLoses`).
- The back end finds its host by prefix and assumes that ranks are contiguous (`SshFiles.RebuiltExactly`,
  `SshFiles.GapMisleads`, `SshFiles.PrefixMisleads`); it does not cut its own name at a dot, as the front end
  does (`SshFiles.FullNameFindsNothing`).
- Flux processes are handed out in name order of hosts, not in list order
  (`FluxPlacement.LandsInOrderExactly`, `FluxPlacement.OutOfOrderSwaps`).
- A Flux range [a, b] runs from a to a + b, as the code and the examples in its placement function have it,
  not from a to b as the comment in its parser says (`FluxRanges.ParseRangeList`).
- A Flux repeat count of 2147483647, or as many equal numbers as that plus one, is past the top of a 32-bit
  integer and stands for nothing (`FluxRanges.TripleIsCopies`, `FluxRanges.RunsRoundTrip`).
- A released app stays owned by the front end for good (`Handles.ReleasedStaysOwned`). The request to release it
  carries the client's id where the daemon expects its own (`ReleaseIds.ReleasesOwnExactly`,
  `ReleaseIds.ReleaseMisses`).

## Model

| member | source | states |
|---|---|---|
| `NodeLocks.NextInv` | src/backend/daemon/cti_be_daemon.c:1163-1210 | every step of every daemon keeps: a lock file exists only if a daemon of that number has unpacked and recorded its pid exactly once, and a waiting daemon has found the lock of every number above the one it looks for |
| `NodeLocks.RunInv` | src/backend/daemon/cti_be_daemon.c:1163-1210 | the same over whole runs of any daemons with any numbers |
| `NodeLocks.ExecAfterLower` | src/backend/daemon/cti_be_daemon.c:1341-1406 | in every interleaving a tool daemon execs only after each daemon with a number from 1 to its own minus 1 has unpacked, recorded its pid once and made its lock file |
| `NodeLocks.ExecAfterEachNumber` | src/backend/daemon/cti_be_daemon.c:1341-1406 | with shared numbers too, a tool daemon execs only when each number from 1 to its own minus 1 has its lock file and a daemon of that number that has unpacked and recorded its pid |
| `NodeLocks.RunsAreBounded` | src/backend/daemon/cti_be_daemon.c:1341-1370 | every run takes at most as many steps as the work still to be done |
| `NodeLocks.QuiescentShape` | src/backend/daemon/cti_be_daemon.c:1341-1370 | where nothing more can happen, a daemon has finished, has failed, or waits for a number whose lock file does not exist |
| `NodeLocks.FinishesExactly` | src/backend/daemon/cti_be_daemon.c:1341-1406 | with failures too, a tool daemon that did not fail has exec'ed exactly when every lock file it looks for exists |
| `NodeLocks.NoDeadlock` | src/backend/daemon/cti_be_daemon.c:1341-1406 | if no daemon fails before it has its lock file and no number is skipped, then whatever fails later, a node where nothing more can happen has no daemon waiting: each has finished, or itself failed |
| `NodeLocks.OrderedExactly` | src/backend/daemon/cti_be_daemon.c:1344-1348 | the exec of daemon d can happen before daemon e has unpacked exactly when e is not among 1..d-1: number 0, the first a session hands out, is never waited for |
| `FrontendDaemon.NextInv` | src/frontend/daemon/cti_fe_daemon.cpp:146-344 | every step of main thread, SIGCHLD handler and erasure threads, wherever the others are, keeps: pids and ids point at each other, utilities belong to registered apps or to the one being deregistered, the cleanup list holds registered pids |
| `FrontendDaemon.RunInv` | src/frontend/daemon/cti_fe_daemon.cpp:146-344 | so does every interleaving |
| `DaemonHistory.NextAccounted` | src/frontend/daemon/cti_fe_daemon.cpp:92-142 | each step changes the tables and the log together: what leaves a table is logged as signalled, exited, terminated or let go |
| `DaemonHistory.RunLedger` | src/frontend/daemon/cti_fe_daemon.cpp:92-142 | over every run the tables are exactly what the log adds up to |
| `DaemonHistory.UtilitiesConserved` | src/frontend/daemon/cti_fe_daemon.cpp:92-142 | for the latest registration of each app and utility, either it is still tracked with that signal and was not signalled since, or it was sent exactly that signal exactly once since |
| `DaemonHistory.AppsConserved` | src/frontend/daemon/cti_fe_daemon.cpp:207-344 | a launcher put on the cleanup list is still on it, or left it once, by exit, termination or release |
| `DaemonHistory.ShutdownClears` | src/frontend/daemon/cti_fe_daemon.cpp:1533-1548 | from every state that has left the request loop and for every order of the two clearing threads and the scheduled erasures: once all are through, nothing is tracked |
| `DaemonCauses.NothingLeftBehind` | src/frontend/daemon/cti_fe_daemon.cpp:1533-1548 | after every run that ends in a shutdown, in whatever order its threads ran: every utility has been sent its latest signal once, every launcher has left the cleanup list once, and one that neither exited before nor was released left it by being sent a signal |
| `DaemonCauses.EntryHasCause` | src/frontend/daemon/cti_fe_daemon.cpp:207-344 | over every run each entry of the log was made by an event that accounts for it: a launcher is let go only by the release of its app, leaves as exited only by its own exit while the daemon serves, and is sent a signal only by a deregistration or the end |
| `DaemonCauses.TakenOnIsRecorded` | src/frontend/daemon/cti_fe_daemon.cpp:256-290 | and over every run each utility registered, launcher watched and MPIR instance taken on or given up has its entry |
| `DaemonCauses.DepartsExactly` | src/frontend/daemon/cti_fe_daemon.cpp:207-344 | a launcher leaves the cleanup list by exactly those events, and the record says by which |
| `DaemonCauses.LeftForAReason` | src/frontend/daemon/cti_fe_daemon.cpp:207-344 | over every run a launcher that is off the list left it once since it was last put there, by an event after that which accounts for how it left |
| `DaemonCauses.ExitLeavesList` | src/frontend/daemon/cti_fe_daemon.cpp:207-227 | while the daemon serves, an exit takes exactly that process off the cleanup list; once it has stopped serving, none |
| `DaemonCauses.ExitSignalsUtilities` | src/frontend/daemon/cti_fe_daemon.cpp:229-239 | after the exit of a registered launcher, whatever follows except more registrations for its app: once the erasure is through, none of its utilities is tracked and each has been sent its latest signal once |
| `DaemonCauses.NeverSignalledEarly` | src/frontend/daemon/cti_fe_daemon.cpp:207-344 | over every run, before the utilities of an app are signalled the app was released or deregistered, its launcher exited, or the daemon was ending |
| `DaemonHistory.ShutdownFinishes` | src/frontend/daemon/cti_fe_daemon.cpp:1533-1548 | and from every such state there is a way to that end |
| `DaemonHistory.MpirEndsOnce` | src/frontend/daemon/cti_fe_daemon.cpp:865-922 | a release, wait or terminate that succeeds is for an id a launch or attach issued, and nothing succeeds on that id afterwards, reads included |
| `DaemonHistory.IdsNeverReused` | src/frontend/daemon/cti_fe_daemon.cpp:146-157 | an id keeps its pid while it is registered and is never registered again |
| `DaemonHistory.LateErasureStaysHome` | src/frontend/daemon/cti_fe_daemon.cpp:207-239 | however long after the exit it runs, the handler's erasure touches only the app that was seen to exit |
| `DaemonHistory.InversesExactly` | src/frontend/daemon/cti_fe_daemon.cpp:258-344 | the maps from pid to id and back are mutual inverses at the end of a run exactly when the run never forgot an app with a negative pid |
| `DaemonHistory.NegativePidIsStuck` | src/frontend/daemon/cti_fe_daemon.cpp:258-302 | a run after which they are not, and after whose every continuation the pid is still refused |
| `DaemonHistory.ReachableTables` | src/frontend/daemon/cti_fe_daemon.cpp:146-157 | in every reachable state positive pids and ids point at each other, utilities belong to registered apps or to the one being deregistered, and the cleanup list holds registered pids |
| `DaemonProcess.Daemon.AddApp` | src/frontend/daemon/cti_fe_daemon.cpp:258-275 | refuses a non-zero pid that has an id, and otherwise gives a new one; one step of the state machine |
| `DaemonProcess.Daemon.RegisterAppPid` | src/frontend/daemon/cti_fe_daemon.cpp:258-275 | an id is given exactly when the pid was free, and it was never in use |
| `DaemonProcess.Daemon.RegisterUtilPid` | src/frontend/daemon/cti_fe_daemon.cpp:277-290 | one step of the state machine, and whether it was accepted |
| `DaemonProcess.Daemon.EraseUtils` | src/frontend/daemon/cti_fe_daemon.cpp:104-130 | every process of the set is signalled once with its own signal |
| `DaemonProcess.Daemon.ForgetApp` | src/frontend/daemon/cti_fe_daemon.cpp:298-302 | removes the id, and the pid only if it is positive |
| `DaemonProcess.Daemon.TakeOffCleanup` | src/frontend/daemon/cti_fe_daemon.cpp:308-315 | removes a pid from the cleanup list and says whether it was there |
| `DaemonProcess.Daemon.UnlinkApp` | src/frontend/daemon/cti_fe_daemon.cpp:292-306 | the first half of a deregistration is one step |
| `DaemonProcess.Daemon.TerminateUnlinked` | src/frontend/daemon/cti_fe_daemon.cpp:308-318 | one step: the launcher is off the cleanup list, and was sent a signal exactly if it was on it |
| `DaemonProcess.Daemon.JoinErasure` | src/frontend/daemon/cti_fe_daemon.cpp:317-318 | one step, once the erasure is through |
| `DaemonProcess.Daemon.DeregisterApp` | src/frontend/daemon/cti_fe_daemon.cpp:292-322 | a whole deregistration, with any erasures pending, is a run after which the app, its launcher and its utilities are all untracked; refused exactly for an unknown id |
| `DaemonProcess.Daemon.ReleaseApp` | src/frontend/daemon/cti_fe_daemon.cpp:324-344 | one step: the app is let go, its launcher without a signal, and its utilities are signalled |
| `DaemonProcess.Daemon.SigchldHandler` | src/frontend/daemon/cti_fe_daemon.cpp:207-239 | one step: while the daemon serves, exactly that process leaves the cleanup list, and an erasure of its app's utilities is pending if there are any; otherwise nothing changes |
| `DaemonProcess.Daemon.RunErasure` | src/frontend/daemon/cti_fe_daemon.cpp:233-237 | one step for a pending erasure |
| `DaemonProcess.Daemon.ExtractMpir` | src/frontend/daemon/cti_fe_daemon.cpp:718-746 | one step: the launcher is registered, and held only if its table could be read |
| `DaemonProcess.Daemon.LaunchUnderMpir` | src/frontend/daemon/cti_fe_daemon.cpp:828-836 | one step: registered, and held and to be watched only if its table could be read |
| `DaemonProcess.Daemon.PutOnCleanup` | src/frontend/daemon/cti_fe_daemon.cpp:837-840 | one step: the launcher of a launch goes on the cleanup list |
| `DaemonProcess.Daemon.GiveUpMpir` | src/frontend/daemon/cti_fe_daemon.cpp:865-922 | succeeds exactly when the id was held and is given up by this; an instance that cannot be killed stays held |
| `DaemonProcess.Daemon.ReadStringMpir` | src/frontend/daemon/cti_fe_daemon.cpp:901-909 | succeeds exactly for an id that is held and can be read, and changes no table |
| `DaemonProcess.Daemon.StopServing` | src/frontend/daemon/cti_fe_daemon.cpp:1506-1508 | one step |
| `DaemonProcess.Daemon.ClearSet` | src/frontend/daemon/cti_fe_daemon.cpp:1533-1536 | one step: every process of one utility set is signalled |
| `DaemonProcess.Daemon.ClearList` | src/frontend/daemon/cti_fe_daemon.cpp:1538-1541 | one step: every launcher on the cleanup list is sent its signal, and the list is empty |
| `DaemonProcess.Daemon.Shutdown` | src/frontend/daemon/cti_fe_daemon.cpp:1533-1548 | the clearing threads and the scheduled erasures take turns in any order, and at the end nothing is tracked |
| `EnvStrings.SplitExactly` | src/useful/cti_split.hpp:70-87 | a name and value are split apart intact exactly when the value has no second delimiter or what follows it is one token without white space |
| `EnvStrings.SplitLosesEnd` | src/useful/cti_split.hpp:70-87 | a variable set to "b=c d" loses the end of its value |
| `EnvStrings.BannedExactly` | src/frontend/daemon/cti_fe_daemon.cpp:505-510 | the blacklist entry written for a variable bans that variable exactly when its name has no white space after an underscore |
| `EnvStrings.BansAnother` | src/frontend/daemon/cti_fe_daemon.cpp:505-510 | the entry for the variable "A_B C" bans another one |
| `EnvStrings.TokenExactly` | src/useful/cti_split.hpp:80-84 | reading a token keeps a string exactly when it has no white space |
| `EnvStrings.TokenParts` | src/useful/cti_split.hpp:80-84 | a token is the first stretch of a string without white space |
| `Bytes.LittleEndianRoundTrip` | src/frontend/daemon/cti_fe_daemon_iface.hpp:60-68 | fixed-width integers come back |
| `Bytes.LittleEndianAt` | src/frontend/daemon/cti_fe_daemon_iface.hpp:60-68 | each byte of a fixed-width integer is the digit to base 256 of its place, lowest first |
| `Bytes.Int32RoundTrip` | src/frontend/daemon/cti_fe_daemon_iface.hpp:60-68 | so do signed 32-bit integers, negative ones included |
| `Bytes.StringsRoundTrip` | src/frontend/daemon/cti_fe_daemon.cpp:405-411 | terminated strings come back, and reading stops right after the last |
| `Bytes.TerminatedRoundTrip` | src/frontend/daemon/cti_fe_daemon_iface.cpp:257-263 | so does one that is read byte by byte and must be terminated |
| `Bytes.DecimalRoundTrip` | src/frontend/daemon/cti_fe_daemon.cpp:491-500 | a decimal number is read back, unless it does not fit 32 bits |
| `Wire.LaunchRoundTrip` | src/frontend/daemon/cti_fe_daemon_iface.cpp:31-128 | launch data decodes to the path, arguments and environment that were sent |
| `Wire.KeptExactly` | src/frontend/daemon/cti_fe_daemon.cpp:502-516 | a variable is kept, unchanged and as often as it was sent, exactly when it does not begin with the blacklist tag |
| `Wire.OneVariable` | src/frontend/daemon/cti_fe_daemon.cpp:505-515 | one variable is kept as it is, or bans the name in it, by whether it begins with the tag |
| `Wire.SortedByPieces` | src/frontend/daemon/cti_fe_daemon.cpp:502-516 | an environment is sorted piece by piece, so that what is kept and what is banned stay in order |
| `Wire.EncodersAgree` | src/SSHSession/SSHSession.cpp:730-772 | the SSH encoder and the socket encoder decode to the same launch |
| `Wire.RequestRoundTrip` | src/frontend/daemon/cti_fe_daemon_iface.cpp:382-533 | for every request, whatever follows it, the daemon reads exactly that request and stops at its last byte |
| `Wire.FieldsArrive` | src/frontend/daemon/cti_fe_daemon.cpp:1055-1294 | for every request, each field the daemon acts on is the one the client sent |
| `Wire.TableRoundTrip` | src/frontend/daemon/cti_fe_daemon.cpp:600-641 | a process table comes back entry by entry |
| `Wire.MpirReplyRoundTrip` | src/frontend/daemon/cti_fe_daemon_iface.cpp:205-272 | so does a whole MPIR reply, or the error message in its place |
| `Wire.ReplyRoundTrip` | src/frontend/daemon/cti_fe_daemon_iface.cpp:130-272 | for every kind of reply and every way a handler can end, the reader learns that and stops at the last byte |
| `Wire.OtherKindRefused` | src/frontend/daemon/cti_fe_daemon_iface.cpp:130-272 | a reply of one kind is never taken for one of another |
| `Wire.FailureReported` | src/frontend/daemon/cti_fe_daemon_iface.cpp:130-272 | for every request and every way its handler ends: a call whose handler threw raises unless it awaits an id, checks an app, runs a utility to its end or shuts down; no raises where the caller insists on an OK; and what a handler returned is what the caller gets |
| `Wire.Conversation` | src/frontend/daemon/cti_fe_daemon.cpp:1427-1515 | over every list of requests the daemon sees exactly those, sends one reply each of the kind awaited, and both streams are consumed |
| `Wire.ConversationAt` | src/frontend/daemon/cti_fe_daemon.cpp:1427-1515 | in a conversation each request is seen as it was sent and answered by its own handler |
| `Wire.SameKind` | src/frontend/daemon/cti_fe_daemon.cpp:1055-1294 | every handler answers with the kind of reply its caller reads |
| `WireChannel.Channel.ReadLoop` | src/frontend/daemon/cti_fe_daemon_iface.hpp:22-36 | however reads are cut up, the buffer gets the next bytes in order, short only at the end of the stream |
| `WireChannel.Channel.WriteLoop` | src/frontend/daemon/cti_fe_daemon_iface.hpp:80-92 | however writes are cut up, all bytes are written in order |
| `WireChannel.Channel.ReadExactly` | src/frontend/daemon/cti_fe_daemon_iface.hpp:38-58 | all the bytes asked for, or an error at the end of the stream |
| `WireChannel.Channel.ReadUnsigned` | src/frontend/daemon/cti_fe_daemon_iface.hpp:60-68 | agrees with the decoder on every stream |
| `WireChannel.Channel.ReadInt32` | src/frontend/daemon/cti_fe_daemon_iface.hpp:60-68 | agrees with the decoder on every stream |
| `WireChannel.Channel.ReadString` | src/frontend/daemon/cti_fe_daemon.cpp:404-411 | agrees with the decoder on every stream |
| `WireChannel.Channel.ReadTerminated` | src/frontend/daemon/cti_fe_daemon_iface.cpp:257-263 | agrees with the decoder on every stream: a string cut off by its end is an error |
| `WireChannel.Channel.ReadStrings` | src/frontend/daemon/cti_fe_daemon.cpp:400-521 | agrees with the decoder on every stream |
| `WireChannel.Channel.ReadLaunchData` | src/frontend/daemon/cti_fe_daemon.cpp:400-521 | agrees with the decoder on every stream, with or without the byte that carries the descriptors |
| `WireChannel.Channel.WriteLaunchData` | src/frontend/daemon/cti_fe_daemon_iface.cpp:31-128 | appends exactly the encoding |
| `WireChannel.Channel.WriteRequest` | src/frontend/daemon/cti_fe_daemon_iface.cpp:382-533 | appends exactly the encoding of the request |
| `WireChannel.Channel.ReadRequest` | src/frontend/daemon/cti_fe_daemon.cpp:1427-1515 | reads what the decoder would, and leaves the rest |
| `WireChannel.Channel.ReadBody` | src/frontend/daemon/cti_fe_daemon.cpp:1055-1294 | reads what the decoder would, for every request type |
| `WireChannel.Channel.WriteTable` | src/frontend/daemon/cti_fe_daemon.cpp:600-641 | appends exactly the encoding of the table |
| `WireChannel.Channel.WriteReply` | src/frontend/daemon/cti_fe_daemon.cpp:522-641 | appends exactly the encoding of the reply |
| `WireChannel.Channel.ReadProc` | src/frontend/daemon/cti_fe_daemon_iface.cpp:252-265 | reads what the decoder would |
| `WireChannel.Channel.ReadTable` | src/frontend/daemon/cti_fe_daemon_iface.cpp:205-272 | reads what the decoder would |
| `WireChannel.Channel.ReadMpir` | src/frontend/daemon/cti_fe_daemon_iface.cpp:205-272 | reads what the decoder would, table or error |
| `WireChannel.Channel.ReadReply` | src/frontend/daemon/cti_fe_daemon_iface.cpp:130-272 | reads what the decoder would, for every kind of reply |
| `WireChannel.SortEnv` | src/frontend/daemon/cti_fe_daemon.cpp:502-516 | separates variables from blacklist entries, each in order |
| `WireChannel.Exchanged` | src/frontend/daemon/cti_fe_daemon_iface.hpp:22-128 | one exchange over channels that fragment as they like: both sides learn exactly what the other sent, and both channels are empty |
| `WireChannel.Conversed` | src/frontend/daemon/cti_fe_daemon_iface.hpp:22-128 | the same for any number of exchanges, each as if it were the only one |
| `EnvRestore.Environment.Override` | src/frontend/daemon/cti_fe_daemon.cpp:777-791 | saves every variable before setting it, in order |
| `EnvRestore.Environment.Strip` | src/frontend/daemon/cti_fe_daemon.cpp:793-799 | saves and removes the blacklisted variables that are set |
| `EnvRestore.Environment.Restore` | src/frontend/daemon/cti_fe_daemon.cpp:765-773 | puts saved variables back, first saved first |
| `EnvRestore.Environment.LaunchMpir` | src/frontend/daemon/cti_fe_daemon.cpp:757-799 | what the launcher inherits, variable by variable, and that the environment is back when the names are distinct |
| `EnvRestore.InheritedVars` | src/frontend/daemon/cti_fe_daemon.cpp:777-799 | the launcher has no banned variable, the last override of any other, and the old value of the rest |
| `EnvRestore.VarAfterLaunch` | src/frontend/daemon/cti_fe_daemon.cpp:757-799 | one variable comes back exactly when it was not overridden, or what was last saved of it is what it held |
| `EnvRestore.RestoredExactly` | src/frontend/daemon/cti_fe_daemon.cpp:757-799 | the environment after a launch is the one before exactly when every overridden variable recovers |
| `EnvRestore.DistinctRestores` | src/frontend/daemon/cti_fe_daemon.cpp:757-799 | it comes back for every environment when no name is overridden twice or both overridden and banned |
| `EnvRestore.DistinctNeeded` | src/frontend/daemon/cti_fe_daemon.cpp:757-799 | and only then does it come back for every environment |
| `EnvRestore.TwiceOverriddenStays` | src/frontend/daemon/cti_fe_daemon.cpp:757-799 | in an empty environment, overriding one variable twice leaves an environment that is not empty |
| `Staging.KeyInjective` | src/frontend/transfer/Session.cpp:333 | two staged files never share a key, although `lib.N` folders, base folders and names are joined into one string |
| `Staging.AddKeepsWellFormed` | src/frontend/transfer/Manifest.cpp:31-59 | every added entry has a source, and a manifest uses no library folder but its own |
| `Staging.AcceptedExactly` | src/frontend/transfer/Manifest.cpp:31-59 | a file is accepted exactly when it can be resolved and its place is free or was filled from the same path; then its entry and its source are added and nothing else changes |
| `Staging.DependencyPlacedExactly` | src/frontend/transfer/Manifest.cpp:83-113 | with nothing in the manifest's own folder, a needed library goes to `lib` exactly when it would be accepted there, and otherwise to its own folder, which comes into use exactly then |
| `Staging.DependInv` | src/frontend/transfer/Manifest.cpp:83-113 | so with the fallback, whether it succeeds or not |
| `Staging.ShipInv` | src/frontend/transfer/Session.cpp:99-208 | shipping keeps the invariant of index, log, search path and numbers |
| `Staging.NextInv` | src/frontend/transfer/Session.cpp:99-376 | so does every call and every failure |
| `Staging.RunInv` | src/frontend/transfer/Session.cpp:99-376 | so does every run |
| `Staging.SourcesNeverChange` | src/frontend/transfer/Session.cpp:342-376 | over every run nothing in the index is removed or given another source |
| `Staging.ArchivedAtMostOnce` | src/frontend/transfer/Session.cpp:174-203 | over every run a destination is in at most one archive, from the source the index records |
| `Staging.RunLoses` | src/frontend/transfer/Session.cpp:123-245 | what the index has and no unpacked archive has is exactly what merges that stop, packages that do not arrive, daemons that do not start and straddling names lost; nothing lost is sent later |
| `Staging.LosesExactly` | src/frontend/transfer/Session.cpp:123-245 | what a step loses: with the daemon started, something exactly when a name is already sent in one folder and new in another; with the daemon not started, exactly what was new; with a merge that stops, exactly what it had registered |
| `Staging.IndexMatchesArchives` | src/frontend/transfer/Session.cpp:99-246 | what the started daemons unpacked is the index exactly when no step lost anything, in particular if every manifest uses a name in one folder and every ship succeeds |
| `Staging.StraddlingIsLost` | src/frontend/transfer/Session.cpp:133-139 | a run after which a file is recorded as sent and is in no archive |
| `Staging.FailedStartIsLost` | src/frontend/transfer/Session.cpp:242-245 | a run after which a file is recorded as sent although the daemon that was to unpack it never started |
| `Staging.CollisionLoses` | src/frontend/transfer/Session.cpp:358-367 | a run that ends in a merge that stops, after which a file is recorded as sent and is not on the nodes |
| `Staging.SourceIsLastGiven` | src/frontend/transfer/Manifest.cpp:58 | in an open manifest a base name has the source of the last successful addition of it, whatever the folder |
| `Staging.ArrivesFromOwnSource` | src/frontend/transfer/Manifest.cpp:31-59 | the index records for an entry the last source given for its base name; the entry arrives from the source it was added with exactly when that is the last one given and, before the ship, it is already on the nodes, or it is new, its name does not straddle and the daemon starts |
| `Staging.GetsThereExactly` | src/frontend/transfer/Session.cpp:99-208 | whether an entry is on the nodes after its manifest is shipped, decided by what is known before |
| `Staging.SameNameReplaces` | src/frontend/transfer/Manifest.cpp:56-58 | a run in which a file staged for `bin` is recorded from a source that was given for another folder |
| `Staging.FallbackNeverConflicts` | src/frontend/transfer/Manifest.cpp:83-113 | after every run, while a manifest can change the session has nothing in its library folder: a needed library is added exactly when it can be resolved, to `lib` if it may go there and otherwise to the manifest's own folder |
| `Staging.MergesExactly` | src/frontend/transfer/Manifest.cpp:43-55 | a manifest with each name in one folder, filled by any run, can be merged exactly when no other manifest has meanwhile filled one of its places from another path |
| `Staging.StopsExactly` | src/frontend/transfer/Session.cpp:342-376 | a merge can stop exactly when a place was filled from another path, or a new file can no longer be resolved |
| `Staging.LinkedExactly` | src/frontend/transfer/Session.cpp:147-203 | what is archived comes from the manifest's source, as a link exactly when every node can see it |
| `Staging.OwnFolder` | src/frontend/transfer/Manifest.cpp:103-112 | a library unpacked in a manifest's folder can only come from that manifest |
| `Staging.NewestOverrideFound` | src/frontend/transfer/Session.cpp:140-145 | the search path is the folders of merged manifests, newest first, then `lib`, and a search of what was unpacked finds the newest override |
| `Staging.BaseFoundOtherwise` | src/frontend/transfer/Session.cpp:38 | a search finds the copy in `lib` only if no override was unpacked |
| `Staging.NumbersInOrder` | src/frontend/transfer/Session.cpp:234-245 | daemons that started have increasing numbers below the next one; the number of one that did not is used again |
| `NodeFiles.LowerHaveUnpacked` | src/backend/daemon/cti_be_daemon.c:1341-1406 | when a daemon of a session can exec, it and all with numbers from 1 up to it have unpacked |
| `NodeFiles.FirstMayLag` | src/backend/daemon/cti_be_daemon.c:1346 | and there is an interleaving in which daemon 0 has not |
| `NodeFiles.AlwaysUnpackedExactly` | src/backend/daemon/cti_be_daemon.c:1341-1406 | of daemons numbered in order, e has unpacked in every interleaving by the time d execs, for e at most d, exactly when e is not 0 or d is 0 |
| `NodeFiles.FoundThen` | src/frontend/transfer/Session.cpp:140-145 | on a node where some daemons have unpacked, a tool finds the newest override up to its own manifest exactly when the daemon that carried it is among them |
| `NodeFiles.NewestAlwaysFoundExactly` | src/backend/daemon/cti_be_daemon.c:1341-1406 | over every run of the session and every interleaving on the node, a tool always finds the newest override shipped up to its own manifest exactly when that was not shipped with number 0 or the tool has number 0 itself |
| `SessionObjects.LookupAgrees` | src/frontend/transfer/Session.cpp:330-340 | looking a key up in the map of strings is looking the entry up in the index |
| `SessionObjects.ManifestObject.CheckAndAdd` | src/frontend/transfer/Manifest.cpp:31-59 | adds, or refuses and changes nothing, as the state machine does, where `Staging.AcceptedExactly` says which |
| `SessionObjects.ManifestObject.AddDependency` | src/frontend/transfer/Manifest.cpp:83-113 | adds to `lib` or else to the manifest's own folder, as `Staging.DependencyPlacedExactly` says |
| `SessionObjects.ManifestObject.AddWithLibraries` | src/frontend/transfer/Manifest.cpp:61-81 | a file and the libraries it needs, up to the first that fails; nothing for a manifest already shipped |
| `SessionObjects.AllAddedExactly` | src/frontend/transfer/Manifest.cpp:18-29 | a file and the libraries it needs are all added exactly when the file is accepted and every library can be resolved |
| `SessionObjects.ManifestObject.Add` | src/frontend/transfer/Manifest.cpp:61-81 | for a session with any manifests, adding a file and what it needs is a run of its state machine |
| `SessionObjects.ManifestObject.TakeOut` | src/frontend/transfer/Session.cpp:136-139 | duplicates lose their place and their name its source |
| `SessionObjects.ManifestObject.FillArchive` | src/frontend/transfer/Session.cpp:174-203 | one archive entry for each entry that still has a source, linked if the nodes can see it |
| `SessionObjects.ManifestObject.Pack` | src/frontend/transfer/Session.cpp:136-203 | together these make the archive of the state machine |
| `SessionObjects.SessionObject.GetSourcePath` | src/frontend/transfer/Session.cpp:330-340 | the recorded source, or the empty string |
| `SessionObjects.SessionObject.CreateManifest` | src/frontend/transfer/Session.cpp:90-97 | one step: an empty manifest with the next instance number, whatever other manifests there are |
| `SessionObjects.SessionObject.MergeEntry` | src/frontend/transfer/Session.cpp:353-371 | registers, skips or refuses one entry |
| `SessionObjects.SessionObject.MergeTransfered` | src/frontend/transfer/Session.cpp:342-376 | in any order, merges all entries or stops at one that clashes with what came before registered |
| `SessionObjects.SessionObject.Prepend` | src/frontend/transfer/Session.cpp:140-145 | the folder goes in front of the search path string |
| `SessionObjects.PathReadsBack` | src/frontend/transfer/Session.cpp:140-145 | taken apart at its colons, the search path string is the stage directory's folders in the order of the path |
| `SessionObjects.SessionObject.Deliver` | src/frontend/transfer/Session.cpp:205-245 | records the merge, and takes a number only if the daemon started |
| `SessionObjects.SessionObject.ShipManifest` | src/frontend/transfer/Session.cpp:123-208 | one step of the state machine, whatever fails and whatever other manifests there are |
| `SessionObjects.SessionObject.SendManifest` | src/frontend/transfer/Session.cpp:210-246 | refuses a manifest the session does not own; otherwise one step of the session with all its manifests, after which it owns the others |
| `SessionObjects.SessionObject.ExecManifest` | src/frontend/transfer/Session.cpp:248-317 | a run of the session with all its manifests: the daemon's binary is added to `bin`, then its libraries, and only if all that works is the manifest sent |
| `SshLayout.HostIsShort` | src/frontend/frontend_impl/GenericSSH/Frontend.cpp:348-349 | a process's host is its host name up to the first dot |
| `SshLayout.FetchStepLayout` | src/frontend/frontend_impl/GenericSSH/Frontend.cpp:333-373 | the hash index finds what a linear search would, for every table, so the layout is the one made by searching |
| `SshLayout.LayoutDescribes` | src/frontend/frontend_impl/GenericSSH/Frontend.cpp:333-373 | for every table the nodes are its distinct hosts in order of appearance, each with the host's first rank and all its pids in order |
| `SshLayout.PairsInOrder` | src/backend/generic_ssh_be.c:345-376 | a host's processes are in rank order, each with its own pid |
| `SshLayout.CountsSumToTable` | src/frontend/frontend_impl/GenericSSH/Frontend.cpp:333-373 | the pid counts add up to the size of the table |
| `SshLayout.StretchFits` | src/backend/generic_ssh_be.c:277-285 | first rank plus count never exceeds the table, for every table |
| `SshLayout.StretchExactly` | src/backend/generic_ssh_be.c:277-335 | the stretch from a host's first rank is its processes exactly when they are contiguous |
| `SshFiles.CreateNodeLayoutFile` | src/frontend/frontend_impl/GenericSSH/Frontend.cpp:375-414 | writes the layout file, or fails exactly when a host name does not fit its field |
| `SshFiles.CreatePidListFile` | src/frontend/frontend_impl/GenericSSH/Frontend.cpp:416-438 | writes the pid file |
| `SshFiles.RecordsRoundTrip` | src/backend/generic_ssh_be.c:150-183 | the records of the layout file are read back |
| `SshFiles.BeginsExactly` | src/backend/generic_ssh_be.c:188-189 | a field matches a host name exactly when the name is a prefix of the one in it |
| `SshFiles.PidsReadBack` | src/backend/generic_ssh_be.c:277-335 | the bounds check lets every stretch of the table through, and the seek and read give its pids |
| `SshFiles.ReadPidsExactly` | src/backend/generic_ssh_be.c:268-310 | whatever the pid file holds, pids are read exactly when the stretch lies within the count in its header and within the file |
| `SshFiles.BackEndReads` | src/backend/generic_ssh_be.c:185-335 | on any host the back end gets the stretch of the first node whose host begins with its name, or nothing |
| `SshFiles.RebuiltExactly` | src/backend/generic_ssh_be.c:185-376 | it rebuilds exactly its ranks and pids just when they are contiguous and no earlier host's name begins with its own |
| `SshFiles.GapMisleads` | src/backend/generic_ssh_be.c:277-335 | with ranks on hosts a, b and a, the back end on a does not get its own |
| `SshFiles.PrefixMisleads` | src/backend/generic_ssh_be.c:188-189 | with ranks on hosts ab and a, the back end on a does not get its own |
| `SshFiles.HostsPartitionTable` | src/backend/generic_ssh_be.c:345-376 | then each rank is on the list of its own host and no other, once |
| `SshFiles.FullNameFindsNothing` | src/backend/generic_ssh_be.c:443-469 | on a node that goes by a full domain name the back end finds nothing, as only the front end cuts names at a dot |
| `SshFiles.BackEnd.GetLayout` | src/backend/generic_ssh_be.c:98-216 | reads and keeps the host's entry, or fails |
| `SshFiles.BackEnd.GetPids` | src/backend/generic_ssh_be.c:218-341 | reads and keeps the pids, or fails |
| `SshFiles.BackEnd.FindAppPids` | src/backend/generic_ssh_be.c:345-376 | gives the same answer whenever it is asked |
| `SlurmLookup.FindEntry` | src/backend/slurm_be.c:231-257 | the first record that begins with the name and does not go on with a letter or digit |
| `SlurmLookup.GuardedExactly` | src/backend/slurm_be.c:234-242 | a field is accepted exactly when the name in it is the one sought, by itself or followed by a separator |
| `SlurmLookup.LongerName` | src/backend/slurm_be.c:234-242 | a longer name is taken for the host exactly when what follows is neither a letter nor a digit |
| `SlurmLookup.OwnEntryExactly` | src/backend/slurm_be.c:231-257 | a host takes its own entry exactly when no earlier name would be accepted, which is so whenever the search without the guard takes it |
| `BinaryRanks.GenerateBinaryRankMap` | src/frontend/mpir_iface/MPIRProctable.hpp:22-32 | maps exactly the executables of the table to their ranks in order |
| `BinaryRanks.RanksPartition` | src/frontend/mpir_iface/MPIRProctable.hpp:22-32 | each rank is on the list of its executable once and on no other list |
| `BinaryRanks.FillSlots` | src/frontend/cti_fe_iface.cpp:291-294 | puts a place at the given ranks and changes no other slot |
| `BinaryRanks.FlattenBinaryList` | src/frontend/cti_fe_iface.cpp:277-298 | every slot is written exactly once and the terminator is in place |
| `BinaryRanks.AppBinaryList` | src/frontend/cti_fe_iface.cpp:269-302 | the executable in the place a rank's slot gives is the one it runs, and executables are listed once |
| `FluxRanges.ParseRangeList` | src/frontend/frontend_impl/Flux/FluxAPI.hpp:60-122 | the pieces of an item and the base it leaves, with sums past the top of a 32-bit integer, or an error for a list not of two or three |
| `FluxRanges.FlattenRangeList` | src/frontend/frontend_impl/Flux/FluxAPI.hpp:124-162 | the values of a list, with the base handed from item to item |
| `FluxRanges.PairExactly` | src/frontend/frontend_impl/Flux/FluxAPI.hpp:86-119 | [a, b] from a base stands for numbers going up, for one number over and over, or for nothing if that number is below zero, where the base starts anew |
| `FluxRanges.SingleExactly` | src/frontend/frontend_impl/Flux/FluxAPI.hpp:71-77 | a number by itself stands for its distance from the base, or is too large |
| `FluxRanges.DecodesExactly` | src/frontend/frontend_impl/Flux/FluxAPI.hpp:60-162 | a list is refused exactly when one of its items is, wherever that is |
| `FluxRanges.DecodeComposes` | src/frontend/frontend_impl/Flux/FluxAPI.hpp:124-162 | decoding two lists in a row is decoding the second from the base the first leaves |
| `FluxRanges.TripleIsCopies` | src/frontend/frontend_impl/Flux/FluxAPI.hpp:88-119 | [a, b, n] decodes as n + 1 copies of [a, b]; as none if n is negative or the largest 32-bit integer |
| `FluxRanges.RunsRoundTrip` | src/frontend/frontend_impl/Flux/FluxAPI.hpp:60-162 | any cut of a list into runs, encoded by distances, decodes to the list exactly when each number fits and no run of equal numbers is too long for a 32-bit integer |
| `FluxRanges.ListRoundTrip` | src/frontend/frontend_impl/Flux/FluxAPI.hpp:60-162 | so does every list of non-negative numbers with its consecutive and equal runs merged, exactly then |
| `FluxPlacement.TallyCounts` | src/frontend/frontend_impl/Flux/FluxAPI.hpp:287-296 | the counts are those of the host list |
| `FluxPlacement.TallySorts` | src/frontend/frontend_impl/Flux/FluxAPI.hpp:284-296 | counting and spreading out again sorts the list, and leaves it alone exactly when it was sorted |
| `FluxPlacement.LessExactly` | src/frontend/frontend_impl/Flux/FluxAPI.hpp:284-285 | the order of the host map goes by the first byte in which two names differ, and a name comes after its own beginnings |
| `FluxPlacement.HandOut` | src/frontend/frontend_impl/Flux/FluxAPI.hpp:314-323 | hosts get consecutive shares and no cursor runs over |
| `FluxPlacement.MakeHostsPlacement` | src/frontend/frontend_impl/Flux/FluxAPI.hpp:258-332 | fails exactly when the numbers of hosts, ranks and pids differ; otherwise the pairs of all hosts, in name order, are the ranks with their pids |
| `FluxPlacement.LandsInOrderExactly` | src/frontend/frontend_impl/Flux/FluxAPI.hpp:314-323 | the i-th process lands on the i-th host for every i exactly when the host list is sorted |
| `FluxPlacement.LandsSorted` | src/frontend/frontend_impl/Flux/FluxAPI.hpp:314-323 | otherwise they land as if it had been sorted |
| `FluxPlacement.OutOfOrderSwaps` | src/frontend/frontend_impl/Flux/FluxAPI.hpp:314-323 | two hosts out of order get each other's process |
| `FluxPlacement.FlattenPrefixList` | src/frontend/frontend_impl/Flux/FluxAPI.hpp:164-216 | the host names of a prefix list, whose names are those of `FluxPlacement.NamesCompose`, `FluxPlacement.BareNames` and `FluxPlacement.SuffixedExactly` |
| `FluxPlacement.SuffixedExactly` | src/frontend/frontend_impl/Flux/FluxAPI.hpp:198-204 | each name made from a prefix and numbers is the prefix followed by the decimal digits of its own number, without leading zeros |
| `FluxPlacement.BareNames` | src/frontend/frontend_impl/Flux/FluxAPI.hpp:180-197 | a plain name stands for itself, a prefix whose numbers come to nothing for the prefix, and one whose numbers are bad for an error |
| `FluxPlacement.NamesCompose` | src/frontend/frontend_impl/Flux/FluxAPI.hpp:164-216 | the names of a list are those of its parts in order, and it is bad exactly if a part is |
| `FluxPlacement.PrefixedRoundTrip` | src/frontend/frontend_impl/Flux/FluxAPI.hpp:164-205 | a prefix with encoded numbers reads back as a name for each number in order: the prefix and the digits of that number |
| `FluxPlacement.RePadKeepsNumber` | src/frontend/frontend_impl/Flux/FluxAPI.hpp:228-256 | padding with zeros keeps what comes before the node number, and its value, and gives it the width it has in this node's own name if that is larger |
| `FluxPlacement.PaddedAt` | src/frontend/frontend_impl/Flux/FluxAPI.hpp:287-296 | each name is padded by itself, in its place |
| `FluxPlacement.PlaceProcesses` | src/frontend/frontend_impl/Flux/FluxAPI.hpp:258-332 | a whole process table: when it is refused, and that nothing is lost or moved |
| `Handles.NextInv` | src/frontend/cti_fe_iface.hpp:30-81 | every API call, with a good id or not, keeps: ids stand for the objects they were given for and are dropped only when those are gone or the app is released |
| `Handles.RunInv` | src/frontend/cti_fe_iface.hpp:30-81 | so does every run |
| `Handles.GoodExactly` | src/frontend/cti_fe_iface.hpp:40-73 | after every run an id is good exactly when its object and all owners of it are still owned (and the app not released); zero never is |
| `Handles.NeverReused` | src/frontend/cti_fe_iface.hpp:74-80 | over every run an id keeps its object, and one no longer good is never good again |
| `Handles.GoodUntilEnded` | src/frontend/cti_fe_iface.cpp:693-952 | over every run a good id stays good exactly until a call ends its object or an owner of it; a failed destroy ends nothing |
| `Handles.AppIdExactly` | src/frontend/cti_fe_iface.cpp:693-742 | after any calls a launched app's id is good exactly when none of them released, deregistered or found gone that app |
| `Handles.SessionIdExactly` | src/frontend/cti_fe_iface.cpp:931-952 | a session made for an app is good after any calls exactly when none destroyed it or, before the app's id was given back, removed that app |
| `Handles.ManifestIdExactly` | src/frontend/cti_fe_iface.cpp:693-952 | a manifest made in that session is good after any calls exactly when the calls left the session good and none shipped the manifest |
| `Handles.SessionGoesWithItsApp` | src/frontend/Frontend.cpp:1531-1539 | of two good apps, deregistering one ends a new session exactly when it was made for that one |
| `Handles.ManifestGoesWithItsSession` | src/frontend/Frontend.cpp:1541-1548 | of two good sessions, destroying one ends a new manifest exactly when it was made in that one |
| `Handles.DeregisterExactly` | src/frontend/Frontend.cpp:339-350 | deregistering ends the app, its sessions and their manifests and nothing else, even if cleaning up fails |
| `Handles.CallExactly` | src/frontend/cti_fe_iface.cpp:693-952 | a call that makes no object leaves an id good exactly when it was good and is not among the ids the call ends |
| `Handles.DestroyExactly` | src/frontend/Frontend.cpp:1541-1548 | destroying a session ends it and its manifests only |
| `Handles.ShipExactly` | src/frontend/transfer/Session.cpp:123-127 | shipping ends the manifest's id unless it fails before the session lets go of it |
| `Handles.ReleaseExactly` | src/frontend/cti_fe_iface.cpp:732-742 | releasing an app ends its id only: what it owns stays good |
| `Handles.ReleasedStaysOwned` | src/frontend/cti_fe_iface.cpp:732-742 | and no later call can make the front end let go of it |
| `ReleaseIds.NextInv` | src/frontend/cti_fe_iface.cpp:732-742 | every call and every step of the daemon keeps: the daemon's id of an app is the client's plus the ids the daemon had given to launches that failed |
| `ReleaseIds.RunInv` | src/frontend/cti_fe_iface.cpp:732-742 | so does every run of client and daemon together |
| `ReleaseIds.ReleasesOwnExactly` | src/frontend/cti_fe_iface.cpp:737-739 | after every run, a release of an app the daemon still has makes the daemon let go of that app exactly when no daemon id had been wasted on a launch that failed before the app was made, which is when the app's two ids are equal |
| `ReleaseIds.ReleaseMisses` | src/frontend/cti_fe_iface.cpp:737-739 | a run in which a released app is still on the daemon's list of what to terminate |
| `FrontEndApi.RegistryObject.Add` | src/frontend/cti_fe_iface.hpp:75-80 | the next id, for the new object |
| `FrontEndApi.RegistryObject.GetHandle` | src/frontend/cti_fe_iface.hpp:58-73 | the object of a good id; a stale id is dropped |
| `FrontEndApi.FrontEnd.FinalizeApp` | src/frontend/Frontend.cpp:1550-1558 | lets go of all sessions of an app exactly when none of them fails to clean up |
| `FrontEndApi.FrontEnd.DeregisterApp` | src/frontend/cti_fe_iface.cpp:720-730 | one step of the state machine, and whether the id was good |
| `FrontEndApi.FrontEnd.CheckApp` | src/frontend/cti_fe_iface.cpp:693-718 | one step; an app that no longer runs is removed |
| `FrontEndApi.FrontEnd.ReleaseApp` | src/frontend/cti_fe_iface.cpp:732-742 | one step, given the answer of the daemon; what the daemon does is in `ReleaseIds` |
| `FrontEndApi.FrontEnd.NewSession` | src/frontend/cti_fe_iface.cpp:931-940 | one step; a good id for a session of the app that was asked, as `Handles.SessionIdExactly` says, or zero |
| `FrontEndApi.FrontEnd.EndSession` | src/frontend/cti_fe_iface.cpp:942-952 | one step; succeeds exactly if the id was good and clean-up worked |
| `FrontEndApi.FrontEnd.NewManifest` | src/frontend/cti_fe_iface.cpp:1026-1034 | one step; a good id for the manifest, or zero |
| `FrontEndApi.FrontEnd.ShipManifest` | src/frontend/cti_fe_iface.cpp:1090-1113 | one step; succeeds exactly if the id was good and nothing failed |
| `LineReader.PieceOfLine` | src/backend/slurm_be.c:595-622 | a buffer that ends with a newline is the rest of the line, any other is some of it, whatever its size |
| `LineReader.ReallocAppend` | src/backend/slurm_be.c:546-584 | a new string that is the old one and the piece, terminated |
| `LineReader.ReadLine` | src/backend/slurm_be.c:586-636 | the next line however long, null exactly at the end of the stream |
| `LineReader.LinesAreStream` | src/backend/slurm_be.c:586-636 | the lines have no newline in them and, each ended by one, are the stream |
| `LineReader.ReadLines` | src/backend/slurm_be.c:586-636 | reading line after line gives exactly the lines of the stream |

## Left out

- Process control through MPIR and Dyninst, SSH sessions and authentication, and the ALPS, PALS, PMIx and Flux libraries: their results are inputs here.
- fork, exec, signal delivery, file permissions and the file system itself: a call succeeds or fails as an input says.
- Detection of the system and workload manager, logging, argument parsing, and attributes: flat code.
- Clean-up on the nodes, the loader-audit parser and archive writing itself.
- The front ends for ALPS, PALS, Slurm and localhost, and the Slurm back end apart from its layout search and line reader.
- Integer width: counters, instance numbers, ids and daemon numbers do not wrap around. Files and messages do have their 32- and 64-bit fields; a table of 2^31 processes or more is outside `SshFiles.RebuiltExactly`, as its counts are kept in 32-bit fields. Sums of 64-bit values in Flux range lists are not wrapped; sums of 32-bit ones are, as processors do it, where the language leaves the result open.
- Descriptors passed beside the launch data: only the byte that carries them is in the stream. Padding inside message structures is left out.
- Byte order: integers are written as they lie in memory, which the model takes to be lowest byte first.
- Interrupted and retried reads and writes: a read or write is modelled once it moves at least one byte or finds the end.
- Memory exhaustion: allocations succeed.
- The daemon's tables are updated one operation at a time; a data race inside a hash map is not modelled. Requests are handled one at a time, and deregistration and launch are cut where a handler can come in between.
- The base files a session adds to its first manifest: they go through the same calls as the client's, so a run of `Staging` has them as ordinary additions.
- Folder sets and hash maps are gone through in any order where the code uses the order of the container; only the Flux host map keeps its order, as it matters there.
- The session's own list of names by folder: it is filled while merging and nothing reads it.
- What a daemon does once it has started: it unpacks its package. `NodeLocks` has daemons that fail to.
- Base names contain no slash; the root directory, whose base name is a slash, is not staged.
- Use of an MPIR instance after it is erased in a wait: only the effect on the table is modelled.
- NodeLocks.ExecAfterLower: the lower number is one that no two daemons share; when a daemon fails to start its number is used again, and of two daemons with one number only one need be ready, which `NodeLocks.ExecAfterEachNumber` states.
- FrontEndApi.FrontEnd.ReleaseApp: what the daemon answers is an input here; `ReleaseIds` has both sides.
- NodeLocks.NoDeadlock: assumes that every number from 1 to the largest was handed out on the node, as sessions do.
- FrontendDaemon.NextInv: the pid of a launcher the daemon itself starts is positive.
- EnvRestore.RestoredExactly: environments hold only names that can be set, neither empty nor with `=` in them.
- LineReader.ReadLine: the stream has no zero bytes and no read errors, as the length of a piece is found from its terminator.
- SshFiles.BackEnd.FindAppPids: the fallback to the PMI attributes file when the two files are missing or bad is not part of the model.
- FluxPlacement.FlattenPrefixList: an entry that is an empty string is not told apart from other names.
