# A verified model of the IBM VPC file CSI driver

The driver provisions NFS file shares and mounts them on Kubernetes nodes. A share with
encryption in transit is mounted either through IPsec (profile `dp2`) or through a local
stunnel port (profile `rfs`). This project models, in Dafny 4.11, the parts where these
promises can go wrong, and proves what holds and exactly when.

`dafny verify dfyconfig.toml` verifies the whole project.

## What is modelled

**The tunnel manager.** `PortMaps` has the volume/port maps, the scan for a port and the
recovery loop; `Debounce` the timer with its pending flag; `TunnelConfig` the config
file's text, its parser and the services directory; `MountTable` the in-use test on the text of
`/proc/mounts`; `TunnelCalls` the two calls as functions; `StunnelManager` the object
itself, method by method, proved against those functions. `Text` has the strings beneath: lines,
trimming, numbers, UTF-8 lengths.

**The node as a step machine.** `NodeProtocol` interleaves any number of
publish/EnsureTunnel and unpublish/RemoveTunnel threads with timer callbacks, stunnel
coming up and going away, and driver crashes with recovery. A step is one lock hold, or one
file, mount or signal operation. `TunnelCalls` proves that an uninterrupted thread of this
machine is the sequential call, so machine and object are one model. On it:

- `ProtocolInverse`, `ProtocolMounts`, `ProtocolCrash`, `ProtocolReload`, `ProtocolStale`, `ProtocolListening`:
  six properties, each first without any hypothesis, as an equivalence over every run: it holds
  at every instant if and only if no step of a few named kinds is taken, each with a condition
  that can be tested before the step. They are: the maps are mutual inverses; every live mount is
  backed by the maps and the directory; a crash loses, moves and invents no tunnel; every config
  is read by stunnel or about to be; what has no config any more is served only until a reload to
  come; stunnel listens on no live mount's port for another share.
- `ProtocolAtomic`: double-checked locking is linearizable to an atomic lookup-or-allocate.
- `ProtocolSafety`: tunnel safety over every run with one RPC per share at a time, crashes, failed
  rollbacks and any answers of the bind test included. Inverse maps and the reverse index need a
  second hypothesis, that a port named by a config which no tunnel has fails the bind test; runs
  with both are called guarded.
- `ProtocolCrash.CrashSafety` and `ProtocolLeak.NoLeak` need one RPC per share and startup rollbacks
  that delete their files; inverse maps after a crash need a guarded run as well.
  `ProtocolLeak.LeakExactly` says what is left without the second. With one call at a time and such
  rollbacks the bind-test hypothesis is proved, not assumed.
- `Traces`: concrete runs that drop one hypothesis, keep the others and break a property: one call
  per share (`MountThroughReleasedPort`, `DeletionHitsFreshFile`, `RollbackOntoMovedVolume`), the
  bind test on leftover configs, for the reverse index (`PortNamedTwice`, `RollbackOntoTakenPort`), the startup rollback
  (`FailedUndoLeavesFile`), the bind test on served ports (`PortServedForAnother`), no restart and
  no failed reload (`RestartForgetsReload`, `FailedReloadIsDropped`). `LastTunnelIsServedOn` is the run in
  which the signal for the last tunnel goes out before its config is deleted.

**Publish and unpublish.** `NodeServer` is the node server object; `NfsSource` and
`Hostname` are the source string's parser and checks.

**The controller.** `VolumeParameters` and `VolumeRequest` are the two parameter passes
over Go maps and the checks after them, for every iteration order; `Capacity` is the size;
`VolumeContext` the labels that the controller prints and the node reads; `VolumeId` the
printed id; `Provisioning` CreateVolume and DeleteVolume as interleaved provider calls
that may fail before or after their effect; `Controller` the object.

Answers from outside (bind test, `pgrep`, SIGHUP, file and mount operations, provider calls, map
iteration order) are arguments of steps and methods, and every theorem holds for all of them.

## Where the code and its comments differ

- node.go:399 relies on RemoveTunnel's rollback to keep the maps consistent. It does exactly
  when neither the volume nor the port has another partner by then (`InverseExactly`); `RollbackOntoTakenPort` and
  `RollbackOntoMovedVolume` are runs where they are not.
- stunnel_manager.go:490 says a failed debounced reload is picked up by the next window. No
  window follows unless another call schedules one (`FailedReloadIsDropped`).
- stunnel_manager.go:525 calls the config write atomic; `os.WriteFile` is not. The model
  assumes whole-file writes.
- controller_helper.go:105 says rounding gives an rfs share at least 1 GiB. A capacity range
  without required bytes gives what the library's rounding makes of 0 (`RfsRangeWithoutRequest`);
  that is 0 bytes if it rounds 0 to 0, which the repository does not show.
- DeleteVolume treats a failed retrieval like "not found" and then reports success with the
  volume in place (`DeletedExactly`, `RetrievalErrorLeaks`).

## Model

| member | source | states |
|---|---|---|
| `PortMaps.BindKeepsInverse` | pkg/rfseit/stunnel_manager.go:400-401 | writing a pair over inverse maps keeps them inverse if and only if neither half has another partner |
| `PortMaps.UnbindKeepsInverse` | pkg/rfseit/stunnel_manager.go:620-621 | deleting a volume and its own port keeps the maps inverse |
| `PortMaps.UnbindAfterBind` | pkg/rfseit/stunnel_manager.go:424-425 | the startup rollback restores both maps exactly |
| `PortMaps.LeastFreeExactly` | pkg/rfseit/stunnel_manager.go:756-773 | the scan returns p iff p is the least port of the range neither allocated nor busy, and fails iff there is none |
| `PortMaps.TunnelsFitTheRange` | pkg/rfseit/stunnel_manager.go:387-401 | pigeonhole: inverse in-range maps hold at most portRange tunnels |
| `PortMaps.AllocationSucceeds` | pkg/rfseit/stunnel_manager.go:756-773 | with fewer tunnels than ports and every unallocated port bindable, a port is found |
| `PortMaps.RecoveryIsInverseExactly` | pkg/rfseit/stunnel_manager.go:236-260 | recovery takes over every in-range entry; its maps are inverse iff no two configs name one port |
| `Debounce.PendingIsArmed` | pkg/rfseit/stunnel_manager.go:452-500 | in every interleaving a set pending flag has an armed timer or a waiting callback behind it |
| `Debounce.NoScheduleIsLost` | pkg/rfseit/stunnel_manager.go:452-500 | once the timers have drained, every schedule has been followed by a reload attempt |
| `Debounce.AttemptsBounded` | pkg/rfseit/stunnel_manager.go:669-683 | attempts (plus a pending one) never exceed schedules plus last-tunnel cleanups |
| `Debounce.CallbackInFlightServesTheNextSchedule` | pkg/rfseit/stunnel_manager.go:460-479 | a callback already started when Stop is called serves the newer schedule, whose own timer then does nothing |
| `ProtocolInverse.InverseExactly` | pkg/rfseit/stunnel_manager.go:594-646 | each step of any thread keeps the maps inverse unless it is a rollback onto a clash or a recovery with a port named twice, and those do break them |
| `ProtocolInverse.InverseOverRuns` | pkg/rfseit/stunnel_manager.go:374-401 | over every interleaving: inverse at every instant iff no such step is taken; ports in range always |
| `ProtocolInverse.TunnelsFitOverRuns` | pkg/rfseit/stunnel_manager.go:387-401 | over every run without such a step, tunnels never outnumber ports |
| `ProtocolInverse.BaseAlways` | pkg/rfseit/stunnel_manager.go:374-448 | over every run: the lock has one holder, whose chosen port is nobody else's |
| `ProtocolAtomic.CallIsAtomic` | pkg/rfseit/stunnel_manager.go:359-448 | each step of EnsureTunnel either is the atomic lookup-or-allocate on the visible maps or changes nothing visible; it fails exactly on an empty scan, a failed write or the undoing of a failed start |
| `ProtocolAtomic.UndoAfterFailedStart` | pkg/rfseit/stunnel_manager.go:420-428 | the tunnel is undone only if stunnel is down at the end of the wait |
| `ProtocolAtomic.EnsureIsLinearizable` | pkg/rfseit/stunnel_manager.go:359-448 | each EnsureTunnel result, success or failure, is that of the atomic operation, under the bind answers that this call saw, at one instant between call and return, and no other step of the call is visible |
| `ProtocolAtomic.OnePortOneFile` | pkg/rfseit/stunnel_manager.go:374-401 | while a volume has a port and is not removed, every call on it is given that port and its file is not written again |
| `ProtocolAtomic.CallsAgree` | pkg/rfseit/stunnel_manager.go:359-401 | two successful calls on one volume with no removal in between return one port, and the file is not written between their decisions |
| `ProtocolAtomic.SecondWriteAfterUndo` | pkg/rfseit/stunnel_manager.go:393-428 | with no removal in between, the file is written a second time only after the call that wrote it first has failed and undone it |
| `ProtocolSafety.SteadyAlways` | pkg/ibmcsidriver/node.go:294-404 | with one RPC per share at a time the joint invariant of volume map, directory, mounts and threads holds at every instant of every run |
| `ProtocolSafety.TunnelSafety` | pkg/ibmcsidriver/node.go:300-347 | with one RPC per share at a time every live tunnelled mount uses the port allocated to its own share, and that share's config on disk names that port, at every instant of every run |
| `ProtocolSafety.SafeAlways` | pkg/rfseit/stunnel_manager.go:387-401 | in guarded runs besides the maps are inverse, no two configs name one port, and no port about to be written is in any config |
| `ProtocolSafety.GuardedTunnelSafety` | pkg/rfseit/stunnel_manager.go:400-401 | in guarded runs the reverse index gives every mounted port to that share, too |
| `ProtocolSafety.GuardedRunsNeverBreak` | pkg/rfseit/stunnel_manager.go:623-646 | in a guarded run no rollback clashes and no recovery finds a port twice |
| `ProtocolCrash.RecoversWellExactly` | pkg/rfseit/stunnel_manager.go:227-266 | a crash now loses, moves and invents no tunnel iff every tunnel has its config, every config belongs to a tunnel or a call, and no port is named twice |
| `ProtocolCrash.MirroredExactly` | pkg/rfseit/stunnel_manager.go:400-401 | a step leaves an allocated tunnel without its config iff it commits or rolls back a pair that is not on disk or deletes under an allocated tunnel |
| `ProtocolCrash.MirroredOverRuns` | pkg/rfseit/stunnel_manager.go:620-646 | over every interleaving, no hypothesis: every allocated tunnel has its config at every instant iff no such step is taken |
| `ProtocolCrash.CoveredExactly` | pkg/rfseit/stunnel_manager.go:422-427 | a step leaves a config that nobody accounts for iff it is a startup rollback that leaves its file with no other call on that volume in flight |
| `ProtocolCrash.CoveredOverRuns` | pkg/rfseit/stunnel_manager.go:393-428 | over every interleaving, no hypothesis: every config belongs to a tunnel or a call at every instant iff no such step is taken |
| `ProtocolCrash.CrashSafeExactly` | pkg/rfseit/stunnel_manager.go:393-428 | a step makes the next crash harmful iff it is one of those, or writes a port that another config names |
| `ProtocolCrash.CrashSafeOverRuns` | pkg/rfseit/stunnel_manager.go:227-266 | over every interleaving, no hypothesis: a crash does no harm at any instant iff no such step is taken |
| `ProtocolCrash.SteadyNeverUnmirrors` | pkg/rfseit/stunnel_manager.go:620-646 | with one RPC per share no step takes the config from an allocated tunnel |
| `ProtocolCrash.OnlyUndoEndangers` | pkg/rfseit/stunnel_manager.go:422-427 | in guarded runs only a startup rollback that leaves its file endangers a crash |
| `ProtocolCrash.DeletingRunsAreCovered` | pkg/rfseit/stunnel_manager.go:422-427 | if startup rollbacks delete their files, every config belongs to a tunnel or a call, in every run |
| `ProtocolCrash.CrashSafety` | pkg/rfseit/stunnel_manager.go:227-266 | with one RPC per share and such rollbacks, recovery at any instant gives every tunnel its port, plus only tunnels that a call was creating or removing, on that call's port; in guarded runs inverse maps |
| `ProtocolCrash.SoloRunsAreOneCall` | pkg/rfseit/stunnel_manager.go:350-448 | a run with one call at a time has one call per share |
| `ProtocolCrash.SoloRunsAreGuarded` | pkg/rfseit/stunnel_manager.go:393-401 | with such rollbacks it is guarded: the bind-test hypothesis follows from the order of file write, commit, release and deletion |
| `ProtocolCrash.SoloCrashSafety` | pkg/rfseit/stunnel_manager.go:620-646 | single-threaded: recovery gives the maps before the crash plus at most the one tunnel in flight |
| `ProtocolLeak.LeakExactly` | pkg/rfseit/stunnel_manager.go:596-660 | with one RPC per share, after a successful unpublish the share has a port iff its port was found in use, and a config iff it has a port or RemoveTunnel met a config without one |
| `ProtocolLeak.NoLeak` | pkg/ibmcsidriver/node.go:384-404 | if startup rollbacks delete their files, then with a readable table and no mount through its port the share has neither port nor config |
| `ProtocolLeak.InUseMeansMounted` | pkg/rfseit/stunnel_manager.go:596-612 | in guarded runs a share's port is in use iff a mount of that share is left |
| `ProtocolListening.PrivateExactly` | pkg/rfseit/stunnel_manager.go:452-500 | a step makes stunnel listen on a live mount's port for another share iff it mounts a port served for another share, or starts or reloads stunnel on a directory that gives a mounted port to another share |
| `ProtocolListening.PrivateOverRuns` | pkg/rfseit/stunnel_manager.go:452-500 | over every interleaving, no hypothesis: that never happens iff no such step is taken |
| `ProtocolListening.DedicatedExactly` | pkg/rfseit/stunnel_manager.go:387-401 | from any state of a guarded run: a config gets a port served for another share iff the scan picks one |
| `ProtocolListening.DedicatedOverRuns` | pkg/rfseit/stunnel_manager.go:756-773 | over guarded runs: every config has its port to itself at every instant iff no scan picks a port that is still served |
| `ProtocolListening.NoForeignListener` | pkg/rfseit/stunnel_manager.go:775-785 | with a bind test that fails on every port stunnel listens on, stunnel never listens on a live mount's port for another share |
| `ProtocolMounts.ServedExactly` | pkg/ibmcsidriver/node.go:294-404 | from any reachable state: a step leaves some live mount without its share's port or config iff it mounts a stale port, undoes a start, releases a port or deletes a config under a mount of the share, or rolls back over its mounted port |
| `ProtocolMounts.ServedOverRuns` | pkg/ibmcsidriver/node.go:300-404 | over every interleaving, no hypothesis: every live mount has its share's port and config at every instant iff no such step is taken |
| `ProtocolMounts.BackedExactly` | pkg/ibmcsidriver/node.go:294-404 | the same with the reverse index: besides, a release of a mounted port, a rollback onto another share's mounted port, and a recovery that gives a mounted port to another volume |
| `ProtocolMounts.BackedOverRuns` | pkg/rfseit/stunnel_manager.go:596-646 | over every interleaving, no hypothesis: every live mount is backed at every instant iff no such step is taken |
| `ProtocolMounts.LastNamesThePort` | pkg/rfseit/stunnel_manager.go:236-260 | recovery gives a port to the last listed config that names it |
| `ProtocolReload.FreshExactly` | pkg/rfseit/stunnel_manager.go:452-500 | a step leaves a running stunnel with a config it has not read and no reload to come iff it is an unsent reload, a rollback that keeps its file, or a restart, with such a config there |
| `ProtocolReload.FreshOverRuns` | pkg/rfseit/stunnel_manager.go:413-445 | over every interleaving, no hypothesis: every config is read or about to be read at every instant iff no such step is taken |
| `ProtocolReload.FreshAlways` | pkg/rfseit/stunnel_manager.go:413-445 | without restarts, with reloads that arrive and startup rollbacks that delete their files: no such step is taken |
| `ProtocolReload.OwnedFreshAlways` | pkg/rfseit/stunnel_manager.go:413-445 | with one RPC per share, no restart and reloads that arrive, whatever startup rollbacks leave behind: the config of every tunnel and of every call in flight is read or about to be |
| `ProtocolReload.QuietMeansLoaded` | pkg/rfseit/stunnel_manager.go:393-445 | in those runs, once no reload is pending, stunnel has read the config of every allocated tunnel, but for the one still being checked |
| `ProtocolReload.RestartFreshExactly` | pkg/rfseit/stunnel_manager.go:227-266 | after a restart that holds iff stunnel is down or had already read the whole directory |
| `ProtocolStale.SweptExactly` | pkg/rfseit/stunnel_manager.go:654-657 | a step leaves a running stunnel with a service whose config is gone and no reload to come iff it is the deletion after the last tunnel's signal or a startup rollback of a served config, or an unsent reload or a restart while such a service is there |
| `ProtocolStale.SweptOverRuns` | pkg/rfseit/stunnel_manager.go:626-657 | over every interleaving, no hypothesis: that never happens iff no such step is taken |
| `ProtocolStale.QuietMeansExactlyLoaded` | pkg/rfseit/stunnel_manager.go:393-500 | up to the first step of those kinds: once all is quiet, a running stunnel serves exactly the configs on disk, as they are there |
| `ProtocolReload.LastConfigReadBeforeDeletion` | pkg/rfseit/stunnel_manager.go:664-698 | with one RPC per share the signal for the last tunnel goes out while its config is still on disk |
| `Traces.RollbackOntoTakenPort` | pkg/rfseit/stunnel_manager.go:628-631 | a run where the rollback gives two volumes one port |
| `Traces.RollbackOntoMovedVolume` | pkg/rfseit/stunnel_manager.go:637-640 | a run where the rollback gives two ports one volume |
| `Traces.DeletionHitsFreshFile` | pkg/rfseit/stunnel_manager.go:636 | a run where the unlocked deletion removes a config just written for the same volume, whose tunnel a crash would lose |
| `Traces.MountThroughReleasedPort` | pkg/ibmcsidriver/node.go:294-295 | a run of two targets of one share that ends with a mount through a released port |
| `Traces.PortNamedTwice` | pkg/rfseit/stunnel_manager.go:253-255 | a run after which a crash finds one port in two configs and gives a mounted port to the other volume |
| `Traces.PortServedForAnother` | pkg/rfseit/stunnel_manager.go:775-785 | a run where a port is mounted for one share while stunnel serves it for another |
| `Traces.RestartForgetsReload` | pkg/rfseit/stunnel_manager.go:227-266 | a restart between file write and reload leaves a recovered tunnel with no reload pending |
| `Traces.FailedReloadIsDropped` | pkg/rfseit/stunnel_manager.go:481-490 | a debounced reload that fails is not repeated |
| `Traces.LastTunnelIsServedOn` | pkg/rfseit/stunnel_manager.go:664-698 | after the last tunnel is removed stunnel goes on serving it, with no reload to come |
| `Traces.FailedUndoLeavesFile` | pkg/rfseit/stunnel_manager.go:422-427 | a startup rollback that cannot delete its file leaves a config that nobody accounts for |
| `Text.TrimExactly` | pkg/rfseit/stunnel_manager.go:292 | trimming takes off white space at both ends and no more |
| `Text.LinesOfText` | pkg/rfseit/stunnel_manager.go:288-292 | non-empty lines without a line break, each ended by one, are read back as they are |
| `Text.LinesCRLF` | pkg/rfseit/stunnel_manager.go:288-292 | a carriage return before the line feed is not part of the line |
| `Text.AtoiExactly` | pkg/rfseit/stunnel_manager.go:339 | a string is read as n iff it is an optional sign, zeros and the digits of n, and n fits 64 bits |
| `Text.ByteLenOfChar` | pkg/ibmcsidriver/node.go:102-134 | lengths are those of UTF-8, 1 to 4 bytes a character |
| `TunnelConfig.ExtractPortFromConfigFile` | pkg/rfseit/stunnel_manager.go:273-329 | the scanning loop returns the verdict of the first accept directive |
| `TunnelConfig.DirectiveExactly` | pkg/rfseit/stunnel_manager.go:291-305 | a line gives a directive a value iff it has the form key = value with any white space around the three |
| `TunnelConfig.AddressExactly` | pkg/rfseit/stunnel_manager.go:332-345 | the port of an address is the number after its last colon, white space aside |
| `TunnelConfig.ScanExactly` | pkg/rfseit/stunnel_manager.go:284-329 | the first accept directive decides: its port if that is in range |
| `TunnelConfig.ConfigSays` | pkg/rfseit/stunnel_manager.go:513-523 | read line by line, the printed config is a section of that id with client yes, accept on the local port, connect to the server on 20049, and that CA file, check host, verify level and debug level |
| `TunnelConfig.ConfigReadsBack` | pkg/rfseit/stunnel_manager.go:513-523 | for every id, server and setting the printed config reads back its port unless the header line(s) made from the id decide first |
| `TunnelConfig.ConfigRoundTrip` | pkg/rfseit/stunnel_manager.go:273-345 | an id without a line break reads back its port, whatever the server, CA path and check host |
| `TunnelConfig.LineBreakChangesThePort` | pkg/rfseit/stunnel_manager.go:513-523 | an id with a line break can read back another port |
| `TunnelConfig.FileNameRoundTrip` | pkg/rfseit/stunnel_manager.go:237-241 | file names and volume ids correspond one to one |
| `TunnelConfig.FileNameIs` | pkg/rfseit/stunnel_manager.go:393 | a config is named by its volume and .conf |
| `TunnelConfig.WriteShows` | pkg/rfseit/stunnel_manager.go:393-397 | writing a config changes the directory, read as a table, at that volume only, to that port |
| `TunnelConfig.DeleteShows` | pkg/rfseit/stunnel_manager.go:636 | deleting a config removes exactly that volume from the table |
| `TunnelConfig.RecoverExistingTunnels` | pkg/rfseit/stunnel_manager.go:227-266 | the loop over directory entries and file texts is recovery on the table that the files show |
| `TunnelConfig.RecoveryExactly` | pkg/rfseit/stunnel_manager.go:236-260 | from file texts: every in-range config is taken over, and the maps are inverse iff no port is named twice |
| `MountTable.IsTunnelPortInUse` | pkg/rfseit/stunnel_manager.go:703-739 | the counting loop says "in use" iff some line matches or the table is unreadable |
| `MountTable.MountLineMatches` | pkg/rfseit/stunnel_manager.go:712-721 | a line with any options before and after the port, none of them spelling "port=", matches port p iff p's digits begin those of its own port |
| `MountTable.InUseByDigits` | pkg/rfseit/stunnel_manager.go:712-738 | on a whole table of such lines, and lines without a marker or a port option, the text test is true iff some tunnelled mount uses a port that begins with p's digits |
| `MountTable.InUseExactly` | pkg/rfseit/stunnel_manager.go:712-738 | in a range where no port begins another, it is true iff a live tunnelled mount uses the port |
| `MountTable.TestIsRightExactly` | pkg/rfseit/stunnel_manager.go:703-739 | it is right on every such table of a range iff no port of the range begins another |
| `MountTable.ConfiguredRange` | pkg/rfseit/stunnel_manager.go:45-49 | the configured range is of that kind |
| `TunnelCalls.EnsureKeepsRest` | pkg/rfseit/stunnel_manager.go:350-448 | EnsureTunnel keeps the maps inverse and in range, and the directory their mirror unless a failed start cannot delete its file |
| `TunnelCalls.RemoveKeepsRest` | pkg/rfseit/stunnel_manager.go:589-660 | so does RemoveTunnel, on every error path too |
| `TunnelCalls.FailedRemoveChangesNothing` | pkg/rfseit/stunnel_manager.go:626-646 | a RemoveTunnel that reports an error leaves maps and directory as they were |
| `TunnelCalls.FailedEnsureChangesNothing` | pkg/rfseit/stunnel_manager.go:387-428 | a failed EnsureTunnel leaves the maps as they were, and the directory unless a failed start cannot delete its file |
| `TunnelCalls.EnsureIsIdempotent` | pkg/rfseit/stunnel_manager.go:359-384 | a second call returns the first one's port and changes nothing |
| `TunnelCalls.EnsureOutcome` | pkg/rfseit/stunnel_manager.go:350-448 | when EnsureTunnel succeeds, on which port, and what maps, directory, started flag and timer are afterwards: a pending, armed reload unless stunnel was seen to start |
| `TunnelCalls.RemoveOutcome` | pkg/rfseit/stunnel_manager.go:589-660 | when RemoveTunnel succeeds and what is left: with other tunnels a pending, armed reload; after the last one no timer and not started |
| `TunnelCalls.RemoveUndoesEnsure` | pkg/rfseit/stunnel_manager.go:589-660 | removing a tunnel just created gives back maps and directory |
| `TunnelCalls.SoloEnsureIsTheCall` | pkg/rfseit/stunnel_manager.go:350-448 | the uninterrupted steps of EnsureTunnel amount to the call |
| `TunnelCalls.SoloRemoveIsTheCall` | pkg/rfseit/stunnel_manager.go:589-660 | the uninterrupted steps of RemoveTunnel amount to the call |
| `TunnelCalls.RestartOutcome` | pkg/rfseit/stunnel_manager.go:111-162 | a new driver process has the maps of the directory, nothing started and no timer; directory, mounts and stunnel are as before |
| `StunnelManager.Manager.constructor` | pkg/rfseit/stunnel_manager.go:111-162 | a new manager holds what recovery finds in the directory, nothing started, no timer |
| `StunnelManager.Manager.FindAvailablePort` | pkg/rfseit/stunnel_manager.go:756-773 | the loop is the least-free-port scan |
| `StunnelManager.Manager.ScheduleDebouncedSIGHUP` | pkg/rfseit/stunnel_manager.go:452-500 | sets the pending flag and replaces the timer |
| `StunnelManager.Manager.HandleLastTunnelCleanup` | pkg/rfseit/stunnel_manager.go:664-698 | cancels timer and flag; resets stunnelStarted only after a signal that was sent |
| `StunnelManager.Manager.EnsureTunnel` | pkg/rfseit/stunnel_manager.go:350-448 | result, both maps, started flag, timer and directory are those of the call; empty arguments change nothing |
| `StunnelManager.Manager.AnnounceTunnel` | pkg/rfseit/stunnel_manager.go:413-445 | after the commit: schedules a reload, or waits for stunnel and takes the tunnel back if it does not come up |
| `StunnelManager.Manager.RemoveTunnel` | pkg/rfseit/stunnel_manager.go:589-660 | the same for RemoveTunnel, with the in-use test run on the mount table's text; a removal that leaves other tunnels leaves a pending, armed reload |
| `StunnelManager.Manager.FinishRemoval` | pkg/rfseit/stunnel_manager.go:626-659 | the unlocked half: signal, deletion, rollback, schedule |
| `StunnelManager.EnsureDirShows` | pkg/rfseit/stunnel_manager.go:393-427 | the directory texts after EnsureTunnel, read back, are the table of the call, for ids without a line break |
| `StunnelManager.EnsureDirSays` | pkg/rfseit/stunnel_manager.go:393-397 | after a call that made a tunnel the directory has one file more, which says what the printed config says, with the returned port |
| `StunnelManager.EnsureDirStays` | pkg/rfseit/stunnel_manager.go:387-428 | otherwise the directory stays, but for the file of a tunnel whose start failed |
| `StunnelManager.RemoveDirShows` | pkg/rfseit/stunnel_manager.go:636-646 | likewise after RemoveTunnel |
| `StunnelManager.RemoveDirStays` | pkg/rfseit/stunnel_manager.go:636-646 | the file of an unused tunnel is gone iff the call succeeds, and nothing else changes |
| `NodeServer.Server.ProcessMount` | pkg/ibmcsidriver/node_helper.go:31-86 | success iff directory and mount worked, with the source, type, transit mode and options passed; a failure leaves a mount only if the mount command failed with the target mounted and the undo broke off |
| `NodeServer.Server.NodePublishVolume` | pkg/ibmcsidriver/node.go:216-350 | what lands at the target: nfs with the flags without EIT, ibmshare with ipsec for dp2 with EIT, nfs4 on 127.0.0.1 and the share's port for rfs with EIT; malformed requests change nothing; a mounted target is a success |
| `NodeServer.Server.PublishThroughTunnel` | pkg/ibmcsidriver/node.go:300-347 | the share gets its tunnel and config file first; the mount goes to 127.0.0.1 with the share's own port; source or tunnel errors mount nothing |
| `NodeServer.Server.NodeUnpublishVolume` | pkg/ibmcsidriver/node.go:354-417 | unmounts first, and stops at an error even if the mount is gone; then RemoveTunnel on the share named in the id decides the result, the maps and the directory |
| `NodeServer.GrantedPort` | pkg/rfseit/stunnel_manager.go:350-448 | a granted port is the share's own and in range |
| `NodeServer.PublishedLine` | pkg/ibmcsidriver/node.go:338-344 | the options of a tunnelled publish are the mount-table line of the in-use theorem |
| `NodeServer.AcceptedRequestMounts` | pkg/ibmcsidriver/node.go:270-306 | from an accepted request through its labels to the mount: ibmshare with ipsec for dp2 with EIT, a tunnel for rfs with EIT, plain nfs without EIT |
| `NodeServer.UnpublishLeavesNothing` | pkg/ibmcsidriver/node.go:384-394 | id parsing, text test and removal together: an error changes nothing; after a success the share has port and file iff a line still mounts through its port; other shares are untouched |
| `NodeServer.UnpublishOldId` | pkg/ibmcsidriver/controller_helper.go:796-799 | the same for an id in the old format with a colon |
| `Hostname.HostnameExactly` | pkg/ibmcsidriver/node.go:152-169 | the pattern accepts exactly the dot-joined lists of labels of 1 to 63 letters, digits and hyphens with alphanumeric ends |
| `NfsSource.ValidateExportPath` | pkg/ibmcsidriver/node.go:172-211 | accepts iff the traversal tests pass, no control character occurs and components have at most 255 bytes |
| `NfsSource.TraversalCheckExactly` | pkg/ibmcsidriver/node.go:178-189 | for a path starting with '/', the substring tests reject exactly the paths with a ".", ".." or inner empty component |
| `NfsSource.PathExactly` | pkg/ibmcsidriver/node.go:172-211 | a path that starts with '/' is accepted iff it has no control character, no dot or empty inner component, and no component over 255 bytes |
| `NfsSource.SourceExactly` | pkg/ibmcsidriver/node.go:95-150 | a source yields server and path iff it is server:path with a colon-free well-formed server, a well-formed path and at most 4096 bytes |
| `VolumeParameters.ParamStep` | pkg/ibmcsidriver/controller_helper.go:143-277 | one more parameter, on top of any accepted set: rejected iff it is bad or a second primary IP, else the volume of the larger set |
| `VolumeParameters.SecretStep` | pkg/ibmcsidriver/controller_helper.go:507-603 | the same for secrets on top of any volume |
| `VolumeParameters.PlaceLimits` | pkg/ibmcsidriver/controller_helper.go:145-194 | profile, zone, region, tag, groups and subnet: which values a parameter may have |
| `VolumeParameters.GuardLimits` | pkg/ibmcsidriver/controller_helper.go:174-219 | primary IP, ENI, EIT, resource group and encryption: which values |
| `VolumeParameters.ExtraLimits` | pkg/ibmcsidriver/controller_helper.go:238-272 | throughput, ids, iops: which values; unknown names are refused |
| `VolumeParameters.IgnoredParameters` | pkg/ibmcsidriver/controller_helper.go:201-270 | informative parameters change nothing |
| `VolumeParameters.SecretPlaceLimits` | pkg/ibmcsidriver/controller_helper.go:532-586 | the same for secrets |
| `VolumeParameters.SecretGuardLimits` | pkg/ibmcsidriver/controller_helper.go:509-531 | the same for secrets |
| `VolumeParameters.SecretExtraLimits` | pkg/ibmcsidriver/controller_helper.go:556-576 | the same for secrets; iops has to be a number here |
| `VolumeParameters.RefusedSecrets` | pkg/ibmcsidriver/controller_helper.go:595-597 | names that only parameters may have are refused |
| `VolumeParameters.BoolWords` | pkg/ibmcsidriver/controller_helper.go:200-204 | the words allowed for encrypted are true and false, in lower case |
| `VolumeParameters.LowerIs` | pkg/ibmcsidriver/controller_helper.go:186-190 | a comparison after lower-casing ignores case |
| `VolumeParameters.ReadParameters` | pkg/ibmcsidriver/controller_helper.go:143-277 | for every iteration order the loop accepts exactly the good maps and fills in the same volume |
| `VolumeParameters.ReadSecrets` | pkg/ibmcsidriver/controller_helper.go:507-603 | the same for the secrets loop |
| `VolumeRequest.OverrideParams` | pkg/ibmcsidriver/controller_helper.go:500-611 | secrets, resource-group default and dropped key, for every order |
| `VolumeRequest.CheckAndPlace` | pkg/ibmcsidriver/controller_helper.go:338-392 | the network, EIT, bandwidth, iops and zone checks accept exactly the fitting volumes; zone and region come from one segment |
| `VolumeRequest.FirstSegment` | pkg/ibmcsidriver/controller_helper.go:811-819 | the first preferred topology that has segments |
| `VolumeRequest.GetVolumeParameters` | pkg/ibmcsidriver/controller_helper.go:135-406 | for every iteration order of both maps: accepted or rejected alike, and the same volume |
| `VolumeRequest.MapsCombine` | pkg/ibmcsidriver/controller_helper.go:436-446 | secrets win over parameters, except that EIT is an "or"; encryptionKey and encrypted act pass by pass; EIT implies ENI |
| `VolumeRequest.ModesWanted` | pkg/ibmcsidriver/controller_helper.go:396-403 | IPsec iff EIT is asked on dp2, stunnel iff on rfs, none otherwise; security-group mode iff ENI is asked, and always with EIT |
| `VolumeRequest.PlaceWanted` | pkg/ibmcsidriver/controller_helper.go:379-392 | zone and region as given last, or both from the first preferred segment for dp2 with a blank zone |
| `VolumeRequest.NetworkWanted` | pkg/ibmcsidriver/controller_helper.go:409-468 | tags of both maps; subnet and groups as given last |
| `VolumeRequest.PrimaryIPWanted` | pkg/ibmcsidriver/controller_helper.go:449-468 | the primary IP as given, by its id or by its address |
| `VolumeRequest.ExtrasWanted` | pkg/ibmcsidriver/controller_helper.go:305-318 | iops and bandwidth as given last, and the size in GiB |
| `VolumeRequest.OwnerWanted` | pkg/ibmcsidriver/controller_helper.go:279-297 | the owner from the two id parameters, none for 0 and 0 or a snapshot restore |
| `VolumeRequest.AcceptedExactly` | pkg/ibmcsidriver/controller_helper.go:299-392 | a request is accepted iff every entry is, at most one primary IP is given, profile, size and capabilities are there, and zone, network, speed and topology fit the profile |
| `VolumeRequest.OnePrimaryIP` | pkg/ibmcsidriver/controller_helper.go:449-468 | entries fine one by one are accepted iff at most one of the four places gives a primary IP |
| `Capacity.RoundUpIsLeast` | pkg/ibmcsidriver/controller_helper.go:101-102 | rounding gives the least whole number of GiB that is not smaller |
| `Capacity.RejectedExactly` | pkg/ibmcsidriver/controller_helper.go:83-93 | rejected iff the limit is below the request or below the minimum |
| `Capacity.CapacityFits` | pkg/ibmcsidriver/controller_helper.go:95-111 | a positive request gives whole GiB, at least the request and the profile minimum, less than one GiB above their maximum, unchanged by the trip through GiB |
| `Capacity.SizeInBytes` | pkg/ibmcsidriver/controller_helper.go:95-111 | in numbers: the least multiple of 2 to the 30th that is enough, and 10 of them at least unless rfs |
| `Capacity.LimitRespectedExactly` | pkg/ibmcsidriver/controller_helper.go:83-111 | the limit is kept iff a whole number of GiB lies between request and limit |
| `Capacity.LimitCanBeExceeded` | pkg/ibmcsidriver/controller_helper.go:83-111 | a request and limit of 10 GiB and one byte gives 11 GiB |
| `Capacity.RfsRangeWithoutRequest` | pkg/ibmcsidriver/controller_helper.go:95-108 | a range without required bytes gives an rfs share what the rounding makes of 0, no range 1 GiB |
| `Capacity.WholeCapacity` | pkg/ibmcsidriver/controller.go:329 | every accepted size survives the trip into GiB and back |
| `Capacity.MinimumWithoutRequest` | pkg/ibmcsidriver/controller_helper.go:72-108 | without required bytes a share that is not rfs gets 10 GiB, with or without a range |
| `Capacity.NoOverflow` | pkg/ibmcsidriver/controller_helper.go:101-111 | no int64 overflow up to one GiB below its end |
| `VolumeContext.ShareLabels` | pkg/ibmcsidriver/controller_helper.go:662-686 | each identity label is present exactly when due, with its value |
| `VolumeContext.AccessLabels` | pkg/ibmcsidriver/controller_helper.go:688-724 | likewise for region, zone, ENI, server path and EIT; no other label changes |
| `VolumeContext.LabelsSay` | pkg/ibmcsidriver/controller_helper.go:662-686 | the labels of a response one by one, in terms of share and access point |
| `VolumeContext.AccessLabelsSay` | pkg/ibmcsidriver/controller_helper.go:688-724 | region, zone, ENI, groups and EIT labels one by one |
| `VolumeContext.CreateCSIVolumeResponse` | pkg/ibmcsidriver/controller_helper.go:651-738 | the printed id and the complete label map |
| `VolumeContext.PublishAndUnpublishAgree` | pkg/ibmcsidriver/controller_helper.go:665-685 | the share in the label and the share parsed from the id are one iff the share id holds no '#' |
| `VolumeContext.ModesAgree` | pkg/ibmcsidriver/node.go:270-306 | with the requested profile returned, the node's mode is the requested one, and an encrypted mount is in security_group mode |
| `VolumeContext.ModesAgreeExactly` | pkg/ibmcsidriver/controller.go:323-329 | for an EIT request on dp2 or rfs the modes agree iff the provider returns the requested profile |
| `VolumeContext.NoEITMeansPlain` | pkg/ibmcsidriver/controller_helper.go:394-403 | without EIT the mount is plain nfs, whatever the provider returns |
| `VolumeContext.EITHonouredExactly` | pkg/ibmcsidriver/controller_helper.go:145-150 | every accepted EIT request is encrypted iff the profile check admits dp2 and rfs only |
| `VolumeId.TokensExactly` | pkg/ibmcsidriver/controller_helper.go:792-796 | printing then splitting gives back share and access point iff neither holds '#' |
| `VolumeId.ShareExactly` | pkg/ibmcsidriver/node.go:384-388 | the first token is the share iff the share holds no '#' |
| `VolumeId.OldTokensExactly` | pkg/ibmcsidriver/controller_helper.go:796-799 | an old id without '#' splits at its colon into share and access point iff there is no other colon |
| `VolumeId.OldShareExactly` | pkg/ibmcsidriver/controller_helper.go:796-799 | its share is what stands before the colon iff it holds none |
| `VolumeId.PrintedIsInjective` | pkg/ibmcsidriver/controller_helper.go:730 | equal printed ids name equal shares and access points |
| `Provisioning.GoodAlways` | pkg/ibmcsidriver/controller.go:148-156 | over every interleaving of calls, failures and crashes: ids stay tied to their names, access points to their volumes, first access points stay first |
| `Provisioning.OneLiveId` | pkg/ibmcsidriver/controller.go:266-329 | of all ids ever returned for a name at most one names an existing access point |
| `Provisioning.NamesNeverShare` | pkg/ibmcsidriver/controller.go:266-329 | ids returned for different names share neither volume nor access point |
| `Provisioning.SameIdExactly` | pkg/ibmcsidriver/controller.go:266-329 | two CreateVolume calls for one name return one id iff the first one's access point still exists |
| `Provisioning.StableId` | pkg/ibmcsidriver/controller.go:148-329 | failed, lost, retried and overlapping calls return one id as long as no removal takes effect in between |
| `Provisioning.FallThroughIsHarmless` | pkg/ibmcsidriver/controller.go:148-156 | a lookup error on a taken name goes on to create, is refused and changes nothing |
| `Provisioning.RetryFindsTheLostVolume` | pkg/ibmcsidriver/controller.go:148-156 | a creation that took effect but failed is found, not repeated |
| `Provisioning.CreateRefused` | pkg/ibmcsidriver/controller.go:79-156 | a missing name, another size under that name, or no network: the call fails and nothing is created |
| `Provisioning.CreateNew` | pkg/ibmcsidriver/controller.go:266-321 | for a name not found: what each answer to the creation leaves, and which id is returned |
| `Provisioning.CreateFound` | pkg/ibmcsidriver/controller.go:148-156 | for a name found with the right size: nothing is created and its first access point is returned |
| `Provisioning.MakePointOutcome` | pkg/ibmcsidriver/controller.go:292-312 | an existing access point is returned, a new one is the only one, a refusal changes nothing |
| `Provisioning.DeleteAimsAtTheGrant` | pkg/ibmcsidriver/controller.go:361-369 | DeleteVolume on a returned id works on that volume and access point |
| `Provisioning.DeleteAimsAtTheOldId` | pkg/ibmcsidriver/controller.go:361-369 | so does DeleteVolume on an id of the old format |
| `Provisioning.DeleteTouchesNothingElse` | pkg/ibmcsidriver/controller.go:376-408 | each step leaves every other volume and every other access point alone |
| `Provisioning.WaitsBeforeDropping` | pkg/ibmcsidriver/controller.go:391-404 | over every run a volume is deleted only after that call's own access-point wait succeeded |
| `Provisioning.PointGoesFirst` | pkg/ibmcsidriver/controller.go:384-404 | when the volume of a returned id is deleted its access point is gone |
| `Provisioning.DeletedExactly` | pkg/ibmcsidriver/controller.go:370-374 | success leaves the volume behind iff a not-found or retrieval error was reported while it existed |
| `Provisioning.RepeatedDelete` | pkg/ibmcsidriver/controller.go:370-374 | over every run, once gone, a repeated delete succeeds at its lookup iff that does not fail with another error |
| `Provisioning.DeleteAgain` | pkg/ibmcsidriver/controller.go:370-374 | the whole repeated call succeeds and changes nothing |
| `Provisioning.DeleteUndoesCreate` | pkg/ibmcsidriver/controller.go:337-409 | deleting what was created gives back the provider's volumes |
| `Provisioning.RetrievalErrorLeaks` | pkg/ibmcsidriver/controller_helper.go:629-640 | a retrieval error at the lookup makes DeleteVolume succeed with everything in place |
| `Provisioning.HalfDeletionChangesTheId` | pkg/ibmcsidriver/controller.go:384-396 | a deletion that stops after the access point makes the next CreateVolume return another id for the same volume |
| `Controller.Controller.Admit` | pkg/ibmcsidriver/controller.go:79-144 | exactly the admitted requests reach the provider, with the volume they ask for |
| `Controller.AdmittedExactly` | pkg/ibmcsidriver/controller.go:79-144 | name, capabilities, session, content source, an accepted request, and rfs only where enabled |
| `Controller.ReachableExactly` | pkg/ibmcsidriver/controller.go:202-236 | a subnet has to be found iff ENI is asked with neither a subnet nor the id of a reserved IP |
| `Controller.NetworkInLabels` | pkg/ibmcsidriver/controller.go:209-259 | the labels carry the requested subnet and groups, else those found, and the configured cluster and region |
| `Controller.ResponseSays` | pkg/ibmcsidriver/controller.go:314-329 | the response names volume and access point, has the accepted size in bytes, and its labels name the same |
| `Controller.Controller.ChooseNetwork` | pkg/ibmcsidriver/controller.go:202-263 | subnet and security groups: as requested, else as found; fails iff a subnet is needed and none is found |
| `Controller.Controller.ObtainShare` | pkg/ibmcsidriver/controller.go:265-321 | the calls from creation to wait are the steps of the protocol |
| `Controller.Controller.MakeAccessPoint` | pkg/ibmcsidriver/controller.go:292-312 | creates an access point, or returns the one that exists |
| `Controller.Controller.CreateVolume` | pkg/ibmcsidriver/controller.go:72-330 | rejects without a provider call, or is the protocol's call; the response carries that volume's id, the accepted size in bytes, and the labels of the request with the chosen subnet and groups, the cluster and the region |
| `Controller.Controller.DeleteVolume` | pkg/ibmcsidriver/controller.go:337-409 | is the protocol's call; a malformed id fails unchanged |
| `Controller.Controller.DropAll` | pkg/ibmcsidriver/controller.go:376-408 | access point, wait, volume, in that order |

## Left out

- Real effects of the operating system and of the provider: only their answers are modelled, as arguments.
- Partial config writes and the 64 KiB line limit of the line scanner: writes are whole and lines of any length.
- Volume ids with a path separator: a config file is named by id and `.conf` in one flat directory.
- The exact options that the kernel prints: a mount-table line shows the source, the target, the type and any options around the port option, none of which spells "port="; `NodeServer.PublishedLine` covers the line that echoes publish's own options.
- GetTunnelPort: one lookup.
- The step machine's in-use test is exact on its mounts; `MountTable.InUseExactly` is what the text test needs for that.
- Name uniqueness and fresh ids are properties of the provider, taken as given: its store is keyed by name.
- The mount-point query: a successful query answers truthfully.
- The mutex held from the last-tunnel signal to the reset of stunnelStarted: the machine lets timer steps happen in between, so it has more runs than the code.
- The startup wait reads whether stunnel runs once at its start and once at its end; stunnel reads the directory whenever it starts.
- SIGHUP internals (pid file, `pgrep` output): a reload is signalled, finds the process gone, or fails.
- The provider's wait for an access point returns the access point it was asked for; CreateVolumeAccessPoint returns an existing one.
- Error codes and messages: an error is an error, so the order of two failing checks is not visible; checkMountResponse only picks a message.
- The profile check `ListContainsSubstr` is a parameter; that it means exact membership is a hypothesis wherever it is used.
- `RoundUpBytes`, `BytesToGiB` and the minimum size of 10 GiB are taken as the size tests of the repository show them for positive sizes; that `RoundUpBytes` gives 0 for 0 is an assumption of this model; `net.ParseIP` is a parameter.
- Parameter and label names are constructors of a datatype, with one constructor for every unknown parameter name.
- Strings are sequences of code points, with UTF-8 lengths where the driver counts bytes; lower-casing is that of ASCII.
- CA bundle and cluster environment detection, config_watcher.go, logging, metrics, server and socket set-up: single-branch choices and plumbing.
- isValidCapacityIOPS: never called by the driver.
- List, stats, expand and snapshot calls: thin pass-throughs.
- The truth of a provider that answers: a successful wait or deletion means that the access point or the volume is gone.
- ProtocolReload.QuietMeansLoaded: a restart or a reload that fails is excluded; `Traces.RestartForgetsReload` and `Traces.FailedReloadIsDropped` show why, and `ProtocolReload.FreshOverRuns` is the statement without hypotheses.
- ProtocolSafety.GuardedTunnelSafety: the reverse index needs the bind-test hypothesis; `Traces.PortNamedTwice` is a run without it, and `ProtocolMounts.BackedOverRuns` is the statement without hypotheses.
