# Verification models of v3xctrl

v3xctrl drives a vehicle over the network: a streamer on the vehicle sends video and takes
control messages, a viewer shows the video and sends control, spectators watch, and a relay
connects them. This project models the parts of it in which several pieces of state have to
stay in step, and proves what they promise. `dafny verify dfyconfig.toml` checks everything.

**The relay** (`RelayTypes`, `RelaySpec`, `SessionObjects`, `PacketRelay`, `ExactTables`,
`LiveTables`, `SharedAddresses`, `IndexHistory`, `OwnerlessKeys`, `AbandonedAddresses`,
`CleanupRace`, `ForwardSnapshot`, `LockPrograms`, `SessionOrder` and the files `Relay*`,
`Spectator*`, `*Loops`). `RelaySpec` says, without loops, what each method does to the four dictionaries of
the relay: sessions, forwarding table, spectator index and TCP targets. `SessionObjects` and
`PacketRelay` hold the same methods as classes over shared session and spectator objects,
changed in place by loops, and each is proved to have the specified effect on the whole state.
The theorems about runs are proved about the specification: the table is exactly that of a ready
session, no traffic crosses sessions or port types, the spectator index refines a scan, cleanup
equals a filter, announcing again is idempotent. `ExactTables` and `LiveTables` carry the first
of these through whole runs. `RelayAdmission` says who gets on record, `RelayTimes` where every
time stamp comes from, `SessionOrder` in which order sessions are gone through, `RelayConnections`
which TCP connections are known. `SharedAddresses` and `IndexHistory` treat addresses that
spectate several sessions, `RelayLeftovers`, `OwnerlessKeys` and `AbandonedAddresses` what
registrations leave behind, `CleanupRace` packets that arrive during a cleanup pass. `RelayLocks`
runs any number of threads over the lock skeletons of all methods and proves that they never
deadlock. `ForwardSnapshot` interleaves one `forward_packet` with everything else in small steps,
over mapping and set objects, and proves that it serves a consistent snapshot.

**Commands** (`ServerCommands`, `ServerObject`, `ServerLocks`, `Dispatch`, `CommandDelivery`). A
state machine of the retry task, acknowledgements and `stop()` under every interleaving, the
server object whose critical sections carry it out, the dispatch of messages to handlers, and
the end-to-end composition with a network that loses, repeats and reorders packets.

**Streams and displays** (`Bytes`, `Framing`, `Sei`, `FrameBuffer`, `ClockOffset`,
`UdpReceiver`, `CalibrationSpec`, `CalibrationRuns`, `Calibrator`, with `Reals` for division).
Length-prefixed messages on a TCP stream with the rule that a target is dead after a failed
send; the H.264 SEI timestamp (ITU-T H.264, Annex B and Annex D); the frame buffer with its
three pick policies; the clock-offset estimate; the ordering filter of the UDP receiver; gamepad
calibration.

Where the code does not do what its description says, the model follows the code:

- `MessageHandler` describes handlers as called in the order of registration. The code groups
  them by class; `Dispatch.OrderKeptIff` says exactly when the two agree.
- A command's callback can be told its result twice; `ServerCommands.FiresTwiceIff` says exactly
  when, `ServerCommands.BothResultsIff` when the two results differ and when both are False.
- A stream timeout clears the frames but not their timing entries;
  `FrameBuffer.Receiver.ClearFrames` and `Stale()` say by how much the display times are off, and
  `FrameBuffer.Play` how far off they are after any session.
- The frame counters start again from zero at every log interval, also while frames are buffered;
  `FrameBuffer.Receiver.Conservation` is the equation they still satisfy.
- A calibration can be completed exactly with a dialog and at least two axes
  (`CalibrationRuns.CompletionIff`).
- An address that spectates several sessions keeps only the one it announced last alive, and not
  even that one after it was removed from the index. `IndexHistory.AgreeIff` says from the history
  exactly when index and scan agree, and `SharedAddresses.TwoSessionsDiffer` is a run in which they
  do not.
- The server calls callbacks while it holds its lock. One that calls `send_command` or `stop` can
  block its thread for ever; `ServerLocks.NeverBlocksIff`.
- A late Command, CommandAck or Latency moves the timestamp to beat backwards
  (`UdpReceiver.LateCommandAdmitsLateControl`); `UdpReceiver.NewestToBeatIff` says that nothing
  else does.
- A packet that arrives during a cleanup pass after its role was tested does not save its mapping
  (`CleanupRace.LostIff`, `CleanupRace.PacketTooLate`).
- Mappings stay in the table without an owner: those of an overwritten session that are not
  shared, and that of a peer that is replaced while its session is not ready, which keeps sending
  to a partner that may have expired. `OwnerlessKeys.OwnerlessInRuns` says for every run exactly
  which, `RelayLeftovers.AllThreeHappen` and `OwnerlessKeys.KeyOutlivesItsPeer` are runs of the two
  kinds. No cleanup pass removes them.
- Spectators of an overwritten session stay in the reverse index (`IndexHistory.StaleInRuns`), and
  sessions keep abandoned peer addresses on record (`AbandonedAddresses.AbandonedInRuns`).
- The SEI unit has no emulation prevention bytes (section 7.4.1 of ITU-T H.264);
  `Sei.EmulationIff` says for exactly which timestamps it would need them.

The clocks, the answers of the session store, the liveness of TCP connections, chunk sizes,
network faults and exceptions of handlers are inputs of the model, and the theorems hold for all
of them. Times and measurements are real numbers, so rounding of floating-point numbers is not
part of this model.

## Model

| member | source | states |
|---|---|---|
| RelaySafety.TrafficStaysWithinOneSession | src/v3xctrl_relay/PacketRelay.py:399-435 | in every run, if the table sends from `a` to `b`, some one session and one port type accepted the two as a streamer/viewer pair or as streamer and spectator; nothing crosses sessions or port types and a spectator-only address is never a source |
| RelaySafety.AlwaysSafe | src/v3xctrl_relay/PacketRelay.py:437-463 | the same as an invariant of every reachable state, whatever addresses are announced |
| RelaySafety.LogIsAnnounced | src/v3xctrl_relay/PacketRelay.py:104-142 | everything in the log of accepted announcements was announced in the run |
| RelayAdmission.LogIsAdmitted | src/v3xctrl_relay/PacketRelay.py:104-142 | in every run the log holds exactly what was announced with the text streamer or viewer while the store knew the session, or with the text spectator and an id for which the store gave a non-empty session, and with the text video or control |
| RelayAdmission.OnRecordWasAdmitted | src/v3xctrl_relay/PacketRelay.py:104-145 | in every run each address on record was admitted for that session, role and port |
| RelayAdmission.AdmittedIsOnRecord | src/v3xctrl_relay/PacketRelay.py:144-151 | an admitted announcement puts its sender on record with the time of the announcement, over TCP exactly if it has connected that way |
| RelayAdmission.RefusedRegistersNobody | src/v3xctrl_relay/PacketRelay.py:104-142 | an announcement that is not admitted leaves sessions, peers, keys, connections and time stamps as they were and adds no target; unless it is that of a streamer or viewer it changes nothing at all |
| RelayAdmission.PeerStopsSpectating | src/v3xctrl_relay/PacketRelay.py:119-120 | who announces itself as streamer or viewer, admitted or not, spectates no more unless it spectated several sessions, and no other spectator goes |
| SessionOrder.OrderOfCreation | src/v3xctrl_relay/PacketRelay.py:208-219 | in every run the sessions are gone through in the order of their creation, whatever was removed and created again in between |
| RelayTimes.StampsInRuns | src/v3xctrl_relay/PacketRelay.py:144-463 | in every run the time stamp of each mapping, session and spectator is the time of the last event that touched it: a packet its sender's mapping; an admitted announcement its session, its spectator and the mappings it changes or serves; a stray packet the spectator of the index; a pass the silent spectators with a live connection |
| RelayTimes.StampAfterStep | src/v3xctrl_relay/PacketRelay.py:144-463 | the same for one event: who is touched gets the event's time, everyone else keeps theirs |
| RelayTimes.StampAfterSpectator | src/v3xctrl_relay/PacketRelay.py:173-191 | a spectator that waits for its session or its second port adds no key and no target and changes no time; else exactly its streamer's keys are stamped |
| RelayConnections.ConnectionsInRuns | src/v3xctrl_relay/PacketRelay.py:92-95 | in every run a TCP connection is known exactly if it was opened, was not replaced since, and at each pass since then was alive or its address had a mapping |
| RelayConnections.ConnectionsAfterStep | src/v3xctrl_relay/PacketRelay.py:92-95 | one event of any kind: what it does to each connection |
| RelayConnections.ConnectionsAfterCleanup | src/v3xctrl_relay/PacketRelay.py:261-268 | a pass keeps exactly the live connections and those of addresses with a mapping, and never loses a live one |
| RelaySafety.UpdateIsSafe | src/v3xctrl_relay/PacketRelay.py:387-435 | rebuilding a session's mappings adds only pairs of that session |
| RelaySafety.AttachIsSafe | src/v3xctrl_relay/PacketRelay.py:437-470 | attaching spectators adds only streamer-to-spectator targets of that session and port |
| RelaySafety.CleanupIsSafe | src/v3xctrl_relay/PacketRelay.py:246-349 | a cleanup pass only removes keys and targets |
| RelayTable.TableAfterRegistration | src/v3xctrl_relay/PacketRelay.py:144-171 | after any run, when a peer registers into a session that is then ready with four distinct addresses, the table restricted to the session's recorded addresses is exactly: streamer(p) to viewer(p) and every complete spectator's p-address, viewer(p) to streamer(p); no abandoned address is a key, no other session shares an address |
| RelayTable.RegisteringIsExact | src/v3xctrl_relay/PacketRelay.py:387-470 | the same for one registration into any state with grouped spectators |
| RelayTable.AllCompleteAreFound | src/v3xctrl_relay/PacketRelay.py:465-470 | looking up every address of every complete spectator attaches exactly the complete spectators, each under the right port |
| RelayTable.AnnouncingAgainIsIdempotent | src/v3xctrl_relay/PacketRelay.py:410-430 | a registered peer of an exact, unshared session may announce itself again: no target of the whole table changes, viewer keys keep their time stamps, streamer keys too when no complete spectator is attached |
| ExactTables.EveryReadyTableIsExact | src/v3xctrl_relay/PacketRelay.py:104-349 | in every run whose accepted addresses each serve one session, role and port, the table of every ready session is exact at all times, whatever registrations, refused announcements, packets, cleanup passes and other sessions come in between |
| ExactTables.AlwaysExact | src/v3xctrl_relay/PacketRelay.py:104-349 | the same as an invariant of every reachable state, with the addresses on record |
| LiveTables.TargetsAlwaysExact | src/v3xctrl_relay/PacketRelay.py:104-349 | with a weaker assumption, that at no time an address has two uses: the targets of every ready session are exact at all times, though addresses may move from session to session and role to role |
| LiveTables.OneUseIsLive | src/v3xctrl_relay/PacketRelay.py:104-142 | every run whose accepted addresses have one use each is such a run |
| ExactTables.CleaningKeepsExact | src/v3xctrl_relay/PacketRelay.py:270-330 | a cleanup pass takes silent spectators off exactly the targets of their own streamer and leaves every session that stays ready exact |
| ExactTables.RepeatedAnnouncementInRuns | src/v3xctrl_relay/PacketRelay.py:104-171 | in every such run a peer of a ready session may announce itself again, through the whole of `register_peer`: no target of the whole table changes and the session's table stays exact |
| RelayTable.JoiningKeepsTargetsExact | src/v3xctrl_relay/PacketRelay.py:173-191 | a spectator that joins, changes a port or completes its ports leaves the session's targets exact |
| RelayTable.AudienceAfterJoining | src/v3xctrl_relay/custom_types.py:77-99 | what a spectator's announcement does to the set of addresses that listen on one port |
| SpectatorIndex.HeartbeatRefinesScan | src/v3xctrl_relay/PacketRelay.py:202-206 | in every run in which an address announces one port type and spectates at most one live session at a time, the index lookup refreshes exactly the live entry a scan of all sessions finds and changes nothing else, stale index entries included |
| SharedAddresses.LookupEqualsScanInRuns | src/v3xctrl_relay/PacketRelay.py:202-206 | in every run, with no assumption about who announces what: a later heartbeat does what a scan would do if and only if the index points to the entry of the first session, in dictionary order, in which the address spectates |
| IndexHistory.AgreeIff | src/v3xctrl_relay/PacketRelay.py:173-219 | the same from the history: if and only if the first session in which the address spectates, if any, is that of its last accepted announcement as a spectator, and it was not removed from the index since |
| IndexHistory.AlwaysFollows | src/v3xctrl_relay/PacketRelay.py:173-219 | in every run the index has exactly the addresses that joined and were not removed since, each for the entry of its last session that uses it |
| SharedAddresses.LastAnnouncementWins | src/v3xctrl_relay/PacketRelay.py:182-206 | an address may spectate several sessions: right after an announcement in any run its heartbeat agrees with the scan if and only if the session it announced itself to is the first in which it spectates |
| SharedAddresses.AlwaysDifferent | src/v3xctrl_relay/PacketRelay.py:173-191 | in every run the live spectator entries are different objects, so a heartbeat refreshes at most one |
| SharedAddresses.TwoSessionsDiffer | src/v3xctrl_relay/PacketRelay.py:202-206 | two announcements of one address to two sessions after which heartbeat and scan differ |
| SpectatorIndex.LookupEqualsScan | src/v3xctrl_relay/PacketRelay.py:202-206 | the same for one state whose index is right about every live entry |
| SpectatorIndex.IndexStaysOk | src/v3xctrl_relay/PacketRelay.py:173-219 | every event of such a run keeps the index right about every live entry |
| SpectatorIndex.RegisterSpectatorKeepsIndex | src/v3xctrl_relay/PacketRelay.py:173-184 | the entry's new address enters the index, its replaced one leaves it, all other live entries keep theirs |
| SpectatorIndex.RemoveSpectatorKeepsIndex | src/v3xctrl_relay/PacketRelay.py:208-219 | an entry leaves the index together with its session's list |
| SpectatorIndex.CleanupKeepsIndex | src/v3xctrl_relay/PacketRelay.py:303-349 | cleanup removes index entries only together with their spectators |
| SpectatorIndex.RegisterPeerKeepsIndex | src/v3xctrl_relay/PacketRelay.py:432-435 | overwriting a session leaves its index entries behind without hurting live ones |
| SpectatorGrouping.AlwaysGrouped | src/v3xctrl_relay/custom_types.py:77-119 | in every reachable state entries are non-empty, each uses a single IP, and different entries of a session have different IPs |
| SpectatorGrouping.LookupIsUnambiguous | src/v3xctrl_relay/custom_types.py:114-119 | the lookup by address finds the only entry that uses the address; entries share no address |
| SpectatorGrouping.RegisterKeepsGrouped | src/v3xctrl_relay/custom_types.py:77-99 | registering a spectator port keeps the grouping by IP |
| SpectatorGrouping.RemoveKeepsGrouped | src/v3xctrl_relay/custom_types.py:101-112 | removing an entry keeps the grouping by IP |
| SpectatorGrouping.KeepActiveKeepsGrouped | src/v3xctrl_relay/PacketRelay.py:315-329 | removing inactive entries keeps the grouping by IP |
| RelayCleanup.CleanupExactly | src/v3xctrl_relay/PacketRelay.py:246-349 | one pass, in terms of the state before it: the surviving sessions, emptied roles, dropped mappings, dropped targets and the spectator filter, each exactly characterised |
| RelayCleanup.RecentTrafficIsKept | src/v3xctrl_relay/PacketRelay.py:282-298 | a mapping touched within the timeout before the pass survives it, with its time stamp |
| CleanupRace.LostIff | src/v3xctrl_relay/PacketRelay.py:274-301 | with packets between the locked regions: a mapping is lost if and only if a role it belongs to was idle at the moment of its test, whatever comes afterwards |
| CleanupRace.RecentAtTheTest | src/v3xctrl_relay/PacketRelay.py:282-298 | a mapping whose last packet was recent at each test of its roles survives, with the time of its last packet |
| CleanupRace.PacketTooLate | src/v3xctrl_relay/PacketRelay.py:282-298 | every idle streamer's mapping can be refreshed after the test and is popped all the same |
| CleanupRace.QuietPassIsAtomic | src/v3xctrl_relay/PacketRelay.py:270-301 | without packets in between, testing first and popping afterwards is the atomic phase of the specification |
| RelayLeftovers.OwnerlessIff | src/v3xctrl_relay/PacketRelay.py:144-171 | after any registration of a peer, ready session or not: a key has no owner if and only if it was a key before, the table is not rebuilt or the session does not have it on record, and every session that owns it with the new peer on record is overwritten |
| OwnerlessKeys.ReplacedLosesOwnerIff | src/v3xctrl_relay/PacketRelay.py:144-163 | in a session that is not ready even with the new peer, a key loses its last owner if and only if it is the address the new peer replaces and no other peer of any session has it |
| OwnerlessKeys.StepOwnerless | src/v3xctrl_relay/PacketRelay.py:104-349 | one event of any kind: a key is without an owner afterwards if and only if it was and no accepted peer reclaims it, or an accepted peer disowns it; packets, heartbeats, spectators, refused announcements and cleanup change nothing about it |
| OwnerlessKeys.OwnerlessInRuns | src/v3xctrl_relay/PacketRelay.py:104-349 | in every run the keys without an owner are exactly those that an announcement disowned and no later one reclaimed |
| OwnerlessKeys.CleaningKeepsOwners | src/v3xctrl_relay/PacketRelay.py:270-349 | a cleanup pass drops a key together with a role that owns it, or not at all: keys without an owner are never dropped and none arises |
| OwnerlessKeys.KeyOutlivesItsPeer | src/v3xctrl_relay/PacketRelay.py:144-163 | a run of four peers in which the viewer expires and a new streamer replaces the old one: the old streamer's key, on record and in no overwritten session, keeps sending to the expired viewer |
| RelayLeftovers.StaleIff | src/v3xctrl_relay/PacketRelay.py:432-435 | after a registration an index entry stands for no live spectator if and only if all it stood for were in overwritten sessions |
| IndexHistory.StaleInRuns | src/v3xctrl_relay/PacketRelay.py:173-219 | in every run an index entry stands for no live spectator if and only if the address joined, was not removed since, and its last session is gone or has lost it |
| RelayLeftovers.AbandonedIff | src/v3xctrl_relay/custom_types.py:69-75 | a replaced peer address stays on record without a user if and only if nothing else in the session uses it |
| AbandonedAddresses.StepAbandons | src/v3xctrl_relay/PacketRelay.py:104-349 | one event of any kind: a live session abandons an address if and only if it did and the address does not join it again, or a new peer takes its port and nothing else in the session uses it |
| AbandonedAddresses.AbandonedInRuns | src/v3xctrl_relay/PacketRelay.py:104-349 | in every run the addresses a session keeps on record without a use are exactly those whose port a new peer took, while the session has lived and they have not joined it again |
| RelayLeftovers.AllThreeHappen | src/v3xctrl_relay/PacketRelay.py:421-435 | a run that ends with a key without owner, a stale index entry and an abandoned address |
| RelayLeftovers.KeysAfterRegistration | src/v3xctrl_relay/PacketRelay.py:421-435 | the keys of the table after a registration into a ready session, and which sessions are left |
| RelayCleanup.NoEmptySessionIsLeft | src/v3xctrl_relay/PacketRelay.py:332-349 | no session with all roles empty survives, and a recently announced session keeps its roles |
| RelayCleanup.KeepIsFilter | src/v3xctrl_relay/PacketRelay.py:315-329 | the reversed deletion loop over the spectators equals filtering the list |
| RelayCleanup.IndexAfterCleanup | src/v3xctrl_relay/PacketRelay.py:322-346 | exactly the addresses of removed spectators leave the reverse index |
| RelayCleanup.AddressesAfterCleanup | src/v3xctrl_relay/PacketRelay.py:291-330 | a surviving session forgets exactly the addresses of its emptied roles and removed spectators |
| RelayCleanup.DroppedTargets | src/v3xctrl_relay/PacketRelay.py:499-507 | a target leaves a mapping exactly when an inactive spectator of that streamer's session used it |
| SessionObjects.SpectatorEntry.RegisterPort | src/v3xctrl_relay/custom_types.py:33-41 | records the port and reports the address it pushed out |
| SessionObjects.SpectatorEntry.GetAddresses | src/v3xctrl_relay/custom_types.py:46-47 | the set of the entry's addresses |
| SessionObjects.Session.RegisterPeer | src/v3xctrl_relay/custom_types.py:69-75 | the session's value changes as specified; an abandoned address stays on record |
| SessionObjects.Session.RegisterSpectator | src/v3xctrl_relay/custom_types.py:77-99 | finds the entry of the same IP or adds one, in place, as specified |
| SessionObjects.Session.RemoveSpectatorByAddress | src/v3xctrl_relay/custom_types.py:101-112 | drops the first entry that uses the address, and its addresses |
| SessionObjects.Session.FindSpectator | src/v3xctrl_relay/custom_types.py:114-119 | the first entry that uses the address |
| SessionObjects.Session.IsReady | src/v3xctrl_relay/custom_types.py:121-125 | all four ports are present |
| PacketRelayObjects.PacketRelay.Announce | src/v3xctrl_relay/PacketRelay.py:104-171 | `register_peer` as a whole: the new state of all four dictionaries and of every session and spectator object is that of the specification |
| PacketRelayObjects.PacketRelay.RegisterPeer | src/v3xctrl_relay/PacketRelay.py:144-169 | a streamer or viewer of a known session |
| PacketRelayObjects.PacketRelay.RegisterSpectator | src/v3xctrl_relay/PacketRelay.py:173-191 | a spectator of a known session |
| PacketRelayObjects.PacketRelay.UpdateMappings | src/v3xctrl_relay/PacketRelay.py:387-435 | rebuilds the session's mappings, keeps time stamps of unchanged ones, deletes overwritten sessions |
| PacketRelayObjects.PacketRelay.SetupSpectatorMappings | src/v3xctrl_relay/PacketRelay.py:437-463 | attaches the entry found under the address to the streamer's targets |
| PacketRelayObjects.PacketRelay.SetupAllSpectatorMappings | src/v3xctrl_relay/PacketRelay.py:465-470 | attaches all complete spectators, in any order of addresses |
| PacketRelayObjects.PacketRelay.RemoveSpectatorFromAllSessions | src/v3xctrl_relay/PacketRelay.py:208-219 | the first session, in dictionary order, in which the address spectates loses the entry |
| PacketRelayObjects.PacketRelay.RemoveSpectatorFromMappings | src/v3xctrl_relay/PacketRelay.py:499-507 | takes the addresses out of the streamer's targets and changes nothing else |
| PacketRelayObjects.PacketRelay.UpdateSpectatorHeartbeat | src/v3xctrl_relay/PacketRelay.py:202-206 | one lookup in the index; the shared entry object changes for its session too |
| PacketRelayObjects.PacketRelay.Forward | src/v3xctrl_relay/PacketRelay.py:229-234 | the mapping's time stamp, and the targets handed out |
| PacketRelayObjects.PacketRelay.ForwardPacket | src/v3xctrl_relay/PacketRelay.py:221-244 | each target exactly once: without TCP connection at once, with a live one deferred, with a dead one not at all |
| PacketRelayObjects.SplitTargets | src/v3xctrl_relay/PacketRelay.py:236-244 | the loop over the targets: each address once, in the right list |
| PacketRelayObjects.PacketRelay.CleanupExpiredMappings | src/v3xctrl_relay/PacketRelay.py:246-259 | the whole pass has the specified effect on all four dictionaries and all objects |
| PacketRelayObjects.PacketRelay.CleanupDeadTcpTargets | src/v3xctrl_relay/PacketRelay.py:261-268 | dead TCP targets without mapping leave the dictionary |
| PacketRelayObjects.PacketRelay.CleanupExpiredRoles | src/v3xctrl_relay/PacketRelay.py:270-301 | roles whose mappings have all expired are emptied, their mappings popped |
| PacketRelayObjects.PacketRelay.CleanupInactiveSpectators | src/v3xctrl_relay/PacketRelay.py:303-330 | the reversed in-place deletion over all sessions that still have a role |
| PacketRelayObjects.PacketRelay.CleanupEmptySessions | src/v3xctrl_relay/PacketRelay.py:332-349 | sessions without roles go, with their index entries |
| PacketRelayObjects.PacketRelay.SpectatorHasActiveTcp | src/v3xctrl_relay/PacketRelay.py:485-493 | some address of the entry has a live TCP connection |
| PacketRelayObjects.PacketRelay.NoteTcpTarget | src/v3xctrl_relay/PacketRelay.py:92-95 | the connection is recorded for the address |
| RelayLocks.EveryThreadCanFinish | src/v3xctrl_relay/PacketRelay.py:61-65 | for any number of threads running the relay's methods with non-reentrant locks, from every reachable state all running threads can be run to their end: no deadlock |
| RelayLocks.LocksAreTakenInOrder | src/v3xctrl_relay/PacketRelay.py:61-65 | a thread about to take a lock holds only locks that come earlier: session, then mapping, then a target's own; no lock is taken again by its holder |
| RelayLocks.MethodsAreOrdered | src/v3xctrl_relay/PacketRelay.py:92-349 | every method, as a text over the locks it takes, follows the order |
| RelayLocks.LocksOfEachMethod | src/v3xctrl_relay/PacketRelay.py:92-349 | which kinds of locks each method takes, and inside which others |
| RelayLocks.OthersAreOrdered | src/v3xctrl_relay/RelayServer.py:163-224 | the statistics of the server, the heartbeat, the packet path and a target's `send` follow it as well |
| LockPrograms.SomeThreadIsFree | src/v3xctrl_relay/PacketRelay.py:61-65 | following the holders of the locks that threads wait for ends at a thread that can go on |
| ForwardSnapshot.ForwardingIsASnapshot | src/v3xctrl_relay/PacketRelay.py:221-244 | however other threads interleave, there is one moment during the call at which the table listed exactly the addresses served, each served exactly once, split into inline sends, live deferred targets and dead dropped ones |
| ForwardSnapshot.NotFoundIsHonest | src/v3xctrl_relay/PacketRelay.py:229-232 | the call returns None only if the table had no mapping at some moment of the call |
| ForwardSnapshot.StampedUnderLock | src/v3xctrl_relay/PacketRelay.py:228-233 | in every run the mapping that is stamped is the one the table holds at that moment; the lock is held from the lookup to the stamp and no longer |
| ForwardSnapshot.ChangeKeepsMapping | src/v3xctrl_relay/PacketRelay.py:458-463 | other threads change the targets only of mappings in the table, so a mapping that left it keeps its last listed targets |
| ForwardSnapshot.ChangeKeepsWalk | src/v3xctrl_relay/PacketRelay.py:499-507 | target sets are replaced, never changed, while the walk goes on |
| ServerCommands.FiresTwiceIff | src/v3xctrl_control/Server.py:88-105 | a command's callback gets a second result if and only if an error path pops an entry that is already gone |
| ServerCommands.ExactlyOnce | src/v3xctrl_control/Server.py:63-87 | without an exception in the task and with a successful submit the callback never fires twice, and has fired exactly once when the task has ended |
| ServerCommands.CallbackCount | src/v3xctrl_control/Server.py:56-105 | for every interleaving of retry task, ACKs and stop: the number of callback calls at the end |
| ServerCommands.BothResultsIff | src/v3xctrl_control/Server.py:56-105 | at the end of every run a callback was told True and then False if and only if its acknowledgement took the entry and an error path found it gone, and False twice if and only if the latter happened without the former |
| ServerCommands.StopDuringSubmission | src/v3xctrl_control/Server.py:88-105 | a run with nothing acknowledged in which `stop()` comes between registration and submission and the callback is told False twice |
| CommandDelivery.FailureReportedTwice | src/v3xctrl_control/Server.py:88-105 | that run is one of the whole system with client and network |
| ServerLocks.NeverBlocksIff | src/v3xctrl_control/Server.py:56-105 | callbacks run inside the non-reentrant lock of the pending commands: from every reachable state of any number of threads all can finish if and only if no callback can take that lock, as `send_command` and `stop` do |
| ServerLocks.WhereCallbacksRun | src/v3xctrl_control/Server.py:56-105 | the acknowledgement, the last attempt and `stop` call callbacks inside the lock, a failed submission outside of it |
| ServerCommands.SendsAreBounded | src/v3xctrl_control/Server.py:71-80 | at most `max_retries` packets, at most one of them after the entry was removed |
| ServerCommands.GivesUpAfterAllAttempts | src/v3xctrl_control/Server.py:69-83 | in every run a task that gives up has sent its command exactly `max_retries` times, or never if that is negative |
| ServerCommands.SendsEveryAttempt | src/v3xctrl_control/Server.py:63-93 | a task that has ended has sent exactly that often and told False once, unless its submission, a send or its callback raised, or an acknowledgement or `stop` came |
| ServerCommands.TasksEnd | src/v3xctrl_control/Server.py:69-93 | each own step brings a task nearer to its end, no other event sets it back, and it is never stuck |
| ServerCommands.SuccessMeansAck | src/v3xctrl_control/Server.py:56-61 | `callback(True)` only after the acknowledgement arrived |
| ServerObject.Server.CommandAckHandler | src/v3xctrl_control/Server.py:56-61 | one critical section: pop the entry, report success |
| ServerObject.Server.SendCommand | src/v3xctrl_control/Server.py:63-105 | registration, submission and the failed-submit path, with other threads in between, are a run of the machine |
| ServerObject.Server.RetryTask | src/v3xctrl_control/Server.py:69-93 | the retry loop, with other threads between its critical sections, ends, is a run of the machine, and leaves the callback told once or twice; when nothing disturbs it, exactly `max_retries` packets are sent and the callback is told False once |
| ServerObject.Server.NotifyStop | src/v3xctrl_control/Server.py:152-157 | every pending callback is told False once, in any order, and the dictionary is cleared |
| ServerObject.Server.GiveUp | src/v3xctrl_control/Server.py:82-87 | the code after the last attempt |
| ServerObject.Server.Forget | src/v3xctrl_control/Server.py:90-91 | the error path's pop |
| ServerObject.LeadsOnARun | src/v3xctrl_control/Server.py:63-105 | what the object does from a reachable state on is again a run |
| CommandDelivery.AtMostOnce | src/v3xctrl_control/apps/streamer.py:275-285 | over a network that loses, repeats and reorders packets, no command's action is begun twice, and only commands that were sent are begun |
| CommandDelivery.SuccessMeansStarted | src/v3xctrl_control/Client.py:62-66 | `callback(True)` implies that the streamer has recorded the command and begun it exactly once |
| CommandDelivery.SubscribersComeFirst | src/v3xctrl_control/Client.py:90-96 | for a command the client's registrations call the subscribers before the acknowledging handler |
| CommandDelivery.DeliverEffect | src/v3xctrl_control/apps/streamer.py:275-322 | one delivery: recorded and begun the first time only, acknowledged unless that first action raised |
| CommandDelivery.SecondArrivalAcknowledges | src/v3xctrl_control/apps/streamer.py:281-284 | a later arrival is acknowledged even if the action had failed, and begins nothing |
| CommandDelivery.StreamerScript.CommandHandler | src/v3xctrl_control/apps/streamer.py:275-322 | the handler on the script's own fields: the first trim command with the action increase adds 5, any other trim action takes 5 away; exactly which commands raise; a repeated command changes nothing |
| Dispatch.OrderKeptIff | src/v3xctrl_control/MessageHandler.py:38-45 | handlers of a message run in the order of registration if and only if, among the message's classes, none is registered again after another one |
| Dispatch.ReRegistrationReorders | src/v3xctrl_control/MessageHandler.py:5-7 | three registrations for which the order of registration is not kept |
| Dispatch.CalledAfterAdd | src/v3xctrl_control/MessageHandler.py:44-45 | where a newly added handler comes in the order of calls |
| Dispatch.MessageHandler.AddHandler | src/v3xctrl_control/MessageHandler.py:44-45 | append under the class, in place |
| Dispatch.MessageHandler.Handle | src/v3xctrl_control/MessageHandler.py:38-42 | all handlers in order, or a prefix that ends with the one that raised |
| Dispatch.TrimmingComposes | src/v3xctrl_control/Base.py:147-148 | trimming the history after every message keeps what trimming once would keep |
| Dispatch.Subscriptions.AllHandler | src/v3xctrl_control/Base.py:141-153 | remember the sender in a history of 50, then call the subscribers |
| Dispatch.Subscriptions.LastAddress | src/v3xctrl_control/Base.py:109-113 | the address of the newest message ever received |
| Framing.PrefixOfFrames | src/v3xctrl_tcp/framing.py:18-56 | any prefix of a well-formed stream decodes to a prefix of the messages; the whole stream to exactly the messages, empty ones included |
| Framing.WholeThenPartial | src/v3xctrl_tcp/framing.py:33-56 | whole frames followed by an unfinished one yield the whole messages and then the end |
| Framing.FirstOfFrame | src/v3xctrl_tcp/framing.py:46-56 | one message comes back from its frame, with the rest of the stream untouched |
| Framing.FrameBytes | src/v3xctrl_tcp/framing.py:18-30 | the bytes on the wire: two bytes of length, the higher one first, and then the message of at most 65535 bytes |
| Framing.RecvExact | src/v3xctrl_tcp/framing.py:33-43 | for any chunking: exactly n bytes, or None at the end of the stream |
| Framing.RecvMessage | src/v3xctrl_tcp/framing.py:46-56 | one message of the stream, or None |
| Framing.RecvAll | src/v3xctrl_tcp/framing.py:46-56 | receiving until None yields the messages of the stream |
| Framing.TcpTarget.Send | src/v3xctrl_relay/ForwardTarget.py:46-55 | writes a whole frame, or nothing when dead or too long, or part of a frame and is dead from then on |
| Framing.TcpTarget.Close | src/v3xctrl_relay/ForwardTarget.py:60-63 | dead, with nothing written |
| Framing.TcpTarget.ReaderGetsPrefix | src/v3xctrl_relay/ForwardTarget.py:46-55 | whatever failed and wherever the stream broke off, the reader decodes a prefix of the attempted messages, never a misaligned one |
| Framing.Transfer | src/v3xctrl_tcp/framing.py:18-56 | one connection from end to end, for any faults, any break and any chunking: the messages received are a prefix of those sent, and all of them if nothing fails |
| Bytes.DecodeEncode | src/v3xctrl_tcp/framing.py:24-24 | a big-endian length comes back |
| Sei.RoundTrip | src/v3xctrl_helper/sei.py:19-93 | `parse(build(t) + rest) == t` for every signed 64-bit t and every rest |
| Sei.FoundInTheMiddle | src/v3xctrl_helper/sei.py:63-76 | a stamp inside a stream is found unless an earlier start code parses |
| Sei.UnitRoundTrip | src/v3xctrl_helper/sei.py:78-93 | a stamp sent as a length-prefixed unit comes back when no start code parses |
| Sei.StampBytes | src/v3xctrl_helper/sei.py:19-28 | the stamp byte by byte, and for which numbers there is one |
| Sei.UnitsOfStream | src/v3xctrl_helper/sei.py:78-93 | the walk over the length fields finds exactly the units of every stream of length-prefixed units |
| Sei.StampAmongUnits | src/v3xctrl_helper/sei.py:78-93 | a stamp comes back from any unit of such a stream, if no start code and no earlier unit parses |
| Sei.FirstParsedIff | src/v3xctrl_helper/sei.py:78-93 | the result of the walk is the timestamp of the first unit that parses, and None if and only if none does |
| Sei.ParsesExactly | src/v3xctrl_helper/sei.py:31-60 | the parser accepts exactly the units with SEI header, type 5, size 24 and the UUID, with the timestamp that packs to the eight bytes |
| Sei.StartCodesDoNotOverlap | src/v3xctrl_helper/sei.py:70-76 | two start codes cannot overlap, so skipping four bytes loses none |
| Sei.Parse | src/v3xctrl_helper/sei.py:63-93 | the result is that of the first start code that parses, else that of the first length-prefixed unit that parses; both loops end |
| Sei.ParseUnits | src/v3xctrl_helper/sei.py:78-93 | the loop over length-prefixed units |
| Sei.ResultIsUnique | src/v3xctrl_helper/sei.py:63-93 | the specified result is determined by the data |
| Sei.EmulationIff | src/v3xctrl_helper/sei.py:19-28 | no emulation prevention bytes are written: the bytes behind the start code contain 00 00 followed by at most 03 if and only if three consecutive bytes of the timestamp form a number below 4 |
| Sei.EmulationHappens | src/v3xctrl_helper/sei.py:19-28 | a timestamp of July 2023 for which they do |
| Sei.UnpackPack | src/v3xctrl_helper/sei.py:21-21 | two's complement on eight bytes round-trips |
| FrameBuffer.Receiver.Conservation | src/v3xctrl_ui/network/video/Receiver.py:174-312 | every frame that arrived has exactly one fate: displayed, burst-dropped, evicted, cleared or still buffered; and since the counters were last set to zero: frames buffered then plus frames decoded since = rendered + burst drops + evicted + cleared + buffered |
| FrameBuffer.Receiver.DisplayOrder | src/v3xctrl_ui/network/video/Receiver.py:199-214 | displayed frames are listed once each, in the order of arrival |
| FrameBuffer.Receiver.LogStatsIfNeeded | src/v3xctrl_ui/network/video/Receiver.py:385-421 | once per interval the three counters start again from zero, whatever is in the buffer; nothing else changes |
| FrameBuffer.Receiver.GetFrame | src/v3xctrl_ui/network/video/Receiver.py:174-214 | which frame is displayed and which are dropped for every render ratio; displayed frames strictly increase in arrival order; an adaptive pick leaves at most the target size |
| FrameBuffer.Receiver.PickOldest | src/v3xctrl_ui/network/video/Receiver.py:219-233 | the oldest frame, with the timing entry `Stale()` places before its own |
| FrameBuffer.Receiver.PickNewest | src/v3xctrl_ui/network/video/Receiver.py:235-257 | the newest frame with its own timing entry; the others count as burst drops |
| FrameBuffer.Receiver.PickAdaptive | src/v3xctrl_ui/network/video/Receiver.py:259-295 | skips down to the target size, then takes the oldest |
| FrameBuffer.Receiver.UpdateFrame | src/v3xctrl_ui/network/video/Receiver.py:297-312 | appends; a full buffer evicts its oldest frame; with timing on the queues stay in step |
| FrameBuffer.Receiver.ClearFrames | src/v3xctrl_ui/network/video/ReceiverGst.py:366-377 | a timeout forgets the frames but leaves their timing entries behind, exactly as many as there were frames |
| FrameBuffer.Play | src/v3xctrl_ui/network/video/Receiver.py:174-421 | any sequence of arrivals, displays, timeouts and log intervals: every frame is counted once, in total and since the counters were last set to zero; displayed frames come in arrival order; with timing on the number of stale timing entries is exactly that of the recursion `Track`, and zero without a timeout |
| FrameBuffer.TimeoutMixesUpTimings | src/v3xctrl_ui/network/video/ReceiverGst.py:371-374 | after a timeout a frame is shown with the arrival time of an earlier one |
| ClockOffset.SlidingWindowAverage.Append | src/v3xctrl_helper/SlidingWindowAverage.py:25-36 | under a monotone clock the deque equals the whole history filtered by the window |
| ClockOffset.SlidingWindowAverage.Evict | src/v3xctrl_helper/SlidingWindowAverage.py:33-36 | front eviction of a sorted deque equals filtering it |
| ClockOffset.SlidingWindowAverage.Average | src/v3xctrl_helper/SlidingWindowAverage.py:18-23 | the mean, 0 when empty |
| ClockOffset.SlidingWindowAverage.Clear | src/v3xctrl_helper/SlidingWindowAverage.py:30-31 | forgets the samples |
| ClockOffset.AppendingIsFiltering | src/v3xctrl_helper/SlidingWindowAverage.py:25-36 | filtering step by step equals filtering the longer history once |
| ClockOffset.MeanIsClose | src/v3xctrl_helper/SlidingWindowAverage.py:18-23 | a mean is as close to a target as its samples |
| ClockOffset.MeanTimesCount | src/v3xctrl_helper/SlidingWindowAverage.py:18-23 | the mean of some samples, times their number, is the sum that adding each value gives |
| ClockOffset.SampleIsClose | src/v3xctrl_ui/network/video/ClockOffset.py:45-45 | one sample errs by at most half its round trip |
| ClockOffset.Estimator.Update | src/v3xctrl_ui/network/video/ClockOffset.py:36-46 | records the sample of a round trip whose answer lies between sending and receiving |
| ClockOffset.Estimator.OffsetUs | src/v3xctrl_ui/network/video/ClockOffset.py:31-33 | the mean of the samples in the window, truncated toward zero |
| ClockOffset.Estimator.EstimateIsClose | src/v3xctrl_ui/network/video/ClockOffset.py:32-46 | the averaged estimate errs by at most half the longest round trip in the window |
| ClockOffset.Estimator.LatencyIsClose | src/v3xctrl_ui/network/video/ReceiverGst.py:73-78 | the displayed end-to-end latency errs by less than half the longest round trip in the window plus two microseconds |
| ClockOffset.LatencyExactly | src/v3xctrl_ui/network/video/ReceiverGst.py:73-78 | a latency is recorded exactly for a stamped frame, a known offset and a difference that is not negative |
| UdpReceiver.UDPReceiver.IsValidMessage | src/v3xctrl_control/UDPReceiver.py:72-114 | case by case: nothing from a wrong host and no PeerInfo; Command, CommandAck, Latency, Syn and Ack in any case; anything else exactly if it is neither older than the message accepted last nor, where that is validated, stale |
| UdpReceiver.UDPReceiver.Receive | src/v3xctrl_control/UDPReceiver.py:154-160 | the same cases for a datagram; acceptance moves the timestamp to beat, and queues unless 100 packets wait |
| UdpReceiver.UDPReceiver.HandleNext | src/v3xctrl_control/UDPReceiver.py:165-173 | the worker takes the oldest packet |
| UdpReceiver.UDPReceiver.ValidateHost | src/v3xctrl_control/UDPReceiver.py:175-177 | the host check begins here: everything accepted later, until the next call, comes from this host (`Valid`, and `Run` for all turns) |
| UdpReceiver.UDPReceiver.Reset | src/v3xctrl_control/UDPReceiver.py:116-118 | forgets the timestamp to beat |
| UdpReceiver.UDPReceiver.HandledInOrderOfAcceptance | src/v3xctrl_control/UDPReceiver.py:148-173 | handlers see a subsequence of the accepted messages, in order |
| UdpReceiver.UDPReceiver.HandledTimesAscend | src/v3xctrl_control/UDPReceiver.py:72-118 | between two handled messages with only ordered ones accepted since the first, time does not run backwards |
| UdpReceiver.Run | src/v3xctrl_control/UDPReceiver.py:120-173 | any datagrams, resets and host checks and any turns of the two threads: handlers see a subsequence of the accepted messages in order, with ascending times in every stretch of ordered ones; the newest message is the one to beat throughout if and only if no exempt message was late; between a host check and the next one everything accepted comes from that host |
| UdpReceiver.StretchAscends | src/v3xctrl_control/UDPReceiver.py:92-100 | in a stretch of ordered messages timestamps ascend, and are not below that of the message accepted just before it |
| UdpReceiver.UDPReceiver.NothingOvertakenIff | src/v3xctrl_control/UDPReceiver.py:72-114 | in every state: all acceptable ordered messages are at least as new as everything accepted since the last reset, Syn or Ack if and only if the timestamp to beat is |
| UdpReceiver.NewestToBeatIff | src/v3xctrl_control/UDPReceiver.py:78-100 | in every log that keeps the order step by step: the newest message stays the one to beat throughout if and only if no Command, CommandAck or Latency was late, and then no overtaken message was accepted |
| UdpReceiver.NewestIsLargest | src/v3xctrl_control/UDPReceiver.py:92-118 | the newest message is the largest timestamp accepted since the last reset, Syn or Ack |
| UdpReceiver.LateCommandAdmitsLateControl | src/v3xctrl_control/UDPReceiver.py:83-84 | a late command moves the timestamp to beat back, so that an overtaken control message is accepted |
| Calibrator.Calibrate | src/v3xctrl_ui/menu/calibration/GamepadCalibrator.py:49-205 | a whole calibration on any input: stages come in order; when complete, all four were visited, all spans are at least 0.3, throttle and brake axes differ from steering, and there are exactly 10 idle samples; without a dialog or without axes the first stage never ends, with one axis the third; the result is `After` of the inputs |
| CalibrationRuns.CompletionIff | src/v3xctrl_ui/menu/calibration/GamepadCalibrator.py:66-205 | some inputs complete a calibration if and only if there is a dialog and the gamepad has at least two axes; then also inputs whose times do not run backwards |
| CalibrationRuns.CompleteIsReached | src/v3xctrl_ui/menu/calibration/GamepadCalibrator.py:66-205 | inputs that complete it, built stage by stage: push and release one axis, keep still, confirm |
| CalibrationRuns.CompleteIsUsable | src/v3xctrl_ui/menu/calibration/GamepadCalibrator.py:66-205 | a complete calibration has a dialog, two axes and usable results |
| CalibrationRuns.WhereItStays | src/v3xctrl_ui/menu/calibration/GamepadCalibrator.py:95-105 | where a calibration without a dialog, without axes or with one axis stays |
| Calibrator.GamepadCalibrator.Update | src/v3xctrl_ui/menu/calibration/GamepadCalibrator.py:66-80 | the calibration changes as specified and keeps its invariant; no unset time or axis is used; it raises exactly for a gamepad without axes, from the second sample on |
| Calibrator.GamepadCalibrator.Receive | src/v3xctrl_ui/menu/calibration/GamepadCalibrator.py:66-113 | one input, a sample or a confirmation, as specified |
| Calibrator.GamepadCalibrator.Resume | src/v3xctrl_ui/menu/calibration/GamepadCalibrator.py:107-113 | the confirmed stage is the next one in order |
| Calibrator.GamepadCalibrator.Settings | src/v3xctrl_ui/menu/calibration/GamepadCalibrator.py:82-93 | the smallest and largest recorded value, 0 when there are none; a center exactly for the steering axis with idle samples, from which their deviations add up to zero |
| Calibrator.AxisCalibrationData.Detect | src/v3xctrl_ui/menu/calibration/GamepadCalibrator.py:129-145 | the chosen axis is the one that moved furthest, is not excluded, and some axis has been off the baseline for half a second |
| CalibrationSpec.DetectExactly | src/v3xctrl_ui/menu/calibration/GamepadCalibrator.py:129-145 | the first sample is the baseline; a movement of more than 0.3 starts the clock, stillness stops it, and a movement half a second after the start, and nothing else, settles the axis |
| Calibrator.AxisCalibrationData.Record | src/v3xctrl_ui/menu/calibration/GamepadCalibrator.py:146-170 | done exactly when the span is wide and neither extreme has changed by more than 0.01 for 1.5 seconds |
| CalibrationSpec.RecordExactly | src/v3xctrl_ui/menu/calibration/GamepadCalibrator.py:146-170 | a sample becomes the noted maximum or minimum exactly when it is more than 0.01 beyond the one noted so far; done exactly when the range is at least 0.3 wide and both were noted at least 1.5 seconds ago |
| Calibrator.AxisCalibrationData.RecordIdle | src/v3xctrl_ui/menu/calibration/GamepadCalibrator.py:178-198 | a sample is taken exactly when the axis has been still for 1.5 seconds |
| CalibrationSpec.RecordIdleExactly | src/v3xctrl_ui/menu/calibration/GamepadCalibrator.py:178-198 | a sample less than 0.05 from the one before keeps the axis still, any other does not; after 1.5 still seconds each is taken, and the tenth ends the stage |
| Calibrator.LargestIndex | src/v3xctrl_ui/menu/calibration/GamepadCalibrator.py:137-137 | the first index of a largest value |

## Left out

- Sockets, select and asyncio loops, thread start-up and shutdown (`TcpTunnel`, `TcpServer`, `TCPAcceptor`, `UDPTransmitter`, `Peer`, the main loops of `RelayServer`, `Server`, `Client`): effects of the environment; the model takes packets, chunks and interleavings as inputs.
- `SessionStore`: its answers are inputs. The encoding of `Message`: messages are values.
- PeerInfo and Error replies of the relay, log output, `created_at`, the statistics text and the `transport` summary: they do not feed back into the state. Their locks are part of `RelayLocks`.
- In `PacketRelayObjects.PacketRelay` a mapping is a value in the dictionary, replaced as a whole; sessions and spectator entries are objects. The identity of mappings and target sets, which matters to a packet in flight, is modelled in `ForwardSnapshot`.
- The methods of `PacketRelayObjects.PacketRelay` read the clock once per operation and run one at a time; a cleanup pass is atomic. Interleaving is modelled in `RelayLocks` (locks), `ForwardSnapshot` (forwarding) and `CleanupRace` (packets during the phase that reads time stamps; the later phases read none).
- `RelayLocks` keeps only the locks a method takes and over-approximates its branches and loops.
- ServerCommands.CallbackCount: command ids are unique, as `Command` (src/v3xctrl_control/message/Command.py) makes them from the clock and a counter; a callback that raises inside `stop()` (which then leaves the entries in place) or inside the ACK handler is not modelled, one that raises after the last attempt is.
- ServerLocks.NeverBlocksIff: a callback is reduced to its uses of the lock of the pending commands; other locks of its own, and threads that wait for each other in other ways, are not modelled.
- ServerCommands.SendsAreBounded: a transmission is the hand-over to the transmitter, whose own queue and time-to-live are not part of this model.
- CommandDelivery.AtMostOnce: the record of received ids lives as long as the streamer process; a restart of the streamer is not part of this model.
- Framing.TcpTarget.Send: the lock around `send` is modelled in `RelayLocks`; here sends come one after another, with a concurrent `close`. A receiver that raises OSError instead of ending the stream is not modelled.
- FrameBuffer.Receiver.GetFrame: the render ratio lies between 0 and 100, as its description says. Render histories, timing averages and the text of the log lines are left out; frames are named by the number of their arrival instead of being pictures.
- FrameBuffer.Receiver.LogStatsIfNeeded: the counters are set to zero in one step; an increment of another thread in the middle of it is not modelled.
- ClockOffset.Estimator.EstimateIsClose: the true offset is constant while the samples are in the window.
- UdpReceiver.UDPReceiver.Receive: a `reset()` from another thread falls before or after the check and the two assignments of one message, not between them.
- Calibrator.GamepadCalibrator.Update: one `start()`, a fixed number of axes, one reading of the clock for each sample, and the dialog's confirmation only while the dialog is shown; labels and callbacks to the menu are left out.
- GStreamer, PyAV and VLC pipelines, pygame, menus and OSD, the web client, telemetry devices, PWM output, the modem, `map_range` and the servo arithmetic of the streamer: devices and user interface, or small closed formulas.
- `latency_handler`: the streamer's answer time is an input of the clock model.
