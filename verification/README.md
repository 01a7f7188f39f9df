# Luxon server: verified model

A Dafny 4.11 model of the parts of the Luxon game server whose correctness depends on long runs or on
interleavings, with proofs of what they keep. `dafny verify dfyconfig.toml` checks all of it.

## What is modelled

**Rooms** (`Room*.dfy`, `Game.dfy`). `Room` is a game room as a value: its settings, members, expected users with
their generations and expiry callbacks, and the creation lease with its snapshot. Every method that holds the
admission lock is one function on that value, and `Games.Game` is the object whose methods, with the loops of the
source, are proved to do to its fields what those functions do. Runs are arbitrary sequences of such steps by
arbitrary threads, each in its own world of live peers, so that plugin code may fall between any two of them.
`RoomRollback` proves that an aborted creation gives back the room it found, `RoomLeases` that leases are linear,
`RoomReservations` that late expiry callbacks are harmless, `RoomAdmission` and `RoomOccupancy` that validated joins
succeed and never pass a cap, `RoomLeaving` what remains when a peer leaves, and `RoomProperties` that property updates
do not depend on the order of a hash table.

**The epoll emulation** (`Tree*.dfy`, `Queue.dfy`, `PollGroups.dfy`, `Port*.dfy`, `EpollPort.dfy`, `Reflock.dfy`).
The red-black tree is modelled on heap nodes with parent pointers: `TreeShape` has shapes and contexts (a tree with a
hole), `TreeAlgorithms` what insertion and removal do to them, `TreeOrder` that the result is in order, and `Tree` the
methods on the nodes, which keep a ghost copy of the links. The queues are heap nodes in a ring. `Ports` is a port as a
value: sockets by identity, the socket tree as a map, the two socket queues, poll groups, and the operations that the
kernel has still to hand back; `PortSafety` proves what every run keeps, `PortInterest` that what callers ask for is
polled and reported, and `EpollPorts.EpollPort` is the object with the loops, in which the kernel answers as it likes.
`Reflock` runs any number of threads through the thread-safe tree, the reference count and the
keyed event.

**Coroutine hand-over** (`FfiAwaiter.dfy`, `AwaitableTask.dfy`). Two small machines whose steps are the atomic
operations and lock regions of the source, for every interleaving.

**Streams, queries and text** (`Ipc.dfy`, `Lobb*.dfy`, `DataModel.dfy`, `YamlText.dfy`). Length framing over a
stream cut anywhere; lobby queries, from their constraints through the plan string (`LobbyPlan`) and the tests by letter
(`LobbyMatch`) to the two ways of executing them (`Lobbies`), with `LobbyQuery` for the whole way; the table-driven
parameter decoder against a parameter-by-parameter definition; key escaping and line folding.

## Where the code and its documentation differ

The model follows the code.

- The comment in `add_peer` (src/game.cpp:467-468) says that a placeholder must never gain members. The check behind it
  refuses only rooms that are being created, so an idle placeholder does take a member; `RoomAdmission.IdleRoom` states
  this and that joins never get there.
- A parked join is decided by several separate reads (src/handler_gameserver.cpp:74-83), and both verdicts can be wrong. A
  join is turned away although its creation has succeeded if that is committed between the last two reads
  (`RoomLeases.TornReject`). A join whose creation has failed is replayed if, after the first read, its lease is aborted
  and another one creates the room before the second (`RoomLeases.TornReplay`). `RoomLeases.ReadsTellTheTruth` proves that
  these are the only ways: it says exactly when each verdict is wrong.
- The master server validates a routing and reserves for it in separate holds of the lock
  (src/handler_masterserver.cpp:510-531), and does not validate at all when the room exists but is not created. Two
  routings that validate before either reserves pass a cap (`RoomOccupancy.RoutingRace`), and so does one into a room
  whose creator is inside but has not committed (`RoomOccupancy.UnvalidatedRouting`). `RoomOccupancy.RunFits` allows both
  and says exactly when the caps are kept: `Careful` is what would have to be checked when the reservations are made.
- The executor of a lobby query keeps the last constraint on the id and forgets the others (src/lobby_vt.cpp:261-266),
  which the planner has told the database not to check again. `LobbyQuery.Query` says exactly when that matters.
- `DeleteNullProps` (src/game.cpp:953-958) looks for null keys rather than null values and never deletes anything:
  `RoomProperties.NothingDeleted`.
- The deleter of a game looks for its own entry in the lobby's list through a reference that has expired
  (src/lobby.cpp:127) and leaves it there: `Lobbies.App.Delete`.

## Model

| member | source | states |
|---|---|---|
| `RoomRollback.AbortUndoesBegin` | src/game.cpp:93-303 | Begin, then any run of steps of any threads, then a successful abort: every field is as before the begin; only the retired list, the counters and the expiry callbacks have grown, the expected users are the old ones minus those withdrawn by generation, and reservations made anew carry generations newer than any old one |
| `RoomRollback.RunLeased` | src/game.cpp:381-438 | While a lease is held, every old reservation is live, noted as removed, or withdrawn by generation, and every live reservation is old or owned by the creation; members are the owner alone |
| `RoomRollback.StepTableLeased` | src/game.cpp:268-278 | One step of any thread keeps what a rollback needs to know about the reservation table |
| `RoomRollback.EndedForGood` | src/game.cpp:130-132 | A lease that has ended is never held again in any later run |
| `RoomRollback.RestoredExpected` | src/game.cpp:273-276 | The rollback reserves exactly the users that were taken away and nothing else, under generations newer than all old ones |
| `RoomLeases.RunLinear` | src/game.cpp:93-168 | Leases are numbered in order, one is live at a time, each ends at most once, at most one is committed and then the last; a created room stays created and is never being created |
| `RoomLeases.CommitLinear` | src/game.cpp:152-168 | A commit ends its lease with the owner a member of the room, and only a room that was not created |
| `RoomLeases.AbortLinear` | src/game.cpp:241-303 | An abort ends only the lease that is held, of a room that was not created, and records it as aborted |
| `RoomLeases.AbortFields` | src/game.cpp:256-302 | The fields that an abort sets outright, whatever order it restores reservations in |
| `RoomLeases.ParkedJoin` | src/handler_gameserver.cpp:74-106 | Decided on one consistent state, a parked join is replayed iff its own lease was committed and rejected iff its own lease was aborted |
| `RoomLeases.ReadsTellTheTruth` | src/handler_gameserver.cpp:74-99 | The handler reads five times, with any steps in between. It rejects a join whose lease is not aborted by the last read iff that lease is committed between the last two reads; it replays a join whose lease is not committed iff the lease was the latest at the first read and another one has created the room by the second |
| `RoomLeases.TornReject` | src/handler_gameserver.cpp:81-83 | A commit between the last two reads rejects a join whose lease was committed: a concrete run |
| `RoomLeases.TornReplay` | src/handler_gameserver.cpp:76-80 | An abort and another creation between the first two reads replay a join whose lease was aborted: a concrete run |
| `RoomReservations.RunSound` | src/game.cpp:381-438 | After every run the expected users are the keys of the generation table, live generations are distinct, each has a pending callback with its own generation, and the generation counter never goes back |
| `RoomReservations.GoneForGood` | src/game.cpp:395-408 | A reservation that is gone never returns under its old generation, so its late callback changes nothing |
| `RoomReservations.ExpiryExact` | src/game.cpp:395-408 | A callback takes away the reservation it was scheduled for and no other |
| `RoomReservations.AbortSound` | src/game.cpp:268-280 | An abort keeps reservation safety, whatever it restores |
| `RoomAdmission.FreeActorFirst` | src/game.cpp:342-350 | The allocator returns the first free id cyclically after the last one and fails iff all ids it tries are taken |
| `RoomAdmission.CandidatesCover` | src/game.cpp:342-345 | A round of 254 attempts tries each id of 1..254 exactly once |
| `RoomAdmission.AllocatorExhausted` | src/game.cpp:340-353 | A full round fails iff all 254 ids are taken, and then leaves the counter where it was |
| `RoomAdmission.Pigeonhole` | src/game.cpp:340-353 | With fewer than 254 members an id in 1..254 is found |
| `RoomAdmission.CreatePeerExactly` | src/game.cpp:331-360 | A peer gets an actor iff it is there, has been authenticated and an id is left; the id is the first free one, and nothing else of the room changes |
| `RoomAdmission.ValidateAccepts` | src/game.cpp:735-776 | Validation accepts iff the room is created or may be, is open, is within its cap, the application cap and 254 with the new places counted, and does not hold the user where that is checked |
| `RoomAdmission.ValidateRefuses` | src/game.cpp:735-776 | Each refusal is given iff its own condition fails and those checked before it hold |
| `RoomAdmission.ClosedRoom` | src/game.cpp:747-749 | A join of a closed room is refused and changes nothing |
| `RoomAdmission.AddedDistinct` | src/game.cpp:463-521 | Whatever is added, no two members have one actor id, and where users are checked no two live members are the same user |
| `RoomAdmission.AcceptedJoins` | src/handler_gameserver.cpp:700-766 | A join that validation accepts cannot fail: the peer becomes a member under the first free id, its reservation is used up and the requested ones are made |
| `RoomAdmission.JoinCount` | src/handler_gameserver.cpp:700-766 | After an accepted join the head count is the validated one iff the peer was not a member already or asked for nobody; otherwise it is smaller |
| `RoomAdmission.RouteReserves` | src/handler_masterserver.cpp:523-531 | In whatever room it is made, a routing makes exactly the reservations that validation would count there |
| `RoomAdmission.RouteCount` | src/handler_masterserver.cpp:523-531 | The head count after a routing in any room, with repeated, empty, own or reserved entries in the list |
| `RoomAdmission.ReserveAllExpected` | src/handler_gameserver.cpp:720-726 | The reservation loop adds exactly the users that validation counts as new |
| `RoomAdmission.IdleRoom` | src/game.cpp:463-471 | A room nobody creates does take a directly added member and then no creation can begin; a join without a lease leaves such a room alone |
| `RoomOccupancy.RunFits` | src/game.cpp:381-521 | For every run of joins, routings validated or not, changes of settings, leaves, expiries, removals, rollbacks, begins, commits and aborts: every room that is created or has its creator inside is within its own cap, the application cap and 254 after each step, iff each routing and each change of settings that finds it so leads to a head count within the caps |
| `RoomOccupancy.ActInOrder` | src/game.cpp:381-521 | One act keeps such a room within its caps iff it is careful |
| `RoomOccupancy.RouteFits` | src/handler_masterserver.cpp:523-531 | A routing made in any later room, validated before or not, keeps the caps iff the head count it leads to there is within them |
| `RoomOccupancy.ValidatedRouteFits` | src/handler_masterserver.cpp:510-531 | A routing made in the room it was validated in keeps the caps |
| `RoomOccupancy.CommitInOrder` | src/game.cpp:152-168 | A commit finds its owner inside, so the created room fits |
| `RoomOccupancy.AbortInOrder` | src/game.cpp:241-303 | An abort, in any order of restoring, leaves a room that is to be created again |
| `RoomOccupancy.AcceptedJoinFits` | src/game.cpp:735-776 | Whatever a room held before, it is within every cap after an accepted join |
| `RoomOccupancy.NoJoinWhenClosed` | src/game.cpp:735-776 | In every run, a join of a room that is closed at that moment leaves it as it was |
| `RoomOccupancy.NeverRaised` | src/game.cpp:381-438 | Leaves, expiries, removals and withdrawals never raise the head count |
| `RoomOccupancy.WithdrawExact` | src/handler_gameserver.cpp:536-540 | Rolling back reservations takes away those of the attempt that still stand and nothing else |
| `RoomOccupancy.RolledBackJoin` | src/handler_gameserver.cpp:541-564 | An accepted join rolled back at once leaves the members as they were and gives back every reservation it made |
| `RoomOccupancy.AbortFits` | src/game.cpp:241-303 | A room that fits fits again after any creation is aborted |
| `RoomOccupancy.RoutingRace` | src/handler_masterserver.cpp:510-531 | Two routings that validate before either reserves pass a cap: a concrete room |
| `RoomOccupancy.UnvalidatedRouting` | src/handler_masterserver.cpp:508-531 | A routing into a room that is being created, which is not validated, takes it past its cap with the creator inside, and the creation is committed: a concrete room |
| `Games.Game.TryBeginCreation` | src/game.cpp:93-139 | The begin of a creation, in place |
| `Games.Game.CommitCreation` | src/game.cpp:152-168 | The commit, in place |
| `Games.Game.AbortCreationTransaction` | src/game.cpp:241-303 | The abort, in place, with its restart loop and its walks over both reservation tables; the walk over the removed reservations visits each once |
| `Games.Game.RetireLive` | src/game.cpp:256-264 | The restart loop retires the live members in order and ends |
| `Games.Game.CreatePeer` | src/game.cpp:331-360 | The allocation loop, in place |
| `Games.Game.ReserveExpectedUser` | src/game.cpp:381-409 | Reservation, in place |
| `Games.Game.RunExpiry` | src/game.cpp:395-408 | The expiry callback, in place |
| `Games.Game.RemoveExpectedUser` | src/game.cpp:415-427 | Removal, in place |
| `Games.Game.RemoveExpectedUserIfGeneration` | src/game.cpp:429-438 | Removal by generation, in place |
| `Games.Game.AddPeer` | src/game.cpp:463-495 | Adding a member, in place |
| `Games.Game.AddPeerForCreation` | src/game.cpp:497-521 | Adding the creator, in place |
| `Games.Game.RemovePeer` | src/game.cpp:523-569 | Removal of a peer with its restart loop, its clean-up of the event cache and the choice of a new master |
| `Games.DepartOne` | src/game.cpp:533-551 | One turn of the restart loop does not change who stays, who is retired in all, which events stay and whose id is reported |
| `RoomLeaving.LeaveMembers` | src/game.cpp:523-551 | When a peer leaves, every other live member stays and everyone else is retired, both in their order |
| `RoomLeaving.LeaveEvents` | src/game.cpp:540-544 | The cache loses exactly the events sent by the entries of the peer that left, and only if the room is set to do so; events of the system stay |
| `RoomLeaving.LeaveMaster` | src/game.cpp:557-567 | It is reported iff the peer was inside; the first who stays becomes master if the last entry of the peer was master, and otherwise the master stays |
| `Games.Game.ValidateJoin` | src/game.cpp:735-776 | Validation by a count of new users |
| `Games.Game.ValidateJoinWith` | src/game.cpp:778-789 | Validation by a list counts the distinct users that need places of their own |
| `Games.Game.Enter` | src/handler_gameserver.cpp:700-766 | The part of a join that is done under one hold of the lock |
| `Games.Game.RollbackExpectedUsers` | src/handler_gameserver.cpp:536-540 | The rollback loop, in place |
| `RoomProperties.Store.Insert` | src/game.cpp:911-978 | A property update gives the same result in every order of iteration, bumps the revision iff the properties changed, tells the lobby iff the player limit, the openness, the lobby properties or the visibility changed, and reports a deletion iff the room stops being visible |
| `RoomProperties.ChangesExactly` | src/game.cpp:935-960 | The properties change iff one of the entries makes a difference |
| `RoomProperties.MergedReads` | src/game.cpp:920-961 | What each field and each key holds after an update, by the type that the field takes |
| `RoomProperties.MergedTwice` | src/game.cpp:932-936 | Applying an update again changes nothing, so echoes die out |
| `RoomProperties.MergedCommutes` | src/game.cpp:920-961 | Updates of different keys commute and can be merged |
| `RoomProperties.NothingDeleted` | src/game.cpp:953-958 | Deletion looks for null keys, which are never stored: nothing is ever deleted |
| `Tree.Tree.Add` | src/wepoll.c:2036-2069 | Insertion of a node keeps search order, colours, black height and links; entries gain exactly the new one; a known key gives -1 and changes nothing |
| `Tree.Tree.Remove` | src/wepoll.c:2096-2167 | Removal keeps the same and takes away exactly the node |
| `Tree.Tree.Find` | src/wepoll.c:2169-2180 | Finds the node of a key, or null iff there is none, in at most 2*log2(n+1) steps for n entries |
| `Tree.Tree.Rotate` | src/wepoll.c:1980-2007 | A rotation rewrites the links to the rotated shape |
| `Tree.Tree.RebalanceAfterInsert` | src/wepoll.c:2056-2066 | The loop after an insertion restores the colour rules |
| `Tree.Tree.RebalanceAfterRemove` | src/wepoll.c:2151-2164 | The loop after a removal restores black height |
| `Tree.Tree.Unlink` | src/wepoll.c:2096-2143 | The node, or its successor in its place, is taken out of the links |
| `TreeAlgorithms.InsertSound` | src/wepoll.c:2036-2069 | Insertion keeps the colour rules and black height and adds one entry |
| `TreeAlgorithms.DeleteSound` | src/wepoll.c:2096-2167 | Removal keeps the colour rules and black height |
| `TreeAlgorithms.DeleteContents` | src/wepoll.c:2096-2167 | The entries before a removal are those after it and the removed one |
| `TreeOrder.InsertExact` | src/wepoll.c:2036-2069 | Insertion of a fresh key where it belongs makes a red-black tree, search order included, with exactly that entry more |
| `TreeOrder.DeleteExact` | src/wepoll.c:2096-2167 | Removal makes a red-black tree, search order included, with exactly that entry less; its key is gone |
| `TreeOrder.FixInsertBst` | src/wepoll.c:2056-2066 | The repair after an insertion keeps the search order |
| `TreeOrder.FixDeleteBst` | src/wepoll.c:2151-2164 | The repair after a removal keeps the search order |
| `TreeAlgorithms.FixInsertRedBlack` | src/wepoll.c:2056-2066 | The walk upwards after an insertion ends with a red-black tree |
| `TreeAlgorithms.FixDeleteRedBlack` | src/wepoll.c:2151-2164 | The walk upwards after a removal ends with a red-black tree |
| `TreeShape.HeightLogarithmic` | src/wepoll.c:2169-2180 | The height of a red-black tree of n nodes is at most 2*log2(n+1) |
| `TreeShape.SearchShort` | src/wepoll.c:2169-2180 | So is the length of a search, in the number of entries |
| `TreeShape.EntriesFunctional` | src/wepoll.c:2036-2048 | A key names at most one node |
| `TreeShape.HasEntry` | src/wepoll.c:2169-2180 | A key is in the tree iff some node carries it |
| `Queues.Queue.Append` | src/wepoll.c:1490-1495 | The ring gains the node at its end |
| `Queues.Queue.Prepend` | src/wepoll.c:1483-1488 | The ring gains the node at its start |
| `Queues.Queue.Remove` | src/wepoll.c:1507-1510 | The ring loses exactly the node, which is then loose |
| `Queues.Queue.MoveToStart` | src/wepoll.c:1497-1500 | The node moves to the start, the others keep their order |
| `Queues.Queue.MoveToEnd` | src/wepoll.c:1502-1505 | The node moves to the end, the others keep their order |
| `Queues.Queue.IsEmpty` | src/wepoll.c:1512-1514 | A look at the head tells whether the ring is empty |
| `Queues.Queue.First` | src/wepoll.c:1475-1477 | The first node, null iff there is none |
| `Queues.Queue.Last` | src/wepoll.c:1479-1481 | The last node, null iff there is none |
| `Queues.Queue.Enqueued` | src/wepoll.c:1516-1518 | A node that is loose or in the queue can tell which by its own links |
| `PollGroups.GroupsNeeded` | src/wepoll.c:994-1024 | After any run the number of groups is exactly what the peak of places taken at once needs, 32 to a group |
| `PollGroups.RunPacked` | src/wepoll.c:994-1024 | Full groups stay in front of the queue in every run |
| `PollGroups.AcquirePacked` | src/wepoll.c:994-1012 | A group is made only when all others are full; an acquisition fails iff making one was needed and failed |
| `PollGroups.ReleasePacked` | src/wepoll.c:1014-1024 | A release keeps the full groups in front |
| `PollGroups.AcquireSizeOf` | src/wepoll.c:994-1012 | An acquisition adds one to the size of one group |
| `PollGroups.ReleaseSizeOf` | src/wepoll.c:1014-1024 | A release takes one from the size of its group |
| `PortGroups.PortGroupsNeeded` | src/wepoll.c:994-1024 | In every run of a port from its creation full groups come first, and there are exactly as many groups as the most places ever taken at once needed, failed additions included |
| `PortSafety.NoLostInterest` | src/wepoll.c:1713-1887 | After every run each registered socket waits for an update or has an operation outstanding; either that one monitors every condition that could lead to an event its user wants, or it has been cancelled; when it comes back the socket is queued again unless it was closed |
| `EpollPorts.EpollPort.constructor` | src/wepoll.c:1086-1115 | A new port is sound |
| `Ports.NothingMissed` | src/wepoll.c:1730-1770 | The translation of event bits to and from the kernel loses no event that is wanted |
| `Ports.NothingInVain` | src/wepoll.c:1730-1770 | Whatever is polled for, but the closing of the socket, leads to a wanted event |
| `Ports.EventsByCondition` | src/wepoll.c:1752-1770 | The conditions that each event stands for |
| `Ports.CoveredByEvent` | src/wepoll.c:1723-1725 | An operation covers an interest iff each of the eleven events that is wanted is polled; other flags make no difference |
| `PortInterest.AskedIsWatched` | src/wepoll.c:1713-1887 | In every run, for each registered key: its socket is queued, or its cancelled operation is outstanding, or every condition that leads to an event its callers asked for last is being polled |
| `PortInterest.AskedIsReported` | src/wepoll.c:1834-1887 | In every run, the operation of a registered key that comes back is reported iff events asked for have happened, with those events and the data given last |
| `PortInterest.RunRemembered` | src/wepoll.c:1713-1728 | In every run each registered socket holds the interest and data of the last addition or change, silenced by a one-shot report |
| `PortInterest.CompletionSays` | src/wepoll.c:1851-1873 | What each completion means to someone who asked for some events: a failure is an error, a closing or an abort is nothing |
| `PortInterest.AddExactly` | src/wepoll.c:1319-1334 | An addition succeeds iff the key is good and new and the world supplies what it needs, and then registers exactly that interest |
| `PortInterest.ModExactly` | src/wepoll.c:1336-1349 | A change succeeds iff the key is registered, and changes the interest of its socket alone |
| `PortInterest.DelExactly` | src/wepoll.c:1351-1359 | A deletion succeeds iff the key is registered, and takes away that key alone; the socket stays while its operation is outstanding |
| `PortInterest.UpdateExactly` | src/wepoll.c:1772-1832 | When an update succeeds, and that it polls for exactly what the user wants |
| `PortInterest.HandedExactly` | src/wepoll.c:1834-1887 | A returned operation is reported iff the socket is neither being deleted nor closed and something wanted has happened; a one-shot interest is silent after that |
| `PortSafety.UpdateValid` | src/wepoll.c:1772-1832 | An update keeps the port sound, whatever the kernel answers |
| `PortSafety.FeedValid` | src/wepoll.c:1834-1887 | A completed operation keeps the port sound |
| `PortSafety.SetEventValid` | src/wepoll.c:1713-1728 | A change of interest keeps the port sound |
| `PortSafety.DeleteValid` | src/wepoll.c:1676-1703 | A deletion, forced or not, keeps the port sound |
| `PortSafety.CtlAddValid` | src/wepoll.c:1319-1334 | Adding a socket keeps the port sound on every path |
| `PortSafety.Conservation` | src/wepoll.c:1635-1711 | After every run group sizes add up to the sockets; each group is as large as its members; deleted sockets are kept exactly while outstanding; a socket is in the tree iff it is not being deleted and never in both queues |
| `PortSafety.FreedSafely` | src/wepoll.c:1676-1703 | A socket is freed only when its operation is not outstanding or has just come back |
| `PortSafety.FreedForGood` | src/wepoll.c:1676-1703 | A freed socket is never seen again, so it is freed once |
| `PortSafety.WantedWithin` | src/wepoll.c:1870-1873 | What is reported is a subset of what the user asked for |
| `PortSafety.UpdateShrinks` | src/wepoll.c:1168-1184 | A successful update takes its socket off the queue; a failed one changes nothing |
| `PortSafety.FeedAllValid` | src/wepoll.c:1191-1207 | A batch of completions leaves the port sound and all other operations outstanding |
| `PortSafety.FeedNext` | src/wepoll.c:1198-1204 | Each completion of a batch is fed to the port that those before it have left, and its report comes behind theirs |
| `EpollPorts.EpollPort.SockUpdate` | src/wepoll.c:1772-1832 | The update of one socket, in place, for every answer of the kernel |
| `EpollPorts.EpollPort.SockFeedEvent` | src/wepoll.c:1834-1887 | The return of one operation, in place |
| `EpollPorts.EpollPort.SockDelete` | src/wepoll.c:1676-1703 | Deletion, in place |
| `EpollPorts.EpollPort.SockSetEvent` | src/wepoll.c:1713-1728 | Interest of one socket, in place |
| `EpollPorts.EpollPort.SockNew` | src/wepoll.c:1635-1674 | A new socket with its error paths, in place |
| `EpollPorts.EpollPort.Add` | src/wepoll.c:1319-1334 | EPOLL_CTL_ADD: the socket is added with its interest; if a thread is polling, updates then run until none is left or the kernel refuses one; the port stays sound |
| `EpollPorts.EpollPort.Mod` | src/wepoll.c:1336-1349 | EPOLL_CTL_MOD: the interest is changed; if a thread is polling, updates then run until none is left or the kernel refuses one; the port stays sound |
| `EpollPorts.EpollPort.Del` | src/wepoll.c:1351-1359 | EPOLL_CTL_DEL keeps the port sound |
| `EpollPorts.EpollPort.UpdateEvents` | src/wepoll.c:1168-1184 | The loop ends, by a run of updates: the queue is empty, or the kernel has refused the update of its first socket |
| `EpollPorts.EpollPort.FeedEvents` | src/wepoll.c:1191-1207 | A batch is fed in order and its reports come in order |
| `EpollPorts.EpollPort.BeginPoll` | src/wepoll.c:1209-1218 | Before a thread waits the update queue is emptied, and the thread is counted as polling |
| `EpollPorts.EpollPort.EndPoll` | src/wepoll.c:1226-1237 | After it the thread no longer counts, and its completions are fed |
| `EpollPorts.EpollPort.DeletePort` | src/wepoll.c:1137-1166 | All three loops end; each socket is freed once; groups are empty when they are deleted; the update queue is empty at the end |
| `Reflock.DeletedAlone` | src/wepoll.c:1554-1585 | For fewer than 2^28 threads no assertion fails in any interleaving, and whoever deletes the port is alone; the closer is signalled once iff it waited |
| `Reflock.NoNewReferences` | src/wepoll.c:1934-1962 | After the port has left the tree nobody but the closer gains a reference |
| `Reflock.NeverStuck` | src/wepoll.c:1562-1585 | While the closer waits a reference is held or its signal is on the way and releases it |
| `Reflock.LookUpGains` | src/wepoll.c:1950-1962 | Whoever looks the port up while it is in the tree finds it and gains one reference by its next two steps, whatever the others do before and between them |
| `Reflock.LookUpMisses` | src/wepoll.c:1950-1962 | Whoever looks it up when it is not in the tree leaves without having touched it |
| `Reflock.CloseTakes` | src/wepoll.c:1934-1948 | Whoever closes the port while it is in the tree takes it out and gains one reference |
| `Reflock.CloseMisses` | src/wepoll.c:1934-1948 | Whoever would close it when it is not in the tree leaves with nothing |
| `Reflock.NextSound` | src/wepoll.c:1554-1585 | Every step of every thread keeps the count, the lock and the event in agreement |
| `FfiAwaiter.OneContinuation` | basic-coro/include/FfiAwaiter.hpp:47-287 | In every interleaving with one foreign call the coroutine goes on at most once, and exactly once if its frame survives; it sees what the call brought; the state is freed once and not touched afterwards |
| `FfiAwaiter.RunsToItsEnd` | basic-coro/include/FfiAwaiter.hpp:181-287 | Once the call is over the coroutine runs to its end and the state is freed |
| `FfiAwaiter.TornDuringCall` | basic-coro/include/FfiAwaiter.hpp:104-116 | A frame destroyed between the decision to resume and the resumption is always resumed wrongly: why the assumption is needed |
| `AwaitableTask.OneOwner` | basic-coro/include/AwaitableTask.hpp:58-308 | In every interleaving of completion with await, detach or drop: the frame is destroyed at most once, exactly once at the end, a stored waiter is resumed once, the error branches are never taken, and the result read is the one produced |
| `AwaitableTask.WaiterGoesOn` | basic-coro/include/AwaitableTask.hpp:58-87 | A waiting coroutine is resumed by the completion, reads the outcome and destroys the frame |
| `Ipc.Fifo` | src/ipc.cpp:290-444 | Whatever is cut where, the payloads received are the first of those sent, and all of them iff no whole frame is on its way |
| `Ipc.Sender.SendMessage` | src/ipc.cpp:290-365 | Queues and flushes: what is on the wire and what has not reached it are the old bytes and then the frame, also when the connection is lost; the wire gains exactly the bytes that the system takes |
| `Ipc.Sender.Flush` | src/ipc.cpp:316-365 | The writing loop puts on the wire exactly as much of the buffer as the answers of the system take |
| `Ipc.Receiver.Drain` | src/ipc.cpp:367-417 | The reading loop moves exactly the bytes that the answers of the system hand over from the wire to the buffer |
| `Ipc.Receiver.ReceiveMessage` | src/ipc.cpp:367-444 | Reads what the system hands over, takes exactly one frame off the stream and gives its payload, or nothing if none has arrived as a whole |
| `Ipc.FrameFirst` | src/ipc.cpp:304-314 | A frame is read back as its payload, with what follows untouched |
| `Ipc.FrameOfFirst` | src/ipc.cpp:417-435 | What is taken for the first frame is that payload framed, byte for byte |
| `Ipc.Send` | src/ipc.cpp:290-365 | However sending ends, what has been received stays a prefix of what has been sent |
| `Ipc.Receive` | src/ipc.cpp:367-444 | The next payload received is the next one sent, also after the sender has lost its connection; nothing is received only when no whole frame has arrived or the own connection is lost; once everything is handed over, a message comes iff one was sent and not received |
| `Ipc.ReceiveAll` | src/ipc.cpp:367-444 | Once everything is on the wire and handed over, receiving until nothing comes gives every message that was sent, in order |
| `Ipc.NetworkOrder` | src/ipc.cpp:304-311 | The header is the number with these digits, the most significant first |
| `LobbyPlan.PlanReadBack` | src/lobby_vt.cpp:95-256 | The executor decodes from the string exactly the constraints that the planner took, in argument order |
| `LobbyPlan.BestIndex` | src/lobby_vt.cpp:95-164 | Writes the plan, numbers the arguments of the taken constraints in order, and says whether one is an id |
| `LobbyQuery.Query` | src/lobby_vt.cpp:95-375 | From constraints and values through plan, string and executor: the games of the lobby that meet every constraint taken, iff the constraints on the id agree or nothing is found; otherwise all of those but the last are forgotten |
| `LobbyQuery.AllOrLast` | src/lobby_vt.cpp:261-266 | When it matters that the last of several constraints on the id overrides the others |
| `LobbyQuery.LastAnswers` | src/lobby_vt.cpp:230-352 | A game is what the executor looks for and passes its tests iff it meets every constraint taken, with the last on the id only |
| `LobbyQuery.GivenAt` | src/lobby_vt.cpp:145-146 | Each value is where the numbering of the planner says |
| `LobbyMatch.PassesIsMeets` | src/lobby_vt.cpp:275-354 | The test by letter, column and argument is passed iff what the query shows of the game satisfies the operator: numbers as numbers, else texts without case |
| `LobbyMatch.ReadsWhatIsShown` | src/lobby_vt.cpp:396-450 | What the executor tests is what the query shows in that column |
| `LobbyMatch.CompareIs` | src/lobby_vt.cpp:340-349 | The sign of the comparison is the order of a dictionary without case |
| `LobbyMatch.MatchesProps` | src/lobby_vt.cpp:275-354 | The matching loop |
| `LobbyPlan.ReadPlan` | src/lobby_vt.cpp:229-268 | The decoding loop, with its error for too few arguments |
| `Lobbies.LookUpIsScan` | src/lobby_vt.cpp:356-375 | Looking a game up by id gives what a scan of the lobby for that very id gives |
| `Lobbies.ScanPicks` | src/lobby_vt.cpp:367-374 | A scan gives exactly the live games of the list that match, in the order of the list |
| `Lobbies.LookUpIsFoldedScan` | src/lobby_vt.cpp:268-375 | It gives what the own scan of the executor, which ignores case, would give, iff no other matching live game of the lobby differs from the id in case alone |
| `Lobbies.App.CreateGame` | src/lobby.cpp:90-140 | Keeps map and lists in step; every refusal changes nothing |
| `Lobbies.App.Delete` | src/lobby.cpp:113-132 | The deleter keeps them in step and takes the map entry out; the list keeps its expired reference |
| `Lobbies.App.Filter` | src/lobby_vt.cpp:206-384 | Reads the plan, splits off the id, and executes the query in one of two ways; a plan it cannot read is an error |
| `Lobbies.Split` | src/lobby_vt.cpp:261-266 | The id that is asked for last, and everything else as tests |
| `DataModel.Decode` | include/luxon/server/data_model.hpp:423-529 | A single pass in any order finds the decoding defined parameter by parameter: all fields, or the first failing parameter in declaration order |
| `DataModel.MeansOnce` | include/luxon/server/data_model.hpp:482-529 | There is exactly one such decoding |
| `DataModel.AcceptedExactly` | include/luxon/server/data_model.hpp:423-529 | A request is accepted iff nothing it says or leaves unsaid about a parameter is wrong, and what each field then holds |
| `DataModel.RefusedExactly` | include/luxon/server/data_model.hpp:423-529 | Which parameter and which error a refused request fails with: the first wrong one, missing, null, of another kind or no member |
| `DataModel.UnknownIgnored` | include/luxon/server/data_model.hpp:493-497 | Unknown keys make no difference |
| `DataModel.MakeHandlers` | include/luxon/server/data_model.hpp:467-476 | The table maps each wire key to the last parameter with that key |
| `DataModel.RoundTrip` | include/luxon/server/data_model.hpp:423-636 | With distinct keys decoding what was encoded restores a model iff no optional field with a default is empty; such a field comes back as its default |
| `DataModel.EncodedHas` | include/luxon/server/data_model.hpp:597-636 | What encoding puts under each key |
| `DataModel.EncodeFails` | include/luxon/server/data_model.hpp:597-636 | Encoding fails iff a field is not a member of its enumeration |
| `YamlText.ReversibleExactly` | src/yaml.cpp:2741-2770 | Unescaping undoes escaping for every text iff the backslash is the first token and no token occurs twice |
| `YamlText.KeyRoundTrip` | src/yaml.cpp:2387 | Keys, escaped with backslash and quote, are read back as they were |
| `YamlText.AddEscapeTokens` | src/yaml.cpp:2741-2754 | The replacing loops compute one pass per token |
| `YamlText.RemoveAllEscapeTokens` | src/yaml.cpp:2756-2770 | The replacing loop drops every backslash that is not last and skips the character behind it |
| `YamlText.LineFolding` | src/yaml.cpp:2303-2340 | The folding loop |
| `YamlText.JoinFolded` | src/yaml.cpp:2303-2340 | Joining the lines with spaces gives the text back, up to one space exactly if the last fold falls on the last character |
| `YamlText.LinesFull` | src/yaml.cpp:2303-2340 | Every line but the last is at least as long as the maximum, and no line has a space from there on |

## Left out

- Sockets, ENet, serialisation, logging, the HTTP server, SQLite and plugin bodies: they appear only as arbitrary answers or as steps of other threads.
- Peers are never null: the source refuses a null peer where it takes one, and the model has no such argument.
- Counters of 64 bits are unbounded, so wrap-around to zero and its special case are not modelled.
- Memory orders weaker than sequential consistency are not modelled.
- The header with the flag and key constants is not part of this model: `RoomAdmission` and its neighbours read the flags as booleans, and property keys are named.
- Settings and rollback copies are grouped into records in `Games.Game`, where the source has a field each.
- `create_peer_for_actor`, interest groups, event broadcast and flooding: they would only add easy members.
- Foreign calls and messages between processes that write a room's members, expected users or creation state past the admission path are not steps of a run.
- The timeout of five seconds after which a parked join is turned away: it is independent of leases, and `RoomLeases.ParkedJoin` speaks of verdicts before it.
- FfiAwaiter.OneContinuation: assumes one call by the foreign side, an initiator that does not throw and a frame that outlives the call, as the source's documentation does; `FfiAwaiter.TornDuringCall` shows that the last is needed.
- Ports.Port holds its queues and its socket tree as sequences and a map; the linked structures behind them are proved in `Queues` and `Tree` and not composed with the port on one heap.
- The waiting loop of `port_wait` with its timeout, which repeats `EpollPorts.EpollPort.BeginPoll` and `EpollPorts.EpollPort.EndPoll`.
- Reflock.DeletedAlone: every thread holds at most one reference at a time, as the functions of the interface do.
- The database's own pattern matching, and how it turns the value of a constraint into a number or a text, are parameters of `LobbyQuery.Query`; the count of listed games that the limit is compared with is one of `CreateGame`.
- Messages that have arrived as a whole but were not fetched before the receiver loses its own connection are never given out; `Ipc.Receive` says so.
- Token reuse across processes, convergence of replicas and the full YAML parser and serialiser.
