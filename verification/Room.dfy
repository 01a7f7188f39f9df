/** A game room as a value, and what each operation under its admission lock does to it. */
module Room {
  import opened Sequences

  type Peer = nat
  type User = string

  /** The bits of the room's flag byte that the admission path reads. */
  datatype Flags = Flags(checkUserOnJoin: bool, deleteCacheOnLeave: bool, deleteNullProps: bool, others: nat)

  datatype Event = Event(sender: int, code: nat)

  /** The part of a room that a failed creation gives back as it was. */
  datatype Settings = Settings(
    flags: Flags, isOpen: bool, isVisible: bool, playerTtl: int, emptyGameTtl: int, maxPeers: nat, masterActor: int,
    customProps: map<string, string>, lobbyProps: seq<string>, dummyPeerCount: nat, eventCache: seq<Event>,
    inactivePlayers: map<User, string>, plugins: nat)

  datatype Member = Member(peer: Peer, actorId: int)

  /** What the room asks of the world outside: which peers still exist, and who they are.
      A peer that has not been authenticated has no user. */
  datatype Env = Env(live: set<Peer>, userOf: map<Peer, User>) {
    predicate Knows(p: Peer) { p in live && p in userOf }
  }

  datatype Snapshot = Snapshot(isCreated: bool, settings: Settings, lastActorId: int)

  datatype Room = Room(
    settings: Settings,
    isCreated: bool,
    isCreating: bool,
    lastActorId: int,
    members: seq<Member>,
    retired: seq<Member>,
    expected: set<User>,
    generations: map<User, nat>,
    nextGeneration: nat,
    owner: Option<Peer>,
    nextLease: nat,
    activeLease: nat,
    revision: nat,
    snapshot: Snapshot,
    reserved: map<User, nat>,
    removed: map<User, nat>,
    callbacks: set<(User, nat)>)

  const ACTOR_LIMIT: int := 254

  // ----- lookups

  predicate HasActor(ms: seq<Member>, id: int) { exists i :: 0 <= i < |ms| && ms[i].actorId == id }

  predicate HasPeer(ms: seq<Member>, p: Peer) { exists i :: 0 <= i < |ms| && ms[i].peer == p }

  /** A live member of the room is this user. */
  predicate HasUser(env: Env, ms: seq<Member>, u: User) {
    exists i :: 0 <= i < |ms| && env.Knows(ms[i].peer) && env.userOf[ms[i].peer] == u
  }

  predicate HoldsLease(env: Env, r: Room, p: Peer, lease: nat) {
    r.isCreating && lease != 0 && lease == r.activeLease && r.owner == Some(p) && p in env.live
  }

  // ----- the creation lease

  function TryBegin(r: Room, p: Peer): (Room, nat) {
    if r.isCreated || r.isCreating || r.members != [] then (r, 0)
    else
      (r.(snapshot := Snapshot(r.isCreated, r.settings, r.lastActorId), isCreating := true,
          nextLease := r.nextLease + 1, activeLease := r.nextLease + 1, revision := r.revision + 1,
          owner := Some(p), reserved := map[], removed := map[]),
       r.nextLease + 1)
  }

  function Commit(env: Env, r: Room, p: Peer, lease: nat): (Room, bool) {
    if !HoldsLease(env, r, p, lease) || !HasPeer(r.members, p) then (r, false)
    else (r.(revision := r.revision + 1, isCreated := true, owner := None, isCreating := false), true)
  }

  function Keep(ms: seq<Member>, keep: Member -> bool): (kept: seq<Member>)
    ensures forall m <- kept :: m in ms && keep(m)
  {
    if ms == [] then []
    else (if keep(ms[0]) then [ms[0]] else []) + Keep(ms[1..], keep)
  }

  lemma {:induction false} KeepNothing(ms: seq<Member>, keep: Member -> bool)
    requires forall j :: 0 <= j < |ms| ==> !keep(ms[j])
    ensures Keep(ms, keep) == []
  {
    if ms != [] { KeepNothing(ms[1..], keep); }
  }

  function Here(env: Env): Member -> bool { (m: Member) => m.peer in env.live }

  function Gone(env: Env): Member -> bool { (m: Member) => m.peer !in env.live }

  /** Who stays when `p` leaves: every live member but `p`. */
  function Staying(env: Env, p: Peer): Member -> bool { (m: Member) => m.peer in env.live && m.peer != p }

  function Leaving(env: Env, p: Peer): Member -> bool { (m: Member) => !(m.peer in env.live && m.peer != p) }

  function OwnReservationsDropped(r: Room): Room {
    var kept := map u | u in r.generations && !(u in r.reserved && r.reserved[u] == r.generations[u]) :: r.generations[u];
    r.(generations := kept, expected := r.expected - (r.generations.Keys - kept.Keys))
  }

  /** `order` is the order in which the rollback walks the withdrawn reservations. */
  function Restored(r: Room, order: seq<User>): Room
    decreases |order|
  {
    if order == [] then r
    else Restored(if order[0] in r.expected then r else Reserve(r, order[0]).0, order[1..])
  }

  function Abort(env: Env, r: Room, p: Peer, lease: nat, order: seq<User>): (Room, bool) {
    if !HoldsLease(env, r, p, lease) then (r, false)
    else
      var emptied := r.(members := Keep(r.members, Gone(env)),
                        retired := r.retired + Keep(r.members, Here(env)));
      var back := Restored(OwnReservationsDropped(emptied), order);
      (back.(reserved := map[], removed := map[], settings := r.snapshot.settings, lastActorId := r.snapshot.lastActorId,
             revision := r.revision + 1, owner := None, isCreated := r.snapshot.isCreated, isCreating := false),
       true)
  }

  // ----- reservations

  function Reserve(r: Room, u: User): (Room, Option<nat>) {
    if u == "" || u in r.expected then (r, None)
    else
      var g := r.nextGeneration + 1;
      (r.(expected := r.expected + {u}, nextGeneration := g, generations := r.generations[u := g],
          reserved := if r.isCreating then r.reserved[u := g] else r.reserved,
          callbacks := r.callbacks + {(u, g)}),
       Some(g))
  }

  /** Taking away a reservation that the running creation did not make is noted for its rollback. */
  function Noted(r: Room, u: User): map<User, nat>
    requires u in r.generations
  {
    if r.isCreating && !(u in r.reserved && r.reserved[u] == r.generations[u])
    then r.removed[u := r.generations[u]] else r.removed
  }

  function RemoveExpected(r: Room, u: User): Room {
    r.(removed := if u in r.generations then Noted(r, u) else r.removed,
       generations := r.generations - {u}, expected := r.expected - {u})
  }

  function RemoveIfGeneration(r: Room, u: User, g: nat): (Room, bool) {
    if u in r.generations && r.generations[u] == g
    then (r.(generations := r.generations - {u}, expected := r.expected - {u}), true)
    else (r, false)
  }

  /** The expiry callback of the reservation `g`, which the server manager holds and runs once. */
  function Expire(r: Room, u: User, g: nat): Room {
    if (u, g) !in r.callbacks then r
    else
      var ran := r.(callbacks := r.callbacks - {(u, g)});
      if u in r.generations && r.generations[u] == g
      then ran.(removed := Noted(r, u), generations := r.generations - {u}, expected := r.expected - {u})
      else ran
  }

  // ----- members

  /** The allocator's next candidate. */
  function NextActor(last: int): int { (if last >= ACTOR_LIMIT then 0 else last) + 1 }

  function FreeActor(ms: seq<Member>, last: int, attempts: nat): (int, Option<int>)
    decreases attempts
  {
    if attempts == 0 then (last, None)
    else
      var id := NextActor(last);
      if HasActor(ms, id) then FreeActor(ms, id, attempts - 1) else (id, Some(id))
  }

  function CreatePeer(env: Env, r: Room, p: Peer): (Room, Option<Member>) {
    if !env.Knows(p) then (r, None)
    else
      var (last, found) := FreeActor(r.members, r.lastActorId, 254);
      (r.(lastActorId := last), if found.Some? && found.value > 0 then Some(Member(p, found.value)) else None)
  }

  /** The checks that both ways of joining share. */
  predicate Admits(env: Env, r: Room, m: Member) {
    && env.Knows(m.peer) && !HasActor(r.members, m.actorId)
    && (r.settings.flags.checkUserOnJoin ==> !HasUser(env, r.members, env.userOf[m.peer]))
  }

  function AddPeer(env: Env, r: Room, m: Member): (Room, bool) {
    if (r.isCreating && !r.isCreated) || !Admits(env, r, m) then (r, false)
    else (RemoveExpected(r.(members := r.members + [m]), env.userOf[m.peer]), true)
  }

  function AddPeerForCreation(env: Env, r: Room, m: Member, p: Peer, lease: nat): (Room, bool) {
    if !HoldsLease(env, r, p, lease) || m.peer != p || !Admits(env, r, m) then (r, false)
    else (RemoveExpected(r.(members := r.members + [m]), env.userOf[m.peer]), true)
  }

  /** The actor id of the last entry of `p`, 0 if there is none. */
  function LeavingActor(ms: seq<Member>, p: Peer): int {
    if ms == [] then 0
    else
      var n := |ms| - 1;
      if ms[n].peer == p then ms[n].actorId else LeavingActor(ms[..n], p)
  }

  predicate SentBy(ms: seq<Member>, p: Peer, e: Event) {
    e.sender != 0 && exists i :: 0 <= i < |ms| && ms[i].peer == p && ms[i].actorId == e.sender
  }

  /** Without the events of the actors whose entries belong to `p`. */
  function CacheWithout(cache: seq<Event>, ms: seq<Member>, p: Peer): seq<Event> {
    if cache == [] then []
    else (if SentBy(ms, p, cache[0]) then [] else [cache[0]]) + CacheWithout(cache[1..], ms, p)
  }

  function RemovePeer(env: Env, r: Room, p: Peer): (Room, bool) {
    var left := Keep(r.members, Staying(env, p));
    var cache := if r.settings.flags.deleteCacheOnLeave then CacheWithout(r.settings.eventCache, r.members, p)
                 else r.settings.eventCache;
    var leaving := LeavingActor(r.members, p);
    var master := if leaving != 0 && left != [] && leaving == r.settings.masterActor then left[0].actorId
                  else r.settings.masterActor;
    (r.(members := left, retired := r.retired + Keep(r.members, Leaving(env, p)),
        settings := r.settings.(eventCache := cache, masterActor := master)),
     leaving != 0)
  }

  // ----- runs

  datatype Step =
    | BeginStep(peer: Peer)
    | CommitStep(peer: Peer, lease: nat)
    | AbortStep(peer: Peer, lease: nat, order: seq<User>)
    | ReserveStep(user: User)
    | RemoveStep(user: User)
    | RemoveIfStep(user: User, generation: nat)
    | ExpireStep(user: User, generation: nat)
    | CreateStep(peer: Peer)
    | AddStep(member: Member)
    | AddForCreationStep(member: Member, peer: Peer, lease: nat)
    | LeaveStep(peer: Peer)
    | ConfigureStep(settings: Settings)

  function Apply(env: Env, r: Room, s: Step): Room {
    match s
    case BeginStep(p) => TryBegin(r, p).0
    case CommitStep(p, l) => Commit(env, r, p, l).0
    case AbortStep(p, l, order) => Abort(env, r, p, l, order).0
    case ReserveStep(u) => Reserve(r, u).0
    case RemoveStep(u) => RemoveExpected(r, u)
    case RemoveIfStep(u, g) => RemoveIfGeneration(r, u, g).0
    case ExpireStep(u, g) => Expire(r, u, g)
    case CreateStep(p) => CreatePeer(env, r, p).0
    case AddStep(m) => AddPeer(env, r, m).0
    case AddForCreationStep(m, p, l) => AddPeerForCreation(env, r, m, p, l).0
    case LeaveStep(p) => RemovePeer(env, r, p).0
    case ConfigureStep(settings) => r.(settings := settings, revision := r.revision + 1)
  }

  /** Steps of any threads, each in the world as it then is. */
  function Run(r: Room, steps: seq<(Env, Step)>): Room
    decreases |steps|
  {
    if steps == [] then r else Run(Apply(steps[0].0, r, steps[0].1), steps[1..])
  }
}
