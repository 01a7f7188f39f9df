/** How full a room gets: what gives places back, and exactly when a run keeps the room within its caps. */
module RoomOccupancy {
  import opened Sequences
  import opened Room
  import opened RoomReservations
  import opened RoomLeases
  import opened RoomRollback
  import opened RoomAdmission

  // ----- giving places back

  /** The users among `made` that still hold the reservation named there. */
  ghost function Held(r: Room, made: seq<(User, nat)>): set<User> {
    set x | x in r.generations && (x, r.generations[x]) in made
  }

  lemma RemoveIfFields(r: Room, u: User, g: nat)
    requires Sound(r)
    ensures var n := RemoveIfGeneration(r, u, g).0;
      && Sound(n) && SameButReservations(r, n) && n.nextGeneration == r.nextGeneration
      && n.generations == (if Live(r, u, g) then r.generations - {u} else r.generations)
  {
    DroppedSound(r, u);
  }

  /** Withdrawing takes away the named reservations that still stand, and nothing else. */
  lemma {:induction false} WithdrawExact(r: Room, made: seq<(User, nat)>)
    requires Sound(r)
    ensures var n := Withdraw(r, made);
      Sound(n) && SameButReservations(r, n) && n.expected == r.expected - Held(r, made)
    decreases |made|
  {
    if made != [] {
      var (u, g) := made[0];
      var next := RemoveIfGeneration(r, u, g).0;
      RemoveIfFields(r, u, g);
      WithdrawExact(next, made[1..]);
      HeldNext(r, next, made);
    } else {
      assert Held(r, made) == {};
    }
  }

  lemma HeldNext(r: Room, next: Room, made: seq<(User, nat)>)
    requires made != [] && Sound(r)
    requires next.generations == (if Live(r, made[0].0, made[0].1) then r.generations - {made[0].0} else r.generations)
    ensures next.generations.Keys - Held(next, made[1..]) == r.generations.Keys - Held(r, made)
  {
    assert made == [made[0]] + made[1..];
  }

  /** `made` are the reservations that are new in `n`. */
  ghost predicate NewIn(r: Room, n: Room, made: seq<(User, nat)>, u: User) {
    && (forall x <- r.generations :: x in n.generations && n.generations[x] == r.generations[x])
    && (forall x <- n.generations :: x !in r.generations ==> (x, n.generations[x]) in made)
    && (forall c <- made :: c.0 !in r.generations && c.0 != u && Live(n, c.0, c.1))
  }

  lemma {:induction false} ReserveAllMade(r: Room, u: User, list: seq<User>)
    requires Sound(r)
    ensures var (n, made) := ReserveAll(r, u, false, list); NewIn(r, n, made, u)
    decreases |list|
  {
    if list != [] {
      if list[0] == "" || list[0] == u {
        ReserveAllMade(r, u, list[1..]);
      } else {
        var (next, own) := Reserve(r, list[0]);
        ReserveSound(r, list[0]);
        ReserveAllMade(next, u, list[1..]);
        var (n, rest) := ReserveAll(next, u, false, list[1..]);
        if own.Some? { OneMoreNew(r, next, n, list[0], own.value, rest, u); }
      }
    }
  }

  lemma OneMoreNew(r: Room, next: Room, n: Room, x: User, g: nat, rest: seq<(User, nat)>, u: User)
    requires x !in r.generations && x != u && next.generations == r.generations[x := g] && NewIn(next, n, rest, u)
    ensures NewIn(r, n, [(x, g)] + rest, u)
  {}

  /** A join that is rolled back at once leaves the room's members as they were, but for those that had
      gone, and its expected users as they were, but for its own user. */
  lemma RolledBackJoin(env: Env, r: Room, cap: nat, p: Peer, list: seq<User>)
    requires Sound(r) && ActorsSound(r) && env.Knows(p) && !(r.isCreated && r.isCreating) && !HasPeer(r.members, p)
    requires ValidateList(env, r, cap, env.userOf[p], list, false) == Accepted
    ensures var j := Join(env, r, cap, p, list, 0);
      var n := Withdraw(RemovePeer(env, j.room, p).0, j.made);
      && n.members == Keep(r.members, Here(env))
      && n.expected == r.expected - {env.userOf[p]} && Occupancy(n) <= Occupancy(r)
  {
    var u, j := env.userOf[p], Join(env, r, cap, p, list, 0);
    AcceptedJoins(env, r, cap, p, list, 0);
    JoinedGenerations(env, r, cap, p, list);
    var left := RemovePeer(env, j.room, p).0;
    SameSound(j.room, left);
    WithdrawExact(left, j.made);
    KeepAppend(r.members, j.member.value, Staying(env, p));
    KeepSame(r.members, Staying(env, p), Here(env));
    KeepLength(r.members, Here(env));
    SubsetSize(r.expected - {u}, r.expected);
  }

  lemma JoinedGenerations(env: Env, r: Room, cap: nat, p: Peer, list: seq<User>)
    requires Sound(r) && ActorsSound(r) && env.Knows(p) && !(r.isCreated && r.isCreating) && !HasPeer(r.members, p)
    requires ValidateList(env, r, cap, env.userOf[p], list, false) == Accepted
    ensures var u, j := env.userOf[p], Join(env, r, cap, p, list, 0);
      j.room.generations.Keys - Held(j.room, j.made) == r.generations.Keys - {u}
  {
    var u := env.userOf[p];
    var (r1, made) := ReserveAll(r, u, false, list);
    ReserveAllExpected(r, u, false, list);
    ReserveAllMade(r, u, list);
    AcceptedMeans(env, r, cap, u, list, false);
    AdmitSucceeds(env, r1, p, 0);
    HeldAfter(r, r1, Join(env, r, cap, p, list, 0).room, made, u);
  }

  /** If `made` are the reservations new in `mid`, giving them up leaves what there was before. */
  lemma HeldAfter(r: Room, mid: Room, n: Room, made: seq<(User, nat)>, u: User)
    requires forall x <- r.generations :: x in mid.generations
    requires forall x <- mid.generations :: x !in r.generations ==> (x, mid.generations[x]) in made
    requires forall c <- made :: c.0 !in r.generations
    requires n.generations == mid.generations - {u}
    ensures n.generations.Keys - Held(n, made) == r.generations.Keys - {u}
  {
    forall x ensures x in n.generations.Keys - Held(n, made) <==> x in r.generations.Keys - {u} {}
  }

  lemma {:induction false} KeepAppend(ms: seq<Member>, m: Member, keep: Member -> bool)
    ensures Keep(ms + [m], keep) == Keep(ms, keep) + (if keep(m) then [m] else [])
  {
    if ms == [] {
      assert ms + [m] == [m];
    } else {
      KeepAppend(ms[1..], m, keep);
      var first := if keep(ms[0]) then [ms[0]] else [];
      var last := if keep(m) then [m] else [];
      assert (ms + [m])[1..] == ms[1..] + [m] && (ms + [m])[0] == ms[0];
      assert Keep(ms + [m], keep) == first + (Keep(ms[1..], keep) + last);
    }
  }

  lemma {:induction false} KeepSame(ms: seq<Member>, f: Member -> bool, g: Member -> bool)
    requires forall m <- ms :: f(m) == g(m)
    ensures Keep(ms, f) == Keep(ms, g)
  {
    if ms != [] { KeepSame(ms[1..], f, g); }
  }

  lemma {:induction false} KeepLength(ms: seq<Member>, keep: Member -> bool)
    ensures |Keep(ms, keep)| <= |ms|
  {
    if ms != [] { KeepLength(ms[1..], keep); }
  }

  lemma {:induction false} KeepDistinct(ms: seq<Member>, keep: Member -> bool)
    requires Distinct(ms)
    ensures Distinct(Keep(ms, keep))
  {
    if ms != [] {
      var rest := Keep(ms[1..], keep);
      KeepDistinct(ms[1..], keep);
      assert forall m <- rest :: m in ms[1..];
      assert forall m <- ms[1..] :: m.actorId != ms[0].actorId;
      assert Distinct([ms[0]] + rest);
    }
  }

  // ----- runs of admissions

  /** What threads do to a room: every way in and out, at any time. A routing may have been validated in an earlier room,
      or not at all. `ConfigureAct` is any change of settings, by the creator or by an update. */
  datatype Act =
    | JoinAct(peer: Peer, list: seq<User>, lease: nat)
    | RouteAct(user: User, list: seq<User>)
    | ConfigureAct(settings: Settings)
    | WithdrawAct(made: seq<(User, nat)>)
    | LeaveAct(peer: Peer)
    | RemoveAct(user: User)
    | ExpireAct(user: User, generation: nat)
    | BeginAct(peer: Peer)
    | CommitAct(peer: Peer, lease: nat)
    | AbortAct(peer: Peer, lease: nat, order: seq<User>)

  function ApplyAct(env: Env, r: Room, cap: nat, a: Act): Room {
    match a
    case JoinAct(p, list, l) =>
      if !env.Knows(p) || (l != 0 && !HoldsLease(env, r, p, l)) then r else Join(env, r, cap, p, list, l).room
    case RouteAct(u, list) => Route(r, u, list).0
    case ConfigureAct(settings) => r.(settings := settings, revision := r.revision + 1)
    case WithdrawAct(made) => Withdraw(r, made)
    case LeaveAct(p) => RemovePeer(env, r, p).0
    case RemoveAct(u) => RemoveExpected(r, u)
    case ExpireAct(u, g) => Expire(r, u, g)
    case BeginAct(p) => TryBegin(r, p).0
    case CommitAct(p, l) => Commit(env, r, p, l).0
    case AbortAct(p, l, order) => Abort(env, r, p, l, order).0
  }

  ghost predicate Orderly(r: Room) {
    && Sound(r) && ActorsSound(r) && !(r.isCreated && r.isCreating)
    && (r.isCreating ==> !r.snapshot.isCreated && 0 <= r.snapshot.lastActorId <= ACTOR_LIMIT)
  }

  ghost predicate Fits(r: Room, cap: nat) { Within(r, cap, Occupancy(r)) }

  /** The room has been created, or its creator is inside. */
  predicate Guarded(r: Room) { r.isCreated || (r.isCreating && r.members != []) }

  /** Every room that is created or has its creator inside fits. What is reserved before that is for the
      creator's own validation to find. */
  ghost predicate InOrder(r: Room, cap: nat) { Orderly(r) && (Guarded(r) ==> Fits(r, cap)) }

  /** So is a new room, and its reservations and leases are sound. */
  lemma NewRoomInOrder(cap: nat)
    ensures InOrder(EMPTY, cap) && Sound(EMPTY) && Linear(History(EMPTY, map[]))
  {}

  /** What is to be checked, under the lock, before reservations are made or settings changed in a guarded room: that the
      head count they lead to is within the caps. Nothing else needs a check. */
  predicate Careful(r: Room, cap: nat, a: Act) {
    Guarded(r) ==>
      match a
      case RouteAct(u, list) => Within(r, cap, RoutedCount(r, u, list))
      case ConfigureAct(settings) =>
        var count := |r.members| + settings.dummyPeerCount + |r.expected|;
        (settings.maxPeers == 0 || count <= settings.maxPeers) && (cap == 0 || count <= cap) && count <= 254
      case _ => true
  }

  // ----- joins and routings

  /** Whatever the room held before, it is within every cap after a join that was accepted. */
  lemma AcceptedJoinFits(env: Env, r: Room, cap: nat, p: Peer, list: seq<User>, lease: nat)
    requires Orderly(r) && env.Knows(p) && (lease != 0 ==> HoldsLease(env, r, p, lease))
    requires Join(env, r, cap, p, list, lease).code == Accepted
    ensures var n := Join(env, r, cap, p, list, lease).room; Orderly(n) && Fits(n, cap)
  {
    AcceptedMeans(env, r, cap, env.userOf[p], list, lease != 0);
    AcceptedJoins(env, r, cap, p, list, lease);
    JoinCount(env, r, cap, p, list, lease);
    JoinKeepsPhase(env, r, cap, p, list, lease);
  }

  ghost predicate SamePhase(r: Room, n: Room) {
    n.isCreated == r.isCreated && n.isCreating == r.isCreating && n.snapshot == r.snapshot
  }

  lemma JoinKeepsPhase(env: Env, r: Room, cap: nat, p: Peer, list: seq<User>, lease: nat)
    requires Sound(r) && env.Knows(p)
    ensures SamePhase(r, Join(env, r, cap, p, list, lease).room)
  {
    ReserveAllExpected(r, env.userOf[p], HasPeer(r.members, p), list);
    AdmitKeepsPhase(env, ReserveAll(r, env.userOf[p], HasPeer(r.members, p), list).0, p, lease);
  }

  lemma AdmitKeepsPhase(env: Env, r: Room, p: Peer, lease: nat)
    ensures SamePhase(r, Admit(env, r, p, lease).0)
  {}

  /** A routing keeps the caps exactly if the head count it leads to in the room that it then finds is within them,
      whenever and whether or not it was validated before. */
  lemma RouteFits(r: Room, cap: nat, u: User, list: seq<User>)
    requires Orderly(r)
    ensures var n := Route(r, u, list).0;
      Orderly(n) && SameButReservations(r, n) && (Fits(n, cap) <==> Within(r, cap, RoutedCount(r, u, list)))
  {
    RouteReserves(r, u, list);
    RouteCount(r, u, list);
  }

  /** A routing that is validated and made with nothing in between is careful. */
  lemma ValidatedRouteFits(env: Env, r: Room, cap: nat, u: User, list: seq<User>)
    requires Orderly(r) && ValidateList(env, r, cap, u, list, false) == Accepted
    ensures Careful(r, cap, RouteAct(u, list)) && Orderly(Route(r, u, list).0) && Fits(Route(r, u, list).0, cap)
  {
    AcceptedMeans(env, r, cap, u, list, false);
    RouteFits(r, cap, u, list);
  }

  // ----- everything else

  /** No fuller than before, by the same caps. */
  ghost predicate NoFuller(r: Room, n: Room) {
    Orderly(n) && Occupancy(n) <= Occupancy(r) && n.settings.maxPeers == r.settings.maxPeers
  }

  lemma WithdrawNoFuller(r: Room, made: seq<(User, nat)>)
    requires Orderly(r)
    ensures NoFuller(r, Withdraw(r, made))
  {
    WithdrawExact(r, made);
    SubsetSize(Withdraw(r, made).expected, r.expected);
  }

  lemma LeaveNoFuller(env: Env, r: Room, p: Peer)
    requires Orderly(r)
    ensures NoFuller(r, RemovePeer(env, r, p).0)
  {
    SameSound(r, RemovePeer(env, r, p).0);
    KeepLength(r.members, Staying(env, p));
    KeepDistinct(r.members, Staying(env, p));
  }

  lemma RemoveNoFuller(r: Room, u: User)
    requires Orderly(r)
    ensures NoFuller(r, RemoveExpected(r, u))
  {
    DroppedSound(r, u);
    SameSound(Dropped(r, u), RemoveExpected(r, u));
    SubsetSize(r.expected - {u}, r.expected);
  }

  lemma ExpireNoFuller(r: Room, u: User, g: nat)
    requires Orderly(r)
    ensures NoFuller(r, Expire(r, u, g))
  {
    ExpireSound(r, u, g);
    ExpireFields(r, u, g);
    SubsetSize(Expire(r, u, g).expected, r.expected);
  }

  lemma ExpireFields(r: Room, u: User, g: nat)
    ensures var n := Expire(r, u, g);
      n == r.(callbacks := n.callbacks, removed := n.removed, generations := n.generations, expected := n.expected)
      && n.expected <= r.expected
  {
  }

  /** Leaves, expiries and withdrawals never raise the head count. */
  lemma NeverRaised(env: Env, r: Room, cap: nat, a: Act)
    requires Orderly(r) && (a.WithdrawAct? || a.LeaveAct? || a.RemoveAct? || a.ExpireAct?)
    ensures var n := ApplyAct(env, r, cap, a); NoFuller(r, n) && SamePhase(r, n) && (n.members != [] ==> r.members != [])
  {
    match a
    case WithdrawAct(made) => WithdrawNoFuller(r, made); WithdrawExact(r, made);
    case LeaveAct(p) => LeaveNoFuller(env, r, p);
    case RemoveAct(u) => RemoveNoFuller(r, u);
    case ExpireAct(u, g) => ExpireNoFuller(r, u, g); ExpireFields(r, u, g);
  }

  lemma BeginInOrder(r: Room, cap: nat, p: Peer)
    requires InOrder(r, cap)
    ensures InOrder(TryBegin(r, p).0, cap)
  {
    SameSound(r, TryBegin(r, p).0);
  }

  /** A commit finds the creator inside, so the room fits already. */
  lemma CommitInOrder(env: Env, r: Room, cap: nat, p: Peer, lease: nat)
    requires InOrder(r, cap)
    ensures InOrder(Commit(env, r, p, lease).0, cap)
  {
    SameSound(r, Commit(env, r, p, lease).0);
  }

  lemma AbortInOrder(env: Env, r: Room, cap: nat, p: Peer, lease: nat, order: seq<User>)
    requires InOrder(r, cap)
    ensures InOrder(Abort(env, r, p, lease, order).0, cap)
  {
    AbortSound(env, r, p, lease, order);
    if HoldsLease(env, r, p, lease) {
      AbortFields(env, r, p, lease, order);
      KeepDistinct(r.members, Gone(env));
    }
  }

  lemma ConfigureInOrder(r: Room, cap: nat, settings: Settings)
    requires InOrder(r, cap)
    ensures var n := r.(settings := settings, revision := r.revision + 1);
      Orderly(n) && (InOrder(n, cap) <==> Careful(r, cap, ConfigureAct(settings)))
  {
    SameSound(r, r.(settings := settings, revision := r.revision + 1));
  }

  lemma RouteInOrder(r: Room, cap: nat, u: User, list: seq<User>)
    requires InOrder(r, cap)
    ensures var n := Route(r, u, list).0; Orderly(n) && (InOrder(n, cap) <==> Careful(r, cap, RouteAct(u, list)))
  {
    RouteFits(r, cap, u, list);
  }

  lemma JoinInOrder(env: Env, r: Room, cap: nat, p: Peer, list: seq<User>, lease: nat)
    requires InOrder(r, cap)
    ensures InOrder(ApplyAct(env, r, cap, JoinAct(p, list, lease)), cap)
  {
    if env.Knows(p) && (lease != 0 ==> HoldsLease(env, r, p, lease)) && Join(env, r, cap, p, list, lease).code == Accepted {
      AcceptedJoinFits(env, r, cap, p, list, lease);
    }
  }

  lemma FewerInOrder(env: Env, r: Room, cap: nat, a: Act)
    requires InOrder(r, cap) && (a.WithdrawAct? || a.LeaveAct? || a.RemoveAct? || a.ExpireAct?)
    ensures InOrder(ApplyAct(env, r, cap, a), cap)
  {
    NeverRaised(env, r, cap, a);
  }

  /** An act keeps the room in order exactly if it is careful. */
  lemma ActInOrder(env: Env, r: Room, cap: nat, a: Act)
    requires InOrder(r, cap)
    ensures InOrder(ApplyAct(env, r, cap, a), cap) <==> Careful(r, cap, a)
  {
    match a
    case JoinAct(p, list, l) => JoinInOrder(env, r, cap, p, list, l);
    case RouteAct(u, list) => RouteInOrder(r, cap, u, list);
    case ConfigureAct(settings) => ConfigureInOrder(r, cap, settings);
    case BeginAct(p) => BeginInOrder(r, cap, p);
    case CommitAct(p, l) => CommitInOrder(env, r, cap, p, l);
    case AbortAct(p, l, order) => AbortInOrder(env, r, cap, p, l, order);
    case _ => FewerInOrder(env, r, cap, a);
  }

  /** The room is in order after every act of the run. */
  ghost predicate StaysInOrder(r: Room, cap: nat, acts: seq<(Env, Act)>)
    decreases |acts|
  {
    InOrder(r, cap) && (acts != [] ==> StaysInOrder(ApplyAct(acts[0].0, r, cap, acts[0].1), cap, acts[1..]))
  }

  ghost predicate AllCareful(r: Room, cap: nat, acts: seq<(Env, Act)>)
    decreases |acts|
  {
    acts != [] ==> Careful(r, cap, acts[0].1) && AllCareful(ApplyAct(acts[0].0, r, cap, acts[0].1), cap, acts[1..])
  }

  /** The room after a run. */
  function After(r: Room, cap: nat, acts: seq<(Env, Act)>): Room
    decreases |acts|
  {
    if acts == [] then r else After(ApplyAct(acts[0].0, r, cap, acts[0].1), cap, acts[1..])
  }

  /** No join of any run brings anyone into a room that is closed at that moment. */
  lemma NoJoinWhenClosed(r: Room, cap: nat, acts: seq<(Env, Act)>, i: nat)
    requires i < |acts| && acts[i].1.JoinAct? && !After(r, cap, acts[..i]).settings.isOpen
    ensures ApplyAct(acts[i].0, After(r, cap, acts[..i]), cap, acts[i].1) == After(r, cap, acts[..i])
  {
    var env, n, a := acts[i].0, After(r, cap, acts[..i]), acts[i].1;
    if env.Knows(a.peer) { ClosedRoom(env, n, cap, a.peer, a.list, a.lease); }
  }

  /** In a run of any acts of any threads, every room that is created or has its creator inside fits its caps, all the time,
      exactly if the routings and the changes of settings that find it so are careful. */
  lemma {:induction false} RunFits(r: Room, cap: nat, acts: seq<(Env, Act)>)
    requires InOrder(r, cap)
    ensures StaysInOrder(r, cap, acts) <==> AllCareful(r, cap, acts)
    decreases |acts|
  {
    if acts != [] {
      ActInOrder(acts[0].0, r, cap, acts[0].1);
      var n := ApplyAct(acts[0].0, r, cap, acts[0].1);
      if InOrder(n, cap) { RunFits(n, cap, acts[1..]); }
    }
  }

  /** An aborted creation leaves the room no fuller than it found it. */
  lemma AbortFits(base: History, p: Peer, steps: seq<(Env, Step)>, env: Env, order: seq<User>, cap: nat)
    requires Sound(base.room) && Linear(base) && Fits(base.room, cap)
    requires var g := TryBegin(base.room, p).1; var n := Run(TryBegin(base.room, p).0, steps);
      g != 0 && HoldsLease(env, n, p, g) && (set u <- order) == n.removed.Keys
    ensures var g := TryBegin(base.room, p).1; var n := Run(TryBegin(base.room, p).0, steps);
      Fits(Abort(env, n, p, g, order).0, cap)
  {
    var b := base.room;
    var (begun, g) := TryBegin(b, p);
    AbortUndoesBegin(base, p, steps, env, order);
    SubsetSize(b.expected - Withdrawn(b, begun, steps), b.expected);
  }

  /** A created room for one, in which nobody is left. */
  const OPEN_PLACE := EMPTY.(isCreated := true, settings := EMPTY.settings.(maxPeers := 1))

  lemma OpenPlace(env: Env, u: User)
    ensures InOrder(OPEN_PLACE, 0) && Occupancy(OPEN_PLACE) == 0 && OPEN_PLACE.expected == {}
    ensures ValidateList(env, OPEN_PLACE, 0, u, [], false) == Accepted
  {
    assert NewExpected({}, u, []) == {};
  }

  /** The master server validates and reserves in separate steps. Two routings that both validate before
      either reserves can take a room past its cap: here one place is given to two users. */
  lemma RoutingRace(env: Env)
    ensures ValidateList(env, OPEN_PLACE, 0, "a", [], false) == Accepted && ValidateList(env, OPEN_PLACE, 0, "b", [], false) == Accepted
    ensures var n := Route(OPEN_PLACE, "a", []).0;
      InOrder(OPEN_PLACE, 0) && InOrder(n, 0) && !Careful(n, 0, RouteAct("b", [])) && !InOrder(Route(n, "b", []).0, 0)
  {
    OpenPlace(env, "a");
    OpenPlace(env, "b");
    ValidatedRouteFits(env, OPEN_PLACE, 0, "a", []);
    RouteReserves(OPEN_PLACE, "a", []);
    FullPlace(Route(OPEN_PLACE, "a", []).0);
  }

  lemma FullPlace(n: Room)
    requires SameButReservations(OPEN_PLACE, n) && InOrder(n, 0) && n.expected == {} + {"a"} + NewExpected({}, "a", [])
    ensures !Careful(n, 0, RouteAct("b", [])) && !InOrder(Route(n, "b", []).0, 0)
  {
    assert n.expected == {"a"} && NewExpected({"a"}, "b", []) == {};
    RouteInOrder(n, 0, "b", []);
  }

  /** A room for one, which its creator has just entered. */
  const ONE_PLACE := CREATING.(settings := CREATING.settings.(maxPeers := 1))

  lemma OnePlace()
    ensures var r := ONE_PLACE;
      && r.members == [Member(7, 1)] && r.expected == {} && r.generations == map[] && r.callbacks == {}
      && r.isCreating && !r.isCreated && HoldsLease(WORLD, r, 7, 1) && r.lastActorId == 0
      && !r.snapshot.isCreated && r.snapshot.lastActorId == 0
      && r.settings.maxPeers == 1 && r.settings.dummyPeerCount == 0
  {}

  /** Into a room that is still being created the master server routes without validating. If the creator is inside, that
      too can take the room past its cap, and the creation is committed all the same. */
  lemma UnvalidatedRouting()
    ensures var n := Route(ONE_PLACE, "x", []).0; var (created, ok) := Commit(WORLD, n, 7, 1);
      && InOrder(ONE_PLACE, 0) && !Careful(ONE_PLACE, 0, RouteAct("x", [])) && ok && created.isCreated && !Fits(created, 0)
  {
    OnePlace();
    var r, n := ONE_PLACE, Route(ONE_PLACE, "x", []).0;
    assert Sound(r) && ActorsSound(r);
    assert NewExpected({}, "x", []) == {};
    RouteInOrder(r, 0, "x", []);
    RouteFits(r, 0, "x", []);
    OverfullCommit(r, n);
  }

  lemma OverfullCommit(r: Room, n: Room)
    requires n.members == [Member(7, 1)] && SameButReservations(r, n) && HoldsLease(WORLD, r, 7, 1) && !Fits(n, 0)
    ensures var (created, ok) := Commit(WORLD, n, 7, 1); ok && created.isCreated && !Fits(created, 0)
  {
    assert HasPeer(n.members, 7) by { assert n.members[0].peer == 7; }
  }
}
