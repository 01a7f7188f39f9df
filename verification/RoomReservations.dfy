/** Reservation safety: what holds of a room's expected users after every run. */
module RoomReservations {
  import opened Sequences
  import opened Room

  /** Every reservation has one generation of its own and an expiry callback that names it. */
  ghost predicate Sound(r: Room) {
    && r.expected == r.generations.Keys && "" !in r.expected
    && (forall u <- r.generations :: r.generations[u] <= r.nextGeneration && (u, r.generations[u]) in r.callbacks)
    && (forall u <- r.generations, v <- r.generations :: r.generations[u] == r.generations[v] ==> u == v)
    && (forall c <- r.callbacks :: c.1 <= r.nextGeneration)
    && (forall c <- r.callbacks, d <- r.callbacks :: c.1 == d.1 ==> c == d)
  }

  const EMPTY := Room(
    Settings(Flags(true, true, false, 0), true, true, 0, 0, 0, 1, map[], [], 0, [], map[], 0),
    false, false, 0, [], [], {}, map[], 0, None, 0, 0, 0,
    Snapshot(false, Settings(Flags(false, false, false, 0), false, false, 0, 0, 0, 0, map[], [], 0, [], map[], 0), 0),
    map[], map[], {})

  lemma ReserveSound(r: Room, u: User)
    requires Sound(r)
    ensures Sound(Reserve(r, u).0)
  {}

  lemma DropSound(r: Room)
    requires Sound(r)
    ensures Sound(OwnReservationsDropped(r))
    ensures OwnReservationsDropped(r).nextGeneration == r.nextGeneration
  {}

  lemma {:induction false} RestoredSound(r: Room, order: seq<User>)
    requires Sound(r)
    ensures Sound(Restored(r, order))
    ensures Restored(r, order).nextGeneration >= r.nextGeneration
    decreases |order|
  {
    if order != [] {
      ReserveSound(r, order[0]);
      RestoredSound(if order[0] in r.expected then r else Reserve(r, order[0]).0, order[1..]);
    }
  }

  /** Without the reservation of `u`. */
  function Dropped(r: Room, u: User): Room {
    r.(generations := r.generations - {u}, expected := r.expected - {u})
  }

  lemma DroppedSound(r: Room, u: User)
    requires Sound(r)
    ensures Sound(Dropped(r, u))
  {}

  lemma ForgottenSound(r: Room, u: User, g: nat)
    requires Sound(r) && !(u in r.generations && r.generations[u] == g)
    ensures Sound(r.(callbacks := r.callbacks - {(u, g)}))
  {}

  lemma ExpireSound(r: Room, u: User, g: nat)
    requires Sound(r)
    ensures Sound(Expire(r, u, g)) && Expire(r, u, g).nextGeneration == r.nextGeneration
  {
    if u in r.generations && r.generations[u] == g {
      DroppedSound(r, u);
      ForgottenSound(Dropped(r, u), u, g);
    } else {
      ForgottenSound(r, u, g);
    }
  }

  lemma AbortSound(env: Env, r: Room, p: Peer, lease: nat, order: seq<User>)
    requires Sound(r)
    ensures Sound(Abort(env, r, p, lease, order).0)
    ensures Abort(env, r, p, lease, order).0.nextGeneration >= r.nextGeneration
  {
    if HoldsLease(env, r, p, lease) {
      var emptied := r.(members := Keep(r.members, Gone(env)),
                        retired := r.retired + Keep(r.members, Here(env)));
      DropSound(emptied);
      RestoredSound(OwnReservationsDropped(emptied), order);
    }
  }

  ghost predicate SameTable(r: Room, n: Room) {
    n.expected == r.expected && n.generations == r.generations && n.nextGeneration == r.nextGeneration && n.callbacks == r.callbacks
  }

  lemma SameSound(r: Room, n: Room)
    requires Sound(r) && SameTable(r, n)
    ensures Sound(n)
  {}

  /** A step that only takes reservations away leaves the table as it was or without one user. */
  lemma Lessened(env: Env, r: Room, s: Step) returns (u: User)
    requires s.CommitStep? || s.BeginStep? || s.RemoveStep? || s.RemoveIfStep? || s.CreateStep? || s.AddStep?
             || s.AddForCreationStep? || s.LeaveStep? || s.ConfigureStep?
    requires Sound(r)
    ensures SameTable(r, Apply(env, r, s)) || SameTable(Dropped(r, u), Apply(env, r, s))
  {
    u := match s
      case RemoveStep(u) => u
      case RemoveIfStep(u, g) => u
      case AddStep(m) => if m.peer in env.userOf then env.userOf[m.peer] else ""
      case AddForCreationStep(m, p, l) => if m.peer in env.userOf then env.userOf[m.peer] else ""
      case _ => "";
  }

  lemma ApplySound(env: Env, r: Room, s: Step)
    requires Sound(r)
    ensures Sound(Apply(env, r, s)) && Apply(env, r, s).nextGeneration >= r.nextGeneration
  {
    match s
    case AbortStep(p, l, order) => AbortSound(env, r, p, l, order);
    case ReserveStep(u) => ReserveSound(r, u);
    case ExpireStep(u, g) => ExpireSound(r, u, g);
    case _ =>
      var u := Lessened(env, r, s);
      DroppedSound(r, u);
      if SameTable(r, Apply(env, r, s)) { SameSound(r, Apply(env, r, s)); }
      else { SameSound(Dropped(r, u), Apply(env, r, s)); }
  }

  /** Reservation safety in every reachable state. */
  lemma {:induction false} RunSound(r: Room, steps: seq<(Env, Step)>)
    requires Sound(r)
    ensures Sound(Run(r, steps)) && Run(r, steps).nextGeneration >= r.nextGeneration
    decreases |steps|
  {
    if steps != [] {
      ApplySound(steps[0].0, r, steps[0].1);
      RunSound(Apply(steps[0].0, r, steps[0].1), steps[1..]);
    }
  }

  ghost predicate Live(r: Room, u: User, g: nat) { u in r.generations && r.generations[u] == g }

  lemma {:induction false} RestoredFresh(r: Room, order: seq<User>, u: User, g: nat)
    requires g <= r.nextGeneration && !Live(r, u, g)
    ensures !Live(Restored(r, order), u, g)
    decreases |order|
  {
    if order != [] {
      RestoredFresh(if order[0] in r.expected then r else Reserve(r, order[0]).0, order[1..], u, g);
    }
  }

  lemma ApplyFresh(env: Env, r: Room, s: Step, u: User, g: nat)
    requires g <= r.nextGeneration && !Live(r, u, g)
    ensures !Live(Apply(env, r, s), u, g)
  {
    match s
    case AbortStep(p, l, order) =>
      if HoldsLease(env, r, p, l) {
        var emptied := r.(members := Keep(r.members, Gone(env)),
                          retired := r.retired + Keep(r.members, Here(env)));
        RestoredFresh(OwnReservationsDropped(emptied), order, u, g);
      }
    case _ =>
  }

  /** A reservation that is gone never comes back under its old generation, so its callback
      can do no harm to whatever has been reserved since. */
  lemma {:induction false} GoneForGood(r: Room, steps: seq<(Env, Step)>, u: User, g: nat)
    requires Sound(r) && g <= r.nextGeneration && !Live(r, u, g)
    ensures !Live(Run(r, steps), u, g)
    ensures var n := Run(r, steps); Expire(n, u, g) == n.(callbacks := n.callbacks - {(u, g)})
    decreases |steps|
  {
    if steps != [] {
      ApplySound(steps[0].0, r, steps[0].1);
      ApplyFresh(steps[0].0, r, steps[0].1, u, g);
      GoneForGood(Apply(steps[0].0, r, steps[0].1), steps[1..], u, g);
    }
  }

  /** The callback of a live reservation takes away that one and no other. */
  lemma ExpiryExact(r: Room, u: User, g: nat, v: User)
    requires Sound(r) && (u, g) in r.callbacks
    ensures v in Expire(r, u, g).expected <==> v in r.expected && !(v == u && Live(r, u, g))
    ensures v in Expire(r, u, g).expected ==> Expire(r, u, g).generations[v] == r.generations[v]
  {}
}
