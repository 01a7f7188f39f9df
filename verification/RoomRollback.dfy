/** The abort of a creation gives back the room that the creation found,
    whatever steps of whatever threads fell in between. */
module RoomRollback {
  import opened Sequences
  import opened Room
  import opened RoomReservations
  import opened RoomLeases

  /** The running creation made the reservation of `u` itself. */
  ghost predicate Owned(r: Room, u: User)
    requires u in r.generations
  {
    u in r.reserved && r.reserved[u] == r.generations[u]
  }

  ghost predicate SinceBefore(base: Room, r: Room, u: User)
    requires u in r.generations
  {
    u in base.generations && r.generations[u] == base.generations[u]
  }

  /** What the creation has done to the reservation of `u`: `w` are the users whose reservation
      was withdrawn by generation, which a rollback does not undo. */
  ghost predicate UserLeased(base: Room, w: set<User>, r: Room, u: User) {
    && (u in r.reserved ==> base.nextGeneration < r.reserved[u] <= r.nextGeneration)
    && (u in r.removed ==> u in base.generations && u !in w)
    && (u in base.generations ==> u in w || u in r.removed || Live(r, u, base.generations[u]))
    && (u in r.generations ==> Owned(r, u) || (SinceBefore(base, r, u) && u !in w && u !in r.removed))
  }

  ghost predicate TableLeased(base: Room, w: set<User>, r: Room) {
    && Sound(base) && Sound(r) && base.nextGeneration <= r.nextGeneration && w <= base.generations.Keys
    && forall u: User :: UserLeased(base, w, r, u)
  }

  ghost predicate FieldsLeased(base: Room, p: Peer, r: Room) {
    && r.isCreating && !r.isCreated && r.owner == Some(p)
    && r.activeLease == r.nextLease == base.nextLease + 1
    && r.snapshot == Snapshot(base.isCreated, base.settings, base.lastActorId)
    && (forall m <- r.members :: m.peer == p)
    && base.retired <= r.retired && base.revision < r.revision
  }

  /** The users whose reservation from before `base` a run withdraws by generation. */
  function Withdrawn(base: Room, r: Room, steps: seq<(Env, Step)>): set<User>
    decreases |steps|
  {
    if steps == [] then {} else WithdrawnBy(base, r, steps[0].1) + Withdrawn(base, Apply(steps[0].0, r, steps[0].1), steps[1..])
  }

  function WithdrawnBy(base: Room, r: Room, s: Step): set<User> {
    if s.RemoveIfStep? && s.user in r.generations && s.user in base.generations
       && r.generations[s.user] == base.generations[s.user] == s.generation then {s.user} else {}
  }

  // ----- one step of a creation

  lemma ReserveLeased(base: Room, w: set<User>, r: Room, u: User)
    requires TableLeased(base, w, r) && r.isCreating
    ensures TableLeased(base, w, Reserve(r, u).0)
  {
    ReserveSound(r, u);
    forall v: User ensures UserLeased(base, w, Reserve(r, u).0, v) { ReserveUserLeased(base, w, r, u, v); }
  }

  lemma ReserveUserLeased(base: Room, w: set<User>, r: Room, u: User, v: User)
    requires Sound(r) && UserLeased(base, w, r, v) && base.nextGeneration <= r.nextGeneration && r.isCreating
    ensures UserLeased(base, w, Reserve(r, u).0, v)
  {}

  lemma RemoveLeased(base: Room, w: set<User>, r: Room, u: User)
    requires TableLeased(base, w, r) && r.isCreating
    ensures TableLeased(base, w, RemoveExpected(r, u))
  {
    DroppedSound(r, u);
    var n := RemoveExpected(r, u);
    SameSound(Dropped(r, u), n);
    forall v: User ensures UserLeased(base, w, n, v) {
      assert UserLeased(base, w, r, v);
    }
  }

  lemma RemoveIfLeased(base: Room, w: set<User>, r: Room, u: User, g: nat)
    requires TableLeased(base, w, r)
    ensures TableLeased(base, w + WithdrawnBy(base, r, RemoveIfStep(u, g)), RemoveIfGeneration(r, u, g).0)
  {
    DroppedSound(r, u);
    var n, x := RemoveIfGeneration(r, u, g).0, w + WithdrawnBy(base, r, RemoveIfStep(u, g));
    forall v: User ensures UserLeased(base, x, n, v) {
      assert UserLeased(base, w, r, v);
    }
  }

  ghost predicate SameReservations(r: Room, n: Room) {
    && n.expected == r.expected && n.generations == r.generations && n.nextGeneration == r.nextGeneration
    && n.reserved == r.reserved && n.removed == r.removed
  }

  lemma SameLeased(base: Room, w: set<User>, r: Room, n: Room)
    requires TableLeased(base, w, r) && SameReservations(r, n) && Sound(n)
    ensures TableLeased(base, w, n)
  {
    forall v: User ensures UserLeased(base, w, n, v) {
      assert UserLeased(base, w, r, v);
    }
  }

  lemma ExpireLeased(base: Room, w: set<User>, r: Room, u: User, g: nat)
    requires TableLeased(base, w, r) && r.isCreating
    ensures TableLeased(base, w, Expire(r, u, g))
  {
    ExpireSound(r, u, g);
    if (u, g) in r.callbacks && Live(r, u, g) {
      RemoveLeased(base, w, r, u);
      SameLeased(base, w, RemoveExpected(r, u), Expire(r, u, g));
    } else {
      SameLeased(base, w, r, Expire(r, u, g));
    }
  }

  /** Every other step leaves the reservations alone, or is a join that uses one up. */
  lemma Joins(env: Env, r: Room, s: Step) returns (u: User)
    requires s.CommitStep? || s.BeginStep? || s.CreateStep? || s.AddStep? || s.AddForCreationStep? || s.LeaveStep? || s.ConfigureStep?
    requires r.isCreating
    ensures SameReservations(r, Apply(env, r, s)) || SameReservations(RemoveExpected(r, u), Apply(env, r, s))
  {
    u := match s
      case AddStep(m) => if m.peer in env.userOf then env.userOf[m.peer] else ""
      case AddForCreationStep(m, p, l) => if m.peer in env.userOf then env.userOf[m.peer] else ""
      case _ => "";
  }

  /** The step ends the creation that is under way. */
  ghost predicate Ends(env: Env, r: Room, s: Step) {
    (s.CommitStep? && Commit(env, r, s.peer, s.lease).1) || (s.AbortStep? && HoldsLease(env, r, s.peer, s.lease))
  }

  lemma StepTableLeased(base: Room, w: set<User>, env: Env, r: Room, s: Step)
    requires TableLeased(base, w, r) && r.isCreating && !Ends(env, r, s)
    ensures TableLeased(base, w + WithdrawnBy(base, r, s), Apply(env, r, s))
  {
    assert !s.RemoveIfStep? ==> w + WithdrawnBy(base, r, s) == w;
    match s
    case ReserveStep(u) => ReserveLeased(base, w, r, u);
    case RemoveStep(u) => RemoveLeased(base, w, r, u);
    case RemoveIfStep(u, g) => RemoveIfLeased(base, w, r, u, g);
    case ExpireStep(u, g) => ExpireLeased(base, w, r, u, g);
    case AbortStep(_, _, _) =>
    case _ =>
      var u := Joins(env, r, s);
      ApplySound(env, r, s);
      RemoveLeased(base, w, r, u);
      if SameReservations(r, Apply(env, r, s)) { SameLeased(base, w, r, Apply(env, r, s)); }
      else { SameLeased(base, w, RemoveExpected(r, u), Apply(env, r, s)); }
  }

  lemma StepFieldsLeased(base: Room, p: Peer, env: Env, r: Room, s: Step)
    requires FieldsLeased(base, p, r) && !Ends(env, r, s)
    ensures FieldsLeased(base, p, Apply(env, r, s))
  {}

  /** Once a lease has ended it is never held again. */
  lemma {:induction false} EndedForGood(h: History, steps: seq<(Env, Step)>, lease: nat)
    requires Linear(h) && lease in h.outcome
    ensures !(Run(h.room, steps).isCreating && Run(h.room, steps).activeLease == lease)
  {
    RunLinear(h, steps);
    RecordedRoom(h, steps);
  }

  lemma HeldThroughout(h: History, steps: seq<(Env, Step)>, lease: nat)
    requires Linear(h) && steps != [] && h.room.isCreating && h.room.activeLease == lease
    requires Run(h.room, steps).isCreating && Run(h.room, steps).activeLease == lease
    ensures !Ends(steps[0].0, h.room, steps[0].1) && Linear(Recorded(steps[0].0, h, steps[0].1))
  {
    var env, s := steps[0].0, steps[0].1;
    RecordedLinear(env, h, s);
    if Ends(env, h.room, s) {
      EndedForGood(Recorded(env, h, s), steps[1..], lease);
    }
  }

  lemma {:induction false} RecordedRoom(h: History, steps: seq<(Env, Step)>)
    ensures RecordedRun(h, steps).room == Run(h.room, steps)
    decreases |steps|
  {
    if steps != [] { RecordedRoom(Recorded(steps[0].0, h, steps[0].1), steps[1..]); }
  }

  /** While the lease is held, the room stays in reach of a rollback to `base`. */
  lemma {:induction false} RunLeased(base: Room, p: Peer, w: set<User>, h: History, steps: seq<(Env, Step)>)
    requires Linear(h)
    requires TableLeased(base, w, h.room) && FieldsLeased(base, p, h.room)
    requires var n := Run(h.room, steps); n.isCreating && n.activeLease == base.nextLease + 1
    ensures TableLeased(base, w + Withdrawn(base, h.room, steps), Run(h.room, steps))
    ensures FieldsLeased(base, p, Run(h.room, steps))
    decreases |steps|
  {
    if steps == [] {
      assert w + {} == w;
    } else {
      var env, r, s := steps[0].0, h.room, steps[0].1;
      HeldThroughout(h, steps, base.nextLease + 1);
      StepTableLeased(base, w, env, r, s);
      StepFieldsLeased(base, p, env, r, s);
      var next, v := Recorded(env, h, s), WithdrawnBy(base, r, s);
      RunLeased(base, p, w + v, next, steps[1..]);
      assert w + v + Withdrawn(base, next.room, steps[1..]) == w + Withdrawn(base, r, steps);
    }
  }

  // ----- the rollback

  lemma OwnDropped(base: Room, w: set<User>, r: Room)
    requires TableLeased(base, w, r)
    ensures var d := OwnReservationsDropped(r);
      && d.expected == base.expected - w - r.removed.Keys && d.nextGeneration == r.nextGeneration && d.removed == r.removed
      && (forall u <- d.generations :: SinceBefore(base, d, u))
  {
    DropSound(r);
    var d := OwnReservationsDropped(r);
    forall u: User ensures u in d.generations ==> SinceBefore(base, d, u)
                   ensures u in d.generations <==> u in base.generations && u !in w && u !in r.removed {
      assert UserLeased(base, w, r, u);
    }
  }

  ghost predicate Kept(base: Room, r: Room) {
    forall u <- r.generations :: SinceBefore(base, r, u) || base.nextGeneration < r.generations[u]
  }

  lemma {:induction false} RestoredExpected(base: Room, r: Room, order: seq<User>)
    requires Kept(base, r) && base.nextGeneration <= r.nextGeneration && "" !in order
    ensures var b := Restored(r, order);
      b.expected == r.expected + (set u <- order) && Kept(base, b)
    decreases |order|
  {
    if order != [] {
      RestoredExpected(base, if order[0] in r.expected then r else Reserve(r, order[0]).0, order[1..]);
      assert order == [order[0]] + order[1..];
    }
  }

  lemma AbortTable(base: Room, w: set<User>, env: Env, r: Room, p: Peer, order: seq<User>)
    requires TableLeased(base, w, r) && HoldsLease(env, r, p, r.activeLease)
    requires (set u <- order) == r.removed.Keys
    ensures var a := Abort(env, r, p, r.activeLease, order).0;
      a.expected == base.expected - w && Kept(base, a)
  {
    var emptied := r.(members := Keep(r.members, Gone(env)),
                      retired := r.retired + Keep(r.members, Here(env)));
    SameSound(r, emptied);
    SameLeased(base, w, r, emptied);
    OwnDropped(base, w, emptied);
    var d := OwnReservationsDropped(emptied);
    assert UserLeased(base, w, r, "") && ("" in order ==> "" in (set u <- order));
    forall u <- r.removed ensures u in base.expected - w { assert UserLeased(base, w, r, u); }
    RestoredExpected(base, d, order);
    assert base.expected - w - r.removed.Keys + r.removed.Keys == base.expected - w;
  }

  /** Beginning a creation, any steps of any threads, and the abort of that creation: every field of
      the room is as it was before, except that monotone counters and the retired list have grown and
      that reservations withdrawn by generation stay withdrawn. */
  lemma AbortUndoesBegin(base: History, p: Peer, steps: seq<(Env, Step)>, env: Env, order: seq<User>)
    requires Sound(base.room) && Linear(base)
    requires var g := TryBegin(base.room, p).1; var n := Run(TryBegin(base.room, p).0, steps);
      g != 0 && HoldsLease(env, n, p, g) && (set u <- order) == n.removed.Keys
    ensures var b := base.room; var (begun, g) := TryBegin(b, p); var n := Run(begun, steps);
      var (a, ok) := Abort(env, n, p, g, order);
      && ok && Sound(a)
      && a == b.(retired := a.retired, expected := a.expected, generations := a.generations,
                 nextGeneration := a.nextGeneration, nextLease := a.nextLease, activeLease := a.activeLease,
                 revision := a.revision, snapshot := a.snapshot, reserved := map[], removed := map[], callbacks := a.callbacks)
      && a.expected == b.expected - Withdrawn(b, begun, steps)
      && (forall u <- a.generations :: SinceBefore(b, a, u) || b.nextGeneration < a.generations[u])
      && b.retired <= a.retired && b.nextGeneration <= a.nextGeneration && b.nextLease < a.nextLease && b.revision < a.revision
  {
    var b := base.room;
    var (begun, g) := TryBegin(b, p);
    var h := Recorded(env, base, BeginStep(p));
    RecordedLinear(env, base, BeginStep(p));
    SameSound(b, begun);
    forall u: User ensures UserLeased(b, {}, begun, u) {}
    RunLeased(b, p, {}, h, steps);
    var n := Run(begun, steps);
    var w := Withdrawn(b, begun, steps);
    assert {} + w == w;
    AbortTable(b, w, env, n, p, order);
    AbortFields(env, n, p, g, order);
    AbortSound(env, n, p, g, order);
    KeepNothing(n.members, Gone(env));
  }
}
