/** Creation leases: one at a time, ended at most once, and what a parked join learns about its own. */
module RoomLeases {
  import opened Sequences
  import opened Room
  import opened RoomReservations

  datatype Outcome = Committed | Aborted

  /** A room and, for every lease that has ended, how. */
  datatype History = History(room: Room, outcome: map<nat, Outcome>)

  function Recorded(env: Env, h: History, s: Step): History {
    var next := Apply(env, h.room, s);
    match s
    case CommitStep(p, l) =>
      History(next, if Commit(env, h.room, p, l).1 then h.outcome[l := Committed] else h.outcome)
    case AbortStep(p, l, order) =>
      History(next, if Abort(env, h.room, p, l, order).1 then h.outcome[l := Aborted] else h.outcome)
    case _ => History(next, h.outcome)
  }

  function RecordedRun(h: History, steps: seq<(Env, Step)>): History
    decreases |steps|
  {
    if steps == [] then h else RecordedRun(Recorded(steps[0].0, h, steps[0].1), steps[1..])
  }

  /** Leases are linear: numbered in order, one live at a time, each ended at most once,
      at most one of them committed, and then the last. */
  ghost predicate Linear(h: History) {
    var r := h.room;
    && r.activeLease == r.nextLease
    && !(r.isCreated && r.isCreating)
    && (if r.isCreating then r.activeLease != 0 && !r.snapshot.isCreated else r.owner == None)
    && (forall l :: l in h.outcome <==> 1 <= l <= r.nextLease && !(r.isCreating && l == r.activeLease))
    && (forall l <- h.outcome :: h.outcome[l] == Committed <==> r.isCreated && l == r.activeLease)
    && (r.isCreated ==> r.activeLease in h.outcome)
  }

  lemma {:induction false} RestoredLease(r: Room, order: seq<User>)
    ensures var b := Restored(r, order);
      b == r.(expected := b.expected, generations := b.generations, nextGeneration := b.nextGeneration,
              reserved := b.reserved, callbacks := b.callbacks)
    decreases |order|
  {
    if order != [] {
      RestoredLease(if order[0] in r.expected then r else Reserve(r, order[0]).0, order[1..]);
    }
  }

  /** The fields that an abort sets outright. */
  lemma AbortFields(env: Env, r: Room, p: Peer, lease: nat, order: seq<User>)
    requires HoldsLease(env, r, p, lease)
    ensures var a := Abort(env, r, p, lease, order).0;
      && a.settings == r.snapshot.settings && a.lastActorId == r.snapshot.lastActorId
      && a.isCreated == r.snapshot.isCreated && !a.isCreating && a.owner == None
      && a.nextLease == r.nextLease && a.activeLease == r.activeLease
      && a.members == Keep(r.members, Gone(env)) && r.retired <= a.retired
  {
    var emptied := r.(members := Keep(r.members, Gone(env)),
                      retired := r.retired + Keep(r.members, Here(env)));
    RestoredLease(OwnReservationsDropped(emptied), order);
  }

  ghost predicate SameLease(r: Room, n: Room) {
    && n.isCreated == r.isCreated && n.isCreating == r.isCreating && n.snapshot == r.snapshot
    && n.activeLease == r.activeLease && n.nextLease == r.nextLease
  }

  lemma OtherStepsKeepLease(env: Env, r: Room, s: Step)
    requires !s.BeginStep? && !s.CommitStep? && !s.AbortStep?
    ensures SameLease(r, Apply(env, r, s))
  {}

  lemma AbortLinear(env: Env, h: History, p: Peer, lease: nat, order: seq<User>)
    requires Linear(h)
    ensures var n := Recorded(env, h, AbortStep(p, lease, order)); Linear(n) && n.room.nextLease == h.room.nextLease
    ensures HoldsLease(env, h.room, p, lease) ==> !h.room.isCreated && lease !in h.outcome
  {
    if HoldsLease(env, h.room, p, lease) {
      AbortFields(env, h.room, p, lease, order);
    }
  }

  /** A commit ends its lease with the owner a member of the room. */
  lemma CommitLinear(env: Env, h: History, p: Peer, lease: nat)
    requires Linear(h)
    ensures Linear(Recorded(env, h, CommitStep(p, lease)))
    ensures Commit(env, h.room, p, lease).1 ==>
              !h.room.isCreated && lease !in h.outcome && HasPeer(Commit(env, h.room, p, lease).0.members, p)
  {}

  lemma BeginLinear(env: Env, h: History, p: Peer)
    requires Linear(h)
    ensures Linear(Recorded(env, h, BeginStep(p)))
  {}

  lemma RecordedLinear(env: Env, h: History, s: Step)
    requires Linear(h)
    ensures Linear(Recorded(env, h, s)) && h.room.nextLease <= Recorded(env, h, s).room.nextLease
    ensures h.room.isCreated ==> Recorded(env, h, s).room.isCreated
    ensures forall l <- h.outcome :: l in Recorded(env, h, s).outcome && Recorded(env, h, s).outcome[l] == h.outcome[l]
  {
    match s
    case AbortStep(p, l, order) => AbortLinear(env, h, p, l, order);
    case CommitStep(p, l) => CommitLinear(env, h, p, l);
    case BeginStep(p) => BeginLinear(env, h, p);
    case _ => OtherStepsKeepLease(env, h.room, s);
  }

  lemma {:induction false} RunLinear(h: History, steps: seq<(Env, Step)>)
    requires Linear(h)
    ensures Linear(RecordedRun(h, steps)) && h.room.nextLease <= RecordedRun(h, steps).room.nextLease
    ensures h.room.isCreated ==> RecordedRun(h, steps).room.isCreated
    ensures forall l <- h.outcome ::
              l in RecordedRun(h, steps).outcome && RecordedRun(h, steps).outcome[l] == h.outcome[l]
    decreases |steps|
  {
    if steps != [] {
      RecordedLinear(steps[0].0, h, steps[0].1);
      RunLinear(Recorded(steps[0].0, h, steps[0].1), steps[1..]);
    }
  }

  /** How a handler decides about a join that it parked behind the lease `l`. */
  datatype Verdict = Replay | Reject | Wait

  function Decide(created: bool, creating: bool, active: nat, l: nat): Verdict {
    var changed := l != 0 && active != l;
    if created && !creating && !changed then Replay
    else if (!created && !creating) || changed then Reject
    else Wait
  }

  /** In every reachable state, a parked join is replayed exactly if its own lease has committed and
      turned away exactly if its own lease has been aborted. */
  lemma ParkedJoin(steps: seq<(Env, Step)>, l: nat)
    requires 1 <= l <= RecordedRun(History(EMPTY, map[]), steps).room.nextLease
    ensures var h := RecordedRun(History(EMPTY, map[]), steps);
      var v := Decide(h.room.isCreated, h.room.isCreating, h.room.activeLease, l);
      && (v == Replay <==> l in h.outcome && h.outcome[l] == Committed)
      && (v == Reject <==> l in h.outcome && h.outcome[l] == Aborted)
  {
    RunLinear(History(EMPTY, map[]), steps);
  }

  /** The handler reads the room's fields one after another. Between two reads the room may take any steps. */
  function DecideByReads(first: Room, second: Room, third: Room, fourth: Room, fifth: Room, l: nat): Verdict {
    var changed := l != 0 && first.activeLease != l;
    if second.isCreated && !third.isCreating && !changed then Replay
    else if (!fourth.isCreated && !fifth.isCreating) || changed then Reject
    else Wait
  }

  ghost predicate Later(h: History, n: History) {
    exists steps :: n == RecordedRun(h, steps)
  }

  ghost predicate EndedAs(h: History, l: nat, o: Outcome) { l in h.outcome && h.outcome[l] == o }

  /** When the reads tell the truth about the lease. A join whose lease has not been aborted by the last read is turned
      away exactly if that lease is committed between the last two reads. A join whose lease has not been committed is
      replayed exactly if the lease was still the room's latest at the first read, and another one has created the
      room by the second. */
  lemma ReadsTellTheTruth(h: seq<History>, l: nat)
    requires |h| == 5 && Linear(h[0]) && 1 <= l <= h[0].room.nextLease
    requires forall i :: 0 <= i < 4 ==> Later(h[i], h[i + 1])
    ensures var v := DecideByReads(h[0].room, h[1].room, h[2].room, h[3].room, h[4].room, l);
      && (v == Reject && !EndedAs(h[4], l, Aborted) <==> l !in h[3].outcome && EndedAs(h[4], l, Committed))
      && (v == Replay && !EndedAs(h[4], l, Committed)
          <==> h[0].room.activeLease == l && h[1].room.isCreated && h[1].room.activeLease != l)
      && (v == Replay ==> (EndedAs(h[4], l, Committed) <==> h[1].room.activeLease == l))
      && (h[4].outcome == h[0].outcome ==> (v == Replay ==> EndedAs(h[0], l, Committed)) && (v == Reject ==> EndedAs(h[0], l, Aborted)))
  {
    LaterLinear(h[0], h[1]);
    LaterLinear(h[1], h[2]);
    LaterLinear(h[2], h[3]);
    LaterLinear(h[3], h[4]);
    assert h[4].room.isCreated && h[4].outcome == h[0].outcome ==> h[0].outcome[h[4].room.activeLease] == Committed;
  }

  lemma LaterLinear(h: History, n: History)
    requires Linear(h) && Later(h, n)
    ensures Linear(n) && h.room.nextLease <= n.room.nextLease && (h.room.isCreated ==> n.room.isCreated)
    ensures forall l <- h.outcome :: l in n.outcome && n.outcome[l] == h.outcome[l]
  {
    var steps :| n == RecordedRun(h, steps);
    RunLinear(h, steps);
  }

  lemma LaterStep(h: History, n: History, env: Env, s: Step)
    requires Later(h, n)
    ensures Later(h, Recorded(env, n, s))
  {
    var steps :| n == RecordedRun(h, steps);
    RecordedSnoc(h, steps, env, s);
  }

  lemma {:induction false} RecordedSnoc(h: History, steps: seq<(Env, Step)>, env: Env, s: Step)
    ensures RecordedRun(h, steps + [(env, s)]) == Recorded(env, RecordedRun(h, steps), s)
    decreases |steps|
  {
    if steps == [] {
      assert [(env, s)][1..] == [] && steps + [(env, s)] == [(env, s)];
    } else {
      assert (steps + [(env, s)])[1..] == steps[1..] + [(env, s)];
      RecordedSnoc(Recorded(steps[0].0, h, steps[0].1), steps[1..], env, s);
    }
  }

  const WORLD := Env({7}, map[7 := "u"])

  /** Peer 7 has begun to create a room and is its only member. */
  const CREATING := Apply(WORLD, Apply(WORLD, EMPTY, BeginStep(7)), AddForCreationStep(Member(7, 1), 7, 1))

  /** A commit between the last two reads makes a handler turn away a join whose creation succeeded:
      the room is read as not yet created, and then as no longer being created. */
  lemma TornReject()
    ensures var before := History(CREATING, map[]); var after := Recorded(WORLD, before, CommitStep(7, 1));
      && Linear(before) && Later(before, before) && Later(before, after)
      && after.outcome == map[1 := Committed]
      && DecideByReads(before.room, before.room, before.room, before.room, after.room, 1) == Reject
  {
    var before := History(CREATING, map[]);
    var after := Recorded(WORLD, before, CommitStep(7, 1));
    assert CREATING.members == [Member(7, 1)];
    assert HasPeer(CREATING.members, 7) by { assert CREATING.members[0].peer == 7; }
    assert RecordedRun(before, []) == before;
    assert RecordedRun(after, []) == after;
    assert RecordedRun(before, [(WORLD, CommitStep(7, 1))]) == after;
  }

  const ABORTED := Recorded(WORLD, History(CREATING, map[]), AbortStep(7, 1, []))

  /** Peer 7 has begun anew and is inside again. */
  const REENTERED := Recorded(WORLD, Recorded(WORLD, ABORTED, BeginStep(7)), AddForCreationStep(Member(7, 1), 7, 2))

  const RECREATED := Recorded(WORLD, REENTERED, CommitStep(7, 2))

  lemma FirstAborted()
    ensures ABORTED.room.members == [] && !ABORTED.room.isCreated && !ABORTED.room.isCreating && ABORTED.outcome == map[1 := Aborted]
  {
    assert CREATING.members == [Member(7, 1)];
  }

  lemma Reentered()
    ensures REENTERED.outcome == map[1 := Aborted]
    ensures HoldsLease(WORLD, REENTERED.room, 7, 2) && HasPeer(REENTERED.room.members, 7)
  {
    FirstAborted();
    assert REENTERED.room.members == [Member(7, 1)];
    assert REENTERED.room.members[0].peer == 7;
  }

  lemma Recreated()
    ensures RECREATED.outcome == map[1 := Aborted, 2 := Committed]
    ensures RECREATED.room.isCreated && !RECREATED.room.isCreating
  {
    Reentered();
  }

  /** An abort and another creation between the first two reads make a handler replay a join whose own creation
      failed: the room's lease is read as unchanged, and then the room as created. */
  lemma TornReplay()
    ensures var before := History(CREATING, map[]);
      && Linear(before) && Later(before, RECREATED) && Later(RECREATED, RECREATED)
      && RECREATED.outcome == map[1 := Aborted, 2 := Committed]
      && DecideByReads(before.room, RECREATED.room, RECREATED.room, RECREATED.room, RECREATED.room, 1) == Replay
  {
    var before := History(CREATING, map[]);
    assert CREATING.members == [Member(7, 1)];
    Recreated();
    assert RecordedRun(before, []) == before && RecordedRun(RECREATED, []) == RECREATED;
    LaterStep(before, before, WORLD, AbortStep(7, 1, []));
    LaterStep(before, ABORTED, WORLD, BeginStep(7));
    LaterStep(before, Recorded(WORLD, ABORTED, BeginStep(7)), WORLD, AddForCreationStep(Member(7, 1), 7, 2));
    LaterStep(before, REENTERED, WORLD, CommitStep(7, 2));
  }
}
