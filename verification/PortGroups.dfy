/** Every port has exactly the poll groups that its fullest moment needed. */
module PortGroups {
  import opened PollGroups
  import opened Ports
  import opened PortSafety

  /** The most places that are taken at any moment of the step: a socket that cannot be added holds one for a while. */
  ghost function Highest(q: Port, s: Step): nat
    requires Valid(q) && Possible(q, s)
  {
    match s
    case AddStep(key, _, _, w) =>
      if key == 0 || key == INVALID_SOCKET || !w.baseFound then Total(q.pool) else Total(Acquire(q.pool, w.group, w.groupMade).0)
    case _ => Total(q.pool)
  }

  function Max(a: nat, b: nat): nat { if a >= b then a else b }

  /** The most places ever taken at once in a run, up to its `i`-th port. */
  ghost function Peak(ports: seq<Port>, steps: seq<Step>, i: nat): nat
    requires Trace(ports, steps) && i <= |steps|
  {
    if i == 0 then Total(ports[0].pool)
    else
      TraceStep(ports, steps, i - 1);
      Max(Peak(ports, steps, i - 1), Highest(ports[i - 1], steps[i - 1]))
  }

  lemma DeletePool(p: Port, id: Id, cancelled: bool)
    requires Alive(p, id)
    ensures var n := Delete(p, id, false, cancelled); n.pool == p.pool || n.pool == Release(p.pool, p.socks[id].group)
  {}

  lemma UpdatePool(p: Port, id: Id, cancelled: bool, answer: PollAnswer)
    requires Alive(p, id)
    ensures var n := Update(p, id, cancelled, answer).0; n.pool == p.pool || n.pool == Release(p.pool, p.socks[id].group)
  {
    DeletePool(p, id, false);
  }

  lemma HandedPool(p: Port, id: Id, closes: bool, events: Bits, oneShot: bool)
    requires Alive(p, id)
    ensures var n := Handed(p, id, closes, events, oneShot).0; n.pool == p.pool || n.pool == Release(p.pool, p.socks[id].group)
  {
    DeletePool(Completed(p, id), id, false);
  }

  lemma FeedPool(p: Port, id: Id, c: Completion)
    requires Alive(p, id)
    ensures var n := Feed(p, id, c).0; n.pool == p.pool || n.pool == Release(p.pool, p.socks[id].group)
  {
    var user := p.socks[id].userEvents;
    HandedPool(p, id, Closes(c), Wanted(c, user), IsOneShot(user));
  }

  lemma AddPool(q: Port, key: nat, events: Bits, data: nat, w: AddWorld)
    requires w.id !in q.socks && PollGroups.Sound(q.pool) && !Has(q.pool, w.group)
    ensures var n := CtlAdd(q, key, events, data, w).0; var (pool, ok, g) := Acquire(q.pool, w.group, w.groupMade);
      if !ok || key == 0 || key == INVALID_SOCKET || !w.baseFound then n.pool == q.pool
      else SizeOf(pool, g) > 0 && (n.pool == pool || n.pool == Release(pool, g))
  {
    var (pool, ok, g) := Acquire(q.pool, w.group, w.groupMade);
    AcquireSizeOf(q.pool, w.group, w.groupMade, g);
  }

  lemma AddPacked(q: Port, key: nat, events: Bits, data: nat, w: AddWorld, peak: nat)
    requires Valid(q) && Possible(q, AddStep(key, events, data, w)) && Packed(q.pool, peak)
    ensures Packed(CtlAdd(q, key, events, data, w).0.pool, Max(peak, Highest(q, AddStep(key, events, data, w))))
  {
    AddPool(q, key, events, data, w);
    AcquirePacked(q.pool, peak, w.group, w.groupMade);
    var (pool, ok, g) := Acquire(q.pool, w.group, w.groupMade);
    if ok && SizeOf(pool, g) > 0 { ReleasePacked(pool, Max(peak, Total(pool)), g); }
  }

  lemma StepPacked(q: Port, s: Step, peak: nat)
    requires Valid(q) && Possible(q, s) && Packed(q.pool, peak)
    ensures Packed(Apply(q, s).pool, Max(peak, Highest(q, s)))
  {
    match s
    case AddStep(key, events, data, w) => AddPacked(q, key, events, data, w, peak);
    case ModStep(_, _, _) =>
    case DelStep(key, cancelled) =>
      if key in q.tree { Given(q, q.tree[key], peak); DeletePool(q, q.tree[key], cancelled); }
    case UpdateStep(cancelled, answer) => Given(q, q.updates[0], peak); UpdatePool(q, q.updates[0], cancelled, answer);
    case FeedStep(id, c) => Given(q, id, peak); FeedPool(q, id, c);
  }

  /** A socket's place can be given back. */
  lemma Given(q: Port, id: Id, peak: nat)
    requires Valid(q) && id in q.socks && Packed(q.pool, peak)
    ensures Alive(q, id) && Packed(Release(q.pool, q.socks[id].group), peak)
  {
    GroupHasSize(q, id);
    ReleasePacked(q.pool, peak, q.socks[id].group);
  }

  /** In every run of a port, at any time, the full groups come first, and there are exactly as many groups as the most
      places ever taken at once needed. */
  lemma {:induction false} PortGroupsNeeded(ports: seq<Port>, steps: seq<Step>, i: nat)
    requires Trace(ports, steps) && ports[0] == NEW_PORT && i <= |steps|
    ensures Packed(ports[i].pool, Peak(ports, steps, i)) && |ports[i].pool| == Needed(Peak(ports, steps, i))
  {
    if i == 0 {
      assert Ordered([], 0);
    } else {
      PortGroupsNeeded(ports, steps, i - 1);
      TraceStep(ports, steps, i - 1);
      StepPacked(ports[i - 1], steps[i - 1], Peak(ports, steps, i - 1));
    }
  }
}
