/** What holds of an epoll port after every step: no interest is lost, and sockets live exactly as long as they must. */
module PortSafety {
  import opened Sequences
  import opened PollGroups
  import opened Ports

  /** The socket `id` is in the tree unless it is being deleted, waits in the right queue, and has a poll operation
      outstanding exactly if it says so. If it is neither being deleted nor queued for an update, all the
      user wants is being monitored, or the operation under way has been cancelled and will come back. */
  ghost predicate SockOk(p: Port, id: Id)
    requires id in p.socks
  {
    var s := p.socks[id];
    && (if s.deletePending then !s.status.Idle? && id in p.deleted && id !in p.updates
        else s.key in p.tree && p.tree[s.key] == id && id !in p.deleted)
    && (!s.status.Idle? <==> id in p.outstanding)
    && (!s.deletePending && id !in p.updates ==> s.status.Cancelled? || (s.status.Pending? && Covered(s.userEvents, s.pendingEvents)))
    && (s.status.Pending? || s.pendingEvents == 0)
    && (s.userEvents == 0 || s.userEvents & EPOLLERR != 0)
  }

  ghost predicate Queues(p: Port) {
    && NoRepeats(p.updates) && NoRepeats(p.deleted)
    && (forall id <- p.updates :: id in p.socks) && (forall id <- p.deleted :: id in p.socks)
    && (forall id <- p.outstanding :: id in p.socks) && (forall id <- p.freed :: id !in p.socks)
  }

  ghost predicate Tree(p: Port) {
    forall k <- p.tree :: p.tree[k] in p.socks && p.socks[p.tree[k]].key == k && !p.socks[p.tree[k]].deletePending
  }

  function Members(socks: map<Id, Sock>, g: Gid): set<Id> { set id | id in socks && socks[id].group == g }

  /** Every group is as large as the number of its sockets, and the sizes add up to the number of all sockets. */
  ghost predicate Groups(p: Port) {
    && PollGroups.Sound(p.pool) && Total(p.pool) == |p.socks|
    && forall g: Gid :: SizeOf(p.pool, g) == |Members(p.socks, g)|
  }

  ghost predicate Valid(p: Port) {
    Queues(p) && Tree(p) && Groups(p) && forall id <- p.socks :: SockOk(p, id)
  }

  lemma NewPortValid()
    ensures Valid(NEW_PORT)
  {
    forall g: Gid ensures SizeOf([], g) == |Members(map[], g)| { assert Members(map[], g) == {}; }
  }

  lemma GroupHasSize(p: Port, id: Id)
    requires Groups(p) && id in p.socks
    ensures Alive(p, id)
  {
    assert id in Members(p.socks, p.socks[id].group);
  }

  lemma SameGroups(p: Port, n: Port)
    requires Groups(p) && n.pool == p.pool && n.socks.Keys == p.socks.Keys
    requires forall id <- p.socks :: n.socks[id].group == p.socks[id].group
    ensures Groups(n)
  {
    assert |n.socks| == |n.socks.Keys| == |p.socks.Keys| == |p.socks|;
    forall g: Gid ensures Members(n.socks, g) == Members(p.socks, g) {}
  }

  lemma {:induction false} WithoutNoRepeats(s: seq<Id>, x: Id)
    requires NoRepeats(s)
    ensures NoRepeats(Ports.Without(s, x))
  {
    if s != [] {
      WithoutNoRepeats(s[1..], x);
      assert s[0] !in s[1..];
      ConsNoRepeats(s[0], Ports.Without(s[1..], x));
    }
  }

  lemma ConsNoRepeats(x: Id, s: seq<Id>)
    requires NoRepeats(s) && x !in s
    ensures NoRepeats([x] + s)
  {}

  /** `n` is as `p` in all that concerns `v`. */
  ghost predicate SameFor(p: Port, n: Port, v: Id)
    requires v in p.socks
  {
    && v in n.socks && n.socks[v] == p.socks[v]
    && (v in n.updates <==> v in p.updates) && (v in n.deleted <==> v in p.deleted)
    && (v in n.outstanding <==> v in p.outstanding)
    && (p.socks[v].key in p.tree && p.tree[p.socks[v].key] == v ==> p.socks[v].key in n.tree && n.tree[p.socks[v].key] == v)
  }

  // ----- freeing a socket

  lemma FreedGroups(p: Port, id: Id)
    requires Groups(p) && Alive(p, id)
    ensures Groups(Freed(p, id))
  {
    var g := p.socks[id].group;
    var n := Freed(p, id);
    ReleaseTotal(p.pool, g);
    SizeOfMap(p.socks, id);
    forall x: Gid ensures SizeOf(n.pool, x) == |Members(n.socks, x)| {
      ReleaseSizeOf(p.pool, g, x);
      assert Members(n.socks, x) == Members(p.socks, x) - {id};
      assert id in Members(p.socks, x) <==> x == g;
    }
    ReleaseSizeOf(p.pool, g, g);
  }

  lemma SizeOfMap(m: map<Id, Sock>, id: Id)
    requires id in m
    ensures |m - {id}| == |m| - 1
  {
    assert m.Keys == (m - {id}).Keys + {id};
    assert |m| == |m.Keys| && |m - {id}| == |(m - {id}).Keys|;
  }

  /** All is well but for the socket `id`, about which only this is known. */
  ghost predicate ValidBut(p: Port, id: Id) {
    && Queues(p) && Tree(p) && Groups(p) && id in p.socks && (forall v <- p.socks :: v != id ==> SockOk(p, v))
    && var s := p.socks[id];
      && (!s.status.Idle? <==> id in p.outstanding) && (s.status.Pending? || s.pendingEvents == 0)
      && (s.userEvents == 0 || s.userEvents & EPOLLERR != 0)
      && if s.deletePending then id !in p.updates else s.key in p.tree && p.tree[s.key] == id && id !in p.deleted
  }

  lemma DequeuedQueues(p: Port, id: Id)
    requires Queues(p)
    ensures Queues(Dequeued(p, id))
  {
    WithoutNoRepeats(p.updates, id);
    WithoutNoRepeats(p.deleted, id);
  }

  lemma UnregisteredValid(p: Port, id: Id, cancelled: bool)
    requires ValidBut(p, id) && !p.socks[id].deletePending
    ensures ValidBut(Unregistered(p, id, cancelled), id)
  {
    var n := Unregistered(p, id, cancelled);
    DequeuedQueues(p, id);
    SameGroups(p, n);
    forall v | v in n.socks && v != id ensures SockOk(n, v) { assert SockOk(p, v) && SameFor(p, n, v); }
  }

  lemma FreedValid(p: Port, id: Id)
    requires ValidBut(p, id) && p.socks[id].deletePending && Alive(p, id)
    ensures Valid(Freed(Dequeued(p, id), id))
  {
    var n := Freed(Dequeued(p, id), id);
    DequeuedQueues(p, id);
    SameGroups(p, Dequeued(p, id));
    FreedGroups(Dequeued(p, id), id);
    forall v | v in n.socks ensures SockOk(n, v) { assert SockOk(p, v) && SameFor(p, n, v); }
  }

  lemma DeferredValid(p: Port, id: Id)
    requires ValidBut(p, id) && p.socks[id].deletePending && !p.socks[id].status.Idle?
    ensures Valid(if Enqueued(p, id) then p else p.(deleted := p.deleted + [id]))
  {
    var n := if Enqueued(p, id) then p else p.(deleted := p.deleted + [id]);
    SameGroups(p, n);
    forall v | v in n.socks ensures SockOk(n, v) { if v != id { assert SockOk(p, v) && SameFor(p, n, v); } }
  }

  lemma DeleteValid(p: Port, id: Id, force: bool, cancelled: bool)
    requires ValidBut(p, id) && Alive(p, id)
    ensures Valid(Delete(p, id, force, cancelled))
  {
    if p.socks[id].deletePending {
      DeleteMarked(p, id, force);
    } else {
      var q := Unregistered(p, id, cancelled);
      UnregisteredValid(p, id, cancelled);
      GroupHasSize(q, id);
      DeleteMarked(q, id, force);
      assert Delete(p, id, force, cancelled) == Delete(q, id, force, cancelled);
    }
  }

  lemma DeleteMarked(p: Port, id: Id, force: bool)
    requires ValidBut(p, id) && Alive(p, id) && p.socks[id].deletePending
    ensures Valid(Delete(p, id, force, false)) && Delete(p, id, force, true) == Delete(p, id, force, false)
  {
    if force || p.socks[id].status.Idle? { FreedValid(p, id); } else { DeferredValid(p, id); }
  }

  /** A deletion frees the socket now if no poll operation is outstanding, and puts it off otherwise. */
  lemma DeleteFrees(p: Port, id: Id, force: bool, cancelled: bool)
    requires Alive(p, id) && (p.socks[id].deletePending ==> id !in p.updates)
    ensures var n := Delete(p, id, force, cancelled);
      if force || p.socks[id].status.Idle? then n.socks == p.socks - {id} && n.freed == p.freed + {id}
      else id in n.deleted && n.freed == p.freed && n.socks.Keys == p.socks.Keys
  {
    var q := if p.socks[id].deletePending then p else Unregistered(p, id, cancelled);
    assert q.socks - {id} == p.socks - {id};
  }

  // ----- the other operations

  /** A socket that may be queued for an update, and now is if it was not. */
  lemma RequestValid(p: Port, id: Id)
    requires ValidBut(p, id) && !p.socks[id].deletePending
    ensures Valid(RequestUpdate(p, id))
  {
    var n := RequestUpdate(p, id);
    SameGroups(p, n);
    forall v | v in n.socks ensures SockOk(n, v) { if v != id { assert SockOk(p, v) && SameFor(p, n, v); } }
  }

  /** Only the record of `id` has changed, and neither its key, its group nor its deletion. */
  lemma Touched(p: Port, id: Id, s: Sock, outstanding: set<Id>)
    requires ValidBut(p, id)
    requires var o := p.socks[id]; s.key == o.key && s.group == o.group && s.deletePending == o.deletePending
    requires outstanding == (if s.status.Idle? then p.outstanding - {id} else p.outstanding + {id})
    requires (s.status.Pending? || s.pendingEvents == 0) && (s.userEvents == 0 || s.userEvents & EPOLLERR != 0)
    ensures ValidBut(p.(socks := p.socks[id := s], outstanding := outstanding), id)
  {
    var n := p.(socks := p.socks[id := s], outstanding := outstanding);
    SameGroups(p, n);
    assert Tree(n);
    forall v | v in n.socks && v != id ensures SockOk(n, v) { assert SockOk(p, v) && SameFor(p, n, v); }
  }

  lemma ButValid(p: Port, id: Id)
    requires ValidBut(p, id) && SockOk(p, id)
    ensures Valid(p)
  {}

  lemma ValidOf(p: Port, id: Id)
    requires Valid(p) && id in p.socks
    ensures ValidBut(p, id) && SockOk(p, id) && Alive(p, id)
  {
    GroupHasSize(p, id);
  }

  lemma DequeuedValid(p: Port, id: Id)
    requires ValidBut(p, id) && !p.socks[id].deletePending
    requires var s := p.socks[id]; s.status.Cancelled? || (s.status.Pending? && Covered(s.userEvents, s.pendingEvents))
    ensures Valid(Dequeued(p, id))
  {
    var n := Dequeued(p, id);
    DequeuedQueues(p, id);
    SameGroups(p, n);
    forall v | v in n.socks ensures SockOk(n, v) { if v != id { assert SockOk(p, v) && SameFor(p, n, v); } }
  }

  lemma KeepsErrorBit(events: Bits)
    ensures (events | EPOLLERR | EPOLLHUP) & EPOLLERR != 0
  {}

  /** Whatever the user asks for, the port stays sound. It may be called on a socket that has just been made. */
  lemma SetEventValid(p: Port, id: Id, events: Bits, data: nat)
    requires ValidBut(p, id) && !p.socks[id].deletePending
    ensures Valid(SetEvent(p, id, events, data))
  {
    var o := p.socks[id];
    var s := o.(userEvents := events | EPOLLERR | EPOLLHUP, data := data);
    KeepsErrorBit(events);
    Touched(p, id, s, p.outstanding);
    assert p.outstanding == if s.status.Idle? then p.outstanding - {id} else p.outstanding + {id};
    var q := p.(socks := p.socks[id := s]);
    if Covered(s.userEvents, s.pendingEvents) {
      NewInterestNotCovered(events);
      ButValid(q, id);
    } else {
      RequestValid(q, id);
    }
  }

  lemma NewInterestNotCovered(events: Bits)
    ensures !Covered(events | EPOLLERR | EPOLLHUP, 0)
  {}

  lemma UpdateValid(p: Port, id: Id, cancelled: bool, answer: PollAnswer)
    requires Valid(p) && id in p.updates
    ensures Alive(p, id) && Valid(Update(p, id, cancelled, answer).0)
  {
    ValidOf(p, id);
    var s := p.socks[id];
    match s.status
    case Pending =>
      if Covered(s.userEvents, s.pendingEvents) {
        DequeuedValid(p, id);
      } else if cancelled {
        var t := s.(status := Cancelled, pendingEvents := 0);
        Touched(p, id, t, p.outstanding);
        DequeuedValid(p.(socks := p.socks[id := t]), id);
      }
    case Cancelled => DequeuedValid(p, id);
    case Idle =>
      match answer
      case Submitted =>
        var t := s.(status := Pending, pendingEvents := s.userEvents);
        Touched(p, id, t, p.outstanding + {id});
        CoversItself(s.userEvents);
        DequeuedValid(p.(socks := p.socks[id := t], outstanding := p.outstanding + {id}), id);
      case InvalidHandle => DeleteValid(p, id, false, false);
      case OtherError =>
  }

  lemma FeedValid(p: Port, id: Id, c: Completion)
    requires Valid(p) && id in p.outstanding
    ensures Alive(p, id) && Valid(Feed(p, id, c).0)
  {
    ValidOf(p, id);
    HandedValid(p, id, Closes(c), Wanted(c, p.socks[id].userEvents), IsOneShot(p.socks[id].userEvents));
  }

  lemma HandedValid(p: Port, id: Id, closes: bool, events: Bits, oneShot: bool)
    requires ValidBut(p, id) && Alive(p, id) && SockOk(p, id)
    ensures Valid(Handed(p, id, closes, events, oneShot).0)
  {
    var s, q := p.socks[id], Completed(p, id);
    Touched(p, id, s.(status := Idle, pendingEvents := 0), p.outstanding - {id});
    if s.deletePending || closes {
      DeleteValid(q, id, false, false);
    } else {
      RequestValid(q, id);
      SilencedValid(RequestUpdate(q, id), id);
    }
  }

  /** After a one-shot report the user wants nothing more. */
  lemma SilencedValid(p: Port, id: Id)
    requires Valid(p) && id in p.updates && p.socks[id].status.Idle?
    ensures Valid(p.(socks := p.socks[id := p.socks[id].(userEvents := 0)]))
  {
    var s := p.socks[id].(userEvents := 0);
    ValidOf(p, id);
    Touched(p, id, s, p.outstanding);
    assert p.(socks := p.socks[id := s]) == p.(socks := p.socks[id := s], outstanding := p.outstanding);
    ButValid(p.(socks := p.socks[id := s]), id);
  }

  // ----- adding a socket

  lemma AcquiredGroups(p: Port, w: AddWorld, s: Sock)
    requires Groups(p) && w.id !in p.socks && !Has(p.pool, w.group)
    requires Acquire(p.pool, w.group, w.groupMade).1 && s.group == Acquire(p.pool, w.group, w.groupMade).2
    ensures Groups(p.(pool := Acquire(p.pool, w.group, w.groupMade).0, socks := p.socks[w.id := s]))
  {
    var (pool, ok, g) := Acquire(p.pool, w.group, w.groupMade);
    var socks := p.socks[w.id := s];
    AcquireTotal(p.pool, w.group, w.groupMade);
    AcquireSizeOf(p.pool, w.group, w.groupMade, g);
    OneMore(p.socks, w.id, s, g);
    forall x: Gid ensures SizeOf(pool, x) == |Members(socks, x)| {
      AcquireSizeOf(p.pool, w.group, w.groupMade, x);
      OneMore(p.socks, w.id, s, x);
    }
  }

  lemma OneMore(socks: map<Id, Sock>, id: Id, s: Sock, x: Gid)
    requires id !in socks
    ensures |socks[id := s]| == |socks| + 1
    ensures |Members(socks[id := s], x)| == |Members(socks, x)| + (if x == s.group then 1 else 0)
  {
    var more := socks[id := s];
    assert more.Keys == socks.Keys + {id} && |more| == |more.Keys| && |socks| == |socks.Keys|;
    assert Members(more, x) == Members(socks, x) + (if x == s.group then {id} else {});
  }

  /** A place that is given back at once leaves every group as large as it was. */
  lemma ReturnedGroups(p: Port, w: AddWorld)
    requires Groups(p) && !Has(p.pool, w.group) && Acquire(p.pool, w.group, w.groupMade).1
    ensures var (pool, ok, g) := Acquire(p.pool, w.group, w.groupMade);
      SizeOf(pool, g) > 0 && Groups(p.(pool := Release(pool, g)))
  {
    var (pool, ok, g) := Acquire(p.pool, w.group, w.groupMade);
    AcquireTotal(p.pool, w.group, w.groupMade);
    AcquireSizeOf(p.pool, w.group, w.groupMade, g);
    ReleaseTotal(pool, g);
    ReleaseSizeOf(pool, g, g);
    forall x: Gid ensures SizeOf(Release(pool, g), x) == |Members(p.socks, x)| {
      AcquireSizeOf(p.pool, w.group, w.groupMade, x);
      ReleaseSizeOf(pool, g, x);
    }
  }

  lemma AcquireTotal(p: Pool, next: Gid, created: bool)
    ensures var (q, ok, g) := Acquire(p, next, created); Total(q) == Total(p) + (if ok then 1 else 0)
  {
    if p != [] && p[|p| - 1].size < MAX_GROUP_SIZE { TakenTotal(p); }
    else if created {
      TotalConcat(p, [Group(next, 0)]);
      TakenTotal(p + [Group(next, 0)]);
    }
  }

  lemma AddedValid(p: Port, id: Id, s: Sock, pool: Pool)
    requires Valid(p) && id !in p.socks && id !in p.freed && s.key !in p.tree && s == Sock(s.key, 0, 0, 0, Idle, false, s.group)
    requires Groups(p.(pool := pool, socks := p.socks[id := s]))
    ensures ValidBut(p.(pool := pool, tree := p.tree[s.key := id], socks := p.socks[id := s]), id)
  {
    var n := p.(pool := pool, tree := p.tree[s.key := id], socks := p.socks[id := s]);
    assert Groups(n);
    forall v | v in n.socks && v != id ensures SockOk(n, v) { assert SockOk(p, v) && SameFor(p, n, v); }
  }

  lemma ReturnedValid(p: Port, pool: Pool, freed: set<Id>)
    requires Valid(p) && Groups(p.(pool := pool)) && freed !! p.socks.Keys
    ensures Valid(p.(pool := pool, freed := freed))
  {
    var n := p.(pool := pool, freed := freed);
    assert Groups(n);
    forall v | v in n.socks ensures SockOk(n, v) { assert SockOk(p, v) && SameFor(p, n, v); }
  }

  lemma NewSockValid(p: Port, key: nat, w: AddWorld)
    requires Valid(p) && w.id !in p.socks && w.id !in p.freed && !Has(p.pool, w.group)
    ensures var (n, ok) := NewSock(p, key, w);
      if ok then ValidBut(n, w.id) && !n.socks[w.id].deletePending && key !in p.tree else Valid(n) && n.socks == p.socks
  {
    var (pool, ok, g) := Acquire(p.pool, w.group, w.groupMade);
    if ok && key != 0 && key != INVALID_SOCKET && w.baseFound {
      if w.allocOk && key !in p.tree {
        AcquiredGroups(p, w, Sock(key, 0, 0, 0, Idle, false, g));
        AddedValid(p, w.id, Sock(key, 0, 0, 0, Idle, false, g), pool);
      } else {
        ReturnedGroups(p, w);
        ReturnedValid(p, Release(pool, g), if w.allocOk then p.freed + {w.id} else p.freed);
      }
    }
  }

  lemma CtlAddValid(p: Port, key: nat, events: Bits, data: nat, w: AddWorld)
    requires Valid(p) && w.id !in p.socks && w.id !in p.freed && !Has(p.pool, w.group)
    ensures Valid(CtlAdd(p, key, events, data, w).0)
  {
    NewSockValid(p, key, w);
    var (n, ok) := NewSock(p, key, w);
    if ok { SetEventValid(n, w.id, events, data); }
  }

  // ----- runs

  /** What threads do under the port's lock, and what the kernel answers. */
  datatype Step =
    | AddStep(key: nat, events: Bits, data: nat, world: AddWorld)
    | ModStep(key: nat, events: Bits, data: nat)
    | DelStep(key: nat, cancelled: bool)
    | UpdateStep(cancelled: bool, answer: PollAnswer)
    | FeedStep(id: Id, completion: Completion)

  /** New objects are new, and the kernel hands back only what is outstanding. */
  ghost predicate Possible(p: Port, s: Step) {
    match s
    case AddStep(_, _, _, w) => w.id !in p.socks && w.id !in p.freed && !Has(p.pool, w.group)
    case UpdateStep(_, _) => p.updates != []
    case FeedStep(id, _) => id in p.outstanding
    case _ => true
  }

  ghost function Apply(p: Port, s: Step): (n: Port)
    requires Valid(p) && Possible(p, s)
    ensures Valid(n)
  {
    match s
    case AddStep(key, events, data, w) => CtlAddValid(p, key, events, data, w); CtlAdd(p, key, events, data, w).0
    case ModStep(key, events, data) =>
      if key in p.tree then ValidOf(p, p.tree[key]); SetEventValid(p, p.tree[key], events, data); CtlMod(p, key, events, data).0
      else p
    case DelStep(key, cancelled) =>
      if key in p.tree then ValidOf(p, p.tree[key]); DeleteValid(p, p.tree[key], false, cancelled); CtlDel(p, key, cancelled).0
      else p
    case UpdateStep(cancelled, answer) =>
      UpdateValid(p, p.updates[0], cancelled, answer); Update(p, p.updates[0], cancelled, answer).0
    case FeedStep(id, c) => FeedValid(p, id, c); Feed(p, id, c).0
  }

  /** The step `s` is possible in `q` and leads to `n`. */
  ghost predicate Steps(q: Port, s: Step, n: Port) { Valid(q) && Possible(q, s) && n == Apply(q, s) }

  /** Possible steps, and the ports before and after each. */
  ghost predicate Trace(ports: seq<Port>, steps: seq<Step>) { Chain(ports, steps, (q, s, n) => Steps(q, s, n)) }

  lemma LeadsNowhere(p: Port)
    ensures Leads(p, [], p)
  {
    assert Trace([p], []);
  }

  lemma TraceStep(ports: seq<Port>, steps: seq<Step>, i: nat)
    requires Trace(ports, steps) && i < |steps|
    ensures Steps(ports[i], steps[i], ports[i + 1])
  {}

  /** A run of possible steps from `p` to `n`. */
  ghost predicate Leads(p: Port, steps: seq<Step>, n: Port) {
    exists ports :: Trace(ports, steps) && ports[0] == p && ports[|steps|] == n
  }

  lemma TraceValid(ports: seq<Port>, steps: seq<Step>, i: nat)
    requires Trace(ports, steps) && Valid(ports[0]) && i <= |steps|
    ensures Valid(ports[i])
  {
    if i > 0 { TraceStep(ports, steps, i - 1); }
  }

  lemma LeadsValid(p: Port, steps: seq<Step>, n: Port)
    requires Valid(p) && Leads(p, steps, n)
    ensures Valid(n)
  {
    var ports :| Trace(ports, steps) && ports[0] == p && ports[|steps|] == n;
    TraceValid(ports, steps, |steps|);
  }

  // ----- what every run keeps

  /** If `happened` leads to an event among `events`, a poll for `pending` sees it. */
  ghost predicate Watched(events: Bits, pending: Bits, happened: Bits) {
    ToEpoll(happened) & events != 0 ==> happened & ToAfd(pending) != 0
  }

  ghost predicate Monitored(s: Sock, happened: Bits) { Watched(s.userEvents, s.pendingEvents, happened) }

  /** The interest of a registered socket is looked after: it waits for an update, or every condition that could lead
      to an event its user wants is being monitored by an outstanding operation, or the operation has been cancelled,
      is outstanding, and will queue the socket when it comes back. */
  ghost predicate Served(p: Port, id: Id)
    requires id in p.socks
  {
    var s := p.socks[id];
    !s.deletePending && id !in p.updates ==>
      && s.key in p.tree && p.tree[s.key] == id && id in p.outstanding && Alive(p, id)
      && (s.status.Cancelled? || (s.status.Pending? && forall happened: Bits :: Monitored(s, happened)))
      && (forall c: Completion :: Closes(c) || id in Feed(p, id, c).0.updates)
  }

  /** No interest is ever lost, whatever threads and kernel do. */
  lemma NoLostInterest(p: Port, steps: seq<Step>, n: Port)
    requires Valid(p) && Leads(p, steps, n)
    ensures forall id <- n.socks :: Served(n, id)
  {
    LeadsValid(p, steps, n);
    forall id | id in n.socks ensures Served(n, id) {
      ValidOf(n, id);
      InterestKept(n, id);
    }
  }

  lemma InterestKept(p: Port, id: Id)
    requires id in p.socks && SockOk(p, id) && Alive(p, id)
    ensures Served(p, id)
  {
    var s := p.socks[id];
    if !s.deletePending && id !in p.updates {
      if s.status.Pending? {
        forall happened: Bits ensures Monitored(s, happened) { MonitorsAll(s, happened); }
      }
      forall c: Completion ensures Closes(c) || id in Feed(p, id, c).0.updates {
        if !Closes(c) { FeedRequeues(p, id, c); }
      }
    }
  }

  lemma MonitorsAll(s: Sock, happened: Bits)
    requires (s.userEvents == 0 || s.userEvents & EPOLLERR != 0) && Covered(s.userEvents, s.pendingEvents)
    ensures Monitored(s, happened)
  {
    if ToEpoll(happened) & s.userEvents != 0 {
      NothingMissed(s.userEvents, s.pendingEvents, happened);
    }
  }

  lemma FeedRequeues(p: Port, id: Id, c: Completion)
    requires Alive(p, id) && SockOk(p, id) && !p.socks[id].deletePending && !Closes(c)
    ensures id in Feed(p, id, c).0.updates
  {}

  /** A report names only events that the user asked for, and a one-shot socket then asks for nothing. */
  lemma ReportWanted(p: Port, id: Id, c: Completion)
    requires Valid(p) && id in p.outstanding && Alive(p, id)
    ensures var (n, r) := Feed(p, id, c); var s := p.socks[id];
      r.Report? ==>
        && r == Report(s.data, Wanted(c, s.userEvents)) && r.events != 0 && !s.deletePending && !Closes(c) && Enqueued(n, id)
        && n.socks[id].userEvents == (if IsOneShot(s.userEvents) then 0 else s.userEvents)
  {
    var user := p.socks[id].userEvents;
    HandedReport(p, id, Closes(c), Wanted(c, user), IsOneShot(user));
  }

  lemma HandedReport(p: Port, id: Id, closes: bool, events: Bits, oneShot: bool)
    requires Alive(p, id)
    ensures var (n, r) := Handed(p, id, closes, events, oneShot); var s := p.socks[id];
      r.Report? ==>
        && r == Report(s.data, events) && events != 0 && !s.deletePending && !closes && Enqueued(n, id)
        && n.socks[id].userEvents == (if oneShot then 0 else s.userEvents)
  {}

  /** What is wanted of a completion is among what the user asked for. */
  lemma WantedWithin(c: Completion, user: Bits)
    ensures Wanted(c, user) & !user == 0
  {
    match c
    case Failed => WithinMask(EPOLLERR, user);
    case Ready(a) => WithinMask(ToEpoll(a), user);
    case _ =>
  }

  lemma WithinMask(seen: Bits, user: Bits)
    ensures (seen & user) & !user == 0
  {}

  lemma {:induction false} WithoutOne(s: seq<Id>, x: Id)
    requires NoRepeats(s) && x in s
    ensures |Ports.Without(s, x)| == |s| - 1
  {
    if s[0] != x {
      assert x in s[1..];
      WithoutOne(s[1..], x);
    } else {
      WithoutNone(s[1..], x);
    }
  }

  lemma {:induction false} WithoutNone(s: seq<Id>, x: Id)
    requires x !in s
    ensures Ports.Without(s, x) == s
  {
    if s != [] { WithoutNone(s[1..], x); }
  }

  /** An update that succeeds takes its socket off the queue, so a walk over the queue ends. */
  lemma UpdateShrinks(p: Port, id: Id, cancelled: bool, answer: PollAnswer)
    requires Valid(p) && id in p.updates && Alive(p, id)
    ensures var (n, ok) := Update(p, id, cancelled, answer);
      if ok then id !in n.updates && |n.updates| == |p.updates| - 1 else n == p
  {
    WithoutOne(p.updates, id);
    assert SockOk(p, id);
    WithoutNone(Ports.Without(p.updates, id), id);
  }

  /** A socket is freed only when no poll operation of its own is outstanding, or by the return of the last one. */
  lemma FreedSafely(p: Port, s: Step, id: Id)
    requires Valid(p) && Possible(p, s) && id in p.socks
    ensures id in Apply(p, s).socks
            || (id in Apply(p, s).freed && (id !in p.outstanding || (s.FeedStep? && s.id == id)))
  {
    match s
    case AddStep(key, events, data, w) => NewSockValid(p, key, w);
    case ModStep(_, _, _) =>
    case DelStep(key, cancelled) =>
      if key in p.tree {
        ValidOf(p, p.tree[key]);
        DeleteOnly(p, p.tree[key], cancelled, id);
      }
    case UpdateStep(cancelled, answer) =>
      ValidOf(p, p.updates[0]);
      UpdateOnly(p, p.updates[0], cancelled, answer, id);
    case FeedStep(i, c) =>
      ValidOf(p, i);
      FeedOnly(p, i, c, id);
  }

  lemma UpdateOnly(p: Port, id: Id, cancelled: bool, answer: PollAnswer, v: Id)
    requires Valid(p) && Alive(p, id) && v in p.socks
    ensures var n := Update(p, id, cancelled, answer).0;
      p.freed <= n.freed && (v !in n.socks ==> v == id && v in n.freed && p.socks[id].status.Idle?)
  {
    DeleteOnly(p, id, false, v);
  }

  lemma DeleteOnly(p: Port, id: Id, cancelled: bool, v: Id)
    requires Valid(p) && Alive(p, id) && v in p.socks
    ensures var n := Delete(p, id, false, cancelled);
      p.freed <= n.freed && (v !in n.socks ==> v == id && v in n.freed && p.socks[id].status.Idle?)
  {
    assert SockOk(p, id);
    DeleteFrees(p, id, false, cancelled);
  }

  lemma FeedOnly(p: Port, id: Id, c: Completion, v: Id)
    requires Valid(p) && Alive(p, id) && v in p.socks
    ensures var n := Feed(p, id, c).0; p.freed <= n.freed && (v !in n.socks ==> v == id && v in n.freed)
  {
    var q := Completed(p, id);
    assert SockOk(p, id);
    DeleteFrees(q, id, false, false);
  }

  /** A freed socket stays freed and is never seen again. */
  lemma FreedForGood(p: Port, steps: seq<Step>, n: Port, id: Id)
    requires Valid(p) && Leads(p, steps, n) && id in p.freed
    ensures id in n.freed && id !in n.socks && id !in n.outstanding && id !in n.updates && id !in n.deleted
  {
    var ports :| Trace(ports, steps) && ports[0] == p && ports[|steps|] == n;
    FreedAlong(ports, steps, |steps|, id);
    LeadsValid(p, steps, n);
  }

  lemma {:induction false} FreedAlong(ports: seq<Port>, steps: seq<Step>, i: nat, id: Id)
    requires Trace(ports, steps) && i <= |steps| && id in ports[0].freed
    ensures id in ports[i].freed
  {
    if i > 0 {
      FreedAlong(ports, steps, i - 1, id);
      FreedNext(ports, steps, i - 1);
    }
  }

  lemma FreedNext(ports: seq<Port>, steps: seq<Step>, i: nat)
    requires Trace(ports, steps) && i < |steps|
    ensures ports[i].freed <= ports[i + 1].freed
  {
    TraceStep(ports, steps, i);
    StepFreed(ports[i], steps[i], ports[i + 1]);
  }

  lemma StepFreed(q: Port, s: Step, n: Port)
    requires Steps(q, s, n)
    ensures q.freed <= n.freed
  {
    FreedGrows(q, s);
  }

  lemma FreedGrows(p: Port, s: Step)
    requires Valid(p) && Possible(p, s)
    ensures p.freed <= Apply(p, s).freed
  {
    match s
    case UpdateStep(cancelled, answer) =>
      ValidOf(p, p.updates[0]);
      UpdateOnly(p, p.updates[0], cancelled, answer, p.updates[0]);
    case FeedStep(i, c) =>
      ValidOf(p, i);
      FeedOnly(p, i, c, i);
    case _ =>
  }

  /** After every run the groups' sizes add up to the sockets there are, each socket is counted in its own
      group, and a socket that is being deleted is kept exactly as long as its operation is outstanding. */
  lemma Conservation(p: Port, steps: seq<Step>, n: Port)
    requires Valid(p) && Leads(p, steps, n)
    ensures Total(n.pool) == |n.socks| && (forall g: Gid :: SizeOf(n.pool, g) == |Members(n.socks, g)|)
    ensures forall id <- n.outstanding :: id in n.socks
    ensures forall id <- n.socks :: n.socks[id].deletePending ==> id in n.outstanding && id in n.deleted && id !in n.updates
    ensures forall id <- n.socks :: n.socks[id].deletePending <==> id !in n.tree.Values
    ensures n.freed !! n.socks.Keys
  {
    LeadsValid(p, steps, n);
    forall id | id in n.socks
      ensures n.socks[id].deletePending ==> id in n.outstanding && id in n.deleted && id !in n.updates
      ensures n.socks[id].deletePending <==> id !in n.tree.Values
    {
      assert SockOk(n, id);
      assert forall k <- n.tree :: !n.socks[n.tree[k]].deletePending;
    }
  }

  lemma LeadsOn(p: Port, steps: seq<Step>, n: Port, s: Step)
    requires Leads(p, steps, n)
    ensures Valid(n) && Possible(n, s) ==> Leads(p, steps + [s], Apply(n, s))
  {
    if Valid(n) && Possible(n, s) {
      var ports :| Trace(ports, steps) && ports[0] == p && ports[|steps|] == n;
      LeadsOneMore(ports, steps, s, Apply(n, s));
    }
  }

  lemma LeadsOneMore(ports: seq<Port>, steps: seq<Step>, s: Step, n: Port)
    requires Trace(ports, steps) && Steps(ports[|steps|], s, n)
    ensures Leads(ports[0], steps + [s], n)
  {
    ChainOn(ports, steps, (q, s, n) => Steps(q, s, n), s, n);
  }

  /** The return of one operation leaves the others outstanding. */
  lemma FeedOutstanding(p: Port, id: Id, c: Completion)
    requires Alive(p, id)
    ensures Feed(p, id, c).0.outstanding == p.outstanding - {id}
  {}

  /** The kernel hands back different operations, all of them outstanding. */
  ghost predicate Batch(p: Port, batch: seq<(Id, Completion)>) {
    && (forall i :: 0 <= i < |batch| ==> batch[i].0 in p.outstanding)
    && (forall i, j :: 0 <= i < j < |batch| ==> batch[i].0 != batch[j].0)
  }

  /** A batch leaves the port sound, and every operation that is not in it outstanding. */
  lemma {:induction false} FeedAllValid(p: Port, batch: seq<(Id, Completion)>)
    requires Valid(p) && Batch(p, batch)
    ensures var (n, reports) := FeedAll(p, batch);
      && Valid(n) && |reports| <= |batch|
      && (forall id <- p.outstanding :: id in n.outstanding || exists i :: 0 <= i < |batch| && batch[i].0 == id)
  {
    if batch != [] {
      var k := |batch| - 1;
      FeedAllValid(p, batch[..k]);
      var q := FeedAll(p, batch[..k]).0;
      var (id, c) := batch[k];
      assert forall i :: 0 <= i < k ==> batch[..k][i].0 != id;
      FeedValid(q, id, c);
      FeedOutstanding(q, id, c);
      forall o | o in p.outstanding && o !in FeedAll(p, batch).0.outstanding ensures exists i :: 0 <= i < |batch| && batch[i].0 == o {
        if o != id {
          var i :| 0 <= i < k && batch[..k][i].0 == o;
          assert batch[i].0 == o;
        } else {
          assert batch[k].0 == o;
        }
      }
    }
  }

  /** The socket of the next completion is there. */
  lemma FeedNext(p: Port, batch: seq<(Id, Completion)>, i: nat)
    requires Valid(p) && Batch(p, batch) && i < |batch|
    ensures var (q, reports) := FeedAll(p, batch[..i]);
      && Alive(q, batch[i].0)
      && var (n, r) := Feed(q, batch[i].0, batch[i].1);
         FeedAll(p, batch[..i + 1]) == (n, if r.Report? then reports + [r] else reports)
  {
    Prefixes(batch, i);
    FeedAllValid(p, batch[..i]);
    var q := FeedAll(p, batch[..i]).0;
    assert forall k :: 0 <= k < i ==> batch[..i][k].0 != batch[i].0;
    ValidOf(q, batch[i].0);
  }

  // ----- the end of a port

  /** A forced deletion frees one socket now, and what is live or freed stays the same in all. */
  lemma ForcedFrees(p: Port, id: Id, cancelled: bool)
    requires Valid(p) && id in p.socks && Alive(p, id)
    ensures var n := Delete(p, id, true, cancelled);
      && n.socks == p.socks - {id} && id in n.freed
      && n.freed + n.socks.Keys == p.freed + p.socks.Keys && |n.socks.Keys| < |p.socks.Keys|
  {
    assert SockOk(p, id);
    DeleteFrees(p, id, true, cancelled);
    OneGone(p.socks, id, p.freed);
  }

  lemma OneGone(socks: map<Id, Sock>, id: Id, freed: set<Id>)
    requires id in socks
    ensures var less := socks - {id};
      less.Keys == socks.Keys - {id} && |less.Keys| < |socks.Keys| && (freed + {id}) + less.Keys == freed + socks.Keys
  {
    var less := socks - {id};
    assert socks.Keys == less.Keys + {id};
  }

  lemma NoneRegistered(p: Port)
    requires Valid(p) && p.tree.Keys == {}
    ensures forall id <- p.socks :: p.socks[id].deletePending
  {
    forall id | id in p.socks ensures p.socks[id].deletePending { assert SockOk(p, id); }
  }

  lemma AllDeferred(p: Port)
    requires Valid(p) && forall id <- p.socks :: p.socks[id].deletePending
    ensures p.updates == [] && forall id :: id in p.socks <==> id in p.deleted
  {
    var first := if p.updates == [] then 0 else p.updates[0];
    assert first in p.updates ==> first in p.socks;
    forall id | id in p.socks ensures id in p.deleted && id !in p.updates { assert SockOk(p, id); }
  }

  lemma GroupsEmpty(p: Port)
    requires Groups(p) && p.socks == map[]
    ensures forall g <- p.pool :: g.size == 0
  {
    forall g | g in p.pool ensures g.size == 0 {
      var i :| 0 <= i < |p.pool| && p.pool[i] == g;
      SizeAt(p.pool, i);
      assert Members(p.socks, g.id) == {};
    }
  }
}
