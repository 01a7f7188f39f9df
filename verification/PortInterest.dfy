/** What the callers of a port have asked for, step by step, and that the port sees to it and reports it. */
module PortInterest {
  import opened Sequences
  import opened PollGroups
  import opened Ports
  import opened PortSafety

  datatype Interest = Interest(events: Bits, data: nat)

  type Requests = map<nat, Interest>

  /** An addition goes through. */
  predicate Adds(q: Port, key: nat, w: AddWorld) {
    && key != 0 && key != INVALID_SOCKET && w.baseFound && w.allocOk && key !in q.tree
    && (w.groupMade || (q.pool != [] && q.pool[|q.pool| - 1].size < MAX_GROUP_SIZE))
  }

  /** Errors and hang-ups are always asked for. */
  function AskedFor(events: Bits, data: nat): Interest { Interest(events | EPOLLERR | EPOLLHUP, data) }

  /** What has been asked for after one step more: the last interest given for each key, and no events
      once a one-shot interest has been reported on. */
  ghost function AskedNext(asked: Requests, q: Port, s: Step): Requests
    requires Valid(q) && Possible(q, s)
  {
    match s
    case AddStep(key, events, data, w) => if Adds(q, key, w) then asked[key := AskedFor(events, data)] else asked
    case ModStep(key, events, data) => if key in q.tree then asked[key := AskedFor(events, data)] else asked
    case DelStep(key, _) => asked - {key}
    case UpdateStep(_, _) => asked
    case FeedStep(id, c) => if q.socks[id].deletePending then asked else AskedAfter(asked, q.socks[id].key, c)
  }

  function AskedAfter(asked: Requests, key: nat, c: Completion): Requests {
    if key in asked && Reports(asked[key].events, c) && IsOneShot(asked[key].events)
    then asked[key := Interest(0, asked[key].data)] else asked
  }

  predicate Reports(events: Bits, c: Completion) { !Closes(c) && Wanted(c, events) != 0 }

  ghost function Asked(ports: seq<Port>, steps: seq<Step>, i: nat): Requests
    requires Trace(ports, steps) && i <= |steps|
  {
    if i == 0 then map[]
    else
      TraceStep(ports, steps, i - 1);
      AskedNext(Asked(ports, steps, i - 1), ports[i - 1], steps[i - 1])
  }

  /** Every registered socket holds what was asked for its key. */
  ghost predicate Remembered(asked: Requests, n: Port) {
    forall key <- n.tree :: key in asked && n.tree[key] in n.socks && Holds(n.socks[n.tree[key]], asked[key])
  }

  ghost predicate Holds(s: Sock, a: Interest) { s.userEvents == a.events && s.data == a.data }

  /** Except for `keys`, `n` has keys of `q` alone, for the same sockets with the same interest. */
  ghost predicate OthersKeep(q: Port, n: Port, keys: set<nat>) {
    forall k <- n.tree :: k !in keys ==>
      k in q.tree && n.tree[k] == q.tree[k] && n.tree[k] in n.socks && q.tree[k] in q.socks
      && n.socks[n.tree[k]].userEvents == q.socks[q.tree[k]].userEvents && n.socks[n.tree[k]].data == q.socks[q.tree[k]].data
  }

  lemma RememberedNext(asked: Requests, q: Port, next: Requests, n: Port, keys: set<nat>)
    requires Remembered(asked, q) && OthersKeep(q, n, keys)
    requires forall k <- asked :: k !in keys ==> k in next && next[k] == asked[k]
    requires forall k <- keys :: k in n.tree ==> k in next && n.tree[k] in n.socks && Holds(n.socks[n.tree[k]], next[k])
    ensures Remembered(next, n)
  {}

  // ----- each operation

  lemma SetEventKeeps(q: Port, id: Id, events: Bits, data: nat)
    requires Tree(q) && id in q.socks
    ensures var n := SetEvent(q, id, events, data); var s := q.socks[id];
      && OthersKeep(q, n, {s.key}) && n.tree == q.tree && n.socks.Keys == q.socks.Keys
      && Holds(n.socks[id], AskedFor(events, data))
  {}

  /** EPOLL_CTL_ADD succeeds exactly if the key is good and new and the world supplies what is needed; then the key
      is registered for the new socket with the interest asked for. */
  lemma AddExactly(q: Port, key: nat, events: Bits, data: nat, w: AddWorld)
    requires Valid(q) && w.id !in q.socks && w.id !in q.freed && !Has(q.pool, w.group)
    ensures var (n, ok) := CtlAdd(q, key, events, data, w);
      && (ok <==> Adds(q, key, w))
      && (ok ==> n.tree == q.tree[key := w.id] && w.id in n.socks && n.socks[w.id].key == key
                 && Holds(n.socks[w.id], AskedFor(events, data)) && w.id in n.updates)
      && (!ok ==> n.tree == q.tree && n.socks == q.socks)
      && OthersKeep(q, n, {key})
  {
    var (m, ok) := NewSock(q, key, w);
    NewSockKeeps(q, key, w);
    if ok {
      var s := m.socks[w.id];
      NewInterestNotCovered(events);
      assert s.pendingEvents == 0 && w.id !in q.updates && w.id !in q.deleted;
    }
  }

  lemma NewSockKeeps(q: Port, key: nat, w: AddWorld)
    requires PollGroups.Sound(q.pool) && w.id !in q.socks && !Has(q.pool, w.group)
    ensures var (m, ok) := NewSock(q, key, w);
      && (ok <==> Adds(q, key, w)) && m.updates == q.updates && m.deleted == q.deleted
      && (if ok then m.tree == q.tree[key := w.id] && w.id in m.socks && m.socks == q.socks[w.id := m.socks[w.id]]
                     && m.socks[w.id].key == key && m.socks[w.id].pendingEvents == 0
          else m.tree == q.tree && m.socks == q.socks)
  {
    AcquireSizeOf(q.pool, w.group, w.groupMade, 0);
  }

  /** EPOLL_CTL_MOD succeeds exactly if the key is registered, and then changes the interest of its socket. */
  lemma ModExactly(q: Port, key: nat, events: Bits, data: nat)
    requires Valid(q)
    ensures var (n, ok) := CtlMod(q, key, events, data);
      && (ok <==> key in q.tree) && n.tree == q.tree && n.socks.Keys == q.socks.Keys && OthersKeep(q, n, {key})
      && (ok ==> Holds(n.socks[n.tree[key]], AskedFor(events, data)))
  {
    if key in q.tree { SetEventKeeps(q, q.tree[key], events, data); }
  }

  /** A deletion takes the key away, keeps the interest of all others, and has the kernel's cancellation on record. */
  lemma DeleteKeeps(q: Port, id: Id, cancelled: bool)
    requires Tree(q) && Alive(q, id)
    ensures var n := Delete(q, id, false, cancelled); var s := q.socks[id];
      && n.tree == (if s.deletePending then q.tree else q.tree - {s.key})
      && ((s.deletePending || (s.key in q.tree && q.tree[s.key] == id)) ==> OthersKeep(q, n, {}))
      && (!s.status.Idle? && !s.deletePending ==>
            id in n.socks && n.socks[id].deletePending
            && n.socks[id].status == (if s.status.Pending? && cancelled then Cancelled else s.status))
  {}

  /** EPOLL_CTL_DEL succeeds exactly if the key is registered, and takes it away. Its socket stays as long as the
      kernel has its operation. */
  lemma DelExactly(q: Port, key: nat, cancelled: bool)
    requires Valid(q)
    ensures var (n, ok) := CtlDel(q, key, cancelled);
      && (ok <==> key in q.tree) && n.tree == q.tree - {key} && OthersKeep(q, n, {})
      && (ok && q.tree[key] in q.outstanding ==> q.tree[key] in n.socks && n.socks[q.tree[key]].deletePending)
  {
    if key in q.tree {
      ValidOf(q, q.tree[key]);
      DeleteKeeps(q, q.tree[key], cancelled);
    }
  }

  /** An update goes through unless the kernel refuses what it takes; it starts a poll for all the user wants. */
  lemma UpdateExactly(q: Port, id: Id, cancelled: bool, answer: PollAnswer)
    requires Tree(q) && Alive(q, id) && SockOk(q, id) && !q.socks[id].deletePending
    ensures var (n, ok) := Update(q, id, cancelled, answer); var s := q.socks[id];
      && (ok <==> if s.status.Pending? then Covered(s.userEvents, s.pendingEvents) || cancelled
                  else if s.status.Idle? then !answer.OtherError? else true)
      && OthersKeep(q, n, {})
      && (s.status.Idle? && answer.Submitted? ==>
            id in n.socks && n.socks[id] == s.(status := Pending, pendingEvents := s.userEvents) && id in n.outstanding)
      && (s.status.Idle? && answer.InvalidHandle? ==> s.key !in n.tree)
      && (s.status.Pending? && !Covered(s.userEvents, s.pendingEvents) && cancelled ==> id in n.socks && n.socks[id].status.Cancelled?)
  {
    if q.socks[id].status.Idle? { DeleteKeeps(q, id, false); }
  }

  /** The return of an operation is reported exactly if the socket is neither being deleted nor closed and something
      wanted has happened; a one-shot interest is silent after that. */
  lemma HandedExactly(q: Port, id: Id, closes: bool, events: Bits, oneShot: bool)
    requires Valid(q) && Alive(q, id)
    ensures var (n, r) := Handed(q, id, closes, events, oneShot); var s := q.socks[id];
      && (r.Report? <==> !s.deletePending && !closes && events != 0) && (r.Report? ==> r == Report(s.data, events))
      && (s.deletePending || closes || !r.Report? || !oneShot ==> OthersKeep(q, n, {}))
      && (!s.deletePending && closes ==> s.key !in n.tree)
      && (r.Report? ==> n.tree == q.tree && OthersKeep(q, n, {s.key})
                        && id in n.socks && Holds(n.socks[id], Interest(if oneShot then 0 else s.userEvents, s.data)))
  {
    assert SockOk(q, id);
    CompletedKeeps(q, id);
    DeleteKeeps(Completed(q, id), id, false);
  }

  lemma CompletedKeeps(q: Port, id: Id)
    requires Valid(q) && Alive(q, id)
    ensures Tree(Completed(q, id)) && Alive(Completed(q, id), id) && OthersKeep(q, Completed(q, id), {})
  {}

  // ----- runs

  lemma HandedRemembered(asked: Requests, q: Port, id: Id, closes: bool, events: Bits, oneShot: bool, next: Requests)
    requires Valid(q) && Remembered(asked, q) && Alive(q, id)
    requires var s := q.socks[id];
      next == if !s.deletePending && !closes && events != 0 && oneShot then asked[s.key := Interest(0, s.data)] else asked
    ensures Remembered(next, Handed(q, id, closes, events, oneShot).0)
  {
    HandedExactly(q, id, closes, events, oneShot);
    var (n, r) := Handed(q, id, closes, events, oneShot);
    RememberedNext(asked, q, next, n, if r.Report? && oneShot then {q.socks[id].key} else {});
  }

  lemma FeedRemembered(asked: Requests, q: Port, id: Id, c: Completion)
    requires Valid(q) && Remembered(asked, q) && id in q.outstanding
    ensures Remembered(AskedNext(asked, q, FeedStep(id, c)), Apply(q, FeedStep(id, c)))
  {
    ValidOf(q, id);
    var s := q.socks[id];
    if !s.deletePending { SilencedAfter(asked, s, c); }
    HandedRemembered(asked, q, id, Closes(c), Wanted(c, s.userEvents), IsOneShot(s.userEvents), AskedNext(asked, q, FeedStep(id, c)));
  }

  lemma SilencedAfter(asked: Requests, s: Sock, c: Completion)
    requires s.key in asked && Holds(s, asked[s.key])
    ensures AskedAfter(asked, s.key, c)
         == if !Closes(c) && Wanted(c, s.userEvents) != 0 && IsOneShot(s.userEvents) then asked[s.key := Interest(0, s.data)] else asked
  {}

  lemma AddRemembered(asked: Requests, q: Port, key: nat, events: Bits, data: nat, w: AddWorld)
    requires Valid(q) && Possible(q, AddStep(key, events, data, w)) && Remembered(asked, q)
    ensures Remembered(AskedNext(asked, q, AddStep(key, events, data, w)), Apply(q, AddStep(key, events, data, w)))
  {
    AddExactly(q, key, events, data, w);
    var s := AddStep(key, events, data, w);
    RememberedNext(asked, q, AskedNext(asked, q, s), Apply(q, s), if Adds(q, key, w) then {key} else {});
  }

  lemma StepRemembered(asked: Requests, q: Port, s: Step)
    requires Valid(q) && Possible(q, s) && Remembered(asked, q)
    ensures Remembered(AskedNext(asked, q, s), Apply(q, s))
  {
    var n, next := Apply(q, s), AskedNext(asked, q, s);
    match s
    case AddStep(key, events, data, w) => AddRemembered(asked, q, key, events, data, w);
    case ModStep(key, events, data) =>
      ModExactly(q, key, events, data);
      RememberedNext(asked, q, next, n, if key in q.tree then {key} else {});
    case DelStep(key, cancelled) =>
      DelExactly(q, key, cancelled);
      RememberedNext(asked, q, next, n, {key});
    case UpdateStep(cancelled, answer) =>
      ValidOf(q, q.updates[0]);
      UpdateExactly(q, q.updates[0], cancelled, answer);
      RememberedNext(asked, q, next, n, {});
    case FeedStep(id, c) => FeedRemembered(asked, q, id, c);
  }

  /** At every moment of every run, each registered socket holds what its callers asked for last. */
  lemma {:induction false} RunRemembered(ports: seq<Port>, steps: seq<Step>, i: nat)
    requires Trace(ports, steps) && ports[0] == NEW_PORT && i <= |steps|
    ensures Valid(ports[i]) && Remembered(Asked(ports, steps, i), ports[i])
  {
    if i == 0 {
      NewPortValid();
    } else {
      TraceStep(ports, steps, i - 1);
      RunRemembered(ports, steps, i - 1);
      StepRemembered(Asked(ports, steps, i - 1), ports[i - 1], steps[i - 1]);
    }
  }

  /** What is asked for is looked after. At every moment of every run, and for every registered key: its socket waits for an
      update, or its operation has been cancelled and will come back, or every condition that leads to an event asked
      for is being polled. */
  lemma AskedIsWatched(ports: seq<Port>, steps: seq<Step>, i: nat, key: nat, happened: Bits)
    requires Trace(ports, steps) && ports[0] == NEW_PORT && i <= |steps| && key in ports[i].tree
    ensures var n, asked := ports[i], Asked(ports, steps, i);
      && key in asked && n.tree[key] in n.socks
      && var id, s := n.tree[key], n.socks[n.tree[key]];
         id in n.updates || (s.status.Cancelled? && id in n.outstanding)
         || (s.status.Pending? && id in n.outstanding && Watched(asked[key].events, s.pendingEvents, happened))
  {
    var n := ports[i];
    RunRemembered(ports, steps, i);
    var id := n.tree[key];
    ValidOf(n, id);
    InterestKept(n, id);
  }

  /** What a completion says to someone who asked for `events`: an operation that failed is an error, one that has been
      aborted or says that the socket is closed is nothing to report, and the rest is reported as far as asked for. */
  lemma CompletionSays(events: Bits, c: Completion)
    requires events & EPOLLERR != 0
    ensures Closes(c) <==> c.Ready? && c.events & AFD_LOCAL_CLOSE != 0
    ensures match c
            case Failed => Wanted(c, events) == EPOLLERR
            case Ready(a) => Wanted(c, events) == ToEpoll(a) & events
            case _ => Wanted(c, events) == 0
  {
    if c.Failed? { ErrorBit(events); }
  }

  lemma ErrorBit(events: Bits)
    requires events & EPOLLERR != 0
    ensures EPOLLERR & events == EPOLLERR
  {}

  /** What has been asked for is what is reported: when the operation of a registered key comes back, a report is made
      exactly if events asked for have happened, and it carries those events and the data last given for the key. */
  lemma AskedIsReported(ports: seq<Port>, steps: seq<Step>, i: nat, key: nat, c: Completion)
    requires Trace(ports, steps) && ports[0] == NEW_PORT && i <= |steps| && key in ports[i].tree
    requires ports[i].tree[key] in ports[i].outstanding
    ensures var n, asked := ports[i], Asked(ports, steps, i); var id := n.tree[key];
      && key in asked && Alive(n, id)
      && Feed(n, id, c).1 == if Reports(asked[key].events, c) then Report(asked[key].data, Wanted(c, asked[key].events)) else NoReport
  {
    var n := ports[i];
    RunRemembered(ports, steps, i);
    var id := n.tree[key];
    ValidOf(n, id);
    var user := n.socks[id].userEvents;
    HandedExactly(n, id, Closes(c), Wanted(c, user), IsOneShot(user));
  }
}
