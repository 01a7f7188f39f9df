/** An epoll port as a value: its sockets, the two queues they wait in, and the kernel's poll
    operations that are still to complete. */
module Ports {
  import opened PollGroups

  type Id = nat
  type Bits = bv32

  // ----- event bits

  const EPOLLIN: Bits := 0x1
  const EPOLLPRI: Bits := 0x2
  const EPOLLOUT: Bits := 0x4
  const EPOLLERR: Bits := 0x8
  const EPOLLHUP: Bits := 0x10
  const EPOLLRDNORM: Bits := 0x40
  const EPOLLRDBAND: Bits := 0x80
  const EPOLLWRNORM: Bits := 0x100
  const EPOLLWRBAND: Bits := 0x200
  const EPOLLMSG: Bits := 0x400
  const EPOLLRDHUP: Bits := 0x2000
  const EPOLLONESHOT: Bits := 0x8000_0000
  const KNOWN: Bits :=
    EPOLLIN | EPOLLPRI | EPOLLOUT | EPOLLERR | EPOLLHUP | EPOLLRDNORM | EPOLLRDBAND | EPOLLWRNORM | EPOLLWRBAND | EPOLLMSG | EPOLLRDHUP

  const AFD_RECEIVE: Bits := 0x1
  const AFD_RECEIVE_EXPEDITED: Bits := 0x2
  const AFD_SEND: Bits := 0x4
  const AFD_DISCONNECT: Bits := 0x8
  const AFD_ABORT: Bits := 0x10
  const AFD_LOCAL_CLOSE: Bits := 0x20
  const AFD_ACCEPT: Bits := 0x80
  const AFD_CONNECT_FAIL: Bits := 0x100

  function ToAfd(e: Bits): Bits {
    AFD_LOCAL_CLOSE
    | (if e & (EPOLLIN | EPOLLRDNORM) != 0 then AFD_RECEIVE | AFD_ACCEPT else 0)
    | (if e & (EPOLLPRI | EPOLLRDBAND) != 0 then AFD_RECEIVE_EXPEDITED else 0)
    | (if e & (EPOLLOUT | EPOLLWRNORM | EPOLLWRBAND) != 0 then AFD_SEND else 0)
    | (if e & (EPOLLIN | EPOLLRDNORM | EPOLLRDHUP) != 0 then AFD_DISCONNECT else 0)
    | (if e & EPOLLHUP != 0 then AFD_ABORT else 0)
    | (if e & EPOLLERR != 0 then AFD_CONNECT_FAIL else 0)
  }

  function ToEpoll(a: Bits): Bits {
    (if a & (AFD_RECEIVE | AFD_ACCEPT) != 0 then EPOLLIN | EPOLLRDNORM else 0)
    | (if a & AFD_RECEIVE_EXPEDITED != 0 then EPOLLPRI | EPOLLRDBAND else 0)
    | (if a & AFD_SEND != 0 then EPOLLOUT | EPOLLWRNORM | EPOLLWRBAND else 0)
    | (if a & AFD_DISCONNECT != 0 then EPOLLIN | EPOLLRDNORM | EPOLLRDHUP else 0)
    | (if a & AFD_ABORT != 0 then EPOLLHUP else 0)
    | (if a & AFD_CONNECT_FAIL != 0 then EPOLLIN | EPOLLOUT | EPOLLERR | EPOLLRDNORM | EPOLLWRNORM | EPOLLRDHUP else 0)
  }

  /** Every known event that the user wants is among the monitored ones. */
  predicate Covered(user: Bits, pending: Bits) { user & KNOWN & !pending == 0 }

  /** With error reporting on, every condition that could lead to a wanted event is monitored. */
  lemma NothingMissed(user: Bits, pending: Bits, happened: Bits)
    requires user == 0 || user & EPOLLERR != 0
    requires Covered(user, pending) && ToEpoll(happened) & user != 0
    ensures happened & ToAfd(pending) != 0
  {}

  /** And nothing else is monitored but the closing of the socket: whatever else is polled for leads to a wanted event. */
  lemma NothingInVain(user: Bits, happened: Bits)
    requires happened & ToAfd(user) & !AFD_LOCAL_CLOSE != 0
    ensures ToEpoll(happened) & user != 0
  {}

  /** The conditions that each event stands for. */
  lemma EventsByCondition(a: Bits)
    ensures var e := ToEpoll(a);
      && (e & EPOLLIN != 0 <==> a & (AFD_RECEIVE | AFD_ACCEPT | AFD_DISCONNECT | AFD_CONNECT_FAIL) != 0)
      && (e & EPOLLRDNORM != 0 <==> a & (AFD_RECEIVE | AFD_ACCEPT | AFD_DISCONNECT | AFD_CONNECT_FAIL) != 0)
      && (e & EPOLLPRI != 0 <==> a & AFD_RECEIVE_EXPEDITED != 0) && (e & EPOLLRDBAND != 0 <==> a & AFD_RECEIVE_EXPEDITED != 0)
      && (e & EPOLLOUT != 0 <==> a & (AFD_SEND | AFD_CONNECT_FAIL) != 0)
      && (e & EPOLLWRNORM != 0 <==> a & (AFD_SEND | AFD_CONNECT_FAIL) != 0) && (e & EPOLLWRBAND != 0 <==> a & AFD_SEND != 0)
      && (e & EPOLLRDHUP != 0 <==> a & (AFD_DISCONNECT | AFD_CONNECT_FAIL) != 0)
      && (e & EPOLLERR != 0 <==> a & AFD_CONNECT_FAIL != 0) && (e & EPOLLHUP != 0 <==> a & AFD_ABORT != 0)
      && e & !(KNOWN & !EPOLLMSG) == 0
  {}

  /** Flags that are no events, as that for one report only, need no polling. */
  lemma CoveredByEvent(user: Bits, pending: Bits)
    ensures Covered(user, pending) <==>
      && (user & EPOLLIN != 0 ==> pending & EPOLLIN != 0) && (user & EPOLLPRI != 0 ==> pending & EPOLLPRI != 0)
      && (user & EPOLLOUT != 0 ==> pending & EPOLLOUT != 0) && (user & EPOLLERR != 0 ==> pending & EPOLLERR != 0)
      && (user & EPOLLHUP != 0 ==> pending & EPOLLHUP != 0) && (user & EPOLLRDNORM != 0 ==> pending & EPOLLRDNORM != 0)
      && (user & EPOLLRDBAND != 0 ==> pending & EPOLLRDBAND != 0) && (user & EPOLLWRNORM != 0 ==> pending & EPOLLWRNORM != 0)
      && (user & EPOLLWRBAND != 0 ==> pending & EPOLLWRBAND != 0) && (user & EPOLLMSG != 0 ==> pending & EPOLLMSG != 0)
      && (user & EPOLLRDHUP != 0 ==> pending & EPOLLRDHUP != 0)
  {}

  lemma CoversItself(user: Bits)
    ensures Covered(user, user)
  {}

  // ----- state

  datatype Status = Idle | Pending | Cancelled

  datatype Sock = Sock(key: nat, data: nat, userEvents: Bits, pendingEvents: Bits, status: Status, deletePending: bool, group: Gid)

  /** `outstanding` are the sockets whose poll operation the kernel has yet to hand back.
      A freed socket's id is not used again. */
  datatype Port = Port(
    socks: map<Id, Sock>, tree: map<nat, Id>, updates: seq<Id>, deleted: seq<Id>, pool: Pool,
    outstanding: set<Id>, freed: set<Id>)

  const NEW_PORT := Port(map[], map[], [], [], [], {}, {})

  const INVALID_SOCKET: nat := 0xffff_ffff_ffff_ffff

  /** How the kernel answers a poll request. */
  datatype PollAnswer = Submitted | InvalidHandle | OtherError

  /** What a completed poll operation says. */
  datatype Completion = Aborted | Failed | NoHandles | Ready(events: Bits)

  datatype Report = NoReport | Report(data: nat, events: Bits)

  /** What the world answers while a socket is added. */
  datatype AddWorld = AddWorld(id: Id, baseFound: bool, group: Gid, groupMade: bool, allocOk: bool)

  predicate Alive(p: Port, id: Id) { id in p.socks && SizeOf(p.pool, p.socks[id].group) > 0 }

  function Without(s: seq<Id>, x: Id): (r: seq<Id>)
    ensures forall y :: y in r <==> y in s && y != x
  {
    if s == [] then [] else if s[0] == x then Without(s[1..], x) else [s[0]] + Without(s[1..], x)
  }

  function Enqueued(p: Port, id: Id): bool { id in p.updates || id in p.deleted }

  function RequestUpdate(p: Port, id: Id): Port {
    if Enqueued(p, id) then p else p.(updates := p.updates + [id])
  }

  /** Takes the socket out of whichever queue it is in. */
  function Dequeued(p: Port, id: Id): Port {
    p.(updates := Without(p.updates, id), deleted := Without(p.deleted, id))
  }

  // ----- deletion

  function Freed(p: Port, id: Id): Port
    requires Alive(p, id)
  {
    p.(socks := p.socks - {id}, freed := p.freed + {id}, pool := Release(p.pool, p.socks[id].group),
       outstanding := p.outstanding - {id})
  }

  /** The first half of a deletion, done once: the poll is cancelled if it can be. */
  function Unregistered(p: Port, id: Id, cancelled: bool): Port
    requires id in p.socks
  {
    var s := p.socks[id];
    var after := if s.status.Pending? && cancelled then s.(status := Cancelled, pendingEvents := 0) else s;
    Dequeued(p, id).(tree := p.tree - {s.key}, socks := p.socks[id := after.(deletePending := true)])
  }

  function Delete(p: Port, id: Id, force: bool, cancelled: bool): Port
    requires Alive(p, id)
  {
    var q := if p.socks[id].deletePending then p else Unregistered(p, id, cancelled);
    if force || q.socks[id].status.Idle? then Freed(Dequeued(q, id), id)
    else if Enqueued(q, id) then q else q.(deleted := q.deleted + [id])
  }

  // ----- the interface

  function SetEvent(p: Port, id: Id, events: Bits, data: nat): Port
    requires id in p.socks
  {
    var s := p.socks[id].(userEvents := events | EPOLLERR | EPOLLHUP, data := data);
    var q := p.(socks := p.socks[id := s]);
    if Covered(s.userEvents, s.pendingEvents) then q else RequestUpdate(q, id)
  }

  /** Makes a socket for `key`. The second result says whether that worked. */
  function NewSock(p: Port, key: nat, w: AddWorld): (Port, bool)
    requires w.id !in p.socks && PollGroups.Sound(p.pool) && !Has(p.pool, w.group)
  {
    if key == 0 || key == INVALID_SOCKET || !w.baseFound then (p, false)
    else
      var (pool, ok, g) := Acquire(p.pool, w.group, w.groupMade);
      AcquireSizeOf(p.pool, w.group, w.groupMade, g);
      if !ok then (p, false)
      else if !w.allocOk then (p.(pool := Release(pool, g)), false)
      else if key in p.tree then (p.(pool := Release(pool, g), freed := p.freed + {w.id}), false)
      else (p.(pool := pool, tree := p.tree[key := w.id], socks := p.socks[w.id := Sock(key, 0, 0, 0, Idle, false, g)]), true)
  }

  function CtlAdd(p: Port, key: nat, events: Bits, data: nat, w: AddWorld): (Port, bool)
    requires w.id !in p.socks && PollGroups.Sound(p.pool) && !Has(p.pool, w.group)
  {
    var (q, ok) := NewSock(p, key, w);
    (if ok then SetEvent(q, w.id, events, data) else q, ok)
  }

  function CtlMod(p: Port, key: nat, events: Bits, data: nat): (Port, bool) {
    if key !in p.tree || p.tree[key] !in p.socks then (p, false) else (SetEvent(p, p.tree[key], events, data), true)
  }

  function CtlDel(p: Port, key: nat, cancelled: bool): (Port, bool) {
    if key !in p.tree || !Alive(p, p.tree[key]) then (p, false) else (Delete(p, p.tree[key], false, cancelled), true)
  }

  // ----- polling

  function Update(p: Port, id: Id, cancelled: bool, answer: PollAnswer): (Port, bool)
    requires Alive(p, id)
  {
    var s := p.socks[id];
    match s.status
    case Pending =>
      if Covered(s.userEvents, s.pendingEvents) then (Dequeued(p, id), true)
      else if !cancelled then (p, false)
      else (Dequeued(p.(socks := p.socks[id := s.(status := Cancelled, pendingEvents := 0)]), id), true)
    case Cancelled => (Dequeued(p, id), true)
    case Idle =>
      match answer
      case Submitted =>
        (Dequeued(p.(socks := p.socks[id := s.(status := Pending, pendingEvents := s.userEvents)],
                     outstanding := p.outstanding + {id}), id), true)
      case InvalidHandle => (Delete(p, id, false, false), true)
      case OtherError => (p, false)
  }

  /** The poll operation of `id` has come back. */
  function Completed(p: Port, id: Id): Port
    requires id in p.socks
  {
    p.(outstanding := p.outstanding - {id}, socks := p.socks[id := p.socks[id].(status := Idle, pendingEvents := 0)])
  }

  /** The operation reports that the socket has been closed. */
  predicate Closes(c: Completion) { c.Ready? && c.events & AFD_LOCAL_CLOSE != 0 }

  /** The events that a completion stands for, as far as the user wants them. */
  function Wanted(c: Completion, user: Bits): Bits {
    match c
    case Failed => EPOLLERR & user
    case Ready(a) => ToEpoll(a) & user
    case _ => 0
  }

  predicate IsOneShot(user: Bits) { user & EPOLLONESHOT != 0 }

  function Feed(p: Port, id: Id, c: Completion): (Port, Report)
    requires Alive(p, id)
  {
    var user := p.socks[id].userEvents;
    Handed(p, id, Closes(c), Wanted(c, user), IsOneShot(user))
  }

  /** Takes the operation of `id` back, which says that the socket is closed or that `events` have happened. */
  function Handed(p: Port, id: Id, closes: bool, events: Bits, oneShot: bool): (Port, Report)
    requires Alive(p, id)
  {
    var s, q := p.socks[id], Completed(p, id);
    if s.deletePending || closes then (Delete(q, id, false, false), NoReport)
    else
      var r := RequestUpdate(q, id);
      if events == 0 then (r, NoReport)
      else (if oneShot then r.(socks := r.socks[id := q.socks[id].(userEvents := 0)]) else r, Report(s.data, events))
  }

  /** A batch of completions one after another, and the reports they give. */
  function FeedAll(p: Port, batch: seq<(Id, Completion)>): (Port, seq<Report>) {
    if batch == [] then (p, [])
    else
      var (id, c) := batch[|batch| - 1];
      var (q, reports) := FeedAll(p, batch[..|batch| - 1]);
      if !Alive(q, id) then (q, reports)
      else
        var (r, report) := Feed(q, id, c);
        (r, if report.Report? then reports + [report] else reports)
  }
}
