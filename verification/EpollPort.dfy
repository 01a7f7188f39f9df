/** The port as an object, changed in place by the threads that hold its lock. What the kernel answers is
    chosen freely, and told by ghost results. */
module EpollPorts {
  import opened PollGroups
  import opened Ports
  import Safety = PortSafety

  class EpollPort {
    var socks: map<Id, Sock>
    var tree: map<nat, Id>
    var updates: seq<Id>
    var deleted: seq<Id>
    var pool: Pool
    /** The threads that wait for completions. */
    var activePolls: nat
    ghost var outstanding: set<Id>
    ghost var freed: set<Id>

    ghost function State(): Port reads this {
      Port(socks, tree, updates, deleted, pool, outstanding, freed)
    }

    constructor ()
      ensures State() == NEW_PORT && Safety.Valid(State()) && activePolls == 0
    {
      socks, tree, updates, deleted, pool, outstanding, freed, activePolls := map[], map[], [], [], [], {}, {}, 0;
      new;
      Safety.NewPortValid();
    }

    // ----- queues

    method RequestSocketUpdate(id: Id)
      modifies this`updates
      ensures State() == RequestUpdate(old(State()), id)
    {
      if id in updates || id in deleted { return; }
      updates := updates + [id];
    }

    method DequeueSocket(id: Id)
      modifies this`updates, this`deleted
      ensures State() == Dequeued(old(State()), id)
    {
      updates := Ports.Without(updates, id);
      deleted := Ports.Without(deleted, id);
    }

    // ----- sockets

    method CancelPoll(id: Id) returns (cancelled: bool)
      requires id in socks && socks[id].status.Pending?
      modifies this`socks
      ensures socks == if cancelled then old(socks)[id := old(socks)[id].(status := Cancelled, pendingEvents := 0)] else old(socks)
    {
      cancelled := *;
      if cancelled {
        socks := socks[id := socks[id].(status := Cancelled, pendingEvents := 0)];
      }
    }

    method FreeSocket(id: Id)
      requires Alive(State(), id)
      modifies this`socks, this`pool, this`outstanding, this`freed
      ensures State() == Freed(old(State()), id)
    {
      pool := Release(pool, socks[id].group);
      socks := socks - {id};
      freed := freed + {id};
      outstanding := outstanding - {id};
    }

    method Unregister(id: Id) returns (ghost cancelled: bool)
      requires id in socks
      modifies this`socks, this`tree, this`updates, this`deleted
      ensures State() == Unregistered(old(State()), id, cancelled)
    {
      cancelled := false;
      if socks[id].status.Pending? { cancelled := CancelPoll(id); }
      DequeueSocket(id);
      tree := tree - {socks[id].key};
      socks := socks[id := socks[id].(deletePending := true)];
    }

    method SockDelete(id: Id, force: bool) returns (ghost cancelled: bool)
      requires Alive(State(), id)
      modifies this`socks, this`tree, this`updates, this`deleted, this`pool, this`outstanding, this`freed
      ensures State() == Delete(old(State()), id, force, cancelled)
    {
      cancelled := false;
      if !socks[id].deletePending { cancelled := Unregister(id); }
      if force || socks[id].status.Idle? {
        DequeueSocket(id);
        FreeSocket(id);
      } else if id !in updates && id !in deleted {
        deleted := deleted + [id];
      }
    }

    method SockSetEvent(id: Id, events: Bits, data: nat)
      requires id in socks
      modifies this`socks, this`updates
      ensures State() == SetEvent(old(State()), id, events, data)
    {
      var wanted := events | EPOLLERR | EPOLLHUP;
      var pending := socks[id].pendingEvents;
      socks := socks[id := socks[id].(userEvents := wanted, data := data)];
      if !Covered(wanted, pending) { RequestSocketUpdate(id); }
    }

    method SockUpdate(id: Id) returns (ok: bool, ghost cancelled: bool, ghost answer: PollAnswer)
      requires Alive(State(), id) && !socks[id].deletePending
      modifies this`socks, this`tree, this`updates, this`deleted, this`pool, this`outstanding, this`freed
      ensures (State(), ok) == Update(old(State()), id, cancelled, answer)
    {
      var s := socks[id];
      ghost var p := State();
      cancelled, answer := false, Submitted;
      if s.status.Pending? && !Covered(s.userEvents, s.pendingEvents) {
        var done := CancelPoll(id);
        cancelled := done;
        if !done { return false, cancelled, answer; }
        assert State() == p.(socks := p.socks[id := s.(status := Cancelled, pendingEvents := 0)]);
      } else if s.status.Idle? {
        var a: PollAnswer := *;
        answer := a;
        if a.InvalidHandle? {
          cancelled := SockDelete(id, false);
          return true, cancelled, answer;
        }
        if !a.Submitted? { return false, cancelled, answer; }
        StartPoll(id);
        assert State() == p.(socks := p.socks[id := s.(status := Pending, pendingEvents := s.userEvents)],
                             outstanding := p.outstanding + {id});
      }
      DequeueSocket(id);
      ok := true;
    }

    method StartPoll(id: Id)
      requires id in socks
      modifies this`socks, this`outstanding
      ensures outstanding == old(outstanding) + {id}
      ensures socks == old(socks)[id := old(socks)[id].(status := Pending, pendingEvents := old(socks)[id].userEvents)]
    {
      socks := socks[id := socks[id].(status := Pending, pendingEvents := socks[id].userEvents)];
      outstanding := outstanding + {id};
    }

    method SockFeedEvent(id: Id, c: Completion) returns (r: Report)
      requires Alive(State(), id)
      modifies this`socks, this`tree, this`updates, this`deleted, this`pool, this`outstanding, this`freed
      ensures (State(), r) == Feed(old(State()), id, c)
    {
      var user := socks[id].userEvents;
      r := HandOver(id, Closes(c), Wanted(c, user), IsOneShot(user));
    }

    method HandOver(id: Id, closes: bool, events: Bits, oneShot: bool) returns (r: Report)
      requires Alive(State(), id)
      modifies this`socks, this`tree, this`updates, this`deleted, this`pool, this`outstanding, this`freed
      ensures (State(), r) == Handed(old(State()), id, closes, events, oneShot)
    {
      TakeBack(id);
      if socks[id].deletePending || closes {
        var _ := SockDelete(id, false);
        return NoReport;
      }
      RequestSocketUpdate(id);
      r := ReportEvents(id, events, oneShot);
    }

    method TakeBack(id: Id)
      requires id in socks
      modifies this`socks, this`outstanding
      ensures State() == Completed(old(State()), id)
    {
      outstanding := outstanding - {id};
      socks := socks[id := socks[id].(status := Idle, pendingEvents := 0)];
    }

    /** Reports the events that the user wants. A one-shot socket asks for nothing more after that. */
    method ReportEvents(id: Id, events: Bits, oneShot: bool) returns (r: Report)
      requires id in socks
      modifies this`socks
      ensures var s := old(socks)[id];
        && r == (if events == 0 then NoReport else Report(s.data, events))
        && socks == (if events != 0 && oneShot then old(socks)[id := s.(userEvents := 0)] else old(socks))
    {
      if events == 0 { return NoReport; }
      r := Report(socks[id].data, events);
      if oneShot {
        socks := socks[id := socks[id].(userEvents := 0)];
      }
    }

    // ----- registration

    method SockNew(key: nat, w: AddWorld) returns (ok: bool)
      requires w.id !in socks && PollGroups.Sound(pool) && !Has(pool, w.group)
      modifies this`socks, this`tree, this`pool, this`freed
      ensures (State(), ok) == NewSock(old(State()), key, w)
    {
      if key == 0 || key == INVALID_SOCKET || !w.baseFound { return false; }
      var (grown, found, g) := Acquire(pool, w.group, w.groupMade);
      if !found { return false; }
      AcquireSizeOf(pool, w.group, w.groupMade, g);
      pool := grown;
      if !w.allocOk {
        pool := Release(pool, g);
        return false;
      }
      if key in tree {
        freed := freed + {w.id};
        pool := Release(pool, g);
        return false;
      }
      tree := tree[key := w.id];
      socks := socks[w.id := Sock(key, 0, 0, 0, Idle, false, g)];
      ok := true;
    }

    /** Adds a socket, and has new interest polled for at once if a thread is waiting. `mid` is the port in between. */
    method Add(key: nat, events: Bits, data: nat, w: AddWorld) returns (ok: bool, ghost mid: Port, ghost steps: seq<Safety.Step>)
      requires Safety.Valid(State()) && Safety.Possible(State(), Safety.AddStep(key, events, data, w))
      modifies this`socks, this`tree, this`updates, this`deleted, this`pool, this`outstanding, this`freed
      ensures (mid, ok) == CtlAdd(old(State()), key, events, data, w) && Safety.Valid(mid)
      ensures UpdatedFrom(mid, steps, ok)
    {
      Safety.CtlAddValid(State(), key, events, data, w);
      ok := SockNew(key, w);
      if ok { SockSetEvent(w.id, events, data); }
      mid, steps := State(), [];
      Safety.LeadsNowhere(mid);
      if ok { steps := UpdateEventsIfPolling(); }
    }

    method Mod(key: nat, events: Bits, data: nat) returns (ok: bool, ghost mid: Port, ghost steps: seq<Safety.Step>)
      requires Safety.Valid(State())
      modifies this`socks, this`tree, this`updates, this`deleted, this`pool, this`outstanding, this`freed
      ensures (mid, ok) == CtlMod(old(State()), key, events, data) && Safety.Valid(mid)
      ensures UpdatedFrom(mid, steps, ok)
    {
      mid, steps := State(), [];
      Safety.LeadsNowhere(mid);
      if key !in tree { return false, mid, steps; }
      Safety.ValidOf(State(), tree[key]);
      Safety.SetEventValid(State(), tree[key], events, data);
      SockSetEvent(tree[key], events, data);
      ok, mid := true, State();
      steps := UpdateEventsIfPolling();
    }

    /** The port is what a run of updates makes of `mid`, and `mid` itself if nothing was done or nobody waits. If
        somebody waits, the updates go on until none is left or the kernel refuses one. */
    ghost predicate UpdatedFrom(mid: Port, steps: seq<Safety.Step>, ok: bool)
      reads this
    {
      && Safety.Leads(mid, steps, State()) && (forall s <- steps :: s.UpdateStep?) && Safety.Valid(State())
      && (!ok || activePolls == 0 ==> steps == [])
      && (ok && activePolls > 0 ==> updates == [] || Refused(steps))
    }

    /** The last of the updates was of the socket that now is first in the queue, and has failed. */
    ghost predicate Refused(steps: seq<Safety.Step>)
      reads this
    {
      && steps != [] && steps[|steps| - 1].UpdateStep? && updates != [] && Alive(State(), updates[0])
      && var last := steps[|steps| - 1]; Update(State(), updates[0], last.cancelled, last.answer) == (State(), false)
    }

    method UpdateEventsIfPolling() returns (ghost steps: seq<Safety.Step>)
      requires Safety.Valid(State())
      modifies this`socks, this`tree, this`updates, this`deleted, this`pool, this`outstanding, this`freed
      ensures UpdatedFrom(old(State()), steps, true)
    {
      steps := [];
      Safety.LeadsNowhere(State());
      if activePolls > 0 {
        var ok;
        ok, steps := UpdateEvents();
      }
    }

    method Del(key: nat) returns (ok: bool, ghost cancelled: bool)
      requires Safety.Valid(State())
      modifies this`socks, this`tree, this`updates, this`deleted, this`pool, this`outstanding, this`freed
      ensures (State(), ok) == CtlDel(old(State()), key, cancelled) && Safety.Valid(State())
    {
      if key !in tree { return false, false; }
      Safety.ValidOf(State(), tree[key]);
      ghost var p := State();
      cancelled := SockDelete(tree[key], false);
      Safety.DeleteValid(p, p.tree[key], false, cancelled);
      ok := true;
    }

    // ----- polling

    /** Walks the update queue to its end, or until the kernel refuses. */
    method UpdateEvents() returns (ok: bool, ghost steps: seq<Safety.Step>)
      requires Safety.Valid(State())
      modifies this`socks, this`tree, this`updates, this`deleted, this`pool, this`outstanding, this`freed
      ensures Safety.Leads(old(State()), steps, State()) && (forall s <- steps :: s.UpdateStep?) && Safety.Valid(State())
      ensures if ok then updates == [] else Refused(steps)
    {
      ok, steps := true, [];
      Safety.LeadsNowhere(State());
      while |updates| != 0
        invariant Safety.Valid(State()) && Safety.Leads(old(State()), steps, State()) && forall s <- steps :: s.UpdateStep?
        decreases |updates|
      {
        ghost var p, cancelled, answer := State(), false, Submitted;
        Safety.ValidOf(p, updates[0]);
        ok, cancelled, answer := SockUpdate(updates[0]);
        ghost var s := Safety.UpdateStep(cancelled, answer);
        Safety.LeadsOn(old(State()), steps, p, s);
        Safety.UpdateShrinks(p, p.updates[0], cancelled, answer);
        steps := steps + [s];
        if !ok { return; }
      }
    }

    /** Before a thread waits for completions, all sockets that need it are updated. */
    method BeginPoll() returns (ok: bool, ghost steps: seq<Safety.Step>)
      requires Safety.Valid(State())
      modifies this
      ensures Safety.Leads(old(State()), steps, State()) && Safety.Valid(State())
      ensures ok ==> updates == [] && activePolls == old(activePolls) + 1
      ensures !ok ==> activePolls == old(activePolls) && Refused(steps)
    {
      ok, steps := UpdateEvents();
      if ok { activePolls := activePolls + 1; }
    }

    /** The thread has its completions, or failed to wait. */
    method EndPoll(failed: bool, batch: seq<(Id, Completion)>) returns (reports: seq<Report>)
      requires Safety.Valid(State()) && Safety.Batch(State(), batch) && activePolls > 0
      modifies this
      ensures Safety.Valid(State()) && activePolls == old(activePolls) - 1
      ensures (State(), reports) == if failed then (old(State()), []) else FeedAll(old(State()), batch)
    {
      activePolls := activePolls - 1;
      if failed { return []; }
      reports := FeedEvents(batch);
    }

    /** Takes in a batch of completed operations, and gives the reports in their order. */
    method FeedEvents(batch: seq<(Id, Completion)>) returns (reports: seq<Report>)
      requires Safety.Valid(State()) && Safety.Batch(State(), batch)
      modifies this`socks, this`tree, this`updates, this`deleted, this`pool, this`outstanding, this`freed
      ensures (State(), reports) == FeedAll(old(State()), batch) && Safety.Valid(State())
    {
      reports := [];
      ghost var p := State();
      for i := 0 to |batch|
        invariant (State(), reports) == FeedAll(p, batch[..i])
      {
        Safety.FeedNext(p, batch, i);
        var r := SockFeedEvent(batch[i].0, batch[i].1);
        if r.Report? { reports := reports + [r]; }
      }
      assert batch[..|batch|] == batch;
      Safety.FeedAllValid(p, batch);
    }

    // ----- the end of a port

    method ForceDelete(id: Id)
      requires Safety.Valid(State()) && id in socks
      modifies this`socks, this`tree, this`updates, this`deleted, this`pool, this`outstanding, this`freed
      ensures Safety.Valid(State()) && socks == old(socks) - {id} && id in freed
      ensures freed + socks.Keys == old(freed + socks.Keys) && |socks.Keys| < old(|socks.Keys|)
    {
      ghost var p := State();
      Safety.ValidOf(p, id);
      ghost var cancelled := SockDelete(id, true);
      Safety.DeleteValid(p, id, true, cancelled);
      Safety.ForcedFrees(p, id, cancelled);
    }

    method DeleteRegistered()
      requires Safety.Valid(State())
      modifies this`socks, this`tree, this`updates, this`deleted, this`pool, this`outstanding, this`freed
      ensures Safety.Valid(State()) && forall id <- socks :: socks[id].deletePending
      ensures freed + socks.Keys == old(freed + socks.Keys)
    {
      while tree.Keys != {}
        invariant Safety.Valid(State())
        invariant freed + socks.Keys == old(freed + socks.Keys)
        decreases |socks.Keys|
      {
        var key :| key in tree;
        ForceDelete(tree[key]);
      }
      Safety.NoneRegistered(State());
    }

    method DeleteDeferred()
      requires Safety.Valid(State()) && forall id <- socks :: socks[id].deletePending
      modifies this`socks, this`tree, this`updates, this`deleted, this`pool, this`outstanding, this`freed
      ensures Safety.Valid(State()) && socks == map[] && updates == [] && deleted == []
      ensures freed == old(freed + socks.Keys)
    {
      while |deleted| != 0
        invariant Safety.Valid(State()) && forall id <- socks :: socks[id].deletePending
        invariant freed + socks.Keys == old(freed + socks.Keys)
        decreases |socks.Keys|
      {
        ForceDelete(deleted[0]);
      }
      Safety.AllDeferred(State());
      assert socks.Keys == {};
    }

    /** Frees every socket, once, and then every group, which by then is empty. */
    method DeletePort()
      requires Safety.Valid(State())
      modifies this`socks, this`tree, this`updates, this`deleted, this`pool, this`outstanding, this`freed
      ensures socks == map[] && freed == old(freed + socks.Keys)
      ensures pool == [] && updates == [] && deleted == []
    {
      DeleteRegistered();
      DeleteDeferred();
      Safety.GroupsEmpty(State());
      DeleteGroups();
    }

    method DeleteGroups()
      requires forall g <- pool :: g.size == 0
      modifies this`pool
      ensures pool == []
    {
      while |pool| != 0
        invariant forall g <- pool :: g.size == 0
      {
        assert pool[0].size == 0;
        pool := pool[1..];
      }
    }
  }
}
