/** The room as an object: each method is one hold of the admission lock, and does to the
    fields what the functions of `Room` do to a room as a value. */
module Games {
  import opened Sequences
  import opened Room
  import Spec = Room
  import opened RoomAdmission

  class Game {
    var settings: Settings
    var isCreated: bool
    var isCreating: bool
    var lastActorId: int
    var peers: seq<Member>
    var retiredPeers: seq<Member>
    var expectedUsers: set<User>
    var generations: map<User, nat>
    var nextGeneration: nat
    var owner: Option<Peer>
    var nextLease: nat
    var activeLease: nat
    var stateRevision: nat
    var initial: Snapshot
    var reserved: map<User, nat>
    var removed: map<User, nat>
    /** The expiry callbacks that the server manager still holds for this room. */
    var callbacks: set<(User, nat)>

    ghost function State(): Room reads this {
      Room(settings, isCreated, isCreating, lastActorId, peers, retiredPeers, expectedUsers, generations, nextGeneration,
           owner, nextLease, activeLease, stateRevision, initial, reserved, removed, callbacks)
    }

    // ----- lookups

    method FindActor(id: int) returns (found: bool)
      ensures found <==> HasActor(peers, id)
    {
      found := false;
      for i := 0 to |peers|
        invariant forall j :: 0 <= j < i ==> peers[j].actorId != id
      {
        if peers[i].actorId == id { return true; }
      }
    }

    method FindPeer(p: Peer) returns (found: bool)
      ensures found <==> HasPeer(peers, p)
    {
      found := false;
      for i := 0 to |peers|
        invariant forall j :: 0 <= j < i ==> peers[j].peer != p
      {
        if peers[i].peer == p { return true; }
      }
    }

    method FindUser(env: Env, u: User) returns (found: bool)
      ensures found <==> HasUser(env, peers, u)
    {
      found := false;
      for i := 0 to |peers|
        invariant forall j :: 0 <= j < i ==> !(env.Knows(peers[j].peer) && env.userOf[peers[j].peer] == u)
      {
        if env.Knows(peers[i].peer) && env.userOf[peers[i].peer] == u { return true; }
      }
    }

    predicate IsCreationActive(env: Env, p: Peer, lease: nat) reads this {
      isCreating && lease != 0 && lease == activeLease && owner == Some(p) && p in env.live
    }

    // ----- the creation lease

    method TryBeginCreation(p: Peer) returns (lease: nat)
      modifies this`initial, this`isCreating, this`nextLease, this`activeLease, this`stateRevision, this`owner, this`reserved, this`removed
      ensures (State(), lease) == TryBegin(old(State()), p)
    {
      if isCreated || isCreating || |peers| != 0 { return 0; }
      initial := Snapshot(isCreated, settings, lastActorId);
      StartLease(p);
      reserved := map[];
      removed := map[];
      return activeLease;
    }

    method StartLease(p: Peer)
      modifies this`isCreating, this`nextLease, this`activeLease, this`stateRevision, this`owner
      ensures State() == old(State()).(isCreating := true, nextLease := old(nextLease) + 1, activeLease := old(nextLease) + 1,
                                       revision := old(stateRevision) + 1, owner := Some(p))
    {
      isCreating := true;
      nextLease := nextLease + 1;
      activeLease := nextLease;
      stateRevision := stateRevision + 1;
      owner := Some(p);
    }

    method CommitCreation(env: Env, p: Peer, lease: nat) returns (done: bool)
      modifies this
      ensures (State(), done) == Commit(env, old(State()), p, lease)
    {
      if !IsCreationActive(env, p, lease) { return false; }
      var inside := FindPeer(p);
      if !inside { return false; }
      EndCreation(true);
      return true;
    }

    /** Retires the members whose peer is still there, starting over after each. */
    method RetireLive(env: Env)
      modifies this`peers, this`retiredPeers
      ensures peers == Keep(old(peers), Gone(env))
      ensures retiredPeers == old(retiredPeers) + Keep(old(peers), Here(env))
    {
      var i := 0;
      while i < |peers|
        invariant i <= |peers| && forall j :: 0 <= j < i ==> peers[j].peer !in env.live
        invariant Retirement(env, peers, retiredPeers) == Retirement(env, old(peers), old(retiredPeers))
        decreases |peers|, |peers| - i
      {
        if peers[i].peer in env.live {
          RetireOne(env, peers, retiredPeers, i);
          retiredPeers, peers, i := retiredPeers + [peers[i]], peers[..i] + peers[i + 1..], 0;
        } else {
          i := i + 1;
        }
      }
      RetireDone(env, peers, retiredPeers);
    }

    /** `order` is the order in which the table of withdrawn reservations happened to be walked. */
    method AbortCreationTransaction(env: Env, p: Peer, lease: nat) returns (done: bool, ghost order: seq<User>)
      modifies this
      ensures (State(), done) == Abort(env, old(State()), p, lease, order)
      ensures done ==> (set u <- order) == old(removed).Keys
    {
      order := [];
      if !IsCreationActive(env, p, lease) { return false, []; }
      order := RestoreRoom(env);
      Rewind();
      EndCreation(initial.isCreated);
      done := true;
    }

    method RestoreRoom(env: Env) returns (ghost order: seq<User>)
      modifies this`peers, this`retiredPeers, this`generations, this`expectedUsers, this`nextGeneration, this`reserved, this`callbacks
      ensures var r := old(State());
        State() == Restored(OwnReservationsDropped(r.(members := Keep(r.members, Gone(env)),
                                                      retired := r.retired + Keep(r.members, Here(env)))), order)
      ensures (set u <- order) == old(removed).Keys
    {
      ghost var r := State();
      RetireLive(env);
      assert State() == r.(members := Keep(r.members, Gone(env)), retired := r.retired + Keep(r.members, Here(env)));
      DropOwnReservations();
      order := RestoreRemoved();
    }

    method Rewind()
      modifies this`settings, this`lastActorId, this`reserved, this`removed
      ensures State() == old(State()).(reserved := map[], removed := map[], settings := initial.settings,
                                       lastActorId := initial.lastActorId)
    {
      reserved := map[];
      removed := map[];
      settings := initial.settings;
      lastActorId := initial.lastActorId;
    }

    method EndCreation(created: bool)
      modifies this`isCreated, this`isCreating, this`owner, this`stateRevision
      ensures State() == old(State()).(revision := old(stateRevision) + 1, isCreated := created, owner := None, isCreating := false)
    {
      stateRevision := stateRevision + 1;
      isCreated := created;
      owner := None;
      isCreating := false;
    }

    method DropOwnReservations()
      modifies this`generations, this`expectedUsers
      ensures State() == OwnReservationsDropped(old(State()))
    {
      var todo := reserved.Keys;
      while todo != {}
        invariant todo <= reserved.Keys
        invariant generations == map u | u in old(generations) && !(u in reserved.Keys - todo && reserved[u] == old(generations)[u]) :: old(generations)[u]
        invariant expectedUsers == old(expectedUsers) - (old(generations).Keys - generations.Keys)
      {
        var u :| u in todo;
        var done := RemoveExpectedUserIfGeneration(u, reserved[u]);
        todo := todo - {u};
      }
    }

    method RestoreRemoved() returns (ghost order: seq<User>)
      modifies this`generations, this`expectedUsers, this`nextGeneration, this`reserved, this`callbacks
      ensures State() == Restored(old(State()), order)
      ensures (set u <- order) == removed.Keys
    {
      var todo := removed.Keys;
      order := [];
      while todo != {}
        invariant todo <= removed.Keys && (set u <- order) == removed.Keys - todo
        invariant State() == Restored(old(State()), order)
      {
        var u :| u in todo;
        RestoredAppend(old(State()), order, u);
        if u !in expectedUsers {
          var made := ReserveExpectedUser(u);
        }
        assert (set v <- order + [u]) == (set v <- order) + {u};
        order := order + [u];
        todo := todo - {u};
      }
    }

    // ----- reservations

    method ReserveExpectedUser(u: User) returns (made: Option<nat>)
      modifies this`generations, this`expectedUsers, this`nextGeneration, this`reserved, this`callbacks
      ensures (State(), made) == Reserve(old(State()), u)
    {
      if u == "" || u in expectedUsers { return None; }
      expectedUsers := expectedUsers + {u};
      nextGeneration := nextGeneration + 1;
      generations := generations[u := nextGeneration];
      if isCreating { reserved := reserved[u := nextGeneration]; }
      callbacks := callbacks + {(u, nextGeneration)};
      return Some(nextGeneration);
    }

    method NoteRemoval(u: User)
      requires u in generations
      modifies this`removed
      ensures removed == Noted(old(State()), u)
    {
      if isCreating && !(u in reserved && reserved[u] == generations[u]) {
        removed := removed[u := generations[u]];
      }
    }

    method RunExpiry(u: User, g: nat)
      modifies this`generations, this`expectedUsers, this`removed, this`callbacks
      ensures State() == Expire(old(State()), u, g)
    {
      if (u, g) !in callbacks { return; }
      if u in generations && generations[u] == g {
        NoteRemoval(u);
        generations := generations - {u};
        expectedUsers := expectedUsers - {u};
      }
      callbacks := callbacks - {(u, g)};
    }

    method RemoveExpectedUser(u: User)
      modifies this`generations, this`expectedUsers, this`removed
      ensures State() == RemoveExpected(old(State()), u)
    {
      if u in generations {
        NoteRemoval(u);
      }
      generations := generations - {u};
      expectedUsers := expectedUsers - {u};
    }

    method RemoveExpectedUserIfGeneration(u: User, g: nat) returns (done: bool)
      modifies this`generations, this`expectedUsers
      ensures (State(), done) == RemoveIfGeneration(old(State()), u, g)
    {
      if u !in generations || generations[u] != g { return false; }
      generations := generations - {u};
      expectedUsers := expectedUsers - {u};
      return true;
    }

    // ----- members

    method CreatePeer(env: Env, p: Peer) returns (made: Option<Member>)
      modifies this`lastActorId
      ensures (State(), made) == Spec.CreatePeer(env, old(State()), p)
    {
      if !env.Knows(p) { return None; }
      var attempt := 0;
      while attempt < 254
        invariant attempt <= 254
        invariant FreeActor(peers, old(lastActorId), 254) == FreeActor(peers, lastActorId, 254 - attempt)
      {
        lastActorId := (if lastActorId >= ACTOR_LIMIT then 0 else lastActorId) + 1;
        var taken := FindActor(lastActorId);
        if !taken {
          return if lastActorId > 0 then Some(Member(p, lastActorId)) else None;
        }
        attempt := attempt + 1;
      }
      return None;
    }

    method Admissible(env: Env, m: Member) returns (ok: bool)
      ensures ok <==> Admits(env, State(), m)
    {
      if !env.Knows(m.peer) { return false; }
      var taken := FindActor(m.actorId);
      if taken { return false; }
      if settings.flags.checkUserOnJoin {
        var inside := FindUser(env, env.userOf[m.peer]);
        return !inside;
      }
      return true;
    }

    method AddPeer(env: Env, m: Member) returns (done: bool)
      modifies this
      ensures (State(), done) == Spec.AddPeer(env, old(State()), m)
    {
      if isCreating && !isCreated { return false; }
      done := Admissible(env, m);
      if done {
        peers := peers + [m];
        RemoveExpectedUser(env.userOf[m.peer]);
      }
    }

    method AddPeerForCreation(env: Env, m: Member, p: Peer, lease: nat) returns (done: bool)
      modifies this
      ensures (State(), done) == Spec.AddPeerForCreation(env, old(State()), m, p, lease)
    {
      if !IsCreationActive(env, p, lease) || m.peer != p { return false; }
      done := Admissible(env, m);
      if done {
        peers := peers + [m];
        RemoveExpectedUser(env.userOf[m.peer]);
      }
    }

    /** Retires every entry of `p`, and those whose peer is gone, starting over after each. */
    method RetireLeaving(env: Env, p: Peer) returns (leaving: int)
      requires p in env.live
      modifies this`peers, this`retiredPeers, this`settings
      ensures var ms, c := old(peers), old(settings);
        && peers == Keep(ms, Staying(env, p)) && retiredPeers == old(retiredPeers) + Keep(ms, Leaving(env, p))
        && leaving == LeavingActor(ms, p)
        && settings == c.(eventCache := if c.flags.deleteCacheOnLeave then CacheWithout(c.eventCache, ms, p) else c.eventCache)
    {
      leaving := 0;
      var i := 0;
      ghost var ms, c := peers, settings;
      if !HasPeer(ms, p) { NoEntry(ms, p); }
      while i < |peers|
        invariant i <= |peers| && forall j :: 0 <= j < i ==> Staying(env, p)(peers[j])
        invariant settings == c.(eventCache := settings.eventCache)
        invariant Departure(env, p, c.flags.deleteCacheOnLeave, peers, retiredPeers, settings.eventCache, leaving)
               == Departure(env, p, c.flags.deleteCacheOnLeave, ms, old(retiredPeers), c.eventCache, 0)
        decreases |peers|, |peers| - i
      {
        var m := peers[i];
        if m.peer in env.live && m.peer != p {
          i := i + 1;
        } else {
          DepartOne(env, p, c.flags.deleteCacheOnLeave, peers, retiredPeers, settings.eventCache, leaving, i);
          if m.peer in env.live {
            leaving := m.actorId;
            if settings.flags.deleteCacheOnLeave {
              settings := settings.(eventCache := CacheWithoutActor(settings.eventCache, leaving));
            }
          }
          retiredPeers, peers, i := retiredPeers + [m], peers[..i] + peers[i + 1..], 0;
        }
      }
      DepartDone(env, p, c.flags.deleteCacheOnLeave, peers, retiredPeers, settings.eventCache, leaving);
    }

    method RemovePeer(env: Env, p: Peer) returns (done: bool)
      requires p in env.live
      modifies this`peers, this`retiredPeers, this`settings
      ensures (State(), done) == Spec.RemovePeer(env, old(State()), p)
    {
      var leaving := RetireLeaving(env, p);
      if leaving == 0 { return false; }
      if |peers| != 0 && leaving == settings.masterActor {
        settings := settings.(masterActor := peers[0].actorId);
      }
      return true;
    }

    // ----- validation and admission

    method ValidateJoin(env: Env, cap: nat, u: User, n: nat, allowUncreated: bool) returns (code: Code)
      ensures code == Validate(env, State(), cap, u, n, allowUncreated)
    {
      if !isCreated && !allowUncreated { return GameIdNotExists; }
      if !settings.isOpen { return GameClosed; }
      var needed := (if u in expectedUsers then 0 else 1) + n;
      var count := |peers| + settings.dummyPeerCount + |expectedUsers| + needed;
      if settings.maxPeers > 0 && count > settings.maxPeers { return GameFull; }
      if cap != 0 && count > cap { return GameFull; }
      if count > 254 { return ActorListFull; }
      if settings.flags.checkUserOnJoin {
        var inside := FindUser(env, u);
        if inside { return AlreadyJoined; }
      }
      return Accepted;
    }

    method ValidateJoinWith(env: Env, cap: nat, u: User, list: seq<User>, allowUncreated: bool) returns (code: Code)
      ensures code == ValidateList(env, State(), cap, u, list, allowUncreated)
    {
      var unique: set<User> := {};
      for i := 0 to |list|
        invariant unique == NewExpected(expectedUsers, u, list[..i])
      {
        if list[i] != "" && list[i] != u && list[i] !in expectedUsers {
          unique := unique + {list[i]};
        }
      }
      assert list[..|list|] == list;
      code := ValidateJoin(env, cap, u, |unique|, allowUncreated);
    }

    method ReserveListed(p: Peer, u: User, list: seq<User>) returns (made: seq<(User, nat)>)
      modifies this`generations, this`expectedUsers, this`nextGeneration, this`reserved, this`callbacks
      ensures (State(), made) == ReserveAll(old(State()), u, HasPeer(peers, p), list)
    {
      made := [];
      ghost var r, skip := State(), HasPeer(peers, p);
      ghost var all := ReserveAll(r, u, skip, list).1;
      assert list[0..] == list && [] + all == all;
      for i := 0 to |list|
        invariant ReserveAll(r, u, skip, list)
               == (ReserveAll(State(), u, skip, list[i..]).0, made + ReserveAll(State(), u, skip, list[i..]).1)
      {
        var inside := FindPeer(p);
        assert list[i..][1..] == list[i + 1..];
        if list[i] != "" && list[i] != u && !inside {
          var g := ReserveExpectedUser(list[i]);
          ghost var rest := ReserveAll(State(), u, skip, list[i + 1..]).1;
          ghost var own := if g.Some? then [(list[i], g.value)] else [];
          assert made + (own + rest) == (made + own) + rest;
          made := made + if g.Some? then [(list[i], g.value)] else [];
        }
      }
      assert list[|list|..] == [] && made + [] == made;
    }

    /** The part of a join that a game server does under one hold of the lock. */
    method Enter(env: Env, cap: nat, p: Peer, list: seq<User>, lease: nat) returns (code: Code, member: Option<Member>, made: seq<(User, nat)>)
      requires env.Knows(p)
      modifies this
      ensures Joined(State(), code, member, made) == Join(env, old(State()), cap, p, list, lease)
    {
      member, made := None, [];
      code := ValidateJoinWith(env, cap, env.userOf[p], list, lease != 0);
      if code != Accepted { return; }
      made := ReserveListed(p, env.userOf[p], list);
      var candidate := CreatePeer(env, p);
      if candidate == None { return; }
      var done;
      if lease != 0 {
        done := AddPeerForCreation(env, candidate.value, p, lease);
      } else {
        done := AddPeer(env, candidate.value);
      }
      if done { member := candidate; }
    }

    method RollbackExpectedUsers(made: seq<(User, nat)>)
      modifies this`generations, this`expectedUsers
      ensures State() == Withdraw(old(State()), made)
    {
      for i := 0 to |made|
        invariant Withdraw(old(State()), made) == Withdraw(State(), made[i..])
      {
        var done := RemoveExpectedUserIfGeneration(made[i].0, made[i].1);
        assert made[i..][1..] == made[i + 1..];
      }
    }
  }

  /** A member that is not kept does not matter. */
  lemma {:induction false} KeepWithout(a: seq<Member>, m: Member, b: seq<Member>, keep: Member -> bool)
    requires !keep(m)
    ensures Keep(a + ([m] + b), keep) == Keep(a + b, keep)
  {
    if a == [] {
      assert a + ([m] + b) == [m] + b && a + b == b && ([m] + b)[1..] == b;
    } else {
      KeepWithout(a[1..], m, b, keep);
      assert (a + ([m] + b))[1..] == a[1..] + ([m] + b) && (a + b)[1..] == a[1..] + b;
    }
  }

  lemma {:induction false} KeepFirst(a: seq<Member>, m: Member, b: seq<Member>, keep: Member -> bool)
    requires keep(m) && forall j :: 0 <= j < |a| ==> !keep(a[j])
    ensures Keep(a + ([m] + b), keep) == [m] + Keep(a + b, keep)
  {
    if a == [] {
      assert a + ([m] + b) == [m] + b && a + b == b && ([m] + b)[1..] == b;
    } else {
      KeepFirst(a[1..], m, b, keep);
      assert (a + ([m] + b))[1..] == a[1..] + ([m] + b) && (a + b)[1..] == a[1..] + b;
    }
  }

  /** Where the walk over the members is heading: who is left, and who has been retired in all. */
  ghost function Retirement(env: Env, ms: seq<Member>, retired: seq<Member>): (seq<Member>, seq<Member>) {
    (Keep(ms, Gone(env)), retired + Keep(ms, Here(env)))
  }

  lemma RetireOne(env: Env, ms: seq<Member>, retired: seq<Member>, i: nat)
    requires i < |ms| && ms[i].peer in env.live && forall j :: 0 <= j < i ==> ms[j].peer !in env.live
    ensures Retirement(env, ms[..i] + ms[i + 1..], retired + [ms[i]]) == Retirement(env, ms, retired)
  {
    var a, b := ms[..i], ms[i + 1..];
    assert ms == a + ([ms[i]] + b);
    KeepWithout(a, ms[i], b, Gone(env));
    KeepFirst(a, ms[i], b, Here(env));
    assert retired + ([ms[i]] + Keep(a + b, Here(env))) == (retired + [ms[i]]) + Keep(a + b, Here(env));
  }

  lemma RetireDone(env: Env, ms: seq<Member>, retired: seq<Member>)
    requires forall j :: 0 <= j < |ms| ==> ms[j].peer !in env.live
    ensures Retirement(env, ms, retired) == (ms, retired)
  {
    KeepNothing(ms, Here(env));
    KeepEverything(ms, Gone(env));
    assert retired + [] == retired;
  }

  lemma {:induction false} KeepEverything(ms: seq<Member>, keep: Member -> bool)
    requires forall j :: 0 <= j < |ms| ==> keep(ms[j])
    ensures Keep(ms, keep) == ms
  {
    if ms != [] { KeepEverything(ms[1..], keep); }
  }

  lemma {:induction false} RestoredAppend(r: Room, order: seq<User>, u: User)
    ensures var b := Restored(r, order); Restored(r, order + [u]) == if u in b.expected then b else Reserve(b, u).0
    decreases |order|
  {
    if order == [] {
      assert order + [u] == [u];
      assert Restored(if u in r.expected then r else Reserve(r, u).0, []) == if u in r.expected then r else Reserve(r, u).0;
    } else {
      assert (order + [u])[1..] == order[1..] + [u];
      RestoredAppend(if order[0] in r.expected then r else Reserve(r, order[0]).0, order[1..], u);
    }
  }

  // ----- leaving

  function CacheWithoutActor(cache: seq<Event>, actor: int): seq<Event> {
    if cache == [] then []
    else (if cache[0].sender == actor && cache[0].sender != 0 then [] else [cache[0]]) + CacheWithoutActor(cache[1..], actor)
  }

  /** Where the walk over the members is heading: who stays, who is retired, which events stay,
      and whose actor id is reported. */
  ghost function Departure(env: Env, p: Peer, clear: bool, ms: seq<Member>, retired: seq<Member>, cache: seq<Event>, leaving: int)
    : (seq<Member>, seq<Member>, seq<Event>, int)
  {
    (Keep(ms, Staying(env, p)), retired + Keep(ms, Leaving(env, p)),
     if clear then CacheWithout(cache, ms, p) else cache,
     if HasPeer(ms, p) then LeavingActor(ms, p) else leaving)
  }

  lemma DepartOne(env: Env, p: Peer, clear: bool, ms: seq<Member>, retired: seq<Member>, cache: seq<Event>, leaving: int, i: nat)
    requires p in env.live
    requires i < |ms| && !Staying(env, p)(ms[i]) && forall j :: 0 <= j < i ==> Staying(env, p)(ms[j])
    ensures Departure(env, p, clear, ms[..i] + ms[i + 1..], retired + [ms[i]],
                      if clear && ms[i].peer == p then CacheWithoutActor(cache, ms[i].actorId) else cache,
                      if ms[i].peer == p then ms[i].actorId else leaving)
         == Departure(env, p, clear, ms, retired, cache, leaving)
  {
    DepartMembers(env, p, ms, i);
    var rest := Keep(ms[..i] + ms[i + 1..], Leaving(env, p));
    assert retired + ([ms[i]] + rest) == (retired + [ms[i]]) + rest;
    if ms[i].peer == p {
      LastOfPeer(ms, i, p);
      CacheOne(cache, ms, i, p);
    } else {
      SamePeers(ms, i, p);
      CacheSame(cache, ms, i, p);
    }
  }

  lemma DepartDone(env: Env, p: Peer, clear: bool, ms: seq<Member>, retired: seq<Member>, cache: seq<Event>, leaving: int)
    requires forall j :: 0 <= j < |ms| ==> Staying(env, p)(ms[j])
    ensures Departure(env, p, clear, ms, retired, cache, leaving) == (ms, retired, cache, leaving)
  {
    KeepNothing(ms, Leaving(env, p));
    KeepEverything(ms, Staying(env, p));
    CacheUntouched(cache, ms, p);
    assert retired + [] == retired;
  }

  lemma DepartMembers(env: Env, p: Peer, ms: seq<Member>, i: nat)
    requires i < |ms| && !Staying(env, p)(ms[i]) && forall j :: 0 <= j < i ==> Staying(env, p)(ms[j])
    ensures var next := ms[..i] + ms[i + 1..];
      && Keep(next, Staying(env, p)) == Keep(ms, Staying(env, p))
      && Keep(ms, Leaving(env, p)) == [ms[i]] + Keep(next, Leaving(env, p))
  {
    var a, b := ms[..i], ms[i + 1..];
    assert ms == a + ([ms[i]] + b);
    KeepWithout(a, ms[i], b, Staying(env, p));
    KeepFirst(a, ms[i], b, Leaving(env, p));
  }

  lemma {:induction false} LastOfPeer(ms: seq<Member>, i: nat, p: Peer)
    requires i < |ms| && ms[i].peer == p && forall j :: 0 <= j < i ==> ms[j].peer != p
    ensures var next := ms[..i] + ms[i + 1..];
      LeavingActor(ms, p) == if HasPeer(next, p) then LeavingActor(next, p) else ms[i].actorId
  {
    var n := |ms| - 1;
    var next := ms[..i] + ms[i + 1..];
    if i < n {
      assert next[|next| - 1] == ms[n];
      assert next[..|next| - 1] == ms[..n][..i] + ms[..n][i + 1..];
      if ms[n].peer != p {
        LastOfPeer(ms[..n], i, p);
        assert HasPeer(next, p) <==> HasPeer(next[..|next| - 1], p);
      }
    } else {
      assert next == ms[..n] && forall j :: 0 <= j < |next| ==> next[j].peer != p;
    }
  }

  lemma {:induction false} NoEntry(ms: seq<Member>, p: Peer)
    requires !HasPeer(ms, p)
    ensures LeavingActor(ms, p) == 0
  {
    if ms != [] { NoEntry(ms[..|ms| - 1], p); }
  }

  lemma {:induction false} SamePeers(ms: seq<Member>, i: nat, p: Peer)
    requires i < |ms| && ms[i].peer != p
    ensures var next := ms[..i] + ms[i + 1..];
      HasPeer(next, p) == HasPeer(ms, p) && LeavingActor(next, p) == LeavingActor(ms, p)
  {
    var n := |ms| - 1;
    var next := ms[..i] + ms[i + 1..];
    if i < n {
      assert next[|next| - 1] == ms[n];
      assert next[..|next| - 1] == ms[..n][..i] + ms[..n][i + 1..];
      SamePeers(ms[..n], i, p);
    } else {
      assert next == ms[..n];
    }
    forall j | 0 <= j < |ms| && ms[j].peer == p ensures HasPeer(next, p) {
      assert next[if j < i then j else j - 1] == ms[j];
    }
  }

  lemma SentOne(ms: seq<Member>, i: nat, p: Peer, e: Event)
    requires i < |ms|
    ensures SentBy(ms, p, e) <==> SentBy(ms[..i] + ms[i + 1..], p, e)
                                  || (ms[i].peer == p && e.sender == ms[i].actorId && e.sender != 0)
  {
    var next := ms[..i] + ms[i + 1..];
    if SentBy(ms, p, e) && !(ms[i].peer == p && e.sender == ms[i].actorId) {
      var j :| 0 <= j < |ms| && ms[j].peer == p && ms[j].actorId == e.sender;
      assert next[if j < i then j else j - 1] == ms[j];
    }
    if SentBy(next, p, e) {
      var j :| 0 <= j < |next| && next[j].peer == p && next[j].actorId == e.sender;
      assert ms[if j < i then j else j + 1] == next[j];
    }
  }

  lemma {:induction false} CacheOne(cache: seq<Event>, ms: seq<Member>, i: nat, p: Peer)
    requires i < |ms| && ms[i].peer == p
    ensures CacheWithout(CacheWithoutActor(cache, ms[i].actorId), ms[..i] + ms[i + 1..], p) == CacheWithout(cache, ms, p)
  {
    if cache != [] {
      var next, rest := ms[..i] + ms[i + 1..], CacheWithoutActor(cache[1..], ms[i].actorId);
      SentOne(ms, i, p, cache[0]);
      CacheOne(cache[1..], ms, i, p);
      if cache[0].sender == ms[i].actorId && cache[0].sender != 0 {
        assert CacheWithoutActor(cache, ms[i].actorId) == rest;
      } else {
        assert CacheWithoutActor(cache, ms[i].actorId) == [cache[0]] + rest && ([cache[0]] + rest)[1..] == rest;
      }
    }
  }

  lemma {:induction false} CacheSame(cache: seq<Event>, ms: seq<Member>, i: nat, p: Peer)
    requires i < |ms| && ms[i].peer != p
    ensures CacheWithout(cache, ms[..i] + ms[i + 1..], p) == CacheWithout(cache, ms, p)
  {
    if cache != [] {
      SentOne(ms, i, p, cache[0]);
      CacheSame(cache[1..], ms, i, p);
    }
  }

  lemma {:induction false} CacheUntouched(cache: seq<Event>, ms: seq<Member>, p: Peer)
    requires !HasPeer(ms, p)
    ensures CacheWithout(cache, ms, p) == cache
  {
    if cache != [] { CacheUntouched(cache[1..], ms, p); }
  }
}
