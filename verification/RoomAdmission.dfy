/** Admission: which joins a room accepts, that an accepted join then succeeds, and that its
    head count never passes a cap. */
module RoomAdmission {
  import opened Sequences
  import opened Room
  import opened RoomReservations

  // ----- actor ids

  /** Actor ids are taken from 1..254, no two alike. */
  ghost predicate ActorsSound(r: Room) {
    && 0 <= r.lastActorId <= ACTOR_LIMIT
    && (forall m <- r.members :: 1 <= m.actorId <= ACTOR_LIMIT)
    && Distinct(r.members)
  }

  ghost predicate Distinct(ms: seq<Member>) {
    forall i, j :: 0 <= i < j < |ms| ==> ms[i].actorId != ms[j].actorId
  }

  /** The id that the allocator tries `k` steps after `last`. */
  function Candidate(last: int, k: nat): int { (last + k - 1) % ACTOR_LIMIT + 1 }

  lemma CandidateNext(last: int, k: nat)
    requires 0 <= last <= ACTOR_LIMIT
    ensures NextActor(last) == Candidate(last, 1)
    ensures Candidate(last, k + 1) == Candidate(NextActor(last), k)
  {
    assert last == ACTOR_LIMIT ==> (last + k) % ACTOR_LIMIT == k % ACTOR_LIMIT;
    assert NextActor(last) + k - 1 == (if last == ACTOR_LIMIT then k else last + k);
  }

  /** One round of the allocator tries every id exactly once and ends where it started. */
  lemma CandidatesCover(last: int, id: int) returns (k: nat)
    requires 0 <= last <= ACTOR_LIMIT && 1 <= id <= ACTOR_LIMIT
    ensures 1 <= k <= ACTOR_LIMIT && Candidate(last, k) == id
    ensures forall j :: 1 <= j <= ACTOR_LIMIT && Candidate(last, j) == id ==> j == k
  {
    var start := last % ACTOR_LIMIT;
    k := if id > start then id - start else id - start + ACTOR_LIMIT;
  }

  /** The allocator hands out the first free id after the last one, and fails exactly if
      all the ids it tries are taken. */
  lemma {:induction false} FreeActorFirst(ms: seq<Member>, last: int, attempts: nat)
    requires 0 <= last <= ACTOR_LIMIT
    ensures var (next, found) := FreeActor(ms, last, attempts);
      match found
      case None => next == (if attempts == 0 then last else Candidate(last, attempts))
                   && forall k :: 1 <= k <= attempts ==> HasActor(ms, Candidate(last, k))
      case Some(id) => next == id && !HasActor(ms, id)
                       && exists k :: 1 <= k <= attempts && id == Candidate(last, k)
                                      && forall j :: 1 <= j < k ==> HasActor(ms, Candidate(last, j))
    decreases attempts
  {
    if attempts != 0 {
      var first := NextActor(last);
      CandidateNext(last, 0);
      if HasActor(ms, first) {
        FreeActorFirst(ms, first, attempts - 1);
        var (next, found) := FreeActor(ms, first, attempts - 1);
        forall k: nat ensures Candidate(last, k + 1) == Candidate(first, k) { CandidateNext(last, k); }
        if found.Some? {
          var k :| 1 <= k <= attempts - 1 && found.value == Candidate(first, k)
                   && forall j :: 1 <= j < k ==> HasActor(ms, Candidate(first, j));
          assert found.value == Candidate(last, k + 1);
          forall j | 1 <= j < k + 1 ensures HasActor(ms, Candidate(last, j)) {
            if j > 1 { assert Candidate(last, j - 1 + 1) == Candidate(first, j - 1); }
          }
        } else {
          forall k | 1 <= k <= attempts ensures HasActor(ms, Candidate(last, k)) {
            if k > 1 { assert Candidate(last, k - 1 + 1) == Candidate(first, k - 1); }
          }
        }
      }
    }
  }

  /** A full round fails exactly if no id is free, and then leaves the counter where it was. */
  lemma AllocatorExhausted(ms: seq<Member>, last: int)
    requires 0 <= last <= ACTOR_LIMIT
    ensures var (next, found) := FreeActor(ms, last, 254);
      && (found == None <==> forall id :: 1 <= id <= ACTOR_LIMIT ==> HasActor(ms, id))
      && (found == None && last != 0 ==> next == last)
  {
    FreeActorFirst(ms, last, 254);
    if FreeActor(ms, last, 254).1 == None {
      forall id | 1 <= id <= ACTOR_LIMIT ensures HasActor(ms, id) {
        var k := CandidatesCover(last, id);
      }
    }
  }

  function IdsUpTo(n: nat): (ids: set<int>)
    ensures |ids| == n
    ensures forall i :: i in ids <==> 1 <= i <= n
  {
    if n == 0 then {} else IdsUpTo(n - 1) + {n}
  }

  function ActorIds(ms: seq<Member>): (ids: set<int>)
    ensures |ids| <= |ms|
    ensures forall id :: id in ids <==> HasActor(ms, id)
  {
    if ms == [] then {}
    else
      var rest := ActorIds(ms[1..]);
      assert forall id :: HasActor(ms, id) <==> id == ms[0].actorId || HasActor(ms[1..], id) by {
        forall id ensures HasActor(ms, id) <==> id == ms[0].actorId || HasActor(ms[1..], id) {
          if i :| 1 <= i < |ms| && ms[i].actorId == id { assert ms[1..][i - 1].actorId == id; }
        }
      }
      {ms[0].actorId} + rest
  }

  /** With fewer than 254 members there is an id to hand out. */
  lemma Pigeonhole(ms: seq<Member>, last: int)
    requires 0 <= last <= ACTOR_LIMIT && |ms| < ACTOR_LIMIT
    ensures FreeActor(ms, last, 254).1.Some?
    ensures var id := FreeActor(ms, last, 254).1.value; 1 <= id <= ACTOR_LIMIT && !HasActor(ms, id)
  {
    FreeActorFirst(ms, last, 254);
    AllocatorExhausted(ms, last);
    if FreeActor(ms, last, 254).1 == None {
      SubsetSize(IdsUpTo(254), ActorIds(ms));
    }
  }

  /** A peer gets an actor exactly if it is there, has been authenticated, and an id is left: the first that is free. */
  lemma CreatePeerExactly(env: Env, r: Room, p: Peer)
    requires 0 <= r.lastActorId <= ACTOR_LIMIT
    ensures var (n, m) := CreatePeer(env, r, p);
      && (m.Some? <==> p in env.live && p in env.userOf && exists id :: 1 <= id <= ACTOR_LIMIT && !HasActor(r.members, id))
      && (m.Some? ==> m.value.peer == p && m.value.actorId == n.lastActorId && !HasActor(r.members, n.lastActorId)
                      && exists k :: 1 <= k <= ACTOR_LIMIT && n.lastActorId == Candidate(r.lastActorId, k)
                                     && forall j :: 1 <= j < k ==> HasActor(r.members, Candidate(r.lastActorId, j)))
      && n == r.(lastActorId := n.lastActorId)
  {
    FreeActorFirst(r.members, r.lastActorId, 254);
    AllocatorExhausted(r.members, r.lastActorId);
  }

  // ----- validation

  datatype Code = Accepted | GameIdNotExists | GameClosed | GameFull | ActorListFull | AlreadyJoined

  function Occupancy(r: Room): nat { |r.members| + r.settings.dummyPeerCount + |r.expected| }

  /** The head count once `u` and `n` more expected users have their places. */
  function FinalCount(r: Room, u: User, n: nat): nat {
    Occupancy(r) + (if u in r.expected then 0 else 1) + n
  }

  predicate Within(r: Room, cap: nat, count: nat) {
    && (r.settings.maxPeers > 0 ==> count <= r.settings.maxPeers)
    && (cap != 0 ==> count <= cap)
    && count <= 254
  }

  function Validate(env: Env, r: Room, cap: nat, u: User, n: nat, allowUncreated: bool): Code {
    var count := FinalCount(r, u, n);
    if !r.isCreated && !allowUncreated then GameIdNotExists
    else if !r.settings.isOpen then GameClosed
    else if r.settings.maxPeers > 0 && count > r.settings.maxPeers then GameFull
    else if cap != 0 && count > cap then GameFull
    else if count > 254 then ActorListFull
    else if r.settings.flags.checkUserOnJoin && HasUser(env, r.members, u) then AlreadyJoined
    else Accepted
  }

  /** The users in a request's list that do need places of their own. */
  function NewExpected(expected: set<User>, u: User, list: seq<User>): set<User> {
    set x | x in list && x != "" && x != u && x !in expected
  }

  function ValidateList(env: Env, r: Room, cap: nat, u: User, list: seq<User>, allowUncreated: bool): Code {
    Validate(env, r, cap, u, |NewExpected(r.expected, u, list)|, allowUncreated)
  }

  // ----- the two ways in

  /** Reserves places for a request's expected users. `skip` says that none are wanted,
      because the requester already has a place. Also gives the reservations that were made. */
  function ReserveAll(r: Room, u: User, skip: bool, list: seq<User>): (Room, seq<(User, nat)>)
    decreases |list|
  {
    if list == [] then (r, [])
    else if list[0] == "" || list[0] == u || skip then ReserveAll(r, u, skip, list[1..])
    else
      var (next, made) := Reserve(r, list[0]);
      var (end, rest) := ReserveAll(next, u, skip, list[1..]);
      (end, (if made.Some? then [(list[0], made.value)] else []) + rest)
  }

  datatype Joined = Joined(room: Room, code: Code, member: Option<Member>, made: seq<(User, nat)>)

  /** What a game server does for `p` under one hold of the lock. A creator brings its lease. */
  function Join(env: Env, r: Room, cap: nat, p: Peer, list: seq<User>, lease: nat): Joined
    requires env.Knows(p)
  {
    var u := env.userOf[p];
    var code := ValidateList(env, r, cap, u, list, lease != 0);
    if code != Accepted then Joined(r, code, None, [])
    else
      var (r1, made) := ReserveAll(r, u, HasPeer(r.members, p), list);
      var (r2, m) := Admit(env, r1, p, lease);
      Joined(r2, code, m, made)
  }

  function Admit(env: Env, r: Room, p: Peer, lease: nat): (Room, Option<Member>) {
    var (next, m) := CreatePeer(env, r, p);
    if m == None then (next, None)
    else
      var (end, ok) := if lease != 0 then AddPeerForCreation(env, next, m.value, p, lease) else AddPeer(env, next, m.value);
      (end, if ok then m else None)
  }

  /** The reservations that a master server makes for `u`, in whatever room it then finds. It has validated before,
      if the room was created, and not at all otherwise. */
  function Route(r: Room, u: User, list: seq<User>): (Room, seq<(User, nat)>) {
    var (next, own) := Reserve(r, u);
    var (end, made) := ReserveAll(next, u, false, list);
    (end, (if own.Some? then [(u, own.value)] else []) + made)
  }

  /** The head count that a routing leads to. An empty user takes no place. */
  function RoutedCount(r: Room, u: User, list: seq<User>): nat {
    FinalCount(r, u, |NewExpected(r.expected, u, list)|) - if u == "" && u !in r.expected then 1 else 0
  }

  /** Gives up reservations by generation, as a rolled back join or a dropped client does. */
  function Withdraw(r: Room, made: seq<(User, nat)>): Room
    decreases |made|
  {
    if made == [] then r else Withdraw(RemoveIfGeneration(r, made[0].0, made[0].1).0, made[1..])
  }

  // ----- accepted joins succeed, with the head count that was validated

  ghost predicate SameButReservations(r: Room, n: Room) {
    n == r.(expected := n.expected, generations := n.generations, nextGeneration := n.nextGeneration,
            reserved := n.reserved, callbacks := n.callbacks)
  }

  lemma ReserveFields(r: Room, u: User)
    requires Sound(r)
    ensures var n := Reserve(r, u).0;
      Sound(n) && SameButReservations(r, n) && n.expected == r.expected + (if u == "" then {} else {u})
  {
    ReserveSound(r, u);
  }

  lemma NewExpectedSkips(expected: set<User>, u: User, list: seq<User>)
    requires list != [] && (list[0] == "" || list[0] == u)
    ensures NewExpected(expected, u, list) == NewExpected(expected, u, list[1..])
  {
    forall x ensures x in list && x != "" && x != u <==> x in list[1..] && x != "" && x != u {}
  }

  lemma NewExpectedTakes(expected: set<User>, u: User, list: seq<User>)
    requires list != [] && list[0] != "" && list[0] != u
    ensures expected + NewExpected(expected, u, list)
         == (expected + {list[0]}) + NewExpected(expected + {list[0]}, u, list[1..])
  {
    forall x ensures x in list <==> x == list[0] || x in list[1..] {}
  }

  lemma {:induction false} ReserveAllExpected(r: Room, u: User, skip: bool, list: seq<User>)
    requires Sound(r)
    ensures var n := ReserveAll(r, u, skip, list).0;
      && Sound(n) && SameButReservations(r, n)
      && n.expected == r.expected + (if skip then {} else NewExpected(r.expected, u, list))
    decreases |list|
  {
    if list != [] {
      if list[0] == "" || list[0] == u || skip {
        if !skip { NewExpectedSkips(r.expected, u, list); }
        ReserveAllExpected(r, u, skip, list[1..]);
      } else {
        ReserveFields(r, list[0]);
        NewExpectedTakes(r.expected, u, list);
        ReserveAllExpected(Reserve(r, list[0]).0, u, skip, list[1..]);
      }
    }
  }

  lemma CountAfter(r: Room, u: User, made: set<User>, n: Room)
    requires made !! r.expected && u !in made
    requires |n.members| == |r.members| + 1 && n.settings == r.settings && n.expected == r.expected + made - {u}
    ensures Occupancy(n) == FinalCount(r, u, |made|)
  {
    WithoutUser(r, u, made);
  }

  /** A user already in the table takes one place fewer. */
  lemma WithoutUser(r: Room, u: User, more: set<User>)
    requires more !! r.expected && u !in more
    ensures |(r.expected + more) - {u}| == |r.expected| + |more| - (if u in r.expected then 1 else 0)
  {
    DisjointSize(r.expected, more);
    if u !in r.expected { assert (r.expected + more) - {u} == r.expected + more; }
  }

  /** What acceptance promises: every cap is kept, an actor id is left and the user is not inside. */
  lemma AcceptedMeans(env: Env, r: Room, cap: nat, u: User, list: seq<User>, allow: bool)
    requires ValidateList(env, r, cap, u, list, allow) == Accepted
    ensures |r.members| < 254 && Within(r, cap, FinalCount(r, u, |NewExpected(r.expected, u, list)|))
    ensures r.isCreated || allow
    ensures r.settings.flags.checkUserOnJoin ==> !HasUser(env, r.members, u)
  {
    if u in r.expected { SubsetSize({u}, r.expected); }
  }

  /** Who is let in: validation accepts exactly in an open room that exists or may be created, within every cap once
      the user and `n` more have places, and without the user inside where that matters. */
  lemma ValidateAccepts(env: Env, r: Room, cap: nat, u: User, n: nat, allow: bool)
    ensures var count := |r.members| + r.settings.dummyPeerCount + |r.expected + {u}| + n;
      Validate(env, r, cap, u, n, allow) == Accepted <==>
        && (r.isCreated || allow) && r.settings.isOpen
        && (r.settings.maxPeers > 0 ==> count <= r.settings.maxPeers) && (cap > 0 ==> count <= cap) && count <= 254
        && !(r.settings.flags.checkUserOnJoin && exists m <- r.members :: m.peer in env.live && m.peer in env.userOf && env.userOf[m.peer] == u)
  {
    if u in r.expected { assert r.expected + {u} == r.expected; }
    assert HasUser(env, r.members, u) <==> exists m <- r.members :: m.peer in env.live && m.peer in env.userOf && env.userOf[m.peer] == u;
  }

  /** Why anyone is turned away: each answer names the first of these conditions that fails. */
  lemma ValidateRefuses(env: Env, r: Room, cap: nat, u: User, n: nat, allow: bool)
    ensures var code, count := Validate(env, r, cap, u, n, allow), |r.members| + r.settings.dummyPeerCount + |r.expected + {u}| + n;
      var exists', open := r.isCreated || allow, r.settings.isOpen;
      var fits := (r.settings.maxPeers > 0 ==> count <= r.settings.maxPeers) && (cap > 0 ==> count <= cap);
      && (code == GameIdNotExists <==> !exists') && (code == GameClosed <==> exists' && !open)
      && (code == GameFull <==> exists' && open && !fits) && (code == ActorListFull <==> exists' && open && fits && count > 254)
      && (code == AlreadyJoined <==>
            exists' && open && fits && count <= 254 && r.settings.flags.checkUserOnJoin
            && exists m <- r.members :: m.peer in env.live && m.peer in env.userOf && env.userOf[m.peer] == u)
  {
    if u in r.expected { assert r.expected + {u} == r.expected; }
    assert HasUser(env, r.members, u) <==> exists m <- r.members :: m.peer in env.live && m.peer in env.userOf && env.userOf[m.peer] == u;
  }

  function WithMember(r: Room, m: Member, u: User): Room {
    RemoveExpected(r.(members := r.members + [m], lastActorId := m.actorId), u)
  }

  /** Allocating an actor and adding its peer succeed together when the checks of the join hold. */
  lemma AdmitSucceeds(env: Env, r: Room, p: Peer, lease: nat)
    requires ActorsSound(r) && env.Knows(p) && |r.members| < 254
    requires if lease != 0 then HoldsLease(env, r, p, lease) else !(r.isCreating && !r.isCreated)
    requires r.settings.flags.checkUserOnJoin ==> !HasUser(env, r.members, env.userOf[p])
    ensures var id := FreeActor(r.members, r.lastActorId, 254).1;
      && id.Some? && 1 <= id.value <= ACTOR_LIMIT && !HasActor(r.members, id.value)
      && Admit(env, r, p, lease) == (WithMember(r, Member(p, id.value), env.userOf[p]), Some(Member(p, id.value)))
  {
    Pigeonhole(r.members, r.lastActorId);
    FreeActorFirst(r.members, r.lastActorId, 254);
  }

  lemma WithMemberSound(r: Room, m: Member, u: User)
    requires Sound(r) && ActorsSound(r) && 1 <= m.actorId <= ACTOR_LIMIT && !HasActor(r.members, m.actorId)
    ensures var n := WithMember(r, m, u);
      Sound(n) && ActorsSound(n) && n.members == r.members + [m] && n.expected == r.expected - {u} && n.settings == r.settings
  {
    var grown := r.(members := r.members + [m], lastActorId := m.actorId);
    SameSound(r, grown);
    DroppedSound(grown, u);
    SameSound(Dropped(grown, u), RemoveExpected(grown, u));
  }

  /** A join that validation accepts cannot fail: the peer becomes a member under the first free actor
      id, its own reservation is used up and the reservations it asked for are made. */
  lemma AcceptedJoins(env: Env, r: Room, cap: nat, p: Peer, list: seq<User>, lease: nat)
    requires Sound(r) && ActorsSound(r) && env.Knows(p)
    requires if lease != 0 then HoldsLease(env, r, p, lease) else !(r.isCreated && r.isCreating)
    requires ValidateList(env, r, cap, env.userOf[p], list, lease != 0) == Accepted
    ensures var u, j := env.userOf[p], Join(env, r, cap, p, list, lease);
      var id := FreeActor(r.members, r.lastActorId, 254).1;
      && id.Some? && j.member == Some(Member(p, id.value)) && j.room.members == r.members + [Member(p, id.value)]
      && Sound(j.room) && ActorsSound(j.room) && j.room.settings == r.settings
      && j.room.expected == r.expected + (if HasPeer(r.members, p) then {} else NewExpected(r.expected, u, list)) - {u}
  {
    var u, skip := env.userOf[p], HasPeer(r.members, p);
    var (r1, made) := ReserveAll(r, u, skip, list);
    ReserveAllExpected(r, u, skip, list);
    AcceptedMeans(env, r, cap, u, list, lease != 0);
    AdmitSucceeds(env, r1, p, lease);
    var (n, m) := Admit(env, r1, p, lease);
    WithMemberSound(r1, m.value, u);
    assert Join(env, r, cap, p, list, lease) == Joined(n, Accepted, m, made);
  }

  /** The head count after an accepted join is the validated one, except that a peer which is a
      member already gets none of the places it asks for others. */
  lemma JoinCount(env: Env, r: Room, cap: nat, p: Peer, list: seq<User>, lease: nat)
    requires Sound(r) && ActorsSound(r) && env.Knows(p)
    requires if lease != 0 then HoldsLease(env, r, p, lease) else !(r.isCreated && r.isCreating)
    requires ValidateList(env, r, cap, env.userOf[p], list, lease != 0) == Accepted
    ensures var u := env.userOf[p];
      var count, predicted := Occupancy(Join(env, r, cap, p, list, lease).room), FinalCount(r, u, |NewExpected(r.expected, u, list)|);
      count <= predicted && (count == predicted <==> !HasPeer(r.members, p) || NewExpected(r.expected, u, list) == {})
  {
    var u := env.userOf[p];
    var made := if HasPeer(r.members, p) then {} else NewExpected(r.expected, u, list);
    AcceptedJoins(env, r, cap, p, list, lease);
    CountAfter(r, u, made, Join(env, r, cap, p, list, lease).room);
  }

  /** A routing makes exactly the reservations that validation would count, in any room. */
  lemma RouteReserves(r: Room, u: User, list: seq<User>)
    requires Sound(r)
    ensures var n := Route(r, u, list).0;
      Sound(n) && SameButReservations(r, n)
      && n.expected == r.expected + (if u == "" then {} else {u}) + NewExpected(r.expected, u, list)
  {
    ReserveFields(r, u);
    ReserveAllExpected(Reserve(r, u).0, u, false, list);
    NewExpectedIgnores(r.expected, u, list);
    assert r.expected + {} == r.expected;
  }

  /** The head count after a routing, whatever the list repeats or already holds. */
  lemma RouteCount(r: Room, u: User, list: seq<User>)
    requires Sound(r)
    ensures Occupancy(Route(r, u, list).0) == RoutedCount(r, u, list)
  {
    RouteReserves(r, u, list);
    RouteSize(r.expected, u, NewExpected(r.expected, u, list));
  }

  lemma NewExpectedIgnores(expected: set<User>, u: User, list: seq<User>)
    ensures NewExpected(expected + {u}, u, list) == NewExpected(expected, u, list)
  {}

  lemma RouteSize(expected: set<User>, u: User, more: set<User>)
    requires more !! expected && u !in more
    ensures |expected + (if u == "" then {} else {u}) + more| == |expected| + (if u == "" || u in expected then 0 else 1) + |more|
  {
    if u == "" || u in expected {
      assert expected + (if u == "" then {} else {u}) == expected;
      DisjointSize(expected, more);
    } else {
      DisjointSize(expected + {u}, more);
      DisjointSize(expected, {u});
    }
  }

  /** Nobody gets into a closed room: a join leaves it as it was. */
  lemma ClosedRoom(env: Env, r: Room, cap: nat, p: Peer, list: seq<User>, lease: nat)
    requires env.Knows(p) && !r.settings.isOpen
    ensures var j := Join(env, r, cap, p, list, lease); j.room == r && j.member == None && j.made == [] && j.code != Accepted
  {
    ValidateAccepts(env, r, cap, env.userOf[p], |NewExpected(r.expected, env.userOf[p], list)|, lease != 0);
  }

  // ----- members added past the handler's own validation

  /** No two live members are the same user. */
  ghost predicate UsersDistinct(env: Env, ms: seq<Member>) {
    forall i, j :: 0 <= i < j < |ms| && env.Knows(ms[i].peer) && env.Knows(ms[j].peer) ==>
      env.userOf[ms[i].peer] != env.userOf[ms[j].peer]
  }

  /** Whatever is added, no two members have one actor id, and where users are checked no user is inside twice. */
  lemma AddedDistinct(env: Env, r: Room, m: Member, p: Peer, lease: nat)
    requires Distinct(r.members) && (r.settings.flags.checkUserOnJoin ==> UsersDistinct(env, r.members))
    ensures forall n <- [AddPeer(env, r, m), AddPeerForCreation(env, r, m, p, lease)] ::
      && Distinct(n.0.members) && (r.settings.flags.checkUserOnJoin ==> UsersDistinct(env, n.0.members))
      && n.0.members == (if n.1 then r.members + [m] else r.members) && (n.1 ==> m.peer in env.live && m.peer in env.userOf)
  {
    if Admits(env, r, m) { MoreDistinct(env, r, m); }
  }

  lemma MoreDistinct(env: Env, r: Room, m: Member)
    requires Distinct(r.members) && Admits(env, r, m)
    ensures Distinct(r.members + [m])
    ensures r.settings.flags.checkUserOnJoin && UsersDistinct(env, r.members) ==> UsersDistinct(env, r.members + [m])
  {
    assert forall i :: 0 <= i < |r.members| ==> r.members[i].actorId != m.actorId;
  }

  /** A room that nobody has begun to create does take a member that is added to it directly, and then
      no creation can begin. Joins keep out of this: without a lease they do not touch such a room. */
  lemma IdleRoom(env: Env, r: Room, m: Member, p: Peer, cap: nat, list: seq<User>)
    requires !r.isCreated && !r.isCreating
    ensures AddPeer(env, r, m).1 <==> Admits(env, r, m)
    ensures AddPeer(env, r, m).1 ==> TryBegin(AddPeer(env, r, m).0, p) == (AddPeer(env, r, m).0, 0)
    ensures env.Knows(p) ==> Join(env, r, cap, p, list, 0) == Joined(r, GameIdNotExists, None, [])
  {}
}
