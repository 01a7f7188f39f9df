/** Who leaves a room with a peer, whose events leave the cache with it, and who is master then. */
module RoomLeaving {
  import opened Sequences
  import opened Room
  import opened RoomAdmission

  lemma {:induction false} KeepPicks(ms: seq<Member>, keep: Member -> bool) returns (at: seq<nat>)
    ensures Picks(ms, Keep(ms, keep), at, keep)
  {
    at := [];
    if ms != [] {
      at := KeepPicks(ms[1..], keep);
      at := PicksMore(ms, Keep(ms[1..], keep), at, keep);
    }
  }

  lemma {:induction false} CachePicks(cache: seq<Event>, ms: seq<Member>, p: Peer, stays: Event -> bool) returns (at: seq<nat>)
    requires forall e <- cache :: stays(e) <==> !SentBy(ms, p, e)
    ensures Picks(cache, CacheWithout(cache, ms, p), at, stays)
  {
    at := [];
    if cache != [] {
      at := CachePicks(cache[1..], ms, p, stays);
      at := PicksMore(cache, CacheWithout(cache[1..], ms, p), at, stays);
    }
  }

  /** The last entry of `p`. */
  ghost predicate LastEntry(ms: seq<Member>, p: Peer, i: nat) {
    i < |ms| && ms[i].peer == p && forall j :: i < j < |ms| ==> ms[j].peer != p
  }

  lemma {:induction false} LeavingIsLast(ms: seq<Member>, p: Peer, i: nat)
    requires LastEntry(ms, p, i)
    ensures LeavingActor(ms, p) == ms[i].actorId
  {
    var n := |ms| - 1;
    if i < n { LeavingIsLast(ms[..n], p, i); }
  }

  lemma {:induction false} NobodyLeaves(ms: seq<Member>, p: Peer)
    requires !HasPeer(ms, p)
    ensures LeavingActor(ms, p) == 0
  {
    if ms != [] { NobodyLeaves(ms[..|ms| - 1], p); }
  }

  /** Every other live member stays; the entries of the peer and of peers that are gone are retired. Both keep their order. */
  lemma LeaveMembers(env: Env, r: Room, p: Peer) returns (staying: seq<nat>, leaving: seq<nat>)
    ensures var n := RemovePeer(env, r, p).0;
      && Picks(r.members, n.members, staying, (m: Member) => m.peer in env.live && m.peer != p)
      && r.retired <= n.retired
      && Picks(r.members, n.retired[|r.retired|..], leaving, (m: Member) => !(m.peer in env.live && m.peer != p))
  {
    staying := KeepPicks(r.members, Staying(env, p));
    leaving := KeepPicks(r.members, Leaving(env, p));
  }

  /** Where that is set, exactly the cached events of the leaving peer's actors go, and those of the system stay. */
  lemma LeaveEvents(env: Env, r: Room, p: Peer) returns (at: seq<nat>)
    ensures var cache, left := r.settings.eventCache, RemovePeer(env, r, p).0.settings.eventCache;
      if !r.settings.flags.deleteCacheOnLeave then left == cache
      else Picks(cache, left, at, (e: Event) => e.sender == 0 || forall m <- r.members :: m.peer == p ==> m.actorId != e.sender)
  {
    var ms := r.members;
    var stays := (e: Event) => e.sender == 0 || forall m <- ms :: m.peer == p ==> m.actorId != e.sender;
    forall e <- r.settings.eventCache ensures stays(e) <==> !SentBy(ms, p, e) {
      if !SentBy(ms, p, e) && e.sender != 0 {
        forall m <- ms ensures m.peer == p ==> m.actorId != e.sender {}
      }
    }
    at := CachePicks(r.settings.eventCache, ms, p, stays);
  }

  /** A peer that is a member leaves with success. If the actor that leaves last was the master and somebody stays, the first
      who stays becomes master; in every other case, and if the peer was no member, the master is as before. */
  lemma LeaveMaster(env: Env, r: Room, p: Peer)
    requires ActorsSound(r)
    ensures var (n, ok) := RemovePeer(env, r, p); var before, now := r.settings.masterActor, n.settings.masterActor;
      && (ok <==> HasPeer(r.members, p)) && (!ok ==> now == before)
      && (forall i: nat :: LastEntry(r.members, p, i) ==>
            now == if n.members != [] && r.members[i].actorId == before then n.members[0].actorId else before)
      && n.settings == r.settings.(eventCache := n.settings.eventCache, masterActor := now)
      && n == r.(members := n.members, retired := n.retired, settings := n.settings)
  {
    if HasPeer(r.members, p) {
      var i := FindLast(r.members, p);
      LeavingIsLast(r.members, p, i);
      forall j: nat | LastEntry(r.members, p, j) ensures j == i { assert !(j < i) && !(i < j); }
    } else {
      NobodyLeaves(r.members, p);
    }
  }

  lemma FindLast(ms: seq<Member>, p: Peer) returns (i: nat)
    requires HasPeer(ms, p)
    ensures LastEntry(ms, p, i)
  {
    i := |ms| - 1;
    while ms[i].peer != p
      invariant i < |ms| && forall j :: i < j < |ms| ==> ms[j].peer != p
      decreases i
    {
      i := i - 1;
    }
  }
}
