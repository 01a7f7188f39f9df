/** Poll groups: each serves up to 32 sockets, and their queue keeps the full ones in front. */
module PollGroups {
  type Gid = nat

  const MAX_GROUP_SIZE: nat := 32

  datatype Group = Group(id: Gid, size: nat)

  /** The groups in the order of their queue. */
  type Pool = seq<Group>

  predicate Has(p: Pool, g: Gid) { exists i :: 0 <= i < |p| && p[i].id == g }

  function IndexOf(p: Pool, g: Gid): (k: nat)
    requires Has(p, g)
    ensures k < |p| && p[k].id == g && forall i :: 0 <= i < k ==> p[i].id != g
  {
    if p[0].id == g then 0
    else
      assert Has(p[1..], g) by { var i :| 0 <= i < |p| && p[i].id == g; assert p[1..][i - 1].id == g; }
      IndexOf(p[1..], g) + 1
  }

  function SizeOf(p: Pool, g: Gid): nat { if Has(p, g) then p[IndexOf(p, g)].size else 0 }

  /** Takes a place in the last group, or in a new one if that is full. `next` is the new group,
      and `created` says whether making it succeeds. The group joined is the third result. */
  function Acquire(p: Pool, next: Gid, created: bool): (Pool, bool, Gid) {
    if p != [] && p[|p| - 1].size < MAX_GROUP_SIZE then (Taken(p), true, p[|p| - 1].id)
    else if !created then (p, false, next)
    else (Taken(p + [Group(next, 0)]), true, next)
  }

  function Taken(p: Pool): (q: Pool)
    requires p != []
    ensures |q| == |p|
  {
    var n := |p| - 1;
    var g := Group(p[n].id, p[n].size + 1);
    if g.size == MAX_GROUP_SIZE then [g] + p[..n] else p[..n] + [g]
  }

  function Release(p: Pool, g: Gid): Pool
    requires SizeOf(p, g) > 0
  {
    var k := IndexOf(p, g);
    p[..k] + p[k + 1..] + [Group(g, p[k].size - 1)]
  }

  // ----- packing

  ghost predicate Sound(p: Pool) {
    && (forall i, j :: 0 <= i < j < |p| ==> p[i].id != p[j].id)
    && (forall i :: 0 <= i < |p| ==> p[i].size <= MAX_GROUP_SIZE)
  }

  /** The first `k` groups are full and the others are not. */
  ghost predicate Ordered(p: Pool, k: nat) {
    && k <= |p|
    && (forall i :: 0 <= i < k ==> p[i].size == MAX_GROUP_SIZE) && (forall i :: k <= i < |p| ==> p[i].size < MAX_GROUP_SIZE)
  }

  function Total(p: Pool): nat { if p == [] then 0 else p[0].size + Total(p[1..]) }

  lemma {:induction false} TotalConcat(p: Pool, q: Pool)
    ensures Total(p + q) == Total(p) + Total(q)
  {
    if p == [] { assert p + q == q; } else {
      assert (p + q)[1..] == p[1..] + q;
      TotalConcat(p[1..], q);
    }
  }

  lemma {:induction false} TotalFull(p: Pool)
    requires Ordered(p, |p|)
    ensures Total(p) == MAX_GROUP_SIZE * |p|
  {
    if p != [] { TotalFull(p[1..]); }
  }

  /** The number of groups that `n` places need. */
  function Needed(n: nat): nat { (n + MAX_GROUP_SIZE - 1) / MAX_GROUP_SIZE }

  /** The full groups come first, and there are as many groups as the highest number of places
      ever taken at once needs. */
  ghost predicate Packed(p: Pool, peak: nat) {
    Sound(p) && (exists k: nat :: Ordered(p, k)) && Total(p) <= peak && |p| == Needed(peak)
  }

  lemma TakenSound(p: Pool)
    requires p != [] && Sound(p) && p[|p| - 1].size < MAX_GROUP_SIZE
    ensures Sound(Taken(p))
  {
    var q := Taken(p);
    if p[|p| - 1].size + 1 == MAX_GROUP_SIZE {
      assert forall i :: 0 < i < |q| ==> q[i] == p[i - 1];
    }
  }

  lemma TakenOrdered(p: Pool, k: nat)
    requires p != [] && Ordered(p, k) && k < |p|
    ensures Ordered(Taken(p), if p[|p| - 1].size + 1 == MAX_GROUP_SIZE then k + 1 else k)
  {}

  lemma TakenTotal(p: Pool)
    requires p != []
    ensures Total(Taken(p)) == Total(p) + 1
  {
    var n := |p| - 1;
    assert p == p[..n] + [p[n]];
    TotalConcat(p[..n], [p[n]]);
    TotalConcat(p[..n], [Group(p[n].id, p[n].size + 1)]);
    TotalConcat([Group(p[n].id, p[n].size + 1)], p[..n]);
  }

  lemma ReleaseSound(p: Pool, g: Gid)
    requires Sound(p) && SizeOf(p, g) > 0
    ensures Sound(Release(p, g))
  {}

  lemma ReleaseOrdered(p: Pool, g: Gid, k: nat)
    requires Sound(p) && Ordered(p, k) && SizeOf(p, g) > 0
    ensures Ordered(Release(p, g), if IndexOf(p, g) < k then k - 1 else k)
  {}

  lemma ReleaseTotal(p: Pool, g: Gid)
    requires SizeOf(p, g) > 0
    ensures Total(Release(p, g)) == Total(p) - 1
  {
    var j := IndexOf(p, g);
    var last := Group(g, p[j].size - 1);
    assert p == p[..j] + ([p[j]] + p[j + 1..]);
    TotalConcat(p[..j], [p[j]] + p[j + 1..]);
    TotalConcat([p[j]], p[j + 1..]);
    TotalConcat(p[..j] + p[j + 1..], [last]);
    TotalConcat(p[..j], p[j + 1..]);
  }

  /** A new group is made only when all the others are full, so their number stays exact. */
  lemma AcquirePacked(p: Pool, peak: nat, next: Gid, created: bool)
    requires Packed(p, peak) && !Has(p, next)
    ensures var (q, ok, g) := Acquire(p, next, created);
      && Total(q) == Total(p) + (if ok then 1 else 0)
      && Packed(q, if Total(q) > peak then Total(q) else peak)
      && (!ok <==> !created && Total(p) == MAX_GROUP_SIZE * |p|)
  {
    var k: nat :| Ordered(p, k);
    if k < |p| {
      AcquireOld(p, k);
      if Total(p) + 1 > peak { NeededSame(|p|, peak, Total(p) + 1); }
    } else {
      TotalFull(p);
      if created {
        AcquireNew(p, next);
        NeededNext(|p|, peak);
      }
    }
  }

  lemma NeededNext(n: nat, peak: nat)
    requires n == Needed(peak) && MAX_GROUP_SIZE * n <= peak
    ensures peak == MAX_GROUP_SIZE * n && Needed(MAX_GROUP_SIZE * n + 1) == n + 1
  {}

  lemma NeededSame(n: nat, peak: nat, higher: nat)
    requires n == Needed(peak) && peak < higher <= MAX_GROUP_SIZE * n
    ensures Needed(higher) == n
  {}

  lemma AcquireOld(p: Pool, k: nat)
    requires Sound(p) && Ordered(p, k) && k < |p|
    ensures p[|p| - 1].size < MAX_GROUP_SIZE
    ensures Sound(Taken(p)) && (exists j: nat :: Ordered(Taken(p), j)) && Total(Taken(p)) == Total(p) + 1 <= MAX_GROUP_SIZE * |p|
  {
    assert p[|p| - 1].size < MAX_GROUP_SIZE;
    TakenSound(p);
    TakenOrdered(p, k);
    TakenTotal(p);
    TotalBelow(p, k);
  }

  lemma WideSound(p: Pool, next: Gid)
    requires Sound(p) && Ordered(p, |p|) && !Has(p, next)
    ensures var wide := p + [Group(next, 0)]; Sound(wide) && Ordered(wide, |p|)
  {}

  lemma AcquireNew(p: Pool, next: Gid)
    requires Sound(p) && Ordered(p, |p|) && !Has(p, next)
    ensures var q := Taken(p + [Group(next, 0)]); Sound(q) && Ordered(q, |p|) && Total(q) == Total(p) + 1
  {
    var wide := p + [Group(next, 0)];
    TotalConcat(p, [Group(next, 0)]);
    assert wide[|p|].size == 0 && wide[..|p|] == p;
    WideSound(p, next);
    TakenSound(wide);
    TakenOrdered(wide, |p|);
    TakenTotal(wide);
  }

  /** A group that is not full leaves the total short. */
  lemma {:induction false} TotalBelow(p: Pool, k: nat)
    requires Ordered(p, k) && k < |p|
    ensures Total(p) < MAX_GROUP_SIZE * |p|
  {
    if k > 0 {
      TotalBelow(p[1..], k - 1);
    } else {
      if |p| > 1 { TotalBelow(p[1..], 0); }
    }
  }

  lemma ReleasePacked(p: Pool, peak: nat, g: Gid)
    requires Packed(p, peak) && SizeOf(p, g) > 0
    ensures Packed(Release(p, g), peak) && Total(Release(p, g)) == Total(p) - 1
  {
    var k: nat :| Ordered(p, k);
    ReleaseSound(p, g);
    ReleaseOrdered(p, g, k);
    ReleaseTotal(p, g);
  }

  // ----- runs

  datatype Op = Take(next: Gid, created: bool) | Give(group: Gid)

  /** New groups are new objects, and only places that are taken are given back. */
  function ApplyOp(p: Pool, op: Op): Pool {
    match op
    case Take(next, created) => if Has(p, next) then p else Acquire(p, next, created).0
    case Give(g) => if SizeOf(p, g) == 0 then p else Release(p, g)
  }

  function RunOps(p: Pool, ops: seq<Op>): Pool
    decreases |ops|
  {
    if ops == [] then p else RunOps(ApplyOp(p, ops[0]), ops[1..])
  }

  /** The highest number of places taken at once during a run, or `peak` if that is higher. */
  function Peak(p: Pool, ops: seq<Op>, peak: nat): nat
    decreases |ops|
  {
    var higher := if Total(p) > peak then Total(p) else peak;
    if ops == [] then higher else Peak(ApplyOp(p, ops[0]), ops[1..], higher)
  }

  lemma {:induction false} RunPacked(p: Pool, ops: seq<Op>, peak: nat)
    requires Packed(p, peak)
    ensures Packed(RunOps(p, ops), Peak(p, ops, peak))
    decreases |ops|
  {
    if ops != [] {
      var q := ApplyOp(p, ops[0]);
      match ops[0]
      case Take(next, created) =>
        if !Has(p, next) { AcquirePacked(p, peak, next, created); }
        RunPacked(q, ops[1..], if Total(q) > peak then Total(q) else peak);
        PeakAbsorbs(q, ops[1..], peak);
      case Give(g) =>
        if SizeOf(p, g) > 0 { ReleasePacked(p, peak, g); }
        RunPacked(q, ops[1..], peak);
    }
  }

  lemma PeakAbsorbs(p: Pool, ops: seq<Op>, peak: nat)
    ensures Peak(p, ops, if Total(p) > peak then Total(p) else peak) == Peak(p, ops, peak)
  {}

  /** From an empty pool on, the number of groups is exactly what the peak needs: never one too many. */
  lemma GroupsNeeded(ops: seq<Op>)
    ensures |RunOps([], ops)| == Needed(Peak([], ops, 0))
  {
    assert Ordered([], 0);
    RunPacked([], ops, 0);
  }

  // ----- sizes by group

  lemma SizeAt(p: Pool, i: nat)
    requires Sound(p) && i < |p|
    ensures Has(p, p[i].id) && SizeOf(p, p[i].id) == p[i].size
  {}

  /** Where the group that is at `i` in `p` is once the last group has gained a socket. */
  function TakenAt(p: Pool, i: nat): (k: nat)
    requires i < |p|
    ensures k < |p|
  {
    if p[|p| - 1].size + 1 == MAX_GROUP_SIZE then if i == |p| - 1 then 0 else i + 1 else i
  }

  lemma TakenEntry(p: Pool, i: nat)
    requires i < |p|
    ensures Taken(p)[TakenAt(p, i)] == Group(p[i].id, p[i].size + if i == |p| - 1 then 1 else 0)
  {}

  lemma TakenHas(p: Pool, x: Gid)
    requires p != [] && Has(Taken(p), x)
    ensures Has(p, x)
  {
    var k :| 0 <= k < |p| && Taken(p)[k].id == x;
    var i := if p[|p| - 1].size + 1 == MAX_GROUP_SIZE then if k == 0 then |p| - 1 else k - 1 else k;
    assert p[i].id == x;
  }

  lemma TakenSizeOf(p: Pool, x: Gid)
    requires p != [] && Sound(p) && p[|p| - 1].size < MAX_GROUP_SIZE
    ensures SizeOf(Taken(p), x) == SizeOf(p, x) + (if x == p[|p| - 1].id then 1 else 0)
  {
    TakenSound(p);
    if Has(p, x) {
      var i := IndexOf(p, x);
      TakenEntry(p, i);
      SizeAt(p, i);
      SizeAt(Taken(p), TakenAt(p, i));
      assert x == p[|p| - 1].id ==> i == |p| - 1;
    } else if Has(Taken(p), x) {
      TakenHas(p, x);
    }
  }

  lemma WideSizeOf(p: Pool, next: Gid, x: Gid)
    requires Sound(p) && !Has(p, next)
    ensures Sound(p + [Group(next, 0)]) && SizeOf(p + [Group(next, 0)], x) == SizeOf(p, x)
  {
    var wide := p + [Group(next, 0)];
    if Has(p, x) {
      var i := IndexOf(p, x);
      assert wide[i] == p[i];
      SizeAt(wide, i);
    } else if Has(wide, x) {
      assert x == next && wide[|p|].id == next;
      SizeAt(wide, |p|);
    }
  }

  /** Acquiring adds one to the size of one group. */
  lemma AcquireSizeOf(p: Pool, next: Gid, created: bool, x: Gid)
    requires Sound(p) && !Has(p, next)
    ensures var (q, ok, g) := Acquire(p, next, created);
      && Sound(q) && SizeOf(q, x) == SizeOf(p, x) + (if ok && x == g then 1 else 0)
      && (!ok ==> q == p)
  {
    if p != [] && p[|p| - 1].size < MAX_GROUP_SIZE {
      TakenSound(p);
      TakenSizeOf(p, x);
    } else if created {
      WideSizeOf(p, next, x);
      TakenSound(p + [Group(next, 0)]);
      TakenSizeOf(p + [Group(next, 0)], x);
    }
  }

  /** Releasing takes one from the size of the group. */
  lemma ReleaseSizeOf(p: Pool, g: Gid, x: Gid)
    requires Sound(p) && SizeOf(p, g) > 0
    ensures Sound(Release(p, g)) && SizeOf(Release(p, g), x) == SizeOf(p, x) - (if x == g then 1 else 0)
  {
    var q, k, n := Release(p, g), IndexOf(p, g), |p| - 1;
    ReleaseSound(p, g);
    SizeAt(q, n);
    assert forall i :: 0 <= i < n ==> q[i] == p[if i < k then i else i + 1];
    if x != g && Has(p, x) {
      var i := IndexOf(p, x);
      SizeAt(q, if i < k then i else i - 1);
    }
  }
}
