/** The mathematics of a red-black tree, independent of how its nodes are stored.
    A `Shape` is a tree value; a `Ctx` is a shape with one subtree missing, read from
    the hole upwards. A pair of both is what a loop that walks parent links stands on. */
module TreeShape {
  import opened Sequences

  /** Keys are machine words (uintptr_t). */
  const KEY_LIMIT: int := 0x1_0000_0000_0000_0000
  type Key = k: nat | k < KEY_LIMIT

  /** The two directions that the source's rotation macros take as `cis` and `trans`. */
  datatype Side = Left | Right {
    function Opposite(): Side { if Left? then Right else Left }
  }

  datatype Shape<N> =
    | Nil
    | Br(n: N, key: Key, red: bool, left: Shape<N>, right: Shape<N>)
  {
    predicate IsRed() { Br? && red }

    function Kid(s: Side): Shape<N>
      requires Br?
    {
      if s.Left? then left else right
    }

    ghost function Nodes(): set<N> {
      if Nil? then {} else {n} + left.Nodes() + right.Nodes()
    }

    ghost function Entries(): set<(Key, N)> {
      if Nil? then {} else {(key, n)} + left.Entries() + right.Entries()
    }

    predicate Has(k: Key) { Br? && (k == key || left.Has(k) || right.Has(k)) }

    /** Search order: every key lies strictly between the bounds its ancestors give it. */
    ghost predicate Bst(lo: int, hi: int) {
      Br? ==> lo < key < hi && left.Bst(lo, key) && right.Bst(key, hi)
    }

    /** Every path down crosses exactly `h` black nodes. */
    ghost predicate Balanced(h: int) {
      if Nil? then h == 0
      else
        var below := if red then h else h - 1;
        h >= (if red then 0 else 1) && left.Balanced(below) && right.Balanced(below)
    }

    ghost predicate NoRedRed() {
      Br? ==>
        && (red ==> !left.IsRed() && !right.IsRed())
        && left.NoRedRed() && right.NoRedRed()
    }

    function Height(): nat {
      if Nil? then 0 else
        var l, r := left.Height(), right.Height();
        1 + if l < r then r else l
    }

    /** The colour rules of a red-black tree. */
    ghost predicate Sound() {
      NoRedRed() && !IsRed() && exists h: nat :: Balanced(h)
    }

    ghost predicate RedBlack() {
      Bst(-1, KEY_LIMIT) && Sound()
    }
  }

  function Make<N>(n: N, key: Key, red: bool, s: Side, cis: Shape<N>, trans: Shape<N>): Shape<N> {
    if s.Left? then Br(n, key, red, cis, trans) else Br(n, key, red, trans, cis)
  }

  /** A frame `In(n, key, red, s, sib, up)`: the hole is the child of `n` on side `s`,
      `sib` is the child on the other side, `up` is what lies above `n`. */
  datatype Ctx<N> =
    | Top
    | In(n: N, key: Key, red: bool, s: Side, sib: Shape<N>, up: Ctx<N>)
  {
    predicate IsRed() { In? && red }

    ghost function Nodes(): set<N> {
      if Top? then {} else {n} + sib.Nodes() + up.Nodes()
    }

    ghost function Entries(): set<(Key, N)> {
      if Top? then {} else {(key, n)} + sib.Entries() + up.Entries()
    }

    predicate Has(k: Key) { In? && (k == key || sib.Has(k) || up.Has(k)) }

    /** The open interval of keys that fit into the hole. */
    function Lo(): int { if Top? then -1 else if s.Left? then up.Lo() else key }
    function Hi(): int { if Top? then KEY_LIMIT else if s.Left? then key else up.Hi() }

    ghost predicate Bst() {
      In? ==>
        && up.Lo() < key < up.Hi()
        && (if s.Left? then sib.Bst(key, up.Hi()) else sib.Bst(up.Lo(), key))
        && up.Bst()
    }

    /** Balanced once the hole is filled by a tree of black height `h`. */
    ghost predicate Balanced(h: int) {
      In? ==> sib.Balanced(h) && up.Balanced(if red then h else h + 1)
    }

    ghost predicate NoRedRed() {
      In? ==>
        && (red ==> !sib.IsRed() && !up.IsRed())
        && sib.NoRedRed() && up.NoRedRed()
    }

    /** The topmost node, the root of the whole tree, is black. */
    ghost predicate BlackTop() {
      In? ==> if up.Top? then !red else up.BlackTop()
    }

    function Depth(): nat { if Top? then 0 else 1 + up.Depth() }
  }

  function Plug<N>(c: Ctx<N>, t: Shape<N>): Shape<N> {
    if c.Top? then t else Plug(c.up, Make(c.n, c.key, c.red, c.s, t, c.sib))
  }

  /** The rotation of the source: `trans` child of the root becomes the root. */
  function Rotated<N>(t: Shape<N>, cis: Side): Shape<N>
    requires t.Br? && t.Kid(cis.Opposite()).Br?
  {
    var q := t.Kid(cis.Opposite());
    Make(q.n, q.key, q.red, cis,
         Make(t.n, t.key, t.red, cis, t.Kid(cis), q.Kid(cis)),
         q.Kid(cis.Opposite()))
  }

  /** A rotation keeps the nodes and the entries. */
  lemma RotatedParts<N>(t: Shape<N>, cis: Side)
    requires t.Br? && t.Kid(cis.Opposite()).Br?
    ensures Rotated(t, cis).Nodes() == t.Nodes()
    ensures Rotated(t, cis).Entries() == t.Entries()
  {
    var a, q := t.Kid(cis), t.Kid(cis.Opposite());
    var b, d := q.Kid(cis), q.Kid(cis.Opposite());
    assert t.Nodes() == {t.n} + a.Nodes() + ({q.n} + b.Nodes() + d.Nodes());
  }

  /** A rotation keeps the search order. */
  lemma RotatedBst<N>(t: Shape<N>, cis: Side, lo: int, hi: int)
    requires t.Br? && t.Kid(cis.Opposite()).Br? && t.Bst(lo, hi)
    ensures Rotated(t, cis).Bst(lo, hi)
  {
    assert t.Kid(cis.Opposite()).Bst(if cis.Left? then t.key else lo, if cis.Left? then hi else t.key);
  }

  // ----- a hole and its filling against the whole tree

  lemma {:induction false} PlugParts<N>(c: Ctx<N>, t: Shape<N>)
    ensures Plug(c, t).Nodes() == c.Nodes() + t.Nodes()
    ensures Plug(c, t).Entries() == c.Entries() + t.Entries()
  {
    if c.In? {
      PlugParts(c.up, Make(c.n, c.key, c.red, c.s, t, c.sib));
    }
  }

  lemma {:induction false} PlugBst<N>(c: Ctx<N>, t: Shape<N>)
    ensures Plug(c, t).Bst(-1, KEY_LIMIT) <==> c.Bst() && t.Bst(c.Lo(), c.Hi())
  {
    if c.In? {
      PlugBst(c.up, Make(c.n, c.key, c.red, c.s, t, c.sib));
    }
  }

  lemma {:induction false} PlugBalanced<N>(c: Ctx<N>, t: Shape<N>, h: int)
    requires t.Balanced(h) && c.Balanced(h)
    ensures exists g: nat :: Plug(c, t).Balanced(g)
  {
    BalancedNat(t, h);
    if c.In? {
      var t' := Make(c.n, c.key, c.red, c.s, t, c.sib);
      PlugBalanced(c.up, t', if c.red then h else h + 1);
      var g: nat :| Plug(c.up, t').Balanced(g);
      assert Plug(c, t).Balanced(g);
    } else {
      assert Plug(c, t).Balanced(h);
    }
  }

  lemma BalancedNat<N>(t: Shape<N>, h: int)
    requires t.Balanced(h)
    ensures h >= 0
  {}

  lemma {:induction false} UnplugBalanced<N>(c: Ctx<N>, t: Shape<N>, g: int) returns (h: int)
    requires Plug(c, t).Balanced(g)
    ensures t.Balanced(h) && c.Balanced(h)
  {
    if c.Top? {
      h := g;
    } else {
      var k := UnplugBalanced(c.up, Make(c.n, c.key, c.red, c.s, t, c.sib), g);
      h := if c.red then k else k - 1;
    }
  }

  lemma {:induction false} PlugNoRedRed<N>(c: Ctx<N>, t: Shape<N>)
    ensures Plug(c, t).NoRedRed() <==> c.NoRedRed() && t.NoRedRed() && !(c.IsRed() && t.IsRed())
  {
    if c.In? {
      PlugNoRedRed(c.up, Make(c.n, c.key, c.red, c.s, t, c.sib));
    }
  }

  lemma {:induction false} PlugTop<N>(c: Ctx<N>, t: Shape<N>)
    ensures !Plug(c, t).IsRed() <==> if c.Top? then !t.IsRed() else c.BlackTop()
  {
    if c.In? {
      PlugTop(c.up, Make(c.n, c.key, c.red, c.s, t, c.sib));
    }
  }

  /** Where a node of the tree sits: the context around it and the subtree below it. */
  lemma {:induction false} FindNode<N>(c: Ctx<N>, t: Shape<N>, x: N) returns (d: Ctx<N>, u: Shape<N>)
    requires x in t.Nodes()
    ensures u.Br? && u.n == x && Plug(d, u) == Plug(c, t)
    decreases t
  {
    if t.n == x {
      d, u := c, t;
    } else if x in t.left.Nodes() {
      d, u := FindNode(In(t.n, t.key, t.red, Left, t.right, c), t.left, x);
    } else {
      d, u := FindNode(In(t.n, t.key, t.red, Right, t.left, c), t.right, x);
    }
  }

  // ----- keys and entries

  lemma {:induction false} EntryBounds<N>(t: Shape<N>, lo: int, hi: int, k: Key, x: N)
    requires t.Bst(lo, hi) && (k, x) in t.Entries()
    ensures lo < k < hi && x in t.Nodes()
  {
    if (k, x) == (t.key, t.n) {
      BstOrder(t, lo, hi);
    } else if (k, x) in t.left.Entries() {
      EntryBounds(t.left, lo, t.key, k, x);
    } else {
      EntryBounds(t.right, t.key, hi, k, x);
    }
  }

  lemma BstOrder<N>(t: Shape<N>, lo: int, hi: int)
    requires t.Bst(lo, hi) && t.Br?
    ensures lo < t.key < hi
  {}

  lemma {:induction false} BstWeaken<N>(t: Shape<N>, lo: int, hi: int, lo': int, hi': int)
    requires t.Bst(lo, hi) && lo' <= lo && hi <= hi'
    ensures t.Bst(lo', hi')
  {
    if t.Br? {
      BstWeaken(t.left, lo, t.key, lo', t.key);
      BstWeaken(t.right, t.key, hi, t.key, hi');
    }
  }

  /** A key names at most one node. */
  lemma {:induction false} EntriesFunctional<N>(t: Shape<N>, lo: int, hi: int, k: Key, x: N, y: N)
    requires t.Bst(lo, hi) && (k, x) in t.Entries() && (k, y) in t.Entries()
    ensures x == y
  {
    if (k, x) in t.left.Entries() {
      EntryBounds(t.left, lo, t.key, k, x);
    } else if (k, x) in t.right.Entries() {
      EntryBounds(t.right, t.key, hi, k, x);
    }
    if (k, y) in t.left.Entries() {
      EntryBounds(t.left, lo, t.key, k, y);
      if (k, x) in t.left.Entries() { EntriesFunctional(t.left, lo, t.key, k, x, y); }
    } else if (k, y) in t.right.Entries() {
      EntryBounds(t.right, t.key, hi, k, y);
      if (k, x) in t.right.Entries() { EntriesFunctional(t.right, t.key, hi, k, x, y); }
    }
  }

  lemma {:induction false} HasEntry<N>(t: Shape<N>, k: Key)
    ensures t.Has(k) <==> exists e <- t.Entries() :: e.0 == k
  {
    if t.Br? {
      HasEntry(t.left, k);
      HasEntry(t.right, k);
      assert (t.key, t.n) in t.Entries();
    }
  }

  lemma {:induction false} PlugHas<N>(c: Ctx<N>, t: Shape<N>, k: Key)
    ensures Plug(c, t).Has(k) <==> c.Has(k) || t.Has(k)
  {
    if c.In? {
      PlugHas(c.up, Make(c.n, c.key, c.red, c.s, t, c.sib), k);
    }
  }

  lemma {:induction false} HasInside<N>(t: Shape<N>, lo: int, hi: int, k: Key)
    requires t.Bst(lo, hi) && t.Has(k)
    ensures lo < k < hi
  {
    if t.left.Has(k) { HasInside(t.left, lo, t.key, k); }
    if t.right.Has(k) { HasInside(t.right, t.key, hi, k); }
  }

  /** A key that fits the hole is nowhere in the context. */
  lemma {:induction false} HoleKeyFresh<N>(c: Ctx<N>, k: Key)
    requires c.Bst() && c.Lo() < k < c.Hi()
    ensures !c.Has(k)
  {
    if c.In? {
      HoleKeyFresh(c.up, k);
      if c.sib.Has(k) {
        if c.s.Left? { HasInside(c.sib, c.key, c.up.Hi(), k); }
        else { HasInside(c.sib, c.up.Lo(), c.key, k); }
      }
    }
  }

  // ----- height

  function Pow2(n: nat): (p: nat)
    ensures p >= 1
  {
    if n == 0 then 1 else 2 * Pow2(n - 1)
  }

  function Size<N>(t: Shape<N>): nat {
    if t.Nil? then 0 else 1 + Size(t.left) + Size(t.right)
  }

  lemma {:induction false} SizeBound<N>(t: Shape<N>, h: nat)
    requires t.Balanced(h)
    ensures Size(t) + 1 >= Pow2(h)
    decreases t
  {
    if t.Br? {
      var below := if t.red then h else h - 1;
      SizeBound(t.left, below);
      SizeBound(t.right, below);
    }
  }

  lemma {:induction false} HeightBound<N>(t: Shape<N>, h: nat)
    requires t.Balanced(h) && t.NoRedRed()
    ensures t.Height() <= 2 * h + if t.IsRed() then 1 else 0
  {
    if t.Br? {
      var below := if t.red then h else h - 1;
      HeightBound(t.left, below);
      HeightBound(t.right, below);
    }
  }

  lemma {:induction false} Pow2Double(n: nat)
    ensures Pow2(2 * n) == Pow2(n) * Pow2(n)
  {
    if n > 0 {
      Pow2Double(n - 1);
      assert Pow2(2 * n) == 4 * Pow2(2 * (n - 1));
    }
  }

  lemma {:induction false} Pow2Mono(m: nat, n: nat)
    requires m <= n
    ensures Pow2(m) <= Pow2(n)
  {
    if m < n { Pow2Mono(m, n - 1); }
  }

  /** A search needs at most 2*log2(n+1) comparisons. */
  lemma HeightLogarithmic<N>(t: Shape<N>)
    requires t.RedBlack()
    ensures Pow2(t.Height()) <= (Size(t) + 1) * (Size(t) + 1)
  {
    var h: nat :| t.Balanced(h);
    HeightBound(t, h);
    SizeBound(t, h);
    Pow2Mono(t.Height(), 2 * h);
    Pow2Double(h);
    MulMono(Pow2(h), Size(t) + 1);
  }

  lemma MulMono(a: nat, b: nat)
    requires a <= b
    ensures a * a <= b * b
  {
    assert a * a <= a * b <= b * b;
  }

  /** With keys in order, the size of the shape is the number of entries. */
  lemma {:induction false} SizeIsEntries<N>(t: Shape<N>, lo: int, hi: int)
    requires t.Bst(lo, hi)
    ensures Size(t) == |t.Entries()|
  {
    if t.Br? {
      SizeIsEntries(t.left, lo, t.key);
      SizeIsEntries(t.right, t.key, hi);
      EntriesApart(t, lo, hi);
      var own, below := {(t.key, t.n)}, t.left.Entries() + t.right.Entries();
      DisjointSize(t.left.Entries(), t.right.Entries());
      DisjointSize(own, below);
      assert own + t.left.Entries() + t.right.Entries() == own + below;
    }
  }

  lemma EntriesApart<N>(t: Shape<N>, lo: int, hi: int)
    requires t.Br? && t.Bst(lo, hi)
    ensures t.left.Entries() !! t.right.Entries()
    ensures (t.key, t.n) !in t.left.Entries() && (t.key, t.n) !in t.right.Entries()
  {
    forall e | e in t.left.Entries() ensures e.0 < t.key { EntryBounds(t.left, lo, t.key, e.0, e.1); }
    forall e | e in t.right.Entries() ensures e.0 > t.key { EntryBounds(t.right, t.key, hi, e.0, e.1); }
    assert forall e :: e in t.left.Entries() ==> e !in t.right.Entries();
  }

  /** A search that goes down one level with every comparison takes at most 2*log2(n+1) of them for n entries. */
  lemma SearchShort<N>(t: Shape<N>, steps: nat)
    requires t.RedBlack() && steps <= t.Height()
    ensures Pow2(steps) <= (|t.Entries()| + 1) * (|t.Entries()| + 1)
  {
    HeightLogarithmic(t);
    Pow2Mono(steps, t.Height());
    SizeIsEntries(t, -1, KEY_LIMIT);
  }
}
