/** What insertion and removal do to the shape of a tree, and why that keeps it red-black. */
module TreeAlgorithms {
  import opened TreeShape

  function Painted<N>(t: Shape<N>, red: bool): Shape<N> {
    if t.Nil? then t else t.(red := red)
  }

  ghost predicate SameContents<N>(t: Shape<N>, u: Shape<N>) {
    t.Entries() == u.Entries() && t.Nodes() == u.Nodes()
  }

  lemma SamePlug<N>(c: Ctx<N>, t: Shape<N>, u: Shape<N>)
    requires SameContents(t, u)
    ensures SameContents(Plug(c, t), Plug(c, u))
  {
    PlugParts(c, t);
    PlugParts(c, u);
  }

  lemma SameMake<N>(n: N, key: Key, red: bool, red': bool, s: Side, a: Shape<N>, a': Shape<N>, b: Shape<N>, b': Shape<N>)
    requires SameContents(a, a') && SameContents(b, b')
    ensures SameContents(Make(n, key, red, s, a, b), Make(n, key, red', s, a', b'))
  {}

  // ----- insertion

  /** The subtree at the grandparent once a red node and its red parent, whose uncle is black,
      have been rotated into place. */
  function Straightened<N>(c: Ctx<N>, t: Shape<N>): Shape<N>
    requires c.In? && t.Br?
  {
    var p := Make(c.n, c.key, c.red, c.s, t, c.sib);
    if c.up.In? && c.s != c.up.s then Rotated(p, c.up.s) else p
  }

  function FixInsert<N>(c: Ctx<N>, t: Shape<N>): Shape<N>
    requires t.Br?
    decreases c
  {
    if !c.IsRed() || c.up.Top? then Plug(c, t)
    else
      var g, uncle := c.up, c.up.sib;
      if uncle.IsRed() then
        FixInsert(g.up, Make(g.n, g.key, true, g.s, Make(c.n, c.key, false, c.s, t, c.sib), Painted(uncle, false)))
      else
        var p := Painted(Straightened(c, t), false);
        Plug(g.up, Rotated(Make(g.n, g.key, true, g.s, p, uncle), g.s.Opposite()))
  }

  lemma {:induction false} FixInsertContents<N>(c: Ctx<N>, t: Shape<N>)
    requires t.Br?
    ensures SameContents(FixInsert(c, t), Plug(c, t))
    decreases c
  {
    if !c.IsRed() || c.up.Top? { return; }
    var g, uncle := c.up, c.up.sib;
    var p := Make(c.n, c.key, c.red, c.s, t, c.sib);
    var before := Make(g.n, g.key, g.red, g.s, p, uncle);
    assert Plug(c, t) == Plug(g.up, before);
    if uncle.IsRed() {
      var after := Make(g.n, g.key, true, g.s, Painted(p, false), Painted(uncle, false));
      FixInsertContents(g.up, after);
      SamePlug(g.up, before, after);
    } else {
      if c.s != g.s { RotatedParts(p, g.s); }
      var mid := Make(g.n, g.key, true, g.s, Painted(Straightened(c, t), false), uncle);
      RotatedParts(mid, g.s.Opposite());
      SamePlug(g.up, before, Rotated(mid, g.s.Opposite()));
    }
  }

  /** Insertion repairs a red node under a red parent. */
  lemma {:induction false} FixInsertRedBlack<N>(c: Ctx<N>, t: Shape<N>, h: int)
    requires t.Br? && t.red && t.Balanced(h) && t.NoRedRed()
    requires c.Balanced(h) && c.NoRedRed() && c.BlackTop()
    ensures FixInsert(c, t).NoRedRed()
    ensures exists g: nat :: FixInsert(c, t).Balanced(g)
    decreases c
  {
    if !c.IsRed() {
      PlugBalanced(c, t, h);
      PlugNoRedRed(c, t);
      return;
    }
    var g, uncle := c.up, c.up.sib;
    if uncle.IsRed() {
      FixInsertRedBlack(g.up, Make(g.n, g.key, true, g.s, Make(c.n, c.key, false, c.s, t, c.sib), Painted(uncle, false)), h + 1);
    } else {
      var after := Rotated(Make(g.n, g.key, true, g.s, Painted(Straightened(c, t), false), uncle), g.s.Opposite());
      assert t.left.Balanced(h) && t.right.Balanced(h) && c.sib.Balanced(h) && uncle.Balanced(h);
      var p := Straightened(c, t);
      assert p.Br? && p.left.Balanced(h) && p.right.Balanced(h);
      assert t.left.NoRedRed() && t.right.NoRedRed() && p.Kid(g.s).NoRedRed();
      var low := Make(g.n, g.key, true, g.s.Opposite(), uncle, p.Kid(g.s.Opposite()));
      assert low.NoRedRed() && low.Balanced(h);
      assert after == Make(p.n, p.key, false, g.s.Opposite(), low, p.Kid(g.s));
      assert after.Balanced(h + 1) && after.NoRedRed() && !after.IsRed();
      PlugBalanced(g.up, after, h + 1);
      PlugNoRedRed(g.up, after);
    }
  }

  /** The whole insertion of a key into the hole where it belongs. */
  function Inserted<N>(c: Ctx<N>, n: N, key: Key): Shape<N> {
    Painted(FixInsert(c, Br(n, key, true, Nil, Nil)), false)
  }

  lemma InsertSound<N>(c: Ctx<N>, n: N, key: Key)
    requires Plug(c, Nil).RedBlack() && c.Lo() < key < c.Hi()
    ensures c.BlackTop() && FixInsert(c, Br(n, key, true, Nil, Nil)).Br?
    ensures Inserted(c, n, key).Sound()
    ensures Inserted(c, n, key).Entries() == Plug(c, Nil).Entries() + {(key, n)}
    ensures Inserted(c, n, key).Nodes() == Plug(c, Nil).Nodes() + {n}
    ensures !Plug(c, Nil).Has(key)
  {
    InsertContents(c, n, key);
    InsertBalance(c, n, key);
    PlugBst(c, Nil);
    PlugHas(c, Nil, key);
    HoleKeyFresh(c, key);
  }

  lemma InsertContents<N>(c: Ctx<N>, n: N, key: Key)
    ensures FixInsert(c, Br(n, key, true, Nil, Nil)).Br?
    ensures Inserted(c, n, key).Entries() == Plug(c, Nil).Entries() + {(key, n)}
    ensures Inserted(c, n, key).Nodes() == Plug(c, Nil).Nodes() + {n}
  {
    var leaf := Br(n, key, true, Nil, Nil);
    FixInsertContents(c, leaf);
    PlugParts(c, leaf);
    PlugParts(c, Nil);
    assert (key, n) in FixInsert(c, leaf).Entries();
    assert SameContents(Inserted(c, n, key), FixInsert(c, leaf));
  }

  lemma InsertBalance<N>(c: Ctx<N>, n: N, key: Key)
    requires Plug(c, Nil).RedBlack()
    ensures c.BlackTop()
    ensures Inserted(c, n, key).Sound()
  {
    var leaf := Br(n, key, true, Nil, Nil);
    var g: nat :| Plug(c, Nil).Balanced(g);
    var h := UnplugBalanced(c, Nil, g);
    PlugNoRedRed(c, Nil);
    PlugTop(c, Nil);
    FixInsertRedBlack(c, leaf, 0);
    var w := FixInsert(c, leaf);
    var k: nat :| w.Balanced(k);
    if w.Br? { assert Inserted(c, n, key).Balanced(if w.IsRed() then k + 1 else k); }
  }

  // ----- removal

  /** The context one rotation lower, when the sibling was red. */
  function BlackSibling<N>(c: Ctx<N>): Ctx<N>
    requires c.In? && c.sib.Br?
  {
    if c.sib.red then
      In(c.n, c.key, true, c.s, c.sib.Kid(c.s), In(c.sib.n, c.sib.key, false, c.s, c.sib.Kid(c.s.Opposite()), c.up))
    else c
  }

  predicate HasRedKid<N>(t: Shape<N>) { t.Br? && (t.left.IsRed() || t.right.IsRed()) }

  /** The sibling with its red child on the far side. */
  function Outward<N>(sib: Shape<N>, s: Side): Shape<N>
    requires HasRedKid(sib)
  {
    if sib.Kid(s.Opposite()).IsRed() then sib
    else Rotated(Make(sib.n, sib.key, true, s, Painted(sib.Kid(s), false), sib.Kid(s.Opposite())), s.Opposite())
  }

  /** The subtree at the parent of a short hole whose sibling has a red child. */
  function Borrowed<N>(c: Ctx<N>, t: Shape<N>): Shape<N>
    requires c.In? && HasRedKid(c.sib)
  {
    var sib := Outward(c.sib, c.s);
    var far := Painted(sib.Kid(c.s.Opposite()), false);
    Rotated(Make(c.n, c.key, false, c.s, t, Make(sib.n, sib.key, c.red, c.s, sib.Kid(c.s), far)), c.s)
  }

  function FixDelete<N>(c: Ctx<N>, t: Shape<N>): Shape<N>
    decreases c.Depth()
  {
    if c.Top? || c.sib.Nil? then Painted(Plug(c, t), false)
    else
      var d := BlackSibling(c);
      if HasRedKid(d.sib) then Painted(Plug(d.up, Borrowed(d, t)), false)
      else
        var p := Make(d.n, d.key, d.red, d.s, t, Painted(d.sib, true));
        if d.red then Plug(d.up, Painted(p, false)) else FixDelete(d.up, p)
  }

  /** What follows the unlinking of a node of colour `red` whose place `x` has taken. */
  function AfterUnlink<N>(c: Ctx<N>, x: Shape<N>, red: bool): Shape<N> {
    if red then Plug(c, x)
    else if x.IsRed() then Plug(c, Painted(x, false))
    else FixDelete(c, x)
  }

  /** The leftmost node of `r`, seen from the context `above` its root. */
  function MinZip<N>(above: Ctx<N>, r: Shape<N>): (z: (Ctx<N>, Shape<N>))
    requires r.Br?
    ensures z.1.Br? && z.1.left.Nil?
    decreases r
  {
    if r.left.Nil? then (above, r)
    else MinZip(In(r.n, r.key, r.red, Left, r.right, above), r.left)
  }

  function Min<N>(r: Shape<N>): (m: Shape<N>)
    requires r.Br?
    ensures m.Br? && m.left.Nil?
  {
    if r.left.Nil? then r else Min(r.left)
  }

  function WithoutMin<N>(r: Shape<N>): Shape<N>
    requires r.Br?
  {
    if r.left.Nil? then r.right else Br(r.n, r.key, r.red, WithoutMin(r.left), r.right)
  }

  lemma {:induction false} MinZipPlug<N>(above: Ctx<N>, r: Shape<N>)
    requires r.Br?
    ensures var z := MinZip(above, r);
      z.1 == Min(r) && Plug(z.0, z.1) == Plug(above, r) && Plug(z.0, z.1.right) == Plug(above, WithoutMin(r))
    decreases r
  {
    if r.left.Br? {
      MinZipPlug(In(r.n, r.key, r.red, Left, r.right, above), r.left);
    }
  }

  lemma {:induction false} MinBst<N>(r: Shape<N>, lo: int, hi: int)
    requires r.Br? && r.Bst(lo, hi)
    ensures lo < Min(r).key < hi && WithoutMin(r).Bst(Min(r).key, hi)
    ensures r.left.Br? ==> Min(r).key < r.key
  {
    if r.left.Br? {
      MinBst(r.left, lo, r.key);
    }
  }

  /** The parent of a leftmost node that is not the root itself. */
  lemma {:induction false} MinZipParent<N>(above: Ctx<N>, r: Shape<N>, lo: int, hi: int)
    requires r.Br? && r.left.Br? && r.Bst(lo, hi)
    ensures var d := MinZip(above, r).0;
      d.In? && d.s.Left? && Min(r).key < d.key < hi
    decreases r
  {
    var a := In(r.n, r.key, r.red, Left, r.right, above);
    if r.left.left.Br? {
      MinZipParent(a, r.left, lo, r.key);
    } else {
      assert MinZip(a, r.left).0 == a;
    }
  }

  /** What lies above does not matter for the frame just above a leftmost node deeper down. */
  lemma {:induction false} MinZipFrame<N>(a: Ctx<N>, b: Ctx<N>, r: Shape<N>)
    requires r.Br? && r.left.Br?
    ensures MinZip(a, r).0.In? && MinZip(b, r).0.In? && MinZip(a, r).0.n == MinZip(b, r).0.n
    decreases r
  {
    var a', b' := In(r.n, r.key, r.red, Left, r.right, a), In(r.n, r.key, r.red, Left, r.right, b);
    if r.left.left.Br? {
      MinZipFrame(a', b', r.left);
    } else {
      assert MinZip(a', r.left).0 == a' && MinZip(b', r.left).0 == b';
    }
  }

  lemma {:induction false} MinContents<N>(r: Shape<N>)
    requires r.Br?
    ensures r.Entries() == WithoutMin(r).Entries() + {(Min(r).key, Min(r).n)}
    ensures r.Nodes() == WithoutMin(r).Nodes() + {Min(r).n}
  {
    if r.left.Br? {
      MinContents(r.left);
    }
  }

  /** The whole removal: the node at the root of `t` is taken out of the tree. */
  function Delete<N>(c: Ctx<N>, t: Shape<N>): Shape<N>
    requires t.Br?
  {
    if t.left.Nil? then AfterUnlink(c, t.right, t.red)
    else if t.right.Nil? then AfterUnlink(c, t.left, t.red)
    else
      var next := Min(t.right);
      var z := MinZip(In(next.n, next.key, t.red, Right, t.left, c), t.right);
      AfterUnlink(z.0, next.right, next.red)
  }

  lemma {:induction false} FixDeleteContents<N>(c: Ctx<N>, t: Shape<N>)
    ensures SameContents(FixDelete(c, t), Plug(c, t))
    decreases c.Depth()
  {
    if c.Top? || c.sib.Nil? { return; }
    var d := BlackSibling(c);
    var pc := Make(c.n, c.key, c.red, c.s, t, c.sib);
    var pd := Make(d.n, d.key, d.red, d.s, t, d.sib);
    if c.sib.red {
      RotatedParts(pc, c.s);
      SamePlug(c.up, pc, Make(d.up.n, d.up.key, d.up.red, d.up.s, pd, d.up.sib));
    }
    assert SameContents(Plug(d, t), Plug(c, t));
    if HasRedKid(d.sib) {
      BorrowedContents(d, t);
      SamePlug(d.up, pd, Borrowed(d, t));
    } else {
      var p := Make(d.n, d.key, d.red, d.s, t, Painted(d.sib, true));
      SamePlug(d.up, pd, p);
      SamePlug(d.up, pd, Painted(p, false));
      if !d.red { FixDeleteContents(d.up, p); }
    }
  }

  lemma BorrowedContents<N>(c: Ctx<N>, t: Shape<N>)
    requires c.In? && HasRedKid(c.sib)
    ensures SameContents(Borrowed(c, t), Make(c.n, c.key, c.red, c.s, t, c.sib))
  {
    var sib := Outward(c.sib, c.s);
    if !c.sib.Kid(c.s.Opposite()).IsRed() {
      var near, fair := c.sib.Kid(c.s), c.sib.Kid(c.s.Opposite());
      RotatedParts(Make(c.sib.n, c.sib.key, true, c.s, Painted(near, false), fair), c.s.Opposite());
      assert SameContents(Painted(near, false), near);
      SameMake(c.sib.n, c.sib.key, c.sib.red, true, c.s, near, Painted(near, false), fair, fair);
    }
    assert SameContents(sib, c.sib);
    var far := Painted(sib.Kid(c.s.Opposite()), false);
    var low := Make(sib.n, sib.key, c.red, c.s, sib.Kid(c.s), far);
    assert SameContents(far, sib.Kid(c.s.Opposite()));
    SameMake(sib.n, sib.key, c.red, sib.red, c.s, sib.Kid(c.s), sib.Kid(c.s), far, sib.Kid(c.s.Opposite()));
    SameMake(c.n, c.key, false, c.red, c.s, t, t, low, c.sib);
    RotatedParts(Make(c.n, c.key, false, c.s, t, low), c.s);
  }

  /** A subtree that is one black node short, under a context that is otherwise sound. */
  ghost predicate Short<N>(c: Ctx<N>, t: Shape<N>, h: int) {
    && t.Balanced(h) && t.NoRedRed() && !t.IsRed()
    && c.Balanced(h + 1) && c.NoRedRed() && c.BlackTop()
  }

  lemma ShortSibling<N>(c: Ctx<N>, t: Shape<N>, h: int)
    requires c.In? && Short(c, t, h)
    ensures c.sib.Br?
    ensures var d := BlackSibling(c);
      Short(d, t, h) && d.sib.Br? && !d.sib.red && (c.sib.red ==> d.red)
  {
    BalancedNat(t, h);
    if c.sib.Br? {
      assert c.sib.left.NoRedRed() && c.sib.right.NoRedRed();
      if c.sib.red {
        assert c.sib.left.Balanced(h + 1) && c.sib.right.Balanced(h + 1) && c.up.Balanced(h + 2);
        assert In(c.sib.n, c.sib.key, false, c.s, c.sib.Kid(c.s.Opposite()), c.up).Balanced(h + 1);
      }
    }
  }

  lemma BorrowedSound<N>(c: Ctx<N>, t: Shape<N>, h: int)
    requires c.In? && Short(c, t, h) && HasRedKid(c.sib) && !c.sib.red
    ensures var b := Borrowed(c, t);
      b.Br? && b.red == c.red && b.NoRedRed() && b.Balanced(if c.red then h + 1 else h + 2)
  {
    var s, o := c.s, c.s.Opposite();
    var sib := c.sib;
    assert sib.left.Balanced(h) && sib.right.Balanced(h);
    assert sib.left.NoRedRed() && sib.right.NoRedRed();
    if !sib.Kid(o).IsRed() {
      assert sib.Kid(s).Br? && sib.Kid(s).red;
      assert sib.Kid(s).left.Balanced(h) && sib.Kid(s).right.Balanced(h);
      assert sib.Kid(s).left.NoRedRed() && sib.Kid(s).right.NoRedRed();
    }
    var out := Outward(sib, s);
    assert out.Br? && out.Kid(s).Balanced(h) && out.Kid(s).NoRedRed();
    var far := Painted(out.Kid(o), false);
    assert far.Balanced(h + 1) && far.NoRedRed() && !far.IsRed();
    var low := Make(c.n, c.key, false, s, t, out.Kid(s));
    assert low.Balanced(h + 1) && low.NoRedRed() && !low.IsRed();
    assert Borrowed(c, t) == Make(out.n, out.key, c.red, s, low, far);
  }

  lemma {:induction false} FixDeleteRedBlack<N>(c: Ctx<N>, t: Shape<N>, h: int)
    requires Short(c, t, h)
    ensures FixDelete(c, t).NoRedRed() && !FixDelete(c, t).IsRed()
    ensures exists g: nat :: FixDelete(c, t).Balanced(g)
    decreases c.Depth()
  {
    if c.Top? {
      BalancedNat(t, h);
      assert FixDelete(c, t).Balanced(h);
      return;
    }
    ShortSibling(c, t, h);
    var d := BlackSibling(c);
    if HasRedKid(d.sib) {
      BorrowedSound(d, t, h);
      SoundWhole(d.up, Borrowed(d, t), if d.red then h + 1 else h + 2);
    } else {
      var p := Make(d.n, d.key, d.red, d.s, t, Painted(d.sib, true));
      if d.red {
        SoundWhole(d.up, Painted(p, false), h + 2 - 1);
      } else {
        FixDeleteRedBlack(d.up, p, h + 1);
      }
    }
  }

  lemma SoundWhole<N>(c: Ctx<N>, t: Shape<N>, h: int)
    requires t.Balanced(h) && t.NoRedRed() && c.Balanced(h) && c.NoRedRed() && c.BlackTop()
    requires !(c.IsRed() && t.IsRed())
    ensures var w := Plug(c, t);
      && w.NoRedRed() && (exists g: nat :: w.Balanced(g)) && (w.IsRed() ==> c.Top? && t.IsRed())
      && Painted(w, false).NoRedRed() && exists g: nat :: Painted(w, false).Balanced(g)
  {
    PlugBalanced(c, t, h);
    PlugNoRedRed(c, t);
    PlugTop(c, t);
    var w := Plug(c, t);
    var g: nat :| w.Balanced(g);
    assert Painted(w, false).Balanced(if w.IsRed() then g + 1 else g);
  }

  /** A tree with one node `y`, which has no left or no right child, is repaired once `y` is unlinked. */
  lemma AfterUnlinkSound<N>(c: Ctx<N>, y: Shape<N>, x: Shape<N>)
    requires y.Br? && ((y.left.Nil? && x == y.right) || (y.right.Nil? && x == y.left))
    requires Plug(c, y).Sound()
    ensures AfterUnlink(c, x, y.red).Sound()
    ensures !y.red && !x.IsRed() ==> exists h :: Short(c, x, h)
    ensures c.BlackTop()
  {
    var g: nat :| Plug(c, y).Balanced(g);
    var h := UnplugBalanced(c, y, g);
    PlugNoRedRed(c, y);
    PlugTop(c, y);
    BalancedNat(x, if y.red then h else h - 1);
    if y.red {
      assert h == 0 && x.Balanced(0) && !x.IsRed();
      SoundWhole(c, x, h);
    } else if x.IsRed() {
      SoundWhole(c, Painted(x, false), h);
    } else {
      assert Short(c, x, h - 1);
      FixDeleteRedBlack(c, x, h - 1);
    }
  }

  lemma AfterUnlinkContents<N>(c: Ctx<N>, x: Shape<N>, red: bool)
    ensures SameContents(AfterUnlink(c, x, red), Plug(c, x))
  {
    if !red && x.IsRed() {
      SamePlug(c, Painted(x, false), x);
    } else if !red {
      FixDeleteContents(c, x);
    }
  }

  /** The colours of a tree do not depend on what its nodes carry. */
  lemma {:induction false} Recarried<N>(c: Ctx<N>, t: Shape<N>, n: N, key: Key)
    requires t.Br? && Plug(c, t).Sound()
    ensures Plug(c, Br(n, key, t.red, t.left, t.right)).Sound()
  {
    var u := Br(n, key, t.red, t.left, t.right);
    var g: nat :| Plug(c, t).Balanced(g);
    var h := UnplugBalanced(c, t, g);
    PlugBalanced(c, u, h);
    PlugNoRedRed(c, t);
    PlugNoRedRed(c, u);
    PlugTop(c, t);
    PlugTop(c, u);
  }

  /** Where a removal unlinks a node: the hole it leaves, what fills the hole, the colour lost. */
  ghost predicate Unlinked<N>(c: Ctx<N>, t: Shape<N>, d: Ctx<N>, x: Shape<N>, red: bool)
    requires t.Br?
  {
    if t.left.Nil? then d == c && x == t.right && red == t.red
    else if t.right.Nil? then d == c && x == t.left && red == t.red
    else
      var next := Min(t.right);
      d == MinZip(In(next.n, next.key, t.red, Right, t.left, c), t.right).0 && x == next.right && red == next.red
  }

  lemma DeleteSound<N>(c: Ctx<N>, t: Shape<N>, d: Ctx<N>, x: Shape<N>, red: bool)
    requires t.Br? && Plug(c, t).Sound() && Unlinked(c, t, d, x, red)
    ensures Delete(c, t) == AfterUnlink(d, x, red) && Delete(c, t).Sound()
    ensures !red && !x.IsRed() ==> exists h :: Short(d, x, h)
  {
    if t.left.Nil? || t.right.Nil? {
      AfterUnlinkSound(c, t, x);
    } else {
      var next := Min(t.right);
      var a := In(next.n, next.key, t.red, Right, t.left, c);
      Recarried(c, t, next.n, next.key);
      MinZipPlug(a, t.right);
      AfterUnlinkSound(d, next, x);
    }
  }

  lemma DeleteContents<N>(c: Ctx<N>, t: Shape<N>, d: Ctx<N>, x: Shape<N>, red: bool)
    requires t.Br? && Unlinked(c, t, d, x, red)
    ensures Plug(c, t).Entries() == Delete(c, t).Entries() + {(t.key, t.n)}
    ensures Plug(c, t).Nodes() == Delete(c, t).Nodes() + {t.n}
  {
    AfterUnlinkContents(d, x, red);
    var u := if t.left.Nil? || t.right.Nil? then x
             else Br(Min(t.right).n, Min(t.right).key, t.red, t.left, WithoutMin(t.right));
    if t.left.Br? && t.right.Br? {
      MinZipPlug(In(u.n, u.key, t.red, Right, t.left, c), t.right);
      MinContents(t.right);
    }
    OneMore(c, t, u, (t.key, t.n));
  }

  lemma OneMore<N>(c: Ctx<N>, t: Shape<N>, u: Shape<N>, e: (Key, N))
    requires t.Entries() == u.Entries() + {e} && t.Nodes() == u.Nodes() + {e.1}
    ensures Plug(c, t).Entries() == Plug(c, u).Entries() + {e}
    ensures Plug(c, t).Nodes() == Plug(c, u).Nodes() + {e.1}
  {
    PlugParts(c, t);
    PlugParts(c, u);
  }
}
