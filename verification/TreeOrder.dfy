/** Insertion and removal keep the search order, and with it the whole red-black tree; and they change its
    entries by exactly the one. */
module TreeOrder {
  import opened TreeShape
  import opened TreeAlgorithms

  lemma PaintedBst<N>(t: Shape<N>, red: bool, lo: int, hi: int)
    requires t.Bst(lo, hi)
    ensures Painted(t, red).Bst(lo, hi)
  {}

  /** A subtree put in the place of another. */
  lemma Replaced<N>(c: Ctx<N>, t: Shape<N>, u: Shape<N>)
    requires Plug(c, t).Bst(-1, KEY_LIMIT) && (t.Bst(c.Lo(), c.Hi()) ==> u.Bst(c.Lo(), c.Hi()))
    ensures Plug(c, u).Bst(-1, KEY_LIMIT)
  {
    PlugBst(c, t);
    PlugBst(c, u);
  }

  // ----- insertion

  lemma StraightenedBst<N>(c: Ctx<N>, t: Shape<N>, lo: int, hi: int)
    requires c.In? && t.Br? && Make(c.n, c.key, c.red, c.s, t, c.sib).Bst(lo, hi)
    ensures Straightened(c, t).Bst(lo, hi)
  {
    if c.up.In? && c.s != c.up.s { RotatedBst(Make(c.n, c.key, c.red, c.s, t, c.sib), c.up.s, lo, hi); }
  }

  /** The grandparent's subtree before and after a step of the repair. */
  lemma RepairedBst<N>(c: Ctx<N>, t: Shape<N>, lo: int, hi: int)
    requires t.Br? && c.IsRed() && c.up.In?
    requires var g := c.up; Make(g.n, g.key, g.red, g.s, Make(c.n, c.key, c.red, c.s, t, c.sib), g.sib).Bst(lo, hi)
    ensures var g := c.up;
      Rotated(Make(g.n, g.key, true, g.s, Painted(Straightened(c, t), false), g.sib), g.s.Opposite()).Bst(lo, hi)
  {
    var g := c.up;
    var inner := if g.s.Left? then lo else g.key;
    var outer := if g.s.Left? then g.key else hi;
    StraightenedBst(c, t, inner, outer);
    PaintedBst(Straightened(c, t), false, inner, outer);
    RotatedBst(Make(g.n, g.key, true, g.s, Painted(Straightened(c, t), false), g.sib), g.s.Opposite(), lo, hi);
  }

  lemma {:induction false} FixInsertBst<N>(c: Ctx<N>, t: Shape<N>)
    requires t.Br? && Plug(c, t).Bst(-1, KEY_LIMIT)
    ensures FixInsert(c, t).Bst(-1, KEY_LIMIT)
    decreases c
  {
    if !c.IsRed() || c.up.Top? { return; }
    var g, uncle := c.up, c.up.sib;
    var before := Make(g.n, g.key, g.red, g.s, Make(c.n, c.key, c.red, c.s, t, c.sib), uncle);
    assert Plug(c, t) == Plug(g.up, before);
    PlugBst(g.up, before);
    if uncle.IsRed() {
      var after := Make(g.n, g.key, true, g.s, Make(c.n, c.key, false, c.s, t, c.sib), Painted(uncle, false));
      Replaced(g.up, before, after);
      FixInsertBst(g.up, after);
    } else {
      RepairedBst(c, t, g.up.Lo(), g.up.Hi());
      Replaced(g.up, before, Rotated(Make(g.n, g.key, true, g.s, Painted(Straightened(c, t), false), uncle), g.s.Opposite()));
    }
  }

  /** Inserting a key where it belongs makes a red-black tree with just that entry more. */
  lemma InsertExact<N>(c: Ctx<N>, n: N, key: Key)
    requires Plug(c, Nil).RedBlack() && c.Lo() < key < c.Hi()
    ensures var w := Inserted(c, n, key);
      w.RedBlack() && !Plug(c, Nil).Has(key) && w.Entries() == Plug(c, Nil).Entries() + {(key, n)}
  {
    var leaf := Br(n, key, true, Nil, Nil);
    InsertSound(c, n, key);
    Replaced(c, Nil, leaf);
    FixInsertBst(c, leaf);
    PaintedBst(FixInsert(c, leaf), false, -1, KEY_LIMIT);
  }

  // ----- removal

  lemma BlackSiblingBst<N>(c: Ctx<N>, t: Shape<N>)
    requires c.In? && c.sib.Br? && Plug(c, t).Bst(-1, KEY_LIMIT)
    ensures Plug(BlackSibling(c), t).Bst(-1, KEY_LIMIT)
  {
    PlugBst(c, t);
    PlugBst(BlackSibling(c), t);
  }

  lemma OutwardBst<N>(sib: Shape<N>, s: Side, lo: int, hi: int)
    requires HasRedKid(sib) && sib.Bst(lo, hi)
    ensures Outward(sib, s).Bst(lo, hi)
  {
    if !sib.Kid(s.Opposite()).IsRed() {
      var near := Painted(sib.Kid(s), false);
      RotatedBst(Make(sib.n, sib.key, true, s, near, sib.Kid(s.Opposite())), s.Opposite(), lo, hi);
    }
  }

  lemma BorrowedBst<N>(c: Ctx<N>, t: Shape<N>, lo: int, hi: int)
    requires c.In? && HasRedKid(c.sib) && Make(c.n, c.key, c.red, c.s, t, c.sib).Bst(lo, hi)
    ensures Borrowed(c, t).Bst(lo, hi)
  {
    var l, h := if c.s.Left? then c.key else lo, if c.s.Left? then hi else c.key;
    var sib := Outward(c.sib, c.s);
    OutwardBst(c.sib, c.s, l, h);
    var far := Painted(sib.Kid(c.s.Opposite()), false);
    var low := Make(sib.n, sib.key, c.red, c.s, sib.Kid(c.s), far);
    assert low.Bst(l, h);
    RotatedBst(Make(c.n, c.key, false, c.s, t, low), c.s, lo, hi);
  }

  lemma {:induction false} FixDeleteBst<N>(c: Ctx<N>, t: Shape<N>)
    requires Plug(c, t).Bst(-1, KEY_LIMIT)
    ensures FixDelete(c, t).Bst(-1, KEY_LIMIT)
    decreases c.Depth()
  {
    if c.Top? || c.sib.Nil? {
      PaintedBst(Plug(c, t), false, -1, KEY_LIMIT);
      return;
    }
    var d := BlackSibling(c);
    BlackSiblingBst(c, t);
    var pd := Make(d.n, d.key, d.red, d.s, t, d.sib);
    assert Plug(d, t) == Plug(d.up, pd);
    PlugBst(d.up, pd);
    if HasRedKid(d.sib) {
      BorrowedBst(d, t, d.up.Lo(), d.up.Hi());
      Replaced(d.up, pd, Borrowed(d, t));
      PaintedBst(Plug(d.up, Borrowed(d, t)), false, -1, KEY_LIMIT);
    } else {
      var p := Make(d.n, d.key, d.red, d.s, t, Painted(d.sib, true));
      Replaced(d.up, pd, p);
      Replaced(d.up, pd, Painted(p, false));
      if !d.red { FixDeleteBst(d.up, p); }
    }
  }

  lemma AfterUnlinkBst<N>(c: Ctx<N>, x: Shape<N>, red: bool)
    requires Plug(c, x).Bst(-1, KEY_LIMIT)
    ensures AfterUnlink(c, x, red).Bst(-1, KEY_LIMIT)
  {
    if !red && x.IsRed() {
      Replaced(c, x, Painted(x, false));
    } else if !red {
      FixDeleteBst(c, x);
    }
  }

  /** What takes the place of the removed node. */
  function Heir<N>(t: Shape<N>): Shape<N>
    requires t.Br?
  {
    if t.left.Nil? then t.right else if t.right.Nil? then t.left
    else Br(Min(t.right).n, Min(t.right).key, t.red, t.left, WithoutMin(t.right))
  }

  lemma HeirBst<N>(t: Shape<N>, lo: int, hi: int)
    requires t.Br? && t.Bst(lo, hi)
    ensures Heir(t).Bst(lo, hi) && !Heir(t).Has(t.key)
    ensures t.Entries() == Heir(t).Entries() + {(t.key, t.n)}
  {
    BstWeaken(t.right, t.key, hi, lo, hi);
    BstWeaken(t.left, lo, t.key, lo, hi);
    NotBeyond(t.left, lo, t.key, t.key);
    NotBeyond(t.right, t.key, hi, t.key);
    if t.left.Br? && t.right.Br? {
      MinBst(t.right, t.key, hi);
      MinContents(t.right);
      var m := Min(t.right).key;
      BstWeaken(t.left, lo, t.key, lo, m);
      NotBeyond(WithoutMin(t.right), m, hi, t.key);
    }
  }

  /** A key outside the bounds is not in the tree. */
  lemma {:induction false} NotBeyond<N>(t: Shape<N>, lo: int, hi: int, k: Key)
    requires t.Bst(lo, hi) && !(lo < k < hi)
    ensures !t.Has(k)
  {
    if t.Br? {
      NotBeyond(t.left, lo, t.key, k);
      NotBeyond(t.right, t.key, hi, k);
    }
  }

  /** Up to colours, removal plugs the heir into the place of the removed node. */
  lemma DeletePlugsHeir<N>(c: Ctx<N>, t: Shape<N>)
    requires t.Br? && Plug(c, Heir(t)).Bst(-1, KEY_LIMIT)
    ensures Delete(c, t).Bst(-1, KEY_LIMIT) && Delete(c, t).Entries() == Plug(c, Heir(t)).Entries()
  {
    if t.left.Nil? || t.right.Nil? {
      AfterUnlinkBst(c, Heir(t), t.red);
      AfterUnlinkContents(c, Heir(t), t.red);
    } else {
      var next := Min(t.right);
      var a := In(next.n, next.key, t.red, Right, t.left, c);
      var z := MinZip(a, t.right);
      MinZipPlug(a, t.right);
      AfterUnlinkBst(z.0, next.right, next.red);
      AfterUnlinkContents(z.0, next.right, next.red);
    }
  }

  /** Removing a node makes a red-black tree without its entry, which is then absent, and with all the others. */
  lemma DeleteExact<N>(c: Ctx<N>, t: Shape<N>)
    requires t.Br? && Plug(c, t).RedBlack()
    ensures Delete(c, t).RedBlack() && !Delete(c, t).Has(t.key)
    ensures Delete(c, t).Entries() == Plug(c, t).Entries() - {(t.key, t.n)}
  {
    PlugBst(c, t);
    HeirBst(t, c.Lo(), c.Hi());
    Replaced(c, t, Heir(t));
    DeletePlugsHeir(c, t);
    var (d, x, red) := if t.left.Nil? || t.right.Nil? then (c, Heir(t), t.red)
                     else (MinZip(In(Min(t.right).n, Min(t.right).key, t.red, Right, t.left, c), t.right).0,
                           Min(t.right).right, Min(t.right).red);
    DeleteSound(c, t, d, x, red);
    PlugParts(c, t);
    PlugParts(c, Heir(t));
    HoleKeyFresh(c, t.key);
    PlugHas(c, Heir(t), t.key);
    HasEntry(Plug(c, Heir(t)), t.key);
    HasEntry(Delete(c, t), t.key);
  }
}
