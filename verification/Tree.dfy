/** The intrusive red-black tree: nodes with parent links, updated in place. */
module Tree {
  import opened TreeShape
  import opened TreeAlgorithms

  class TreeNode {
    var left: TreeNode?
    var right: TreeNode?
    var parent: TreeNode?
    var key: Key
    var red: bool

    constructor ()
      ensures left == null && right == null && parent == null && key == 0 && !red
    {
      left, right, parent, key, red := null, null, null, 0, false;
    }
  }

  /** The fields of one node, as a value. */
  datatype Cell = Cell(left: TreeNode?, right: TreeNode?, parent: TreeNode?, key: Key, red: bool) {
    function Child(s: Side): TreeNode? { if s.Left? then left else right }
    function SetChild(s: Side, n: TreeNode?): Cell { if s.Left? then this.(left := n) else this.(right := n) }
  }

  /** All the memory of a tree, as a value: its root pointer and its nodes. */
  datatype Memory = Memory(root: TreeNode?, cells: map<TreeNode, Cell>) {
    function SetChild(n: TreeNode, s: Side, v: TreeNode?): (m: Memory)
      requires n in cells
      ensures m.cells.Keys == cells.Keys
    {
      this.(cells := cells[n := cells[n].SetChild(s, v)])
    }

    function SetParent(n: TreeNode, v: TreeNode?): (m: Memory)
      requires n in cells
      ensures m.cells.Keys == cells.Keys
    {
      this.(cells := cells[n := cells[n].(parent := v)])
    }

    function SetRed(n: TreeNode, v: bool): (m: Memory)
      requires n in cells
      ensures m.cells.Keys == cells.Keys
    {
      this.(cells := cells[n := cells[n].(red := v)])
    }

    /** The link from above to `from` goes to `to`. */
    function Relink(parent: TreeNode?, from: TreeNode?, to: TreeNode?): (m: Memory)
      requires parent == null || parent in cells
      ensures m.cells.Keys == cells.Keys
    {
      if parent == null then this.(root := to)
      else SetChild(parent, if cells[parent].left == from then Left else Right, to)
    }

    /** The subtree rooted at `child`, if any, has `up` for its parent. */
    function Adopt(child: TreeNode?, up: TreeNode?): (m: Memory)
      requires child == null || child in cells
      ensures m.cells.Keys == cells.Keys
    {
      if child == null then this else SetParent(child, up)
    }

    /** The nodes with a key inside the interval are as they were in `m`. */
    ghost predicate SameInside(m: Memory, lo: int, hi: int) {
      forall x <- m.cells :: lo < m.cells[x].key < hi ==> x in cells && cells[x] == m.cells[x]
    }

    ghost predicate SameOutside(m: Memory, lo: int, hi: int) {
      forall x <- m.cells :: !(lo < m.cells[x].key < hi) ==> x in cells && cells[x] == m.cells[x]
    }
  }

  ghost function Ref(t: Shape<TreeNode>): TreeNode? {
    if t.Nil? then null else t.n
  }

  ghost function Above(c: Ctx<TreeNode>): TreeNode? {
    if c.Top? then null else c.n
  }

  /** In memory `m`, the tree `t` hangs under `up`. */
  ghost predicate Linked(m: Memory, t: Shape<TreeNode>, up: TreeNode?) {
    t.Br? ==>
      && t.n in m.cells
      && m.cells[t.n] == Cell(Ref(t.left), Ref(t.right), up, t.key, t.red)
      && Linked(m, t.left, t.n) && Linked(m, t.right, t.n)
  }

  /** In memory `m`, the context `c` has `hole` for its missing subtree. */
  ghost predicate CtxLinked(m: Memory, c: Ctx<TreeNode>, hole: TreeNode?) {
    if c.Top? then m.root == hole
    else
      && c.n in m.cells
      && m.cells[c.n].Child(c.s) == hole && m.cells[c.n].Child(c.s.Opposite()) == Ref(c.sib)
      && m.cells[c.n].parent == Above(c.up) && m.cells[c.n].key == c.key && m.cells[c.n].red == c.red
      && Linked(m, c.sib, c.n) && CtxLinked(m, c.up, c.n)
  }

  /** The memory looks like `t` put into the hole of `c`, in search order. */
  ghost predicate Focus(m: Memory, c: Ctx<TreeNode>, t: Shape<TreeNode>) {
    && c.Bst() && t.Bst(c.Lo(), c.Hi())
    && Linked(m, t, Above(c)) && CtxLinked(m, c, Ref(t))
  }

  // A node is known by its key, so what a step leaves alone is an interval of keys.

  lemma {:induction false} LinkedFrame(m: Memory, m': Memory, t: Shape<TreeNode>, up: TreeNode?, lo: int, hi: int)
    requires Linked(m, t, up) && t.Bst(lo, hi) && m'.SameInside(m, lo, hi)
    ensures Linked(m', t, up)
  {
    if t.Br? {
      LinkedFrame(m, m', t.left, t.n, lo, t.key);
      LinkedFrame(m, m', t.right, t.n, t.key, hi);
    }
  }

  lemma {:induction false} CtxFrame(m: Memory, m': Memory, c: Ctx<TreeNode>, hole: TreeNode?)
    requires CtxLinked(m, c, hole) && c.Bst() && m'.SameOutside(m, c.Lo(), c.Hi()) && m'.root == m.root
    ensures CtxLinked(m', c, hole)
  {
    if c.In? {
      if c.s.Left? { LinkedFrame(m, m', c.sib, c.n, c.key, c.up.Hi()); }
      else { LinkedFrame(m, m', c.sib, c.n, c.up.Lo(), c.key); }
      CtxFrame(m, m', c.up, c.n);
    }
  }

  /** The subtree `b`, moved under `p`. */
  lemma AdoptLinked(m: Memory, m': Memory, b: Shape<TreeNode>, from: TreeNode?, p: TreeNode?, lo: int, hi: int)
    requires Linked(m, b, from) && b.Bst(lo, hi)
    requires b.Br? ==> b.n in m.cells && b.n in m'.cells && m'.cells[b.n] == m.cells[b.n].(parent := p)
                       && m'.SameInside(m, lo, b.key) && m'.SameInside(m, b.key, hi)
    ensures Linked(m', b, p)
  {
    if b.Br? {
      LinkedFrame(m, m', b.left, b.n, lo, b.key);
      LinkedFrame(m, m', b.right, b.n, b.key, hi);
    }
  }

  /** `Linked`, read along a side. */
  lemma LinkedMake(m: Memory, n: TreeNode, key: Key, red: bool, s: Side, cis: Shape<TreeNode>, trans: Shape<TreeNode>, up: TreeNode?)
    ensures Linked(m, Make(n, key, red, s, cis, trans), up) <==>
            && n in m.cells
            && m.cells[n].Child(s) == Ref(cis) && m.cells[n].Child(s.Opposite()) == Ref(trans)
            && m.cells[n].parent == up && m.cells[n].key == key && m.cells[n].red == red
            && Linked(m, cis, n) && Linked(m, trans, n)
    ensures Ref(Make(n, key, red, s, cis, trans)) == n
  {}

  lemma FocusUp(m: Memory, c: Ctx<TreeNode>, t: Shape<TreeNode>)
    requires c.In?
    ensures Focus(m, c, t) <==> Focus(m, c.up, Make(c.n, c.key, c.red, c.s, t, c.sib))
  {}

  lemma {:induction false} FocusWhole(m: Memory, c: Ctx<TreeNode>, t: Shape<TreeNode>)
    ensures Focus(m, c, t) <==> Focus(m, Top, Plug(c, t))
  {
    if c.In? {
      FocusUp(m, c, t);
      FocusWhole(m, c.up, Make(c.n, c.key, c.red, c.s, t, c.sib));
    }
  }

  /** The siblings of one parent, seen from the other one. */
  lemma FocusSibling(m: Memory, c: Ctx<TreeNode>, t: Shape<TreeNode>)
    requires c.In?
    ensures Focus(m, c, t) <==> Focus(m, In(c.n, c.key, c.red, c.s.Opposite(), t, c.up), c.sib)
  {
    FocusUp(m, c, t);
    FocusUp(m, In(c.n, c.key, c.red, c.s.Opposite(), t, c.up), c.sib);
  }

  lemma FocusDown(m: Memory, c: Ctx<TreeNode>, t: Shape<TreeNode>, s: Side)
    requires t.Br?
    ensures Focus(m, c, t) <==> Focus(m, In(t.n, t.key, t.red, s, t.Kid(s.Opposite()), c), t.Kid(s))
  {
    FocusUp(m, In(t.n, t.key, t.red, s, t.Kid(s.Opposite()), c), t.Kid(s));
  }

  /** What the memory says of the node in focus, of its parent and of its sibling. */
  lemma FocusFacts(m: Memory, c: Ctx<TreeNode>, t: Shape<TreeNode>)
    requires Focus(m, c, t)
    ensures t.Br? ==> t.n in m.cells && m.cells[t.n] == Cell(Ref(t.left), Ref(t.right), Above(c), t.key, t.red)
    ensures c.In? ==>
              c.n in m.cells && m.cells[c.n].Child(c.s) == Ref(t) && m.cells[c.n].Child(c.s.Opposite()) == Ref(c.sib)
              && m.cells[c.n].parent == Above(c.up) && m.cells[c.n].red == c.red && m.cells[c.n].key == c.key
    ensures c.In? && c.sib.Br? ==>
              c.sib.n in m.cells && m.cells[c.sib.n] == Cell(Ref(c.sib.left), Ref(c.sib.right), c.n, c.sib.key, c.sib.red)
    ensures c.In? && t.Br? ==> t.n != Ref(c.sib)
    ensures t.Br? ==> t.n != Above(c)
    ensures c.Top? ==> m.root == Ref(t)
  {
    if c.In? && c.sib.Br? && t.Br? { assert m.cells[c.sib.n].key == c.sib.key != t.key; }
  }

  /** What the memory says of the sibling's children. */
  lemma KidFacts(m: Memory, c: Ctx<TreeNode>, t: Shape<TreeNode>)
    requires Focus(m, c, t) && c.In? && c.sib.Br?
    ensures c.sib.left.Br? ==> c.sib.left.n in m.cells && m.cells[c.sib.left.n].red == c.sib.left.red
    ensures c.sib.right.Br? ==> c.sib.right.n in m.cells && m.cells[c.sib.right.n].red == c.sib.right.red
  {
    assert Linked(m, c.sib.left, c.sib.n) && Linked(m, c.sib.right, c.sib.n);
  }

  /** The root pointer leads to the focus only from the top. */
  lemma RootApart(m: Memory, c: Ctx<TreeNode>, t: Shape<TreeNode>)
    requires Focus(m, c, t)
    ensures c.Top? <==> m.root == Ref(t)
  {
    if c.In? {
      RootOutside(m, c, Ref(t));
      assert t.Br? ==> m.cells[t.n].key == t.key;
    }
  }

  lemma {:induction false} RootOutside(m: Memory, c: Ctx<TreeNode>, hole: TreeNode?)
    requires CtxLinked(m, c, hole) && c.Bst() && c.In?
    ensures m.root in m.cells && !(c.Lo() < m.cells[m.root].key < c.Hi())
  {
    if c.up.In? { RootOutside(m, c.up, c.n); }
  }

  /** The context `c` is given another hole. */
  function Rehung(m: Memory, c: Ctx<TreeNode>, to: TreeNode?): (m': Memory)
    requires c.In? ==> c.n in m.cells
    ensures m'.cells.Keys == m.cells.Keys
  {
    if c.Top? then m.(root := to) else m.SetChild(c.n, c.s, to)
  }

  lemma RehungCtx(m: Memory, c: Ctx<TreeNode>, from: TreeNode?, to: TreeNode?)
    requires c.Bst() && CtxLinked(m, c, from)
    ensures CtxLinked(Rehung(m, c, to), c, to)
  {
    if c.In? {
      var m' := Rehung(m, c, to);
      if c.s.Left? { LinkedFrame(m, m', c.sib, c.n, c.key, c.up.Hi()); }
      else { LinkedFrame(m, m', c.sib, c.n, c.up.Lo(), c.key); }
      CtxFrame(m, m', c.up, c.n);
    }
  }

  /** Relinking by comparison with the old child finds the right side. */
  lemma RelinkCtx(m: Memory, c: Ctx<TreeNode>, from: TreeNode?, to: TreeNode?)
    requires c.Bst() && CtxLinked(m, c, from)
    requires c.In? ==> from != null && from != Ref(c.sib)
    ensures Above(c) == null || Above(c) in m.cells
    ensures m.Relink(Above(c), from, to) == Rehung(m, c, to)
    ensures CtxLinked(m.Relink(Above(c), from, to), c, to)
  {
    RehungCtx(m, c, from, to);
  }

  lemma PaintMemory(m: Memory, c: Ctx<TreeNode>, t: Shape<TreeNode>, red: bool)
    requires t.Br? && Focus(m, c, t)
    ensures t.n in m.cells && Focus(m.SetRed(t.n, red), c, Painted(t, red))
  {
    var m' := m.SetRed(t.n, red);
    LinkedFrame(m, m', t.left, t.n, c.Lo(), t.key);
    LinkedFrame(m, m', t.right, t.n, t.key, c.Hi());
    CtxFrame(m, m', c, t.n);
  }

  /** The memory with a fresh red leaf in the hole of `c`. */
  ghost function WithLeaf(m: Memory, c: Ctx<TreeNode>, node: TreeNode, key: Key): Memory
    requires c.In? ==> c.n in m.cells
  {
    var m1 := Rehung(m, c, node);
    Memory(m1.root, m1.cells[node := Cell(null, null, Above(c), key, true)])
  }

  lemma LeafMemory(m: Memory, c: Ctx<TreeNode>, node: TreeNode, key: Key)
    requires Focus(m, c, Nil) && node !in m.cells && c.Lo() < key < c.Hi()
    ensures Focus(WithLeaf(m, c, node, key), c, Br(node, key, true, Nil, Nil))
  {
    RehungCtx(m, c, null, node);
    CtxFrame(Rehung(m, c, node), WithLeaf(m, c, node, key), c, node);
  }

  // ----- rotation

  /** The pointers that a rotation at `p` follows, all different. */
  predicate Rotatable(m: Memory, cis: Side, p: TreeNode, q: TreeNode, parent: TreeNode?, inner: TreeNode?) {
    && p in m.cells && q in m.cells && (parent == null || parent in m.cells) && (inner == null || inner in m.cells)
    && p != q && p != parent && q != parent && p != inner && q != inner && (parent == null || parent != inner)
    && m.cells[p].parent == parent && m.cells[p].Child(cis.Opposite()) == q && m.cells[q].Child(cis) == inner
  }

  /** The memory after the writes of a rotation at `p`. */
  function RotateWrites(m: Memory, cis: Side, p: TreeNode, q: TreeNode, parent: TreeNode?, inner: TreeNode?): Memory
    requires p in m.cells && q in m.cells && (parent == null || parent in m.cells) && (inner == null || inner in m.cells)
  {
    m.Relink(parent, p, q).SetParent(q, parent).SetParent(p, q)
     .SetChild(p, cis.Opposite(), inner).Adopt(inner, p).SetChild(q, cis, p)
  }

  /** What those writes change beside the link from above: three nodes at most. */
  lemma RotateCells(m: Memory, cis: Side, p: TreeNode, q: TreeNode, parent: TreeNode?, inner: TreeNode?)
    requires Rotatable(m, cis, p, q, parent, inner)
    ensures var m1, m' := m.Relink(parent, p, q), RotateWrites(m, cis, p, q, parent, inner);
      && m'.root == m1.root && m'.cells.Keys == m1.cells.Keys == m.cells.Keys
      && m'.cells[p] == m.cells[p].(parent := q).SetChild(cis.Opposite(), inner)
      && m'.cells[q] == m.cells[q].(parent := parent).SetChild(cis, p)
      && (inner != null ==> m'.cells[inner] == m.cells[inner].(parent := p))
      && (forall x <- m.cells :: x != p && x != q && x != inner ==> m'.cells[x] == m1.cells[x])
      && (forall x <- m.cells :: x != parent ==> m1.cells[x] == m.cells[x])
      && (forall x <- m.cells :: m1.cells[x].key == m.cells[x].key)
  {}

  /** A step that writes to `p`, `q`, `inner` and, before that, to `parent`
      leaves alone every interval of keys that holds none of theirs. */
  lemma Untouched(m: Memory, m1: Memory, m': Memory, p: TreeNode, q: TreeNode, inner: TreeNode?, parent: TreeNode?, lo: int, hi: int)
    requires m1.cells.Keys == m.cells.Keys
    requires forall x <- m.cells :: x != p && x != q && x != inner ==> x in m'.cells && m'.cells[x] == m1.cells[x]
    requires forall x <- m.cells :: x != parent ==> m1.cells[x] == m.cells[x]
    requires p in m.cells && !(lo < m.cells[p].key < hi)
    requires q in m.cells && !(lo < m.cells[q].key < hi)
    requires inner in m.cells ==> !(lo < m.cells[inner].key < hi)
    requires parent in m.cells ==> !(lo < m.cells[parent].key < hi)
    ensures m'.SameInside(m, lo, hi)
  {}

  /** One node's fields, read along a side. */
  ghost predicate Holds(m: Memory, n: TreeNode, s: Side, cis: TreeNode?, trans: TreeNode?, up: TreeNode?, key: Key, red: bool) {
    && n in m.cells
    && m.cells[n].Child(s) == cis && m.cells[n].Child(s.Opposite()) == trans
    && m.cells[n].parent == up && m.cells[n].key == key && m.cells[n].red == red
  }

  lemma RotatedLinked(m: Memory, m': Memory, cis: Side, up: TreeNode?,
                      p: TreeNode, kp: Key, rp: bool, a: Shape<TreeNode>, la: int, ha: int,
                      q: TreeNode, kq: Key, rq: bool, b: Shape<TreeNode>, lb: int, hb: int,
                      d: Shape<TreeNode>, ld: int, hd: int)
    requires Linked(m, a, p) && Linked(m, b, q) && Linked(m, d, q)
    requires Holds(m', p, cis, Ref(a), Ref(b), q, kp, rp) && Holds(m', q, cis, p, Ref(d), up, kq, rq)
    requires b.Br? ==> b.n in m'.cells && m'.cells[b.n] == m.cells[b.n].(parent := p)
    requires a.Bst(la, ha) && m'.SameInside(m, la, ha)
    requires d.Bst(ld, hd) && m'.SameInside(m, ld, hd)
    requires b.Bst(lb, hb) && (b.Br? ==> m'.SameInside(m, lb, b.key) && m'.SameInside(m, b.key, hb))
    ensures Linked(m', Make(q, kq, rq, cis, Make(p, kp, rp, cis, a, b), d), up)
  {
    LinkedFrame(m, m', a, p, la, ha);
    AdoptLinked(m, m', b, q, p, lb, hb);
    LinkedFrame(m, m', d, q, ld, hd);
    LinkedMake(m', p, kp, rp, cis, a, b, q);
    LinkedMake(m', q, kq, rq, cis, Make(p, kp, rp, cis, a, b), d, up);
  }

  /** The two nodes of a rotation and the three subtrees around them. */
  lemma RotateParts(m: Memory, cis: Side, c: Ctx<TreeNode>, t: Shape<TreeNode>)
    requires t.Br? && t.Kid(cis.Opposite()).Br? && Focus(m, c, t)
    ensures var a, qt := t.Kid(cis), t.Kid(cis.Opposite());
      var b, d := qt.Kid(cis), qt.Kid(cis.Opposite());
      && Holds(m, t.n, cis, Ref(a), qt.n, Above(c), t.key, t.red)
      && Holds(m, qt.n, cis, Ref(b), Ref(d), t.n, qt.key, qt.red)
      && Linked(m, a, t.n) && Linked(m, b, qt.n) && Linked(m, d, qt.n)
      && (b.Br? ==> b.n in m.cells && m.cells[b.n].key == b.key)
      && (c.In? ==> c.n in m.cells && m.cells[c.n].key == c.key && !(c.Lo() < c.key < c.Hi()))
      && (if cis.Left? then a.Bst(c.Lo(), t.key) && b.Bst(t.key, qt.key) && d.Bst(qt.key, c.Hi()) && c.Lo() < t.key < qt.key < c.Hi()
          else a.Bst(t.key, c.Hi()) && b.Bst(qt.key, t.key) && d.Bst(c.Lo(), qt.key) && c.Lo() < qt.key < t.key < c.Hi())
      && Rotated(t, cis) == Make(qt.n, qt.key, qt.red, cis, Make(t.n, t.key, t.red, cis, a, b), d)
  {
    var a, qt := t.Kid(cis), t.Kid(cis.Opposite());
    assert Linked(m, qt, t.n) && Linked(m, qt.Kid(cis), qt.n);
    assert qt.Bst(if cis.Left? then t.key else c.Lo(), if cis.Left? then c.Hi() else t.key);
  }

  /** What the writes of a rotation leave alone: the three subtrees, and all outside them. */
  lemma RotateFrames(m: Memory, m1: Memory, m': Memory, p: TreeNode, q: TreeNode, inner: TreeNode?, c: Ctx<TreeNode>,
                     l0: int, l1: int, l2: int, l3: int, k: int)
    requires m'.root == m1.root && m'.cells.Keys == m1.cells.Keys == m.cells.Keys
    requires forall x <- m.cells :: x != p && x != q && x != inner ==> m'.cells[x] == m1.cells[x]
    requires forall x <- m.cells :: x != Above(c) ==> m1.cells[x] == m.cells[x]
    requires forall x <- m.cells :: m1.cells[x].key == m.cells[x].key
    requires p in m.cells && q in m.cells && m.cells[p].key in {l1, l2} && m.cells[q].key in {l1, l2}
    requires inner in m.cells ==> m.cells[inner].key == k && l1 < k < l2
    requires c.In? ==> c.n in m.cells && !(l0 < m.cells[c.n].key < l3)
    requires l0 == c.Lo() < l1 < l2 < l3 == c.Hi()
    ensures m'.SameInside(m, l0, l1) && m'.SameInside(m, l2, l3)
    ensures inner in m.cells ==> m'.SameInside(m, l1, k) && m'.SameInside(m, k, l2)
    ensures m'.SameOutside(m1, l0, l3)
  {
    Untouched(m, m1, m', p, q, inner, Above(c), l0, l1);
    Untouched(m, m1, m', p, q, inner, Above(c), l2, l3);
    if inner in m.cells {
      Untouched(m, m1, m', p, q, inner, Above(c), l1, k);
      Untouched(m, m1, m', p, q, inner, Above(c), k, l2);
    }
  }

  lemma RotateMoved(m: Memory, m1: Memory, m': Memory, cis: Side, c: Ctx<TreeNode>, t: Shape<TreeNode>)
    requires t.Br? && t.Kid(cis.Opposite()).Br? && Focus(m, c, t)
    requires m'.root == m1.root && m'.cells.Keys == m1.cells.Keys == m.cells.Keys
    requires CtxLinked(m1, c, t.Kid(cis.Opposite()).n)
    requires var p, q, b := t.n, t.Kid(cis.Opposite()).n, t.Kid(cis.Opposite()).Kid(cis);
      && p in m.cells && q in m.cells && (b.Br? ==> b.n in m.cells)
      && m'.cells[p] == m.cells[p].(parent := q).SetChild(cis.Opposite(), Ref(b))
      && m'.cells[q] == m.cells[q].(parent := Above(c)).SetChild(cis, p)
      && (b.Br? ==> m'.cells[b.n] == m.cells[b.n].(parent := p))
      && (forall x <- m.cells :: x != p && x != q && x != Ref(b) ==> m'.cells[x] == m1.cells[x])
      && (forall x <- m.cells :: x != Above(c) ==> m1.cells[x] == m.cells[x])
      && (forall x <- m.cells :: m1.cells[x].key == m.cells[x].key)
    ensures Focus(m', c, Rotated(t, cis))
  {
    var a, qt := t.Kid(cis), t.Kid(cis.Opposite());
    var b, d := qt.Kid(cis), qt.Kid(cis.Opposite());
    var p, kp, q, kq := t.n, t.key, qt.n, qt.key;
    var lo, hi := c.Lo(), c.Hi();
    RotateParts(m, cis, c, t);
    RotatedBst(t, cis, lo, hi);
    var k := if b.Br? then b.key else 0;
    if cis.Left? {
      RotateFrames(m, m1, m', p, q, Ref(b), c, lo, kp, kq, hi, k);
      CtxFrame(m1, m', c, q);
      RotatedLinked(m, m', cis, Above(c), p, kp, t.red, a, lo, kp, q, kq, qt.red, b, kp, kq, d, kq, hi);
    } else {
      RotateFrames(m, m1, m', p, q, Ref(b), c, lo, kq, kp, hi, k);
      CtxFrame(m1, m', c, q);
      RotatedLinked(m, m', cis, Above(c), p, kp, t.red, a, kp, hi, q, kq, qt.red, b, kq, kp, d, lo, kq);
    }
  }

  lemma RotateMemory(m: Memory, cis: Side, c: Ctx<TreeNode>, t: Shape<TreeNode>)
    requires t.Br? && t.Kid(cis.Opposite()).Br? && Focus(m, c, t)
    ensures var p, q, inner := t.n, t.Kid(cis.Opposite()).n, Ref(t.Kid(cis.Opposite()).Kid(cis));
      && Rotatable(m, cis, p, q, Above(c), inner)
      && Focus(RotateWrites(m, cis, p, q, Above(c), inner), c, Rotated(t, cis))
  {
    var p, q, b := t.n, t.Kid(cis.Opposite()).n, t.Kid(cis.Opposite()).Kid(cis);
    RotateParts(m, cis, c, t);
    RelinkCtx(m, c, p, q);
    RotateCells(m, cis, p, q, Above(c), Ref(b));
    RotateMoved(m, m.Relink(Above(c), p, q), RotateWrites(m, cis, p, q, Above(c), Ref(b)), cis, c, t);
  }

  // ----- unlinking

  function Dropped(m: Memory, n: TreeNode): Memory {
    m.(cells := m.cells - {n})
  }

  /** The node in focus, which has at most the child `kid`, gives its place to it. */
  lemma SpliceMemory(m: Memory, c: Ctx<TreeNode>, t: Shape<TreeNode>, kid: Shape<TreeNode>)
    requires Focus(m, c, t) && t.Br?
    requires (t.left.Nil? && kid == t.right) || (t.right.Nil? && kid == t.left)
    ensures (Above(c) == null || Above(c) in m.cells) && (Ref(kid) == null || Ref(kid) in m.cells)
    ensures m.Relink(Above(c), t.n, Ref(kid)) == Rehung(m, c, Ref(kid))
    ensures Focus(Dropped(Rehung(m, c, Ref(kid)).Adopt(Ref(kid), Above(c)), t.n), c, kid)
  {
    FocusFacts(m, c, t);
    assert Linked(m, kid, t.n);
    RelinkCtx(m, c, t.n, Ref(kid));
    var m1 := Rehung(m, c, Ref(kid));
    var m' := Dropped(m1.Adopt(Ref(kid), Above(c)), t.n);
    var lo, hi := if kid == t.right then t.key else c.Lo(), if kid == t.right then c.Hi() else t.key;
    BstWeaken(kid, lo, hi, c.Lo(), c.Hi());
    HoleEdge(c);
    SpliceFrames(m, c, t.n, kid, lo, hi);
    AdoptLinked(m, m', kid, t.n, Above(c), lo, hi);
    CtxFrame(m1, m', c, Ref(kid));
  }

  /** What the writes of a splice leave alone. */
  lemma SpliceFrames(m: Memory, c: Ctx<TreeNode>, n: TreeNode, kid: Shape<TreeNode>, lo: int, hi: int)
    requires n in m.cells && !(lo < m.cells[n].key < hi) && c.Lo() < m.cells[n].key < c.Hi()
    requires c.In? ==> c.n in m.cells && !(c.Lo() < m.cells[c.n].key < c.Hi())
    requires kid.Br? ==> kid.n in m.cells && m.cells[kid.n].key == kid.key && lo < kid.key < hi
    requires c.Lo() <= lo && hi <= c.Hi()
    ensures var m1 := Rehung(m, c, Ref(kid));
      var m' := Dropped(m1.Adopt(Ref(kid), Above(c)), n);
      && m'.SameOutside(m1, c.Lo(), c.Hi()) && m'.root == m1.root
      && (kid.Br? ==> m'.SameInside(m, lo, kid.key) && m'.SameInside(m, kid.key, hi)
                      && kid.n in m'.cells && m'.cells[kid.n] == m.cells[kid.n].(parent := Above(c)))
  {
    var m1 := Rehung(m, c, Ref(kid));
    var m' := Dropped(m1.Adopt(Ref(kid), Above(c)), n);
    SpliceCells(m, c, n, Ref(kid));
    if kid.Br? {
      Untouched(m, m1, m', n, n, kid.n, Above(c), lo, kid.key);
      Untouched(m, m1, m', n, n, kid.n, Above(c), kid.key, hi);
    }
  }

  lemma SpliceCells(m: Memory, c: Ctx<TreeNode>, n: TreeNode, kid: TreeNode?)
    requires (c.In? ==> c.n in m.cells) && (kid == null || kid in m.cells)
    ensures var m1 := Rehung(m, c, kid);
      var m' := Dropped(m1.Adopt(kid, Above(c)), n);
      && (forall x <- m.cells :: m1.cells[x].key == m.cells[x].key)
      && (forall x <- m.cells :: x != Above(c) ==> m1.cells[x] == m.cells[x])
      && (forall x <- m.cells :: x != n && x != kid ==> x in m'.cells && m'.cells[x] == m1.cells[x])
  {}

  lemma HoleEdge(c: Ctx<TreeNode>)
    ensures c.In? ==> c.key == c.Lo() || c.key == c.Hi()
  {}

  /** The node `n` with children `left` and `right`, replaced by `next` in its place. */
  lemma SubstituteLinked(m: Memory, m': Memory, c: Ctx<TreeNode>, left: Shape<TreeNode>, key: Key, n: TreeNode,
                         right: Shape<TreeNode>, from: TreeNode?, next: TreeNode, k: Key, red: bool)
    requires c.Bst() && c.Lo() < key < k < c.Hi() && left.Bst(c.Lo(), key) && right.Bst(k, c.Hi())
    requires Linked(m, left, n) && Linked(m, right, from)
    requires next in m'.cells && m'.cells[next] == Cell(Ref(left), Ref(right), Above(c), k, red)
    requires left.Br? ==> left.n in m'.cells && m'.cells[left.n] == m.cells[left.n].(parent := next)
                          && m'.SameInside(m, c.Lo(), left.key) && m'.SameInside(m, left.key, key)
    requires right.Br? ==> right.n in m'.cells && m'.cells[right.n] == m.cells[right.n].(parent := next)
                           && m'.SameInside(m, k, right.key) && m'.SameInside(m, right.key, c.Hi())
    requires CtxLinked(m', c, next)
    ensures Focus(m', c, Br(next, k, red, left, right))
  {
    AdoptLinked(m, m', left, n, next, c.Lo(), key);
    AdoptLinked(m, m', right, from, next, k, c.Hi());
    BstWeaken(left, c.Lo(), key, c.Lo(), k);
    LinkedMake(m', next, k, red, Left, left, right, Above(c));
  }

  /** What a substitution leaves alone, told by nodes and by keys. */
  lemma SubstituteInside(m: Memory, m1: Memory, m': Memory, c: Ctx<TreeNode>, n: TreeNode, next: TreeNode,
                          left: TreeNode?, kl: int, right: TreeNode?, kr: int, key: int, k: int)
    requires m1.cells.Keys == m.cells.Keys
    requires forall x <- m.cells :: x != Above(c) ==> m1.cells[x] == m.cells[x]
    requires forall x <- m.cells :: m1.cells[x].key == m.cells[x].key
    requires forall x <- m.cells :: x != n && x != next && x != left && x != right ==> x in m'.cells && m'.cells[x] == m1.cells[x]
    requires n in m.cells && m.cells[n].key == key
    requires next in m.cells ==> m.cells[next].key == k
    requires left in m.cells ==> m.cells[left].key == kl
    requires right in m.cells ==> m.cells[right].key == kr && k < kr < c.Hi()
    requires Above(c) in m.cells ==> !(c.Lo() < m.cells[Above(c)].key < c.Hi())
    requires c.Lo() < kl < key < k < c.Hi()
    ensures m'.SameInside(m, c.Lo(), kl) && m'.SameInside(m, kl, key)
    ensures right in m.cells ==> m'.SameInside(m, k, kr) && m'.SameInside(m, kr, c.Hi())
  {}

  lemma SubstituteOutside(m: Memory, m1: Memory, m': Memory, c: Ctx<TreeNode>, n: TreeNode, next: TreeNode,
                           left: TreeNode?, kl: int, right: TreeNode?, kr: int, key: int, k: int)
    requires m1.cells.Keys == m.cells.Keys
    requires forall x <- m.cells :: x != Above(c) ==> m1.cells[x] == m.cells[x]
    requires forall x <- m.cells :: m1.cells[x].key == m.cells[x].key
    requires forall x <- m.cells :: x != n && x != next && x != left && x != right ==> x in m'.cells && m'.cells[x] == m1.cells[x]
    requires n in m.cells && m.cells[n].key == key
    requires next in m.cells ==> m.cells[next].key == k
    requires left in m.cells ==> m.cells[left].key == kl
    requires right in m.cells ==> m.cells[right].key == kr && k < kr < c.Hi()
    requires Above(c) in m.cells ==> !(c.Lo() < m.cells[Above(c)].key < c.Hi())
    requires c.Lo() < kl < key < k < c.Hi()
    ensures m'.SameOutside(m1, c.Lo(), c.Hi())
  {}

  /** The writes by which `next` takes over the parent, the colour and the left child of `n`. */
  function TakeWrites(m: Memory, n: TreeNode, a: TreeNode?, left: TreeNode, next: TreeNode): (m': Memory)
    requires n in m.cells && left in m.cells && next in m.cells && (a == null || a in m.cells)
    ensures m'.cells.Keys == m.cells.Keys
  {
    m.Relink(a, n, next).SetRed(next, m.cells[n].red).SetChild(next, Left, left).SetParent(left, next)
  }

  /** The pointers around a node `n` with two children, the leftmost node `next` of its right
      subtree being deeper down. */
  predicate Far(m: Memory, n: TreeNode, a: TreeNode?, left: TreeNode, right: TreeNode, next: TreeNode, p: TreeNode, x: TreeNode?) {
    && n in m.cells && left in m.cells && right in m.cells && next in m.cells && p in m.cells
    && (a == null || a in m.cells) && (x == null || x in m.cells)
    && n != left && n != right && n != next && n != p && n != x && n != a
    && left != right && left != next && left != p && left != x && left != a
    && right != next && right != x && right != a
    && next != p && next != x && next != a
    && p != x && p != a
    && (a == null || a != x)
    && m.cells[n].parent == a && m.cells[n].left == left && m.cells[n].right == right
    && m.cells[next].parent == p && m.cells[next].right == x
  }

  function FarWrites(m: Memory, n: TreeNode, a: TreeNode?, left: TreeNode, right: TreeNode, next: TreeNode, p: TreeNode, x: TreeNode?): (m': Memory)
    requires Far(m, n, a, left, right, next, p, x)
    ensures m'.cells.Keys == m.cells.Keys
  {
    TakeWrites(m, n, a, left, next)
     .SetParent(next, a).SetChild(p, Left, x).SetChild(next, Right, right).SetParent(right, next).Adopt(x, p)
  }

  /** The memory where only `next` has been spliced out. */
  function FarSpliced(m: Memory, next: TreeNode, p: TreeNode, x: TreeNode?): Memory
    requires p in m.cells && (x == null || x in m.cells)
  {
    Dropped(m.SetChild(p, Left, x).Adopt(x, p), next)
  }

  lemma FarNext(m: Memory, n: TreeNode, a: TreeNode?, left: TreeNode, right: TreeNode, next: TreeNode, p: TreeNode, x: TreeNode?)
    requires Far(m, n, a, left, right, next, p, x)
    ensures var m', s := Dropped(FarWrites(m, n, a, left, right, next, p, x), n), FarSpliced(m, next, p, x);
      && (a == null || a in s.cells) && n in s.cells && left in s.cells && right in s.cells && next !in s.cells
      && next in m'.cells && m'.root == s.Relink(a, n, next).root
      && m'.cells[next] == Cell(left, right, a, m.cells[next].key, m.cells[n].red)
  {}

  lemma FarLeft(m: Memory, n: TreeNode, a: TreeNode?, left: TreeNode, right: TreeNode, next: TreeNode, p: TreeNode, x: TreeNode?)
    requires Far(m, n, a, left, right, next, p, x)
    ensures var m', s := Dropped(FarWrites(m, n, a, left, right, next, p, x), n), FarSpliced(m, next, p, x);
      left in s.cells && left in m'.cells && m'.cells[left] == s.cells[left].(parent := next)
  {}

  lemma FarRight(m: Memory, n: TreeNode, a: TreeNode?, left: TreeNode, right: TreeNode, next: TreeNode, p: TreeNode, x: TreeNode?)
    requires Far(m, n, a, left, right, next, p, x)
    ensures var m', s := Dropped(FarWrites(m, n, a, left, right, next, p, x), n), FarSpliced(m, next, p, x);
      right in s.cells && right in m'.cells && m'.cells[right] == s.cells[right].(parent := next)
  {
    if p == right {
      assert FarSpliced(m, next, p, x).cells[right] == m.cells[right].SetChild(Left, x);
    } else {
      assert FarSpliced(m, next, p, x).cells[right] == m.cells[right];
    }
  }

  /** What the writes do away from `next` and its two new children. */
  lemma FarWrote(m: Memory, n: TreeNode, a: TreeNode?, left: TreeNode, right: TreeNode, next: TreeNode, p: TreeNode, x: TreeNode?, z: TreeNode)
    requires Far(m, n, a, left, right, next, p, x) && z in m.cells && z != left && z != right && z != next
    ensures var m1 := m.Relink(a, n, next);
      FarWrites(m, n, a, left, right, next, p, x).cells[z]
      == if z == p then m1.cells[z].SetChild(Left, x) else if z == x then m1.cells[z].(parent := p) else m1.cells[z]
  {}

  lemma FarOther(m: Memory, n: TreeNode, a: TreeNode?, left: TreeNode, right: TreeNode, next: TreeNode, p: TreeNode, x: TreeNode?, z: TreeNode)
    requires Far(m, n, a, left, right, next, p, x) && z != n && z != left && z != right
    requires z in FarSpliced(m, next, p, x).cells
    ensures var m' := Dropped(FarWrites(m, n, a, left, right, next, p, x), n);
      z in m'.cells && m'.cells[z] == FarSpliced(m, next, p, x).Relink(a, n, next).cells[z]
  {
    FarWrote(m, n, a, left, right, next, p, x, z);
    var s := FarSpliced(m, next, p, x);
    assert s.cells[z] == if z == p then m.cells[z].SetChild(Left, x) else if z == x then m.cells[z].(parent := p) else m.cells[z];
    if z == a { assert s.Relink(a, n, next).cells[z] == m.Relink(a, n, next).cells[z]; }
  }

  lemma FarOthers(m: Memory, n: TreeNode, a: TreeNode?, left: TreeNode, right: TreeNode, next: TreeNode, p: TreeNode, x: TreeNode?)
    requires Far(m, n, a, left, right, next, p, x)
    ensures var m', s := Dropped(FarWrites(m, n, a, left, right, next, p, x), n), FarSpliced(m, next, p, x);
      && (a == null || a in s.cells)
      && forall z <- s.cells :: z != n && z != left && z != right ==> z in m'.cells && m'.cells[z] == s.Relink(a, n, next).cells[z]
  {
    var m', s := Dropped(FarWrites(m, n, a, left, right, next, p, x), n), FarSpliced(m, next, p, x);
    forall z | z in s.cells && z != n && z != left && z != right
      ensures z in m'.cells && m'.cells[z] == s.Relink(a, n, next).cells[z]
    {
      FarOther(m, n, a, left, right, next, p, x, z);
    }
  }

  /** The leftmost node `next` below the right child of the node in focus, on its own. */
  lemma FarZip(m: Memory, c: Ctx<TreeNode>, t: Shape<TreeNode>) returns (d: Ctx<TreeNode>, next: Shape<TreeNode>)
    requires Focus(m, c, t) && t.Br? && t.left.Br? && t.right.Br? && t.right.left.Br?
    ensures next == Min(t.right) && Focus(m, d, next) && d == MinZip(In(t.n, t.key, t.red, Right, t.left, c), t.right).0
    ensures d.In? && d.s.Left? && t.key < next.key < d.key < c.Hi()
    ensures Plug(d, next.right) == Plug(c, t.(right := WithoutMin(t.right)))
  {
    var a := In(t.n, t.key, t.red, Right, t.left, c);
    d, next := MinZip(a, t.right).0, MinZip(a, t.right).1;
    MinZipPlug(a, t.right);
    MinBst(t.right, t.key, c.Hi());
    MinZipParent(a, t.right, t.key, c.Hi());
    FocusWhole(m, c, t);
    FocusWhole(m, d, next);
  }

  lemma FarPointers(m: Memory, c: Ctx<TreeNode>, t: Shape<TreeNode>, d: Ctx<TreeNode>, next: Shape<TreeNode>)
    requires Focus(m, c, t) && t.Br? && t.left.Br? && t.right.Br? && t.right.left.Br?
    requires next.Br? && next.left.Nil? && Focus(m, d, next) && d.In? && d.s.Left? && t.key < next.key < d.key < c.Hi()
    requires next.key < t.right.key
    ensures Far(m, t.n, Above(c), t.left.n, t.right.n, next.n, d.n, Ref(next.right))
    ensures m.cells[t.left.n].key == t.left.key && m.cells[t.right.n].key == t.right.key
    ensures m.cells[t.n].key == t.key && m.cells[t.n].red == t.red && m.cells[next.n].key == next.key
    ensures next.right.Br? ==> m.cells[next.right.n].key == next.right.key && next.key < next.right.key < d.key
  {
    FocusFacts(m, c, t);
    FocusFacts(m, d, next);
    HoleEdge(c);
    assert Linked(m, t.left, t.n) && Linked(m, t.right, t.n) && Linked(m, next.right, next.n);
    assert t.left.Bst(c.Lo(), t.key) && t.right.Bst(t.key, c.Hi()) && next.right.Bst(next.key, d.key);
  }

  lemma FarMemory(m: Memory, c: Ctx<TreeNode>, t: Shape<TreeNode>) returns (d: Ctx<TreeNode>, next: Shape<TreeNode>)
    requires Focus(m, c, t) && t.Br? && t.left.Br? && t.right.Br? && t.right.left.Br?
    ensures next == Min(t.right) && d.In? && d == MinZip(In(t.n, t.key, t.red, Right, t.left, c), t.right).0
    ensures Far(m, t.n, Above(c), t.left.n, t.right.n, next.n, d.n, Ref(next.right))
    ensures Focus(Dropped(FarWrites(m, t.n, Above(c), t.left.n, t.right.n, next.n, d.n, Ref(next.right)), t.n),
                  c, Br(next.n, next.key, t.red, t.left, WithoutMin(t.right)))
  {
    d, next := FarZip(m, c, t);
    MinBst(t.right, t.key, c.Hi());
    FarPointers(m, c, t, d, next);
    var n, a, left, right, p, x := t.n, Above(c), t.left.n, t.right.n, d.n, Ref(next.right);
    var w := WithoutMin(t.right);
    var s := FarSpliced(m, next.n, p, x);
    SpliceMemory(m, d, next, next.right);
    FocusWhole(s, d, next.right);
    FocusWhole(s, c, t.(right := w));
    FarNext(m, n, a, left, right, next.n, p, x);
    FarLeft(m, n, a, left, right, next.n, p, x);
    FarRight(m, n, a, left, right, next.n, p, x);
    FarOthers(m, n, a, left, right, next.n, p, x);
    var m' := Dropped(FarWrites(m, n, a, left, right, next.n, p, x), n);
    Substituted(s, m', c, t.(right := w), n, next.n, next.key);
  }

  /** A node of the tree replaced by `next`, which is none, or which was its right child. */
  lemma Substituted(m: Memory, m': Memory, c: Ctx<TreeNode>, t: Shape<TreeNode>, from: TreeNode, next: TreeNode, k: Key)
    requires t.Br? && t.left.Br? && c.Bst() && t.left.Bst(c.Lo(), t.key) && t.right.Bst(k, c.Hi())
    requires c.Lo() < t.key < k < c.Hi()
    requires t.n in m.cells && m.cells[t.n].key == t.key && CtxLinked(m, c, t.n)
    requires Linked(m, t.left, t.n) && Linked(m, t.right, from)
    requires next in m.cells ==> m.cells[next].key == k
    requires Above(c) == null || Above(c) in m.cells
    requires var m1 := m.Relink(Above(c), t.n, next);
      && m'.root == m1.root
      && forall z <- m.cells :: z != t.n && z != next && z != t.left.n && z != Ref(t.right) ==> z in m'.cells && m'.cells[z] == m1.cells[z]
    requires next in m'.cells && m'.cells[next] == Cell(t.left.n, Ref(t.right), Above(c), k, t.red)
    requires t.left.n in m'.cells && m'.cells[t.left.n] == m.cells[t.left.n].(parent := next)
    requires t.right.Br? ==> t.right.n in m'.cells && m'.cells[t.right.n] == m.cells[t.right.n].(parent := next)
    requires c.In? ==> t.n != Ref(c.sib)
    ensures Focus(m', c, Br(next, k, t.red, t.left, t.right))
  {
    RelinkCtx(m, c, t.n, next);
    var m1 := Rehung(m, c, next);
    var kr := if t.right.Br? then t.right.key else k;
    FocusKeys(m, c, t, from, k);
    SubstituteInside(m, m1, m', c, t.n, next, t.left.n, t.left.key, Ref(t.right), kr, t.key, k);
    SubstituteOutside(m, m1, m', c, t.n, next, t.left.n, t.left.key, Ref(t.right), kr, t.key, k);
    CtxFrame(m1, m', c, next);
    SubstituteLinked(m, m', c, t.left, t.key, t.n, t.right, from, next, k, t.red);
  }

  lemma FocusKeys(m: Memory, c: Ctx<TreeNode>, t: Shape<TreeNode>, from: TreeNode, k: Key)
    requires t.Br? && t.left.Br? && t.left.Bst(c.Lo(), t.key) && t.right.Bst(k, c.Hi())
    requires CtxLinked(m, c, t.n) && Linked(m, t.left, t.n) && Linked(m, t.right, from)
    ensures t.left.n in m.cells && m.cells[t.left.n].key == t.left.key && c.Lo() < t.left.key < t.key
    ensures t.right.Br? ==> t.right.n in m.cells && m.cells[t.right.n].key == t.right.key && k < t.right.key < c.Hi()
    ensures c.In? ==> c.n in m.cells && m.cells[c.n].key == c.key && !(c.Lo() < c.key < c.Hi())
  {}

  /** The pointers around a node whose right child `next` is the leftmost of its subtree. */
  predicate Near(m: Memory, n: TreeNode, a: TreeNode?, left: TreeNode, next: TreeNode, x: TreeNode?) {
    && n in m.cells && left in m.cells && next in m.cells
    && (a == null || a in m.cells) && (x == null || x in m.cells)
    && n != left && n != next && n != x && n != a
    && left != next && left != x && left != a && next != x && next != a && (a == null || a != x)
    && m.cells[n].parent == a && m.cells[n].left == left && m.cells[n].right == next && m.cells[next].right == x
  }

  function NearWrites(m: Memory, n: TreeNode, a: TreeNode?, left: TreeNode, next: TreeNode, x: TreeNode?): (m': Memory)
    requires Near(m, n, a, left, next, x)
    ensures m'.cells.Keys == m.cells.Keys
  {
    TakeWrites(m, n, a, left, next).SetParent(next, a).Adopt(x, next)
  }

  lemma NearCells(m: Memory, n: TreeNode, a: TreeNode?, left: TreeNode, next: TreeNode, x: TreeNode?)
    requires Near(m, n, a, left, next, x)
    ensures var m' := Dropped(NearWrites(m, n, a, left, next, x), n);
      && next in m'.cells && left in m'.cells && (x == null || x in m'.cells)
      && m'.root == m.Relink(a, n, next).root
      && m'.cells[next] == Cell(left, x, a, m.cells[next].key, m.cells[n].red)
      && m'.cells[left] == m.cells[left].(parent := next)
      && (x != null ==> m'.cells[x] == m.cells[x].(parent := next))
      && forall z <- m.cells :: z != n && z != next && z != left && z != x ==> z in m'.cells && m'.cells[z] == m.Relink(a, n, next).cells[z]
  {}

  lemma NearMemory(m: Memory, c: Ctx<TreeNode>, t: Shape<TreeNode>)
    requires Focus(m, c, t) && t.Br? && t.left.Br? && t.right.Br? && t.right.left.Nil?
    ensures Near(m, t.n, Above(c), t.left.n, t.right.n, Ref(t.right.right))
    ensures Focus(Dropped(NearWrites(m, t.n, Above(c), t.left.n, t.right.n, Ref(t.right.right)), t.n),
                  c, Br(t.right.n, t.right.key, t.red, t.left, WithoutMin(t.right)))
  {
    var r := t.right;
    FocusFacts(m, c, t);
    HoleEdge(c);
    assert Linked(m, t.left, t.n) && Linked(m, r, t.n) && Linked(m, r.right, r.n);
    assert t.left.Bst(c.Lo(), t.key) && r.Bst(t.key, c.Hi()) && r.right.Bst(r.key, c.Hi());
    FocusKeys(m, c, t.(right := r.right), r.n, r.key);
    NearCells(m, t.n, Above(c), t.left.n, r.n, Ref(r.right));
    var m' := Dropped(NearWrites(m, t.n, Above(c), t.left.n, r.n, Ref(r.right)), t.n);
    Substituted(m, m', c, t.(right := r.right), r.n, r.n, r.key);
  }

  /** The node that left the memory is in the tree no more. */
  lemma RemovedContents(m: Memory, c: Ctx<TreeNode>, t: Shape<TreeNode>, d: Ctx<TreeNode>, x: Shape<TreeNode>, red: bool)
    requires t.Br? && Unlinked(c, t, d, x, red) && Focus(m, Top, Delete(c, t)) && t.n !in m.cells
    ensures Delete(c, t).Nodes() == Plug(c, t).Nodes() - {t.n}
    ensures Delete(c, t).Entries() == Plug(c, t).Entries() - {(t.key, t.n)}
  {
    var w := Delete(c, t);
    DeleteContents(c, t, d, x, red);
    LinkedAlloc(m, w, null);
    if (t.key, t.n) in w.Entries() { EntryBounds(w, -1, KEY_LIMIT, t.key, t.n); }
  }

  lemma {:induction false} LinkedAlloc(m: Memory, t: Shape<TreeNode>, up: TreeNode?)
    requires Linked(m, t, up)
    ensures t.Nodes() <= m.cells.Keys
  {
    if t.Br? {
      LinkedAlloc(m, t.left, t.n);
      LinkedAlloc(m, t.right, t.n);
    }
  }

  class Tree {
    var root: TreeNode?
    ghost var shape: Shape<TreeNode>
    ghost var cells: map<TreeNode, Cell>

    ghost function Mem(): Memory
      reads this
    {
      Memory(root, cells)
    }

    /** The ghost memory is what the nodes really hold. */
    ghost predicate Real()
      reads this, cells.Keys
    {
      forall x <- cells :: cells[x] == Cell(x.left, x.right, x.parent, x.key, x.red)
    }

    ghost predicate Valid()
      reads this, cells.Keys
    {
      Real() && cells.Keys == shape.Nodes() && shape.Sound() && Focus(Mem(), Top, shape)
    }

    constructor ()
      ensures Valid() && shape == Nil
    {
      root, shape, cells := null, Nil, map[];
      new;
      assert shape.Balanced(0);
    }

    // ----- one write each, with the ghost memory kept in step

    method SetRoot(v: TreeNode?)
      requires Real()
      modifies this`root
      ensures Real() && Mem() == old(Mem()).(root := v)
    {
      root := v;
    }

    method SetChild(n: TreeNode, s: Side, v: TreeNode?)
      requires Real() && n in cells
      modifies this`cells, n
      ensures Real() && Mem() == old(Mem()).SetChild(n, s, v)
    {
      if s.Left? { n.left := v; } else { n.right := v; }
      cells := cells[n := cells[n].SetChild(s, v)];
    }

    method SetParent(n: TreeNode, v: TreeNode?)
      requires Real() && n in cells
      modifies this`cells, n
      ensures Real() && Mem() == old(Mem()).SetParent(n, v) && n.right == old(n.right)
    {
      n.parent := v;
      cells := cells[n := cells[n].(parent := v)];
    }

    method SetRed(n: TreeNode, v: bool)
      requires Real() && n in cells
      modifies this`cells, n
      ensures Real() && Mem() == old(Mem()).SetRed(n, v)
    {
      n.red := v;
      cells := cells[n := cells[n].(red := v)];
    }

    function Child(n: TreeNode, s: Side): TreeNode?
      reads n
    {
      if s.Left? then n.left else n.right
    }

    method Relink(parent: TreeNode?, from: TreeNode?, to: TreeNode?)
      requires Real() && (parent == null || parent in cells)
      modifies this`root, this`cells, if parent == null then {} else {parent}
      ensures Real() && Mem() == old(Mem()).Relink(parent, from, to)
    {
      if parent != null {
        SetChild(parent, if parent.left == from then Left else Right, to);
      } else {
        SetRoot(to);
      }
    }

    method Adopt(child: TreeNode?, up: TreeNode?)
      requires Real() && (child == null || child in cells)
      modifies this`cells, if child == null then {} else {child}
      ensures Real() && Mem() == old(Mem()).Adopt(child, up)
    {
      if child != null { SetParent(child, up); }
    }

    method RotateLinks(node: TreeNode, cis: Side, ghost parent0: TreeNode?, ghost q0: TreeNode, ghost inner0: TreeNode?)
      requires Real() && Rotatable(Mem(), cis, node, q0, parent0, inner0)
      modifies this`root, this`cells, cells.Keys
      ensures Real() && cells.Keys == old(cells).Keys
      ensures Mem() == RotateWrites(old(Mem()), cis, node, q0, parent0, inner0)
    {
      var p := node;
      var q := Child(node, cis.Opposite());
      var parent := p.parent;
      Relink(parent, p, q);
      SetParent(q, parent);
      SetParent(p, q);
      var inner := Child(q, cis);
      assert inner == cells[q].Child(cis) == inner0;
      SetChild(p, cis.Opposite(), inner);
      Adopt(inner, p);
      SetChild(q, cis, p);
    }

    method Rotate(node: TreeNode, cis: Side, ghost c: Ctx<TreeNode>, ghost t: Shape<TreeNode>)
      requires t.Br? && t.n == node && t.Kid(cis.Opposite()).Br?
      requires Real() && Focus(Mem(), c, t)
      modifies this`root, this`cells, cells.Keys
      ensures Real() && cells.Keys == old(cells).Keys && Focus(Mem(), c, Rotated(t, cis))
    {
      RotateMemory(Mem(), cis, c, t);
      RotateLinks(node, cis, Above(c), t.Kid(cis.Opposite()).n, Ref(t.Kid(cis.Opposite()).Kid(cis)));
    }

    method Paint(n: TreeNode, red: bool, ghost c: Ctx<TreeNode>, ghost t: Shape<TreeNode>)
      requires Real() && t.Br? && t.n == n && Focus(Mem(), c, t)
      modifies this`cells, cells.Keys
      ensures Real() && cells.Keys == old(cells).Keys && Focus(Mem(), c, Painted(t, red))
    {
      PaintMemory(Mem(), c, t, red);
      SetRed(n, red);
    }

    // ----- lookup

    method Find(key: Key) returns (r: TreeNode?, ghost steps: nat)
      requires Valid()
      ensures r != null ==> (key, r) in shape.Entries()
      ensures r == null ==> !shape.Has(key)
      ensures Pow2(steps) <= (|shape.Entries()| + 1) * (|shape.Entries()| + 1)
    {
      var node := root;
      ghost var c, t := Top, shape;
      steps := 0;
      while node != null
        invariant Focus(Mem(), c, t) && node == Ref(t) && Plug(c, t) == shape && c.Lo() < key < c.Hi()
        invariant steps + t.Height() <= shape.Height()
        decreases t
      {
        FocusFacts(Mem(), c, t);
        PlugParts(c, t);
        steps := steps + 1;
        if key < node.key {
          node := node.left;
          FocusDown(Mem(), c, t, Left);
          c, t := In(t.n, t.key, t.red, Left, t.right, c), t.left;
        } else if key > node.key {
          node := node.right;
          FocusDown(Mem(), c, t, Right);
          c, t := In(t.n, t.key, t.red, Right, t.left, c), t.right;
        } else {
          r := node;
          SearchShort(shape, steps);
          return;
        }
      }
      r := null;
      SearchShort(shape, steps);
      PlugHas(c, t, key);
      HoleKeyFresh(c, key);
    }

    // ----- insertion

    /** Red uncle: the red moves from parent and uncle to the grandparent. */
    method PushRedUp(parent: TreeNode, uncle: TreeNode, grandparent: TreeNode, ghost c: Ctx<TreeNode>, ghost t: Shape<TreeNode>)
      requires Real() && Focus(Mem(), c, t)
      requires c.In? && c.up.In? && c.up.sib.Br?
      requires parent == c.n && uncle == c.up.sib.n && grandparent == c.up.n
      modifies this`cells, cells.Keys
      ensures Real() && cells.Keys == old(cells).Keys
      ensures Focus(Mem(), c.up.up, Make(c.up.n, c.up.key, true, c.up.s,
                    Make(c.n, c.key, false, c.s, t, c.sib), Painted(c.up.sib, false)))
    {
      ghost var g, p := c.up, Make(c.n, c.key, c.red, c.s, t, c.sib);
      ghost var u := g.sib;
      FocusUp(Mem(), c, t);
      FocusSibling(Mem(), g, p);
      Paint(uncle, false, In(g.n, g.key, g.red, g.s.Opposite(), p, g.up), u);
      g := g.(sib := Painted(u, false));
      FocusSibling(Mem(), g, p);
      Paint(parent, false, g, p);
      FocusUp(Mem(), g, Painted(p, false));
      Paint(grandparent, true, g.up, Make(g.n, g.key, g.red, g.s, Painted(p, false), g.sib));
    }

    /** Black uncle, node on the inner side: a rotation brings it outside. */
    method Straighten(node: TreeNode, parent: TreeNode, s: Side, ghost c: Ctx<TreeNode>, ghost t: Shape<TreeNode>)
      returns (n: TreeNode, p: TreeNode)
      requires Real() && Focus(Mem(), c, t)
      requires t.Br? && c.In? && c.up.In? && c.up.s == s
      requires node == t.n && parent == c.n
      modifies this`root, this`cells, cells.Keys
      ensures Real() && cells.Keys == old(cells).Keys
      ensures Focus(Mem(), c.up, Straightened(c, t))
      ensures Straightened(c, t).n == p && Ref(Straightened(c, t).Kid(s)) == n
    {
      ghost var pt, x := Make(c.n, c.key, c.red, c.s, t, c.sib), Straightened(c, t);
      n, p := node, parent;
      FocusFacts(Mem(), c, t);
      FocusUp(Mem(), c, t);
      if node == Child(parent, s.Opposite()) {
        Rotate(parent, s, c.up, pt);
        n := parent;
        FocusDown(Mem(), c.up, x, s);
        FocusFacts(Mem(), In(x.n, x.key, x.red, s, x.Kid(s.Opposite()), c.up), x.Kid(s));
        p := n.parent;
      }
    }

    /** Black uncle: one or two rotations end the repair. */
    method RotateRedUp(node: TreeNode, parent: TreeNode, grandparent: TreeNode, s: Side, ghost c: Ctx<TreeNode>, ghost t: Shape<TreeNode>)
      returns (n: TreeNode, ghost d: Ctx<TreeNode>, ghost u: Shape<TreeNode>)
      requires Real() && Focus(Mem(), c, t)
      requires t.Br? && c.In? && c.up.In? && c.up.s == s
      requires node == t.n && parent == c.n && grandparent == c.up.n
      modifies this`root, this`cells, cells.Keys
      ensures Real() && cells.Keys == old(cells).Keys
      ensures Focus(Mem(), d, u) && u.Br? && u.n == n && d.In? && !d.red && d.up == c.up.up
      ensures Plug(d, u) == Plug(c.up.up, Rotated(Make(c.up.n, c.up.key, true, s, Painted(Straightened(c, t), false), c.up.sib), s.Opposite()))
    {
      ghost var g, x := c.up, Straightened(c, t);
      var p;
      n, p := Straighten(node, parent, s, c, t);
      Paint(p, false, g, x);
      x := Painted(x, false);
      FocusUp(Mem(), g, x);
      Paint(grandparent, true, g.up, Make(g.n, g.key, g.red, s, x, g.sib));
      ghost var low := Make(g.n, g.key, true, s, x, g.sib);
      Rotate(grandparent, s.Opposite(), g.up, low);
      d, u := In(x.n, x.key, false, s, Make(g.n, g.key, true, s.Opposite(), g.sib, x.Kid(s.Opposite())), g.up), x.Kid(s);
      assert Rotated(low, s.Opposite()) == Make(x.n, x.key, false, s, u, d.sib);
      FocusUp(Mem(), d, u);
    }

    /** One round of the repair after an insertion. */
    method InsertStep(node: TreeNode, parent: TreeNode, ghost c: Ctx<TreeNode>, ghost t: Shape<TreeNode>)
      returns (n: TreeNode, ghost d: Ctx<TreeNode>, ghost u: Shape<TreeNode>)
      requires Real() && Focus(Mem(), c, t)
      requires t.Br? && c.In? && c.red && c.BlackTop()
      requires node == t.n && parent == c.n
      modifies this`root, this`cells, cells.Keys
      ensures Real() && cells.Keys == old(cells).Keys
      ensures Focus(Mem(), d, u) && u.Br? && u.n == n
      ensures FixInsert(d, u) == FixInsert(c, t) && d.BlackTop() && d.Depth() < c.Depth()
    {
      assert c.up.In?;
      ghost var g, pt := c.up, Make(c.n, c.key, c.red, c.s, t, c.sib);
      FocusFacts(Mem(), c, t);
      FocusUp(Mem(), c, t);
      FocusFacts(Mem(), g, pt);
      var grandparent := parent.parent;
      var s := if parent == grandparent.left then Left else Right;
      assert s == g.s;
      var uncle := Child(grandparent, s.Opposite());
      if uncle != null && uncle.red {
        PushRedUp(parent, uncle, grandparent, c, t);
        n := grandparent;
        d, u := g.up, Make(g.n, g.key, true, g.s, Make(c.n, c.key, false, c.s, t, c.sib), Painted(g.sib, false));
      } else {
        n, d, u := RotateRedUp(node, parent, grandparent, s, c, t);
      }
    }

    /** The loop that repairs a red node under a red parent. */
    method RebalanceAfterInsert(inserted: TreeNode, ghost c0: Ctx<TreeNode>, ghost t0: Shape<TreeNode>)
      requires Real() && Focus(Mem(), c0, t0) && t0.Br? && t0.n == inserted && c0.BlackTop()
      modifies this`root, this`cells, cells.Keys
      ensures Real() && cells.Keys == old(cells).Keys && Focus(Mem(), Top, FixInsert(c0, t0))
    {
      var node := inserted;
      ghost var c, t := c0, t0;
      FocusFacts(Mem(), c, t);
      var parent := node.parent;
      while parent != null && parent.red
        invariant Real() && cells.Keys == old(cells).Keys
        invariant Focus(Mem(), c, t) && t.Br? && t.n == node && parent == Above(c) && c.BlackTop()
        invariant FixInsert(c, t) == FixInsert(c0, t0)
        decreases c.Depth()
      {
        FocusFacts(Mem(), c, t);
        node, c, t := InsertStep(node, parent, c, t);
        FocusFacts(Mem(), c, t);
        parent := node.parent;
      }
      FocusFacts(Mem(), c, t);
      FocusWhole(Mem(), c, t);
    }

    /** The descent to the place of a new key, and the link to the new node there. */
    method Attach(node: TreeNode, key: Key) returns (r: int, parent: TreeNode?, ghost c: Ctx<TreeNode>)
      requires Valid() && node !in cells
      modifies this`root, this`cells, cells.Keys
      ensures Real() && cells.Keys == old(cells).Keys
      ensures r == -1 || r == 0
      ensures r == -1 ==> Mem() == old(Mem()) && shape.Has(key)
      ensures r == 0 ==> Focus(old(Mem()), c, Nil) && Plug(c, Nil) == shape && c.Lo() < key < c.Hi()
      ensures r == 0 ==> Mem() == Rehung(old(Mem()), c, node) && parent == Above(c)
    {
      ghost var m, t := Mem(), shape;
      c := Top;
      parent := root;
      r := 0;
      if parent != null {
        while true
          invariant parent == Ref(t) && t.Br? && Focus(m, c, t) && Plug(c, t) == shape && c.Lo() < key < c.Hi()
          invariant Real() && Mem() == m
          decreases t
        {
          FocusFacts(m, c, t);
          var s := if key < parent.key then Left else Right;
          if key == parent.key {
            PlugHas(c, t, key);
            r := -1;
            return;
          }
          FocusDown(m, c, t, s);
          c, t := In(t.n, t.key, t.red, s, t.Kid(s.Opposite()), c), t.Kid(s);
          if Child(parent, s) != null {
            parent := Child(parent, s);
          } else {
            SetChild(parent, s, node);
            return;
          }
        }
      } else {
        SetRoot(node);
      }
    }

    /** The fields of the new node, a red leaf. */
    method InitLeaf(node: TreeNode, parent: TreeNode?, key: Key, ghost m: Memory, ghost c: Ctx<TreeNode>)
      requires Real() && node !in cells && parent == Above(c)
      requires Focus(m, c, Nil) && Mem() == Rehung(m, c, node) && c.Lo() < key < c.Hi()
      modifies this`cells, node
      ensures Real() && cells.Keys == old(cells).Keys + {node}
      ensures Focus(Mem(), c, Br(node, key, true, Nil, Nil))
    {
      LeafMemory(m, c, node, key);
      node.key := key;
      node.left, node.right := null, null;
      node.parent := parent;
      node.red := true;
      cells := cells[node := Cell(null, null, parent, key, true)];
    }

    /** The root is painted black. */
    method BlackenRoot(ghost w: Shape<TreeNode>)
      requires Real() && w.Br? && Focus(Mem(), Top, w)
      modifies this`cells, cells.Keys
      ensures Real() && cells.Keys == old(cells).Keys && Focus(Mem(), Top, Painted(w, false))
    {
      FocusFacts(Mem(), Top, w);
      Paint(root, false, Top, w);
    }

    ghost method Settle(w: Shape<TreeNode>)
      requires Real() && cells.Keys == w.Nodes() && w.Sound() && Focus(Mem(), Top, w)
      modifies this`shape
      ensures Valid() && shape == w
    {
      shape := w;
    }

    method InsertAt(node: TreeNode, parent: TreeNode?, key: Key, ghost m: Memory, ghost c: Ctx<TreeNode>)
      requires Real() && node !in cells && parent == Above(c) && c.BlackTop()
      requires FixInsert(c, Br(node, key, true, Nil, Nil)).Br?
      requires Focus(m, c, Nil) && Mem() == Rehung(m, c, node) && c.Lo() < key < c.Hi()
      modifies this`root, this`cells, cells.Keys, node
      ensures Real() && cells.Keys == old(cells).Keys + {node}
      ensures Focus(Mem(), Top, Inserted(c, node, key))
    {
      InitLeaf(node, parent, key, m, c);
      RebalanceAfterInsert(node, c, Br(node, key, true, Nil, Nil));
      BlackenRoot(FixInsert(c, Br(node, key, true, Nil, Nil)));
    }

    method Add(node: TreeNode, key: Key) returns (r: int)
      requires Valid() && node !in cells
      modifies this, cells.Keys, node
      ensures Valid()
      ensures r == if old(shape).Has(key) then -1 else 0
      ensures r == 0 ==> shape.Entries() == old(shape).Entries() + {(key, node)}
                         && cells.Keys == old(cells).Keys + {node}
      ensures r == -1 ==> shape == old(shape) && Mem() == old(Mem())
    {
      ghost var m := Mem();
      ghost var c;
      var parent;
      r, parent, c := Attach(node, key);
      if r == 0 {
        InsertSound(c, node, key);
        InsertAt(node, parent, key, m, c);
        Settle(Inserted(c, node, key));
      }
    }

    // ----- removal

    /** The node no longer belongs to the tree. */
    ghost method Drop(node: TreeNode)
      requires Real()
      modifies this`cells
      ensures Real() && Mem() == Dropped(old(Mem()), node)
    {
      cells := cells - {node};
    }

    method TakePlace(node: TreeNode, next: TreeNode, ghost a: TreeNode?, ghost l: TreeNode)
      requires Real() && node in cells && l in cells && next in cells && (a == null || a in cells)
      requires node.parent == a && node.left == l && node != a && node != next && next != a && next != l
      modifies this`root, this`cells, cells.Keys
      ensures Real() && cells.Keys == old(cells).Keys
      ensures Mem() == TakeWrites(old(Mem()), node, a, l, next)
      ensures next.parent == old(next.parent) && next.right == old(next.right)
    {
      var parent, left := node.parent, node.left;
      Relink(parent, node, next);
      SetRed(next, node.red);
      SetChild(next, Left, left);
      SetParent(left, next);
    }

    /** A node with one child or none gives its place to it. */
    method UnlinkOne(node: TreeNode, next: TreeNode?, ghost c: Ctx<TreeNode>, ghost t: Shape<TreeNode>, ghost kid: Shape<TreeNode>)
      requires Real() && Focus(Mem(), c, t) && t.Br? && t.n == node && Ref(kid) == next
      requires (t.left.Nil? && kid == t.right) || (t.right.Nil? && kid == t.left)
      modifies this`root, this`cells, cells.Keys
      ensures Real() && cells.Keys == old(cells).Keys - {node} && Focus(Mem(), c, kid)
    {
      SpliceMemory(Mem(), c, t, kid);
      FocusFacts(Mem(), c, t);
      var parent := node.parent;
      Relink(parent, node, next);
      Adopt(next, parent);
      Drop(node);
    }

    /** A node with two children gives its place to `next`, its right child. */
    method UnlinkNear(node: TreeNode, next: TreeNode, ghost c: Ctx<TreeNode>, ghost t: Shape<TreeNode>)
      requires Real() && Focus(Mem(), c, t) && t.Br? && t.n == node
      requires t.left.Br? && t.right.Br? && t.right.left.Nil? && next == t.right.n
      modifies this`root, this`cells, cells.Keys
      ensures Real() && cells.Keys == old(cells).Keys - {node}
      ensures Focus(Mem(), c, Br(next, t.right.key, t.red, t.left, WithoutMin(t.right)))
    {
      NearMemory(Mem(), c, t);
      NearLinks(node, next, Above(c), t.left.n, Ref(t.right.right));
      Drop(node);
    }

    method NearLinks(node: TreeNode, next: TreeNode, ghost a: TreeNode?, ghost l: TreeNode, ghost x: TreeNode?)
      requires Real() && Near(Mem(), node, a, l, next, x)
      modifies this`root, this`cells, cells.Keys
      ensures Real() && cells.Keys == old(cells).Keys
      ensures Mem() == NearWrites(old(Mem()), node, a, l, next, x)
    {
      var parent := node.parent;
      TakePlace(node, next, a, l);
      SetParent(next, parent);
      var n := next.right;
      Adopt(n, next);
    }

    /** A node with two children gives its place to `next`, deeper down on its right. */
    method UnlinkFar(node: TreeNode, next: TreeNode, ghost c: Ctx<TreeNode>, ghost t: Shape<TreeNode>)
      returns (n: TreeNode?, parent: TreeNode?)
      requires Real() && Focus(Mem(), c, t) && t.Br? && t.n == node
      requires t.left.Br? && t.right.Br? && t.right.left.Br? && next == Min(t.right).n
      modifies this`root, this`cells, cells.Keys
      ensures Real() && cells.Keys == old(cells).Keys - {node}
      ensures Focus(Mem(), c, Br(next, Min(t.right).key, t.red, t.left, WithoutMin(t.right)))
      ensures n == Ref(Min(t.right).right)
      ensures parent == Above(MinZip(In(t.n, t.key, t.red, Right, t.left, c), t.right).0)
    {
      ghost var d, nx := FarMemory(Mem(), c, t);
      n, parent := next.right, next.parent;
      FarLinks(node, next, Above(c), t.left.n, t.right.n, d.n, Ref(nx.right));
      Drop(node);
    }

    method FarLinks(node: TreeNode, next: TreeNode, ghost a: TreeNode?, ghost l: TreeNode, ghost r: TreeNode, ghost p: TreeNode, ghost x: TreeNode?)
      requires Real() && Far(Mem(), node, a, l, r, next, p, x)
      modifies this`root, this`cells, cells.Keys
      ensures Real() && cells.Keys == old(cells).Keys
      ensures Mem() == FarWrites(old(Mem()), node, a, l, r, next, p, x)
    {
      var parent, right := node.parent, node.right;
      TakePlace(node, next, a, l);
      FarLinksBelow(next, parent, right, p, x);
    }

    method FarLinksBelow(next: TreeNode, parent: TreeNode?, right: TreeNode, ghost p: TreeNode, ghost x: TreeNode?)
      requires Real() && next in cells && right in cells && p in cells && (x == null || x in cells)
      requires next.parent == p && next.right == x && p != next && x != next && right != next
      modifies this`cells, cells.Keys
      ensures Real() && cells.Keys == old(cells).Keys
      ensures Mem() == old(Mem()).SetParent(next, parent).SetChild(p, Left, x)
                         .SetChild(next, Right, right).SetParent(right, next).Adopt(x, p)
    {
      var above := next.parent;
      SetParent(next, parent);
      var n := next.right;
      SetChild(above, Left, n);
      SetChild(next, Right, right);
      SetParent(right, next);
      Adopt(n, above);
    }

    /** The leftmost node of a subtree. */
    method Leftmost(right: TreeNode, ghost r: Shape<TreeNode>, ghost up: TreeNode?) returns (next: TreeNode)
      requires Real() && Linked(Mem(), r, up) && r.Br? && r.n == right
      ensures next == Min(r).n && next.red == Min(r).red && next.key == Min(r).key && next.right == Ref(Min(r).right)
    {
      next := right;
      ghost var t, u := r, up;
      while next.left != null
        invariant Linked(Mem(), t, u) && t.Br? && t.n == next && Min(t) == Min(r)
        decreases t
      {
        assert Linked(Mem(), t.left, t.n);
        next := next.left;
        t, u := t.left, t.n;
      }
    }

    /** Red sibling: a rotation gives the short hole a black one. */
    method RotateSibling(parent: TreeNode, sibling: TreeNode, ghost c: Ctx<TreeNode>, ghost t: Shape<TreeNode>, s: Side)
      requires Real() && Focus(Mem(), c, t)
      requires c.In? && c.s == s && c.sib.IsRed() && parent == c.n && sibling == c.sib.n
      modifies this`root, this`cells, cells.Keys
      ensures Real() && cells.Keys == old(cells).Keys && Focus(Mem(), BlackSibling(c), t)
    {
      ghost var sib := Painted(c.sib, false);
      ghost var c1 := c.(sib := sib);
      FocusSibling(Mem(), c, t);
      Paint(sibling, false, In(c.n, c.key, c.red, s.Opposite(), t, c.up), c.sib);
      FocusSibling(Mem(), c1, t);
      FocusUp(Mem(), c1, t);
      Paint(parent, true, c.up, Make(c.n, c.key, c.red, s, t, sib));
      ghost var p := Make(c.n, c.key, true, s, t, sib);
      Rotate(parent, s, c.up, p);
      FocusDown(Mem(), c.up, Rotated(p, s), s);
      FocusUp(Mem(), BlackSibling(c), t);
    }

    method RotateOutward(sibling: TreeNode, s: Side, ghost cs: Ctx<TreeNode>, ghost w: Shape<TreeNode>)
      requires Real() && Focus(Mem(), cs, w) && w.Br? && w.n == sibling && w.Kid(s).IsRed()
      modifies this`root, this`cells, cells.Keys
      ensures Real() && cells.Keys == old(cells).Keys
      ensures Focus(Mem(), cs, Rotated(Make(w.n, w.key, true, s, Painted(w.Kid(s), false), w.Kid(s.Opposite())), s.Opposite()))
    {
      ghost var ck := In(w.n, w.key, w.red, s, w.Kid(s.Opposite()), cs);
      FocusDown(Mem(), cs, w, s);
      FocusFacts(Mem(), ck, w.Kid(s));
      Paint(Child(sibling, s), false, ck, w.Kid(s));
      FocusUp(Mem(), ck, Painted(w.Kid(s), false));
      ghost var w1 := Make(w.n, w.key, w.red, s, Painted(w.Kid(s), false), w.Kid(s.Opposite()));
      Paint(sibling, true, cs, w1);
      Rotate(sibling, s.Opposite(), cs, Painted(w1, true));
    }

    /** The red child of the sibling is brought to the far side. */
    method TurnOutward(parent: TreeNode, sibling: TreeNode, ghost c: Ctx<TreeNode>, ghost t: Shape<TreeNode>, s: Side) returns (sib: TreeNode)
      requires Real() && Focus(Mem(), c, t)
      requires c.In? && c.s == s && HasRedKid(c.sib) && parent == c.n && sibling == c.sib.n
      modifies this`root, this`cells, cells.Keys
      ensures Real() && cells.Keys == old(cells).Keys && Focus(Mem(), c.(sib := Outward(c.sib, s)), t)
      ensures Outward(c.sib, s).n == sib
    {
      ghost var o, w := s.Opposite(), c.sib;
      ghost var cs := In(c.n, c.key, c.red, o, t, c.up);
      sib := sibling;
      FocusSibling(Mem(), c, t);
      FocusDown(Mem(), cs, w, o);
      FocusFacts(Mem(), In(w.n, w.key, w.red, o, w.Kid(s), cs), w.Kid(o));
      if Child(sibling, s.Opposite()) == null || !Child(sibling, s.Opposite()).red {
        RotateOutward(sibling, s, cs, w);
        FocusSibling(Mem(), c.(sib := Outward(w, s)), t);
        FocusFacts(Mem(), c.(sib := Outward(w, s)), t);
        sib := Child(parent, s.Opposite());
      }
    }

    /** The short hole is made good with the sibling's red child. */
    method Borrow(parent: TreeNode, sibling: TreeNode, ghost c: Ctx<TreeNode>, ghost t: Shape<TreeNode>, s: Side)
      requires Real() && Focus(Mem(), c, t)
      requires c.In? && c.s == s && c.sib.Br? && c.sib.Kid(s.Opposite()).IsRed() && parent == c.n && sibling == c.sib.n
      modifies this`root, this`cells, cells.Keys
      ensures Real() && cells.Keys == old(cells).Keys && Focus(Mem(), c.up, Borrowed(c, t))
    {
      ghost var o, w := s.Opposite(), c.sib;
      ghost var cs := In(c.n, c.key, c.red, o, t, c.up);
      FocusFacts(Mem(), c, t);
      FocusSibling(Mem(), c, t);
      Paint(sibling, parent.red, cs, w);
      w := Painted(w, c.red);
      FocusDown(Mem(), cs, w, o);
      ghost var ck := In(w.n, w.key, w.red, o, w.Kid(s), cs);
      FocusFacts(Mem(), ck, w.Kid(o));
      Paint(Child(sibling, s.Opposite()), false, ck, w.Kid(o));
      FocusUp(Mem(), ck, Painted(w.Kid(o), false));
      w := Make(w.n, w.key, w.red, s, w.Kid(s), Painted(w.Kid(o), false));
      FocusSibling(Mem(), c.(sib := w), t);
      FocusUp(Mem(), c.(sib := w), t);
      Paint(parent, false, c.up, Make(c.n, c.key, c.red, s, t, w));
      Rotate(parent, s, c.up, Make(c.n, c.key, false, s, t, w));
    }

    /** The sibling turns red and the parent is short instead. */
    method ReddenSibling(sibling: TreeNode, ghost c: Ctx<TreeNode>, ghost t: Shape<TreeNode>)
      requires Real() && Focus(Mem(), c, t) && c.In? && c.sib.Br? && sibling == c.sib.n
      modifies this`cells, cells.Keys
      ensures Real() && cells.Keys == old(cells).Keys
      ensures Focus(Mem(), c.up, Make(c.n, c.key, c.red, c.s, t, Painted(c.sib, true)))
    {
      FocusSibling(Mem(), c, t);
      Paint(sibling, true, In(c.n, c.key, c.red, c.s.Opposite(), t, c.up), c.sib);
      FocusSibling(Mem(), c.(sib := Painted(c.sib, true)), t);
      FocusUp(Mem(), c.(sib := Painted(c.sib, true)), t);
    }

    /** One round of the repair after a removal. */
    method RemoveStep(node: TreeNode?, parent: TreeNode, ghost c: Ctx<TreeNode>, ghost t: Shape<TreeNode>, ghost h: int)
      returns (n: TreeNode?, p: TreeNode?, stop: bool, ghost d: Ctx<TreeNode>, ghost u: Shape<TreeNode>)
      requires Real() && Focus(Mem(), c, t) && Short(c, t, h)
      requires c.In? && node == Ref(t) && parent == c.n
      modifies this`root, this`cells, cells.Keys
      ensures Real() && cells.Keys == old(cells).Keys
      ensures Focus(Mem(), d, u) && n == Ref(u)
      ensures if stop then Plug(d, Painted(u, false)) == FixDelete(c, t)
              else FixDelete(d, u) == FixDelete(c, t) && p == Above(d) && Short(d, u, h + 1) && d.Depth() < c.Depth()
    {
      ShortSibling(c, t, h);
      FocusFacts(Mem(), c, t);
      var s := if node == parent.left then Left else Right;
      assert s == c.s;
      var sibling := Child(parent, s.Opposite());
      d := BlackSibling(c);
      if sibling.red {
        RotateSibling(parent, sibling, c, t, s);
        FocusFacts(Mem(), d, t);
        sibling := Child(parent, s.Opposite());
      }
      FocusFacts(Mem(), d, t);
      n, p, stop, d, u := LevelOut(node, parent, sibling, s, d, t, h);
    }

    /** The rest of the round, with a black sibling. */
    method LevelOut(node: TreeNode?, parent: TreeNode, sibling0: TreeNode, s: Side, ghost c: Ctx<TreeNode>, ghost t: Shape<TreeNode>, ghost h: int)
      returns (n: TreeNode?, p: TreeNode?, stop: bool, ghost d: Ctx<TreeNode>, ghost u: Shape<TreeNode>)
      requires Real() && Focus(Mem(), c, t) && Short(c, t, h)
      requires c.In? && c.s == s && node == Ref(t) && parent == c.n && c.sib.Br? && !c.sib.red && sibling0 == c.sib.n
      modifies this`root, this`cells, cells.Keys
      ensures Real() && cells.Keys == old(cells).Keys
      ensures Focus(Mem(), d, u) && n == Ref(u)
      ensures HasRedKid(c.sib) ==> stop && d == Top && u == Plug(c.up, Borrowed(c, t))
      ensures !HasRedKid(c.sib) ==> d == c.up && u == Make(c.n, c.key, c.red, s, t, Painted(c.sib, true)) && stop == c.red && p == Above(d)
    {
      FocusFacts(Mem(), c, t);
      KidFacts(Mem(), c, t);
      var sibling := sibling0;
      if (sibling.left != null && sibling.left.red) || (sibling.right != null && sibling.right.red) {
        n := BorrowFromSibling(parent, sibling, s, c, t);
        d, u, p, stop := Top, Plug(c.up, Borrowed(c, t)), null, true;
      } else {
        ReddenSibling(sibling, c, t);
        d, u := c.up, Make(c.n, c.key, c.red, s, t, Painted(c.sib, true));
        FocusFacts(Mem(), d, u);
        n := parent;
        p := parent.parent;
        stop := parent.red;
      }
    }

    method BorrowFromSibling(parent: TreeNode, sibling0: TreeNode, s: Side, ghost c: Ctx<TreeNode>, ghost t: Shape<TreeNode>)
      returns (n: TreeNode?)
      requires Real() && Focus(Mem(), c, t)
      requires c.In? && c.s == s && HasRedKid(c.sib) && parent == c.n && sibling0 == c.sib.n
      modifies this`root, this`cells, cells.Keys
      ensures Real() && cells.Keys == old(cells).Keys
      ensures Focus(Mem(), Top, Plug(c.up, Borrowed(c, t))) && n == Ref(Plug(c.up, Borrowed(c, t)))
    {
      var sibling := TurnOutward(parent, sibling0, c, t, s);
      Borrow(parent, sibling, c.(sib := Outward(c.sib, s)), t, s);
      FocusWhole(Mem(), c.up, Borrowed(c, t));
      n := root;
    }

    /** The loop that repairs a subtree that is one black node short. */
    method RebalanceAfterRemove(node0: TreeNode?, parent0: TreeNode?, ghost c0: Ctx<TreeNode>, ghost t0: Shape<TreeNode>, ghost h0: int)
      requires Real() && Focus(Mem(), c0, t0) && Short(c0, t0, h0) && node0 == Ref(t0) && parent0 == Above(c0)
      modifies this`root, this`cells, cells.Keys
      ensures Real() && cells.Keys == old(cells).Keys && Focus(Mem(), Top, FixDelete(c0, t0))
    {
      var node, parent, stop := node0, parent0, false;
      ghost var c, t, h := c0, t0, h0;
      RootApart(Mem(), c, t);
      while !stop && node != root
        invariant Real() && cells.Keys == old(cells).Keys
        invariant Focus(Mem(), c, t) && node == Ref(t)
        invariant !stop ==> Short(c, t, h) && parent == Above(c) && FixDelete(c, t) == FixDelete(c0, t0)
        invariant !stop ==> (c.Top? <==> node == root)
        invariant stop ==> Plug(c, Painted(t, false)) == FixDelete(c0, t0)
        decreases !stop, c.Depth()
      {
        node, parent, stop, c, t := RemoveStep(node, parent, c, t, h);
        h := h + 1;
        RootApart(Mem(), c, t);
      }
      Blacken(node, c, t);
    }

    method Blacken(node: TreeNode?, ghost c: Ctx<TreeNode>, ghost t: Shape<TreeNode>)
      requires Real() && Focus(Mem(), c, t) && node == Ref(t)
      modifies this`cells, cells.Keys
      ensures Real() && cells.Keys == old(cells).Keys && Focus(Mem(), Top, Plug(c, Painted(t, false)))
    {
      if node != null { Paint(node, false, c, t); }
      FocusWhole(Mem(), c, Painted(t, false));
    }

    /** The node leaves the tree; `next`, if it has two children, takes its place. */
    method Unlink(node: TreeNode, ghost c: Ctx<TreeNode>, ghost t: Shape<TreeNode>)
      returns (n: TreeNode?, parent: TreeNode?, red: bool, ghost d: Ctx<TreeNode>, ghost x: Shape<TreeNode>)
      requires Real() && Focus(Mem(), c, t) && t.Br? && t.n == node
      modifies this`root, this`cells, cells.Keys
      ensures Real() && cells.Keys == old(cells).Keys - {node}
      ensures Unlinked(c, t, d, x, red) && Focus(Mem(), d, x) && n == Ref(x) && parent == Above(d)
    {
      FocusFacts(Mem(), c, t);
      var left, right := node.left, node.right;
      if left == null || right == null {
        d, x := c, if t.left.Nil? then t.right else t.left;
        n, parent, red := if left == null then right else left, node.parent, node.red;
        UnlinkOne(node, n, c, t, x);
      } else {
        assert Linked(Mem(), t.right, node) && t.right.Bst(t.key, c.Hi());
        MinBst(t.right, t.key, c.Hi());
        var next := Leftmost(right, t.right, node);
        n, parent, red, d, x := UnlinkTwo(node, next, c, t);
      }
    }

    method UnlinkTwo(node: TreeNode, next: TreeNode, ghost c: Ctx<TreeNode>, ghost t: Shape<TreeNode>)
      returns (n: TreeNode?, parent: TreeNode?, red: bool, ghost d: Ctx<TreeNode>, ghost x: Shape<TreeNode>)
      requires Real() && Focus(Mem(), c, t) && t.Br? && t.n == node
      requires t.left.Br? && t.right.Br? && next == Min(t.right).n
      requires next.red == Min(t.right).red && next.right == Ref(Min(t.right).right)
      requires next == t.right.n <==> t.right.left.Nil?
      modifies this`root, this`cells, cells.Keys
      ensures Real() && cells.Keys == old(cells).Keys - {node}
      ensures Unlinked(c, t, d, x, red) && Focus(Mem(), d, x) && n == Ref(x) && parent == Above(d)
    {
      red := next.red;
      ghost var k := Min(t.right).key;
      ghost var a := In(next, k, t.red, Right, t.left, c);
      d, x := MinZip(a, t.right).0, Min(t.right).right;
      MinZipPlug(a, t.right);
      FocusFacts(Mem(), c, t);
      if next != node.right {
        n, parent := UnlinkFar(node, next, c, t);
        MinZipFrame(a, In(t.n, t.key, t.red, Right, t.left, c), t.right);
      } else {
        n, parent := next.right, next;
        UnlinkNear(node, next, c, t);
      }
      FocusWhole(Mem(), c, Br(next, k, t.red, t.left, WithoutMin(t.right)));
      FocusWhole(Mem(), d, x);
    }

    /** What follows the unlinking: nothing, a repaint, or the repair loop. */
    method Repair(n: TreeNode?, parent: TreeNode?, red: bool, ghost d: Ctx<TreeNode>, ghost x: Shape<TreeNode>, ghost h: int)
      requires Real() && Focus(Mem(), d, x) && n == Ref(x) && parent == Above(d)
      requires !red && !x.IsRed() ==> Short(d, x, h)
      modifies this`root, this`cells, cells.Keys
      ensures Real() && cells.Keys == old(cells).Keys && Focus(Mem(), Top, AfterUnlink(d, x, red))
    {
      FocusFacts(Mem(), d, x);
      if red {
        FocusWhole(Mem(), d, x);
      } else if n != null && n.red {
        Blacken(n, d, x);
      } else {
        RebalanceAfterRemove(n, parent, d, x, h);
      }
    }

    method Remove(node: TreeNode)
      requires Valid() && node in cells
      modifies this, cells.Keys
      ensures Valid()
      ensures cells.Keys == old(cells).Keys - {node}
      ensures shape.Entries() == old(shape).Entries() - {(old(node.key), node)}
    {
      ghost var c, t := FindNode(Top, shape, node);
      FocusWhole(Mem(), c, t);
      FocusFacts(Mem(), c, t);
      var n, parent, red;
      ghost var d, x;
      n, parent, red, d, x := Unlink(node, c, t);
      DeleteSound(c, t, d, x, red);
      ghost var h: int := 0;
      if !red && !x.IsRed() { h :| Short(d, x, h); }
      Repair(n, parent, red, d, x, h);
      RemovedContents(Mem(), c, t, d, x, red);
      Settle(Delete(c, t));
    }
  }
}
