/** The circular, intrusive, doubly linked queues that hold sockets and poll groups. */
module Queues {
  import opened Sequences

  class Node {
    var prev: Node?
    var next: Node?

    constructor ()
      ensures Loose()
    {
      new;
      Init();
    }

    ghost predicate Loose() reads this { prev == this && next == this }

    method Init()
      modifies this
      ensures Loose()
    {
      prev := this;
      next := this;
    }

    predicate IsEnqueued() reads this { prev != this }
  }

  lemma TakenOut(ring: seq<Node>, k: nat, rest: seq<Node>)
    requires NoRepeats(ring) && k < |ring| && rest == ring[..k] + ring[k + 1..]
    ensures NoRepeats(rest) && ring[k] !in rest && |rest| == |ring| - 1
    ensures forall j :: 0 <= j < |rest| ==> rest[j] == ring[if j < k then j else j + 1]
  {}

  /** `ring` is the head and then the nodes in order, each linked to the next and the last to the head. */
  ghost predicate Ring(ring: seq<Node>)
    reads set n <- ring
  {
    && |ring| > 0
    && NoRepeats(ring)
    && (forall i :: 0 <= i < |ring| - 1 ==> ring[i].next == ring[i + 1] && ring[i + 1].prev == ring[i])
    && ring[|ring| - 1].next == ring[0] && ring[0].prev == ring[|ring| - 1]
  }

  function Behind(ring: seq<Node>, j: nat): Node
    requires j < |ring|
  {
    if j + 1 < |ring| then ring[j + 1] else ring[0]
  }

  ghost predicate Joined(a: Node, b: Node) reads a, b { a.next == b && b.prev == a }

  /** The ring that is left when the neighbours of `ring[k]` have been linked to each other. */
  lemma Closed(ring: seq<Node>, k: nat, rest: seq<Node>)
    requires NoRepeats(ring) && 0 < k < |ring| && rest == ring[..k] + ring[k + 1..]
    requires forall j :: 0 <= j < |ring| && j != k - 1 && j != k ==> Joined(ring[j], Behind(ring, j))
    requires Joined(ring[k - 1], Behind(ring, k))
    ensures Ring(rest) && ring[k] !in rest
  {
    TakenOut(ring, k, rest);
    forall i | 0 <= i < |rest| ensures Joined(rest[i], Behind(rest, i)) {
      assert i != k - 1 ==> Joined(ring[if i < k then i else i + 1], Behind(ring, if i < k then i else i + 1));
    }
    forall i | 0 <= i < |rest| - 1 ensures rest[i].next == rest[i + 1] && rest[i + 1].prev == rest[i] {
      assert Joined(rest[i], Behind(rest, i));
    }
    assert Joined(rest[|rest| - 1], Behind(rest, |rest| - 1));
  }

  /** Links the neighbours of `n` to each other. */
  method Bridge(n: Node, ghost ring: seq<Node>, ghost k: nat)
    requires Ring(ring) && 0 < k < |ring| && n == ring[k]
    modifies ring[k - 1], Behind(ring, k)
    ensures forall j :: 0 <= j < |ring| && j != k - 1 && j != k ==> Joined(ring[j], Behind(ring, j))
    ensures Joined(ring[k - 1], Behind(ring, k))
  {
    assert forall j :: 0 <= j < |ring| ==> Joined(ring[j], Behind(ring, j));
    assert Joined(ring[k - 1], n) && Joined(n, Behind(ring, k));
    var prev, next := n.prev, n.next;
    assert forall j :: 0 <= j < |ring| ==> (ring[j] == prev ==> j == k - 1) && (Behind(ring, j) == next ==> j == k);
    prev.next := next;
    next.prev := prev;
  }

  lemma WithHead(head: Node, nodes: seq<Node>, k: nat)
    requires k < |nodes|
    ensures [head] + (nodes[..k] + nodes[k + 1..]) == ([head] + nodes)[..k + 1] + ([head] + nodes)[k + 2..]
  {}

  class Queue {
    const head: Node
    ghost var nodes: seq<Node>

    ghost function Nodes(): set<Node> reads this { set n <- nodes }

    ghost predicate Valid()
      reads this, head, Nodes()
    {
      Ring([head] + nodes)
    }

    constructor ()
      ensures Valid() && nodes == [] && fresh(head)
    {
      head := new Node();
      nodes := [];
    }

    method IsEmpty() returns (empty: bool)
      requires Valid()
      ensures empty <==> nodes == []
    {
      empty := !head.IsEnqueued();
      assert head.prev == ([head] + nodes)[|nodes|];
    }

    method First() returns (first: Node?)
      requires Valid()
      ensures first == if nodes == [] then null else nodes[0]
    {
      var empty := IsEmpty();
      first := if empty then null else head.next;
      assert nodes != [] ==> ([head] + nodes)[1] == nodes[0];
    }

    method Last() returns (last: Node?)
      requires Valid()
      ensures last == if nodes == [] then null else nodes[|nodes| - 1]
    {
      var empty := IsEmpty();
      last := if empty then null else head.prev;
      assert nodes != [] ==> ([head] + nodes)[|nodes|] == nodes[|nodes| - 1];
    }

    /** A node that is loose or in this queue can tell which by itself. */
    lemma Enqueued(n: Node)
      requires Valid() && n != head && (n.Loose() || n in nodes)
      ensures n.IsEnqueued() <==> n in nodes
    {
      if n in nodes {
        var k :| 0 <= k < |nodes| && nodes[k] == n;
        assert ([head] + nodes)[k + 1] == n && ([head] + nodes)[k] != n;
        assert n.prev == ([head] + nodes)[k];
      }
    }

    method Append(n: Node)
      requires Valid() && n != head && n !in nodes
      modifies this`nodes, n, head, Nodes()
      ensures Valid() && nodes == old(nodes) + [n]
    {
      ghost var ring := [head] + nodes;
      n.next := head;
      n.prev := head.prev;
      assert n.prev == ring[|ring| - 1];
      n.prev.next := n;
      head.prev := n;
      nodes := nodes + [n];
      assert [head] + nodes == ring + [n];
    }

    method Prepend(n: Node)
      requires Valid() && n != head && n !in nodes
      modifies this`nodes, n, head, Nodes()
      ensures Valid() && nodes == [n] + old(nodes)
    {
      ghost var ring := [head] + nodes;
      n.next := head.next;
      n.prev := head;
      assert n.next == if |ring| == 1 then head else ring[1];
      n.next.prev := n;
      head.next := n;
      nodes := [n] + nodes;
      assert [head] + nodes == [head, n] + ring[1..];
    }

    /** Takes `n` out without touching its own links. */
    method Detach(n: Node, ghost k: nat)
      requires Valid() && k < |nodes| && nodes[k] == n
      modifies this`nodes, n, head, Nodes()
      ensures Valid() && nodes == old(nodes)[..k] + old(nodes)[k + 1..] && n !in nodes && n != head
    {
      ghost var ring := [head] + nodes;
      assert n == ring[k + 1] && ring[k] in {head} + Nodes() && Behind(ring, k + 1) in {head} + Nodes();
      Bridge(n, ring, k + 1);
      nodes := nodes[..k] + nodes[k + 1..];
      WithHead(head, old(nodes), k);
      Closed(ring, k + 1, [head] + nodes);
    }

    method Remove(n: Node, ghost k: nat)
      requires Valid() && k < |nodes| && nodes[k] == n
      modifies this`nodes, n, head, Nodes()
      ensures Valid() && nodes == old(nodes)[..k] + old(nodes)[k + 1..] && n.Loose()
    {
      Detach(n, k);
      n.Init();
    }

    method MoveToStart(n: Node, ghost k: nat)
      requires Valid() && k < |nodes| && nodes[k] == n
      modifies this`nodes, n, head, Nodes()
      ensures Valid() && nodes == [n] + (old(nodes)[..k] + old(nodes)[k + 1..])
    {
      Detach(n, k);
      Prepend(n);
    }

    method MoveToEnd(n: Node, ghost k: nat)
      requires Valid() && k < |nodes| && nodes[k] == n
      modifies this`nodes, n, head, Nodes()
      ensures Valid() && nodes == (old(nodes)[..k] + old(nodes)[k + 1..]) + [n]
    {
      Detach(n, k);
      Append(n);
    }
  }
}
