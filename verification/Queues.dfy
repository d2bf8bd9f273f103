/** The two event queues as one thread sees them: the plain linked list, and the
    lock-free one that must behave like it. */
module Queues {

  class Node {
    var next: Node?

    constructor ()
      ensures next == null
    {
      next := null;
    }
  }

  /** The node at place i of a list, or null behind its end. */
  function Nth(nodes: seq<Node>, i: nat): Node? { if i < |nodes| then nodes[i] else null }

  predicate Distinct(nodes: seq<Node>) { forall i, j | 0 <= i < j < |nodes| :: nodes[i] != nodes[j] }

  /** The nodes are linked in order, and the last one to null. */
  ghost predicate Linked(nodes: seq<Node>)
    reads nodes
  {
    forall i | 0 <= i < |nodes| :: nodes[i].next == Nth(nodes, i + 1)
  }

  /** A list without its first node. */
  lemma Uncons(nodes: seq<Node>)
    requires nodes != [] && Distinct(nodes) && Linked(nodes)
    ensures Distinct(nodes[1..]) && Linked(nodes[1..])
    ensures nodes[0] !in nodes[1..] && nodes[0].next == Nth(nodes[1..], 0)
  {
    var rest := nodes[1..];
    assert forall i | 0 <= i < |rest| :: rest[i] == nodes[i + 1];
  }

  /** A list with one more node in front. */
  lemma Cons(e: Node, nodes: seq<Node>)
    requires Distinct(nodes) && Linked(nodes) && e !in nodes && e.next == Nth(nodes, 0)
    ensures Distinct([e] + nodes) && Linked([e] + nodes)
  {
    var all := [e] + nodes;
    assert forall i | 0 < i < |all| :: all[i] == nodes[i - 1];
  }

  lemma Apart(a: seq<Node>, b: seq<Node>)
    requires Distinct(a + b)
    ensures Distinct(a) && Distinct(b) && forall n | n in b :: n !in a
  {
    assert forall i | 0 <= i < |a| :: a[i] == (a + b)[i];
    assert forall i | 0 <= i < |b| :: b[i] == (a + b)[|a| + i];
  }

  function Reversed(nodes: seq<Node>): (r: seq<Node>)
    ensures |r| == |nodes|
    ensures (forall n | n in r :: n in nodes) && (forall n | n in nodes :: n in r)
  {
    if nodes == [] then [] else Reversed(nodes[1..]) + [nodes[0]]
  }

  lemma {:induction false} ReversedPush(nodes: seq<Node>, e: Node)
    ensures Reversed([e] + nodes) == Reversed(nodes) + [e]
  {
    assert ([e] + nodes)[1..] == nodes;
  }

  /** A list whose nodes have been moved, one by one, from the front of one to the
      front of another. */
  lemma MoveFront(a: seq<Node>, b: seq<Node>)
    requires a != []
    ensures Reversed(a) + b == Reversed(a[1..]) + ([a[0]] + b)
  {
  }

  /** `queue`: a list with its first and last node. */
  class Queue {
    var head: Node?
    var tail: Node?
    ghost var nodes: seq<Node>

    ghost predicate Valid()
      reads this, nodes
    {
      && Distinct(nodes) && Linked(nodes)
      && head == Nth(nodes, 0)
      && tail == (if nodes == [] then null else nodes[|nodes| - 1])
    }

    constructor ()
      ensures Valid() && nodes == []
    {
      head, tail, nodes := null, null, [];
    }

    method Push(e: Node)
      requires Valid() && e !in nodes
      modifies this, e, nodes
      ensures Valid() && nodes == old(nodes) + [e]
    {
      e.next := null;
      if tail == null {
        head, tail := e, e;
      } else {
        tail.next := e;
        tail := e;
      }
      nodes := nodes + [e];
    }

    method Pop() returns (e: Node?)
      requires Valid()
      modifies this, nodes
      ensures Valid()
      ensures old(nodes) == [] ==> e == null && nodes == []
      ensures old(nodes) != [] ==> e == old(nodes)[0] && nodes == old(nodes)[1..] && e.next == null
    {
      if head == null { return null; }
      e := head;
      head := e.next;
      e.next := null;
      if head == null { tail := null; }
      nodes := nodes[1..];
    }
  }

  /** `mpsc_queue`: new nodes are pushed at the head; the consumer takes all of
      them at once, reverses them in place and keeps the rest in its cache. */
  class MpscQueue {
    var head: Node?
    var cache: Node?
    ghost var stack: seq<Node>
    ghost var cached: seq<Node>

    ghost predicate Valid()
      reads this, stack, cached
    {
      && Distinct(stack + cached) && Linked(stack) && Linked(cached)
      && head == Nth(stack, 0) && cache == Nth(cached, 0)
    }

    /** The nodes in the order in which they were pushed. */
    ghost function Contents(): seq<Node>
      reads this
    {
      cached + Reversed(stack)
    }

    constructor ()
      ensures Valid() && Contents() == []
    {
      head, cache, stack, cached := null, null, [], [];
    }

    method Push(e: Node)
      requires Valid() && e !in stack && e !in cached
      modifies this, e
      ensures Valid() && Contents() == old(Contents()) + [e]
    {
      OneMore(stack, cached, e);
      ReversedPush(stack, e);
      e.next := head;
      head := e;
      stack := [e] + stack;
    }

    method Pop() returns (e: Node?)
      requires Valid()
      modifies this, stack, cached
      ensures Valid()
      ensures old(Contents()) == [] ==> e == null && Contents() == []
      ensures old(Contents()) != [] ==> e == old(Contents())[0] && Contents() == old(Contents())[1..] && e.next == null
    {
      if cache != null {
        FrontOf(cached, Reversed(stack));
        e := GetCache();
      } else {
        assert stack + cached == stack;
        e := TakeAll();
      }
    }

    /** `get_cache`, when there is one. */
    method GetCache() returns (e: Node)
      requires Valid() && cached != []
      modifies this, cached
      ensures Valid() && stack == old(stack) && cached == old(cached)[1..] && e == old(cached)[0] && e.next == null
    {
      Apart(stack, cached);
      Uncons(cached);
      Fewer(stack, cached);
      e := cache;
      assert e in cached && e !in stack;
      cache := e.next;
      cached := cached[1..];
      e.next := null;
    }

    /** Takes all that was pushed: the oldest node is returned, the others are kept. */
    method TakeAll() returns (e: Node?)
      requires Valid() && cached == [] && Distinct(stack)
      modifies this, stack
      ensures Valid() && stack == []
      ensures old(stack) == [] ==> e == null && cached == []
      ensures old(stack) != [] ==> e == Reversed(old(stack))[0] && cached == Reversed(old(stack))[1..] && e.next == null
    {
      e := head;
      head := null;
      ghost var taken := stack;
      stack := [];
      if e == null { return; }
      if e.next == null {
        assert taken == [e];
        return;
      }
      e := Reverse(e, taken);
      ghost var list := Reversed(taken);
      cache := e.next;
      Uncons(list);
      assert e in list;
      e.next := null;
      cached := list[1..];
      assert stack + cached == cached;
    }
  }

  lemma FrontOf(a: seq<Node>, b: seq<Node>)
    requires a != []
    ensures (a + b)[0] == a[0] && (a + b)[1..] == a[1..] + b
  {
  }

  lemma OneMore(a: seq<Node>, b: seq<Node>, e: Node)
    requires Distinct(a + b) && e !in a && e !in b
    ensures Distinct([e] + a + b)
  {
    var c, d := a + b, [e] + a + b;
    assert forall i | 0 < i < |d| :: d[i] == c[i - 1] && c[i - 1] in c;
    assert forall x | x in c :: x in a || x in b;
  }

  lemma Fewer(a: seq<Node>, b: seq<Node>)
    requires Distinct(a + b) && b != []
    ensures Distinct(a + b[1..])
  {
    var c, d := a + b, a + b[1..];
    forall i, j | 0 <= i < j < |d| ensures d[i] != d[j] {
      assert d[i] == c[if i < |a| then i else i + 1] && d[j] == c[if j < |a| then j else j + 1];
    }
  }

  /** Reverses a list in place. */
  method Reverse(list: Node, ghost nodes: seq<Node>) returns (first: Node?)
    requires nodes != [] && list == nodes[0] && Distinct(nodes) && Linked(nodes)
    modifies nodes
    ensures Distinct(Reversed(nodes)) && Linked(Reversed(nodes)) && first == Nth(Reversed(nodes), 0)
  {
    var last: Node? := list;
    first := null;
    ghost var a, b := nodes, [];
    while last != null
      invariant Distinct(a) && Linked(a) && last == Nth(a, 0)
      invariant Distinct(b) && Linked(b) && first == Nth(b, 0)
      invariant forall n | n in a :: n in nodes && n !in b
      invariant forall n | n in b :: n in nodes
      invariant Reversed(nodes) == Reversed(a) + b
      decreases |a|
    {
      MoveFront(a, b);
      assert a[0] in a;
      Uncons(a);
      last, first := Turn(last, first, a, b);
      a, b := a[1..], [a[0]] + b;
    }
  }

  /** The body of the loop: the first node of one list goes in front of the other. */
  method Turn(last: Node, first: Node?, ghost a: seq<Node>, ghost b: seq<Node>) returns (last': Node?, first': Node)
    requires Distinct(a) && Linked(a) && a != [] && last == a[0]
    requires Distinct(b) && Linked(b) && first == Nth(b, 0)
    requires forall n | n in a :: n !in b
    modifies last
    ensures Distinct(a[1..]) && Linked(a[1..]) && last' == Nth(a[1..], 0)
    ensures Distinct([a[0]] + b) && Linked([a[0]] + b) && first' == a[0]
  {
    Uncons(a);
    assert last in a;
    last' := last.next;
    last.next := first;
    first' := last;
    Cons(last, b);
  }
}
