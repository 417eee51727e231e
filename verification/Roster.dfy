/**
  The intrusive lists that the event loop and the server keep of their objects:
  a doubly linked list `next`/`prev` of the registered ones, and a stack through
  the field `heap`, which the event loop uses for deferred deletions and the
  server for recycled connections.
*/
module Roster {
  import opened Wrappers

  class Node<T(!new)> {
    var it: T
    var next: Node?<T>
    var prev: Node?<T>
    var heap: Node?<T>

    constructor (it: T)
      ensures this.it == it && next == null && prev == null && heap == null
    {
      this.it := it;
      next, prev, heap := null, null, null;
    }
  }

  function Nth<T(!new)>(s: seq<Node<T>>, i: int): Node?<T> {
    if 0 <= i < |s| then s[i] else null
  }

  ghost predicate Chained<T(!new)>(live: seq<Node<T>>)
    reads live`next, live`prev
  {
    && (forall i | 0 <= i < |live| :: live[i].next == Nth(live, i + 1))
    && (forall i | 0 <= i < |live| :: live[i].prev == Nth(live, i - 1))
  }

  ghost predicate Stacked<T(!new)>(stack: seq<Node<T>>)
    reads stack`heap
  {
    forall i | 0 <= i < |stack| :: stack[i].heap == Nth(stack, i + 1)
  }

  lemma ChainedLonger<T(!new)>(node: Node<T>, live: seq<Node<T>>)
    requires node.next == Nth(live, 0) && node.prev == null
    requires forall i | 0 <= i < |live| :: live[i].next == Nth(live, i + 1)
    requires forall i | 0 <= i < |live| :: live[i].prev == if i == 0 then node else Nth(live, i - 1)
    ensures Chained([node] + live)
  {
    var longer := [node] + live;
    forall i | 0 <= i < |longer| ensures longer[i].next == Nth(longer, i + 1) && longer[i].prev == Nth(longer, i - 1) {
      if i > 0 { assert longer[i] == live[i - 1]; }
    }
  }

  lemma ChainedWithout<T(!new)>(live: seq<Node<T>>, d: nat)
    requires d < |live|
    requires forall i | 0 <= i < |live| :: live[i].next == if i == d - 1 then Nth(live, d + 1) else Nth(live, i + 1)
    requires forall i | 0 <= i < |live| :: live[i].prev == if i == d + 1 then Nth(live, d - 1) else Nth(live, i - 1)
    ensures Chained(Without(live, d))
  {
    var rest := Without(live, d);
    forall i | 0 <= i < |rest| ensures rest[i].next == Nth(rest, i + 1) && rest[i].prev == Nth(rest, i - 1) {
      assert rest[i] == live[if i < d then i else i + 1];
    }
  }

  // `node->prev = other` and `node->next = other` where `node` may be NULL.
  method SetPrev<T(!new)>(node: Node?<T>, other: Node?<T>, ghost live: seq<Node<T>>, ghost i: int)
    requires Distinct(live) && node == Nth(live, i)
    modifies live`prev
    ensures forall k | 0 <= k < |live| :: live[k].prev == if k == i then other else old(live[k].prev)
  {
    if node != null {
      node.prev := other;
    }
  }

  method SetNext<T(!new)>(node: Node?<T>, other: Node?<T>, ghost live: seq<Node<T>>, ghost i: int)
    requires Distinct(live) && node == Nth(live, i)
    modifies live`next
    ensures forall k | 0 <= k < |live| :: live[k].next == if k == i then other else old(live[k].next)
  {
    if node != null {
      node.next := other;
    }
  }

  class Root<T(!new)> {
    var next: Node?<T>
    var heap: Node?<T>
    var count: nat
    ghost var live: seq<Node<T>>
    ghost var stack: seq<Node<T>>

    ghost predicate Valid()
      reads this, live`next, live`prev, stack`heap
    {
      && Distinct(live) && Chained(live) && next == Nth(live, 0) && count == |live|
      && Distinct(stack) && Stacked(stack) && heap == Nth(stack, 0)
    }

    constructor ()
      ensures Valid() && live == [] && stack == []
    {
      next, heap := null, null;
      count := 0;
      live, stack := [], [];
    }

    method LinkFirst(node: Node<T>)
      requires Distinct(live) && next == Nth(live, 0) && node !in live && Chained(live)
      modifies live`prev, node`next, node`prev
      ensures Chained([node] + live)
    {
      node.next := next;
      node.prev := null;
      SetPrev(node.next, node, live, 0);
      ChainedLonger(node, live);
    }

    // Registers `node` at the head of the list.
    method Add(node: Node<T>)
      requires Valid() && node !in live
      modifies this`next, this`count, this`live, live`prev, node`next, node`prev
      ensures Valid()
      ensures live == [node] + old(live)
    {
      hide Chained, Stacked;
      LinkFirst(node);
      next := node;
      count := count + 1;
      live := [node] + live;
    }

    method Unlink(node: Node<T>, ghost d: nat)
      requires Distinct(live) && d < |live| && node == live[d] && Chained(live)
      modifies live`next, live`prev
      ensures Chained(Without(live, d))
      ensures node.prev == Nth(live, d - 1) && node.next == Nth(live, d + 1)
    {
      SetPrev(node.next, node.prev, live, d + 1);
      SetNext(node.prev, node.next, live, d - 1);
      ChainedWithout(live, d);
    }

    // Takes `node` off the list, wherever it stands.
    method Remove(node: Node<T>)
      requires Valid() && node in live
      modifies this`next, this`count, this`live, live`next, live`prev
      ensures Valid()
      ensures live == Without(old(live), IndexOf(old(live), node))
    {
      hide Chained, Stacked, Distinct;
      ghost var d := IndexOf(live, node);
      Unlink(node, d);
      if node.prev == null {
        next := node.next;
      }
      count := count - 1;
      DistinctWithout(live, d);
      live := Without(live, d);
    }

    // Pushes `node` on the stack.
    method Push(node: Node<T>)
      requires Valid() && node !in stack
      modifies this`heap, this`stack, node`heap
      ensures Valid()
      ensures stack == [node] + old(stack)
    {
      node.heap := heap;
      heap := node;
      stack := [node] + stack;
    }

    // The node on top of the stack, if any.
    method Pop() returns (node: Node?<T>)
      requires Valid()
      modifies this`heap, this`stack
      ensures Valid()
      ensures node == Nth(old(stack), 0)
      ensures stack == if node == null then [] else old(stack)[1..]
    {
      node := heap;
      if node != null {
        heap := node.heap;
        stack := stack[1..];
      }
    }
  }
}
