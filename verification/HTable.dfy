/** A chained hash table whose entries also form a list in the order of their arrival. */
module HTable {
  import opened Wrappers

  const ULONG := 0x1_0000_0000_0000_0000

  /** A `char` of a string key. */
  type Char = c: int | -128 <= c < 128

  // ---------------------------------------------------------------- hashing

  function HashStep(h: nat, c: Char): nat { (33 * h + c) % ULONG }

  /** The hash of a string, byte by byte. */
  function HashFrom(h: nat, s: seq<Char>): nat
    decreases |s|
  {
    if s == [] then h else HashFrom(HashStep(h, s[0]), s[1..])
  }

  function Hash(s: seq<Char>): nat { HashFrom(5381, s) }

  lemma {:induction false} HashSplit(h: nat, a: seq<Char>, b: seq<Char>)
    ensures HashFrom(h, a + b) == HashFrom(HashFrom(h, a), b)
    decreases |a|
  {
    if a == [] {
      assert a + b == b;
    } else {
      HashSplit(HashStep(h, a[0]), a[1..], b);
      assert (a + b)[1..] == a[1..] + b;
    }
  }

  /** One round of the code: `(h << 5) + h + c` in 64 bits. */
  method Round(h: nat, c: Char) returns (r: nat)
    requires h < ULONG
    ensures r == HashStep(h, c) < ULONG
  {
    r := ((h * 32) % ULONG + h + c) % ULONG;
    assert (h * 32) % ULONG == h * 32 - ULONG * ((h * 32) / ULONG);
  }

  lemma RoundIsStep(h: nat, s: seq<Char>, i: nat, g: nat, r: nat)
    requires i < |s| && g == HashFrom(h, s[..i]) && r == HashStep(g, s[i])
    ensures r == HashFrom(h, s[..i + 1])
  {
    assert s[..i + 1] == s[..i] + [s[i]];
    HashSplit(h, s[..i], [s[i]]);
    assert [s[i]][1..] == [];
  }

  /** Eight bytes at a time, then the cases for up to seven more, each falling into the next. */
  method StrNkey(s: seq<Char>) returns (h: nat)
    ensures h == Hash(s) < ULONG
  {
    h := 5381;
    var i: nat := 0;
    var keyLen: nat := |s|;
    while keyLen >= 8
      invariant i + keyLen == |s| && h == HashFrom(5381, s[..i]) && h < ULONG
      decreases keyLen
    {
      h := Eight(s, i, h);
      i := i + 8;
      keyLen := keyLen - 8;
    }
    h, i := Case(s, i, h, keyLen >= 7);
    h, i := Case(s, i, h, keyLen >= 6);
    h, i := Case(s, i, h, keyLen >= 5);
    h, i := Case(s, i, h, keyLen >= 4);
    h, i := Case(s, i, h, keyLen >= 3);
    h, i := Case(s, i, h, keyLen >= 2);
    h, i := Case(s, i, h, keyLen >= 1);
    assert s[..i] == s;
  }

  method Case(s: seq<Char>, i: nat, g: nat, taken: bool) returns (h: nat, j: nat)
    requires i <= |s| && (taken ==> i < |s|) && g == HashFrom(5381, s[..i]) && g < ULONG
    ensures j == (if taken then i + 1 else i) && h == HashFrom(5381, s[..j]) && h < ULONG
  {
    h, j := g, i;
    if taken {
      h := Round(g, s[i]);
      RoundIsStep(5381, s, i, g, h);
      j := i + 1;
    }
  }

  /** The body of the unrolled loop. */
  method Eight(s: seq<Char>, i: nat, g: nat) returns (h: nat)
    requires i + 8 <= |s| && g == HashFrom(5381, s[..i]) && g < ULONG
    ensures h == HashFrom(5381, s[..i + 8]) && h < ULONG
  {
    h := Four(s, i, g);
    h := Four(s, i + 4, h);
  }

  method Four(s: seq<Char>, i: nat, g: nat) returns (h: nat)
    requires i + 4 <= |s| && g == HashFrom(5381, s[..i]) && g < ULONG
    ensures h == HashFrom(5381, s[..i + 4]) && h < ULONG
  {
    var a := Round(g, s[i]);
    RoundIsStep(5381, s, i, g, a);
    var b := Round(a, s[i + 1]);
    RoundIsStep(5381, s, i + 1, a, b);
    var c := Round(b, s[i + 2]);
    RoundIsStep(5381, s, i + 2, b, c);
    h := Round(c, s[i + 3]);
    RoundIsStep(5381, s, i + 3, c, h);
  }

  // ---------------------------------------------------------------- entries

  class Node {
    const num: nat
    const bytes: seq<Char>
    var value: Pointer
    var next: Node?
    var prev: Node?
    var below: Node?
    var above: Node?

    constructor (num: nat, bytes: seq<Char>, value: Pointer, prev: Node?)
      ensures this.num == num && this.bytes == bytes && this.value == value
      ensures next == null && this.prev == prev && below == null && above == null
    {
      this.num, this.bytes, this.value := num, bytes, value;
      next, this.prev, below, above := null, prev, null, null;
    }
  }

  ghost function Nth(order: seq<Node>, i: int): Node? { if 0 <= i < |order| then order[i] else null }

  /** The bucket of an entry: its number masked. */
  function Slot(n: Node, mask: nat): nat { n.num % (mask + 1) }

  /** The last entry before place `i` that is in bucket `k`; -1 if there is none. */
  ghost function Older(order: seq<Node>, mask: nat, i: nat, k: nat): (j: int)
    requires i <= |order|
    ensures -1 <= j < i && (j >= 0 ==> Slot(order[j], mask) == k)
    ensures forall l | j < l < i :: Slot(order[l], mask) != k
  {
    if i == 0 then -1 else if Slot(order[i - 1], mask) == k then i - 1 else Older(order, mask, i - 1, k)
  }

  /** The first entry from place `i` on that is in bucket `k`; the length if there is none. */
  ghost function Younger(order: seq<Node>, mask: nat, i: nat, k: nat): (j: int)
    requires i <= |order|
    ensures i <= j <= |order| && (j < |order| ==> Slot(order[j], mask) == k)
    ensures forall l | i <= l < j :: Slot(order[l], mask) != k
    decreases |order| - i
  {
    if i == |order| then i else if Slot(order[i], mask) == k then i else Younger(order, mask, i + 1, k)
  }

  lemma OlderIs(order: seq<Node>, mask: nat, i: nat, k: nat, j: int)
    requires i <= |order| && -1 <= j < i && (j >= 0 ==> Slot(order[j], mask) == k)
    requires forall l | j < l < i :: Slot(order[l], mask) != k
    ensures Older(order, mask, i, k) == j
  {
  }

  lemma YoungerIs(order: seq<Node>, mask: nat, i: nat, k: nat, j: int)
    requires i <= j <= |order| && (j < |order| ==> Slot(order[j], mask) == k)
    requires forall l | i <= l < j :: Slot(order[l], mask) != k
    ensures Younger(order, mask, i, k) == j
  {
  }

  /** Bucket arrays and chains: every bucket leads to its youngest entry, from there to the
      older ones and back. */
  ghost predicate Hung(order: seq<Node>, mask: nat, nodes: array<Node?>)
    reads nodes, order`below, order`above
  {
    && mask < nodes.Length
    && (forall k | 0 <= k <= mask :: nodes[k] == Nth(order, Older(order, mask, |order|, k)))
    && (forall i | 0 <= i < |order| :: order[i].below == Nth(order, Older(order, mask, i, Slot(order[i], mask))))
    && (forall i | 0 <= i < |order| :: order[i].above == Nth(order, Younger(order, mask, i + 1, Slot(order[i], mask))))
  }

  lemma OlderAppend(order: seq<Node>, n: Node, mask: nat, i: nat, k: nat)
    requires i <= |order|
    ensures Older(order + [n], mask, i, k) == Older(order, mask, i, k)
    ensures Older(order + [n], mask, |order| + 1, k) == if Slot(n, mask) == k then |order|
            else Older(order, mask, |order|, k)
  {
    OlderIs(order + [n], mask, i, k, Older(order, mask, i, k));
    OlderIs(order + [n], mask, |order| + 1, k, if Slot(n, mask) == k then |order| else Older(order, mask, |order|, k));
  }

  lemma YoungerAppend(order: seq<Node>, n: Node, mask: nat, i: nat, k: nat)
    requires i <= |order|
    ensures var j := Younger(order, mask, i, k);
            Younger(order + [n], mask, i, k) == if j < |order| then j else if Slot(n, mask) == k then |order|
              else |order| + 1
  {
    var j := Younger(order, mask, i, k);
    YoungerIs(order + [n], mask, i, k, if j < |order| then j else if Slot(n, mask) == k then |order| else |order| + 1);
  }

  /** Behind the youngest entry of a bucket there is none. */
  lemma YoungestHasNone(order: seq<Node>, mask: nat, i: nat, k: nat)
    requires i < |order|
    ensures Slot(order[i], mask) == k ==>
            (Younger(order, mask, i + 1, k) == |order| <==> Older(order, mask, |order|, k) == i)
  {
    var j, o := Younger(order, mask, i + 1, k), Older(order, mask, |order|, k);
    if Slot(order[i], mask) == k && j == |order| { OlderIs(order, mask, |order|, k, i); }
  }

  /** The chains after `node` became the youngest of its bucket. */
  ghost predicate HungPast(node: Node, order: seq<Node>, mask: nat, nodes: array<Node?>)
    reads nodes, order`below, order`above, node`below, node`above
  {
    var k := Slot(node, mask);
    var o := Older(order, mask, |order|, k);
    && mask < nodes.Length
    && (forall j | 0 <= j <= mask :: nodes[j] == if j == k then node else Nth(order, Older(order, mask, |order|, j)))
    && node.below == Nth(order, o) && node.above == null
    && (forall i | 0 <= i < |order| :: order[i].below == Nth(order, Older(order, mask, i, Slot(order[i], mask))))
    && (forall i | 0 <= i < |order| ::
          order[i].above == if i == o then node else Nth(order, Younger(order, mask, i + 1, Slot(order[i], mask))))
  }

  lemma PastAt(node: Node, order: seq<Node>, mask: nat, nodes: array<Node?>, j: nat)
    requires HungPast(node, order, mask, nodes) && j <= mask
    ensures mask < nodes.Length
    ensures nodes[j] == if j == Slot(node, mask) then node else Nth(order, Older(order, mask, |order|, j))
  {
    hide Older, Younger, Slot, Nth;
  }

  lemma PastBelow(node: Node, order: seq<Node>, mask: nat, nodes: array<Node?>, i: nat)
    requires HungPast(node, order, mask, nodes) && i <= |order|
    ensures var n := (order + [node])[i]; n.below == Nth(order, Older(order, mask, i, Slot(n, mask)))
  {
    hide Older, Younger, Slot, Nth;
  }

  lemma NthAppend(order: seq<Node>, node: Node, i: int)
    requires i <= |order|
    ensures Nth(order + [node], i) == if i == |order| then node else Nth(order, i)
  {
  }

  lemma SlotHung(node: Node, order: seq<Node>, mask: nat, nodes: array<Node?>, k: nat)
    requires HungPast(node, order, mask, nodes) && k <= mask
    ensures mask < nodes.Length
    ensures var o := order + [node]; nodes[k] == Nth(o, Older(o, mask, |o|, k))
  {
    var o := order + [node];
    PastAt(node, order, mask, nodes, k);
    hide Older, Younger, Slot, Nth, HungPast;
    OlderAppend(order, node, mask, |order|, k);
    NthAppend(order, node, Older(o, mask, |o|, k));
  }

  lemma BelowHung(node: Node, order: seq<Node>, mask: nat, nodes: array<Node?>, i: nat)
    requires HungPast(node, order, mask, nodes) && i <= |order|
    ensures var o := order + [node]; o[i].below == Nth(o, Older(o, mask, i, Slot(o[i], mask)))
  {
    var o := order + [node];
    PastBelow(node, order, mask, nodes, i);
    hide Older, Younger, Slot, Nth, HungPast;
    OlderAppend(order, node, mask, i, Slot(o[i], mask));
    NthAppend(order, node, Older(o, mask, i, Slot(o[i], mask)));
  }

  lemma HungBy(order: seq<Node>, mask: nat, nodes: array<Node?>)
    requires mask < nodes.Length
    requires forall k | 0 <= k <= mask :: nodes[k] == Nth(order, Older(order, mask, |order|, k))
    requires forall i | 0 <= i < |order| :: order[i].below == Nth(order, Older(order, mask, i, Slot(order[i], mask)))
    requires forall i | 0 <= i < |order| ::
             order[i].above == Nth(order, Younger(order, mask, i + 1, Slot(order[i], mask)))
    ensures Hung(order, mask, nodes)
  {
    hide Older, Younger, Slot, Nth;
  }

  lemma NowHung(node: Node, order: seq<Node>, mask: nat, nodes: array<Node?>)
    requires HungPast(node, order, mask, nodes)
    ensures Hung(order + [node], mask, nodes)
  {
    hide *;
    var o := order + [node];
    SlotHung(node, order, mask, nodes, 0);
    forall k | 0 <= k <= mask ensures nodes[k] == Nth(o, Older(o, mask, |o|, k)) {
      SlotHung(node, order, mask, nodes, k);
    }
    forall i | 0 <= i < |o| ensures o[i].below == Nth(o, Older(o, mask, i, Slot(o[i], mask))) {
      BelowHung(node, order, mask, nodes, i);
    }
    forall i | 0 <= i < |o| ensures o[i].above == Nth(o, Younger(o, mask, i + 1, Slot(o[i], mask))) {
      AboveHung(node, order, mask, nodes, o, i);
    }
    HungBy(o, mask, nodes);
  }

  lemma AboveHung(node: Node, order: seq<Node>, mask: nat, nodes: array<Node?>, o: seq<Node>, i: nat)
    requires HungPast(node, order, mask, nodes) && o == order + [node] && i < |o|
    ensures o[i].above == Nth(o, Younger(o, mask, i + 1, Slot(o[i], mask)))
  {
    if i < |order| {
      var k, last := Slot(order[i], mask), Older(order, mask, |order|, Slot(node, mask));
      YoungerAppend(order, node, mask, i + 1, k);
      YoungestHasNone(order, mask, i, k);
      assert order[i].above == if i == last then node else Nth(order, Younger(order, mask, i + 1, k));
      AboveIs(order, node, o, i, last, Younger(order, mask, i + 1, k), Younger(o, mask, i + 1, k));
    }
  }

  lemma AboveIs(order: seq<Node>, node: Node, o: seq<Node>, i: nat, last: int, y: int, y': int)
    requires o == order + [node] && i < y <= |order|
    requires y' == if y < |order| then y else if i == last then |order| else |order| + 1
    requires i == last ==> y == |order|
    ensures Nth(o, y') == if i == last then node else Nth(order, y)
  {
  }

  /** A new youngest entry of its bucket. */
  method Hang(node: Node, nodes: array<Node?>, mask: nat, ghost order: seq<Node>)
    requires Hung(order, mask, nodes) && node !in order && Distinct(order)
    modifies nodes, node`below, node`above, order`above
    ensures Hung(order + [node], mask, nodes)
  {
    HangRaw(node, nodes, mask, order);
    NowHung(node, order, mask, nodes);
  }

  /** The entry at place `o`, if any, learns what is above it. */
  method SetAbove(top: Node?, node: Node?, ghost order: seq<Node>, ghost o: int)
    requires Distinct(order) && top == Nth(order, o)
    modifies order`above
    ensures forall i | 0 <= i < |order| :: order[i].above == if i == o then node else old(order[i].above)
  {
    if top != null {
      top.above := node;
    }
  }

  method SetNext(x: Node?, next: Node?, ghost order: seq<Node>, ghost o: int)
    requires Distinct(order) && x == Nth(order, o)
    modifies order`next
    ensures forall i | 0 <= i < |order| :: order[i].next == if i == o then next else old(order[i].next)
  {
    if x != null {
      x.next := next;
    }
  }

  method SetPrev(x: Node?, prev: Node?, ghost order: seq<Node>, ghost o: int)
    requires Distinct(order) && x == Nth(order, o)
    modifies order`prev
    ensures forall i | 0 <= i < |order| :: order[i].prev == if i == o then prev else old(order[i].prev)
  {
    if x != null {
      x.prev := prev;
    }
  }

  method SetBelow(top: Node?, node: Node?, ghost order: seq<Node>, ghost o: int)
    requires Distinct(order) && top == Nth(order, o)
    modifies order`below
    ensures forall i | 0 <= i < |order| :: order[i].below == if i == o then node else old(order[i].below)
  {
    if top != null {
      top.below := node;
    }
  }

  method HangRaw(node: Node, nodes: array<Node?>, mask: nat, ghost order: seq<Node>)
    requires Hung(order, mask, nodes) && node !in order && Distinct(order)
    modifies nodes, node`below, node`above, order`above
    ensures HungPast(node, order, mask, nodes)
  {
    hide Older, Younger, Distinct;
    var k := Slot(node, mask);
    ghost var o := Older(order, mask, |order|, k);
    assert nodes[k] == Nth(order, o);
    node.below := nodes[k];
    node.above := null;
    SetAbove(node.below, node, order, o);
    nodes[k] := node;
  }

  // ---------------------------------------------------------------- taking an entry out of its chain

  lemma WithoutAt(order: seq<Node>, d: nat, i: nat)
    requires d < |order| && i < |order| - 1
    ensures |Without(order, d)| == |order| - 1 && Without(order, d)[i] == order[if i < d then i else i + 1]
  {
  }

  lemma OlderWithout(order: seq<Node>, d: nat, mask: nat, i: nat, k: nat)
    requires d < |order| && i < |order|
    ensures var o := Without(order, d);
            var r := Older(order, mask, if i <= d then i else i + 1, k);
            Nth(o, Older(o, mask, i, k)) == Nth(order, if r == d then Older(order, mask, d, k) else r)
  {
    hide Older;
    var o := Without(order, d);
    var r := Older(order, mask, if i <= d then i else i + 1, k);
    var r' := if r < d then r else if r > d then r - 1 else Older(order, mask, d, k);
    forall l | r' < l < i ensures Slot(o[l], mask) != k {
      WithoutAt(order, d, l);
    }
    if r' >= 0 { WithoutAt(order, d, r'); }
    OlderIs(o, mask, i, k, r');
  }

  lemma YoungerWithout(order: seq<Node>, d: nat, mask: nat, i: nat, k: nat)
    requires d < |order| && i < |order|
    ensures var o := Without(order, d);
            var r := Younger(order, mask, if i <= d then i else i + 1, k);
            Nth(o, Younger(o, mask, i, k)) == Nth(order, if r == d then Younger(order, mask, d + 1, k) else r)
  {
    hide Younger;
    var o := Without(order, d);
    var r := Younger(order, mask, if i <= d then i else i + 1, k);
    var r' := if r < d then r else if r > d then r - 1 else Younger(order, mask, d + 1, k) - 1;
    forall l | i <= l < r' ensures Slot(o[l], mask) != k {
      WithoutAt(order, d, l);
    }
    if r' < |o| { WithoutAt(order, d, r'); }
    YoungerIs(o, mask, i, k, r');
  }

  /** Who is next to an entry in its chain. */
  lemma Neighbours(order: seq<Node>, mask: nat, d: nat, i: nat)
    requires d < |order| && i < |order| && i != d
    ensures Older(order, mask, i, Slot(order[i], mask)) == d <==> Younger(order, mask, d + 1, Slot(order[d], mask)) == i
    ensures Younger(order, mask, i + 1, Slot(order[i], mask)) == d <==> Older(order, mask, d, Slot(order[d], mask)) == i
  {
    hide Older, Younger;
    var k, ki := Slot(order[d], mask), Slot(order[i], mask);
    if Older(order, mask, i, ki) == d { YoungerIs(order, mask, d + 1, k, i); }
    if Younger(order, mask, d + 1, k) == i { OlderIs(order, mask, i, ki, d); }
    if Younger(order, mask, i + 1, ki) == d { OlderIs(order, mask, d, k, i); }
    if Older(order, mask, d, k) == i { YoungerIs(order, mask, i + 1, ki, d); }
  }

  /** The chains after the entry at place `d` was unlinked. */
  ghost predicate HungWithout(order: seq<Node>, d: nat, mask: nat, nodes: array<Node?>)
    requires d < |order|
    reads nodes, order`below, order`above
  {
    var k := Slot(order[d], mask);
    var a, y := Older(order, mask, d, k), Younger(order, mask, d + 1, k);
    && mask < nodes.Length
    && (forall j | 0 <= j <= mask :: nodes[j] == if j == k && y == |order| then Nth(order, a)
       else Nth(order, Older(order, mask, |order|, j)))
    && (forall i | 0 <= i < |order|
       && i != d :: order[i].below == if i == y then Nth(order, a)
          else Nth(order, Older(order, mask, i, Slot(order[i], mask))))
    && (forall i | 0 <= i < |order|
       && i != d :: order[i].above == if i == a then Nth(order, y)
          else Nth(order, Younger(order, mask, i + 1, Slot(order[i], mask))))
  }

  lemma StillHung(order: seq<Node>, d: nat, mask: nat, nodes: array<Node?>)
    requires d < |order| && HungWithout(order, d, mask, nodes)
    ensures Hung(Without(order, d), mask, nodes)
  {
    hide Older, Younger, Slot, Without, HungWithout;
    var o := Without(order, d);
    HungBounds(order, d, mask, nodes);
    forall j | 0 <= j <= mask ensures nodes[j] == Nth(o, Older(o, mask, |o|, j)) {
      BucketStill(order, d, mask, nodes, o, j);
    }
    forall i | 0 <= i < |o|
      ensures o[i].below == Nth(o, Older(o, mask, i, Slot(o[i], mask)))
      ensures o[i].above == Nth(o, Younger(o, mask, i + 1, Slot(o[i], mask)))
    {
      ChainStill(order, d, mask, nodes, o, i);
    }
  }

  lemma HungBounds(order: seq<Node>, d: nat, mask: nat, nodes: array<Node?>)
    requires d < |order| && HungWithout(order, d, mask, nodes)
    ensures mask < nodes.Length && |Without(order, d)| == |order| - 1
  {
  }

  lemma HungAt(order: seq<Node>, d: nat, mask: nat, nodes: array<Node?>, j: nat)
    requires d < |order| && HungWithout(order, d, mask, nodes) && j <= mask
    ensures mask < nodes.Length
    ensures nodes[j] ==
            if j == Slot(order[d], mask) && Younger(order, mask, d + 1, j) == |order|
            then Nth(order, Older(order, mask, d, j)) else Nth(order, Older(order, mask, |order|, j))
  {
    hide Younger, Older, Slot, Nth;
  }

  lemma OlderThanLast(order: seq<Node>, mask: nat, j: nat)
    requires order != []
    ensures var d := |order| - 1;
            Older(order, mask, |order|, j) == if Slot(order[d], mask) == j then d else Older(order, mask, d, j)
  {
  }

  /** The last entry of a bucket, with and without the entry at place `d`. */
  lemma LastWithout(order: seq<Node>, d: nat, mask: nat, j: nat)
    requires d < |order|
    ensures var o := Without(order, d);
            Nth(o, Older(o, mask, |o|, j)) ==
            if j == Slot(order[d], mask) && Younger(order, mask, d + 1, j) == |order|
            then Nth(order, Older(order, mask, d, j)) else Nth(order, Older(order, mask, |order|, j))
  {
    hide *;
    var o := Without(order, d);
    WithoutLength(order, d);
    OlderWithout(order, d, mask, |o|, j);
    LastOlder(order, mask, d, j);
    if d == |order| - 1 {
      OlderThanLast(order, mask, j);
      YoungerThanLast(order, mask, j);
    }
  }

  lemma YoungerThanLast(order: seq<Node>, mask: nat, j: nat)
    ensures Younger(order, mask, |order|, j) == |order|
  {
  }

  lemma BucketStill(order: seq<Node>, d: nat, mask: nat, nodes: array<Node?>, o: seq<Node>, j: nat)
    requires d < |order| && HungWithout(order, d, mask, nodes) && o == Without(order, d) && j <= mask
    ensures |o| == |order| - 1 && mask < nodes.Length && nodes[j] == Nth(o, Older(o, mask, |o|, j))
  {
    HungAt(order, d, mask, nodes, j);
    hide *;
    WithoutLength(order, d);
    LastWithout(order, d, mask, j);
  }

  lemma BelowStill(order: seq<Node>, d: nat, mask: nat, nodes: array<Node?>, o: seq<Node>, i: nat, l: nat)
    requires d < |order| && HungWithout(order, d, mask, nodes) && o == Without(order, d) && i < |o|
    requires l == (if i < d then i else i + 1) && o[i] == order[l]
    ensures o[i].below == Nth(o, Older(o, mask, i, Slot(o[i], mask)))
  {
    HungBelow(order, d, mask, nodes, l);
    hide *;
    var k, kl := Slot(order[d], mask), Slot(order[l], mask);
    var r := Older(order, mask, l, kl);
    WithoutLength(order, d);
    OlderWithout(order, d, mask, i, kl);
    Neighbours(order, mask, d, l);
    if r == d { assert k == kl; }
  }

  lemma HungBelow(order: seq<Node>, d: nat, mask: nat, nodes: array<Node?>, l: nat)
    requires d < |order| && HungWithout(order, d, mask, nodes) && l < |order| && l != d
    ensures order[l].below ==
            if l == Younger(order, mask, d + 1, Slot(order[d], mask))
            then Nth(order, Older(order, mask, d, Slot(order[d], mask)))
            else Nth(order, Older(order, mask, l, Slot(order[l], mask)))
  {
    hide Younger, Older, Slot, Nth;
  }

  lemma AboveStill(order: seq<Node>, d: nat, mask: nat, nodes: array<Node?>, o: seq<Node>, i: nat, l: nat)
    requires d < |order| && HungWithout(order, d, mask, nodes) && o == Without(order, d) && i < |o|
    requires l == (if i < d then i else i + 1) && o[i] == order[l]
    ensures o[i].above == Nth(o, Younger(o, mask, i + 1, Slot(o[i], mask)))
  {
    HungAbove(order, d, mask, nodes, l);
    hide *;
    var a := Older(order, mask, d, Slot(order[d], mask));
    if l == a {
      NextIsGone(order, d, mask, o, i, l);
    } else {
      NextStays(order, d, mask, o, i, l);
    }
  }

  lemma HungAbove(order: seq<Node>, d: nat, mask: nat, nodes: array<Node?>, l: nat)
    requires d < |order| && HungWithout(order, d, mask, nodes) && l < |order| && l != d
    ensures order[l].above ==
            if l == Older(order, mask, d, Slot(order[d], mask))
            then Nth(order, Younger(order, mask, d + 1, Slot(order[d], mask)))
            else Nth(order, Younger(order, mask, l + 1, Slot(order[l], mask)))
  {
    hide Younger, Older, Slot, Nth;
  }

  lemma NextIsGone(order: seq<Node>, d: nat, mask: nat, o: seq<Node>, i: nat, l: nat)
    requires d < |order| && o == Without(order, d) && i < |o| && l == (if i < d then i else i + 1) && o[i] == order[l]
    requires l == Older(order, mask, d, Slot(order[d], mask))
    ensures Nth(o, Younger(o, mask, i + 1, Slot(o[i], mask)))
         == Nth(order, Younger(order, mask, d + 1, Slot(order[d], mask)))
  {
    hide *;
    Neighbours(order, mask, d, l);
    var k := Slot(order[l], mask);
    assert Younger(order, mask, l + 1, k) == d && k == Slot(order[d], mask);
    YoungerFrom(order, d, mask, i + 1, l + 1, k);
  }

  lemma NextStays(order: seq<Node>, d: nat, mask: nat, o: seq<Node>, i: nat, l: nat)
    requires d < |order| && o == Without(order, d) && i < |o| && l == (if i < d then i else i + 1) && o[i] == order[l]
    requires l != Older(order, mask, d, Slot(order[d], mask))
    ensures Nth(o, Younger(o, mask, i + 1, Slot(o[i], mask)))
         == Nth(order, Younger(order, mask, l + 1, Slot(order[l], mask)))
  {
    hide *;
    WithoutLength(order, d);
    YoungerThan(order, mask, d, l);
    YoungerFrom(order, d, mask, i + 1, l + 1, Slot(order[l], mask));
  }

  lemma YoungerThan(order: seq<Node>, mask: nat, d: nat, l: nat)
    requires d < |order| && l < |order| && l != d && l != Older(order, mask, d, Slot(order[d], mask))
    ensures Younger(order, mask, l + 1, Slot(order[l], mask)) != d
  {
    hide *;
    Neighbours(order, mask, d, l);
  }

  lemma YoungerFrom(order: seq<Node>, d: nat, mask: nat, i: nat, l: nat, k: nat)
    requires d < |order| && i < |order| && l == if i <= d then i else i + 1
    ensures var o := Without(order, d);
            var r, z := Younger(order, mask, l, k), Nth(o, Younger(o, mask, i, k));
            (r == d ==> z == Nth(order, Younger(order, mask, d + 1, k))) && (r != d ==> z == Nth(order, r))
  {
    YoungerWithout(order, d, mask, i, k);
  }

  lemma ChainStill(order: seq<Node>, d: nat, mask: nat, nodes: array<Node?>, o: seq<Node>, i: nat)
    requires d < |order| && HungWithout(order, d, mask, nodes) && o == Without(order, d) && i < |o|
    ensures o[i].below == Nth(o, Older(o, mask, i, Slot(o[i], mask)))
    ensures o[i].above == Nth(o, Younger(o, mask, i + 1, Slot(o[i], mask)))
  {
    WithoutAt(order, d, i);
    hide HungWithout, Older, Younger, Without;
    BelowStill(order, d, mask, nodes, o, i, if i < d then i else i + 1);
    AboveStill(order, d, mask, nodes, o, i, if i < d then i else i + 1);
  }

  lemma WithoutLength(order: seq<Node>, d: nat)
    requires d < |order|
    ensures |Without(order, d)| == |order| - 1
  {
  }

  lemma LastOlder(order: seq<Node>, mask: nat, d: nat, j: nat)
    requires d < |order|
    ensures Older(order, mask, |order|, j) == d <==>
            j == Slot(order[d], mask) && Younger(order, mask, d + 1, j) == |order|
  {
    hide Older, Younger;
    if j == Slot(order[d], mask) && Younger(order, mask, d + 1, j) == |order| { OlderIs(order, mask, |order|, j, d); }
    if Older(order, mask, |order|, j) == d { YoungerIs(order, mask, d + 1, j, |order|); }
  }

  // ---------------------------------------------------------------- the table as an ordered map

  /** A number, or a string with its hash. */
  datatype Key = Key(num: nat, bytes: seq<Char>)

  type Entries = seq<(Key, Pointer)>

  function KeyOf(num: nat, bytes: seq<Char>): Key { if bytes == [] then Key(num, []) else Key(Hash(bytes), bytes) }

  /** Strings that share a hash, or have the number of a number as theirs, are other keys. */
  lemma KeysDiffer(num: nat, bytes: seq<Char>, other: nat, text: seq<Char>)
    ensures KeyOf(num, bytes) == KeyOf(other, text) <==> bytes == text && (bytes == [] ==> num == other)
  {
  }

  ghost predicate UniqueKeys(s: Entries) { forall i, j | 0 <= i < j < |s| :: s[i].0 != s[j].0 }

  ghost predicate HasKey(s: Entries, k: Key) { exists i | 0 <= i < |s| :: s[i].0 == k }

  /** The place of a key. */
  ghost function Place(s: Entries, k: Key): (i: nat)
    requires HasKey(s, k)
    ensures i < |s| && s[i].0 == k
  {
    var i :| 0 <= i < |s| && s[i].0 == k; i
  }

  lemma PlaceIs(s: Entries, k: Key, i: nat)
    requires UniqueKeys(s) && i < |s| && s[i].0 == k
    ensures HasKey(s, k) && Place(s, k) == i
  {
  }

  ghost function EntriesOf(order: seq<Node>): (r: Entries)
    reads order`value
    ensures |r| == |order|
    ensures forall i | 0 <= i < |order| :: r[i] == (Key(order[i].num, order[i].bytes), order[i].value)
  {
    if order == [] then []
    else var n := order[|order| - 1]; EntriesOf(order[..|order| - 1]) + [(Key(n.num, n.bytes), n.value)]
  }

  ghost predicate SameKey(n: Node, num: nat, bytes: seq<Char>) { n.num == num && n.bytes == bytes }

  /** String keys carry their hash, and no key occurs twice. */
  ghost predicate Keyed(order: seq<Node>) {
    && (forall i | 0 <= i < |order| :: order[i].bytes == [] || order[i].num == Hash(order[i].bytes))
    && (forall i, j | 0 <= i < j < |order| :: !SameKey(order[j], order[i].num, order[i].bytes))
  }

  ghost predicate Listed(order: seq<Node>)
    reads order`next, order`prev
  {
    && (forall i | 0 <= i < |order| :: order[i].next == Nth(order, i + 1))
    && (forall i | 0 <= i < |order| :: order[i].prev == Nth(order, i - 1))
  }

  /** The list after the entry at place `d` was unlinked. */
  ghost predicate ListedWithout(order: seq<Node>, d: nat)
    requires d < |order|
    reads order`next, order`prev
  {
    && (forall i | 0 <= i < |order|
       && i != d :: order[i].next == if i == d - 1 then Nth(order, d + 1) else Nth(order, i + 1))
    && (forall i | 0 <= i < |order|
       && i != d :: order[i].prev == if i == d + 1 then Nth(order, d - 1) else Nth(order, i - 1))
  }

  lemma NthIs(order: seq<Node>, i: nat)
    ensures Nth(order, i) == if i < |order| then order[i] else null
  {
  }

  lemma NextInList(order: seq<Node>, i: nat)
    requires Listed(order) && i < |order|
    ensures order[i].next == Nth(order, i + 1)
  {
  }

  lemma NthWithout(order: seq<Node>, d: nat, i: int)
    requires d < |order|
    ensures Nth(Without(order, d), i) == Nth(order, if i < d then i else i + 1)
  {
  }

  lemma StillListed(order: seq<Node>, d: nat)
    requires d < |order| && ListedWithout(order, d)
    ensures Listed(Without(order, d))
    ensures Nth(Without(order, d), 0) == Nth(order, if d == 0 then 1 else 0)
    ensures Nth(Without(order, d), |order| - 2) == Nth(order, if d == |order| - 1 then |order| - 2 else |order| - 1)
  {
    hide Without, Nth;
    var o := Without(order, d);
    WithoutLength(order, d);
    forall i | 0 <= i < |o| ensures o[i].next == Nth(o, i + 1) && o[i].prev == Nth(o, i - 1) {
      WithoutAt(order, d, i);
      NthWithout(order, d, i + 1);
      NthWithout(order, d, i - 1);
    }
    NthWithout(order, d, 0);
    NthWithout(order, d, |order| - 2);
  }

  lemma StillDistinct(order: seq<Node>, d: nat)
    requires d < |order| && Distinct(order) && Keyed(order)
    ensures Distinct(Without(order, d)) && Keyed(Without(order, d))
  {
    var o := Without(order, d);
    forall i, j | 0 <= i < j < |o| ensures o[i] != o[j] && !SameKey(o[j], o[i].num, o[i].bytes) {
      WithoutAt(order, d, i);
      WithoutAt(order, d, j);
    }
    forall i | 0 <= i < |o| ensures o[i].bytes == [] || o[i].num == Hash(o[i].bytes) { WithoutAt(order, d, i); }
  }

  lemma EntriesWithout(order: seq<Node>, d: nat)
    requires d < |order|
    ensures var s := EntriesOf(order); EntriesOf(Without(order, d)) == s[..d] + s[d + 1..]
  {
    hide EntriesOf;
    var s, o := EntriesOf(order), Without(order, d);
    var t := EntriesOf(o);
    WithoutLength(order, d);
    forall i | 0 <= i < |t| ensures t[i] == (s[..d] + s[d + 1..])[i] { WithoutAt(order, d, i); }
  }

  method UnlistLast(node: Node, tail0: Node?, ghost order: seq<Node>, ghost d: nat) returns (tail: Node?)
    requires Distinct(order) && d < |order| && order[d] == node
    requires forall i | 0 <= i < |order| :: order[i].next == Nth(order, i + 1)
    requires forall i | 0 <= i < |order| :: order[i].prev == Nth(order, i - 1)
    modifies order`next, order`prev
    ensures forall i | 0 <= i < |order| :: order[i].next == if i == d - 1 && d + 1 == |order| then null
            else Nth(order, i + 1)
    ensures forall i | 0 <= i < |order| :: order[i].prev == if i == d + 1 then Nth(order, d - 1) else Nth(order, i - 1)
    ensures tail == if d + 1 == |order| then Nth(order, d - 1) else tail0
  {
    hide Distinct;
    tail := tail0;
    assert node.next == Nth(order, d + 1) && node.prev == Nth(order, d - 1);
    assert node.next == null <==> d + 1 == |order|;
    if node.next == null {
      tail := node.prev;
      SetNext(tail, null, order, d - 1);
    } else {
      SetPrev(node.next, node.prev, order, d + 1);
    }
  }

  method UnlistFirst(node: Node, head0: Node?, ghost order: seq<Node>, ghost d: nat) returns (head: Node?)
    requires Distinct(order) && head0 == Nth(order, 0) && d < |order| && order[d] == node
    requires forall i | 0 <= i < |order| :: order[i].next == if i == d - 1 && d + 1 == |order| then null
            else Nth(order, i + 1)
    requires forall i | 0 <= i < |order| :: order[i].prev == if i == d + 1 then Nth(order, d - 1) else Nth(order, i - 1)
    modifies order`next, order`prev
    ensures forall i | 0 <= i < |order|
            && i != d :: order[i].next == if i == d - 1 then Nth(order, d + 1) else Nth(order, i + 1)
    ensures forall i | 0 <= i < |order|
            && i != d :: order[i].prev == if i == d + 1 then Nth(order, d - 1) else Nth(order, i - 1)
    ensures head == Nth(order, if d == 0 then 1 else 0)
  {
    hide Distinct;
    head := head0;
    assert node.next == Nth(order, d + 1) && node.prev == Nth(order, d - 1);
    if node.prev == null {
      head := node.next;
      SetPrev(head, null, order, d + 1);
    } else {
      SetNext(node.prev, node.next, order, d - 1);
    }
  }

  /** The neighbours of the entry in its chain become neighbours. */
  method Unhang(node: Node, nodes: array<Node?>, mask: nat, ghost order: seq<Node>, ghost d: nat)
    requires Distinct(order) && Hung(order, mask, nodes) && d < |order| && order[d] == node
    modifies nodes, order`below, order`above
    ensures HungWithout(order, d, mask, nodes)
  {
    var k := Slot(node, mask);
    ghost var a, y := Older(order, mask, d, k), Younger(order, mask, d + 1, k);
    NextInChain(order, mask, nodes, d);
    Skip(node, nodes, k, order, a, y);
    Unhung(order, d, mask, nodes, k);
  }

  twostate lemma Unhung(order: seq<Node>, new d: nat, new mask: nat, new nodes: array<Node?>, new k: nat)
    requires d < |order| && old(allocated(nodes)) && k == Slot(order[d], mask) <= mask < nodes.Length
    requires forall j | 0 <= j <= mask :: old(nodes[j]) == Nth(order, Older(order, mask, |order|, j))
    requires forall i | 0 <= i < |order| ::
            old(order[i].below) == Nth(order, Older(order, mask, i, Slot(order[i], mask)))
    requires forall i | 0 <= i < |order| ::
            old(order[i].above) == Nth(order, Younger(order, mask, i + 1, Slot(order[i], mask)))
    requires var a, y := Older(order, mask, d, k), Younger(order, mask, d + 1, k);
             && (forall i | 0 <= i < |order| :: order[i].below == if i == y then Nth(order, a) else old(order[i].below))
             && (forall i | 0 <= i < |order| :: order[i].above == if i == a then Nth(order, y) else old(order[i].above))
             && (forall j | 0 <= j < nodes.Length :: nodes[j] == if j == k && Nth(order, y) == null then Nth(order, a)
                else old(nodes[j]))
    ensures HungWithout(order, d, mask, nodes)
  {
    hide Older, Younger, Slot;
  }

  lemma NextInChain(order: seq<Node>, mask: nat, nodes: array<Node?>, d: nat)
    requires Hung(order, mask, nodes) && d < |order|
    ensures var k := Slot(order[d], mask);
            var y := Younger(order, mask, d + 1, k);
            && order[d].below == Nth(order, Older(order, mask, d, k)) && order[d].above == Nth(order, y)
            && (Nth(order, y) == null <==> y == |order|) && k <= mask < nodes.Length
  {
  }

  method Skip(node: Node, nodes: array<Node?>, k: nat, ghost order: seq<Node>, ghost a: int, ghost y: int)
    requires Distinct(order) && k < nodes.Length && node.below == Nth(order, a) && node.above == Nth(order, y)
    modifies nodes, order`below, order`above
    ensures forall i | 0 <= i < |order| :: order[i].below == if i == y then Nth(order, a) else old(order[i].below)
    ensures forall i | 0 <= i < |order| :: order[i].above == if i == a then Nth(order, y) else old(order[i].above)
    ensures forall j | 0 <= j < nodes.Length :: nodes[j] == if j == k && Nth(order, y) == null then Nth(order, a)
            else old(nodes[j])
  {
    hide Distinct, Nth;
    var above, below := node.above, node.below;
    SetAbove(below, above, order, a);
    Bypass(above, below, nodes, k, order, y);
  }

  /** What led down to an entry leads past it. */
  method Bypass(above: Node?, below: Node?, nodes: array<Node?>, k: nat, ghost order: seq<Node>, ghost y: int)
    requires Distinct(order) && above == Nth(order, y) && k < nodes.Length
    modifies nodes, order`below
    ensures forall i | 0 <= i < |order| :: order[i].below == if i == y then below else old(order[i].below)
    ensures forall j | 0 <= j < nodes.Length :: nodes[j] == if j == k && above == null then below else old(nodes[j])
  {
    if above == null {
      nodes[k] := below;
    } else {
      SetBelow(above, below, order, y);
    }
  }

  const FIRST_BITS := 3

  ghost function MaskBits(bits: nat): nat { if bits < 32 then bits else 32 }

  lemma {:induction false} Pow2Sum(a: nat, b: nat)
    ensures Pow2(a + b) == Pow2(a) * Pow2(b)
  {
    if a > 0 { Pow2Sum(a - 1, b); }
  }

  lemma Pow2Values()
    ensures Pow2(32) == 0x1_0000_0000 && Pow2(64) == ULONG
  {
    assert Pow2(8) == 256;
    Pow2Sum(8, 8);
    Pow2Sum(16, 16);
    Pow2Sum(32, 32);
  }

  /** Truncating the last bucket number to 32 bits keeps its low bits. */
  lemma MaskOf(bits: nat)
    ensures Pow2(bits) >= 1 && (Pow2(bits) - 1) % 0x1_0000_0000 + 1 == Pow2(MaskBits(bits))
  {
    Pow2Values();
    Pow2Monotone(0, bits);
    if bits < 32 {
      Pow2Monotone(bits, 32);
    } else {
      var q := Pow2(bits - 32);
      Pow2Sum(bits - 32, 32);
      Pow2Monotone(0, bits - 32);
      hide Pow2;
      LowBits(q, Pow2(bits));
    }
  }

  lemma LowBits(q: int, x: int)
    requires x == q * 0x1_0000_0000
    ensures (x - 1) % 0x1_0000_0000 == 0xFFFF_FFFF
  {
    assert x - 1 == (q - 1) * 0x1_0000_0000 + 0xFFFF_FFFF;
  }

  /** Doubling the size overflows 64 bits exactly at the largest one. */
  lemma DoubleFits(bits: nat)
    requires bits < 64
    ensures (Pow2(bits) * 2) % ULONG == 0 <==> bits == 63
  {
    hide Pow2;
    Pow2Values();
    Pow2Twice(bits);
    Pow2Monotone(0, bits);
    if bits < 63 {
      Pow2Monotone(bits + 1, 63);
      Pow2Twice(63);
      Pow2Monotone(0, 63);
    }
  }

  lemma Pow2Twice(bits: nat)
    ensures Pow2(bits + 1) == Pow2(bits) * 2
  {
  }

  /** A deletion does not move the cursor.  It is still on an entry of the table, one place
      further down if it was behind the deleted one, exactly if that was not its own entry. */
  lemma CursorAfterDel(order: seq<Node>, d: nat, i: nat)
    requires Distinct(order) && d < |order| && i < |order|
    ensures order[i] in Without(order, d) <==> i != d
    ensures i != d ==> |Without(order, d)| == |order| - 1 && Without(order, d)[if i < d then i else i - 1] == order[i]
  {
    DistinctWithout(order, d);
  }

  class HTable {
    var mask: nat
    var size: nat
    var count: nat
    var nodes: array<Node?>
    var head: Node?
    var tail: Node?
    var curr: Node?
    const vfree: bool
    var freed: seq<Pointer>

    ghost var order: seq<Node>
    ghost var bits: nat

    /** The size is a power of two, and the mask has as many low bits, at most 32. */
    ghost predicate Sized()
      reads this`mask, this`size, this`bits, this`nodes
    {
      && FIRST_BITS <= bits < 64 && size == nodes.Length == Pow2(bits) && mask + 1 == Pow2(MaskBits(bits))
    }

    /** List, chains and counters agree with the order of arrival. */
    ghost predicate Core()
      reads this, nodes, order
    {
      && Sized() && Distinct(order) && Keyed(order) && Hung(order, mask, nodes) && Listed(order)
      && head == Nth(order, 0) && tail == Nth(order, |order| - 1) && count == |order|
    }

    /** There are no more entries than buckets, as long as there can be more buckets. */
    ghost predicate Valid()
      reads this, nodes, order
    {
      Core() && (count <= size || bits == 63)
    }

    ghost function Contents(): Entries
      reads this`order, order`value
    {
      EntriesOf(order)
    }

    constructor (vfree: bool)
      ensures Valid() && Contents() == [] && freed == [] && this.vfree == vfree && fresh(nodes) && order == []
    {
      size, mask, count := 8, 7, 0;
      nodes := new Node?[8](_ => null);
      head, tail, curr := null, null, null;
      this.vfree, freed, order, bits := vfree, [], [], FIRST_BITS;
      new;
      assert Pow2(3) == 8;
    }

    /** No entry from place `i` on has the key. */
    ghost predicate Unseen(num: nat, bytes: seq<Char>, i: int)
      reads this`order
    {
      forall j | 0 <= j < |order| && i <= j :: !SameKey(order[j], num, bytes)
    }

    /** What the walk along a chain finds, and what it passes by. */
    lemma ChainStep(num: nat, bytes: seq<Char>, k: nat, i: nat, o: int)
      requires Hung(order, mask, nodes) && i <= |order| && k == num % (mask + 1) && o == Older(order, mask, i, k)
      requires i < |order| ==> Slot(order[i], mask) == k
      requires Unseen(num, bytes, i)
      ensures k < nodes.Length && Nth(order, o) == (if i == |order| then nodes[k] else order[i].below)
      ensures -1 <= o < i && (o >= 0 ==> Slot(order[o], mask) == k) && Unseen(num, bytes, o + 1)
    {
      hide Older, Younger;
    }

    /** The walk along a chain. */
    method Lookup(num: nat, bytes: seq<Char>) returns (node: Node?, ghost i: int)
      requires Hung(order, mask, nodes)
      ensures node != null ==> 0 <= i < |order| && order[i] == node && SameKey(node, num, bytes)
      ensures node == null ==> Unseen(num, bytes, 0)
    {
      hide Older, Hung, Slot, Unseen;
      var k := num % (mask + 1);
      i := Older(order, mask, |order|, k);
      assert Unseen(num, bytes, |order|) by { NothingUnseen(num, bytes); }
      ChainStep(num, bytes, k, |order|, i);
      node := nodes[k];
      while node != null
        invariant -1 <= i < |order| && node == Nth(order, i) && (i >= 0 ==> Slot(order[i], mask) == k)
        invariant Unseen(num, bytes, i + 1)
        decreases i
      {
        if node.num == num && node.bytes == bytes {
          return;
        }
        SeenNow(num, bytes, i);
        ghost var o := Older(order, mask, i, k);
        ChainStep(num, bytes, k, i, o);
        node, i := node.below, o;
      }
    }

    lemma NothingUnseen(num: nat, bytes: seq<Char>)
      ensures Unseen(num, bytes, |order|)
    {
    }

    lemma SeenNow(num: nat, bytes: seq<Char>, i: nat)
      requires i < |order| && Unseen(num, bytes, i + 1) && !SameKey(order[i], num, bytes)
      ensures Unseen(num, bytes, i)
    {
    }

    // ---------------------------------------------------------------- growing

    /** Doubles the number of buckets once there are as many entries. */
    method Resize() returns (ret: int)
      requires Core()
      modifies this`size, this`mask, this`nodes, this`bits, order`below, order`above
      ensures Core() && order == old(order)
      ensures if old(bits) == 63 then ret == -1 && size == old(size) && nodes == old(nodes) && bits == 63
              else ret == 0 && if old(count) < old(size) then size == old(size) && nodes == old(nodes)
                               else size == 2 * old(size) && fresh(nodes)
      ensures ret == 0 && old(count) <= old(size) ==> count < size
    {
      DoubleFits(bits);
      Pow2Monotone(0, bits);
      if (size * 2) % ULONG == 0 {
        return -1;
      }
      if count < size {
        return 0;
      }
      Grow();
      ret := 0;
    }

    /** A larger array of buckets into which the entries are hung in the order of the list. */
    method Grow()
      requires Core() && bits < 63
      modifies this`size, this`mask, this`nodes, this`bits, order`below, order`above
      ensures Core() && order == old(order) && bits == old(bits) + 1 && size == 2 * old(size) && fresh(nodes)
    {
      hide Hung, Keyed, Listed, Distinct;
      nodes := new Node?[size * 2](_ => null);
      size := size * 2;
      bits := bits + 1;
      MaskOf(bits);
      mask := (size - 1) % 0x1_0000_0000;
      Rehang();
    }

    method Rehang()
      requires Distinct(order) && Listed(order) && head == Nth(order, 0)
      requires mask < nodes.Length && forall k | 0 <= k < nodes.Length :: nodes[k] == null
      modifies nodes, order`below, order`above
      ensures Hung(order, mask, nodes)
    {
      hide Hung, Distinct, Listed, Nth;
      var node := head;
      ghost var i := 0;
      EmptyHung(mask, nodes);
      assert order[..0] == [];
      NthIs(order, 0);
      while node != null
        invariant 0 <= i <= |order| && if i < |order| then node == order[i] else node == null
        invariant Hung(order[..i], mask, nodes)
        decreases |order| - i
      {
        NextInList(order, i);
        NthIs(order, i + 1);
        PrefixDistinct(order, i);
        Hang(node, nodes, mask, order[..i]);
        assert order[..i + 1] == order[..i] + [order[i]];
        node := node.next;
        i := i + 1;
      }
      assert order[..i] == order;
    }

    // ---------------------------------------------------------------- adding

    /** The last place of the list. */
    method LinkLast(node: Node)
      requires Distinct(order) && Listed(order) && head == Nth(order, 0) && tail == Nth(order, |order| - 1)
      requires node !in order && node.next == null && node.prev == tail
      modifies this`head, this`tail, order`next
      ensures Listed(order + [node]) && head == Nth(order + [node], 0) && tail == node
    {
      if tail != null {
        tail.next := node;
      }
      tail := node;
      if head == null {
        head := node;
      }
    }

    /** The new entry enters its chain and the list. */
    method HangAndLink(node: Node)
      requires Distinct(order) && Hung(order, mask, nodes) && Listed(order)
      requires head == Nth(order, 0) && tail == Nth(order, |order| - 1)
      requires node !in order && node.next == null && node.prev == tail
      modifies this`head, this`tail, nodes, order`next, order`below, order`above, node`below, node`above
      ensures Hung(order + [node], mask, nodes) && Listed(order + [node])
      ensures head == Nth(order + [node], 0) && tail == Nth(order + [node], |order|)
    {
      hide Hung, Listed, Distinct;
      Hang(node, nodes, mask, order);
      LinkLast(node);
    }

    method Append(num: nat, bytes: seq<Char>, value: Pointer)
      requires Core() && Unseen(num, bytes, 0) && (bytes != [] ==> num == Hash(bytes))
      modifies this`head, this`tail, this`count, this`order, nodes, order`next, order`below, order`above
      ensures Core() && nodes == old(nodes) && size == old(size) && bits == old(bits) && count == old(count) + 1
      ensures |order| == old(|order|) + 1 && order[..old(|order|)] == old(order) && fresh(order[old(|order|)])
      ensures Contents() == old(Contents()) + [(Key(num, bytes), value)]
    {
      hide Hung, Listed, Keyed, Distinct, Unseen, EntriesOf, Sized, Slot, Hash, Nth;
      ghost var before := order;
      var node := new Node(num, bytes, value, tail);
      HangAndLink(node);
      count := count + 1;
      order := before + [node];
      AppendKeyed(before, node) by { NoneSame(before, node, num, bytes); }
      EntriesAppend(before, node);
    }

    twostate lemma NoneSame(before: seq<Node>, new node: Node, new num: nat, new bytes: seq<Char>)
      requires before == old(order) && old(Unseen(num, bytes, 0)) && node.num == num && node.bytes == bytes
      ensures forall j | 0 <= j < |before| :: !SameKey(before[j], node.num, node.bytes)
    {
    }

    lemma EntriesAppend(before: seq<Node>, node: Node)
      ensures EntriesOf(before + [node]) == EntriesOf(before) + [(Key(node.num, node.bytes), node.value)]
    {
      assert (before + [node])[..|before|] == before;
    }

    lemma AppendKeyed(before: seq<Node>, node: Node)
      requires Keyed(before) && Distinct(before) && node !in before
      requires node.bytes == [] || node.num == Hash(node.bytes)
      requires forall j | 0 <= j < |before| :: !SameKey(before[j], node.num, node.bytes)
      ensures Keyed(before + [node]) && Distinct(before + [node])
    {
    }

    /** The value of an entry changes; the old one is released. */
    method Replace(node: Node, value: Pointer, ghost i: nat)
      requires Core() && i < |order| && order[i] == node
      modifies this`freed, node`value
      ensures Core() && Contents() == old(Contents())[i := (old(Contents())[i].0, value)]
      ensures freed == if vfree then old(freed) + [old(Contents())[i].1] else old(freed)
    {
      hide Hung, Listed, Keyed;
      if vfree {
        freed := freed + [node.value];
      }
      node.value := value;
    }

    /** What the code computes for a key first. */
    method NumKey(num: nat, bytes: seq<Char>) returns (n: nat)
      ensures Key(n, bytes) == KeyOf(num, bytes) && (bytes != [] ==> n == Hash(bytes))
    {
      n := num;
      if |bytes| > 0 {
        n := StrNkey(bytes);
      }
    }

    /** The key of an entry is the key looked for. */
    lemma KeyFound(num: nat, bytes: seq<Char>, i: nat)
      requires Core() && i < |order| && SameKey(order[i], num, bytes)
      ensures HasKey(Contents(), Key(num, bytes)) && Place(Contents(), Key(num, bytes)) == i
    {
      ContentsUnique();
      PlaceIs(Contents(), Key(num, bytes), i);
    }

    lemma KeyMissing(num: nat, bytes: seq<Char>)
      requires Unseen(num, bytes, 0)
      ensures !HasKey(Contents(), Key(num, bytes))
    {
      var s := Contents();
      forall i | 0 <= i < |s| ensures s[i].0 != Key(num, bytes) {
        assert s[i].0 == Key(order[i].num, order[i].bytes) && !SameKey(order[i], num, bytes);
      }
    }

    lemma ContentsUnique()
      requires Keyed(order)
      ensures UniqueKeys(Contents())
    {
      var s := Contents();
      forall i, j | 0 <= i < j < |s| ensures s[i].0 != s[j].0 {
        assert !SameKey(order[j], order[i].num, order[i].bytes);
      }
    }

    /** Adds an entry at the end; with `force` the value of a key that is there is replaced. */
    method Add(num: nat, bytes: seq<Char>, value: Pointer, force: bool) returns (ret: int)
      requires Valid()
      modifies this, nodes, order
      ensures Valid() && curr == old(curr) && (nodes == old(nodes) || fresh(nodes))
      ensures if HasKey(old(Contents()), KeyOf(num, bytes)) then order == old(order)
              else |order| == |old(order)| + 1 && order[..|old(order)|] == old(order) && fresh(order[|old(order)|])
      ensures var k := KeyOf(num, bytes);
              var s, t := old(Contents()), Contents();
              if !HasKey(s, k) then ret == 0 && t == s + [(k, value)] && freed == old(freed)
              else if !force then ret == -1 && t == s && freed == old(freed)
              else ret == 0 && t == s[Place(s, k) := (k, value)]
                   && freed == if vfree then old(freed) + [s[Place(s, k)].1] else old(freed)
    {
      hide Hung, Listed, Keyed, Distinct, Sized, HasKey, Unseen, EntriesOf, Nth;
      if count >= size {
        var r := Resize();
      }
      var n := NumKey(num, bytes);
      var node;
      ghost var i;
      node, i := Lookup(n, bytes);
      if node != null {
        KeyFound(n, bytes, i);
        if force {
          Replace(node, value, i);
        }
        ret := if force then 0 else -1;
        return;
      }
      KeyMissing(n, bytes);
      Append(n, bytes, value);
      ret := 0;
    }

    // ---------------------------------------------------------------- deleting

    /** The neighbours of the entry in the list become neighbours. */
    method Unlist(node: Node, ghost o: seq<Node>, ghost d: nat)
      requires Distinct(o) && Listed(o) && head == Nth(o, 0) && tail == Nth(o, |o| - 1) && d < |o| && o[d] == node
      modifies this`head, this`tail, o`next, o`prev
      ensures ListedWithout(o, d)
      ensures head == Nth(o, if d == 0 then 1 else 0)
      ensures tail == Nth(o, if d == |o| - 1 then |o| - 2 else |o| - 1)
    {
      hide Distinct, Nth;
      var t := UnlistLast(node, tail, o, d);
      tail := t;
      var h := UnlistFirst(node, head, o, d);
      head := h;
    }

    /** Deletes the entry of a key, if there is one.  The cursor is not moved. */
    method Del(num: nat, bytes: seq<Char>) returns (ret: int)
      requires Valid()
      modifies this, nodes, order
      ensures Valid() && ret == 0 && curr == old(curr) && nodes == old(nodes)
      ensures var k := KeyOf(num, bytes);
              var s, t := old(Contents()), Contents();
              if HasKey(s, k) then
                var i := Place(s, k);
                t == s[..i] + s[i + 1..] && freed == (if vfree then old(freed) + [s[i].1] else old(freed))
                && order == Without(old(order), i)
              else t == s && freed == old(freed) && order == old(order)
    {
      hide Hung, Listed, Keyed, Distinct, Sized, HasKey, Unseen, EntriesOf, Without;
      var n := NumKey(num, bytes);
      var node;
      ghost var d;
      node, d := Lookup(n, bytes);
      if node != null {
        KeyFound(n, bytes, d);
        Drop(node, d);
      } else {
        KeyMissing(n, bytes);
      }
      ret := 0;
    }

    method Drop(node: Node, ghost d: nat)
      requires Core() && d < |order| && order[d] == node
      modifies this`head, this`tail, this`count, this`freed, this`order
      modifies nodes, order`next, order`prev, order`below, order`above
      ensures Core() && order == Without(old(order), d) && nodes == old(nodes) && size == old(size) && bits == old(bits)
      ensures count == old(count) - 1
      ensures Contents() == old(Contents())[..d] + old(Contents())[d + 1..]
      ensures freed == if vfree then old(freed) + [old(Contents())[d].1] else old(freed)
    {
      hide Hung, Listed, Keyed, Distinct, Sized, EntriesOf, Without, Nth;
      WithoutLength(order, d);
      TakeOut(node, d);
      if vfree {
        freed := freed + [node.value];
      }
      count := count - 1;
    }

    /** Takes an entry out of the table, which still counts it. */
    method TakeOut(node: Node, ghost d: nat)
      requires Core() && d < |order| && order[d] == node
      modifies this`head, this`tail, this`order
      modifies nodes, order`next, order`prev, order`below, order`above
      ensures Sized() && Distinct(order) && Keyed(order) && Hung(order, mask, nodes) && Listed(order)
      ensures order == Without(old(order), d) && head == Nth(order, 0) && tail == Nth(order, |order| - 1)
      ensures Contents() == old(Contents())[..d] + old(Contents())[d + 1..]
    {
      hide Hung, Listed, Keyed, Distinct, Sized, EntriesOf, Without, Nth;
      ghost var before := order;
      Detach(node, before, d);
      StillDistinct(before, d);
      WithoutLength(before, d);
      EntriesWithout(before, d);
      order := Without(before, d);
    }

    /** Takes an entry out of its chain and of the list. */
    method Detach(node: Node, ghost o: seq<Node>, ghost d: nat)
      requires Distinct(o) && Hung(o, mask, nodes) && Listed(o) && d < |o| && o[d] == node
      requires head == Nth(o, 0) && tail == Nth(o, |o| - 1)
      modifies this`head, this`tail, nodes, o`next, o`prev, o`below, o`above
      ensures Hung(Without(o, d), mask, nodes) && Listed(Without(o, d))
      ensures head == Nth(Without(o, d), 0) && tail == Nth(Without(o, d), |o| - 2)
    {
      hide Hung, Listed, Distinct, Without, HungWithout, ListedWithout, Nth;
      Unlist(node, o, d);
      Unhang(node, nodes, mask, o, d);
      StillHung(o, d, mask, nodes);
      StillListed(o, d);
    }

    // ---------------------------------------------------------------- looking up and walking

    method Find(num: nat, bytes: seq<Char>) returns (value: Pointer)
      requires Valid()
      ensures var k := KeyOf(num, bytes);
              value == if HasKey(Contents(), k) then Contents()[Place(Contents(), k)].1 else NULL
    {
      hide Hung, Listed, Keyed, Distinct, Sized, HasKey, Unseen, EntriesOf;
      var n := NumKey(num, bytes);
      var node;
      ghost var i;
      node, i := Lookup(n, bytes);
      value := NULL;
      if node != null {
        KeyFound(n, bytes, i);
        value := node.value;
      } else {
        KeyMissing(n, bytes);
      }
    }

    method Count() returns (n: nat)
      requires Valid()
      ensures n == |Contents()|
    {
      n := count;
    }

    /** The cursor stands on the entry at place `i`. */
    ghost predicate CursorAt(i: nat)
      reads this`order, this`curr
    {
      i < |order| && curr == order[i]
    }

    method Head() returns (value: Pointer, key: Option<Key>)
      requires Valid()
      modifies this`curr
      ensures Valid() && if Contents() == [] then curr == old(curr) && value == NULL && key == None
                         else CursorAt(0) && key.Some? && Contents()[0] == (key.value, value)
    {
      hide Hung, Keyed, Distinct, Sized, EntriesOf, Listed;
      value, key := NULL, None;
      if head != null {
        curr := head;
        key := Some(Key(curr.num, curr.bytes));
        value := curr.value;
      }
    }

    method Tail() returns (value: Pointer, key: Option<Key>)
      requires Valid()
      modifies this`curr
      ensures Valid() && if Contents() == [] then curr == old(curr) && value == NULL && key == None
                         else var i := |Contents()| - 1; CursorAt(i) && key.Some? && Contents()[i] == (key.value, value)
    {
      hide Hung, Keyed, Distinct, Sized, EntriesOf, Listed;
      value, key := NULL, None;
      if tail != null {
        curr := tail;
        key := Some(Key(curr.num, curr.bytes));
        value := curr.value;
      }
    }

    /** Steps on; the entry under the cursor must still be there. */
    method Next(ghost i: nat) returns (value: Pointer, key: Option<Key>)
      requires Valid() && (curr == null || CursorAt(i))
      modifies this`curr
      ensures Valid() && if old(curr) != null && i + 1 < |Contents()|
                         then CursorAt(i + 1) && key.Some? && Contents()[i + 1] == (key.value, value)
                         else curr == old(curr) && value == NULL && key == None
    {
      hide Hung, Keyed, Distinct, Sized, EntriesOf;
      value, key := NULL, None;
      if curr != null && curr.next != null {
        curr := curr.next;
        key := Some(Key(curr.num, curr.bytes));
        value := curr.value;
      }
    }

    method Prev(ghost i: nat) returns (value: Pointer, key: Option<Key>)
      requires Valid() && (curr == null || CursorAt(i))
      modifies this`curr
      ensures Valid() && if old(curr) != null && 0 < i
                         then CursorAt(i - 1) && key.Some? && Contents()[i - 1] == (key.value, value)
                         else curr == old(curr) && value == NULL && key == None
    {
      hide Hung, Keyed, Distinct, Sized, EntriesOf;
      value, key := NULL, None;
      if curr != null && curr.prev != null {
        curr := curr.prev;
        key := Some(Key(curr.num, curr.bytes));
        value := curr.value;
      }
    }
  }

  lemma EmptyHung(mask: nat, nodes: array<Node?>)
    requires mask < nodes.Length && forall k | 0 <= k < nodes.Length :: nodes[k] == null
    ensures Hung([], mask, nodes)
  {
  }

  lemma PrefixDistinct(order: seq<Node>, i: nat)
    requires Distinct(order) && i < |order|
    ensures Distinct(order[..i]) && order[i] !in order[..i]
  {
  }
}
