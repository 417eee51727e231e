/** Taking a node out of a tree: links and order.

    A node with at most one child is replaced by that child.  A node with two children is
    replaced by its successor, which leaves its own place to its right subtree. */
module RbSplice {
  import opened RbShape
  import opened RbLinks
  import opened Wrappers

  /** A context that only goes left: the way down to the first node of a subtree. */
  ghost predicate Spine<T>(c: Ctx<T>) { c.Top? || (c.InLeft? && Spine(c.up)) }

  lemma {:induction false} SpineBefore<T>(c: Ctx<T>, outer: Ctx<T>)
    requires Spine(c)
    ensures Before(c) == [] && Before(Nest(c, outer)) == Before(outer)
    ensures After(Nest(c, outer)) == After(c) + After(outer)
  {
    if !c.Top? {
      SpineBefore(c.up, outer);
      assert [c.n] + Inorder(c.sib) + (After(c.up) + After(outer))
        == [c.n] + Inorder(c.sib) + After(c.up) + After(outer);
    } else {
      assert [] + After(outer) == After(outer);
    }
  }

  lemma {:induction false} NestApart<T>(a: Ctx<T>, b: Ctx<T>)
    ensures CtxApart(Nest(a, b)) <==> CtxApart(a) && CtxApart(b) && CtxNodes(a) !! CtxNodes(b)
    ensures CtxNodes(Nest(a, b)) == CtxNodes(a) + CtxNodes(b)
  {
    if !a.Top? { NestApart(a.up, b); }
  }

  lemma {:induction false} NestLinked<T>(m: Memory<T>, a: Ctx<T>, b: Ctx<T>, x: T, y: T, root: T, leaf: T)
    requires !b.Top? && CtxLinked(m, a, x, y, Some(b.n), leaf) && CtxLinked(m, b, y, root, None, leaf)
    ensures CtxLinked(m, Nest(a, b), x, root, None, leaf)
    decreases a
  {
    if !a.Top? { NestLinked(m, a.up, b, a.n, y, root, leaf); }
  }

  lemma {:induction false} UnnestLinked<T>(m: Memory<T>, a: Ctx<T>, b: Ctx<T>, x: T, y: T, root: T, leaf: T)
    requires !b.Top? && CtxLinked(m, Nest(a, b), x, root, None, leaf)
    requires b.n in m && y == if b.InLeft? then m[b.n].left else m[b.n].right
    ensures CtxLinked(m, a, x, y, Some(b.n), leaf) && CtxLinked(m, b, y, root, None, leaf)
    decreases a
  {
    if !a.Top? { UnnestLinked(m, a.up, b, a.n, y, root, leaf); }
  }

  /** The outermost node of a context gets a new parent. */
  lemma {:induction false} Retop<T>(m: Memory<T>, m': Memory<T>, c: Ctx<T>, x: T, y: T, top: T, top': T, leaf: T)
    requires !c.Top? && CtxLinked(m, c, x, y, Some(top), leaf) && CtxApart(c)
    requires SameOn(CtxNodes(c) - {y}, m, m')
    requires y in m && y in m' && m'[y] == m[y].(parent := top')
    ensures CtxLinked(m', c, x, y, Some(top'), leaf)
    decreases c
  {
    RootInside(m, c, x, y, Some(top), leaf);
    RootInside(m, c.up, c.n, y, Some(top), leaf);
    Frame(m, m', c.sib, if c.InLeft? then m[c.n].right else m[c.n].left, Some(c.n), leaf);
    if !c.up.Top? { Retop(m, m', c.up, c.n, y, top, top', leaf); }
  }

  lemma ForgetParent<T>(m: Memory<T>, t: Tree<T>, x: T, p: Option<T>, leaf: T)
    requires Linked(m, t, x, p, leaf)
    ensures Linked(m, t, x, None, leaf)
  {
  }

  // ---------------------------------------------------------------- at most one child

  /** The memory after `node` was replaced by its only child `k`. */
  ghost predicate SplicedOne<T>(m: Memory<T>, m': Memory<T>, root: T, root': T, leaf: T, c: Ctx<T>, node: T,
      k: Tree<T>) {
    && m'.Keys == m.Keys - {node}
    && (if c.Top? then root' == Ptr(k, leaf) && SameOn(m'.Keys, m, m')
        else
          && root' == root && c.n in m && c.n in m' && m'[c.n] == Aim(c, m[c.n], Ptr(k, leaf))
          && (k.Node? ==> k.n in m && k.n in m' && m'[k.n] == m[k.n].(parent := c.n))
          && SameOn(m'.Keys - {c.n, Ptr(k, leaf)}, m, m'))
  }

  lemma SpliceOne<T>(m: Memory<T>, m': Memory<T>, root: T, root': T, leaf: T, c: Ctx<T>, l: Tree<T>, node: T,
      red: bool, r: Tree<T>)
    requires At(m, root, leaf, c, Node(l, node, red, r)) && (l.Leaf? || r.Leaf?)
    requires SplicedOne(m, m', root, root', leaf, c, node, if l.Leaf? then r else l)
    ensures At(m', root', leaf, c, if l.Leaf? then r else l)
  {
    var k := if l.Leaf? then r else l;
    var x := if l.Leaf? then m[node].right else m[node].left;
    LinkedNodes(m, k, x, Some(node), leaf);
    if c.Top? {
      Frame(m, m', k, x, Some(node), leaf);
      ForgetParent(m', k, x, Some(node), leaf);
    } else {
      Reparent(m, m', k, x, Some(node), c.n, leaf);
      Retarget(m, m', c, node, x, root, root, None, leaf);
    }
  }

  lemma DropMiddle<T>(a: seq<T>, n: T, b: seq<T>)
    ensures var w := a + [n] + b; w[|a|] == n && w[..|a|] + w[|a| + 1..] == a + b
  {
    var w := a + [n] + b;
    assert w[..|a|] == a && w[|a| + 1..] == b;
  }

  /** The order loses exactly the node. */
  lemma SpliceOneOrder<T>(c: Ctx<T>, l: Tree<T>, node: T, red: bool, r: Tree<T>)
    requires l.Leaf? || r.Leaf?
    ensures var order := Inorder(Plug(c, Node(l, node, red, r)));
            var i := |Before(c) + Inorder(l)|;
            i < |order| && order[i] == node
            && Inorder(Plug(c, if l.Leaf? then r else l)) == order[..i] + order[i + 1..]
  {
    var k := if l.Leaf? then r else l;
    var p, q := Before(c) + Inorder(l), Inorder(r) + After(c);
    assert Inorder(k) == Inorder(l) + Inorder(r);
    PlugInorder(c, Node(l, node, red, r));
    PlugInorder(c, k);
    hide Plug, Before, After, Inorder;
    Flattened(Before(c), Inorder(l), node, Inorder(r), After(c));
    DropMiddle(p, node, q);
  }

  lemma Flattened<T>(a: seq<T>, l: seq<T>, n: T, r: seq<T>, b: seq<T>)
    ensures a + (l + [n] + r) + b == (a + l) + [n] + (r + b)
    ensures a + (l + r) + b == (a + l) + (r + b)
  {
  }

  // ---------------------------------------------------------------- two children

  /** The memory after the successor `s` took the place of `node`: `y` is the right child
      of `node`, `cs` the way from there down to `s`, `k` the right subtree of `s`. */
  ghost predicate SplicedTwo<T>(m: Memory<T>, m': Memory<T>, root: T, root': T, leaf: T,
                                c: Ctx<T>, l: Tree<T>, node: T, cs: Ctx<T>, s: T, k: Tree<T>)
    requires node in m && (c.Top? || c.n in m) && (cs.Top? || cs.n in m) && m[node].right in m
  {
    var y := m[node].right;
    && m'.Keys == m.Keys - {node} && s in m'
    && m'[s] == Cell(m[node].left, if cs.Top? then Ptr(k, leaf) else y, m[node].parent, m[node].red)
    && (if c.Top? then root' == s else root' == root && c.n in m' && m'[c.n] == Aim(c, m[c.n], s))
    && (l.Node? ==> l.n in m && l.n in m' && m'[l.n] == m[l.n].(parent := s))
    && (k.Node? ==> k.n in m && k.n in m' && m'[k.n] == m[k.n].(parent := if cs.Top? then s else cs.n))
    && (!cs.Top? ==>
          && y in m' && cs.n in m'
          && (y != cs.n ==> m'[y] == m[y].(parent := s) && m'[cs.n] == m[cs.n].(left := Ptr(k, leaf)))
          && (y == cs.n ==> m'[y] == m[y].(parent := s, left := Ptr(k, leaf))))
    && SameOn(m'.Keys - {s, Ptr(l, leaf), Ptr(k, leaf)} - (if c.Top? then {} else {c.n}) - (if cs.Top? then {}
       else {y, cs.n}), m, m')
  }

  /** The parts of a tree around `node` and its successor `s` do not overlap. */
  ghost predicate Pieces<T>(c: Ctx<T>, l: Tree<T>, node: T, cs: Ctx<T>, s: T, k: Tree<T>) {
    && CtxApart(c) && Apart(l) && CtxApart(cs) && Apart(k) && s != node
    && node !in CtxNodes(c) + Nodes(l) + CtxNodes(cs) + Nodes(k)
    && s !in CtxNodes(c) + Nodes(l) + CtxNodes(cs) + Nodes(k)
    && CtxNodes(cs) !! CtxNodes(c) + Nodes(l) + Nodes(k)
    && Nodes(k) !! CtxNodes(c) + Nodes(l)
    && Nodes(l) !! CtxNodes(c)
  }

  lemma SpliceOuter<T>(m: Memory<T>, m': Memory<T>, root: T, root': T, leaf: T,
                       c: Ctx<T>, l: Tree<T>, node: T, red: bool, cs: Ctx<T>, s: T, k: Tree<T>)
    requires Pieces(c, l, node, cs, s, k) && leaf !in m
    requires m.Keys == CtxNodes(cs) + CtxNodes(c) + Nodes(l) + Nodes(k) + {s, node}
    requires (c.Top? || c.n in m)
            && (if cs.Top? then m[node].right == s else m[node].right in CtxNodes(cs) && cs.n in m)
    requires SplicedTwo(m, m', root, root', leaf, c, l, node, cs, s, k)
    requires CtxLinked(m, InRight(c, node, red, l), m[node].right, root, None, leaf)
    ensures CtxLinked(m', InRight(c, s, red, l), m'[s].right, root', None, leaf)
  {
    hide CtxLinked, Apart, CtxApart;
    assert SameOn(CtxNodes(c) - (if c.Top? then {} else {c.n}), m, m');
    assert SameOn(Nodes(l) - {Ptr(l, leaf)}, m, m');
    OuterLinks(m, m', root, root', leaf, c, l, node, red, s);
  }

  /** The node under `c` is replaced by `s`, which takes over its left subtree `l`. */
  lemma OuterLinks<T>(m: Memory<T>, m': Memory<T>, root: T, root': T, leaf: T, c: Ctx<T>, l: Tree<T>, node: T,
      red: bool, s: T)
    requires node in m && s in m' && s != leaf
    requires CtxLinked(m, InRight(c, node, red, l), m[node].right, root, None, leaf) && CtxApart(c) && Apart(l)
    requires m'[s].left == m[node].left && m'[s].parent == m[node].parent && m'[s].red == m[node].red
    requires if c.Top? then root' == s else root' == root && c.n in m && c.n in m' && m'[c.n] == Aim(c, m[c.n], s)
    requires l.Node? ==> l.n in m && l.n in m' && m'[l.n] == m[l.n].(parent := s)
    requires SameOn(CtxNodes(c) - (if c.Top? then {} else {c.n}), m, m') && SameOn(Nodes(l) - {Ptr(l, leaf)}, m, m')
    ensures CtxLinked(m', InRight(c, s, red, l), m'[s].right, root', None, leaf)
  {
    LinkedNodes(m, l, m[node].left, Some(node), leaf);
    Retarget(m, m', c, node, s, root, root', None, leaf);
    Reparent(m, m', l, m[node].left, Some(node), s, leaf);
  }

  lemma SpliceInner<T>(m: Memory<T>, m': Memory<T>, root: T, root': T, leaf: T,
                       c: Ctx<T>, l: Tree<T>, node: T, cs: Ctx<T>, s: T, k: Tree<T>)
    requires Pieces(c, l, node, cs, s, k) && leaf !in m
    requires m.Keys == CtxNodes(cs) + CtxNodes(c) + Nodes(l) + Nodes(k) + {s, node}
    requires (c.Top? || c.n in m) && cs.InLeft? && m[node].right in CtxNodes(cs) && cs.n in m
    requires SplicedTwo(m, m', root, root', leaf, c, l, node, cs, s, k)
    requires CtxLinked(m, cs, s, m[node].right, Some(node), leaf)
    ensures CtxLinked(m', cs, Ptr(k, leaf), m'[s].right, Some(s), leaf)
  {
    hide CtxLinked;
    var y := m[node].right;
    var others := {s, node} + Nodes(k) + Nodes(l) + CtxNodes(c);
    assert others !! CtxNodes(cs) && CtxNodes(cs) <= m'.Keys;
    assert SameOn(CtxNodes(cs) - {y, cs.n}, m, m');
    SpliceSpine(m, m', leaf, cs, s, Ptr(k, leaf), y, node, s);
  }

  /** The way down ends in `x'` instead of `x` and starts below `top'` instead of `top`. */
  lemma SpliceSpine<T>(m: Memory<T>, m': Memory<T>, leaf: T, cs: Ctx<T>, x: T, x': T, y: T, top: T, top': T)
    requires cs.InLeft? && cs.n in m && cs.n in m' && CtxNodes(cs) <= m.Keys
    requires CtxLinked(m, cs, x, y, Some(top), leaf) && CtxApart(cs)
    requires y in m && y in m'
    requires y != cs.n ==> m'[y] == m[y].(parent := top') && m'[cs.n] == m[cs.n].(left := x')
    requires y == cs.n ==> m'[y] == m[y].(parent := top', left := x')
    requires SameOn(CtxNodes(cs) - {y, cs.n}, m, m')
    ensures CtxLinked(m', cs, x', y, Some(top'), leaf)
  {
    var m1 := m[y := m[y].(parent := top')];
    Retop(m, m1, cs, x, y, top, top', leaf);
    Retarget(m1, m', cs, x, x', y, y, Some(top'), leaf);
  }

  lemma PiecesBefore<T>(c: Ctx<T>, l: Tree<T>, node: T, red: bool, cs: Ctx<T>, s: T, sr: bool, k: Tree<T>)
    requires CtxApart(Nest(cs, InRight(c, node, red, l))) && Apart(Node(Leaf, s, sr, k))
    requires CtxNodes(Nest(cs, InRight(c, node, red, l))) !! Nodes(Node(Leaf, s, sr, k))
    ensures Pieces(c, l, node, cs, s, k)
    ensures CtxNodes(Nest(cs, InRight(c, node, red, l))) == CtxNodes(cs) + CtxNodes(c) + {node} + Nodes(l)
  {
    NestApart(cs, InRight(c, node, red, l));
    assert node in CtxNodes(InRight(c, node, red, l)) && s in Nodes(Node(Leaf, s, sr, k));
  }

  lemma PiecesAfter<T>(c: Ctx<T>, l: Tree<T>, node: T, red: bool, cs: Ctx<T>, s: T, k: Tree<T>)
    requires Pieces(c, l, node, cs, s, k)
    ensures var d := Nest(cs, InRight(c, s, red, l));
            CtxApart(d) && CtxNodes(d) !! Nodes(k) && CtxNodes(d) == CtxNodes(cs) + CtxNodes(c) + {s} + Nodes(l)
  {
    NestApart(cs, InRight(c, s, red, l));
  }

  /** The pointers along the way from `d.n` down to its successor. */
  lemma SuccessorPointers<T>(m: Memory<T>, root: T, leaf: T, d: Ctx<T>, cs: Ctx<T>, s: T)
    requires CtxLinked(m, Nest(cs, d), s, root, None, leaf) && d.InRight? && d.n in m
    ensures CtxLinked(m, d, m[d.n].right, root, None, leaf) && (!d.up.Top? ==> d.up.n in m)
    ensures CtxLinked(m, cs, s, m[d.n].right, Some(d.n), leaf)
    ensures if cs.Top? then m[d.n].right == s else m[d.n].right in CtxNodes(cs) && cs.n in m
  {
    UnnestLinked(m, cs, d, s, m[d.n].right, root, leaf);
    RootInside(m, cs, s, m[d.n].right, Some(d.n), leaf);
  }

  /** The pointers the code reads before the successor `s` takes the place of `node`. */
  lemma PointersHere<T>(m: Memory<T>, root: T, leaf: T, c: Ctx<T>, l: Tree<T>, node: T, red: bool, cs: Ctx<T>, s: T)
    requires node in m && CtxLinked(m, InRight(c, node, red, l), m[node].right, root, None, leaf)
    requires CtxLinked(m, cs, s, m[node].right, Some(node), leaf) && Spine(cs)
    requires node !in CtxNodes(c) && node !in Nodes(l) && Nodes(l) !! CtxNodes(c) && CtxApart(c)
    ensures m[node].left == Ptr(l, leaf) && m[node].red == red && (c.Top? <==> node == root)
    ensures !c.Top? ==> c.n in m && m[node].parent == c.n && (m[c.n].left == node <==> c.InLeft?)
    ensures !cs.Top? ==> cs.n in m && m[cs.n].left == s
  {
    LinkedNodes(m, l, m[node].left, Some(node), leaf);
    RootInside(m, c, node, root, None, leaf);
    if c.InRight? { LinkedNodes(m, c.sib, m[c.n].left, Some(c.n), leaf); }
  }

  /** What is known about the tree when the successor `s` of `node` was found. */
  lemma SuccessorPieces<T>(m: Memory<T>, leaf: T, c: Ctx<T>, l: Tree<T>, node: T, red: bool, cs: Ctx<T>, s: T,
      sr: bool, k: Tree<T>, d: Ctx<T>)
    requires d == Nest(cs, InRight(c, node, red, l)) && Covers(m, leaf, d, Node(Leaf, s, sr, k))
    ensures Pieces(c, l, node, cs, s, k) && leaf !in m
    ensures m.Keys == CtxNodes(cs) + CtxNodes(c) + Nodes(l) + Nodes(k) + {s, node}
  {
    PiecesBefore(c, l, node, red, cs, s, sr, k);
    var w := CtxNodes(cs) + CtxNodes(c) + {node} + Nodes(l);
    assert CtxNodes(d) == w;
    assert m.Keys == w + Nodes(Node(Leaf, s, sr, k)) && Nodes(Node(Leaf, s, sr, k)) == {s} + Nodes(k);
  }

  /** The pointers around `node` and its successor, and which of them differ. */
  ghost predicate Successor<T>(m: Memory<T>, root: T, leaf: T, c: Ctx<T>, l: Tree<T>, node: T, red: bool, cs: Ctx<T>,
      s: T, k: Tree<T>) {
    && leaf !in m && node in m && s in m && s != node && l.Node? && l.n in m && l.n !in {node, s}
    && m[node].left == l.n && m[node].red == red
    && (k.Node? ==> k.n in m && k.n !in {node, s, l.n})
    && (c.Top? <==> node == root)
    && (!c.Top? ==>
          c.n in m && c.n !in {node, s, l.n, Ptr(k, leaf)} && m[node].parent == c.n
          && (m[c.n].left == node <==> c.InLeft?))
    && (cs.Top? ==> m[node].right == s && m[s].parent == node)
    && (!cs.Top? ==> cs.n in m && cs.n !in {node, s, l.n, Ptr(k, leaf)} && m[s].parent == cs.n && m[cs.n].left == s
                     && m[node].right in m && m[node].right !in {node, s, l.n, Ptr(k, leaf)})
    && (!cs.Top? && !c.Top? ==> c.n !in {cs.n, m[node].right})
  }

  lemma FindSuccessor<T>(m: Memory<T>, root: T, leaf: T, c: Ctx<T>, l: Tree<T>, node: T, red: bool, cs: Ctx<T>, s: T,
      sr: bool, k: Tree<T>, d: Ctx<T>)
    requires d == Nest(cs, InRight(c, node, red, l)) && Spine(cs) && l.Node?
    requires At(m, root, leaf, d, Node(Leaf, s, sr, k))
    ensures Successor(m, root, leaf, c, l, node, red, cs, s, k)
  {
    SuccessorPieces(m, leaf, c, l, node, red, cs, s, sr, k, d);
    SuccessorPointers(m, root, leaf, InRight(c, node, red, l), cs, s);
    PointersHere(m, root, leaf, c, l, node, red, cs, s);
    HeirLink(m, root, leaf, d, s, sr, k);
    DistinctPieces(m, leaf, c, l, node, cs, s, k);
  }

  lemma HeirLink<T>(m: Memory<T>, root: T, leaf: T, d: Ctx<T>, s: T, sr: bool, k: Tree<T>)
    requires At(m, root, leaf, d, Node(Leaf, s, sr, k)) && !d.Top?
    ensures s in m && m[s].parent == d.n
  {
  }

  lemma DistinctPieces<T>(m: Memory<T>, leaf: T, c: Ctx<T>, l: Tree<T>, node: T, cs: Ctx<T>, s: T, k: Tree<T>)
    requires Pieces(c, l, node, cs, s, k) && leaf !in m && l.Node?
    requires m.Keys == CtxNodes(cs) + CtxNodes(c) + Nodes(l) + Nodes(k) + {s, node}
    ensures s != node && l.n in m && l.n !in {node, s}
    ensures k.Node? ==> k.n in m && k.n !in {node, s, l.n}
    ensures !c.Top? ==> c.n in m && c.n !in {node, s, l.n, Ptr(k, leaf)}
    ensures forall y <- CtxNodes(cs) :: y in m && y !in {node, s, l.n, Ptr(k, leaf)} && (!c.Top? ==> y != c.n)
    ensures !cs.Top? ==> cs.n in CtxNodes(cs)
  {
    assert l.n in Nodes(l) && (k.Node? ==> k.n in Nodes(k)) && (!c.Top? ==> c.n in CtxNodes(c));
  }

  lemma SpliceTwo<T>(m: Memory<T>, m': Memory<T>, root: T, root': T, leaf: T,
                     c: Ctx<T>, l: Tree<T>, node: T, red: bool, cs: Ctx<T>, s: T, sr: bool, k: Tree<T>,
                     d: Ctx<T>, d': Ctx<T>)
    requires d == Nest(cs, InRight(c, node, red, l)) && d' == Nest(cs, InRight(c, s, red, l))
    requires At(m, root, leaf, d, Node(Leaf, s, sr, k)) && Spine(cs)
    requires node in m && (c.Top? || c.n in m) && (cs.Top? || cs.n in m) && m[node].right in m
    requires SplicedTwo(m, m', root, root', leaf, c, l, node, cs, s, k)
    ensures At(m', root', leaf, d', k)
  {
    SuccessorPieces(m, leaf, c, l, node, red, cs, s, sr, k, d);
    SuccessorPointers(m, root, leaf, InRight(c, node, red, l), cs, s);
    SpliceTwoLinks(m, m', root, root', leaf, c, l, node, red, cs, s, k, d');
    SpliceTwoCovers(m, m', leaf, c, l, node, red, cs, s, k, d');
  }

  lemma SpliceTwoCovers<T>(m: Memory<T>, m': Memory<T>, leaf: T, c: Ctx<T>, l: Tree<T>, node: T, red: bool,
      cs: Ctx<T>, s: T, k: Tree<T>, d': Ctx<T>)
    requires Pieces(c, l, node, cs, s, k) && leaf !in m && d' == Nest(cs, InRight(c, s, red, l))
    requires m.Keys == CtxNodes(cs) + CtxNodes(c) + Nodes(l) + Nodes(k) + {s, node}
    requires m'.Keys == m.Keys - {node}
    ensures Covers(m', leaf, d', k)
  {
    PiecesAfter(c, l, node, red, cs, s, k);
  }

  lemma SpliceTwoLinks<T>(m: Memory<T>, m': Memory<T>, root: T, root': T, leaf: T,
                          c: Ctx<T>, l: Tree<T>, node: T, red: bool, cs: Ctx<T>, s: T, k: Tree<T>, d': Ctx<T>)
    requires Pieces(c, l, node, cs, s, k) && leaf !in m && !cs.InRight? && d' == Nest(cs, InRight(c, s, red, l))
    requires m.Keys == CtxNodes(cs) + CtxNodes(c) + Nodes(l) + Nodes(k) + {s, node}
    requires CtxLinked(m, InRight(c, node, red, l), m[node].right, root, None, leaf)
    requires CtxLinked(m, cs, s, m[node].right, Some(node), leaf)
    requires Linked(m, k, m[s].right, Some(s), leaf)
    requires if cs.Top? then m[node].right == s else m[node].right in CtxNodes(cs) && cs.n in m
    requires !c.Top? ==> c.n in m
    requires SplicedTwo(m, m', root, root', leaf, c, l, node, cs, s, k)
    ensures CtxLinked(m', d', Ptr(k, leaf), root', None, leaf) && Linked(m', k, Ptr(k, leaf), Above(d', None), leaf)
  {
    hide Linked, CtxLinked, Pieces, SameOn;
    SpliceOuter(m, m', root, root', leaf, c, l, node, red, cs, s, k);
    SpliceChild(m, m', root, root', leaf, c, l, node, cs, s, k);
    if cs.Top? {
      assert d' == InRight(c, s, red, l);
    } else {
      SpliceInner(m, m', root, root', leaf, c, l, node, cs, s, k);
      NestLinked(m', cs, InRight(c, s, red, l), Ptr(k, leaf), m'[s].right, root', leaf);
      assert d'.n == cs.n;
    }
  }

  lemma SpliceChild<T>(m: Memory<T>, m': Memory<T>, root: T, root': T, leaf: T,
                       c: Ctx<T>, l: Tree<T>, node: T, cs: Ctx<T>, s: T, k: Tree<T>)
    requires Pieces(c, l, node, cs, s, k) && leaf !in m
    requires m.Keys == CtxNodes(cs) + CtxNodes(c) + Nodes(l) + Nodes(k) + {s, node}
    requires (c.Top? || c.n in m)
            && (if cs.Top? then m[node].right == s else m[node].right in CtxNodes(cs) && cs.n in m)
    requires SplicedTwo(m, m', root, root', leaf, c, l, node, cs, s, k)
    requires Linked(m, k, m[s].right, Some(s), leaf)
    ensures Linked(m', k, Ptr(k, leaf), Some(if cs.Top? then s else cs.n), leaf)
  {
    LinkedNodes(m, k, m[s].right, Some(s), leaf);
    Reparent(m, m', k, m[s].right, Some(s), if cs.Top? then s else cs.n, leaf);
  }

  lemma RegroupTwo<T>(a: seq<T>, l: seq<T>, n: T, s: T, k: seq<T>, b: seq<T>)
    ensures a + l + [n] + ([s] + k) + b == a + l + [n] + ([s] + k + b)
    ensures a + l + [s] + k + b == a + l + ([s] + k + b)
  {
  }

  /** The order loses exactly the node, and the successor moves up. */
  lemma SpliceTwoOrder<T>(c: Ctx<T>, l: Tree<T>, node: T, red: bool, cs: Ctx<T>, s: T, sr: bool, k: Tree<T>)
    requires Spine(cs)
    ensures var order := Inorder(Plug(Nest(cs, InRight(c, node, red, l)), Node(Leaf, s, sr, k)));
            var i := |Before(c) + Inorder(l)|;
            i < |order| && order[i] == node
            && Inorder(Plug(Nest(cs, InRight(c, s, red, l)), k)) == order[..i] + order[i + 1..]
  {
    var d, d' := Nest(cs, InRight(c, node, red, l)), Nest(cs, InRight(c, s, red, l));
    PlugInorder(d, Node(Leaf, s, sr, k));
    PlugInorder(d', k);
    SpineBefore(cs, InRight(c, node, red, l));
    SpineBefore(cs, InRight(c, s, red, l));
    assert Inorder(Node(Leaf, s, sr, k)) == [s] + Inorder(k) by { assert [] + [s] == [s]; }
    RegroupTwo(Before(c), Inorder(l), node, s, Inorder(k), After(cs) + After(c));
    DropMiddle(Before(c) + Inorder(l), node, [s] + Inorder(k) + (After(cs) + After(c)));
  }
}
