/** Pointer records and the trees they describe.

    `Memory` is what the fields `left`, `right`, `parent` and `color` of the nodes hold.
    `Linked` and `CtxLinked` read a tree and a context out of a memory; everything here is
    about memories as values, so a change at one node leaves the rest of a tree alone by
    the frame lemmas below. */
module RbLinks {
  import opened RbShape
  import opened Wrappers

  datatype Cell<T> = Cell(left: T, right: T, parent: T, red: bool)

  type Memory<T> = map<T, Cell<T>>

  /** The pointer that stands for a subtree: its root, or the sentinel. */
  ghost function Ptr<T>(t: Tree<T>, leaf: T): T { if t.Leaf? then leaf else t.n }

  /** The node above a hole; `None` when the hole is the whole tree. */
  ghost function Above<T>(c: Ctx<T>, top: Option<T>): Option<T> { if c.Top? then top else Some(c.n) }

  /** All nodes of a tree are different. */
  ghost predicate Apart<T>(t: Tree<T>) {
    match t
    case Leaf => true
    case Node(l, n, _, r) =>
      n !in Nodes(l) && n !in Nodes(r) && Nodes(l) !! Nodes(r) && Apart(l) && Apart(r)
  }

  ghost predicate CtxApart<T>(c: Ctx<T>) {
    c.Top?
    || (c.n !in Nodes(c.sib) && c.n !in CtxNodes(c.up) && Nodes(c.sib) !! CtxNodes(c.up)
        && Apart(c.sib) && CtxApart(c.up))
  }

  /** The nodes of `t` hold the links and colours of `t`, `x` points to it and `p`, if
      any, is the parent of its root.  The parent of a root is not constrained. */
  ghost predicate Linked<T>(m: Memory<T>, t: Tree<T>, x: T, p: Option<T>, leaf: T)
    decreases t
  {
    match t
    case Leaf => x == leaf
    case Node(l, n, red, r) =>
      && x == n && n != leaf && n in m && m[n].red == red
      && (p.Some? ==> m[n].parent == p.value)
      && Linked(m, l, m[n].left, Some(n), leaf)
      && Linked(m, r, m[n].right, Some(n), leaf)
  }

  /** The nodes around the hole hold the links and colours of `c`; the hole is reached by
      the pointer `x` and the whole by the pointer `root`, below the node `top` if any. */
  ghost predicate CtxLinked<T>(m: Memory<T>, c: Ctx<T>, x: T, root: T, top: Option<T>, leaf: T)
    decreases c
  {
    if c.Top? then x == root
    else
      && c.n != leaf && c.n in m && m[c.n].red == c.red
      && (Above(c.up, top).Some? ==> m[c.n].parent == Above(c.up, top).value)
      && (if c.InLeft? then m[c.n].left == x && Linked(m, c.sib, m[c.n].right, Some(c.n), leaf)
                       else m[c.n].right == x && Linked(m, c.sib, m[c.n].left, Some(c.n), leaf))
      && CtxLinked(m, c.up, c.n, root, top, leaf)
  }

  ghost predicate SameOn<T>(s: set<T>, m: Memory<T>, m': Memory<T>) {
    forall n <- s :: n in m ==> n in m' && m'[n] == m[n]
  }

  lemma {:induction false} Frame<T>(m: Memory<T>, m': Memory<T>, t: Tree<T>, x: T, p: Option<T>, leaf: T)
    requires Linked(m, t, x, p, leaf) && SameOn(Nodes(t), m, m')
    ensures Linked(m', t, x, p, leaf)
    decreases t
  {
    match t
    case Leaf =>
    case Node(l, n, red, r) =>
      Frame(m, m', l, m[n].left, Some(n), leaf);
      Frame(m, m', r, m[n].right, Some(n), leaf);
  }

  lemma {:induction false} CtxFrame<T>(m: Memory<T>, m': Memory<T>, c: Ctx<T>, x: T, root: T, top: Option<T>, leaf: T)
    requires CtxLinked(m, c, x, root, top, leaf) && SameOn(CtxNodes(c), m, m')
    ensures CtxLinked(m', c, x, root, top, leaf)
    decreases c
  {
    if !c.Top? {
      Frame(m, m', c.sib, if c.InLeft? then m[c.n].right else m[c.n].left, Some(c.n), leaf);
      CtxFrame(m, m', c.up, c.n, root, top, leaf);
    }
  }

  lemma {:induction false} LinkedNodes<T>(m: Memory<T>, t: Tree<T>, x: T, p: Option<T>, leaf: T)
    requires Linked(m, t, x, p, leaf)
    ensures Nodes(t) <= m.Keys && leaf !in Nodes(t) && x == Ptr(t, leaf)
    decreases t
  {
    match t
    case Leaf =>
    case Node(l, n, red, r) =>
      LinkedNodes(m, l, m[n].left, Some(n), leaf);
      LinkedNodes(m, r, m[n].right, Some(n), leaf);
  }

  lemma {:induction false} RootInside<T>(m: Memory<T>, c: Ctx<T>, x: T, root: T, top: Option<T>, leaf: T)
    requires CtxLinked(m, c, x, root, top, leaf)
    ensures if c.Top? then x == root else root in CtxNodes(c)
    decreases c
  {
    if !c.Top? { RootInside(m, c.up, c.n, root, top, leaf); }
  }

  /** The nodes of `t` and of its context are the keys of the memory, each once. */
  ghost predicate Covers<T>(m: Memory<T>, leaf: T, c: Ctx<T>, t: Tree<T>) {
    && CtxApart(c) && Apart(t) && CtxNodes(c) !! Nodes(t)
    && m.Keys == CtxNodes(c) + Nodes(t) && leaf !in m
  }

  /** The whole structure, looked at from a hole: `t` sits in the context `c`. */
  ghost predicate At<T>(m: Memory<T>, root: T, leaf: T, c: Ctx<T>, t: Tree<T>) {
    && Covers(m, leaf, c, t)
    && CtxLinked(m, c, Ptr(t, leaf), root, None, leaf)
    && Linked(m, t, Ptr(t, leaf), Above(c, None), leaf)
  }

  /** The root of a subtree gets a new parent. */
  lemma {:induction false} Reparent<T>(m: Memory<T>, m': Memory<T>, t: Tree<T>, x: T, p: Option<T>, p': T, leaf: T)
    requires Linked(m, t, x, p, leaf) && Apart(t)
    requires SameOn(Nodes(t) - {x}, m, m')
    requires t.Node? ==> x in m && x in m' && m'[x] == m[x].(parent := p')
    ensures Linked(m', t, x, Some(p'), leaf)
  {
    if t.Node? {
      Frame(m, m', t.left, m[x].left, Some(x), leaf);
      Frame(m, m', t.right, m[x].right, Some(x), leaf);
    }
  }

  /** The child pointer that leads into the hole. */
  ghost function Aim<T>(c: Ctx<T>, cell: Cell<T>, x: T): Cell<T>
    requires !c.Top?
  {
    if c.InLeft? then cell.(left := x) else cell.(right := x)
  }

  /** The pointer into the hole changes: a child pointer of the node above it, or `root`. */
  lemma {:induction false} Retarget<T>(m: Memory<T>, m': Memory<T>, c: Ctx<T>, x: T, x': T, root: T, root': T,
      top: Option<T>, leaf: T)
    requires CtxLinked(m, c, x, root, top, leaf) && CtxApart(c)
    requires if c.Top? then root' == x' else root' == root && c.n in m && c.n in m' && m'[c.n] == Aim(c, m[c.n], x')
    requires c.Top? || SameOn(CtxNodes(c) - {c.n}, m, m')
    ensures CtxLinked(m', c, x', root', top, leaf)
  {
    if !c.Top? {
      Frame(m, m', c.sib, if c.InLeft? then m[c.n].right else m[c.n].left, Some(c.n), leaf);
      CtxFrame(m, m', c.up, c.n, root, top, leaf);
    }
  }

  /** A node `x` can be rotated below its child `y` on the given side. */
  ghost predicate CanRotate<T>(m: Memory<T>, root: T, leaf: T, x: T, left: bool) {
    && leaf !in m && x in m
    && var y := if left then m[x].right else m[x].left;
    && y in m && y != x
    && var b := if left then m[y].left else m[y].right;
    && (b == leaf || b in m) && b != x && b != y
    && (x != root ==> var q := m[x].parent; q in m && q != x && q != y && q != b)
  }

  /** What a rotation at `x` to the left leaves behind. */
  ghost predicate IsLeftRotation<T>(m: Memory<T>, m': Memory<T>, root: T, root': T, leaf: T, x: T)
    requires CanRotate(m, root, leaf, x, true)
  {
    var y := m[x].right;
    var q := m[x].parent;
    && m'.Keys == m.Keys && root' == (if x == root then y else root)
    && (forall n <- m :: m'[n].left ==
          if n == y then x else if x != root && n == q && m[q].left == x then y else m[n].left)
    && (forall n <- m :: m'[n].right ==
          if n == x then m[y].left else if x != root && n == q && m[q].left != x then y else m[n].right)
    && (forall n <- m :: m'[n].parent ==
          if n == x then y else if n == y then q else if n == m[y].left then x else m[n].parent)
    && (forall n <- m :: m'[n].red == m[n].red)
  }

  /** What a rotation at `x` to the right leaves behind. */
  ghost predicate IsRightRotation<T>(m: Memory<T>, m': Memory<T>, root: T, root': T, leaf: T, x: T)
    requires CanRotate(m, root, leaf, x, false)
  {
    var y := m[x].left;
    var q := m[x].parent;
    && m'.Keys == m.Keys && root' == (if x == root then y else root)
    && (forall n <- m :: m'[n].right ==
          if n == y then x else if x != root && n == q && m[q].right == x then y else m[n].right)
    && (forall n <- m :: m'[n].left ==
          if n == x then m[y].right else if x != root && n == q && m[q].right != x then y else m[n].left)
    && (forall n <- m :: m'[n].parent ==
          if n == x then y else if n == y then q else if n == m[y].right then x else m[n].parent)
    && (forall n <- m :: m'[n].red == m[n].red)
  }

  lemma RotateShape<T>(m: Memory<T>, leaf: T, c: Ctx<T>, a: Tree<T>, x: T, xr: bool, b: Tree<T>, y: T, yr: bool,
      d: Tree<T>)
    ensures Covers(m, leaf, c, Node(a, x, xr, Node(b, y, yr, d))) <==>
            Covers(m, leaf, c, Node(Node(a, x, xr, b), y, yr, d))
  {
    var r, l := Node(b, y, yr, d), Node(a, x, xr, b);
    assert Nodes(Node(a, x, xr, r)) == Nodes(Node(l, y, yr, d));
    assert Apart(r) <==> y !in Nodes(b) && y !in Nodes(d) && Nodes(b) !! Nodes(d) && Apart(b) && Apart(d);
    assert Apart(l) <==> x !in Nodes(a) && x !in Nodes(b) && Nodes(a) !! Nodes(b) && Apart(a) && Apart(b);
  }

  /** What the code relies on when it rotates. */
  lemma CanRotateLeft<T>(m: Memory<T>, root: T, leaf: T,
                         c: Ctx<T>, a: Tree<T>, x: T, xr: bool, b: Tree<T>, y: T, yr: bool, d: Tree<T>)
    requires At(m, root, leaf, c, Node(a, x, xr, Node(b, y, yr, d)))
    ensures CanRotate(m, root, leaf, x, true) && m[x].right == y && m[y].left == Ptr(b, leaf) && (b.Node? ==> b.n in m)
    ensures c.Top? <==> x == root
    ensures !c.Top? ==> m[x].parent == c.n && (m[c.n].left == x <==> c.InLeft?) && (m[c.n].right == x <==> c.InRight?)
  {
    assert Linked(m, Node(b, y, yr, d), m[x].right, Some(x), leaf);
    assert Apart(Node(b, y, yr, d));
    LinkedNodes(m, b, m[y].left, Some(y), leaf);
    RootInside(m, c, x, root, None, leaf);
    if !c.Top? {
      LinkedNodes(m, c.sib, if c.InLeft? then m[c.n].right else m[c.n].left, Some(c.n), leaf);
    }
  }

  lemma CanRotateRight<T>(m: Memory<T>, root: T, leaf: T,
                          c: Ctx<T>, a: Tree<T>, y: T, yr: bool, b: Tree<T>, x: T, xr: bool, d: Tree<T>)
    requires At(m, root, leaf, c, Node(Node(a, y, yr, b), x, xr, d))
    ensures CanRotate(m, root, leaf, x, false) && m[x].left == y && m[y].right == Ptr(b, leaf) && (b.Node? ==> b.n in m)
    ensures c.Top? <==> x == root
    ensures !c.Top? ==> m[x].parent == c.n && (m[c.n].left == x <==> c.InLeft?) && (m[c.n].right == x <==> c.InRight?)
  {
    assert Linked(m, Node(a, y, yr, b), m[x].left, Some(x), leaf);
    assert Apart(Node(a, y, yr, b));
    LinkedNodes(m, b, m[y].right, Some(y), leaf);
    RootInside(m, c, x, root, None, leaf);
    if !c.Top? {
      LinkedNodes(m, c.sib, if c.InLeft? then m[c.n].right else m[c.n].left, Some(c.n), leaf);
    }
  }

  lemma RotateLeft<T>(m: Memory<T>, m': Memory<T>, root: T, root': T, leaf: T,
                      c: Ctx<T>, a: Tree<T>, x: T, xr: bool, b: Tree<T>, y: T, yr: bool, d: Tree<T>)
    requires At(m, root, leaf, c, Node(a, x, xr, Node(b, y, yr, d)))
    requires CanRotate(m, root, leaf, x, true) && IsLeftRotation(m, m', root, root', leaf, x)
    ensures At(m', root', leaf, c, Node(Node(a, x, xr, b), y, yr, d))
  {
    CanRotateLeft(m, root, leaf, c, a, x, xr, b, y, yr, d);
    RotateLeftAt(m, m', root, root', leaf, c, a, x, xr, b, y, yr, d);
  }

  lemma RotateLeftAt<T>(m: Memory<T>, m': Memory<T>, root: T, root': T, leaf: T,
                        c: Ctx<T>, a: Tree<T>, x: T, xr: bool, b: Tree<T>, y: T, yr: bool, d: Tree<T>)
    requires At(m, root, leaf, c, Node(a, x, xr, Node(b, y, yr, d)))
    requires x in m && y in m && m'.Keys == m.Keys && (c.Top? || c.n in m)
    requires m'[x] == m[x].(right := Ptr(b, leaf), parent := y)
    requires m'[y] == m[y].(left := x, parent := m[x].parent)
    requires b.Node? ==> b.n in m && m'[b.n] == m[b.n].(parent := x)
    requires if c.Top? then root' == y else root' == root && m'[c.n] == Aim(c, m[c.n], y)
    requires SameOn(m.Keys - {x, y, Ptr(b, leaf)} - (if c.Top? then {} else {c.n}), m, m')
    ensures At(m', root', leaf, c, Node(Node(a, x, xr, b), y, yr, d))
  {
    assert Linked(m, Node(b, y, yr, d), m[x].right, Some(x), leaf);
    assert Apart(Node(b, y, yr, d));
    LinkedNodes(m, b, m[y].left, Some(y), leaf);
    Frame(m, m', a, m[x].left, Some(x), leaf);
    Frame(m, m', d, m[y].right, Some(y), leaf);
    Reparent(m, m', b, m[y].left, Some(y), x, leaf);
    Retarget(m, m', c, x, y, root, root', None, leaf);
    assert Linked(m', Node(a, x, xr, b), x, Some(y), leaf);
    RotateShape(m', leaf, c, a, x, xr, b, y, yr, d);
  }

  lemma RotateRight<T>(m: Memory<T>, m': Memory<T>, root: T, root': T, leaf: T,
                       c: Ctx<T>, a: Tree<T>, y: T, yr: bool, b: Tree<T>, x: T, xr: bool, d: Tree<T>)
    requires At(m, root, leaf, c, Node(Node(a, y, yr, b), x, xr, d))
    requires CanRotate(m, root, leaf, x, false) && IsRightRotation(m, m', root, root', leaf, x)
    ensures At(m', root', leaf, c, Node(a, y, yr, Node(b, x, xr, d)))
  {
    CanRotateRight(m, root, leaf, c, a, y, yr, b, x, xr, d);
    RotateRightAt(m, m', root, root', leaf, c, a, y, yr, b, x, xr, d);
  }

  lemma RotateRightAt<T>(m: Memory<T>, m': Memory<T>, root: T, root': T, leaf: T,
                         c: Ctx<T>, a: Tree<T>, y: T, yr: bool, b: Tree<T>, x: T, xr: bool, d: Tree<T>)
    requires At(m, root, leaf, c, Node(Node(a, y, yr, b), x, xr, d))
    requires x in m && y in m && m'.Keys == m.Keys && (c.Top? || c.n in m)
    requires m'[x] == m[x].(left := Ptr(b, leaf), parent := y)
    requires m'[y] == m[y].(right := x, parent := m[x].parent)
    requires b.Node? ==> b.n in m && m'[b.n] == m[b.n].(parent := x)
    requires if c.Top? then root' == y else root' == root && m'[c.n] == Aim(c, m[c.n], y)
    requires SameOn(m.Keys - {x, y, Ptr(b, leaf)} - (if c.Top? then {} else {c.n}), m, m')
    ensures At(m', root', leaf, c, Node(a, y, yr, Node(b, x, xr, d)))
  {
    assert Linked(m, Node(a, y, yr, b), m[x].left, Some(x), leaf);
    assert Apart(Node(a, y, yr, b));
    LinkedNodes(m, b, m[y].right, Some(y), leaf);
    Frame(m, m', a, m[y].left, Some(y), leaf);
    Frame(m, m', d, m[x].right, Some(x), leaf);
    Reparent(m, m', b, m[y].right, Some(y), x, leaf);
    Retarget(m, m', c, x, y, root, root', None, leaf);
    assert Linked(m', Node(b, x, xr, d), x, Some(y), leaf);
    RotateShape(m', leaf, c, a, y, yr, b, x, xr, d);
  }

  // ---------------------------------------------------------------- moving the hole, painting

  lemma Up<T>(m: Memory<T>, root: T, leaf: T, c: Ctx<T>, t: Tree<T>)
    requires !c.Top? && At(m, root, leaf, c, t)
    ensures At(m, root, leaf, c.up, Fill(c, t))
  {
  }

  lemma Down<T>(m: Memory<T>, root: T, leaf: T, c: Ctx<T>, t: Tree<T>)
    requires t.Node? && At(m, root, leaf, c, t)
    ensures At(m, root, leaf, InLeft(c, t.n, t.red, t.right), t.left)
    ensures At(m, root, leaf, InRight(c, t.n, t.red, t.left), t.right)
  {
    LinkedNodes(m, t.left, m[t.n].left, Some(t.n), leaf);
    LinkedNodes(m, t.right, m[t.n].right, Some(t.n), leaf);
  }

  /** The colour of the node `n` changes. */
  ghost function Paint<T>(t: Tree<T>, n: T, red: bool): Tree<T> {
    match t
    case Leaf => Leaf
    case Node(l, x, r, d) => Node(Paint(l, n, red), x, if x == n then red else r, Paint(d, n, red))
  }

  lemma {:induction false} PaintAbsent<T>(t: Tree<T>, n: T, red: bool)
    requires n !in Nodes(t)
    ensures Paint(t, n, red) == t
  {
    match t
    case Leaf =>
    case Node(l, x, r, d) => PaintAbsent(l, n, red); PaintAbsent(d, n, red);
  }

  lemma {:induction false} PaintKeeps<T>(t: Tree<T>, n: T, red: bool)
    ensures Nodes(Paint(t, n, red)) == Nodes(t)
    ensures Apart(t) ==> Apart(Paint(t, n, red))
  {
    match t
    case Leaf =>
    case Node(l, x, r, d) => PaintKeeps(l, n, red); PaintKeeps(d, n, red);
  }

  lemma {:induction false} PaintLinked<T>(m: Memory<T>, m': Memory<T>, t: Tree<T>, x: T, p: Option<T>, leaf: T, n: T,
      red: bool)
    requires Linked(m, t, x, p, leaf) && n in m && m' == m[n := m[n].(red := red)]
    ensures Linked(m', Paint(t, n, red), x, p, leaf)
    decreases t
  {
    match t
    case Leaf =>
    case Node(l, y, r, d) =>
      PaintLinked(m, m', l, m[y].left, Some(y), leaf, n, red);
      PaintLinked(m, m', d, m[y].right, Some(y), leaf, n, red);
  }

  lemma PaintAt<T>(m: Memory<T>, m': Memory<T>, root: T, leaf: T, c: Ctx<T>, t: Tree<T>, n: T, red: bool)
    requires At(m, root, leaf, c, t) && n in Nodes(t) && n in m && m' == m[n := m[n].(red := red)]
    ensures At(m', root, leaf, c, Paint(t, n, red))
  {
    PaintKeeps(t, n, red);
    PaintLinked(m, m', t, Ptr(t, leaf), Above(c, None), leaf, n, red);
    CtxFrame(m, m', c, Ptr(t, leaf), root, None, leaf);
  }

  // ---------------------------------------------------------------- what the code sees around the hole

  lemma Around<T>(m: Memory<T>, root: T, leaf: T, c: Ctx<T>, t: Tree<T>)
    requires At(m, root, leaf, c, t) && !c.Top?
    ensures c.n in m && c.n != leaf && m[c.n].red == c.red
    ensures t.Node? ==> t.n in m && m[t.n].parent == c.n && m[t.n].red == t.red
    ensures c.sib.Node? ==> c.sib.n in m && m[c.sib.n].parent == c.n && m[c.sib.n].red == c.sib.red
    ensures c.InLeft? ==> m[c.n].left == Ptr(t, leaf) && m[c.n].right == Ptr(c.sib, leaf)
    ensures c.InRight? ==> m[c.n].right == Ptr(t, leaf) && m[c.n].left == Ptr(c.sib, leaf)
    ensures t.Node? || c.sib.Node? ==> Ptr(t, leaf) != Ptr(c.sib, leaf)
    ensures !c.up.Top? ==> m[c.n].parent == c.up.n
  {
    LinkedNodes(m, c.sib, if c.InLeft? then m[c.n].right else m[c.n].left, Some(c.n), leaf);
  }

  lemma AtRoot<T>(m: Memory<T>, root: T, leaf: T, c: Ctx<T>, t: Tree<T>)
    requires At(m, root, leaf, c, t)
    ensures c.Top? <==> Ptr(t, leaf) == root
    ensures t.Node? ==> t.n in m && m[t.n].red == t.red && t.n != leaf
    ensures t.Node? ==> m[t.n].left == Ptr(t.left, leaf) && m[t.n].right == Ptr(t.right, leaf)
  {
    RootInside(m, c, Ptr(t, leaf), root, None, leaf);
    if t.Node? {
      LinkedNodes(m, t.left, m[t.n].left, Some(t.n), leaf);
      LinkedNodes(m, t.right, m[t.n].right, Some(t.n), leaf);
    }
  }

  lemma {:induction false} UpAll<T>(m: Memory<T>, root: T, leaf: T, c: Ctx<T>, t: Tree<T>)
    requires At(m, root, leaf, c, t)
    ensures At(m, root, leaf, Top, Plug(c, t))
    decreases c
  {
    if !c.Top? {
      Up(m, root, leaf, c, t);
      UpAll(m, root, leaf, c.up, Fill(c, t));
    }
  }

  // ---------------------------------------------------------------- a new node in an empty hole

  ghost predicate Attached<T>(m: Memory<T>, m': Memory<T>, leaf: T, c: Ctx<T>, n: T)
    requires !c.Top? && c.n in m
  {
    m' == m[c.n := Aim(c, m[c.n], n)][n := Cell(leaf, leaf, c.n, true)]
  }

  lemma AttachAt<T>(m: Memory<T>, m': Memory<T>, root: T, leaf: T, c: Ctx<T>, n: T)
    requires At(m, root, leaf, c, Leaf) && !c.Top? && c.n in m && n !in m && n != leaf
    requires Attached(m, m', leaf, c, n)
    ensures At(m', root, leaf, c, Node(Leaf, n, true, Leaf))
  {
    Retarget(m, m', c, leaf, n, root, root, None, leaf);
  }

  lemma FirstAt<T>(m: Memory<T>, leaf: T, n: T, red: bool)
    requires m.Keys == {n} && n != leaf && m[n].left == leaf && m[n].right == leaf && m[n].red == red
    ensures At(m, n, leaf, Top, Node(Leaf, n, red, Leaf))
  {
    assert Linked(m, Leaf, m[n].left, Some(n), leaf) && Linked(m, Leaf, m[n].right, Some(n), leaf);
  }
}
