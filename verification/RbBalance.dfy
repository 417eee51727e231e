/** The rebalancing steps of insertion and deletion on shapes: what each step turns a
    context and its subtree into, and that it keeps the colour rules. */
module RbBalance {
  import opened RbShape
  import opened RbLinks

  // ---------------------------------------------------------------- insertion

  /** Everything is in order except that the red node at the hole may have a red parent. */
  ghost predicate Inserting<T>(c: Ctx<T>, t: Tree<T>) {
    Red(t) && NoRedRed(t) && Balanced(t) && CtxFits(c, BlackHeight(t))
  }

  lemma InsertingStart<T>(c: Ctx<T>, n: T)
    requires CtxFits(c, 0)
    ensures Inserting(c, Node(Leaf, n, true, Leaf))
  {
  }

  /** Red parent, red uncle: the three colours flip and the hole moves up two levels. */
  ghost function Flip<T>(c: Ctx<T>, t: Tree<T>): Tree<T>
    requires !c.Top? && !c.up.Top? && c.up.sib.Node?
  {
    var p: Tree<T> := if c.InLeft? then Node(t, c.n, false, c.sib) else Node(c.sib, c.n, false, t);
    var u := c.up.sib.(red := false);
    if c.up.InLeft? then Node(p, c.up.n, true, u) else Node(u, c.up.n, true, p)
  }

  lemma FlipInserting<T>(c: Ctx<T>, t: Tree<T>)
    requires Inserting(c, t) && CtxRed(c) && Red(c.up.sib)
    ensures Inserting(c.up.up, Flip(c, t))
    ensures Inorder(Flip(c, t)) == Inorder(Fill(c.up, Fill(c, t)))
  {
    assert CtxSound(c.up) && CtxBalanced(c.up, BlackHeight(t));
  }

  /** Rotations do not disturb the order. */
  lemma InorderRotation<T>(a: Tree<T>, x: T, xr: bool, b: Tree<T>, y: T, yr: bool, d: Tree<T>, xr': bool, yr': bool)
    ensures Inorder(Node(a, x, xr, Node(b, y, yr, d))) == Inorder(Node(Node(a, x, xr', b), y, yr', d))
  {
    var A, B, D := Inorder(a), Inorder(b), Inorder(d);
    assert Inorder(Node(b, y, yr, d)) == B + [y] + D;
    assert Inorder(Node(a, x, xr', b)) == A + [x] + B;
    assert A + [x] + (B + [y] + D) == (A + [x] + B) + [y] + D;
  }

  /** Black uncle `u` and the red pair in a line on the left: one rotation ends it. */
  lemma SettleLeft<T>(c: Ctx<T>, x: Tree<T>, q: T, d: Tree<T>, g: T, u: Tree<T>)
    requires Red(x) && NoRedRed(x) && NoRedRed(d) && NoRedRed(u) && !Red(d) && !Red(u)
    requires Balanced(x) && Balanced(d) && Balanced(u) && BlackHeight(x) == BlackHeight(d) == BlackHeight(u)
    requires CtxFits(c, BlackHeight(x) + 1)
    ensures Inserting(InLeft(c, q, false, Node(d, g, true, u)), x)
  {
  }

  lemma SettleRight<T>(c: Ctx<T>, x: Tree<T>, q: T, d: Tree<T>, g: T, u: Tree<T>)
    requires Red(x) && NoRedRed(x) && NoRedRed(d) && NoRedRed(u) && !Red(d) && !Red(u)
    requires Balanced(x) && Balanced(d) && Balanced(u) && BlackHeight(x) == BlackHeight(d) == BlackHeight(u)
    requires CtxFits(c, BlackHeight(x) + 1)
    ensures Inserting(InRight(c, q, false, Node(u, g, true, d)), x)
  {
  }

  /** Painting the root of a subtree, or a node in one half of it. */
  lemma PaintRoot<T>(t: Tree<T>, red: bool)
    requires t.Node? && Apart(t)
    ensures Paint(t, t.n, red) == t.(red := red)
  {
    PaintAbsent(t.left, t.n, red);
    PaintAbsent(t.right, t.n, red);
  }

  lemma PaintHalf<T>(t: Tree<T>, n: T, red: bool)
    requires t.Node? && Apart(t)
    ensures n in Nodes(t.left) ==> Paint(t, n, red) == t.(left := Paint(t.left, n, red))
    ensures n in Nodes(t.right) ==> Paint(t, n, red) == t.(right := Paint(t.right, n, red))
  {
    if n in Nodes(t.left) { PaintAbsent(t.right, n, red); }
    if n in Nodes(t.right) { PaintAbsent(t.left, n, red); }
  }

  /** Three assignments carry out the flip. */
  lemma FlipPainted<T>(c: Ctx<T>, t: Tree<T>)
    requires CtxRed(c) && !c.up.Top? && !c.up.red && Red(c.up.sib) && Apart(Fill(c.up, Fill(c, t)))
    ensures Paint(Paint(Paint(Fill(c.up, Fill(c, t)), c.n, false), c.up.sib.n, false), c.up.n, true) == Flip(c, t)
  {
    var inner, u := Fill(c, t), c.up.sib;
    PaintRoot(inner, false);
    PaintRoot(u, false);
    PaintHalf(Fill(c.up, inner), c.n, false);
    PaintKeeps(inner, c.n, false);
    PaintHalf(Fill(c.up, inner.(red := false)), u.n, false);
    PaintKeeps(u, u.n, false);
    var w := if c.up.InLeft? then Node(inner.(red := false), c.up.n, false, u.(red := false))
                             else Node(u.(red := false), c.up.n, false, inner.(red := false));
    PaintRoot(w, true);
  }

  /** A finished or shorter insertion: in order, with the traversal of before. */
  ghost predicate InsertStep<T>(c: Ctx<T>, t: Tree<T>, c': Ctx<T>, t': Tree<T>) {
    Inserting(c', t') && Depth(c') < Depth(c) && Inorder(Plug(c', t')) == Inorder(Plug(c, t))
  }

  lemma FlipStep<T>(c: Ctx<T>, t: Tree<T>)
    requires Inserting(c, t) && CtxRed(c) && Red(c.up.sib)
    ensures InsertStep(c, t, c.up.up, Flip(c, t))
  {
    FlipInserting(c, t);
    SameOrder(c.up.up, Fill(c.up, Fill(c, t)), Flip(c, t));
  }

  lemma LineStepLeft<T>(o: Ctx<T>, g: T, u: Tree<T>, p: T, s: Tree<T>, t: Tree<T>)
    requires Inserting(InLeft(InLeft(o, g, false, u), p, true, s), t) && !Red(u)
    ensures InsertStep(InLeft(InLeft(o, g, false, u), p, true, s), t, InLeft(o, p, false, Node(s, g, true, u)), t)
  {
    assert CtxFits(InLeft(o, g, false, u), BlackHeight(t));
    SettleLeft(o, t, p, s, g, u);
    InorderRotation(t, p, true, s, g, false, u, false, true);
    InorderRotation(t, p, false, s, g, true, u, true, false);
    SameOrder(o, Node(Node(t, p, true, s), g, false, u), Node(t, p, false, Node(s, g, true, u)));
  }

  lemma BendStepLeft<T>(o: Ctx<T>, g: T, u: Tree<T>, p: T, s: Tree<T>, b: Tree<T>, n: T, d: Tree<T>)
    requires Inserting(InRight(InLeft(o, g, false, u), p, true, s), Node(b, n, true, d)) && !Red(u)
    ensures InsertStep(InRight(InLeft(o, g, false, u), p, true, s), Node(b, n, true, d),
                       InLeft(o, n, false, Node(d, g, true, u)), Node(s, p, true, b))
  {
    assert CtxFits(InLeft(o, g, false, u), BlackHeight(b));
    ghost var x := Node(s, p, true, b);
    SettleLeft(o, x, n, d, g, u);
    InorderRotation(s, p, true, b, n, true, d, true, true);
    InorderRotation(x, n, true, d, g, false, u, false, true);
    InorderRotation(x, n, false, d, g, true, u, true, false);
    SameOrder(InLeft(o, g, false, u), Node(s, p, true, Node(b, n, true, d)), Node(x, n, true, d));
    SameOrder(o, Node(Node(x, n, true, d), g, false, u), Node(x, n, false, Node(d, g, true, u)));
  }

  lemma LineStepRight<T>(o: Ctx<T>, g: T, u: Tree<T>, p: T, s: Tree<T>, t: Tree<T>)
    requires Inserting(InRight(InRight(o, g, false, u), p, true, s), t) && !Red(u)
    ensures InsertStep(InRight(InRight(o, g, false, u), p, true, s), t, InRight(o, p, false, Node(u, g, true, s)), t)
  {
    assert CtxFits(InRight(o, g, false, u), BlackHeight(t));
    SettleRight(o, t, p, s, g, u);
    InorderRotation(u, g, false, s, p, true, t, true, false);
    InorderRotation(u, g, true, s, p, false, t, true, false);
    SameOrder(o, Node(u, g, false, Node(s, p, true, t)), Node(Node(u, g, true, s), p, false, t));
  }

  lemma BendStepRight<T>(o: Ctx<T>, g: T, u: Tree<T>, p: T, s: Tree<T>, b: Tree<T>, n: T, d: Tree<T>)
    requires Inserting(InLeft(InRight(o, g, false, u), p, true, s), Node(b, n, true, d)) && !Red(u)
    ensures InsertStep(InLeft(InRight(o, g, false, u), p, true, s), Node(b, n, true, d),
                       InRight(o, n, false, Node(u, g, true, b)), Node(d, p, true, s))
  {
    assert CtxFits(InRight(o, g, false, u), BlackHeight(b));
    ghost var x := Node(d, p, true, s);
    SettleRight(o, x, n, b, g, u);
    InorderRotation(b, n, true, d, p, true, s, true, true);
    InorderRotation(u, g, false, b, n, true, x, true, false);
    InorderRotation(u, g, true, b, n, false, x, true, false);
    SameOrder(InRight(o, g, false, u), Node(Node(b, n, true, d), p, true, s), Node(b, n, true, x));
    SameOrder(o, Node(u, g, false, Node(b, n, true, x)), Node(Node(u, g, true, b), n, false, x));
  }

  /** When no red parent is left, blackening the root completes the insertion. */
  lemma InsertDone<T>(c: Ctx<T>, t: Tree<T>)
    requires Inserting(c, t) && !CtxRed(c)
    ensures var w := Plug(c, t); w.Node? && RedBlack(w.(red := false))
  {
    if c.Top? {
      assert BlackHeight(t.(red := false)) == BlackHeight(t) + 1;
    } else {
      PlugRedBlack(c, t);
      PlugNodes(c, t);
    }
  }
}
