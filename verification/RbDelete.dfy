/** The rebalancing steps of deletion on shapes. */
module RbDelete {
  import opened RbShape
  import opened RbBalance

  ghost function Blacken<T>(t: Tree<T>): Tree<T> { if t.Leaf? then Leaf else t.(red := false) }

  /** Everything is in order except that the subtree in the hole is one black node short;
      its root may be red below or above another red node, for it turns black next. */
  ghost predicate Deleting<T>(c: Ctx<T>, t: Tree<T>) {
    NoRedRed(Blacken(t)) && Balanced(t) && CtxFits(c, BlackHeight(t) + 1)
  }

  /** The loop of the deletion is over. */
  ghost predicate Settled<T>(c: Ctx<T>, t: Tree<T>) { c.Top? || Red(t) }

  /** What one round keeps and what it gains. */
  ghost predicate DeleteStep<T>(c: Ctx<T>, t: Tree<T>, c': Ctx<T>, t': Tree<T>) {
    && Deleting(c', t') && Inorder(Plug(c', t')) == Inorder(Plug(c, t))
    && (Settled(c', t') || Depth(c') < Depth(c))
  }

  lemma BlackenRoot<T>(t: Tree<T>)
    requires Red(t) && NoRedRed(t) && Balanced(t)
    ensures var t' := t.(red := false);
            NoRedRed(t') && Balanced(t') && BlackHeight(t') == BlackHeight(t) + 1 && Inorder(t') == Inorder(t)
  {
  }

  lemma DeleteDone<T>(c: Ctx<T>, t: Tree<T>)
    requires Deleting(c, t) && Settled(c, t)
    ensures RedBlack(Plug(c, Blacken(t)))
    ensures Inorder(Plug(c, Blacken(t))) == Inorder(Plug(c, t))
  {
    if !c.Top? { PlugRedBlack(c, Blacken(t)); }
    SameOrder(c, t, Blacken(t));
  }

  /** The sibling of a short subtree is a node, and its black children are nodes too. */
  lemma SiblingIsNode<T>(c: Ctx<T>, t: Tree<T>)
    requires Deleting(c, t) && !c.Top?
    ensures c.sib.Node? && (c.sib.red ==> c.sib.left.Node? && c.sib.right.Node? && !c.red)
  {
  }

  // ---------------------------------------------------------------- the short subtree is a left child

  lemma RedSiblingLeft<T>(up: Ctx<T>, p: T, pr: bool, a: Tree<T>, w: T, b: Tree<T>, t: Tree<T>)
    requires Deleting(InLeft(up, p, pr, Node(a, w, true, b)), t)
    ensures Deleting(InLeft(InLeft(up, w, false, b), p, true, a), t) && !Red(a) && a.Node?
    ensures Inorder(Plug(InLeft(InLeft(up, w, false, b), p, true, a), t))
            == Inorder(Plug(InLeft(up, p, pr, Node(a, w, true, b)), t))
  {
    assert NoRedRed(Node(a, w, true, b)) && Balanced(Node(a, w, true, b));
    assert CtxFits(InLeft(up, w, false, b), BlackHeight(t) + 1);
    InorderRotation(t, p, pr, a, w, true, b, true, false);
    SameOrder(up, Node(t, p, pr, Node(a, w, true, b)), Node(Node(t, p, true, a), w, false, b));
  }

  lemma BlackNephewsLeft<T>(up: Ctx<T>, p: T, pr: bool, a: Tree<T>, w: T, b: Tree<T>, t: Tree<T>)
    requires Deleting(InLeft(up, p, pr, Node(a, w, false, b)), t) && !Red(t) && !Red(a) && !Red(b)
    ensures var t' := Node(t, p, pr, Node(a, w, true, b));
            Deleting(up, t') && Inorder(Plug(up, t')) == Inorder(Plug(InLeft(up, p, pr, Node(a, w, false, b)), t))
  {
    SameOrder(up, Node(t, p, pr, Node(a, w, false, b)), Node(t, p, pr, Node(a, w, true, b)));
  }

  lemma NearNephewLeft<T>(up: Ctx<T>, p: T, pr: bool, a: Tree<T>, z: T, b: Tree<T>, w: T, d: Tree<T>, t: Tree<T>)
    requires Deleting(InLeft(up, p, pr, Node(Node(a, z, true, b), w, false, d)), t) && !Red(d)
    ensures Deleting(InLeft(up, p, pr, Node(a, z, false, Node(b, w, true, d))), t)
    ensures Inorder(Plug(InLeft(up, p, pr, Node(a, z, false, Node(b, w, true, d))), t))
         == Inorder(Plug(InLeft(up, p, pr, Node(Node(a, z, true, b), w, false, d)), t))
  {
    assert NoRedRed(Node(a, z, true, b)) && Balanced(Node(a, z, true, b));
    assert NoRedRed(Node(b, w, true, d)) && Balanced(Node(b, w, true, d));
    InorderRotation(a, z, false, b, w, true, d, true, false);
    assert Inorder(Node(t, p, pr, Node(a, z, false, Node(b, w, true, d))))
      == Inorder(Node(t, p, pr, Node(Node(a, z, true, b), w, false, d)));
    SameOrder(up, Node(t, p, pr, Node(a, z, false, Node(b, w, true, d))),
      Node(t, p, pr, Node(Node(a, z, true, b), w, false, d)));
  }

  lemma FarNephewLeft<T>(up: Ctx<T>, p: T, pr: bool, a: Tree<T>, w: T, d: Tree<T>, t: Tree<T>)
    requires Deleting(InLeft(up, p, pr, Node(a, w, false, d)), t) && !Red(t) && Red(d)
    ensures var t' := Plug(up, Node(Node(t, p, false, a), w, pr, d.(red := false)));
            Deleting(Top, t') && Inorder(t') == Inorder(Plug(InLeft(up, p, pr, Node(a, w, false, d)), t))
  {
    var d' := d.(red := false);
    assert NoRedRed(Node(a, w, false, d)) && Balanced(Node(a, w, false, d));
    assert NoRedRed(Node(t, p, false, a)) && Balanced(Node(t, p, false, a));
    BlackenRoot(d);
    assert BlackHeight(Node(Node(t, p, false, a), w, pr, d')) == BlackHeight(t) + 1 + Weight(pr);
    PlugRedBlack(up, Node(Node(t, p, false, a), w, pr, d'));
    InorderRotation(t, p, pr, a, w, false, d', false, pr);
    assert Inorder(d) == Inorder(d');
    assert Inorder(Node(a, w, false, d)) == Inorder(Node(a, w, false, d'));
    SameOrder(up, Node(t, p, pr, Node(a, w, false, d)), Node(Node(t, p, false, a), w, pr, d'));
  }

  // ---------------------------------------------------------------- and as a right child

  lemma RedSiblingRight<T>(up: Ctx<T>, p: T, pr: bool, a: Tree<T>, w: T, b: Tree<T>, t: Tree<T>)
    requires Deleting(InRight(up, p, pr, Node(a, w, true, b)), t)
    ensures Deleting(InRight(InRight(up, w, false, a), p, true, b), t) && !Red(b) && b.Node?
    ensures Inorder(Plug(InRight(InRight(up, w, false, a), p, true, b), t))
            == Inorder(Plug(InRight(up, p, pr, Node(a, w, true, b)), t))
  {
    assert NoRedRed(Node(a, w, true, b)) && Balanced(Node(a, w, true, b));
    assert CtxFits(InRight(up, w, false, a), BlackHeight(t) + 1);
    InorderRotation(a, w, false, b, p, true, t, true, pr);
    SameOrder(up, Node(Node(a, w, true, b), p, pr, t), Node(a, w, false, Node(b, p, true, t)));
  }

  lemma BlackNephewsRight<T>(up: Ctx<T>, p: T, pr: bool, a: Tree<T>, w: T, b: Tree<T>, t: Tree<T>)
    requires Deleting(InRight(up, p, pr, Node(a, w, false, b)), t) && !Red(t) && !Red(a) && !Red(b)
    ensures var t' := Node(Node(a, w, true, b), p, pr, t);
            Deleting(up, t') && Inorder(Plug(up, t')) == Inorder(Plug(InRight(up, p, pr, Node(a, w, false, b)), t))
  {
    SameOrder(up, Node(Node(a, w, false, b), p, pr, t), Node(Node(a, w, true, b), p, pr, t));
  }

  lemma NearNephewRight<T>(up: Ctx<T>, p: T, pr: bool, d: Tree<T>, w: T, a: Tree<T>, z: T, b: Tree<T>, t: Tree<T>)
    requires Deleting(InRight(up, p, pr, Node(d, w, false, Node(a, z, true, b))), t) && !Red(d)
    ensures Deleting(InRight(up, p, pr, Node(Node(d, w, true, a), z, false, b)), t)
    ensures Inorder(Plug(InRight(up, p, pr, Node(Node(d, w, true, a), z, false, b)), t))
         == Inorder(Plug(InRight(up, p, pr, Node(d, w, false, Node(a, z, true, b))), t))
  {
    assert NoRedRed(Node(a, z, true, b)) && Balanced(Node(a, z, true, b));
    assert NoRedRed(Node(d, w, true, a)) && Balanced(Node(d, w, true, a));
    InorderRotation(d, w, false, a, z, true, b, true, false);
    assert Inorder(Node(Node(Node(d, w, true, a), z, false, b), p, pr, t))
      == Inorder(Node(Node(d, w, false, Node(a, z, true, b)), p, pr, t));
    SameOrder(up, Node(Node(Node(d, w, true, a), z, false, b), p, pr, t),
      Node(Node(d, w, false, Node(a, z, true, b)), p, pr, t));
  }

  lemma FarNephewRight<T>(up: Ctx<T>, p: T, pr: bool, d: Tree<T>, w: T, a: Tree<T>, t: Tree<T>)
    requires Deleting(InRight(up, p, pr, Node(d, w, false, a)), t) && !Red(t) && Red(d)
    ensures var t' := Plug(up, Node(d.(red := false), w, pr, Node(a, p, false, t)));
            Deleting(Top, t') && Inorder(t') == Inorder(Plug(InRight(up, p, pr, Node(d, w, false, a)), t))
  {
    var d' := d.(red := false);
    assert NoRedRed(Node(d, w, false, a)) && Balanced(Node(d, w, false, a));
    assert NoRedRed(Node(a, p, false, t)) && Balanced(Node(a, p, false, t));
    BlackenRoot(d);
    assert BlackHeight(Node(d', w, pr, Node(a, p, false, t))) == BlackHeight(t) + 1 + Weight(pr);
    PlugRedBlack(up, Node(d', w, pr, Node(a, p, false, t)));
    InorderRotation(d', w, pr, a, p, false, t, false, pr);
    assert Inorder(d) == Inorder(d');
    assert Inorder(Node(d, w, false, a)) == Inorder(Node(d', w, false, a));
    SameOrder(up, Node(Node(d, w, false, a), p, pr, t), Node(d', w, pr, Node(a, p, false, t)));
  }

  // ---------------------------------------------------------------- what taking a node out leaves to repair

  /** A node with at most one child is replaced by it. */
  lemma SpliceOneColors<T>(c: Ctx<T>, l: Tree<T>, n: T, red: bool, r: Tree<T>)
    requires RedBlack(Plug(c, Node(l, n, red, r))) && (l.Leaf? || r.Leaf?)
    ensures var k := if l.Leaf? then r else l;
            && (c.Top? ==> RedBlack(Blacken(k)) && Inorder(Blacken(k)) == Inorder(k))
            && (red ==> RedBlack(Plug(c, k)))
            && (!red ==> Deleting(c, k))
  {
    UnplugRedBlack(c, Node(l, n, red, r));
    var k := if l.Leaf? then r else l;
    if red { PlugRedBlack(c, k); }
  }

  /** The successor takes over place and colour of the node and leaves its own to `k`. */
  lemma SpliceTwoColors<T>(cs: Ctx<T>, d: Ctx<T>, d': Ctx<T>, s: T, sr: bool, k: Tree<T>)
    requires RedBlack(Plug(Nest(cs, d), Node(Leaf, s, sr, k))) && !d.Top? && !d'.Top?
    requires d.red == d'.red && d.sib == d'.sib && d.up == d'.up
    ensures sr ==> RedBlack(Plug(Nest(cs, d'), k))
    ensures !sr ==> Deleting(Nest(cs, d'), k)
  {
    hide RedBlack, CtxFits, Deleting, NoRedRed, Balanced, Nest, Plug;
    UnplugRedBlack(Nest(cs, d), Node(Leaf, s, sr, k));
    NestFits(cs, d, d', Weight(sr));
    HeirColors(Nest(cs, d'), s, sr, k);
  }

  lemma HeirColors<T>(e: Ctx<T>, s: T, sr: bool, k: Tree<T>)
    requires CtxFits(e, Weight(sr)) && NoRedRed(Node(Leaf, s, sr, k)) && Balanced(Node(Leaf, s, sr, k))
    ensures sr ==> RedBlack(Plug(e, k))
    ensures !sr ==> Deleting(e, k)
  {
    if sr { PlugRedBlack(e, k); }
  }
}
