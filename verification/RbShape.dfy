/** Shapes of binary search trees and of the context around a subtree, without a heap.

    A `Ctx` is the path from a hole up to the root, innermost frame first: what the
    `parent` pointers of a node lead to.  `Plug` puts a subtree into the hole. */
module RbShape {
  import opened Wrappers

  datatype Tree<T> =
    | Leaf
    | Node(left: Tree<T>, n: T, red: bool, right: Tree<T>)

  datatype Ctx<T> =
    | Top
    | InLeft(up: Ctx<T>, n: T, red: bool, sib: Tree<T>)
    | InRight(up: Ctx<T>, n: T, red: bool, sib: Tree<T>)

  ghost function Plug<T>(c: Ctx<T>, t: Tree<T>): Tree<T>
    decreases c
  {
    match c
    case Top => t
    case InLeft(up, n, red, sib) => Plug(up, Node(t, n, red, sib))
    case InRight(up, n, red, sib) => Plug(up, Node(sib, n, red, t))
  }

  /** The parent of the hole with `t` below it. */
  ghost function Fill<T>(c: Ctx<T>, t: Tree<T>): Tree<T>
    requires !c.Top?
  {
    if c.InLeft? then Node(t, c.n, c.red, c.sib) else Node(c.sib, c.n, c.red, t)
  }

  /** The number of levels between the hole and the root. */
  ghost function Depth<T>(c: Ctx<T>): nat { if c.Top? then 0 else 1 + Depth(c.up) }

  /** The context `inner` placed in the hole of `outer`. */
  ghost function Nest<T>(inner: Ctx<T>, outer: Ctx<T>): Ctx<T> {
    match inner
    case Top => outer
    case InLeft(up, n, red, sib) => InLeft(Nest(up, outer), n, red, sib)
    case InRight(up, n, red, sib) => InRight(Nest(up, outer), n, red, sib)
  }

  ghost function Inorder<T>(t: Tree<T>): seq<T> {
    match t
    case Leaf => []
    case Node(l, n, _, r) => Inorder(l) + [n] + Inorder(r)
  }

  /** What the in-order traversal of a whole tree visits before and after the hole. */
  ghost function Before<T>(c: Ctx<T>): seq<T> {
    match c
    case Top => []
    case InLeft(up, _, _, _) => Before(up)
    case InRight(up, n, _, sib) => Before(up) + Inorder(sib) + [n]
  }

  ghost function After<T>(c: Ctx<T>): seq<T> {
    match c
    case Top => []
    case InLeft(up, n, _, sib) => [n] + Inorder(sib) + After(up)
    case InRight(up, _, _, _) => After(up)
  }

  ghost function Nodes<T>(t: Tree<T>): set<T> {
    match t
    case Leaf => {}
    case Node(l, n, _, r) => Nodes(l) + {n} + Nodes(r)
  }

  ghost function CtxNodes<T>(c: Ctx<T>): set<T> {
    match c
    case Top => {}
    case InLeft(up, n, _, sib) => CtxNodes(up) + {n} + Nodes(sib)
    case InRight(up, n, _, sib) => CtxNodes(up) + {n} + Nodes(sib)
  }

  ghost function Size<T>(t: Tree<T>): nat {
    match t
    case Leaf => 0
    case Node(l, _, _, r) => Size(l) + 1 + Size(r)
  }

  /** The number of nodes on the longest path from the root to a leaf. */
  ghost function Height<T>(t: Tree<T>): nat {
    match t
    case Leaf => 0
    case Node(l, _, _, r) => 1 + if Height(l) < Height(r) then Height(r) else Height(l)
  }

  lemma Regroup<T>(a: seq<T>, b: seq<T>, c: seq<T>, d: seq<T>, e: seq<T>)
    ensures a + (b + c + d) + e == (a + b + c) + d + e
    ensures a + (b + c + d) + e == a + b + (c + d + e)
  {
  }

  lemma {:induction false} PlugInorder<T>(c: Ctx<T>, t: Tree<T>)
    ensures Inorder(Plug(c, t)) == Before(c) + Inorder(t) + After(c)
    decreases c
  {
    match c
    case Top => assert [] + Inorder(t) + [] == Inorder(t);
    case InLeft(up, n, red, sib) =>
      PlugInorder(up, Node(t, n, red, sib));
      Regroup(Before(up), Inorder(t), [n], Inorder(sib), After(up));
    case InRight(up, n, red, sib) =>
      PlugInorder(up, Node(sib, n, red, t));
      Regroup(Before(up), Inorder(sib), [n], Inorder(t), After(up));
  }

  lemma SameOrder<T>(c: Ctx<T>, t: Tree<T>, t': Tree<T>)
    requires Inorder(t) == Inorder(t')
    ensures Inorder(Plug(c, t)) == Inorder(Plug(c, t'))
  {
    PlugInorder(c, t);
    PlugInorder(c, t');
  }

  lemma {:induction false} PlugNodes<T>(c: Ctx<T>, t: Tree<T>)
    ensures Nodes(Plug(c, t)) == CtxNodes(c) + Nodes(t)
    decreases c
  {
    match c
    case Top =>
    case InLeft(up, n, red, sib) => PlugNodes(up, Node(t, n, red, sib));
    case InRight(up, n, red, sib) => PlugNodes(up, Node(sib, n, red, t));
  }

  lemma {:induction false} InorderNodes<T>(t: Tree<T>)
    ensures |Inorder(t)| == Size(t)
    ensures forall x :: x in Inorder(t) <==> x in Nodes(t)
  {
    match t
    case Leaf =>
    case Node(l, n, _, r) => InorderNodes(l); InorderNodes(r);
  }

  // ---------------------------------------------------------------- colours

  ghost predicate Red<T>(t: Tree<T>) { t.Node? && t.red }

  ghost predicate CtxRed<T>(c: Ctx<T>) { c != Top && c.red }

  ghost function Weight(red: bool): nat { if red then 0 else 1 }

  ghost function BlackHeight<T>(t: Tree<T>): nat {
    match t
    case Leaf => 0
    case Node(l, _, red, _) => BlackHeight(l) + Weight(red)
  }

  /** Every path from the root to a leaf meets the same number of black nodes. */
  ghost predicate Balanced<T>(t: Tree<T>) {
    match t
    case Leaf => true
    case Node(l, _, _, r) => BlackHeight(l) == BlackHeight(r) && Balanced(l) && Balanced(r)
  }

  ghost predicate NoRedRed<T>(t: Tree<T>) {
    match t
    case Leaf => true
    case Node(l, _, red, r) => (red ==> !Red(l) && !Red(r)) && NoRedRed(l) && NoRedRed(r)
  }

  ghost predicate RedBlack<T>(t: Tree<T>) { !Red(t) && NoRedRed(t) && Balanced(t) }

  /** The whole is balanced once a balanced tree of black height `h` fills the hole. */
  ghost predicate CtxBalanced<T>(c: Ctx<T>, h: nat) {
    c == Top
    || (Balanced(c.sib) && BlackHeight(c.sib) == h && CtxBalanced(c.up, h + Weight(c.red)))
  }

  /** No red node of the context has a red parent or a red child away from the hole, and
      the root is black. */
  ghost predicate CtxSound<T>(c: Ctx<T>) {
    c == Top
    || (NoRedRed(c.sib) && (c.red ==> c.up != Top && !c.up.red && !Red(c.sib)) && CtxSound(c.up))
  }

  /** A context that is in order around a hole of black height `h`. */
  ghost predicate CtxFits<T>(c: Ctx<T>, h: nat) { CtxBalanced(c, h) && CtxSound(c) }

  lemma {:induction false} PlugRedBlack<T>(c: Ctx<T>, t: Tree<T>)
    requires CtxFits(c, BlackHeight(t)) && NoRedRed(t) && Balanced(t)
    requires Red(t) ==> c != Top && !CtxRed(c)
    ensures RedBlack(Plug(c, t))
    decreases c
  {
    match c
    case Top =>
    case InLeft(up, n, red, sib) => PlugRedBlack(up, Node(t, n, red, sib));
    case InRight(up, n, red, sib) => PlugRedBlack(up, Node(sib, n, red, t));
  }

  lemma {:induction false} UnplugRedBlack<T>(c: Ctx<T>, t: Tree<T>)
    requires RedBlack(Plug(c, t))
    ensures CtxFits(c, BlackHeight(t)) && NoRedRed(t) && Balanced(t)
    ensures Red(t) ==> c != Top && !CtxRed(c)
    decreases c
  {
    match c
    case Top =>
    case InLeft(up, n, red, sib) => UnplugRedBlack(up, Node(t, n, red, sib));
    case InRight(up, n, red, sib) => UnplugRedBlack(up, Node(sib, n, red, t));
  }

  /** Recolouring and renaming the frames of a context: the colours and siblings decide
      whether it fits. */
  lemma {:induction false} NestFits<T>(inner: Ctx<T>, outer: Ctx<T>, outer': Ctx<T>, h: nat)
    requires CtxFits(Nest(inner, outer), h)
    requires outer != Top && outer' != Top
    requires outer.red == outer'.red && outer.sib == outer'.sib && outer.up == outer'.up
    ensures CtxFits(Nest(inner, outer'), h)
    decreases inner
  {
    match inner
    case Top =>
    case InLeft(up, n, red, sib) => NestFits(up, outer, outer', h + Weight(red));
    case InRight(up, n, red, sib) => NestFits(up, outer, outer', h + Weight(red));
  }

  // ---------------------------------------------------------------- height

  lemma {:induction false} BlackHeightBounds<T>(t: Tree<T>)
    requires Balanced(t) && NoRedRed(t)
    ensures Pow2(BlackHeight(t)) <= Size(t) + 1
    ensures Height(t) <= 2 * BlackHeight(t) + (if Red(t) then 1 else 0)
  {
    match t
    case Leaf =>
    case Node(l, _, _, r) => BlackHeightBounds(l); BlackHeightBounds(r);
  }

  /** A red-black tree is shallow: 2^(h/2) <= size + 1. */
  lemma {:induction false} HeightBound<T>(t: Tree<T>)
    requires RedBlack(t)
    ensures Pow2(Height(t) / 2) <= Size(t) + 1
  {
    BlackHeightBounds(t);
    Pow2Monotone(Height(t) / 2, BlackHeight(t));
  }

  /** Nothing in a tree lies deeper than its height. */
  lemma {:induction false} DepthBound<T>(c: Ctx<T>, t: Tree<T>)
    ensures Depth(c) + Height(t) <= Height(Plug(c, t))
    decreases c
  {
    match c
    case Top =>
    case InLeft(up, n, red, sib) => DepthBound(up, Node(t, n, red, sib));
    case InRight(up, n, red, sib) => DepthBound(up, Node(sib, n, red, t));
  }
}
