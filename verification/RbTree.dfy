module RbTree {
  import opened RbShape
  import opened RbLinks
  import opened RbBalance
  import opened RbDelete
  import opened RbSplice
  import opened Multimap
  import opened Wrappers

  class Entry {
    const key: Key
    var left: Entry?
    var right: Entry?
    var parent: Entry?
    var next: Entry?
    var prev: Entry?
    var red: bool
    var value: Pointer

    constructor (key: Key, value: Pointer, red: bool, child: Entry?, parent: Entry?)
      ensures this.key == key && this.value == value && this.red == red
      ensures left == child && right == child && this.parent == parent
      ensures next == null && prev == null
    {
      this.key, this.value, this.red := key, value, red;
      left, right, this.parent := child, child, parent;
      next, prev := null, null;
    }
  }

  /** The nodes that move when `heir` takes the place of `node`: `rest` takes the place of `heir`. */
  datatype Move = Move(node: Entry, heir: Entry, rest: Entry)

  ghost predicate Filled(s: set<Entry>)
    reads s`left, s`right, s`parent
  {
    forall n <- s :: n.left != null && n.right != null && n.parent != null
  }

  /** What the links and colours of the nodes hold. */
  ghost function Snapshot(s: set<Entry>): Memory<Entry>
    requires Filled(s)
    reads s`left, s`right, s`parent, s`red
  {
    map n <- s :: Cell(n.left, n.right, n.parent, n.red)
  }

  /** The keys and values along a list of nodes. */
  ghost function PairsOf(order: seq<Entry>): Pairs
    reads (set x <- order)`value
  {
    if order == [] then [] else [(order[0].key, order[0].value)] + PairsOf(order[1..])
  }

  lemma {:induction false} PairsAt(order: seq<Entry>)
    ensures |PairsOf(order)| == |order|
    ensures forall i | 0 <= i < |order| :: PairsOf(order)[i] == (order[i].key, order[i].value)
  {
    if order != [] { PairsAt(order[1..]); }
  }

  lemma {:induction false} PairsConcat(a: seq<Entry>, b: seq<Entry>)
    ensures PairsOf(a + b) == PairsOf(a) + PairsOf(b)
  {
    if a == [] {
      assert a + b == b;
    } else {
      PairsConcat(a[1..], b);
      assert (a + b)[1..] == a[1..] + b;
    }
  }

  ghost function Nth(order: seq<Entry>, i: int): Entry? { if 0 <= i < |order| then order[i] else null }

  class RbTree {
    var count: nat
    var root: Entry
    var head: Entry?
    var tail: Entry?
    var curr: Entry?
    const leaf: Entry
    /** Whether a release function was given, and the values handed to it so far. */
    const vfree: bool
    var freed: seq<Pointer>

    ghost var nodes: set<Entry>
    ghost var shape: Tree<Entry>

    ghost function Mem(): Memory<Entry>
      requires Filled(nodes)
      reads this`nodes, nodes`left, nodes`right, nodes`parent, nodes`red
    {
      Snapshot(nodes)
    }

    /** The fields describe the subtree `t` in the context `c`. */
    ghost predicate Seen(c: Ctx<Entry>, t: Tree<Entry>)
      reads this`root, this`nodes, nodes`left, nodes`right, nodes`parent, nodes`red, leaf`red
    {
      Filled(nodes) && At(Mem(), root, leaf, c, t) && !leaf.red
    }

    constructor (vfree: bool)
      ensures Valid() && Contents() == [] && freed == [] && this.vfree == vfree && fresh(nodes) && fresh(leaf)
      ensures nodes == {} && curr == null
    {
      var l := new Entry(0, 0, false, null, null);
      count, leaf, root := 0, l, l;
      head, tail, curr := null, null, null;
      this.vfree, freed := vfree, [];
      nodes, shape := {}, Leaf;
    }

    // ---------------------------------------------------------------- rotations

    ghost predicate MayRotateLeft(node: Entry)
      reads this`root, this`nodes, nodes`left, nodes`right, nodes`parent
    {
      && (leaf !in nodes && node in nodes && node.right in nodes && node.right != node)
      && (node.right.left == leaf || node.right.left in nodes - {node, node.right})
      && (node != root ==> node.parent in nodes - {node, node.right, node.right.left})
    }

    ghost predicate MayRotateRight(node: Entry)
      reads this`root, this`nodes, nodes`left, nodes`right, nodes`parent
    {
      && (leaf !in nodes && node in nodes && node.left in nodes && node.left != node)
      && (node.left.right == leaf || node.left.right in nodes - {node, node.left})
      && (node != root ==> node.parent in nodes - {node, node.left, node.left.right})
    }

    /** The links after a left rotation at `node`, in terms of the links before. */
    twostate predicate RotatedLeft(node: Entry)
      requires old(MayRotateLeft(node)) && old(nodes) == nodes
      reads this`root, this`nodes, nodes`left, nodes`right, nodes`parent
    {
      && (root == if node == old(root) then old(node.right) else old(root))
      && (forall n <- nodes :: n.left == (if n == old(node.right) then node
            else if n == old(node.parent) && node != old(root) && old(node.parent.left) == node then old(node.right)
            else old(n.left)))
      && (forall n <- nodes :: n.right == (if n == node then old(node.right.left)
            else if n == old(node.parent) && node != old(root) && old(node.parent.left) != node then old(node.right)
            else old(n.right)))
      && (forall n <- nodes :: n.parent == (if n == node then old(node.right)
            else if n == old(node.right) then old(node.parent)
            else if n == old(node.right.left) then node else old(n.parent)))
    }

    twostate predicate RotatedRight(node: Entry)
      requires old(MayRotateRight(node)) && old(nodes) == nodes
      reads this`root, this`nodes, nodes`left, nodes`right, nodes`parent
    {
      && (root == if node == old(root) then old(node.left) else old(root))
      && (forall n <- nodes :: n.right == (if n == old(node.left) then node
            else if n == old(node.parent) && node != old(root) && old(node.parent.right) == node then old(node.left)
            else old(n.right)))
      && (forall n <- nodes :: n.left == (if n == node then old(node.left.right)
            else if n == old(node.parent) && node != old(root) && old(node.parent.right) != node then old(node.left)
            else old(n.left)))
      && (forall n <- nodes :: n.parent == (if n == node then old(node.left)
            else if n == old(node.left) then old(node.parent)
            else if n == old(node.left.right) then node else old(n.parent)))
    }

    method LeftRotate(node: Entry)
      requires MayRotateLeft(node)
      modifies this`root, nodes`left, nodes`right, nodes`parent
      ensures RotatedLeft(node)
    {
      var p := node.right;
      node.right := p.left;
      if p.left != leaf {
        p.left.parent := node;
      }
      p.parent := node.parent;
      if node == root {
        root := p;
      } else if node == node.parent.left {
        node.parent.left := p;
      } else {
        node.parent.right := p;
      }
      p.left := node;
      node.parent := p;
    }

    method RightRotate(node: Entry)
      requires MayRotateRight(node)
      modifies this`root, nodes`left, nodes`right, nodes`parent
      ensures RotatedRight(node)
    {
      var p := node.left;
      node.left := p.right;
      if p.right != leaf {
        p.right.parent := node;
      }
      p.parent := node.parent;
      if node == root {
        root := p;
      } else if node == node.parent.right {
        node.parent.right := p;
      } else {
        node.parent.left := p;
      }
      p.right := node;
      node.parent := p;
    }

    twostate lemma SawLeftRotation(node: Entry)
      requires old(nodes) == nodes && old(Filled(nodes)) && old(CanRotate(Mem(), root, leaf, node, true))
      requires old(MayRotateLeft(node))
      requires RotatedLeft(node)
      requires forall n <- nodes :: n.red == old(n.red)
      ensures Filled(nodes) && IsLeftRotation(old(Mem()), Mem(), old(root), root, leaf, node)
    {
    }

    twostate lemma SawRightRotation(node: Entry)
      requires old(nodes) == nodes && old(Filled(nodes)) && old(CanRotate(Mem(), root, leaf, node, false))
      requires old(MayRotateRight(node))
      requires RotatedRight(node)
      requires forall n <- nodes :: n.red == old(n.red)
      ensures Filled(nodes) && IsRightRotation(old(Mem()), Mem(), old(root), root, leaf, node)
    {
    }

    /** A left rotation turns (a x (b y d)) into ((a x b) y d), wherever it happens. */
    method LeftRotateAt(node: Entry, ghost c: Ctx<Entry>, ghost a: Tree<Entry>, ghost xr: bool,
                        ghost b: Tree<Entry>, ghost y: Entry, ghost yr: bool, ghost d: Tree<Entry>)
      requires Seen(c, Node(a, node, xr, Node(b, y, yr, d)))
      modifies this`root, nodes`left, nodes`right, nodes`parent
      ensures Seen(c, Node(Node(a, node, xr, b), y, yr, d))
    {
      CanRotateLeft(Mem(), root, leaf, c, a, node, xr, b, y, yr, d);
      LeftRotate(node);
      SawLeftRotation(node);
      RotateLeft(old(Mem()), Mem(), old(root), root, leaf, c, a, node, xr, b, y, yr, d);
    }

    method RightRotateAt(node: Entry, ghost c: Ctx<Entry>, ghost a: Tree<Entry>, ghost y: Entry, ghost yr: bool,
                         ghost b: Tree<Entry>, ghost xr: bool, ghost d: Tree<Entry>)
      requires Seen(c, Node(Node(a, y, yr, b), node, xr, d))
      modifies this`root, nodes`left, nodes`right, nodes`parent
      ensures Seen(c, Node(a, y, yr, Node(b, node, xr, d)))
    {
      CanRotateRight(Mem(), root, leaf, c, a, y, yr, b, node, xr, d);
      RightRotate(node);
      SawRightRotation(node);
      RotateRight(old(Mem()), Mem(), old(root), root, leaf, c, a, y, yr, b, node, xr, d);
    }

    method SetColor(n: Entry, red: bool, ghost c: Ctx<Entry>, ghost t: Tree<Entry>)
      requires Seen(c, t) && n in Nodes(t)
      modifies n`red
      ensures Seen(c, Paint(t, n, red))
    {
      n.red := red;
      assert Mem() == old(Mem())[n := old(Mem())[n].(red := red)];
      PaintAt(old(Mem()), Mem(), root, leaf, c, t, n, red);
    }

    /** The fields around the hole, as the code reads them. */
    lemma Look(c: Ctx<Entry>, t: Tree<Entry>)
      requires Seen(c, t) && !c.Top?
      ensures c.n in nodes && c.n.red == c.red
      ensures t.Node? ==> t.n in nodes && t.n.parent == c.n && t.n.red == t.red && t.n != root
      ensures c.sib.Node? ==> c.sib.n in nodes && c.sib.n.red == c.sib.red
      ensures Ptr(t, leaf).red == Red(t) && Ptr(c.sib, leaf).red == Red(c.sib)
      ensures c.InLeft? ==> c.n.left == Ptr(t, leaf) && c.n.right == Ptr(c.sib, leaf)
      ensures c.InRight? ==> c.n.right == Ptr(t, leaf) && c.n.left == Ptr(c.sib, leaf)
      ensures t.Node? || c.sib.Node? ==> Ptr(t, leaf) != Ptr(c.sib, leaf)
      ensures !c.up.Top? ==> c.n.parent == c.up.n
      ensures Seen(c.up, Fill(c, t))
    {
      Around(Mem(), root, leaf, c, t);
      AtRoot(Mem(), root, leaf, c, t);
      Up(Mem(), root, leaf, c, t);
    }

    /** Red uncle: parent and uncle become black, the grandparent red. */
    method FlipColors(ghost c: Ctx<Entry>, ghost t: Tree<Entry>, parent: Entry, uncle: Entry, grand: Entry)
      requires CtxRed(c) && !c.up.Top? && !c.up.red && Red(c.up.sib)
      requires Seen(c.up.up, Fill(c.up, Fill(c, t)))
      requires parent == c.n && uncle == c.up.sib.n && grand == c.up.n
      modifies parent`red, uncle`red, grand`red
      ensures Seen(c.up.up, Flip(c, t))
    {
      ghost var w := Fill(c.up, Fill(c, t));
      FlipPainted(c, t);
      SetColor(parent, false, c.up.up, w);
      PaintKeeps(w, parent, false);
      SetColor(uncle, false, c.up.up, Paint(w, parent, false));
      PaintKeeps(Paint(w, parent, false), uncle, false);
      SetColor(grand, true, c.up.up, Paint(Paint(w, parent, false), uncle, false));
    }

    /** The red pair lies in a line left of the grandparent: colours change and the
        grandparent is rotated to the right. */
    method LineLeft(node: Entry, ghost o: Ctx<Entry>, ghost g: Entry, ghost u: Tree<Entry>,
                    ghost q: Entry, ghost d: Tree<Entry>, ghost x: Tree<Entry>)
      requires Seen(InLeft(InLeft(o, g, false, u), q, true, d), x) && x.Node? && x.n == node
      modifies this`root, nodes`left, nodes`right, nodes`parent, nodes`red
      ensures Seen(InLeft(o, q, false, Node(d, g, true, u)), x)
    {
      Look(InLeft(InLeft(o, g, false, u), q, true, d), x);
      ghost var w := Node(Node(x, q, true, d), g, false, u);
      Look(InLeft(o, g, false, u), w.left);
      var parent := node.parent;
      var grand := parent.parent;
      PaintHalf(w, q, false);
      PaintRoot(w.left, false);
      SetColor(parent, false, o, w);
      ghost var w1 := Node(Node(x, q, false, d), g, false, u);
      PaintRoot(w1, true);
      SetColor(grand, true, o, w1);
      RightRotateAt(grand, o, x, q, false, d, true, u);
      Down(Mem(), root, leaf, o, Node(x, q, false, Node(d, g, true, u)));
    }

    method LineRight(node: Entry, ghost o: Ctx<Entry>, ghost g: Entry, ghost u: Tree<Entry>,
                     ghost q: Entry, ghost d: Tree<Entry>, ghost x: Tree<Entry>)
      requires Seen(InRight(InRight(o, g, false, u), q, true, d), x) && x.Node? && x.n == node
      modifies this`root, nodes`left, nodes`right, nodes`parent, nodes`red
      ensures Seen(InRight(o, q, false, Node(u, g, true, d)), x)
    {
      Look(InRight(InRight(o, g, false, u), q, true, d), x);
      ghost var w := Node(u, g, false, Node(d, q, true, x));
      Look(InRight(o, g, false, u), w.right);
      var parent := node.parent;
      var grand := parent.parent;
      PaintHalf(w, q, false);
      PaintRoot(w.right, false);
      SetColor(parent, false, o, w);
      ghost var w1 := Node(u, g, false, Node(d, q, false, x));
      PaintRoot(w1, true);
      SetColor(grand, true, o, w1);
      LeftRotateAt(grand, o, u, true, d, q, false, x);
      Down(Mem(), root, leaf, o, Node(Node(u, g, true, d), q, false, x));
    }

    /** The red pair bends: a rotation at the parent puts it in a line. */
    method BendLeft(parent: Entry, ghost c: Ctx<Entry>, ghost s: Tree<Entry>, ghost b: Tree<Entry>, ghost n: Entry,
        ghost d: Tree<Entry>)
      requires Seen(InRight(c, parent, true, s), Node(b, n, true, d))
      modifies this`root, nodes`left, nodes`right, nodes`parent
      ensures Seen(InLeft(c, n, true, d), Node(s, parent, true, b))
    {
      Up(Mem(), root, leaf, InRight(c, parent, true, s), Node(b, n, true, d));
      LeftRotateAt(parent, c, s, true, b, n, true, d);
      Down(Mem(), root, leaf, c, Node(Node(s, parent, true, b), n, true, d));
    }

    method BendRight(parent: Entry, ghost c: Ctx<Entry>, ghost s: Tree<Entry>, ghost b: Tree<Entry>, ghost n: Entry,
        ghost d: Tree<Entry>)
      requires Seen(InLeft(c, parent, true, s), Node(b, n, true, d))
      modifies this`root, nodes`left, nodes`right, nodes`parent
      ensures Seen(InRight(c, n, true, b), Node(d, parent, true, s))
    {
      Up(Mem(), root, leaf, InLeft(c, parent, true, s), Node(b, n, true, d));
      RightRotateAt(parent, c, b, n, true, d, true, s);
      Down(Mem(), root, leaf, c, Node(b, n, true, Node(d, parent, true, s)));
    }

    /** One round of the loop when the parent is a left child. */
    method InsertLeft(node: Entry, ghost c: Ctx<Entry>, ghost t: Tree<Entry>)
      returns (node': Entry, ghost c': Ctx<Entry>, ghost t': Tree<Entry>)
      requires Seen(c, t) && Inserting(c, t) && t.n == node && CtxRed(c) && c.up.InLeft?
      modifies this`root, nodes`left, nodes`right, nodes`parent, nodes`red
      ensures Seen(c', t') && InsertStep(c, t, c', t') && t'.n == node'
    {
      Look(c, t);
      Look(c.up, Fill(c, t));
      var p := node.parent.parent.right;
      if p.red {
        FlipStep(c, t);
        node', c', t' := node.parent.parent, c.up.up, Flip(c, t);
        FlipColors(c, t, node.parent, p, node');
      } else {
        ghost var g, u, o := c.up.n, c.up.sib, c.up.up;
        node' := node;
        if node == node.parent.right {
          BendStepLeft(o, g, u, c.n, c.sib, t.left, t.n, t.right);
          node' := node.parent;
          BendLeft(node', c.up, c.sib, t.left, t.n, t.right);
          t' := Node(c.sib, c.n, true, t.left);
          LineLeft(node', o, g, u, t.n, t.right, t');
          c' := InLeft(o, t.n, false, Node(t.right, g, true, u));
        } else {
          LineStepLeft(o, g, u, c.n, c.sib, t);
          LineLeft(node', o, g, u, c.n, c.sib, t);
          c', t' := InLeft(o, c.n, false, Node(c.sib, g, true, u)), t;
        }
      }
    }

    /** One round of the loop when the parent is a right child. */
    method InsertRight(node: Entry, ghost c: Ctx<Entry>, ghost t: Tree<Entry>)
      returns (node': Entry, ghost c': Ctx<Entry>, ghost t': Tree<Entry>)
      requires Seen(c, t) && Inserting(c, t) && t.n == node && CtxRed(c) && c.up.InRight?
      modifies this`root, nodes`left, nodes`right, nodes`parent, nodes`red
      ensures Seen(c', t') && InsertStep(c, t, c', t') && t'.n == node'
    {
      Look(c, t);
      Look(c.up, Fill(c, t));
      var p := node.parent.parent.left;
      if p.red {
        FlipStep(c, t);
        node', c', t' := node.parent.parent, c.up.up, Flip(c, t);
        FlipColors(c, t, node.parent, p, node');
      } else {
        ghost var g, u, o := c.up.n, c.up.sib, c.up.up;
        node' := node;
        if node == node.parent.left {
          BendStepRight(o, g, u, c.n, c.sib, t.left, t.n, t.right);
          node' := node.parent;
          BendRight(node', c.up, c.sib, t.left, t.n, t.right);
          t' := Node(t.right, c.n, true, c.sib);
          LineRight(node', o, g, u, t.n, t.left, t');
          c' := InRight(o, t.n, false, Node(u, g, true, t.left));
        } else {
          LineStepRight(o, g, u, c.n, c.sib, t);
          LineRight(node', o, g, u, c.n, c.sib, t);
          c', t' := InRight(o, c.n, false, Node(u, g, true, c.sib)), t;
        }
      }
    }

    /** What the code sees at the hole itself. */
    lemma LookHere(c: Ctx<Entry>, t: Tree<Entry>)
      requires Seen(c, t)
      ensures c.Top? <==> Ptr(t, leaf) == root
      ensures Ptr(t, leaf).red == Red(t) && leaf !in nodes
      ensures t.Node? ==> t.n in nodes && t.n.left == Ptr(t.left, leaf) && t.n.right == Ptr(t.right, leaf)
      ensures nodes == CtxNodes(c) + Nodes(t)
    {
      AtRoot(Mem(), root, leaf, c, t);
    }

    lemma SeenApart(c: Ctx<Entry>, t: Tree<Entry>)
      requires Seen(c, t)
      ensures Apart(t) && Nodes(t) <= nodes
    {
    }

    lemma SeenUp(c: Ctx<Entry>, t: Tree<Entry>)
      requires Seen(c, t) && !c.Top?
      ensures Seen(c.up, Fill(c, t))
    {
      Up(Mem(), root, leaf, c, t);
    }

    lemma SeenDown(c: Ctx<Entry>, t: Tree<Entry>)
      requires Seen(c, t) && t.Node?
      ensures Seen(InLeft(c, t.n, t.red, t.right), t.left) && Seen(InRight(c, t.n, t.red, t.left), t.right)
    {
      Down(Mem(), root, leaf, c, t);
    }

    lemma SeenWhole(c: Ctx<Entry>, t: Tree<Entry>)
      requires Seen(c, t)
      ensures Seen(Top, Plug(c, t))
    {
      UpAll(Mem(), root, leaf, c, t);
    }

    /** The loop state of the insertion: `node` is red at the hole, and the code can read
        off whether the work is done. */
    ghost predicate InsertLoop(node: Entry, c: Ctx<Entry>, t: Tree<Entry>, order: seq<Entry>)
      reads this`root, this`nodes, nodes`left, nodes`right, nodes`parent, nodes`red, leaf`red
    {
      && Seen(c, t) && Inserting(c, t) && t.n == node && Inorder(Plug(c, t)) == order
    }

    lemma InsertLoopView(node: Entry, c: Ctx<Entry>, t: Tree<Entry>, order: seq<Entry>)
      requires InsertLoop(node, c, t, order)
      ensures node in nodes && (node != root ==> node.parent in nodes)
      ensures node != root && node.parent.red <==> CtxRed(c)
      ensures CtxRed(c) ==> node.parent.parent in nodes && !c.up.Top?
                            && (node.parent == node.parent.parent.left <==> c.up.InLeft?)
    {
      LookHere(c, t);
      if !c.Top? {
        Look(c, t);
        if c.red { Look(c.up, Fill(c, t)); }
      }
    }

    /** Restores the colour rules above a new red node. */
    method InsertFixup(added: Entry, ghost c0: Ctx<Entry>, ghost t0: Tree<Entry>, ghost order: seq<Entry>)
      returns (ghost whole: Tree<Entry>)
      requires InsertLoop(added, c0, t0, order)
      modifies this`root, nodes`left, nodes`right, nodes`parent, nodes`red
      ensures Seen(Top, whole) && RedBlack(whole) && Inorder(whole) == order
    {
      var node := added;
      ghost var c, t := c0, t0;
      InsertLoopView(node, c, t, order);
      while node != root && node.parent.red
        invariant InsertLoop(node, c, t, order) && node in nodes && (node != root ==> node.parent in nodes)
        invariant node != root && node.parent.red <==> CtxRed(c)
        decreases Depth(c)
      {
        InsertLoopView(node, c, t, order);
        if node.parent == node.parent.parent.left {
          node, c, t := InsertLeft(node, c, t);
        } else {
          node, c, t := InsertRight(node, c, t);
        }
        InsertLoopView(node, c, t, order);
      }
      whole := InsertFinish(c, t, order);
    }

    /** The last statement of the insertion: the root becomes black. */
    method InsertFinish(ghost c: Ctx<Entry>, ghost t: Tree<Entry>, ghost order: seq<Entry>)
        returns (ghost whole: Tree<Entry>)
      requires Seen(c, t) && Inserting(c, t) && !CtxRed(c) && Inorder(Plug(c, t)) == order
      modifies nodes`red
      ensures Seen(Top, whole) && RedBlack(whole) && Inorder(whole) == order
    {
      InsertDone(c, t);
      UpAll(Mem(), root, leaf, c, t);
      ghost var w := Plug(c, t);
      LookHere(Top, w);
      PaintRoot(w, false);
      SetColor(root, false, Top, w);
      whole := w.(red := false);
    }

    // ---------------------------------------------------------------- the threaded list

    /** `next` and `prev` lead through `order` forwards and backwards. */
    ghost predicate Chained(order: seq<Entry>, s: set<Entry>)
      reads s`next, s`prev
    {
      && (forall i | 0 <= i < |order| :: order[i] in s)
      && (forall i, j | 0 <= i < j < |order| :: order[i] != order[j])
      && (forall i | 0 <= i < |order| :: order[i].next == Nth(order, i + 1))
      && (forall i | 0 <= i < |order| :: order[i].prev == Nth(order, i - 1))
    }

    /** The list from `head` through `next` is `order`, from `tail` through `prev` its reverse. */
    ghost predicate Threaded(order: seq<Entry>, s: set<Entry>)
      reads this`head, this`tail, s`next, s`prev
    {
      Chained(order, s) && head == Nth(order, 0) && tail == Nth(order, |order| - 1)
    }

    ghost predicate ThreadedPast(node: Entry, order: seq<Entry>, i: nat, s: set<Entry>)
      requires i <= |order|
      reads this`head, this`tail, s`next, s`prev
    {
      && node in s && node !in order
      && (forall k | 0 <= k < |order| :: order[k] in s)
      && (forall k, j | 0 <= k < j < |order| :: order[k] != order[j])
      && head == (if i == 0 then node else Nth(order, 0))
      && tail == (if i == |order| then node else Nth(order, |order| - 1))
      && node.next == Nth(order, i) && node.prev == Nth(order, i - 1)
      && (forall k | 0 <= k < |order| :: order[k].next == if k == i - 1 then node else Nth(order, k + 1))
      && (forall k | 0 <= k < |order| :: order[k].prev == if k == i then node else Nth(order, k - 1))
    }

    lemma ThreadedInsert(node: Entry, order: seq<Entry>, i: nat, o: seq<Entry>, s: set<Entry>)
      requires i <= |order| && ThreadedPast(node, order, i, s)
      requires |o| == |order| + 1
      requires forall k | 0 <= k < i :: o[k] == order[k]
      requires o[i] == node
      requires forall k {:trigger o[k]} | i < k < |o| :: o[k] == order[k - 1]
      ensures Threaded(o, s)
    {
      forall k | 0 <= k < |o|
        ensures o[k] in s && o[k].next == Nth(o, k + 1) && o[k].prev == Nth(o, k - 1)
      {
        assert k < i ==> o[k] == order[k];
        assert k > i ==> o[k] == order[k - 1];
      }
      forall k, j | 0 <= k < j < |o|
        ensures o[k] != o[j]
      {
        assert o[k] == if k < i then order[k] else if k == i then node else order[k - 1];
        assert o[j] == if j < i then order[j] else if j == i then node else order[j - 1];
      }
    }

    ghost predicate ThreadedWithout(order: seq<Entry>, i: nat, s: set<Entry>)
      requires i < |order|
      reads this`head, this`tail, s`next, s`prev
    {
      && (forall k | 0 <= k < |order| && k != i :: order[k] in s)
      && (forall k, j | 0 <= k < j < |order| :: order[k] != order[j])
      && head == (if i == 0 then Nth(order, 1) else Nth(order, 0))
      && tail == (if i == |order| - 1 then Nth(order, |order| - 2) else Nth(order, |order| - 1))
      && (forall k | 0 <= k < |order|
         && k != i :: order[k].next == if k == i - 1 then Nth(order, i + 1) else Nth(order, k + 1))
      && (forall k | 0 <= k < |order|
         && k != i :: order[k].prev == if k == i + 1 then Nth(order, i - 1) else Nth(order, k - 1))
    }

    lemma ThreadedRemove(order: seq<Entry>, i: nat, o: seq<Entry>, s: set<Entry>)
      requires i < |order| && ThreadedWithout(order, i, s)
      requires |o| == |order| - 1
      requires forall k | 0 <= k < i :: o[k] == order[k]
      requires forall k {:trigger o[k]} | i <= k < |o| :: o[k] == order[k + 1]
      ensures Threaded(o, s)
    {
      forall k | 0 <= k < |o|
        ensures o[k] in s && o[k].next == Nth(o, k + 1) && o[k].prev == Nth(o, k - 1)
      {
        assert o[k] == if k < i then order[k] else order[k + 1];
      }
      forall k, j | 0 <= k < j < |o|
        ensures o[k] != o[j]
      {
        assert o[k] == if k < i then order[k] else order[k + 1];
        assert o[j] == if j < i then order[j] else order[j + 1];
      }
    }

    /** Links `node` in front of `p` or behind it; `i` is its place in the traversal. */
    method ThreadAt(node: Entry, p: Entry, left: bool, ghost order: seq<Entry>, ghost i: nat, ghost s: set<Entry>)
      requires Chained(order, s) && i <= |order| && node !in s
      requires if left then i < |order| && order[i] == p else 0 < i && order[i - 1] == p
      modifies node`next, node`prev, s`next, s`prev
      ensures node.next == Nth(order, i) && node.prev == Nth(order, i - 1)
      ensures forall k | 0 <= k < |order| :: order[k].next == if k == i - 1 then node else Nth(order, k + 1)
      ensures forall k | 0 <= k < |order| :: order[k].prev == if k == i then node else Nth(order, k - 1)
    {
      assert (i < |order| ==> order[i] in s && order[i].prev == Nth(order, i - 1));
      assert (0 < i ==> order[i - 1] in s && order[i - 1].next == Nth(order, i));
      if left {
        node.next := p;
        node.prev := p.prev;
      } else {
        node.next := p.next;
        node.prev := p;
      }
      if node.next != null {
        node.next.prev := node;
      }
      if node.prev != null {
        node.prev.next := node;
      }
    }

    /** The ends of the list and the cursor leave `node`. */
    method MoveEnds(node: Entry, ghost order: seq<Entry>, ghost i: nat)
      requires Threaded(order, nodes) && i < |order| && order[i] == node
      modifies this`head, this`tail, this`curr
      ensures head == (if i == 0 then Nth(order, 1) else Nth(order, 0))
      ensures tail == (if i == |order| - 1 then Nth(order, |order| - 2) else Nth(order, |order| - 1))
      ensures curr == if old(curr) == node then Nth(order, i + 1) else old(curr)
    {
      assert order[0] == head && order[|order| - 1] == tail;
      if node == head {
        head := node.next;
      }
      if node == tail {
        tail := node.prev;
      }
      if node == curr {
        curr := node.next;
      }
    }

    /** The neighbours of `node` in the list become neighbours. */
    method Unlink(node: Entry, ghost order: seq<Entry>, ghost i: nat)
      requires Chained(order, nodes) && i < |order| && order[i] == node
      modifies nodes`next, nodes`prev
      ensures forall k | 0 <= k < |order|
              && k != i :: order[k].next == if k == i - 1 then Nth(order, i + 1) else Nth(order, k + 1)
      ensures forall k | 0 <= k < |order|
              && k != i :: order[k].prev == if k == i + 1 then Nth(order, i - 1) else Nth(order, k - 1)
    {
      assert node.next == Nth(order, i + 1) && node.prev == Nth(order, i - 1);
      assert (i > 0 ==> order[i - 1] in nodes);
      assert (i + 1 < |order| ==> order[i + 1] in nodes);
      if node.next != null {
        node.next.prev := node.prev;
      }
      if node.prev != null {
        node.prev.next := node.next;
      }
    }

    /** Takes `node` out of the list. */
    method Unthread(node: Entry, ghost order: seq<Entry>, ghost i: nat)
      requires Threaded(order, nodes) && i < |order| && order[i] == node
      modifies this`head, this`tail, this`curr, nodes`next, nodes`prev
      ensures ThreadedWithout(order, i, nodes)
      ensures curr == if old(curr) == node then Nth(order, i + 1) else old(curr)
    {
      MoveEnds(node, order, i);
      Unlink(node, order, i);
    }

    // ---------------------------------------------------------------- searching

    ghost predicate Sorted(order: seq<Entry>) {
      forall i, j | 0 <= i < j < |order| :: order[i].key <= order[j].key
    }

    lemma SortedAround(a: seq<Entry>, n: Entry, b: seq<Entry>)
      requires Sorted(a + [n] + b)
      ensures forall x <- a + [n] :: x.key <= n.key
      ensures forall x <- [n] + b :: n.key <= x.key
    {
      var w, v := a + [n] + b, [n] + b;
      assert w[|a|] == n;
      forall x <- a + [n] ensures x.key <= n.key {
        var i :| 0 <= i <= |a| && (a + [n])[i] == x;
        assert w[i] == x;
      }
      forall x <- v ensures n.key <= x.key {
        var i :| 0 <= i < |v| && v[i] == x;
        assert w[|a| + i] == x;
      }
    }

    lemma Reassociated(p: seq<Entry>, l: seq<Entry>, n: Entry, r: seq<Entry>, q: seq<Entry>)
      ensures p + (l + [n] + r) + q == (p + l) + [n] + (r + q)
      ensures [n] + r + q == [n] + (r + q) && p + l + [n] == (p + l) + [n]
    {
    }

    lemma KeysAround(c: Ctx<Entry>, t: Tree<Entry>)
      requires t.Node? && Sorted(Inorder(Plug(c, t)))
      ensures forall x <- Before(InRight(c, t.n, t.red, t.left)) :: x.key <= t.n.key
      ensures forall x <- After(InLeft(c, t.n, t.red, t.right)) :: t.n.key <= x.key
    {
      hide Plug, Sorted;
      PlugInorder(c, t);
      Reassociated(Before(c), Inorder(t.left), t.n, Inorder(t.right), After(c));
      SortedAround(Before(c) + Inorder(t.left), t.n, Inorder(t.right) + After(c));
    }

    /** What is known halfway down a search for `key`, where equal keys stop it. */
    ghost predicate Between(key: Key, c: Ctx<Entry>) {
      && (forall x <- Before(c) :: x.key < key)
      && (forall x <- After(c) :: key < x.key)
    }

    /** The search loop of `add`, `del` and `find`. */
    method Search(key: Key) returns (node: Entry?, ghost c: Ctx<Entry>, ghost t: Tree<Entry>)
      requires Seen(Top, shape) && Sorted(Inorder(shape))
      ensures Seen(c, t) && Plug(c, t) == shape
      ensures node != null ==> t.Node? && t.n == node && node.key == key
      ensures node == null ==> t.Leaf? && forall x <- Inorder(shape) :: x.key != key
      ensures node != null ==> node in nodes
    {
      c, t := Top, shape;
      node := null;
      LookHere(c, t);
      var p := root;
      while p != leaf
        invariant Seen(c, t) && p == Ptr(t, leaf) && Plug(c, t) == shape && Between(key, c)
        decreases t
      {
        LookHere(c, t);
        if p.key == key {
          node := p;
          return;
        }
        KeysAround(c, t);
        Down(Mem(), root, leaf, c, t);
        if key < p.key {
          p, c, t := p.left, InLeft(c, t.n, t.red, t.right), t.left;
        } else {
          p, c, t := p.right, InRight(c, t.n, t.red, t.left), t.right;
        }
      }
      LookHere(c, t);
      PlugInorder(c, t);
    }

    /** What is known halfway down the descent of an insertion: equal keys are passed on
        the right. */
    ghost predicate Passed(key: Key, c: Ctx<Entry>) {
      && (forall x <- Before(c) :: x.key <= key)
      && (forall x <- After(c) :: key < x.key)
    }

    /** Finds the parent of a new node. */
    method Place(node: Entry) returns (ghost c: Ctx<Entry>)
      requires Seen(Top, shape) && Sorted(Inorder(shape)) && root != leaf
      requires node !in nodes && node != leaf
      modifies node`parent
      ensures Seen(c, Leaf) && !c.Top? && Plug(c, Leaf) == shape && Passed(node.key, c)
      ensures node.parent == c.n
    {
      hide Seen, Sorted, Inorder;
      ghost var t := shape;
      c := Top;
      LookHere(c, t);
      var p := root;
      while p != leaf
        invariant Seen(c, t) && p == Ptr(t, leaf) && Plug(c, t) == shape && Passed(node.key, c)
        invariant if c.Top? then p != leaf else node.parent == c.n
        decreases t
      {
        LookHere(c, t);
        node.parent := p;
        KeysAround(c, t);
        SeenDown(c, t);
        if node.key < p.key {
          p, c, t := p.left, InLeft(c, t.n, t.red, t.right), t.left;
        } else {
          p, c, t := p.right, InRight(c, t.n, t.red, t.left), t.right;
        }
      }
      LookHere(c, t);
    }

    // ---------------------------------------------------------------- the whole structure

    ghost predicate Valid()
      reads this, leaf`red, nodes
    {
      && Seen(Top, shape) && RedBlack(shape)
      && Threaded(Inorder(shape), nodes) && Sorted(Inorder(shape))
      && count == |Inorder(shape)| && (curr != null ==> curr in nodes)
    }

    ghost function Contents(): Pairs
      reads this`shape, (set x <- Inorder(shape))`value
    {
      PairsOf(Inorder(shape))
    }

    /** The child pointer of the parent leads to the new node. */
    method LinkChild(node: Entry, ghost c: Ctx<Entry>)
      requires Seen(c, Leaf) && !c.Top? && node !in nodes && node != leaf
      requires node.left == leaf && node.right == leaf && node.red && node.parent == c.n
      requires node.key < c.n.key <==> c.InLeft?
      modifies this`nodes, nodes`left, nodes`right
      ensures nodes == old(nodes) + {node}
      ensures Seen(c, Node(Leaf, node, true, Leaf))
    {
      hide At;
      Around(Mem(), root, leaf, c, Leaf);
      var p := node.parent;
      if node.key < p.key {
        p.left := node;
      } else {
        p.right := node;
      }
      nodes := nodes + {node};
      AttachAt(old(Mem()), Mem(), root, leaf, c, node);
    }

    /** The first or the last entry of the list changes with the key of the new node. */
    method GrowEnds(node: Entry, ghost order: seq<Entry>)
      requires Threaded(order, nodes) && order != []
      modifies this`head, this`tail
      ensures Chained(order, nodes)
      ensures head == if node.key < order[0].key then node else order[0]
      ensures tail == if order[0].key <= node.key
              && order[|order| - 1].key <= node.key then node else order[|order| - 1]
    {
      if node.key < head.key {
        head := node;
      } else if node.key >= tail.key {
        tail := node;
      }
    }

    /** The place of the new node in the traversal. */
    lemma PlaceInOrder(c: Ctx<Entry>, node: Entry, order: seq<Entry>) returns (i: nat)
      requires !c.Top? && order == Inorder(Plug(c, Leaf))
      ensures i == |Before(c)| && i <= |order| && order[..i] == Before(c) && order[i..] == After(c)
      ensures Inorder(Plug(c, Node(Leaf, node, true, Leaf))) == order[..i] + [node] + order[i..]
      ensures if c.InLeft? then i < |order| && order[i] == c.n else 0 < i && order[i - 1] == c.n
    {
      i := |Before(c)|;
      PlugInorder(c, Leaf);
      PlugInorder(c, Node(Leaf, node, true, Leaf));
      assert order == Before(c) + After(c);
    }

    lemma PlaceByKey(c: Ctx<Entry>, key: Key, order: seq<Entry>, i: nat)
      requires !c.Top? && Passed(key, c)
      requires i <= |order| && order != [] && order[..i] == Before(c) && order[i..] == After(c)
      requires if c.InLeft? then i < |order| && order[i] == c.n else 0 < i && order[i - 1] == c.n
      ensures c.InLeft? <==> key < c.n.key
      ensures i == 0 <==> key < order[0].key
      ensures i == |order| <==> order[|order| - 1].key <= key
    {
      assert forall k | 0 <= k < i :: order[k] == order[..i][k] && order[k].key <= key;
      assert forall k | i <= k < |order| :: order[k] == order[i..][k - i] && key < order[k].key;
    }

    /** A new node hangs below its parent but is neither in the list nor balanced yet. */
    ghost predicate Placed(node: Entry, c: Ctx<Entry>, order: seq<Entry>, i: nat)
      reads this`root, this`nodes, nodes, leaf`red
    {
      && i <= |order| && InsertLoop(node, c, Node(Leaf, node, true, Leaf), order[..i] + [node] + order[i..])
      && !c.Top? && Passed(node.key, c) && node.parent == c.n
      && order[..i] == Before(c) && order[i..] == After(c) && order != []
      && (if c.InLeft? then i < |order| && order[i] == c.n else 0 < i && order[i - 1] == c.n)
      && node in nodes
    }

    /** The descent of an insertion and the new child pointer. */
    method PlaceAndLink(node: Entry, ghost order: seq<Entry>) returns (ghost c: Ctx<Entry>, ghost i: nat)
      requires Seen(Top, shape) && RedBlack(shape) && order == Inorder(shape) && Sorted(order)
      requires root != leaf && node !in nodes && node != leaf
      requires node.left == leaf && node.right == leaf && node.red
      modifies this`nodes, nodes`left, nodes`right, node`parent
      ensures nodes == old(nodes) + {node} && i <= |order| && order != [] && Placed(node, c, order, i)
      ensures InsertLoop(node, c, Node(Leaf, node, true, Leaf), order[..i] + [node] + order[i..])
      ensures (forall x <- order[..i] :: x.key <= node.key) && (forall x <- order[i..] :: node.key < x.key)
    {
      c := Place(node);
      i := PlaceInOrder(c, node, order);
      PlaceByKey(c, node.key, order, i);
      UnplugRedBlack(c, Leaf);
      InsertingStart(c, node);
      LinkChild(node, c);
    }

    lemma PlacedByKey(node: Entry, c: Ctx<Entry>, order: seq<Entry>, i: nat)
      requires i <= |order| && Placed(node, c, order, i)
      ensures order != []
      ensures if node.key < node.parent.key then i < |order| && order[i] == node.parent
              else 0 < i && order[i - 1] == node.parent
      ensures i == 0 <==> node.key < order[0].key
      ensures i == |order| <==> order[|order| - 1].key <= node.key
      ensures i == |order| ==> order[0].key <= node.key
    {
      PlaceByKey(c, node.key, order, i);
    }

    lemma ThreadedWith(node: Entry, order: seq<Entry>, i: nat, s: set<Entry>)
      requires i <= |order| && ThreadedPast(node, order, i, s)
      ensures Threaded(order[..i] + [node] + order[i..], s)
    {
      ThreadedInsert(node, order, i, order[..i] + [node] + order[i..], s);
    }

    /** The new node enters the list next to its parent. */
    method ThreadNew(node: Entry, ghost c: Ctx<Entry>, ghost order: seq<Entry>, ghost i: nat, ghost s: set<Entry>)
      requires i <= |order| && Placed(node, c, order, i)
      requires Chained(order, s) && node !in s && nodes == s + {node}
      requires head == if node.key < order[0].key then node else order[0]
      requires tail == if order[0].key <= node.key
              && order[|order| - 1].key <= node.key then node else order[|order| - 1]
      modifies nodes`next, nodes`prev
      ensures Threaded(order[..i] + [node] + order[i..], nodes)
    {
      hide InsertLoop, Seen, Placed, Threaded;
      PlacedByKey(node, c, order, i);
      var p := node.parent;
      ThreadAt(node, p, node.key < p.key, order, i, s);
      ThreadedWith(node, order, i, nodes);
    }

    /** Inserts a new red node into a tree that is not empty. */
    method AddNode(node: Entry, ghost order: seq<Entry>) returns (ghost i: nat)
      requires Seen(Top, shape) && RedBlack(shape) && order == Inorder(shape) && Sorted(order) && Threaded(order, nodes)
      requires root != leaf && node !in nodes && node != leaf && order != []
      requires node.left == leaf && node.right == leaf && node.red
      modifies this`root, this`head, this`tail, this`nodes, this`shape
      modifies nodes`left, nodes`right, nodes`parent, nodes`red, nodes`next, nodes`prev
      modifies node`left, node`right, node`parent, node`red, node`next, node`prev
      ensures nodes == old(nodes) + {node} && Seen(Top, shape) && RedBlack(shape)
      ensures i <= |order| && Inorder(shape) == order[..i] + [node] + order[i..] && Threaded(Inorder(shape), nodes)
      ensures (forall x <- order[..i] :: x.key <= node.key) && (forall x <- order[i..] :: node.key < x.key)
    {
      hide Placed, Seen, RedBlack, Sorted, Threaded, Chained;
      GrowEnds(node, order);
      ghost var c;
      c, i := PlaceAndLink(node, order);
      ghost var o := order[..i] + [node] + order[i..];
      ThreadNew(node, c, order, i, old(nodes));
      shape := InsertFixup(node, c, Node(Leaf, node, true, Leaf), o);
    }

    lemma NodesInOrder()
      requires Seen(Top, shape)
      ensures forall x :: x in Inorder(shape) <==> x in nodes
      ensures root == leaf <==> shape.Leaf?
    {
      InorderNodes(shape);
      LookHere(Top, shape);
    }

    lemma SortedWith(a: seq<Entry>, node: Entry, b: seq<Entry>)
      requires Sorted(a + b)
      requires (forall x <- a :: x.key <= node.key) && (forall x <- b :: node.key < x.key)
      ensures Sorted(a + [node] + b)
    {
      var w, o := a + b, a + [node] + b;
      assert forall k | 0 <= k < |a| :: o[k] == a[k] && w[k] == a[k];
      forall j, k | 0 <= j < k < |o| ensures o[j].key <= o[k].key {
        assert k > |a| ==> o[k] == w[k - 1] && o[k] == b[k - 1 - |a|];
        assert j > |a| ==> o[j] == w[j - 1];
      }
    }

    /** What a new node does to the contents. */
    lemma PairsWith(a: seq<Entry>, node: Entry, b: seq<Entry>)
      requires (forall x <- a :: x.key <= node.key) && (forall x <- b :: node.key < x.key)
      ensures PairsOf(a + [node] + b) == Put(PairsOf(a + b), node.key, node.value)
    {
      PairsConcat(a, b);
      PairsConcat(a, [node]);
      PairsConcat(a + [node], b);
      PairsAt(a);
      PairsAt(b);
      assert PairsOf([node]) == [(node.key, node.value)];
      PutSplit(PairsOf(a), PairsOf(b), node.key, node.value);
    }

    /** The first node of a tree: black, root, head and tail at once. */
    method AddFirst(node: Entry)
      requires Seen(Top, shape) && shape.Leaf? && node !in nodes && node != leaf
      requires node.left == leaf && node.right == leaf && node.parent != null && node.next == null && node.prev == null
      modifies this`root, this`head, this`tail, this`nodes, this`shape, node`red
      ensures nodes == {node} && Seen(Top, shape) && RedBlack(shape)
      ensures Inorder(shape) == [node] && Threaded([node], nodes) && Sorted([node])
    {
      LookHere(Top, shape);
      node.red := false;
      root := node;
      head := node;
      tail := node;
      nodes := {node};
      shape := Node(Leaf, node, false, Leaf);
      FirstAt(Mem(), leaf, node, false);
    }

    method InsertNew(key: Key, value: Pointer)
      requires Valid()
      modifies this, nodes
      ensures Valid() && fresh(nodes - old(nodes)) && old(nodes) <= nodes && freed == old(freed) && curr == old(curr)
      ensures Contents() == Put(old(Contents()), key, value)
    {
      hide Seen, RedBlack, Threaded, Chained, Sorted, PairsOf, Put;
      NodesInOrder();
      ghost var order := Inorder(shape);
      var node := new Entry(key, value, true, leaf, root);
      count := count + 1;
      if root == leaf {
        assert order == [];
        AddFirst(node);
        PairsWith([], node, []);
        assert order + order == order && [] + [node] + [] == [node];
        assert Inorder(shape) == [node];
        assert PairsOf(Inorder(shape)) == Put(PairsOf(order), key, value);
      } else {
        assert shape.n in order;
        ghost var i := AddNode(node, order);
        assert order == order[..i] + order[i..];
        SortedWith(order[..i], node, order[i..]);
        PairsWith(order[..i], node, order[i..]);
        assert PairsOf(order) == old(PairsOf(order));
        assert Inorder(shape) == order[..i] + [node] + order[i..];
        assert PairsOf(Inorder(shape)) == Put(PairsOf(order), key, value);
      }
    }

    /** A key is in the contents exactly when some node has it. */
    lemma KeyInContents(key: Key)
      requires Seen(Top, shape)
      ensures HasKey(Contents(), key) <==> exists x <- Inorder(shape) :: x.key == key
    {
      var order := Inorder(shape);
      PairsAt(order);
      if x :| x in order && x.key == key {
        var i :| 0 <= i < |order| && order[i] == x;
        assert PairsOf(order)[i].0 == key;
      }
      if i :| 0 <= i < |Contents()| && Contents()[i].0 == key {
        assert order[i].key == key;
      }
    }

    lemma NodeAt(node: Entry) returns (i: nat)
      requires Seen(Top, shape) && Threaded(Inorder(shape), nodes) && node in nodes
      ensures i < |Inorder(shape)| && Inorder(shape)[i] == node
      ensures forall k | 0 <= k < |Inorder(shape)| && k != i :: Inorder(shape)[k] != node
    {
      NodesInOrder();
      i :| i < |Inorder(shape)| && Inorder(shape)[i] == node;
    }

    /** The value of one node changes; the old one is released. */
    method ReplaceValue(node: Entry, value: Pointer) returns (ghost i: nat)
      requires Valid() && node in nodes
      modifies this`freed, node`value
      ensures Valid() && nodes == old(nodes) && Changed(old(Contents()), Contents(), i, node.key, value)
      ensures freed == if vfree then old(freed) + [old(Contents())[i].1] else old(freed)
    {
      hide Seen, RedBlack, Threaded, Sorted;
      ghost var order := Inorder(shape);
      i := NodeAt(node);
      PairsAt(order);
      if vfree {
        freed := freed + [node.value];
      }
      node.value := value;
      PairsAt(order);
    }

    /** Adds a pair; with `force` it takes the place of a pair with that key, if any. */
    method Add(key: Key, value: Pointer, force: bool) returns (ret: int, ghost i: nat)
      requires Valid()
      modifies this, nodes
      ensures Valid() && fresh(nodes - old(nodes)) && old(nodes) <= nodes && ret == 0 && curr == old(curr)
      ensures force && HasKey(old(Contents()), key) ==>
                Changed(old(Contents()), Contents(), i, key, value)
                && freed == if vfree then old(freed) + [old(Contents())[i].1] else old(freed)
      ensures !force || !HasKey(old(Contents()), key) ==>
                Contents() == Put(old(Contents()), key, value) && freed == old(freed)
    {
      hide Seen, RedBlack, Threaded, Sorted;
      ret, i := 0, 0;
      KeyInContents(key);
      if force {
        ghost var c, t;
        var node;
        node, c, t := Search(key);
        assert PairsOf(Inorder(shape)) == old(PairsOf(Inorder(shape)));
        if node != null {
          NodesInOrder();
          i := ReplaceValue(node, value);
          return;
        }
      }
      InsertNew(key, value);
    }

    // ---------------------------------------------------------------- restoring the colours after a deletion

    /** Red sibling: it turns black, the parent red, and a rotation at the parent brings a
        black sibling next to the short subtree. */
    method TurnRedSiblingLeft(parent: Entry, w: Entry, ghost up: Ctx<Entry>, ghost pr: bool,
                              ghost a: Tree<Entry>, ghost b: Tree<Entry>, ghost t: Tree<Entry>)
      requires Seen(InLeft(up, parent, pr, Node(a, w, true, b)), t)
      modifies this`root, nodes`left, nodes`right, nodes`parent, nodes`red
      ensures Seen(InLeft(InLeft(up, w, false, b), parent, true, a), t)
    {
      hide Seen, Plug;
      SeenUp(InLeft(up, parent, pr, Node(a, w, true, b)), t);
      ghost var x := Node(t, parent, pr, Node(a, w, true, b));
      SeenApart(up, x);
      PaintHalf(x, w, false);
      PaintRoot(x.right, false);
      SetColor(w, false, up, x);
      ghost var y := Node(t, parent, pr, Node(a, w, false, b));
      SeenApart(up, y);
      PaintRoot(y, true);
      SetColor(parent, true, up, y);
      LeftRotateAt(parent, up, t, true, a, w, false, b);
      ghost var z := Node(Node(t, parent, true, a), w, false, b);
      SeenDown(up, z);
      SeenDown(InLeft(up, w, false, b), z.left);
    }

    /** Black sibling with black children: it turns red and the parent becomes short. */
    method DarkenLeft(parent: Entry, w: Entry, ghost up: Ctx<Entry>, ghost pr: bool,
                      ghost a: Tree<Entry>, ghost b: Tree<Entry>, ghost t: Tree<Entry>)
      requires Seen(InLeft(up, parent, pr, Node(a, w, false, b)), t)
      modifies nodes`red
      ensures Seen(up, Node(t, parent, pr, Node(a, w, true, b)))
    {
      Up(Mem(), root, leaf, InLeft(up, parent, pr, Node(a, w, false, b)), t);
      ghost var x := Node(t, parent, pr, Node(a, w, false, b));
      PaintHalf(x, w, true);
      PaintRoot(x.right, true);
      SetColor(w, true, up, x);
    }

    /** Red near nephew only: a rotation at the sibling makes it the far one. */
    method TurnNearLeft(w: Entry, z: Entry, ghost up: Ctx<Entry>, ghost parent: Entry, ghost pr: bool,
                        ghost a: Tree<Entry>, ghost b: Tree<Entry>, ghost d: Tree<Entry>, ghost t: Tree<Entry>)
      requires Seen(InLeft(up, parent, pr, Node(Node(a, z, true, b), w, false, d)), t)
      modifies this`root, nodes`left, nodes`right, nodes`parent, nodes`red
      ensures Seen(InLeft(up, parent, pr, Node(a, z, false, Node(b, w, true, d))), t)
    {
      hide Seen, Plug;
      ghost var s := Node(Node(a, z, true, b), w, false, d);
      SeenUp(InLeft(up, parent, pr, s), t);
      SeenDown(up, Node(t, parent, pr, s));
      ghost var c := InRight(up, parent, pr, t);
      SeenApart(c, s);
      PaintHalf(s, z, false);
      PaintRoot(s.left, false);
      SetColor(z, false, c, s);
      ghost var y := Node(Node(a, z, false, b), w, false, d);
      SeenApart(c, y);
      PaintRoot(y, true);
      SetColor(w, true, c, y);
      RightRotateAt(w, c, a, z, false, b, true, d);
      ghost var v := Node(a, z, false, Node(b, w, true, d));
      SeenUp(c, v);
      SeenDown(up, Node(t, parent, pr, v));
    }

    /** Red far nephew: the sibling takes the parent's colour and place. */
    method TurnFarLeft(parent: Entry, w: Entry, far: Entry, ghost up: Ctx<Entry>, ghost pr: bool,
                       ghost a: Tree<Entry>, ghost d: Tree<Entry>, ghost t: Tree<Entry>)
      requires Seen(InLeft(up, parent, pr, Node(a, w, false, d)), t) && Red(d) && far == d.n
      modifies this`root, nodes`left, nodes`right, nodes`parent, nodes`red
      ensures Seen(Top, Plug(up, Node(Node(t, parent, false, a), w, pr, d.(red := false))))
    {
      hide Seen, Plug;
      Look(InLeft(up, parent, pr, Node(a, w, false, d)), t);
      ghost var x := Node(t, parent, pr, Node(a, w, false, d));
      SeenApart(up, x);
      PaintHalf(x, w, pr);
      PaintRoot(x.right, pr);
      SetColor(w, parent.red, up, x);
      ghost var y := Node(t, parent, pr, Node(a, w, pr, d));
      SeenApart(up, y);
      PaintRoot(y, false);
      SetColor(parent, false, up, y);
      ghost var z := Node(t, parent, false, Node(a, w, pr, d));
      SeenApart(up, z);
      PaintHalf(z, far, false);
      PaintHalf(z.right, far, false);
      PaintRoot(d, false);
      SetColor(far, false, up, z);
      LeftRotateAt(parent, up, t, false, a, w, pr, d.(red := false));
      SeenWhole(up, Node(Node(t, parent, false, a), w, pr, d.(red := false)));
    }

    method TurnRedSiblingRight(parent: Entry, w: Entry, ghost up: Ctx<Entry>, ghost pr: bool,
                               ghost a: Tree<Entry>, ghost b: Tree<Entry>, ghost t: Tree<Entry>)
      requires Seen(InRight(up, parent, pr, Node(a, w, true, b)), t)
      modifies this`root, nodes`left, nodes`right, nodes`parent, nodes`red
      ensures Seen(InRight(InRight(up, w, false, a), parent, true, b), t)
    {
      hide Seen, Plug;
      SeenUp(InRight(up, parent, pr, Node(a, w, true, b)), t);
      ghost var x := Node(Node(a, w, true, b), parent, pr, t);
      SeenApart(up, x);
      PaintHalf(x, w, false);
      PaintRoot(x.left, false);
      SetColor(w, false, up, x);
      ghost var y := Node(Node(a, w, false, b), parent, pr, t);
      SeenApart(up, y);
      PaintRoot(y, true);
      SetColor(parent, true, up, y);
      RightRotateAt(parent, up, a, w, false, b, true, t);
      ghost var z := Node(a, w, false, Node(b, parent, true, t));
      SeenDown(up, z);
      SeenDown(InRight(up, w, false, a), z.right);
    }

    method DarkenRight(parent: Entry, w: Entry, ghost up: Ctx<Entry>, ghost pr: bool,
                       ghost a: Tree<Entry>, ghost b: Tree<Entry>, ghost t: Tree<Entry>)
      requires Seen(InRight(up, parent, pr, Node(a, w, false, b)), t)
      modifies nodes`red
      ensures Seen(up, Node(Node(a, w, true, b), parent, pr, t))
    {
      Up(Mem(), root, leaf, InRight(up, parent, pr, Node(a, w, false, b)), t);
      ghost var x := Node(Node(a, w, false, b), parent, pr, t);
      PaintHalf(x, w, true);
      PaintRoot(x.left, true);
      SetColor(w, true, up, x);
    }

    method TurnNearRight(w: Entry, z: Entry, ghost up: Ctx<Entry>, ghost parent: Entry, ghost pr: bool,
                         ghost d: Tree<Entry>, ghost a: Tree<Entry>, ghost b: Tree<Entry>, ghost t: Tree<Entry>)
      requires Seen(InRight(up, parent, pr, Node(d, w, false, Node(a, z, true, b))), t)
      modifies this`root, nodes`left, nodes`right, nodes`parent, nodes`red
      ensures Seen(InRight(up, parent, pr, Node(Node(d, w, true, a), z, false, b)), t)
    {
      hide Seen, Plug;
      ghost var s := Node(d, w, false, Node(a, z, true, b));
      SeenUp(InRight(up, parent, pr, s), t);
      SeenDown(up, Node(s, parent, pr, t));
      ghost var c := InLeft(up, parent, pr, t);
      SeenApart(c, s);
      PaintHalf(s, z, false);
      PaintRoot(s.right, false);
      SetColor(z, false, c, s);
      ghost var y := Node(d, w, false, Node(a, z, false, b));
      SeenApart(c, y);
      PaintRoot(y, true);
      SetColor(w, true, c, y);
      LeftRotateAt(w, c, d, true, a, z, false, b);
      ghost var v := Node(Node(d, w, true, a), z, false, b);
      SeenUp(c, v);
      SeenDown(up, Node(v, parent, pr, t));
    }

    method TurnFarRight(parent: Entry, w: Entry, far: Entry, ghost up: Ctx<Entry>, ghost pr: bool,
                        ghost d: Tree<Entry>, ghost a: Tree<Entry>, ghost t: Tree<Entry>)
      requires Seen(InRight(up, parent, pr, Node(d, w, false, a)), t) && Red(d) && far == d.n
      modifies this`root, nodes`left, nodes`right, nodes`parent, nodes`red
      ensures Seen(Top, Plug(up, Node(d.(red := false), w, pr, Node(a, parent, false, t))))
    {
      hide Seen, Plug;
      Look(InRight(up, parent, pr, Node(d, w, false, a)), t);
      ghost var x := Node(Node(d, w, false, a), parent, pr, t);
      SeenApart(up, x);
      PaintHalf(x, w, pr);
      PaintRoot(x.left, pr);
      SetColor(w, parent.red, up, x);
      ghost var y := Node(Node(d, w, pr, a), parent, pr, t);
      SeenApart(up, y);
      PaintRoot(y, false);
      SetColor(parent, false, up, y);
      ghost var z := Node(Node(d, w, pr, a), parent, false, t);
      SeenApart(up, z);
      PaintHalf(z, far, false);
      PaintHalf(z.left, far, false);
      PaintRoot(d, false);
      SetColor(far, false, up, z);
      RightRotateAt(parent, up, d.(red := false), w, pr, a, false, t);
      SeenWhole(up, Node(d.(red := false), w, pr, Node(a, parent, false, t)));
    }

    /** The sibling of the hole and its children, as the code reads them. */
    lemma LookSibling(c: Ctx<Entry>, t: Tree<Entry>)
      requires Seen(c, t) && !c.Top? && c.sib.Node?
      ensures c.sib.n in nodes
      ensures c.sib.n.left == Ptr(c.sib.left, leaf) && c.sib.n.right == Ptr(c.sib.right, leaf)
      ensures Ptr(c.sib.left, leaf).red == Red(c.sib.left) && Ptr(c.sib.right, leaf).red == Red(c.sib.right)
    {
      Up(Mem(), root, leaf, c, t);
      Down(Mem(), root, leaf, c.up, Fill(c, t));
      var d := if c.InLeft? then InRight(c.up, c.n, c.red, t) else InLeft(c.up, c.n, c.red, t);
      LookHere(d, c.sib);
      Down(Mem(), root, leaf, d, c.sib);
      LookHere(InLeft(d, c.sib.n, c.sib.red, c.sib.right), c.sib.left);
      LookHere(InRight(d, c.sib.n, c.sib.red, c.sib.left), c.sib.right);
    }

    /** `p` points to the short subtree, and its parent field is set even if it is the sentinel. */
    ghost predicate Short(p: Entry, c: Ctx<Entry>, t: Tree<Entry>)
      reads this`root, this`nodes, nodes`left, nodes`right, nodes`parent, nodes`red, leaf`red, leaf`parent
    {
      && Seen(c, t) && Deleting(c, t) && p == Ptr(t, leaf)
      && (!c.Top? && t.Leaf? ==> leaf.parent == c.n)
    }

    lemma ShortView(p: Entry, c: Ctx<Entry>, t: Tree<Entry>)
      requires Short(p, c, t)
      ensures p == root <==> c.Top?
      ensures p.red == Red(t) && (p in nodes || p == leaf)
      ensures !c.Top? ==> p.parent == c.n && c.n in nodes && c.sib.Node? && c.sib.n in nodes
                          && c.sib.n.red == c.sib.red
      ensures !c.Top? ==> (p == p.parent.left <==> c.InLeft?)
      ensures c.InLeft? ==> c.n.right == c.sib.n
      ensures c.InRight? ==> c.n.left == c.sib.n
    {
      LookHere(c, t);
      if !c.Top? {
        SiblingIsNode(c, t);
        Look(c, t);
      }
    }

    /** The second half of a round on the left: the sibling is black. */
    method BlackSiblingLeft(p: Entry, w0: Entry, ghost c: Ctx<Entry>, ghost t: Tree<Entry>)
      returns (p': Entry, ghost c': Ctx<Entry>, ghost t': Tree<Entry>)
      requires Short(p, c, t) && !Red(t) && c.InLeft? && c.sib.Node? && !c.sib.red && w0 == c.sib.n
      modifies this`root, nodes`left, nodes`right, nodes`parent, nodes`red
      ensures Short(p', c', t') && DeleteStep(c, t, c', t') && (c.red ==> Settled(c', t'))
    {
      var w := w0;
      ghost var up, a, d := c.up, c.sib.left, c.sib.right;
      ShortView(p, c, t);
      LookSibling(c, t);
      if !w.left.red && !w.right.red {
        BlackNephewsLeft(up, c.n, c.red, a, w, d, t);
        p' := p.parent;
        DarkenLeft(p', w, up, c.red, a, d, t);
        c', t' := up, Node(t, c.n, c.red, Node(a, w, true, d));
      } else {
        ghost var s := c.sib;
        if !w.right.red {
          NearNephewLeft(up, c.n, c.red, a.left, a.n, a.right, w, d, t);
          var z := w.left;
          TurnNearLeft(w, z, up, c.n, c.red, a.left, a.right, d, t);
          s := Node(a.left, a.n, false, Node(a.right, w, true, d));
          ShortView(p, InLeft(up, c.n, c.red, s), t);
          w := p.parent.right;
          LookSibling(InLeft(up, c.n, c.red, s), t);
        }
        FarNephewLeft(up, c.n, c.red, s.left, s.n, s.right, t);
        TurnFarLeft(p.parent, w, w.right, up, c.red, s.left, s.right, t);
        c', t' := Top, Plug(up, Node(Node(t, c.n, false, s.left), s.n, c.red, s.right.(red := false)));
        LookHere(c', t');
        p' := root;
      }
    }

    method BlackSiblingRight(p: Entry, w0: Entry, ghost c: Ctx<Entry>, ghost t: Tree<Entry>)
      returns (p': Entry, ghost c': Ctx<Entry>, ghost t': Tree<Entry>)
      requires Short(p, c, t) && !Red(t) && c.InRight? && c.sib.Node? && !c.sib.red && w0 == c.sib.n
      modifies this`root, nodes`left, nodes`right, nodes`parent, nodes`red
      ensures Short(p', c', t') && DeleteStep(c, t, c', t') && (c.red ==> Settled(c', t'))
    {
      var w := w0;
      ghost var up, d, a := c.up, c.sib.left, c.sib.right;
      ShortView(p, c, t);
      LookSibling(c, t);
      if !w.left.red && !w.right.red {
        BlackNephewsRight(up, c.n, c.red, d, w, a, t);
        p' := p.parent;
        DarkenRight(p', w, up, c.red, d, a, t);
        c', t' := up, Node(Node(d, w, true, a), c.n, c.red, t);
      } else {
        ghost var s := c.sib;
        if !w.left.red {
          NearNephewRight(up, c.n, c.red, d, w, a.left, a.n, a.right, t);
          var z := w.right;
          TurnNearRight(w, z, up, c.n, c.red, d, a.left, a.right, t);
          s := Node(Node(d, w, true, a.left), a.n, false, a.right);
          ShortView(p, InRight(up, c.n, c.red, s), t);
          w := p.parent.left;
          LookSibling(InRight(up, c.n, c.red, s), t);
        }
        FarNephewRight(up, c.n, c.red, s.left, s.n, s.right, t);
        TurnFarRight(p.parent, w, w.left, up, c.red, s.left, s.right, t);
        c', t' := Top, Plug(up, Node(s.left.(red := false), s.n, c.red, Node(s.right, c.n, false, t)));
        LookHere(c', t');
        p' := root;
      }
    }

    /** One round of the loop when the short subtree is a left child. */
    method DeleteLeft(p: Entry, ghost c: Ctx<Entry>, ghost t: Tree<Entry>)
      returns (p': Entry, ghost c': Ctx<Entry>, ghost t': Tree<Entry>)
      requires Short(p, c, t) && !Red(t) && c.InLeft?
      modifies this`root, nodes`left, nodes`right, nodes`parent, nodes`red
      ensures Short(p', c', t') && DeleteStep(c, t, c', t')
    {
      ShortView(p, c, t);
      SiblingIsNode(c, t);
      var w := p.parent.right;
      ghost var c1 := c;
      if w.red {
        ghost var s := c.sib;
        RedSiblingLeft(c.up, c.n, c.red, s.left, s.n, s.right, t);
        TurnRedSiblingLeft(p.parent, w, c.up, c.red, s.left, s.right, t);
        c1 := InLeft(InLeft(c.up, w, false, s.right), c.n, true, s.left);
        ShortView(p, c1, t);
        w := p.parent.right;
      }
      p', c', t' := BlackSiblingLeft(p, w, c1, t);
    }

    /** One round of the loop when the short subtree is a right child. */
    method DeleteRight(p: Entry, ghost c: Ctx<Entry>, ghost t: Tree<Entry>)
      returns (p': Entry, ghost c': Ctx<Entry>, ghost t': Tree<Entry>)
      requires Short(p, c, t) && !Red(t) && c.InRight?
      modifies this`root, nodes`left, nodes`right, nodes`parent, nodes`red
      ensures Short(p', c', t') && DeleteStep(c, t, c', t')
    {
      ShortView(p, c, t);
      SiblingIsNode(c, t);
      var w := p.parent.left;
      ghost var c1 := c;
      if w.red {
        ghost var s := c.sib;
        RedSiblingRight(c.up, c.n, c.red, s.left, s.n, s.right, t);
        TurnRedSiblingRight(p.parent, w, c.up, c.red, s.left, s.right, t);
        c1 := InRight(InRight(c.up, w, false, s.left), c.n, true, s.right);
        ShortView(p, c1, t);
        w := p.parent.left;
      }
      p', c', t' := BlackSiblingRight(p, w, c1, t);
    }

    /** Restores the colour rules around a subtree that lost a black node. */
    method DeleteFixup(start: Entry, ghost c0: Ctx<Entry>, ghost t0: Tree<Entry>, ghost order: seq<Entry>)
      returns (ghost whole: Tree<Entry>)
      requires Short(start, c0, t0) && order == Inorder(Plug(c0, t0))
      modifies this`root, nodes`left, nodes`right, nodes`parent, nodes`red, leaf`red
      ensures Seen(Top, whole) && RedBlack(whole) && Inorder(whole) == order
    {
      hide Seen, Deleting;
      var p := start;
      ghost var c, t := c0, t0;
      ShortView(p, c, t);
      while p != root && !p.red
        invariant Short(p, c, t) && Inorder(Plug(c, t)) == order
        invariant p != root && !p.red <==> !Settled(c, t)
        decreases if Settled(c, t) then 0 else Depth(c) + 1
      {
        ShortView(p, c, t);
        if p == p.parent.left {
          p, c, t := DeleteLeft(p, c, t);
        } else {
          p, c, t := DeleteRight(p, c, t);
        }
        ShortView(p, c, t);
      }
      ShortView(p, c, t);
      whole := DeleteFinish(p, c, t);
    }

    method SetShortColor(p: Entry, ghost c: Ctx<Entry>, ghost t: Tree<Entry>)
      requires Seen(c, t) && p == Ptr(t, leaf)
      modifies p`red
      ensures Seen(c, Blacken(t))
    {
      LookHere(c, t);
      p.red := false;
      if t.Node? {
        PaintRoot(t, false);
        assert Mem() == old(Mem())[p := old(Mem())[p].(red := false)];
        PaintAt(old(Mem()), Mem(), root, leaf, c, t, p, false);
      } else {
        assert Mem() == old(Mem());
      }
    }

    /** The last statement of the deletion: the node at the hole, or the sentinel, becomes black. */
    method DeleteFinish(p: Entry, ghost c: Ctx<Entry>, ghost t: Tree<Entry>) returns (ghost whole: Tree<Entry>)
      requires Short(p, c, t) && Settled(c, t)
      modifies p`red
      ensures Seen(Top, whole) && RedBlack(whole) && Inorder(whole) == Inorder(Plug(c, t))
    {
      DeleteDone(c, t);
      ShortView(p, c, t);
      SetShortColor(p, c, t);
      UpAll(Mem(), root, leaf, c, Blacken(t));
      whole := Plug(c, Blacken(t));
    }

    // ---------------------------------------------------------------- taking a node out

    /** The parent of `node` points to `p` instead, and `p` to that parent. */
    method ReplaceChild(node: Entry, p: Entry)
      requires leaf !in nodes && node in nodes && node.parent in nodes - {node, p}
      requires p == leaf || p in nodes - {node}
      modifies nodes`left, nodes`right, p`parent
      ensures forall n <- nodes ::
                n.left == (if n == node.parent && old(node.parent.left) == node then p else old(n.left))
      ensures forall n <- nodes ::
                n.right == (if n == node.parent && old(node.parent.left) != node then p else old(n.right))
      ensures p.parent == node.parent && node.parent == old(node.parent)
    {
      if node == node.parent.left {
        node.parent.left := p;
      } else {
        node.parent.right := p;
      }
      p.parent := node.parent;
    }

    /** A node with at most one child: `p` takes its place below the parent. */
    method SpliceBelow(node: Entry, p: Entry, ghost c: Ctx<Entry>, ghost l: Tree<Entry>, ghost red: bool,
        ghost r: Tree<Entry>)
      requires Seen(c, Node(l, node, red, r)) && (l.Leaf? || r.Leaf?) && !c.Top?
      requires p == Ptr(if l.Leaf? then r else l, leaf)
      modifies this`nodes, nodes`left, nodes`right, p`parent
      ensures nodes == old(nodes) - {node} && p.parent == c.n
      ensures Seen(c, if l.Leaf? then r else l)
    {
      hide At, SplicedOne, Apart, CtxApart, Linked, CtxLinked;
      ghost var m := Mem();
      SpliceView(c, l, node, red, r, p);
      ReplaceChild(node, p);
      nodes := nodes - {node};
      SawReplaced(node, p, c, if l.Leaf? then r else l);
      SpliceOne(m, Mem(), root, root, leaf, c, l, node, red, r);
    }

    /** The fields after `p` replaced `node` below `c`. */
    twostate predicate Replaced(node: Entry, new p: Entry, new c: Ctx<Entry>)
      requires !c.Top?
      reads this`nodes, nodes`left, nodes`right, nodes`parent, nodes`red
    {
      && nodes == old(nodes) - {node}
      && (forall n <- nodes :: n.left == (if n == c.n && c.InLeft? then p else old(n.left)))
      && (forall n <- nodes :: n.right == (if n == c.n && c.InRight? then p else old(n.right)))
      && (forall n <- nodes :: n.parent == (if n == p then c.n else old(n.parent)))
      && (forall n <- nodes :: n.red == old(n.red))
    }

    twostate lemma SawReplaced(node: Entry, new p: Entry, new c: Ctx<Entry>, new k: Tree<Entry>)
      requires old(Filled(nodes)) && root == old(root) && node in old(nodes) && leaf !in old(nodes)
      requires !c.Top? && c.n in nodes && p == Ptr(k, leaf) && (k.Node? ==> p in nodes - {c.n})
      requires Replaced(node, p, c)
      ensures Filled(nodes) && SplicedOne(old(Mem()), Mem(), root, root, leaf, c, node, k)
    {
    }

    lemma SpliceView(c: Ctx<Entry>, l: Tree<Entry>, node: Entry, red: bool, r: Tree<Entry>, p: Entry)
      requires Seen(c, Node(l, node, red, r)) && (l.Leaf? || r.Leaf?) && !c.Top?
      requires p == Ptr(if l.Leaf? then r else l, leaf)
      ensures leaf !in nodes && node in nodes && node.parent in nodes - {node, p} && (p == leaf || p in nodes - {node})
      ensures node.parent == c.n
              && (node.parent.left == node <==> c.InLeft?) && (if l.Leaf? then r else l).Node? == (p != leaf)
    {
      var k := if l.Leaf? then r else l;
      Look(c, Node(l, node, red, r));
      LookHere(c, Node(l, node, red, r));
      assert k.Node? ==> k.n in Nodes(Node(l, node, red, r)) && k.n != c.n && k.n != node;
    }

    /** The root has at most one child: that child becomes the root and turns black. */
    method SpliceRoot(node: Entry, p: Entry, ghost l: Tree<Entry>, ghost red: bool, ghost r: Tree<Entry>)
      requires Seen(Top, Node(l, node, red, r)) && (l.Leaf? || r.Leaf?)
      requires p == Ptr(if l.Leaf? then r else l, leaf)
      modifies this`nodes, this`root, p`red
      ensures nodes == old(nodes) - {node}
      ensures Seen(Top, Blacken(if l.Leaf? then r else l))
    {
      ghost var k := if l.Leaf? then r else l;
      root := p;
      nodes := nodes - {node};
      SpliceOne(old(Mem()), Mem(), old(root), root, leaf, Top, l, node, red, r);
      SetShortColor(p, Top, k);
    }

    // ---------------------------------------------------------------- the successor takes over

    /** The successor leaves its place below `heir.parent` to its right subtree. */
    method LeavePlace(node: Entry, heir: Entry, p: Entry)
      requires leaf !in nodes && heir in nodes && heir.parent in nodes - {heir, p} && heir != p
      requires (heir.parent == node || heir.parent.left == heir) && (heir.parent == node ==> node.left != heir)
      modifies nodes`left, nodes`right, p`parent
      ensures forall n <- nodes :: n.left == (if n == old(heir.parent) && n != node then p else old(n.left))
      ensures forall n <- nodes :: n.right == (if n == old(heir.parent) && n == node then p else old(n.right))
      ensures p.parent == (if heir.parent == node then heir else heir.parent)
    {
      if heir == heir.parent.left {
        heir.parent.left := p;
      } else {
        heir.parent.right := p;
      }
      if heir.parent == node {
        p.parent := heir;
      } else {
        p.parent := heir.parent;
      }
    }

    /** The successor takes over the links and the colour of the node. */
    method TakePlace(node: Entry, heir: Entry)
      requires leaf !in nodes && node in nodes && heir in nodes - {node}
      requires node.left in nodes - {node, heir}
              && (node.right == leaf || node.right in nodes - {node, heir, node.left})
      requires node != root ==> node.parent in nodes - {node, heir, node.left, node.right}
      modifies this`root, nodes`left, nodes`right, nodes`parent, nodes`red
      ensures root == (if node == old(root) then heir else old(root))
      ensures forall n <- nodes - {node} :: n.left ==
                (if n == heir then old(node.left)
                 else if n == old(node.parent) && node != old(root)
                   && old(node.parent.left) == node then heir else old(n.left))
      ensures forall n <- nodes - {node} :: n.right ==
                (if n == heir then old(node.right)
                 else if n == old(node.parent) && node != old(root)
                   && old(node.parent.left) != node then heir else old(n.right))
      ensures forall n <- nodes - {node} :: n.parent ==
                (if n == heir then old(node.parent) else if n == old(node.left) || n == old(node.right) then heir
                  else old(n.parent))
      ensures forall n <- nodes - {node} :: n.red == (if n == heir then old(node.red) else old(n.red))
    {
      heir.left := node.left;
      heir.right := node.right;
      heir.parent := node.parent;
      heir.red := node.red;
      if node == root {
        root := heir;
      } else if node == node.parent.left {
        node.parent.left := heir;
      } else {
        node.parent.right := heir;
      }
      if heir.left != leaf {
        heir.left.parent := heir;
      }
      if heir.right != leaf {
        heir.right.parent := heir;
      }
    }

    /** What the code relies on when the successor of a node takes its place. */
    ghost predicate MayTransplant(x: Move)
      reads this`root, this`nodes, nodes`left, nodes`right, nodes`parent
    {
      var node, heir, p := x.node, x.heir, x.rest;
      && leaf !in nodes && node in nodes && heir in nodes - {node} && node.left in nodes - {node, heir}
      && heir.parent in nodes - {heir, p, node.left}
      && (p == leaf || p in nodes - {node, heir, node.left})
      && (if heir.parent == node then node.right == heir
          else node.right in nodes - {node, heir, node.left, p} && heir.parent.left == heir)
      && (node != root ==> node.parent in nodes - {node, heir, node.left, p, node.right, heir.parent})
    }

    /** The fields after the transplant, in terms of the fields before. */
    twostate predicate Transplanted(x: Move)
      requires old(MayTransplant(x)) && old(nodes) == nodes
      reads this`root, this`nodes, nodes`left, nodes`right, nodes`parent, nodes`red
    {
      var node, heir, p := x.node, x.heir, x.rest;
      var q, y := old(heir.parent), old(node.right);
      && root == (if node == old(root) then heir else old(root))
      && (forall n <- nodes - {node} :: n.left ==
            (if n == heir then old(node.left) else if n == q && q != node then p
             else if n == old(node.parent) && node != old(root)
               && old(node.parent.left) == node then heir else old(n.left)))
      && (forall n <- nodes - {node} :: n.right ==
            (if n == heir then (if q == node then p else y)
             else if n == old(node.parent) && node != old(root)
               && old(node.parent.left) != node then heir else old(n.right)))
      && (forall n <- nodes - {node} :: n.parent ==
            (if n == heir then old(node.parent) else if n == old(node.left) then heir
             else if n == p then (if q == node then heir else q)
             else if n == y then heir else old(n.parent)))
      && (forall n <- nodes - {node} :: n.red == (if n == heir then old(node.red) else old(n.red)))
    }

    /** The successor leaves its place to `p` and takes the place of `node`. */
    method Transplant(node: Entry, heir: Entry, p: Entry)
      requires MayTransplant(Move(node, heir, p))
      modifies this`root, nodes`left, nodes`right, nodes`parent, nodes`red, p`parent
      ensures Transplanted(Move(node, heir, p))
      ensures p.parent == if old(heir.parent) == node then heir else old(heir.parent)
    {
      LeavePlace(node, heir, p);
      TakePlace(node, heir);
    }

    lemma MayTransplantIf(node: Entry, heir: Entry, p: Entry, c: Ctx<Entry>, l: Tree<Entry>, red: bool,
        cs: Ctx<Entry>, k: Tree<Entry>)
      requires Filled(nodes) && Successor(Mem(), root, leaf, c, l, node, red, cs, heir, k) && p == Ptr(k, leaf)
      ensures MayTransplant(Move(node, heir, p)) && node in nodes && heir in nodes
      ensures (k.Leaf? ==> p == leaf) && heir.parent == if cs.Top? then node else cs.n
      ensures !cs.Top? ==> cs.n != node
    {
    }

    twostate lemma SawTransplant(x: Move, new c: Ctx<Entry>, new l: Tree<Entry>, new red: bool, new cs: Ctx<Entry>,
        new k: Tree<Entry>)
      requires nodes == old(nodes) && old(Filled(nodes)) && old(MayTransplant(x)) && Transplanted(x)
      requires Successor(old(Mem()), old(root), leaf, c, l, x.node, red, cs, x.heir, k) && x.rest == Ptr(k, leaf)
      requires old(x.heir.right) == x.rest
      ensures Filled(nodes - {x.node})
      ensures SplicedTwo(old(Mem()), Snapshot(nodes - {x.node}), old(root), root, leaf, c, l, x.node, cs, x.heir, k)
    {
    }

    /** The transplant as a change of the memory. */
    method TransplantAt(node: Entry, heir: Entry, p: Entry, ghost c: Ctx<Entry>, ghost l: Tree<Entry>, ghost red: bool,
                        ghost cs: Ctx<Entry>, ghost k: Tree<Entry>)
      requires Filled(nodes) && Successor(Mem(), root, leaf, c, l, node, red, cs, heir, k)
      requires p == heir.right && p == Ptr(k, leaf)
      modifies this`root, this`nodes, nodes`left, nodes`right, nodes`parent, nodes`red, p`parent
      ensures nodes == old(nodes) - {node} && Filled(nodes)
      ensures SplicedTwo(old(Mem()), Mem(), old(root), root, leaf, c, l, node, cs, heir, k)
      ensures k.Leaf? ==> leaf.parent == if cs.Top? then heir else cs.n
    {
      hide Successor, SplicedTwo, MayTransplant, Transplanted, Filled, Snapshot;
      MayTransplantIf(node, heir, p, c, l, red, cs, k);
      Transplant(node, heir, p);
      SawTransplant(Move(node, heir, p), c, l, red, cs, k);
      nodes := nodes - {node};
    }

    /** A node with two children: its successor takes its place. */
    method SpliceSuccessor(node: Entry, heir: Entry, p: Entry, ghost c: Ctx<Entry>, ghost l: Tree<Entry>,
        ghost red: bool,
                           ghost cs: Ctx<Entry>, ghost sr: bool, ghost k: Tree<Entry>, ghost d: Ctx<Entry>)
                               returns (ghost d': Ctx<Entry>)
      requires d == Nest(cs, InRight(c, node, red, l)) && Spine(cs) && l.Node?
      requires Seen(d, Node(Leaf, heir, sr, k)) && p == heir.right
      modifies this`root, this`nodes, nodes`left, nodes`right, nodes`parent, nodes`red, p`parent
      ensures d' == Nest(cs, InRight(c, heir, red, l)) && nodes == old(nodes) - {node}
      ensures Seen(d', k) && (k.Leaf? ==> leaf.parent == d'.n) && p == Ptr(k, leaf)
    {
      hide At, SplicedTwo, Successor;
      LookHere(d, Node(Leaf, heir, sr, k));
      FindSuccessor(Mem(), root, leaf, c, l, node, red, cs, heir, sr, k, d);
      TransplantAt(node, heir, p, c, l, red, cs, k);
      d' := Nest(cs, InRight(c, heir, red, l));
      SpliceTwo(old(Mem()), Mem(), old(root), root, leaf, c, l, node, red, cs, heir, sr, k, d, d');
    }

    /** The next node in order below a node with a right child. */
    method FindHeir(node: Entry, ghost c: Ctx<Entry>, ghost l: Tree<Entry>, ghost red: bool, ghost r: Tree<Entry>)
      returns (heir: Entry, ghost cs: Ctx<Entry>, ghost sr: bool, ghost k: Tree<Entry>)
      requires Seen(c, Node(l, node, red, r)) && r.Node?
      ensures Spine(cs) && Seen(Nest(cs, InRight(c, node, red, l)), Node(Leaf, heir, sr, k))
      ensures Plug(Nest(cs, InRight(c, node, red, l)), Node(Leaf, heir, sr, k)) == Plug(c, Node(l, node, red, r))
      ensures heir in nodes && heir.red == sr
    {
      ghost var d := InRight(c, node, red, l);
      ghost var t := r;
      LookHere(c, Node(l, node, red, r));
      Down(Mem(), root, leaf, c, Node(l, node, red, r));
      heir, cs := node.right, Top;
      LookHere(d, t);
      while heir.left != leaf
        invariant Spine(cs) && Seen(Nest(cs, d), t) && t.Node? && heir == t.n
        invariant heir in nodes && heir.left == Ptr(t.left, leaf)
        invariant Plug(Nest(cs, d), t) == Plug(c, Node(l, node, red, r))
        decreases t
      {
        LookHere(Nest(cs, d), t);
        Down(Mem(), root, leaf, Nest(cs, d), t);
        heir, cs, t := heir.left, InLeft(cs, t.n, t.red, t.right), t.left;
        LookHere(Nest(cs, d), t);
      }
      LookHere(Nest(cs, d), t);
      Down(Mem(), root, leaf, Nest(cs, d), t);
      LookHere(InLeft(Nest(cs, d), t.n, t.red, t.right), t.left);
      sr, k := t.red, t.right;
    }

    /** After a node left the place above `t`: nothing to repair if it was red. */
    method Repair(p: Entry, color: bool, ghost c: Ctx<Entry>, ghost t: Tree<Entry>) returns (ghost whole: Tree<Entry>)
      requires Seen(c, t) && p == Ptr(t, leaf) && !c.Top? && (t.Leaf? ==> leaf.parent == c.n)
      requires if color then RedBlack(Plug(c, t)) else Deleting(c, t)
      modifies this`root, nodes`left, nodes`right, nodes`parent, nodes`red, leaf`red
      ensures Seen(Top, whole) && RedBlack(whole) && Inorder(whole) == Inorder(Plug(c, t))
    {
      hide Seen, RedBlack, Deleting;
      if color {
        WholeSeen(c, t);
        whole := Plug(c, t);
        return;
      }
      whole := DeleteFixup(p, c, t, Inorder(Plug(c, t)));
    }

    lemma WholeSeen(c: Ctx<Entry>, t: Tree<Entry>)
      requires Seen(c, t)
      ensures Seen(Top, Plug(c, t))
    {
      UpAll(Mem(), root, leaf, c, t);
    }

    /** Takes out a node with at most one child. */
    method RemoveSingle(node: Entry, p: Entry, ghost c: Ctx<Entry>, ghost l: Tree<Entry>, ghost red: bool,
        ghost r: Tree<Entry>)
      returns (ghost whole: Tree<Entry>)
      requires Seen(c, Node(l, node, red, r)) && RedBlack(Plug(c, Node(l, node, red, r)))
      requires (l.Leaf? || r.Leaf?) && p == Ptr(if l.Leaf? then r else l, leaf)
      modifies this`root, this`nodes, nodes`left, nodes`right, nodes`parent, nodes`red, p`parent, p`red, leaf`red
      ensures nodes == old(nodes) - {node} && Seen(Top, whole) && RedBlack(whole)
      ensures Inorder(whole) == Inorder(Plug(c, if l.Leaf? then r else l))
    {
      hide Seen, RedBlack, Deleting;
      ghost var k := if l.Leaf? then r else l;
      SpliceOneColors(c, l, node, red, r);
      LookHere(c, Node(l, node, red, r));
      if node == root {
        SpliceRoot(node, p, l, red, r);
        whole := Blacken(k);
        return;
      }
      var color := node.red;
      SpliceBelow(node, p, c, l, red, r);
      whole := Repair(p, color, c, k);
    }

    /** Takes out a node with two children. */
    method RemoveDouble(node: Entry, ghost c: Ctx<Entry>, ghost l: Tree<Entry>, ghost red: bool, ghost r: Tree<Entry>)
      returns (ghost whole: Tree<Entry>)
      requires Seen(c, Node(l, node, red, r)) && RedBlack(Plug(c, Node(l, node, red, r))) && l.Node? && r.Node?
      modifies this`root, this`nodes, nodes`left, nodes`right, nodes`parent, nodes`red, leaf`parent, leaf`red
      ensures nodes == old(nodes) - {node} && Seen(Top, whole) && RedBlack(whole)
      ensures var order := Inorder(Plug(c, Node(l, node, red, r)));
              var i := |Before(c) + Inorder(l)|;
              i < |order| && order[i] == node && Inorder(whole) == order[..i] + order[i + 1..]
    {
      hide Seen, RedBlack, Deleting;
      ghost var cs, sr, k;
      var t;
      t, cs, sr, k := FindHeir(node, c, l, red, r);
      ghost var d := Nest(cs, InRight(c, node, red, l));
      LookHere(d, Node(Leaf, t, sr, k));
      var p := t.right;
      var color := t.red;
      SpliceTwoColors(cs, InRight(c, node, red, l), InRight(c, t, red, l), t, sr, k);
      SpliceTwoOrder(c, l, node, red, cs, t, sr, k);
      ghost var d' := SpliceSuccessor(node, t, p, c, l, red, cs, sr, k, d);
      whole := Repair(p, color, d', k);
    }

    /** Takes a node out of the tree; it stays linked as it was, but nothing leads to it. */
    method Remove(node: Entry, ghost c: Ctx<Entry>, ghost t: Tree<Entry>) returns (ghost i: nat)
      requires Seen(c, t) && Plug(c, t) == shape && RedBlack(shape) && t.Node? && t.n == node
      modifies this`root, this`nodes, this`shape, leaf`parent, leaf`red
      modifies nodes`left, nodes`right, nodes`parent, nodes`red
      ensures nodes == old(nodes) - {node} && Seen(Top, shape) && RedBlack(shape)
      ensures var order := old(Inorder(shape));
              i < |order| && order[i] == node && Inorder(shape) == order[..i] + order[i + 1..]
    {
      hide Seen, RedBlack, Inorder, Plug, Before;
      ghost var l, red, r := t.left, t.red, t.right;
      ChildrenSeen(c, t);
      i := |Before(c) + Inorder(l)|;
      if node.left == leaf {
        SpliceOneOrder(c, l, node, red, r);
        shape := RemoveSingle(node, node.right, c, l, red, r);
      } else if node.right == leaf {
        SpliceOneOrder(c, l, node, red, r);
        shape := RemoveSingle(node, node.left, c, l, red, r);
      } else {
        shape := RemoveDouble(node, c, l, red, r);
      }
    }

    lemma ChildrenSeen(c: Ctx<Entry>, t: Tree<Entry>)
      requires Seen(c, t) && t.Node?
      ensures t.n in nodes && t.n.left == Ptr(t.left, leaf) && t.n.right == Ptr(t.right, leaf)
      ensures t.n.left in nodes + {leaf} && t.n.right in nodes + {leaf}
      ensures (t.left.Leaf? <==> t.n.left == leaf) && (t.right.Leaf? <==> t.n.right == leaf)
    {
      LookHere(c, t);
      Down(Mem(), root, leaf, c, t);
      LookHere(InLeft(c, t.n, t.red, t.right), t.left);
      LookHere(InRight(c, t.n, t.red, t.left), t.right);
    }

    lemma SortedWithout(order: seq<Entry>, i: nat, o: seq<Entry>)
      requires i < |order| && o == order[..i] + order[i + 1..] && Sorted(order)
      ensures Sorted(o)
    {
      assert forall k | 0 <= k < |o| :: o[k] == order[if k < i then k else k + 1];
    }

    lemma PairsWithout(order: seq<Entry>, i: nat)
      requires i < |order|
      ensures Dropped(PairsOf(order), PairsOf(order[..i] + order[i + 1..]), i, order[i].key)
    {
      PairsAt(order);
      PairsConcat(order[..i], order[i + 1..]);
      PairsAt(order[..i]);
      PairsAt(order[i + 1..]);
      var w := PairsOf(order);
      assert PairsOf(order[..i]) == w[..i];
      assert PairsOf(order[i + 1..]) == w[i + 1..];
    }

    lemma RestAt(order: seq<Entry>, i: nat, o: seq<Entry>)
      requires i < |order| && o == order[..i] + order[i + 1..]
      ensures |o| == |order| - 1
      ensures forall k | 0 <= k < i :: o[k] == order[k]
      ensures forall k {:trigger o[k]} | i <= k < |o| :: o[k] == order[k + 1]
    {
    }

    lemma NotInRest(order: seq<Entry>, i: nat, o: seq<Entry>, s: set<Entry>)
      requires i < |order| && ThreadedWithout(order, i, s) && o == order[..i] + order[i + 1..]
      ensures forall k | 0 <= k < |o| :: o[k] != order[i]
    {
      forall k | 0 <= k < |o| ensures o[k] != order[i] {
        assert o[k] == if k < i then order[k] else order[k + 1];
      }
    }

    lemma ThreadedFewer(o: seq<Entry>, s: set<Entry>, x: Entry)
      requires Threaded(o, s) && forall k | 0 <= k < |o| :: o[k] != x
      ensures Threaded(o, s - {x})
    {
    }

    /** The list without the node at place `i`. */
    lemma ThreadedShorter(order: seq<Entry>, i: nat, o: seq<Entry>, s: set<Entry>)
      requires i < |order| && ThreadedWithout(order, i, s) && o == order[..i] + order[i + 1..]
      ensures Threaded(o, s - {order[i]})
    {
      hide Threaded, ThreadedWithout;
      NotInRest(order, i, o, s);
      RestAt(order, i, o);
      ThreadedRemove(order, i, o, s);
      ThreadedFewer(o, s, order[i]);
    }

    /** Unlinks a node from list and tree and releases its value. */
    method Discard(node: Entry, ghost c: Ctx<Entry>, ghost t: Tree<Entry>, ghost order: seq<Entry>)
        returns (ghost i: nat)
      requires Valid() && Seen(c, t) && Plug(c, t) == shape && t.Node? && t.n == node && node in nodes
      requires order == Inorder(shape)
      modifies this, nodes, leaf`parent, leaf`red
      ensures Valid() && nodes == old(nodes) - {node} && (forall n <- old(nodes) :: n.value == old(n.value))
      ensures i < |order| && order[i] == node && Inorder(shape) == order[..i] + order[i + 1..]
      ensures freed == if vfree then old(freed) + [node.value] else old(freed)
      ensures curr == if old(curr) == node then Nth(order, i + 1) else old(curr)
    {
      hide Seen, RedBlack, Threaded, ThreadedWithout, Sorted, Inorder, Plug, Chained;
      i := NodeAt(node);
      NodesInOrder();
      count := count - 1;
      Unthread(node, order, i);
      if vfree {
        freed := freed + [node.value];
      }
      ghost var j := Remove(node, c, t);
      ThreadedShorter(order, i, Inorder(shape), old(nodes));
      SortedWithout(order, i, Inorder(shape));
    }

    /** Deletes one pair with that key, if there is one; the cursor steps off the node. */
    method Del(key: Key) returns (ret: int, ghost i: nat)
      requires Valid()
      modifies this, nodes, leaf`parent, leaf`red
      ensures Valid() && nodes <= old(nodes)
      ensures ret == if HasKey(old(Contents()), key) then 0 else -1
      ensures ret == 0 ==> Dropped(old(Contents()), Contents(), i, key)
                           && freed == if vfree then old(freed) + [old(Contents())[i].1] else old(freed)
      ensures ret == 0 ==> i < |old(Inorder(shape))| && var order := old(Inorder(shape));
                           curr == if old(curr) == order[i] then Nth(order, i + 1) else old(curr)
      ensures ret != 0 ==> Contents() == old(Contents()) && freed == old(freed) && curr == old(curr)
    {
      hide Seen, RedBlack, Threaded, Sorted, Inorder;
      KeyInContents(key);
      NodesInOrder();
      ghost var order := Inorder(shape);
      PairsAt(order);
      i := 0;
      ghost var c, t;
      var node;
      node, c, t := Search(key);
      if node == null {
        ret := -1;
        assert PairsOf(order) == old(PairsOf(order));
        return;
      }
      i := Discard(node, c, t, order);
      PairsWithout(order, i);
      assert PairsOf(order) == old(PairsOf(order)) by { PairsAt(order); }
      ret := 0;
    }

    // ---------------------------------------------------------------- looking things up

    /** The value of some pair with that key, or the null pointer. */
    method Find(key: Key) returns (value: Pointer, ghost i: nat)
      requires Valid()
      ensures HasKey(Contents(), key) ==> i < |Contents()| && Contents()[i] == (key, value)
      ensures !HasKey(Contents(), key) ==> value == NULL
    {
      hide Seen, RedBlack, Threaded, Sorted, Inorder;
      KeyInContents(key);
      NodesInOrder();
      value, i := NULL, 0;
      ghost var c, t;
      var node;
      node, c, t := Search(key);
      KeyInContents(key);
      PairsAt(Inorder(shape));
      if node != null {
        value := node.value;
        i := NodeAt(node);
      }
    }

    method Count() returns (n: nat)
      requires Valid()
      ensures n == |Contents()|
    {
      PairsAt(Inorder(shape));
      n := count;
    }

    /** No descent is longer than twice the logarithm of the number of pairs. */
    lemma DescentBound(c: Ctx<Entry>, t: Tree<Entry>)
      requires Valid() && Plug(c, t) == shape
      ensures Pow2(Depth(c) / 2) <= |Contents()| + 1
    {
      HeightBound(shape);
      DepthBound(c, t);
      Pow2Monotone(Depth(c) / 2, Height(shape) / 2);
      InorderNodes(shape);
      PairsAt(Inorder(shape));
    }

    // ---------------------------------------------------------------- the cursor

    /** The cursor stands on the pair at place `i`. */
    ghost predicate CursorAt(i: nat)
      reads this`shape, this`curr
    {
      i < |Inorder(shape)| && curr == Inorder(shape)[i]
    }

    lemma CursorExists() returns (i: nat)
      requires Valid() && curr != null
      ensures CursorAt(i)
    {
      i := NodeAt(curr);
    }

    /** The key and value under the cursor. */
    lemma UnderCursor(i: nat)
      requires Valid() && CursorAt(i)
      ensures i < |Contents()| && Contents()[i] == (curr.key, curr.value) && curr in nodes
      ensures curr.next == Nth(Inorder(shape), i + 1) && curr.prev == Nth(Inorder(shape), i - 1)
    {
      PairsAt(Inorder(shape));
    }

    /** Steps to the first pair; `key` is the key written for the caller, if any. */
    method Head() returns (value: Pointer, key: Option<Key>)
      requires Valid()
      modifies this`curr
      ensures Valid() && if Contents() == [] then curr == old(curr) && value == NULL && key == None
                         else CursorAt(0) && Contents()[0].1 == value && key == Some(Contents()[0].0)
    {
      hide Seen, RedBlack, Sorted, Inorder;
      value, key := NULL, None;
      PairsAt(Inorder(shape));
      if head != null {
        curr := head;
        UnderCursor(0);
        key := Some(curr.key);
        value := curr.value;
      }
    }

    /** Steps to the last pair. */
    method Tail() returns (value: Pointer, key: Option<Key>)
      requires Valid()
      modifies this`curr
      ensures Valid() && if Contents() == [] then curr == old(curr) && value == NULL && key == None
                         else var i := |Contents()| - 1;
                           CursorAt(i) && Contents()[i].1 == value && key == Some(Contents()[i].0)
    {
      hide Seen, RedBlack, Sorted, Inorder, PairsOf;
      value, key := NULL, None;
      PairsAt(Inorder(shape));
      if tail != null {
        curr := tail;
        UnderCursor(|Contents()| - 1);
        key := Some(curr.key);
        value := curr.value;
      }
    }

    /** Steps to the pair behind the cursor; at the end, and without a cursor, it stays. */
    method Next() returns (value: Pointer, key: Option<Key>, ghost i: nat)
      requires Valid()
      modifies this`curr
      ensures Valid() && (old(curr) != null ==> old(CursorAt(i)))
      ensures if old(curr) != null && i + 1 < |Contents()|
              then CursorAt(i + 1) && Contents()[i + 1].1 == value && key == Some(Contents()[i + 1].0)
              else curr == old(curr) && value == NULL && key == None
    {
      hide Seen, RedBlack, Threaded, Sorted;
      value, key, i := NULL, None, 0;
      PairsAt(Inorder(shape));
      if curr != null {
        i := CursorExists();
        UnderCursor(i);
        if curr.next != null {
          NodesInOrder();
          curr := curr.next;
          UnderCursor(i + 1);
          key := Some(curr.key);
          value := curr.value;
        }
      }
    }

    /** Steps to the pair before the cursor. */
    method Prev() returns (value: Pointer, key: Option<Key>, ghost i: nat)
      requires Valid()
      modifies this`curr
      ensures Valid() && (old(curr) != null ==> old(CursorAt(i)))
      ensures if old(curr) != null && 0 < i < |Contents()|
              then CursorAt(i - 1) && Contents()[i - 1].1 == value && key == Some(Contents()[i - 1].0)
              else curr == old(curr) && value == NULL && key == None
    {
      hide Seen, RedBlack, Threaded, Sorted;
      value, key, i := NULL, None, 0;
      PairsAt(Inorder(shape));
      if curr != null {
        i := CursorExists();
        UnderCursor(i);
        if curr.prev != null {
          NodesInOrder();
          curr := curr.prev;
          UnderCursor(i - 1);
          key := Some(curr.key);
          value := curr.value;
        }
      }
    }

    /** The pair at place `i` and the way on, as the list gives them. */
    lemma ListAt(i: nat)
      requires Valid() && i < |Inorder(shape)|
      ensures var order := Inorder(shape);
              |Contents()| == |order| && Contents()[i] == (order[i].key, order[i].value)
                && order[i].next == Nth(order, i + 1)
      ensures Inorder(shape)[i] in nodes
    {
      PairsAt(Inorder(shape));
    }

    lemma NothingReleased()
      ensures AllValues([]) == []
    {
    }

    /** Walks the list and releases the values. */
    method Release(ghost order: seq<Entry>, ghost pairs: Pairs)
      requires head == Nth(order, 0) && |pairs| == |order|
      requires forall k | 0 <= k < |order| :: order[k].next == Nth(order, k + 1) && order[k].value == pairs[k].1
      modifies this`curr, this`freed
      ensures freed == if vfree then old(freed) + AllValues(pairs) else old(freed)
    {
      hide AllValues;
      NothingReleased();
      assert pairs[..0] == [];
      var node := head;
      ghost var i := 0;
      while node != null
        invariant 0 <= i <= |order| && node == Nth(order, i)
        invariant freed == if vfree then old(freed) + AllValues(pairs[..i]) else old(freed)
        decreases |order| - i
      {
        curr := node.next;
        if vfree {
          AllValuesAppend(pairs[..i], pairs[i]);
          assert pairs[..i + 1] == pairs[..i] + [pairs[i]];
          freed := freed + [node.value];
        }
        node := curr;
        i := i + 1;
      }
      assert pairs[..|order|] == pairs;
    }

    /** Releases every value that is left, in key order.  The tree is gone afterwards. */
    method Free()
      requires Valid()
      modifies this`curr, this`freed
      ensures freed == if vfree then old(freed) + AllValues(Contents()) else old(freed)
    {
      hide Seen, RedBlack, Chained, Sorted, Inorder, PairsOf, AllValues;
      ghost var order := Inorder(shape);
      ghost var pairs := Contents();
      PairsAt(order);
      forall k | 0 <= k < |order| ensures pairs[k].1 == order[k].value && order[k].next == Nth(order, k + 1)
        && order[k] in nodes {
        ListAt(k);
      }
      Release(order, pairs);
    }
  }
}
