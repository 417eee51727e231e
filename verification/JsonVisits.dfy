/** The order of the nodes: where in the text a pass begins each of them, and which ones a
    container has taken as its children.

    A text may go on behind its value with a slash string; its node belongs to the finished
    container but is taken by nothing. */
module JsonVisits {
  import opened JsonText
  import opened JsonScan
  import opened JsonPasses
  import opened JsonGrowth

  /** A node begins: at which place, and whether the text was finished before. */
  datatype Visit = Visit(place: int, late: bool)

  /** The nodes a pass begins from `s` on. */
  ghost function Visits(first: bool, data: string, s: Scan): seq<Visit>
    requires Inv(first, data, s)
    decreases |data| + 1 - Base(first, s), Rank(first, data, s), |data| + 1 - s.c.p
  {
    match Step(first, data, s)
    case Go(t) => StepShrinks(first, data, s); Begun(s, t) + Visits(first, data, t)
    case _ => []
  }

  ghost function Begun(s: Scan, t: Scan): seq<Visit> {
    if t.alloc > s.alloc then [Visit(s.c.p, s.c.done)] else []
  }

  /** The turn at which a pass stops. */
  ghost function Last(first: bool, data: string, s: Scan): Scan
    requires Inv(first, data, s)
    decreases |data| + 1 - Base(first, s), Rank(first, data, s), |data| + 1 - s.c.p
  {
    match Step(first, data, s)
    case Go(t) => StepShrinks(first, data, s); Last(first, data, t)
    case _ => s
  }

  // ---------------------------------------------------------------- strings behind the finished value

  /** The string of a finished, outermost container. */
  ghost predicate Stray(s: Scan) {
    s.c.done && TopIs(s, Str) && var p := s.nodes[s.c.top].parent; 0 <= p < |s.nodes| && s.nodes[p].parent < 0
  }

  /** The text is finished once its outermost value is. */
  ghost predicate Finished(s: Scan) {
    s.c.done ==> HasTop(s) && (s.nodes[s.c.top].parent < 0 || Stray(s))
  }

  /** At most one node begins in a step of the first pass, and none behind a stray. */
  ghost predicate Moves(s: Scan, t: Scan) {
    && |s.nodes| <= |t.nodes| <= |s.nodes| + 1 && Finished(t)
    && (Stray(s) ==> Stray(t) && t.c.top == s.c.top && |t.nodes| == |s.nodes|)
    && (Stray(t) && !Stray(s) ==> t.c.top == |s.nodes| < |t.nodes|)
    && (|t.nodes| > |s.nodes| ==> (s.c.done <==> Stray(t)))
  }

  /** As long as the text is not finished. */
  ghost predicate Plain(s: Scan, t: Scan) {
    && |s.nodes| <= |t.nodes| <= |s.nodes| + 1
    && (t.c.done ==> HasTop(t) && t.nodes[t.c.top].parent < 0)
  }

  lemma PlainMoves(s: Scan, t: Scan)
    requires Plain(s, t) && !s.c.done
    ensures Moves(s, t)
  {
  }

  lemma AttachMoves(s: Scan)
    requires HasTop(s) && Family(s.nodes) && !s.c.done && Attach(true, s).Go?
    ensures Plain(s, Attach(true, s).s) && |Attach(true, s).s.nodes| == |s.nodes|
  {
    hide Attach, Family, Adopt;
    ParentOf(s.nodes, s.c.top);
    AttachCases(true, s);
  }

  lemma AtomMoves(s: Scan, kind: Kind, bval: bool, p: int)
    requires Family(s.nodes) && -1 <= s.c.top < |s.nodes| && (s.c.top == -1 || InContainer(s)) && !s.c.done
    requires Atom(true, s.(c := s.c.(seek := false)), kind, bval, p).Go?
    ensures Plain(s, Atom(true, s.(c := s.c.(seek := false)), kind, bval, p).s)
  {
    hide Attach, Atom, Family;
    AtomIs(s, kind, bval, p);
    LeafFamily(s, kind, bval, p);
    AttachMoves(WithLeaf(s, kind, bval, p));
  }

  lemma EndMoves(s: Scan, b: char)
    requires HasTop(s) && Family(s.nodes) && (TopIs(s, Str) || TopIs(s, Object)) && !s.c.done
    requires StringEnd(true, s, b).Go?
    ensures Plain(s, StringEnd(true, s, b).s)
  {
    hide Attach, Family;
    if TopIs(s, Str) {
      EndStrKeeps(true, s);
      AttachMoves(EndStr(true, s).s);
    }
  }

  lemma StringMoves(data: string, s: Scan)
    requires Inv(true, data, s) && s.c.p <= |data| && s.c.str && HasTop(s) && !s.c.done
    requires StringStep(true, data, s).Go?
    ensures Plain(s, StringStep(true, data, s).s)
  {
    hide Family, Escaped, StringEnd;
    var b, p := CharAt(data, s.c.p), s.c.p;
    if s.c.esc || b == '\\' {
      hide Ends;
    } else if b == '"' {
      hide Ends;
      EndMoves(s.(c := s.c.(str := false, p := p + 1)), b);
    } else if s.c.quote && Ends(s, b) {
      EndMoves(s.(c := s.c.(str := false, quote := false)), b);
    }
  }

  /** Behind the finished text only the stray itself is read. */
  lemma LateStringMoves(data: string, s: Scan)
    requires Inv(true, data, s) && s.c.p <= |data| && s.c.str && TopIs(s, Str) && s.c.done
    requires StringStep(true, data, s).Go?
    ensures var t := StringStep(true, data, s).s;
            |t.nodes| == |s.nodes| && t.c.done && t.c.top == s.c.top && TopIs(t, Str)
            && forall k | 0 <= k < |s.nodes| :: t.nodes[k].parent == s.nodes[k].parent
  {
    hide Family, Escaped, Ends;
  }

  lemma SeekMoves(data: string, s: Scan)
    requires Inv(true, data, s) && s.c.p <= |data| && !s.c.str && !s.c.line && !s.c.block && !s.c.done && s.c.seek
    requires SeekStep(true, data, s).Go?
    ensures Plain(s, SeekStep(true, data, s).s)
  {
    hide Family, Attach, ValueStep;
    if CharAt(data, s.c.p) == ']' {
      AttachMoves(s.(c := s.c.(comma := false, seek := false, p := s.c.p + 1)));
    } else if !Space(CharAt(data, s.c.p)) && !s.c.comma && !s.c.colon {
      ValueMoves(data, s);
    }
  }

  lemma NewMoves(s: Scan)
    requires !s.c.done
    ensures NewBare(true, s.(c := s.c.(seek := false))).Go?
    ensures Plain(s, NewBare(true, s.(c := s.c.(seek := false))).s)
  {
  }

  lemma StartMoves(data: string, s: Scan, b: char)
    requires !s.c.done
    ensures NumberStart(true, data, s.(c := s.c.(seek := false)), b).Go?
    ensures Plain(s, NumberStart(true, data, s.(c := s.c.(seek := false)), b).s)
  {
  }

  lemma OpenMoves(data: string, s: Scan, b: char)
    requires !s.c.done && (b == '{' || b == '[' || b == '"')
    ensures ValueStep(true, data, s.(c := s.c.(seek := false)), b).Go?
    ensures Plain(s, ValueStep(true, data, s.(c := s.c.(seek := false)), b).s)
  {
    hide Atom, NewBare, NumberStart, Digit, Reads, CharAt, InContainer;
    if b == '{' {
    } else if b == '[' {
    } else {
    }
  }

  lemma ValueMoves(data: string, s: Scan)
    requires Inv(true, data, s) && s.c.p <= |data| && !s.c.str && !s.c.line && !s.c.block && !s.c.done && s.c.seek
    requires ValueStep(true, data, s.(c := s.c.(seek := false)), CharAt(data, s.c.p)).Go?
    ensures Plain(s, ValueStep(true, data, s.(c := s.c.(seek := false)), CharAt(data, s.c.p)).s)
  {
    hide Family, Attach, Atom, Digit, Reads, NewBare, NumberStart, Plain;
    var b, p := CharAt(data, s.c.p), s.c.p;
    NewMoves(s);
    StartMoves(data, s, b);
    if b == '{' || b == '[' || b == '"' {
      OpenMoves(data, s, b);
    } else if b == 't' && |data| - p >= 3 && Reads(data, p + 1, "rue") {
      AtomMoves(s, Boolean, true, p + 4);
    } else if b == 'f' && |data| - p >= 4 && Reads(data, p + 1, "alse") {
      AtomMoves(s, Boolean, false, p + 5);
    } else if b == 'n' && |data| - p >= 3 && CharAt(data, p + 1) != 'u' && CharAt(data, p + 2) != 'l'
      && CharAt(data, p + 3) != 'l' {
      AtomMoves(s, Null, false, p + 4);
    }
  }

  lemma NameMoves(data: string, s: Scan)
    requires Inv(true, data, s) && s.c.p <= |data| && TopIs(s, Object) && !s.c.done && NameStep(true, data, s).Go?
    ensures Plain(s, NameStep(true, data, s).s)
  {
    hide Family, Attach;
    if CharAt(data, s.c.p) == '}' { AttachMoves(s.(c := s.c.(comma := false, p := s.c.p + 1))); }
  }

  lemma NumberMoves(data: string, s: Scan)
    requires Inv(true, data, s) && s.c.p <= |data| && InNumber(s) && NumberStep(data, s).Go?
    ensures Plain(s, NumberStep(data, s).s)
  {
    hide Family, Attach, Int64;
    if Attach(true, s).Go? { AttachMoves(s); }
  }

  lemma QuietMoves(s: Scan, p: int, line: bool, block: bool)
    requires Finished(s)
    ensures Moves(s, CommentAt(s, p, line, block))
  {
  }

  lemma LineMoves(data: string, s: Scan)
    requires LineStep(data, s).Go? && Finished(s)
    ensures Moves(s, LineStep(data, s).s)
  {
    QuietMoves(s, s.c.p, false, s.c.block);
    QuietMoves(s, s.c.p + 1, s.c.line, s.c.block);
    hide CharAt, Moves, CommentAt;
  }

  lemma BlockMoves(data: string, s: Scan)
    requires BlockStep(data, s).Go? && Finished(s)
    ensures Moves(s, BlockStep(data, s).s)
  {
    QuietMoves(s, s.c.p + 2, s.c.line, false);
    QuietMoves(s, s.c.p + 1, s.c.line, s.c.block);
    hide CharAt, Moves, CommentAt, Finished;
    if CharAt(data, s.c.p) == '*' {
      if CharAt(data, s.c.p + 1) == '/' {
      }
    }
  }

  lemma CommentMoves(data: string, s: Scan)
    requires CommentStep(data, s).Go? && Finished(s)
    ensures Moves(s, CommentStep(data, s).s)
  {
    hide LineStep, BlockStep, Moves;
    if s.c.line { LineMoves(data, s); } else { BlockMoves(data, s); }
  }

  lemma BareMoves(s: Scan)
    requires InContainer(s) && Finished(s)
    ensures NewBare(true, s.(c := s.c.(seek := false))).Go?
    ensures Moves(s, NewBare(true, s.(c := s.c.(seek := false))).s)
  {
    var t := NewBare(true, s.(c := s.c.(seek := false))).s;
    assert t.nodes == s.nodes + [Fresh(Str, s.c.top)] && t.c.top == |s.nodes| && t.c.done == s.c.done;
    assert t.nodes[|s.nodes|].parent == s.c.top && t.nodes[s.c.top] == s.nodes[s.c.top];
  }

  lemma SlashMoves(data: string, s: Scan)
    requires SlashStep(true, data, s).Go? && Finished(s)
    ensures Moves(s, SlashStep(true, data, s).s)
  {
    hide CharAt, NewBare, Moves, CommentAt, TopIs, Finished;
    if CharAt(data, s.c.p + 1) == '/' {
      QuietMoves(s, s.c.p + 2, true, s.c.block);
    } else if CharAt(data, s.c.p + 1) == '*' {
      QuietMoves(s, s.c.p + 2, s.c.line, true);
    } else if InContainer(s) {
      BareMoves(s);
    }
  }

  lemma StepMoves(data: string, s: Scan)
    requires Inv(true, data, s) && Finished(s) && Step(true, data, s).Go?
    ensures Moves(s, Step(true, data, s).s)
  {
    hide Family, StringStep, CommentStep, SlashStep, SeekStep, NameStep, NumberStep, Plain;
    var t := Step(true, data, s).s;
    if s.c.str {
      if s.c.done { LateStringMoves(data, s); } else { StringMoves(data, s); PlainMoves(s, t); }
    } else if s.c.line || s.c.block {
      CommentMoves(data, s);
    } else if CharAt(data, s.c.p) == '/' {
      SlashMoves(data, s);
    } else if s.c.done {
    } else if s.c.seek {
      SeekMoves(data, s);
      PlainMoves(s, t);
    } else if TopIs(s, Object) {
      NameMoves(data, s);
      PlainMoves(s, t);
    } else {
      NumberMoves(data, s);
      PlainMoves(s, t);
    }
  }

  /** A first pass that accepts counts its nodes, and one of them began behind the finished
      text exactly if the pass ends there. */
  lemma {:induction false} VisitsAre(data: string, s: Scan)
    requires Inv(true, data, s) && Finished(s) && Run(true, data, s).Accept?
    ensures var (e, v) := (Last(true, data, s), Visits(true, data, s));
      && e.nodes == Run(true, data, s).nodes && |e.nodes| == |s.nodes| + |v| && e.c.done && Finished(e)
      && (Stray(s) ==> Stray(e) && e.c.top == s.c.top && v == [])
      && (Stray(e) && !Stray(s) ==> e.c.top >= |s.nodes|)
      && forall i | 0 <= i < |v| :: v[i].late <==> Stray(e) && e.c.top == |s.nodes| + i
    decreases |data| + 1 - Base(true, s), Rank(true, data, s), |data| + 1 - s.c.p
  {
    hide Step, Shrinks, Family, Finished, Stray;
    match Step(true, data, s)
    case Go(t) =>
      StepShrinks(true, data, s);
      ShrinksTo(true, data, s, t);
      StepMoves(data, s);
      VisitsAre(data, t);
      var v, w := Visits(true, data, s), Visits(true, data, t);
      assert v == Begun(s, t) + w;
      assert forall i | 0 <= i < |v| :: v[i] == if i < |Begun(s, t)| then Begun(s, t)[i] else w[i - |Begun(s, t)|];
    case Accept(_) =>
      AcceptedAt(true, data, s);
    case _ =>
  }

  // ---------------------------------------------------------------- children

  /** The nodes with the parent `k`, in order. */
  ghost function Kids(nodes: seq<Node>, k: int): seq<int> {
    if nodes == [] then []
    else
      var j := |nodes| - 1;
      Kids(nodes[..j], k) + if nodes[j].parent == k then [j] else []
  }

  /** Those that began before the text was finished. */
  ghost function Children(nodes: seq<Node>, visits: seq<Visit>, k: int): seq<int>
    requires |visits| == |nodes|
  {
    if nodes == [] then []
    else
      var j := |nodes| - 1;
      Children(nodes[..j], visits[..j], k) + if nodes[j].parent == k && !visits[j].late then [j] else []
  }

  /** What `Children` is: exactly those nodes, in ascending order. */
  lemma {:induction false} ChildrenAscend(nodes: seq<Node>, visits: seq<Visit>, k: int)
    requires |visits| == |nodes|
    ensures var c := Children(nodes, visits, k);
      && (forall i, j | 0 <= i < j < |c| :: c[i] < c[j])
      && (forall j :: j in c <==> 0 <= j < |nodes| && nodes[j].parent == k && !visits[j].late)
  {
    if nodes != [] {
      var n := |nodes| - 1;
      ChildrenAscend(nodes[..n], visits[..n], k);
      var c, front := Children(nodes, visits, k), Children(nodes[..n], visits[..n], k);
      assert forall i | 0 <= i < |front| :: front[i] in front;
      assert forall j :: j in c <==> j in front || (j == n && nodes[j].parent == k && !visits[j].late);
    }
  }

  lemma {:induction false} ChildrenAll(nodes: seq<Node>, visits: seq<Visit>, k: int)
    requires |visits| == |nodes| && forall j | 0 <= j < |nodes| :: nodes[j].parent == k ==> !visits[j].late
    ensures Children(nodes, visits, k) == Kids(nodes, k)
  {
    if nodes != [] { ChildrenAll(nodes[..|nodes| - 1], visits[..|nodes| - 1], k); }
  }

  lemma {:induction false} ChildrenButLast(nodes: seq<Node>, visits: seq<Visit>, k: int, e: int)
    requires |visits| == |nodes| && 0 <= e < |nodes| && nodes[e].parent == k && visits[e].late
    requires forall j | 0 <= j < |nodes| && j != e :: !visits[j].late
    requires forall j | e < j < |nodes| :: nodes[j].parent != k
    ensures Children(nodes, visits, k) + [e] == Kids(nodes, k)
  {
    var n := |nodes| - 1;
    if e == n { ChildrenAll(nodes[..n], visits[..n], k); } else { ChildrenButLast(nodes[..n], visits[..n], k, e); }
  }

  lemma {:induction false} KidsSame(nodes: seq<Node>, nodes': seq<Node>, k: int)
    requires |nodes| == |nodes'| && forall i | 0 <= i < |nodes| :: nodes[i].parent == nodes'[i].parent
    ensures Kids(nodes, k) == Kids(nodes', k)
  {
    if nodes != [] { KidsSame(nodes[..|nodes| - 1], nodes'[..|nodes| - 1], k); }
  }

  lemma {:induction false} KidsLast(nodes: seq<Node>, k: int, e: int)
    requires 0 <= e < |nodes| && nodes[e].parent == k && forall j | e < j < |nodes| :: nodes[j].parent != k
    ensures Kids(nodes, k) != [] && Kids(nodes, k)[|Kids(nodes, k)| - 1] == e
  {
    if e < |nodes| - 1 { KidsLast(nodes[..|nodes| - 1], k, e); }
  }

  lemma {:induction false} KidsNone(nodes: seq<Node>, k: int)
    requires forall j | 0 <= j < |nodes| :: nodes[j].parent != k
    ensures Kids(nodes, k) == []
  {
    if nodes != [] { KidsNone(nodes[..|nodes| - 1], k); }
  }

  lemma KidsMore(nodes: seq<Node>, n: Node, k: int)
    ensures Kids(nodes + [n], k) == Kids(nodes, k) + if n.parent == k then [|nodes|] else []
  {
    assert (nodes + [n])[..|nodes|] == nodes;
  }

  // ---------------------------------------------------------------- the open nodes

  /** No node behind an open one has the same parent. */
  ghost predicate OpenLast(nodes: seq<Node>, t: int)
    decreases t
  {
    0 <= t < |nodes| ==>
      && nodes[t].parent < t && (forall j | t < j < |nodes| :: nodes[j].parent != nodes[t].parent)
      && OpenLast(nodes, nodes[t].parent)
  }

  function One(b: bool): nat { if b then 1 else 0 }

  /** Every node has taken all its children but the open one. */
  ghost predicate Lined(nodes: seq<Node>, top: int) {
    OpenLast(nodes, top) && forall k | 0 <= k < |nodes| :: |Kids(nodes, k)| == nodes[k].size + One(Above(nodes, k, top))
  }

  lemma {:induction false} OpenLastSame(nodes: seq<Node>, nodes': seq<Node>, t: int)
    requires |nodes| == |nodes'| && forall i | 0 <= i < |nodes| :: nodes[i].parent == nodes'[i].parent
    requires OpenLast(nodes, t)
    ensures OpenLast(nodes', t)
    decreases t
  {
    if 0 <= t < |nodes| { OpenLastSame(nodes, nodes', nodes[t].parent); }
  }

  lemma {:induction false} OpenLastMore(nodes: seq<Node>, n: Node, t: int)
    requires OpenLast(nodes, t) && t <= n.parent < |nodes|
    ensures OpenLast(nodes + [n], t)
    decreases t
  {
    if 0 <= t < |nodes| { OpenLastMore(nodes, n, nodes[t].parent); }
  }

  lemma LinedSame(nodes: seq<Node>, nodes': seq<Node>, top: int)
    requires Lined(nodes, top) && |nodes| == |nodes'|
    requires forall i | 0 <= i < |nodes| :: nodes[i].parent == nodes'[i].parent && nodes[i].size == nodes'[i].size
    ensures Lined(nodes', top)
  {
    OpenLastSame(nodes, nodes', top);
    forall k | 0 <= k < |nodes'| ensures |Kids(nodes', k)| == nodes'[k].size + One(Above(nodes', k, top)) {
      KidsSame(nodes, nodes', k);
      if top < |nodes| { AboveSame(nodes, nodes', k, top); }
    }
  }

  lemma AboveMore(nodes: seq<Node>, n: Node, k: int)
    requires -1 <= n.parent < |nodes| && 0 <= k <= |nodes|
    ensures Above(nodes + [n], k, |nodes|) <==> n.parent == k || Above(nodes, k, n.parent)
    ensures n.parent == k ==> !Above(nodes, k, n.parent)
  {
    AboveSame(nodes, nodes + [n], k, n.parent);
    if n.parent == k && Above(nodes, k, n.parent) { AboveIsEarlier(nodes, k, k); }
  }

  /** A new node below the current one. */
  lemma LinedNew(nodes: seq<Node>, n: Node)
    requires Lined(nodes, n.parent) && Family(nodes) && -1 <= n.parent < |nodes| && n.size == 0
    ensures Lined(nodes + [n], |nodes|)
  {
    var more := nodes + [n];
    OpenLastMore(nodes, n, n.parent);
    forall k | 0 <= k < |more| ensures |Kids(more, k)| == more[k].size + One(Above(more, k, |nodes|)) {
      KidsMore(nodes, n, k);
      AboveMore(nodes, n, k);
      if k == |nodes| {
        KidsNone(nodes, k);
        if Above(nodes, k, n.parent) { AboveIsEarlier(nodes, k, n.parent); }
      }
    }
  }

  lemma LinedTakenAt(nodes: seq<Node>, taken: seq<Node>, top: int, k: int)
    requires Lined(nodes, top) && 0 <= top < |nodes| && 0 <= nodes[top].parent < top && 0 <= k < |nodes|
    requires |taken| == |nodes| && forall i | 0 <= i < |nodes| :: taken[i].parent == nodes[i].parent
    requires taken[k].size == nodes[k].size + One(k == nodes[top].parent)
    ensures |Kids(taken, k)| == taken[k].size + One(Above(taken, k, nodes[top].parent))
  {
    hide OpenLast, Kids;
    var p := nodes[top].parent;
    KidsSame(nodes, taken, k);
    AboveSame(nodes, taken, k, p);
    if k == p && Above(nodes, k, p) { AboveIsEarlier(nodes, k, p); }
  }

  /** The current node is the last child of its parent, and the only one not taken. */
  lemma LastChild(nodes: seq<Node>, top: int)
    requires Lined(nodes, top) && 0 <= top < |nodes| && 0 <= nodes[top].parent < top
    ensures var p := nodes[top].parent;
      |Kids(nodes, p)| == nodes[p].size + 1 && Kids(nodes, p)[nodes[p].size] == top
  {
    var p := nodes[top].parent;
    KidsLast(nodes, p, top);
    assert Above(nodes, p, top);
  }

  lemma LinedOpen(nodes: seq<Node>, taken: seq<Node>, top: int)
    requires Lined(nodes, top) && 0 <= top < |nodes|
    requires |taken| == |nodes| && forall i | 0 <= i < |nodes| :: nodes[i].parent == taken[i].parent
    ensures OpenLast(taken, nodes[top].parent)
  {
    hide Kids;
    OpenLastSame(nodes, taken, nodes[top].parent);
  }

  /** The parent takes the current node. */
  lemma LinedTaken(nodes: seq<Node>, top: int, n: Node)
    requires Lined(nodes, top) && 0 <= top < |nodes| && 0 <= nodes[top].parent < top
    requires var p := nodes[top].parent; n.parent == nodes[p].parent && n.size == nodes[p].size + 1
    ensures var p := nodes[top].parent;
      Lined(nodes[p := n], p) && Kids(nodes[p := n], p) == Kids(nodes, p)
      && |Kids(nodes, p)| == n.size && Kids(nodes, p)[n.size - 1] == top
  {
    hide OpenLast, Kids, Above;
    var p := nodes[top].parent;
    var taken := nodes[p := n];
    LastChild(nodes, top);
    KidsSame(nodes, taken, p);
    LinedOpen(nodes, taken, top);
    forall k | 0 <= k < |taken| ensures |Kids(taken, k)| == taken[k].size + One(Above(taken, k, p)) {
      LinedTakenAt(nodes, taken, top, k);
    }
  }

  /** In the end every node has taken exactly its children. */
  lemma LinedToEnd(e: Scan, visits: seq<Visit>, k: int)
    requires Lined(e.nodes, e.c.top) && e.c.done && Finished(e) && |visits| == |e.nodes| && 0 <= k < |e.nodes|
    requires forall i | 0 <= i < |visits| :: visits[i].late <==> Stray(e) && e.c.top == i
    ensures e.nodes[k].size <= |Kids(e.nodes, k)|
    ensures Children(e.nodes, visits, k) == Kids(e.nodes, k)[..e.nodes[k].size]
  {
    if Stray(e) && e.nodes[e.c.top].parent == k {
      ChildrenButLast(e.nodes, visits, k, e.c.top);
      assert Above(e.nodes, k, e.c.top);
      assert |Kids(e.nodes, k)| == |Children(e.nodes, visits, k)| + 1;
    } else {
      ChildrenAll(e.nodes, visits, k);
      assert !Above(e.nodes, k, e.c.top);
    }
  }
}
