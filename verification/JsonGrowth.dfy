/** The measures of the first pass only grow: whatever it has counted at some point of a
    text it accepts fits into what it has counted in the end. */
module JsonGrowth {
  import opened JsonText
  import opened JsonScan
  import opened Wrappers
  import opened JsonPasses

  // ---------------------------------------------------------------- what the first pass has measured so far

  /** The node `k` contains the node `j`. */
  ghost predicate Above(nodes: seq<Node>, k: int, j: int)
    decreases j
  {
    0 <= j < |nodes| && 0 <= nodes[j].parent < j && (nodes[j].parent == k || Above(nodes, k, nodes[j].parent))
  }

  lemma {:induction false} AboveSame(nodes: seq<Node>, nodes': seq<Node>, k: int, j: int)
    requires j < |nodes| <= |nodes'|
    requires forall i | 0 <= i < |nodes| :: nodes[i].parent == nodes'[i].parent
    ensures Above(nodes, k, j) == Above(nodes', k, j)
    decreases j
  {
    if 0 <= j && 0 <= nodes[j].parent < j { AboveSame(nodes, nodes', k, nodes[j].parent); }
  }

  lemma {:induction false} AboveIsEarlier(nodes: seq<Node>, k: int, j: int)
    requires Above(nodes, k, j)
    ensures k < j
    decreases j
  {
    if nodes[j].parent != k { AboveIsEarlier(nodes, k, nodes[j].parent); }
  }

  /** The node `k` is no longer, or not yet, a number that may turn out to be a string. */
  ghost predicate Settled(s: Scan, k: int) { !(InNumber(s) && k == s.c.top) }

  ghost predicate Reading(s: Scan, k: int) { s.c.str && k == s.c.top }

  /** One more child of the node `k` will come for certain. */
  ghost function Awaited(s: Scan, k: int): nat {
    if !s.c.done && (Above(s.nodes, k, s.c.top) || (k == s.c.top && TopIs(s, Object) && (s.c.seek || s.c.str))) then 1
      else 0
  }

  /** One more child of the node `k` will come, and if it has a name that is known. */
  ghost function Owed(s: Scan, k: int): nat {
    if !s.c.done && (Above(s.nodes, k, s.c.top) || (k == s.c.top && TopIs(s, Object) && s.c.seek)) then 1 else 0
  }

  ghost function NameLen(s: Scan, k: int): nat {
    if Reading(s, k) && TopIs(s, Object) then s.c.len + 1 else 0
  }

  ghost function StrLen(s: Scan, k: int): nat
    requires 0 <= k < |s.nodes|
  {
    if Reading(s, k) then s.c.len else s.nodes[k].len
  }

  /** Nothing was written into a node but its measures, and it is not too large. */
  ghost predicate Blank(n: Node) {
    n.size <= MAX_SIZE && n.room == 0 && n.text == "" && n.area == "" && n.used == 0 && n.index == 0 && n.items == []
      && n.members == []
  }

  /** What a node that has been measured up to `s` can still become at `t`. */
  ghost predicate Grown(s: Scan, t: Scan, k: int)
    requires 0 <= k < |s.nodes| <= |t.nodes|
  {
    var a, b := s.nodes[k], t.nodes[k];
    && b.parent == a.parent && (Blank(a) ==> Blank(b))
    && a.size + Awaited(s, k) <= b.size + Awaited(t, k)
    && a.size + Owed(s, k) <= b.size + Owed(t, k)
    && a.num + NameLen(s, k) <= b.num + NameLen(t, k)
    && (Settled(s, k) ==>
          && Settled(t, k) && b.kind == a.kind && b.ival == a.ival && b.bval == a.bval
          && (a.kind == Str ==> StrLen(s, k) <= StrLen(t, k) && (!Reading(s, k) ==> !Reading(t, k) && b.len == a.len)))
  }

  ghost predicate Grows(s: Scan, t: Scan) {
    && |s.nodes| <= |t.nodes| && (forall k | 0 <= k < |s.nodes| :: Grown(s, t, k))
    && (forall k | |s.nodes| <= k < |t.nodes| :: Blank(t.nodes[k]))
  }

  lemma GrowsTrans(s: Scan, t: Scan, u: Scan)
    requires Grows(s, t) && Grows(t, u)
    ensures Grows(s, u)
  {
    hide Settled, Reading, Awaited, Owed, NameLen, Above;
    forall k | 0 <= k < |s.nodes| ensures Grown(s, u, k) {
      assert Grown(s, t, k) && Grown(t, u, k);
    }
    forall k | |s.nodes| <= k < |u.nodes| ensures Blank(u.nodes[k]) {
      if k < |t.nodes| { assert Grown(t, u, k); }
    }
  }

  /** A new node below the current one. */
  lemma GrowsNew(s: Scan, t: Scan, n: Node)
    requires t.nodes == s.nodes + [n] && Blank(n) && n.parent == s.c.top
    requires t.c.top == |s.nodes| && -1 <= s.c.top < |s.nodes|
    requires !s.c.str && !InNumber(s) && (t.c.done ==> s.c.done)
    ensures Grows(s, t)
  {
    forall k | 0 <= k < |s.nodes| ensures Grown(s, t, k) {
      AboveSame(s.nodes, t.nodes, k, s.c.top);
    }
  }

  /** The nodes stay as they are. */
  lemma GrowsSame(s: Scan, t: Scan)
    requires t.nodes == s.nodes && t.c.top == s.c.top && !InNumber(s) && !InNumber(t)
    requires t.c.done == s.c.done && (s.c.seek && TopIs(s, Object) ==> t.c.seek)
    requires if s.c.str then t.c.str && s.c.len <= t.c.len else t.c.str ==> TopIs(s, Object)
    ensures Grows(s, t)
  {
  }

  /** Only the current node changes, and it is no number. */
  lemma GrowsTop(s: Scan, t: Scan, n: Node)
    requires HasTop(s) && t.nodes == s.nodes[s.c.top := n] && t.c.top == s.c.top && s.c.str && !t.c.str
            && t.c.done == s.c.done
    requires var a := s.nodes[s.c.top];
      || (a.kind == Object && n == a.(num := a.num + s.c.len + 1) && t.c.seek)
      || (a.kind == Str && n == a.(len := s.c.len))
    ensures Grows(s, t)
  {
    forall k | 0 <= k < |s.nodes| ensures Grown(s, t, k) {
      AboveSame(s.nodes, t.nodes, k, s.c.top);
    }
  }

  /** A value ends and its parent, if any, takes it. */
  lemma GrowsAttach(s: Scan, t: Scan)
    requires HasTop(s) && Family(s.nodes) && !s.c.str && !s.c.seek && !s.c.done && t.c.str == s.c.str
    requires var parent := s.nodes[s.c.top].parent;
      if parent < 0 then t.nodes == s.nodes && t.c.top == s.c.top && t.c.done
      else
        && t.nodes == s.nodes[parent := s.nodes[parent].(size := s.nodes[parent].size + 1)]
        && t.c.top == parent && !t.c.done && t.nodes[parent].size <= MAX_SIZE
    ensures Grows(s, t)
  {
    var parent := s.nodes[s.c.top].parent;
    ParentOf(s.nodes, s.c.top);
    forall k | 0 <= k < |s.nodes| ensures Grown(s, t, k) {
      if 0 <= parent { AboveSame(s.nodes, t.nodes, k, parent); }
    }
  }

  /** Part of a number is read, or it turns out to be a string. */
  lemma GrowsNumber(s: Scan, t: Scan, n: Node)
    requires InNumber(s) && t.nodes == s.nodes[s.c.top := n] && t.c.top == s.c.top && !t.c.done
    requires n == s.nodes[s.c.top].(kind := n.kind, ival := n.ival)
    ensures Grows(s, t)
  {
    forall k | 0 <= k < |s.nodes| ensures Grown(s, t, k) {
      AboveSame(s.nodes, t.nodes, k, s.c.top);
    }
  }

  /** The state in which a pass accepts. */
  ghost function Final(nodes: seq<Node>): Scan {
    Scan(Ctl(0, false, false, false, false, false, true, false, false, false, 0, -1), NO_NUMBER, nodes, |nodes|)
  }

  // Every step of the first pass lets the measures grow.

  lemma GrowsString(data: string, s: Scan)
    requires Inv(true, data, s) && s.c.p <= |data| && s.c.str && HasTop(s) && StringStep(true, data, s).Go?
    ensures Grows(s, StringStep(true, data, s).s)
  {
    hide Grows, Escaped, Ends, EndName, EndStr, Attach;
    var b, p := CharAt(data, s.c.p), s.c.p;
    var t := StringStep(true, data, s).s;
    if s.c.esc || b == '\\' {
      GrowsSame(s, t);
    } else if b == '"' {
      GrowsEnd(s, s.(c := s.c.(str := false, p := p + 1)), b);
    } else if s.c.quote && Ends(s, b) {
      GrowsEnd(s, s.(c := s.c.(str := false, quote := false)), b);
    } else {
      GrowsSame(s, t);
    }
  }

  lemma GrowsEnd(s: Scan, u: Scan, b: char)
    requires HasTop(s) && Family(s.nodes) && s.c.str && !s.c.seek && (TopIs(s, Str) || (TopIs(s, Object) && !s.c.done))
    requires u == s.(c := u.c) && !u.c.str && u.c.top == s.c.top && u.c.done == s.c.done && u.c.len == s.c.len
            && !u.c.seek
    requires StringEnd(true, u, b).Go?
    ensures Grows(s, StringEnd(true, u, b).s)
  {
    hide Grows, Family, Attach;
    if TopIs(u, Object) {
      GrowsTop(s, EndName(true, u).s, u.nodes[u.c.top].(num := u.nodes[u.c.top].num + u.c.len + 1));
    } else {
      var v := EndStr(true, u).s;
      GrowsTop(s, v, u.nodes[u.c.top].(len := u.c.len));
      EndStrKeeps(true, u);
      if !u.c.done {
        GrowsAttached(v);
        GrowsTrans(s, v, Attach(true, v).s);
      }
    }
  }

  lemma GrowsAttached(s: Scan)
    requires HasTop(s) && Family(s.nodes) && !s.c.str && !s.c.seek && !s.c.done && Attach(true, s).Go?
    ensures Grows(s, Attach(true, s).s)
  {
    hide Grows, Attach, Adopt;
    ParentOf(s.nodes, s.c.top);
    AttachCases(true, s);
    if s.nodes[s.c.top].parent >= 0 { AdoptFirst(s.nodes[s.nodes[s.c.top].parent], s.c.top); }
    GrowsAttach(s, Attach(true, s).s);
  }

  lemma AdoptFirst(n: Node, child: int)
    ensures Adopt(true, n, child) == Some(n.(size := n.size + 1))
  {
  }

  /** The state in which a value without parts is attached. */
  ghost function WithLeaf(s: Scan, kind: Kind, bval: bool, p: int): Scan {
    Scan(s.c.(seek := false, top := |s.nodes|, p := p), s.num, s.nodes + [Fresh(kind, s.c.top).(bval := bval)],
      |s.nodes| + 1)
  }

  lemma AtomIs(s: Scan, kind: Kind, bval: bool, p: int)
    ensures HasTop(WithLeaf(s, kind, bval, p))
    ensures Atom(true, s.(c := s.c.(seek := false)), kind, bval, p) == Attach(true, WithLeaf(s, kind, bval, p))
  {
    hide Attach;
    var t := New(true, s.(c := s.c.(seek := false)), kind).s;
    assert SetTop(Move(t, p), Fresh(kind, s.c.top).(bval := bval)).nodes == WithLeaf(s, kind, bval, p).nodes;
  }

  lemma LeafFamily(s: Scan, kind: Kind, bval: bool, p: int)
    requires Family(s.nodes) && -1 <= s.c.top < |s.nodes| && (s.c.top == -1 || InContainer(s))
    ensures Family(WithLeaf(s, kind, bval, p).nodes)
  {
  }

  lemma GrowsAtom(s: Scan, kind: Kind, bval: bool, p: int)
    requires Family(s.nodes) && -1 <= s.c.top < |s.nodes| && (s.c.top == -1 || InContainer(s)) && !s.c.str
            && !s.c.done && s.c.seek
    requires Atom(true, s.(c := s.c.(seek := false)), kind, bval, p).Go?
    ensures Grows(s, Atom(true, s.(c := s.c.(seek := false)), kind, bval, p).s)
  {
    hide Grows, Attach, Atom, Family;
    var w := WithLeaf(s, kind, bval, p);
    AtomIs(s, kind, bval, p);
    LeafFamily(s, kind, bval, p);
    GrowsNew(s, w, Fresh(kind, s.c.top).(bval := bval));
    GrowsAttached(w);
    GrowsTrans(s, w, Attach(true, w).s);
  }

  lemma GrowsSeek(data: string, s: Scan)
    requires Inv(true, data, s) && s.c.p <= |data| && !s.c.str && !s.c.line && !s.c.block && !s.c.done && s.c.seek
    requires SeekStep(true, data, s).Go?
    ensures Grows(s, SeekStep(true, data, s).s)
  {
    hide Grows, Attach, ValueStep, Family;
    var b, p := CharAt(data, s.c.p), s.c.p;
    var t := SeekStep(true, data, s).s;
    if Space(b) {
      GrowsSame(s, t);
    } else if b == ']' {
      var u := s.(c := s.c.(comma := false, seek := false, p := p + 1));
      GrowsSame(s, u);
      GrowsAttached(u);
      GrowsTrans(s, u, t);
    } else if s.c.comma || s.c.colon {
      GrowsSame(s, t);
    } else {
      GrowsValue(data, s);
    }
  }

  lemma GrowsValue(data: string, s: Scan)
    requires Inv(true, data, s) && s.c.p <= |data| && !s.c.str && !s.c.line && !s.c.block && !s.c.done && s.c.seek
    requires ValueStep(true, data, s.(c := s.c.(seek := false)), CharAt(data, s.c.p)).Go?
    ensures Grows(s, ValueStep(true, data, s.(c := s.c.(seek := false)), CharAt(data, s.c.p)).s)
  {
    hide Grows, Attach, Atom, Family, NumberStart, Digit, Reads;
    var b, p := CharAt(data, s.c.p), s.c.p;
    var u := s.(c := s.c.(seek := false));
    if b == 't' && |data| - p >= 3 && Reads(data, p + 1, "rue") {
      GrowsAtom(s, Boolean, true, p + 4);
    } else if b == 'f' && |data| - p >= 4 && Reads(data, p + 1, "alse") {
      GrowsAtom(s, Boolean, false, p + 5);
    } else if b == 'n' && |data| - p >= 3 && CharAt(data, p + 1) != 'u' && CharAt(data, p + 2) != 'l'
      && CharAt(data, p + 3) != 'l' {
      GrowsAtom(s, Null, false, p + 4);
    } else if b == '{' {
      GrowsNew(s, ValueStep(true, data, u, b).s, Fresh(Object, s.c.top));
    } else if b == '[' {
      GrowsNew(s, ValueStep(true, data, u, b).s, Fresh(Array, s.c.top));
    } else if b == 't' || b == 'f' || b == 'n' || b == '"' || !(Digit(b) || b == '-') {
      GrowsNew(s, ValueStep(true, data, u, b).s, Fresh(Str, s.c.top));
    } else {
      GrowsStart(data, s);
    }
  }

  lemma GrowsStart(data: string, s: Scan)
    requires -1 <= s.c.top < |s.nodes| && !s.c.str && !s.c.done && s.c.seek
    ensures NumberStart(true, data, s.(c := s.c.(seek := false)), CharAt(data, s.c.p)).Go?
    ensures Grows(s, NumberStart(true, data, s.(c := s.c.(seek := false)), CharAt(data, s.c.p)).s)
  {
    hide Grows;
    GrowsNew(s, NumberStart(true, data, s.(c := s.c.(seek := false)), CharAt(data, s.c.p)).s, Fresh(Integer, s.c.top));
  }

  lemma GrowsNumberStep(data: string, s: Scan)
    requires Inv(true, data, s) && s.c.p <= |data| && InNumber(s) && NumberStep(data, s).Go?
    ensures Grows(s, NumberStep(data, s).s)
  {
    hide Grows, Attach;
    var t := NumberStep(data, s).s;
    if Attach(true, s).Go? { GrowsAttached(s); }
    if NumberStep(data, s) != Attach(true, s) { GrowsNumber(s, t, t.nodes[s.c.top]); }
  }

  lemma GrowsName(data: string, s: Scan)
    requires Inv(true, data, s) && s.c.p <= |data| && !s.c.str && !s.c.line && !s.c.block && !s.c.done && !s.c.seek
            && TopIs(s, Object)
    requires NameStep(true, data, s).Go?
    ensures Grows(s, NameStep(true, data, s).s)
  {
    hide Grows, Attach;
    var t := NameStep(true, data, s).s;
    if CharAt(data, s.c.p) == '}' {
      var u := s.(c := s.c.(comma := false, p := s.c.p + 1));
      GrowsSame(s, u);
      GrowsAttached(u);
      GrowsTrans(s, u, t);
    } else {
      GrowsSame(s, t);
    }
  }

  lemma GrowsSlash(data: string, s: Scan)
    requires Inv(true, data, s) && s.c.p <= |data| && !s.c.str && !s.c.line && !s.c.block && CharAt(data, s.c.p) == '/'
    requires SlashStep(true, data, s).Go?
    ensures Grows(s, SlashStep(true, data, s).s)
  {
    hide Grows;
    var b := CharAt(data, s.c.p + 1);
    var t := SlashStep(true, data, s).s;
    if b == '/' || b == '*' { GrowsSame(s, t); } else { GrowsNew(s, t, Fresh(Str, s.c.top)); }
  }

  lemma GrowsStep(data: string, s: Scan)
    requires Inv(true, data, s) && Step(true, data, s).Go?
    ensures Grows(s, Step(true, data, s).s)
  {
    hide Grows, StringStep, SlashStep, SeekStep, NameStep, NumberStep;
    if s.c.str {
      GrowsString(data, s);
    } else if s.c.line || s.c.block {
      GrowsSame(s, CommentStep(data, s).s);
    } else if CharAt(data, s.c.p) == '/' {
      GrowsSlash(data, s);
    } else if s.c.done {
      GrowsSame(s, DoneStep(data, s).s);
    } else if s.c.seek {
      GrowsSeek(data, s);
    } else if TopIs(s, Object) {
      GrowsName(data, s);
    } else {
      GrowsNumberStep(data, s);
    }
  }

  /** Whatever was measured at some point of a successful first pass fits into the result. */
  lemma {:induction false} GrowsToEnd(data: string, s: Scan)
    requires Inv(true, data, s) && Run(true, data, s).Accept?
    ensures Grows(s, Final(Run(true, data, s).nodes))
    decreases |data| + 1 - Base(true, s), Rank(true, data, s), |data| + 1 - s.c.p
  {
    hide Step, Shrinks, Inv1, Grows;
    match Step(true, data, s)
    case Go(t) =>
      StepShrinks(true, data, s);
      ShrinksTo(true, data, s, t);
      GrowsToEnd(data, t);
      GrowsStep(data, s);
      GrowsTrans(s, t, Final(Run(true, data, s).nodes));
    case Accept(_) =>
      AcceptedAt(true, data, s);
      GrowsFinal(s);
    case _ =>
  }

  lemma GrowsFinal(s: Scan)
    requires s.c.done && !s.c.str
    ensures Grows(s, Final(s.nodes))
  {
  }
}
