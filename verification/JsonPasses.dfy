/** The decoder's two passes as runs of steps, every one of which is finite. */
module JsonPasses {
  import opened JsonText
  import opened JsonMembers
  import opened JsonScan
  import opened Wrappers

  // ---------------------------------------------------------------- every run is finite

  ghost predicate Container(n: Node) { n.kind == Array || n.kind == Object }

  /** Parents come before their children, and only containers are parents. */
  ghost predicate Family(nodes: seq<Node>) {
    forall k | 0 <= k < |nodes| ::
      -1 <= nodes[k].parent < k && (nodes[k].parent >= 0 ==> Container(nodes[nodes[k].parent]))
  }

  /** What holds at the head of the loop. */
  ghost predicate Inv(first: bool, data: string, s: Scan) {
    && 0 <= s.c.p <= |data| + 1 && -1 <= s.c.top < |s.nodes| && Family(s.nodes)
    && (s.c.line || s.c.block ==> !s.c.str) && (s.c.line ==> !s.c.block)
    && (first ==> Inv1(data, s))
  }

  /** What the first pass keeps in addition. */
  ghost predicate Inv1(data: string, s: Scan) {
    && s.alloc == |s.nodes|
    && (s.c.str ==> (TopIs(s, Str) || (TopIs(s, Object) && !s.c.done)) && !s.c.seek)
    && (s.c.line || s.c.block ==> s.c.seek || s.c.done || TopIs(s, Object))
    && (s.c.seek ==> !s.c.done && (s.c.top == -1 || InContainer(s)))
    && (!s.c.str && !s.c.seek && !s.c.done ==> TopIs(s, Object) || InNumber(s))
    && (InNumber(s) ==>
          0 <= s.num.start <= s.c.p && s.num.start < |data|
          && (Digit(data[s.num.start]) || data[s.num.start] == '-'))
    && (InNumber(s) && s.c.p == s.num.start ==> Digit(data[s.num.start]))
  }

  /** The text before this place is never read again. */
  ghost function Base(first: bool, s: Scan): int { if first && InNumber(s) then s.num.start else s.c.p }

  /** How often the scanner can still turn without moving on. */
  ghost function Rank(first: bool, data: string, s: Scan): nat {
    var b := CharAt(data, s.c.p);
    if s.c.str then (if s.c.quote && !s.c.esc && Ends(s, b) then 2 else 0)
    else if s.c.line || s.c.block then 5
    else if first && InNumber(s) then 3
    else if s.c.done || s.c.comma || (s.c.seek && s.c.colon) then 1
    else 4
  }

  ghost predicate Shrinks(first: bool, data: string, s: Scan, t: Scan) {
    var limit := |data| + 1;
    || Base(first, t) > Base(first, s)
    || (Base(first, t) == Base(first, s) && Rank(first, data, t) < Rank(first, data, s))
    || (Base(first, t) == Base(first, s) && Rank(first, data, t) == Rank(first, data, s) && t.c.p > s.c.p)
  }

  // What the parts of a step leave alone.

  lemma NewKeeps(first: bool, s: Scan, kind: Kind)
    requires New(first, s, kind).Go? && Family(s.nodes) && -1 <= s.c.top < |s.nodes|
    requires first ==> s.alloc == |s.nodes| && (s.c.top == -1 || InContainer(s))
    ensures var t := New(first, s, kind).s;
            && Family(t.nodes) && HasTop(t) && t.c == s.c.(top := t.c.top) && t.num == s.num
            && (first ==> t.alloc == |t.nodes| && TopIs(t, kind))
  {
  }

  lemma ParentOf(nodes: seq<Node>, k: int)
    requires Family(nodes) && 0 <= k < |nodes|
    ensures -1 <= nodes[k].parent < k && (nodes[k].parent >= 0 ==> Container(nodes[nodes[k].parent]))
  {
  }

  lemma UpdateKeeps(nodes: seq<Node>, k: int, n: Node)
    requires Family(nodes) && 0 <= k < |nodes| && n.parent == nodes[k].parent && (Container(nodes[k]) ==> Container(n))
    ensures Family(nodes[k := n])
  {
  }

  lemma AdoptKeeps(first: bool, n: Node, child: int)
    requires Adopt(first, n, child).Some?
    ensures var n' := Adopt(first, n, child).value; n'.kind == n.kind && n'.parent == n.parent && n'.size == n.size + 1
  {
  }

  lemma SetKeeps(s: Scan, n: Node)
    requires HasTop(s) && Family(s.nodes) && n.parent == s.nodes[s.c.top].parent
    requires Container(s.nodes[s.c.top]) ==> Container(n)
    ensures var t := SetTop(s, n);
            Family(t.nodes) && |t.nodes| == |s.nodes| && HasTop(t) && t.nodes[t.c.top] == n && t.c == s.c
              && t.num == s.num && t.alloc == s.alloc
  {
  }

  /** The current node after bytes were put into it. */
  ghost function PutNode(first: bool, n: Node, len: nat, text: string): Node {
    if first then n
    else if n.kind == Object then
      if n.used + len + |text| <= |n.area| then n.(area := Overwrite(n.area, n.used + len, text)) else n
    else
      if len + |text| <= |n.text| then n.(text := Overwrite(n.text, len, text)) else n
  }

  lemma PutIs(first: bool, s: Scan, text: string)
    requires HasTop(s) && Put(first, s, text).Go?
    ensures var n := PutNode(first, s.nodes[s.c.top], s.c.len, text);
            Put(first, s, text).s == Scan(s.c.(len := s.c.len + |text|), s.num, s.nodes[s.c.top := n], s.alloc)
  {
    hide Overwrite, SetTop;
    var n := PutNode(first, s.nodes[s.c.top], s.c.len, text);
    SetTopIs(s, |text|, n);
    if first { assert s.nodes[s.c.top := s.nodes[s.c.top]] == s.nodes; }
  }

  lemma SetTopIs(s: Scan, k: nat, n: Node)
    requires HasTop(s)
    ensures SetTop(s.(c := s.c.(len := s.c.len + k)), n)
            == Scan(s.c.(len := s.c.len + k), s.num, s.nodes[s.c.top := n], s.alloc)
  {
  }

  lemma PutNodeKeeps(first: bool, n: Node, len: nat, text: string)
    ensures PutNode(first, n, len, text).kind == n.kind && PutNode(first, n, len, text).parent == n.parent
  {
  }

  lemma PutKeeps(first: bool, s: Scan, text: string)
    requires HasTop(s) && Put(first, s, text).Go? && Family(s.nodes)
    ensures var t := Put(first, s, text).s;
            && Family(t.nodes) && HasTop(t) && t.nodes[t.c.top].kind == s.nodes[s.c.top].kind && |t.nodes| == |s.nodes|
            && t.c == s.c.(len := t.c.len) && t.num == s.num && t.alloc == s.alloc
  {
    PutIs(first, s, text);
    hide Family, Put, PutNode;
    var n := s.nodes[s.c.top];
    var n' := PutNode(first, n, s.c.len, text);
    PutNodeKeeps(first, n, s.c.len, text);
    UpdateKeeps(s.nodes, s.c.top, n');
  }

  lemma EndNameKeeps(first: bool, s: Scan)
    requires HasTop(s) && EndName(first, s).Go? && Family(s.nodes)
    ensures var t := EndName(first, s).s;
            && Family(t.nodes) && HasTop(t) && t.nodes[t.c.top].kind == s.nodes[s.c.top].kind && |t.nodes| == |s.nodes|
            && t.c == s.c.(seek := true, colon := true) && t.num == s.num && t.alloc == s.alloc
  {
    var n := s.nodes[s.c.top];
    assert EndName(first, s).s.nodes[s.c.top].parent == n.parent;
  }

  lemma EndStrKeeps(first: bool, s: Scan)
    requires HasTop(s) && EndStr(first, s).Go? && Family(s.nodes)
    ensures var t := EndStr(first, s).s;
            && Family(t.nodes) && HasTop(t) && t.nodes[t.c.top].kind == s.nodes[s.c.top].kind && |t.nodes| == |s.nodes|
            && t.c == s.c && t.num == s.num && t.alloc == s.alloc
  {
  }

  lemma AttachKeeps(first: bool, s: Scan)
    requires HasTop(s) && Attach(first, s).Go? && Family(s.nodes)
    ensures var t := Attach(first, s).s;
            && Family(t.nodes) && HasTop(t) && |t.nodes| == |s.nodes| && t.num == s.num && t.alloc == s.alloc
            && ((t.c == s.c.(comma := true, done := true) && t.nodes[t.c.top] == s.nodes[s.c.top])
                || (InContainer(t) && t.c == s.c.(comma := true, top := t.c.top, seek := s.c.seek || TopIs(t, Array))))
  {
    hide Family, Attach, Adopt, Adopted;
    var parent := s.nodes[s.c.top].parent;
    ParentOf(s.nodes, s.c.top);
    AttachCases(first, s);
    if 0 <= parent {
      AdoptedKeeps(s, parent, Adopt(first, s.nodes[parent], s.c.top).value);
    }
  }

  lemma AttachCases(first: bool, s: Scan)
    requires HasTop(s) && Attach(first, s).Go?
    requires -1 <= s.nodes[s.c.top].parent < |s.nodes|
    ensures var parent, t := s.nodes[s.c.top].parent, Attach(first, s).s;
            if parent < 0 then t == s.(c := s.c.(comma := true, done := true))
            else
              var a := Adopt(first, s.nodes[parent], s.c.top);
              && a.Some? && a.value.kind == s.nodes[parent].kind && a.value.parent == s.nodes[parent].parent
              && a.value.size == s.nodes[parent].size + 1 <= MAX_SIZE
              && t == Adopted(s, parent, a.value)
  {
    var parent := s.nodes[s.c.top].parent;
    if 0 <= parent { AdoptKeeps(first, s.nodes[parent], s.c.top); }
  }

  /** The state after the node `k` took a child. */
  ghost function Adopted(s: Scan, k: int, n: Node): Scan
    requires 0 <= k < |s.nodes|
  {
    s.(c := s.c.(comma := true, seek := s.c.seek || n.kind == Array, top := k), nodes := s.nodes[k := n])
  }

  lemma AdoptedKeeps(s: Scan, k: int, n: Node)
    requires Family(s.nodes) && 0 <= k < |s.nodes| && Container(s.nodes[k])
    requires n.kind == s.nodes[k].kind && n.parent == s.nodes[k].parent
    ensures var t := Adopted(s, k, n);
            Family(t.nodes) && InContainer(t) && t.nodes[t.c.top] == n && |t.nodes| == |s.nodes| && t.num == s.num
              && t.alloc == s.alloc
            && t.c == s.c.(comma := true, top := t.c.top, seek := s.c.seek || TopIs(t, Array))
  {
    UpdateKeeps(s.nodes, k, n);
  }

  lemma StepString(first: bool, data: string, s: Scan)
    requires Inv(first, data, s) && s.c.p <= |data| && s.c.str && HasTop(s) && StringStep(first, data, s).Go?
    ensures var t := StringStep(first, data, s).s; Inv(first, data, t) && Shrinks(first, data, s, t)
  {
    hide Family, Put, EndName, EndStr, Attach, Escaped;
    var b, p := CharAt(data, s.c.p), s.c.p;
    if s.c.esc {
      EscapeInside(data, p);
      var e := Escaped(data, p);
      PutKeeps(first, Move(s, e.end + 1).(c := s.c.(esc := false, p := e.end + 1)), e.text);
    } else if b == '\\' {
    } else if b == '"' {
      EndKeeps(first, data, s, s.(c := s.c.(str := false, p := p + 1)), b);
    } else if s.c.quote && Ends(s, b) {
      EndKeeps(first, data, s, s.(c := s.c.(str := false, quote := false)), b);
    } else {
      PutKeeps(first, Move(s, p + 1), [b]);
    }
  }

  lemma EscapeInside(data: string, p: int)
    requires 0 <= p <= |data| && CharAt(data, p) != '\0' && Escaped(data, p).Escape?
    ensures p <= Escaped(data, p).end < |data|
  {
    if CharAt(data, p) == 'u' { UnicodeInside(data, p); }
  }

  lemma EndKeeps(first: bool, data: string, s: Scan, t: Scan, b: char)
    requires Inv(first, data, s) && s.c.p <= |data| && s.c.str && HasTop(s) && t.c.top == s.c.top
    requires t.nodes == s.nodes && t.num == s.num && t.alloc == s.alloc
    requires t.c == s.c.(str := false, p := s.c.p + 1) || (t.c == s.c.(str := false, quote := false) && s.c.quote
            && !s.c.esc && Ends(s, CharAt(data, s.c.p)))
    requires StringEnd(first, t, b).Go?
    ensures Inv(first, data, StringEnd(first, t, b).s) && Shrinks(first, data, s, StringEnd(first, t, b).s)
  {
    hide Family, EndName, EndStr, Attach;
    if TopIs(t, Object) {
      EndNameKeeps(first, t);
    } else {
      EndStrKeeps(first, t);
      if !t.c.done { AttachKeeps(first, EndStr(first, t).s); }
    }
  }

  lemma StepSeek(first: bool, data: string, s: Scan)
    requires Inv(first, data, s) && s.c.p <= |data| && !s.c.str && !s.c.line && !s.c.block && !s.c.done && s.c.seek
    requires SeekStep(first, data, s).Go?
    ensures var t := SeekStep(first, data, s).s; Inv(first, data, t) && Shrinks(first, data, s, t)
  {
    hide Family, Attach, ValueStep;
    var b, p := CharAt(data, s.c.p), s.c.p;
    if !Space(b) {
      if b == ']' {
        AttachKeeps(first, s.(c := s.c.(comma := false, seek := false, p := p + 1)));
      } else if !s.c.comma && !s.c.colon {
        StepValue(first, data, s);
      }
    }
  }

  lemma StepValue(first: bool, data: string, s: Scan)
    requires Inv(first, data, s) && s.c.p <= |data| && !s.c.str && !s.c.line && !s.c.block && !s.c.done && s.c.seek
    requires !s.c.comma && !s.c.colon
    requires ValueStep(first, data, s.(c := s.c.(seek := false)), CharAt(data, s.c.p)).Go?
    ensures var t := ValueStep(first, data, s.(c := s.c.(seek := false)), CharAt(data, s.c.p)).s;
            Inv(first, data, t) && Shrinks(first, data, s, t)
  {
    hide Family, New, Attach, Atom, NumberStart, NewBare, Ends;
    var b, p := CharAt(data, s.c.p), s.c.p;
    var u := s.(c := s.c.(seek := false));
    match b
    case '{' => NewKeeps(first, Move(u, p + 1), Object);
    case '[' => NewKeeps(first, Move(u, p + 1), Array);
    case '"' => NewKeeps(first, Move(u, p + 1), Str);
    case _ =>
      if b == 't' && |data| - p >= 3 && Reads(data, p + 1, "rue") {
        assert CharAt(data, p + 1 + 2) == "rue"[2];
        AtomKeeps(first, data, s, Boolean, true, p + 4);
      } else if b == 'f' && |data| - p >= 4 && Reads(data, p + 1, "alse") {
        assert CharAt(data, p + 1 + 3) == "alse"[3];
        AtomKeeps(first, data, s, Boolean, false, p + 5);
      } else if b == 'n' && |data| - p >= 3 && CharAt(data, p + 1) != 'u' && CharAt(data, p + 2) != 'l'
        && CharAt(data, p + 3) != 'l' {
        AtomKeeps(first, data, s, Null, false, p + 4);
      } else if Digit(b) || b == '-' {
        StartKeeps(first, data, s);
      } else {
        BareKeeps(first, data, s, u);
      }
  }

  lemma AtomKeeps(first: bool, data: string, s: Scan, kind: Kind, bval: bool, q: int)
    requires Inv(first, data, s) && s.c.p < q <= |data| + 1 && !s.c.str && !s.c.line && !s.c.block && !s.c.done
            && s.c.seek
    requires Atom(first, s.(c := s.c.(seek := false)), kind, bval, q).Go?
    ensures var t := Atom(first, s.(c := s.c.(seek := false)), kind, bval, q).s;
            Inv(first, data, t) && Shrinks(first, data, s, t)
  {
    hide Family, New, Attach;
    var u := s.(c := s.c.(seek := false));
    NewKeeps(first, u, kind);
    var t := New(first, u, kind).s;
    var n := t.nodes[t.c.top].(bval := bval || t.nodes[t.c.top].bval);
    SetKeeps(Move(t, q), n);
    AttachKeeps(first, SetTop(Move(t, q), n));
  }

  lemma BareKeeps(first: bool, data: string, s: Scan, u: Scan)
    requires Inv(first, data, s) && s.c.p <= |data| && !s.c.str && !s.c.line && !s.c.block
    requires u == s.(c := s.c.(seek := false)) && NewBare(first, u).Go?
    requires s.c.top == -1 || InContainer(s) || !first
    requires CharAt(data, s.c.p) == '/' || (s.c.seek && !s.c.done && !s.c.comma && !s.c.colon)
    ensures var t := NewBare(first, u).s; Inv(first, data, t) && Shrinks(first, data, s, t)
  {
    hide Family, New;
    NewKeeps(first, u, Str);
  }

  lemma StartKeeps(first: bool, data: string, s: Scan)
    requires Inv(first, data, s) && s.c.p <= |data| && !s.c.str && !s.c.line && !s.c.block && !s.c.done && s.c.seek
    requires !s.c.comma && !s.c.colon
    requires var b := CharAt(data, s.c.p);
            (Digit(b) || b == '-') && NumberStart(first, data, s.(c := s.c.(seek := false)), b).Go?
    ensures var t := NumberStart(first, data, s.(c := s.c.(seek := false)), CharAt(data, s.c.p)).s;
            Inv(first, data, t) && Shrinks(first, data, s, t)
  {
    hide Family, New, Attach;
    var u := s.(c := s.c.(seek := false));
    NewKeeps(first, u, Integer);
    if !first {
      var t := New(first, u, Integer).s;
      if !TopIs(t, Str) {
        AttachKeeps(first, Move(t, SkipNumber(data, s.c.p)));
        assert NumberChar(data[s.c.p]);
      }
    }
  }

  /** If a part of a step goes on, what holds at the head of the loop still holds, and the
      pass is nearer to its end. */
  ghost predicate Steps(first: bool, data: string, s: Scan, o: Outcome) {
    match o
    case Go(t) => Inv(first, data, t) && Shrinks(first, data, s, t)
    case _ => true
  }

  lemma NumberGoesOn(data: string, s: Scan, n: Node, m: Num)
    requires Inv(true, data, s) && s.c.p < |data| && InNumber(s)
    requires (n.kind == Integer || n.kind == Double) && n.parent == s.nodes[s.c.top].parent && m.start == s.num.start
    ensures Inv(true, data, NumberOn(s, n, m)) && Shrinks(true, data, s, NumberOn(s, n, m))
  {
    SetKeeps(s, n);
    hide Family;
  }

  lemma NumberGoesBack(data: string, s: Scan)
    requires Inv(true, data, s) && s.c.p <= |data| && InNumber(s)
    ensures Inv(true, data, NumberBack(s)) && Shrinks(true, data, s, NumberBack(s))
  {
    SetKeeps(Move(s, s.num.start), s.nodes[s.c.top].(kind := Str));
    hide Family;
  }

  lemma StepDigit(data: string, s: Scan)
    requires Inv(true, data, s) && s.c.p < |data| && InNumber(s)
    ensures Steps(true, data, s, DigitStep(s, CharAt(data, s.c.p)))
  {
    var b, num, n := CharAt(data, s.c.p), s.num, s.nodes[s.c.top];
    if n.kind != Integer || num.exp {
      NumberGoesOn(data, s, n, num.(digits := num.digits + 1, sign := num.sign || num.exp));
    } else {
      NumberGoesOn(data, s, n.(ival := Int64(n.ival * 10 + (b as int - '0' as int))),
                   num.(digits := num.digits + 1, zero := num.digits == 0 && b == '0'));
    }
    hide Inv, Shrinks, NumberOn, CharAt, Int64;
  }

  lemma StepNumber(data: string, s: Scan)
    requires Inv(true, data, s) && s.c.p <= |data| && InNumber(s)
    ensures Steps(true, data, s, NumberStep(data, s))
  {
    var b, num, n := CharAt(data, s.c.p), s.num, s.nodes[s.c.top];
    if Digit(b) {
      StepDigit(data, s);
    } else if b == '+' || b == '-' {
      NumberGoesOn(data, s, n, num.(sign := true));
    } else if b == '.' {
      NumberGoesOn(data, s, n.(kind := Double), num.(digits := 0));
    } else if b == 'e' || b == 'E' {
      NumberGoesOn(data, s, n.(kind := Double), num.(digits := 0, zero := false, exp := true));
    }
    NumberGoesBack(data, s);
    NumberAttached(data, s);
    hide Inv, Shrinks, NumberOn, NumberBack, CharAt, Digit, DigitStep, Attach;
  }

  lemma NumberAttached(data: string, s: Scan)
    requires Inv(true, data, s) && s.c.p <= |data| && InNumber(s)
    ensures Steps(true, data, s, Attach(true, s))
  {
    hide Family, Attach;
    if Attach(true, s).Go? { AttachKeeps(true, s); }
  }

  lemma StepName(first: bool, data: string, s: Scan)
    requires Inv(first, data, s) && s.c.p <= |data| && !s.c.str && !s.c.line && !s.c.block && !s.c.done && !s.c.seek
            && TopIs(s, Object)
    requires NameStep(first, data, s).Go?
    ensures var t := NameStep(first, data, s).s; Inv(first, data, t) && Shrinks(first, data, s, t)
  {
    hide Family, Attach;
    if CharAt(data, s.c.p) == '}' { AttachKeeps(first, s.(c := s.c.(comma := false, p := s.c.p + 1))); }
  }

  lemma StepSlash(first: bool, data: string, s: Scan)
    requires Inv(first, data, s) && s.c.p <= |data| && !s.c.str && !s.c.line && !s.c.block && CharAt(data, s.c.p) == '/'
    requires SlashStep(first, data, s).Go?
    ensures var t := SlashStep(first, data, s).s; Inv(first, data, t) && Shrinks(first, data, s, t)
  {
    hide Family, NewBare;
    var b := CharAt(data, s.c.p + 1);
    if b != '/' && b != '*' { BareKeeps(first, data, s, s.(c := s.c.(seek := false))); }
  }

  lemma CommentMoves(first: bool, data: string, s: Scan, q: int, line: bool, block: bool)
    requires Inv(first, data, s) && !s.c.str && (s.c.line || s.c.block) && s.c.p <= q <= |data|
    requires (!line && !block) || (line == s.c.line && block == s.c.block && s.c.p < q)
    ensures var t := CommentAt(s, q, line, block); Inv(first, data, t) && Shrinks(first, data, s, t)
  {
    hide Family, Ends;
  }

  lemma Inside(data: string, p: int)
    ensures CharAt(data, p) != '\0' ==> 0 <= p < |data|
  {
  }

  lemma StepLine(first: bool, data: string, s: Scan)
    requires Inv(first, data, s) && s.c.p <= |data| && !s.c.str && s.c.line
    ensures Steps(first, data, s, LineStep(data, s))
  {
    hide CommentAt, CharAt, Shrinks;
    var b, p := CharAt(data, s.c.p), s.c.p;
    Inside(data, p);
    CommentMoves(first, data, s, p, false, s.c.block);
    if b != '\0' { CommentMoves(first, data, s, p + 1, s.c.line, s.c.block); }
    hide Inv;
  }

  lemma StepBlock(first: bool, data: string, s: Scan)
    requires Inv(first, data, s) && s.c.p <= |data| && !s.c.str && s.c.block
    ensures Steps(first, data, s, BlockStep(data, s))
  {
    hide CommentAt, CharAt, Shrinks;
    var b, p := CharAt(data, s.c.p), s.c.p;
    Inside(data, p);
    Inside(data, p + 1);
    assert s.c.line == false;
    if b != '\0' {
      CommentMoves(first, data, s, p + 1, s.c.line, s.c.block);
      if CharAt(data, p + 1) == '/' { CommentMoves(first, data, s, p + 2, s.c.line, false); }
    }
    hide Inv;
  }

  lemma StepComment(first: bool, data: string, s: Scan)
    requires Inv(first, data, s) && s.c.p <= |data| && !s.c.str && (s.c.line || s.c.block)
    ensures Steps(first, data, s, CommentStep(data, s))
  {
    hide Steps, LineStep, BlockStep, Inv;
    if s.c.line { StepLine(first, data, s); } else { StepBlock(first, data, s); }
  }

  lemma StepShrinks(first: bool, data: string, s: Scan)
    requires Inv(first, data, s) && Step(first, data, s).Go?
    ensures var t := Step(first, data, s).s; Inv(first, data, t) && Shrinks(first, data, s, t)
  {
    hide Family, StringStep, CommentStep, SlashStep, SeekStep, NameStep, NumberStep;
    if s.c.str {
      StepString(first, data, s);
    } else if s.c.line || s.c.block {
      StepComment(first, data, s);
    } else if CharAt(data, s.c.p) == '/' {
      StepSlash(first, data, s);
    } else if s.c.done {
    } else if s.c.seek {
      StepSeek(first, data, s);
    } else if TopIs(s, Object) {
      StepName(first, data, s);
    } else if first {
      StepNumber(data, s);
    }
  }

  /** The whole of a pass. */
  ghost function Run(first: bool, data: string, s: Scan): Outcome
    requires Inv(first, data, s)
    decreases |data| + 1 - Base(first, s), Rank(first, data, s), |data| + 1 - s.c.p
  {
    match Step(first, data, s)
    case Go(t) => StepShrinks(first, data, s); Run(first, data, t)
    case o => o
  }

  lemma StringNeverAccepts(first: bool, data: string, s: Scan)
    requires HasTop(s)
    ensures !StringStep(first, data, s).Accept?
  {
    hide Escaped, Ends, Adopt, Named, Find;
  }

  lemma AtomNeverAccepts(first: bool, data: string, s: Scan, kind: Kind, bval: bool, p: int)
    ensures !Atom(first, s, kind, bval, p).Accept? && !NewBare(first, s).Accept?
    ensures !NumberStart(first, data, s, CharAt(data, s.c.p)).Accept?
  {
    hide Adopt, Prepared, TopIs;
  }

  lemma ValueNeverAccepts(first: bool, data: string, s: Scan)
    ensures !ValueStep(first, data, s, CharAt(data, s.c.p)).Accept?
  {
    hide Atom, NewBare, NumberStart, TopIs, Digit, Reads, Prepared;
    AtomNeverAccepts(first, data, s, Boolean, true, s.c.p + 4);
    AtomNeverAccepts(first, data, s, Boolean, false, s.c.p + 5);
    AtomNeverAccepts(first, data, s, Null, false, s.c.p + 4);
  }

  lemma SeekNeverAccepts(first: bool, data: string, s: Scan)
    ensures !SeekStep(first, data, s).Accept? && !SlashStep(first, data, s).Accept?
  {
    hide Adopt, NewBare, ValueStep, Space;
    ValueNeverAccepts(first, data, s.(c := s.c.(seek := false)));
    AtomNeverAccepts(first, data, s.(c := s.c.(seek := false)), Null, false, 0);
  }

  lemma NameNeverAccepts(first: bool, data: string, s: Scan)
    requires HasTop(s)
    ensures !NameStep(first, data, s).Accept? && !NumberStep(data, s).Accept?
  {
    hide Adopt, Digit;
  }

  lemma AcceptedAt(first: bool, data: string, s: Scan)
    requires Inv(first, data, s) && Step(first, data, s).Accept?
    ensures Step(first, data, s).nodes == s.nodes && s.c.done && !s.c.str && !s.c.line && !s.c.block
  {
    hide Inv, StringStep, SlashStep, SeekStep, NameStep, NumberStep;
    SeekNeverAccepts(first, data, s);
    if HasTop(s) {
      StringNeverAccepts(first, data, s);
      NameNeverAccepts(first, data, s);
    }
  }

  lemma {:induction false} RunAccepts(first: bool, data: string, s: Scan)
    requires Inv(first, data, s)
    ensures !Run(first, data, s).Go? && (Run(first, data, s).Accept? ==> Family(Run(first, data, s).nodes))
    decreases |data| + 1 - Base(first, s), Rank(first, data, s), |data| + 1 - s.c.p
  {
    hide Step, Shrinks, Inv1;
    match Step(first, data, s)
    case Go(t) => StepShrinks(first, data, s); ShrinksTo(first, data, s, t); RunAccepts(first, data, t);
    case Accept(_) => AcceptedAt(first, data, s);
    case _ =>
  }

  /** The measure of a pass in terms of `Shrinks`. */
  lemma ShrinksTo(first: bool, data: string, s: Scan, t: Scan)
    requires Shrinks(first, data, s, t) && Inv(first, data, s) && Inv(first, data, t)
    ensures 0 <= |data| + 1 - Base(first, t) && 0 <= |data| + 1 - t.c.p
    ensures (|data| + 1 - Base(first, s), Rank(first, data, s), |data| + 1 - s.c.p
             decreases to |data| + 1 - Base(first, t), Rank(first, data, t), |data| + 1 - t.c.p)
  {
  }

  /** A byte order mark in front of a text is skipped. */
  function SkipMark(data: string): string {
    if |data| >= 3 && data[0] as int == 0xEF && data[1] as int == 0xBB
      && data[2] as int == 0xBF then data[3..] else data
  }

  /** Both passes, one after the other. */
  ghost function Decoded(data: string): Outcome {
    if data == "" then Reject
    else
      match Run(true, SkipMark(data), Start([]))
      case Accept(nodes) => RunAccepts(true, SkipMark(data), Start([])); Run(false, SkipMark(data), Start(nodes))
      case o => o
  }

  method Decode(data: string) returns (r: Outcome)
    ensures r == Decoded(data)
  {
    if data == "" {
      return Reject;
    }
    var text := SkipMark(data);
    r := Pass(true, text, []);
    RunAccepts(true, text, Start([]));
    if r.Accept? {
      r := Pass(false, text, r.nodes);
    }
  }

  /** One pass over the text. */
  method Pass(first: bool, text: string, nodes: seq<Node>) returns (r: Outcome)
    requires Family(nodes) && (first ==> nodes == [])
    ensures r == Run(first, text, Start(nodes))
  {
    hide Inv1;
    var s := Start(nodes);
    if first { StartInv(text, nodes); }
    r := Step(first, text, s);
    while r.Go?
      invariant Inv(first, text, s) && r == Step(first, text, s)
      invariant Run(first, text, s) == Run(first, text, Start(nodes))
      decreases |text| + 1 - Base(first, s), Rank(first, text, s), |text| + 1 - s.c.p
    {
      StepShrinks(first, text, s);
      s := r.s;
      r := Step(first, text, s);
    }
  }

  lemma StartInv(text: string, nodes: seq<Node>)
    requires nodes == []
    ensures Inv1(text, Start(nodes))
  {
  }
}
