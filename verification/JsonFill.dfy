/** What the second pass makes of the printed form of a value: nodes that hold the value. */
module JsonFill {
  import opened JsonText
  import opened JsonMembers
  import opened JsonValue
  import opened JsonScan
  import opened JsonPasses
  import opened JsonBuild
  import opened JsonMeasure
  import opened Wrappers

  // ---------------------------------------------------------------- the second pass fills

  /** What a printed value is read as: the last number of a container and every null turn
      into strings, other numbers lose their sign, and the members of an object are sorted,
      the last one of each name. */
  ghost function Norm(v: Value, last: bool): Value
    decreases v, 1
  {
    match v
    case Int(n) => if last then Text(Decimal(n)) else Int(Abs(n))
    case Nil => Text("null")
    case Gone => Text("null")
    case Arr(items) => Arr(NormItems(items))
    case Obj(members) => Obj(Collected([], NormMembers(members)))
    case _ => v
  }

  ghost function NormItems(items: seq<Value>): (r: seq<Value>)
    ensures |r| == |items|
    decreases items, 0
  {
    if items == [] then [] else [Norm(items[0], |items| == 1)] + NormItems(items[1..])
  }

  ghost function NormMembers(members: seq<Member<Value>>): (r: seq<Member<Value>>)
    ensures |r| == |members|
    decreases members, 0
  {
    if members == [] then []
    else [Member(members[0].name, Norm(members[0].value, |members| == 1))] + NormMembers(members[1..])
  }

  ghost predicate HoldsText(n: Node, text: string) {
    n.kind == Str && n.len == |text| <= |n.text| && n.text[..|text|] == text
  }

  /** The names of members and their nodes, the first of which is `b`. */
  ghost function Ids(members: seq<Member<Value>>, b: int): seq<Member<int>> {
    if members == [] then [] else [Member(members[0].name, b)] + Ids(members[1..], b + Count(members[0].value))
  }

  /** The filled nodes from `k` on are what is read of the value `v`. */
  ghost predicate Holds(nodes: seq<Node>, k: int, v: Value, last: bool)
    decreases v, 1
  {
    && 0 <= k && k + Count(v) <= |nodes|
    && match v
       case Text(text) => HoldsText(nodes[k], text)
       case Nil => HoldsText(nodes[k], "null")
       case Gone => HoldsText(nodes[k], "null")
       case Int(n) =>
         if last then HoldsText(nodes[k], Decimal(n)) else nodes[k].kind == Integer && nodes[k].ival == Abs(n)
       case Bool(b) => nodes[k].kind == Boolean && nodes[k].bval == b
       case Arr(items) => nodes[k].kind == Array && HoldsItems(nodes, nodes[k].items, k + 1, items)
       case Obj(members) =>
         nodes[k].kind == Object && nodes[k].members == Collected([], Ids(members, k + 1))
         && HoldsMembers(nodes, k + 1, members)
  }

  ghost predicate HoldsItems(nodes: seq<Node>, ids: seq<int>, b: int, items: seq<Value>)
    decreases items, 0
  {
    && |ids| == |items|
    && (items == [] || (ids[0] == b && Holds(nodes, b, items[0], |items| == 1)
       && HoldsItems(nodes, ids[1..], b + Count(items[0]), items[1..])))
  }

  ghost predicate HoldsMembers(nodes: seq<Node>, b: int, members: seq<Member<Value>>)
    decreases members, 0
  {
    members == []
    || (Holds(nodes, b, members[0].value, |members| == 1)
       && HoldsMembers(nodes, b + Count(members[0].value), members[1..]))
  }

  lemma {:induction false} HoldsFrame(a: seq<Node>, b: seq<Node>, k: int, v: Value, last: bool)
    requires Holds(a, k, v, last) && SameFrom(a, b, k, k + Count(v))
    ensures Holds(b, k, v, last)
    decreases v, 1
  {
    match v
    case Arr(items) => HoldsItemsFrame(a, b, a[k].items, k + 1, items);
    case Obj(members) => HoldsMembersFrame(a, b, k + 1, members);
    case _ =>
  }

  lemma {:induction false} HoldsItemsFrame(a: seq<Node>, b: seq<Node>, ids: seq<int>, k: int, items: seq<Value>)
    requires HoldsItems(a, ids, k, items) && SameFrom(a, b, k, k + CountItems(items))
    ensures HoldsItems(b, ids, k, items)
    decreases items, 0
  {
    if items != [] {
      HoldsFrame(a, b, k, items[0], |items| == 1);
      HoldsItemsFrame(a, b, ids[1..], k + Count(items[0]), items[1..]);
    }
  }

  lemma {:induction false} HoldsMembersFrame(a: seq<Node>, b: seq<Node>, k: int, members: seq<Member<Value>>)
    requires HoldsMembers(a, k, members) && SameFrom(a, b, k, k + CountMembers(members))
    ensures HoldsMembers(b, k, members)
    decreases members, 0
  {
    if members != [] {
      HoldsFrame(a, b, k, members[0].value, |members| == 1);
      HoldsMembersFrame(a, b, k + Count(members[0].value), members[1..]);
    }
  }

  /** The second pass went over `n` nodes and changed only those and its current one. */
  ghost predicate Passed(s: Scan, t: Scan, n: nat) {
    && |t.nodes| == |s.nodes| && t.alloc == s.alloc + n
    && (forall i | 0 <= i < |s.nodes| && i != s.c.top && !(s.alloc <= i < s.alloc + n) :: t.nodes[i] == s.nodes[i])
  }

  ghost predicate CanAdopt(s: Scan) {
    s.c.top == -1
    || (HasTop(s) && s.nodes[s.c.top].size < MAX_SIZE
        && ((TopIs(s, Array) && |s.nodes[s.c.top].items| < s.nodes[s.c.top].room)
            || (TopIs(s, Object) && s.nodes[s.c.top].index < |s.nodes[s.c.top].members|)))
  }

  /** The current node took the node `s.alloc` as a child. */
  ghost predicate HasAdopted(s: Scan, t: Scan) {
    if s.c.top == -1 then t.c.done && t.c.top == s.alloc
    else HasTop(s) && HasTop(t) && !t.c.done && t.c.top == s.c.top
         && Adopt(false, s.nodes[s.c.top], s.alloc) == Some(t.nodes[t.c.top])
  }

  lemma AttachSecond(s: Scan, w: Scan, m: nat)
    requires CanAdopt(s) && Family(s.nodes) && -1 <= s.c.top < s.alloc < |s.nodes| && m > 0 && s.alloc + m <= |s.nodes|
    requires Passed(s, w, m) && (HasTop(s) ==> w.nodes[s.c.top] == s.nodes[s.c.top])
    requires w.c.top == s.alloc && w.nodes[s.alloc].parent == s.c.top && !w.c.done
    ensures Attach(false, w).Go?
    ensures var t := Attach(false, w).s;
            Passed(s, t, m) && HasAdopted(s, t) && SameFrom(w.nodes, t.nodes, s.alloc, s.alloc + m)
  {
  }

  /** A string whose memory is there is filled and attached. */
  lemma FinishSecond(s: Scan, w: Scan, text: string, skip: nat)
    requires CanAdopt(s) && Family(s.nodes) && -1 <= s.c.top < s.alloc < |s.nodes|
    requires Passed(s, w, 1) && (HasTop(s) ==> w.nodes[s.c.top] == s.nodes[s.c.top])
    requires w.c.top == s.alloc && !w.c.done && w.c.len == 0
    requires var n := w.nodes[s.alloc]; n.kind == Str && n.parent == s.c.top && |n.text| == |text| + 1
    ensures FinishStr(false, w, text, skip).Go?
    ensures var t := FinishStr(false, w, text, skip).s;
            Passed(s, t, 1) && HasAdopted(s, t) && HoldsText(t.nodes[s.alloc], text)
  {
    hide Attach;
    var x := Put(false, w, text).s;
    var y := EndStr(false, x.(c := x.c.(str := false, quote := false, p := w.c.p + skip))).s;
    var n := y.nodes[s.alloc];
    assert Overwrite(w.nodes[s.alloc].text, 0, text)[..|text|] == text;
    assert n.text[..|text|] == text && n.len == |text|;
    AttachSecond(s, y, 1);
  }

  lemma {:induction false} FillValue(s: Scan, v: Value, last: bool)
    requires AtValue(false, s) && s.c.p >= 0 && CanAdopt(s) && Printable(v) && Modest(v)
    requires s.c.top < s.alloc && Sized(s.nodes, s.alloc, s.c.top, v, last)
    ensures Build(false, s, v, last).Go?
    ensures var t := Build(false, s, v, last).s;
            Passed(s, t, Count(v)) && HasAdopted(s, t) && Holds(t.nodes, s.alloc, v, last)
    decreases v, 1
  {
    match v
    case Text(text) => FillText(s, text);
    case Nil => FillNull(s);
    case Gone => FillNull(s);
    case Int(n) => FillInt(s, n, last);
    case Bool(b) => FillBool(s, b);
    case Arr(items) => FillArray(s, v, last);
    case Obj(members) => FillObject(s, v, last);
  }

  lemma FillText(s: Scan, text: string)
    requires AtValue(false, s) && CanAdopt(s) && s.c.top < s.alloc
            && Sized(s.nodes, s.alloc, s.c.top, Text(text), false)
    ensures BuildStr(false, s, text, |Quote(text)|).Go?
    ensures var t := BuildStr(false, s, text, |Quote(text)|).s;
            Passed(s, t, 1) && HasAdopted(s, t) && HoldsText(t.nodes[s.alloc], text)
  {
    hide Family, FinishStr, Quote;
    var t := New(false, s.(c := s.c.(p := s.c.p + 1, seek := false)), Str).s;
    FinishSecond(s, t.(c := t.c.(str := true, len := 0)), text, |Quote(text)| + 1);
  }

  lemma FillNull(s: Scan)
    requires AtValue(false, s) && CanAdopt(s) && s.c.top < s.alloc && Sized(s.nodes, s.alloc, s.c.top, Nil, false)
    ensures BuildBare(false, s, "null").Go?
    ensures var t := BuildBare(false, s, "null").s;
            Passed(s, t, 1) && HasAdopted(s, t) && HoldsText(t.nodes[s.alloc], "null")
  {
    hide Family, FinishStr;
    FinishSecond(s, Bare(New(false, s.(c := s.c.(seek := false)), Str).s), "null", 4);
  }

  lemma FillInt(s: Scan, n: int, last: bool)
    requires AtValue(false, s) && CanAdopt(s) && s.c.top < s.alloc && Sized(s.nodes, s.alloc, s.c.top, Int(n), last)
    ensures BuildInt(false, s, n, last).Go?
    ensures var t := BuildInt(false, s, n, last).s;
            Passed(s, t, 1) && HasAdopted(s, t) && Holds(t.nodes, s.alloc, Int(n), last)
  {
    hide Family, FinishStr, Attach, Decimal;
    var t := New(false, s.(c := s.c.(seek := false)), Integer).s;
    if last {
      FinishSecond(s, Bare(t), Decimal(n), |Decimal(n)|);
    } else {
      AttachSecond(s, Move(t, s.c.p + |Decimal(n)|), 1);
    }
  }

  /** The second pass takes a boolean, which its node holds already. */
  ghost function WithBool(s: Scan, p: int): Scan {
    Scan(s.c.(seek := false, top := s.alloc, p := p), s.num, s.nodes, s.alloc + 1)
  }

  lemma BoolIs(s: Scan, b: bool)
    requires 0 <= s.alloc < |s.nodes| && s.nodes[s.alloc].kind == Boolean && s.nodes[s.alloc].bval == b
    ensures Build(false, s, Bool(b), false) == Attach(false, WithBool(s, s.c.p + |Print(Bool(b))|))
  {
    hide Attach, Atom, Print, WithBool;
    BoolAtom(s, b, s.c.p + |Print(Bool(b))|);
  }

  lemma BoolAtom(s: Scan, b: bool, p: int)
    requires 0 <= s.alloc < |s.nodes| && s.nodes[s.alloc].kind == Boolean && s.nodes[s.alloc].bval == b
    ensures Atom(false, s.(c := s.c.(seek := false)), Boolean, b, p) == Attach(false, WithBool(s, p))
  {
    hide Attach, New, SetTop, Move, WithBool;
    NewBool(s.(c := s.c.(seek := false)));
    BoolSet(s, b, p);
  }

  lemma BoolSet(s: Scan, b: bool, p: int)
    requires 0 <= s.alloc < |s.nodes| && s.nodes[s.alloc].bval == b
    ensures var t := Scan(s.c.(seek := false).(top := s.alloc), s.num, s.nodes, s.alloc + 1);
      HasTop(t) && SetTop(Move(t, p), t.nodes[t.c.top].(bval := b || t.nodes[t.c.top].bval)) == WithBool(s, p)
  {
    var n := s.nodes[s.alloc];
    assert n.(bval := b || n.bval) == n && s.nodes[s.alloc := n] == s.nodes;
  }

  lemma NewBool(s: Scan)
    requires 0 <= s.alloc < |s.nodes| && s.nodes[s.alloc].kind == Boolean
    ensures New(false, s, Boolean) == Go(Scan(s.c.(top := s.alloc), s.num, s.nodes, s.alloc + 1))
  {
    assert s.nodes[s.alloc := s.nodes[s.alloc]] == s.nodes;
  }

  lemma BoolReady(s: Scan, b: bool, w: Scan)
    requires AtValue(false, s) && s.c.top < s.alloc && Sized(s.nodes, s.alloc, s.c.top, Bool(b), false)
    requires w == WithBool(s, w.c.p)
    ensures 0 <= s.alloc < |s.nodes| && s.nodes[s.alloc].kind == Boolean && s.nodes[s.alloc].bval == b
    ensures Passed(s, w, 1) && -1 <= s.c.top && Family(s.nodes) && !w.c.done && w.nodes == s.nodes
    ensures w.c.top == s.alloc && w.nodes[s.alloc].parent == s.c.top
  {
    hide Family;
  }

  lemma BoolHeld(s: Scan, b: bool, t: Scan)
    requires 0 <= s.alloc < |s.nodes| && s.nodes[s.alloc].kind == Boolean && s.nodes[s.alloc].bval == b
    requires SameFrom(s.nodes, t.nodes, s.alloc, s.alloc + 1)
    ensures Holds(t.nodes, s.alloc, Bool(b), false)
  {
  }

  lemma FillBool(s: Scan, b: bool)
    requires AtValue(false, s) && CanAdopt(s) && s.c.top < s.alloc && Sized(s.nodes, s.alloc, s.c.top, Bool(b), false)
    ensures Build(false, s, Bool(b), false).Go?
    ensures var t := Build(false, s, Bool(b), false).s;
            Passed(s, t, 1) && HasAdopted(s, t) && Holds(t.nodes, s.alloc, Bool(b), false)
  {
    var w := WithBool(s, s.c.p + |Print(Bool(b))|);
    hide AtValue, CanAdopt, HasAdopted, Passed, Build, Print, Family, Attach, Sized, Holds, SameFrom;
    BoolReady(s, b, w);
    BoolIs(s, b);
    AttachSecond(s, w, 1);
    BoolHeld(s, b, Attach(false, w).s);
  }

  /** The node at `k` of a container when its memory is there and nothing is in it. */
  ghost predicate Emptied(n: Node, v: Value, parent: int) {
    && n.parent == parent && n.items == [] && n.members == [] && n.used == 0 && n.index == 0
    && n.size == Parts(v) && (v.Arr? ==> n.kind == Array && n.room == Parts(v))
    && (v.Obj? ==> n.kind == Object && (Parts(v) > 0 ==> n.room == Parts(v) + 1 && |n.area| == NameBytes(v.members)))
  }

  /** A container is opened: the next node is prepared and becomes the current one. */
  lemma Opened(s: Scan, v: Value, last: bool, kind: Kind)
    requires AtValue(false, s) && (v.Arr? || v.Obj?) && kind == (if v.Arr? then Array else Object)
    requires s.c.top < s.alloc && Sized(s.nodes, s.alloc, s.c.top, v, last)
    ensures var o := New(false, s.(c := s.c.(seek := false, p := s.c.p + 1)), kind);
            && o.Go? && o.s.c == s.c.(seek := false, p := s.c.p + 1, top := s.alloc) && o.s.alloc == s.alloc + 1
            && |o.s.nodes| == |s.nodes| && (forall i | 0 <= i < |s.nodes| && i != s.alloc :: o.s.nodes[i] == s.nodes[i])
            && Emptied(o.s.nodes[s.alloc], v, s.c.top) && Sane(false, o.s)
  {
    hide Family;
    NewKeeps(false, s.(c := s.c.(seek := false, p := s.c.p + 1)), kind);
  }

  lemma {:induction false} FillArray(s: Scan, v: Value, last: bool)
    requires v.Arr? && AtValue(false, s) && s.c.p >= 0 && CanAdopt(s) && Printable(v) && Modest(v)
    requires s.c.top < s.alloc && Sized(s.nodes, s.alloc, s.c.top, v, last)
    ensures Build(false, s, v, last).Go?
    ensures var t := Build(false, s, v, last).s;
            Passed(s, t, Count(v)) && HasAdopted(s, t) && Holds(t.nodes, s.alloc, v, last)
    decreases v, 0
  {
    hide Family, New, Attach, BuildItems, Printable, CanAdopt, HasAdopted, ItemsFilled, Holds;
    var items, k := v.items, s.alloc;
    PartsPrintable(v);
    Opened(s, v, last, Array);
    var t1 := New(false, s.(c := s.c.(seek := false, p := s.c.p + 1)), Array).s;
    var t2 := t1.(c := t1.c.(seek := true));
    SizedItemsFrame(s.nodes, t2.nodes, k + 1, k, items);
    FillItems(t2, items);
    var x := BuildItems(false, t2, items).s;
    ItemsOver(false, t2, items);
    var w := x.(c := x.c.(comma := false, seek := false, p := x.c.p + 1));
    ClosedArray(s, t2, x, w, v, last);
  }

  lemma ClosedArray(s: Scan, t: Scan, x: Scan, w: Scan, v: Value, last: bool)
    requires v.Arr? && CanAdopt(s) && Family(s.nodes) && -1 <= s.c.top < s.alloc && s.alloc + Count(v) <= |s.nodes|
    requires |t.nodes| == |s.nodes| && t.alloc == s.alloc + 1 && t.c.top == s.alloc
    requires forall i | 0 <= i < |s.nodes| && i != s.alloc :: t.nodes[i] == s.nodes[i]
    requires Emptied(t.nodes[s.alloc], v, s.c.top) && ItemsFilled(t, x, v.items)
    requires w.nodes == x.nodes && w.alloc == x.alloc && w.c.top == s.alloc && !w.c.done
    ensures Attach(false, w).Go?
    ensures var u := Attach(false, w).s;
            Passed(s, u, Count(v)) && HasAdopted(s, u) && Holds(u.nodes, s.alloc, v, last)
  {
    hide Family, Attach, Holds, HoldsItems, CanAdopt, HasAdopted;
    var ids := w.nodes[s.alloc].items;
    assert ids[0..] == ids && HoldsItems(w.nodes, ids, s.alloc + 1, v.items) && w.nodes[s.alloc].kind == Array;
    PassedOpened(s, t, w, CountItems(v.items));
    AttachSecond(s, w, Count(v));
    var u := Attach(false, w).s;
    hide Passed, Emptied, ItemsFilled;
    HoldsItemsFrame(w.nodes, u.nodes, ids, s.alloc + 1, v.items);
    ArrayHolds(u.nodes, s.alloc, v, last);
  }

  /** What happened behind a container that was opened. */
  lemma PassedOpened(s: Scan, t: Scan, w: Scan, n: nat)
    requires |t.nodes| == |s.nodes| && t.alloc == s.alloc + 1 && t.c.top == s.alloc && s.c.top < s.alloc
    requires forall i | 0 <= i < |s.nodes| && i != s.alloc :: t.nodes[i] == s.nodes[i]
    requires |w.nodes| == |t.nodes| && w.alloc == t.alloc + n
    requires forall i | 0 <= i < |t.nodes| && i != t.c.top && !(t.alloc <= i < t.alloc + n) :: w.nodes[i] == t.nodes[i]
    ensures Passed(s, w, n + 1) && (HasTop(s) ==> w.nodes[s.c.top] == s.nodes[s.c.top])
  {
  }

  lemma ArrayHolds(nodes: seq<Node>, k: int, v: Value, last: bool)
    requires v.Arr? && 0 <= k && k + Count(v) <= |nodes| && nodes[k].kind == Array
    requires HoldsItems(nodes, nodes[k].items, k + 1, v.items)
    ensures Holds(nodes, k, v, last)
  {
  }

  /** Between `s` and `t` the current array got the given elements. */
  ghost predicate ItemsFilled(s: Scan, t: Scan, items: seq<Value>) {
    && Passed(s, t, CountItems(items)) && HasTop(s)
    && var a, b := s.nodes[s.c.top], t.nodes[s.c.top];
    && |b.items| == |a.items| + |items| && b == a.(size := a.size + |items|, items := a.items + b.items[|a.items|..])
    && HoldsItems(t.nodes, b.items[|a.items|..], s.alloc, items)
  }

  lemma {:induction false} FillItems(s: Scan, items: seq<Value>)
    requires AtValue(false, s) && s.c.p >= 0 && TopIs(s, Array) && s.c.top < s.alloc
    requires s.nodes[s.c.top].size + |items| <= MAX_SIZE && |s.nodes[s.c.top].items| + |items| <= s.nodes[s.c.top].room
    requires forall i | 0 <= i < |items| :: Printable(items[i]) && Modest(items[i])
    requires SizedItems(s.nodes, s.alloc, s.c.top, items) && s.alloc + CountItems(items) <= |s.nodes|
    ensures BuildItems(false, s, items).Go?
    ensures var t := BuildItems(false, s, items).s; !t.c.done && t.c.top == s.c.top && ItemsFilled(s, t, items)
    decreases items, 2
  {
    hide Family, Build, Printable, Modest;
    var a := s.nodes[s.c.top];
    if items == [] {
      NoItemsFilled(s);
    } else {
      FillValue(s, items[0], |items| == 1);
      var x := Build(false, s, items[0], |items| == 1).s;
      BuildOver(false, s, items[0], |items| == 1);
      assert x.nodes[s.c.top].items == a.items + [s.alloc];
      if |items| == 1 {
        NoItemsFilled(x);
        assert items[1..] == [];
        FilledItems(s, x, x, items);
      } else {
        SizedItemsFrame(s.nodes, x.nodes, x.alloc, s.c.top, items[1..]);
        FillItems(Comma(x), items[1..]);
        FilledItems(s, Comma(x), BuildItems(false, Comma(x), items[1..]).s, items);
      }
    }
  }

  lemma NoItemsFilled(s: Scan)
    requires HasTop(s)
    ensures ItemsFilled(s, s, [])
  {
    var a := s.nodes[s.c.top];
    assert a.items + a.items[|a.items|..] == a.items;
  }

  /** The first element and the others together. */
  lemma FilledItems(s: Scan, x: Scan, t: Scan, items: seq<Value>)
    requires items != [] && HasTop(s) && s.c.top < s.alloc && x.c.top == s.c.top && Passed(s, x, Count(items[0]))
    requires var a := s.nodes[s.c.top];
             x.nodes[s.c.top] == a.(size := a.size + 1, items := a.items + [s.alloc])
    requires Holds(x.nodes, s.alloc, items[0], |items| == 1)
    requires ItemsFilled(x, t, items[1..])
    ensures ItemsFilled(s, t, items)
  {
    var a, b := s.nodes[s.c.top], t.nodes[s.c.top];
    var ids := b.items[|a.items|..];
    PassedBoth(s, x, t, items);
    OneItemMore(a, x.nodes[s.c.top], b, s.alloc, |items| - 1);
    HoldsFrame(x.nodes, t.nodes, s.alloc, items[0], |items| == 1);
    hide Passed, Holds, Count;
  }

  lemma PassedBoth(s: Scan, x: Scan, t: Scan, items: seq<Value>)
    requires items != [] && x.c.top == s.c.top && s.c.top < s.alloc
    requires Passed(s, x, Count(items[0])) && Passed(x, t, CountItems(items[1..]))
    ensures Passed(s, t, CountItems(items))
  {
  }

  lemma OneItemMore(a: Node, x: Node, b: Node, id: int, n: nat)
    requires x == a.(size := a.size + 1, items := a.items + [id])
    requires |b.items| == |x.items| + n && b == x.(size := x.size + n, items := x.items + b.items[|x.items|..])
    ensures var ids := b.items[|a.items|..];
      && |ids| == n + 1 && ids[0] == id && ids[1..] == b.items[|x.items|..]
      && b == a.(size := a.size + n + 1, items := a.items + ids)
  {
  }

  // ---------------------------------------------------------------- and objects

  /** The current object has read one more name, whose member waits for its value. */
  ghost predicate NameFilled(a: Node, b: Node, name: string) {
    && |b.area| == |a.area|
    && b == a.(area := b.area, used := a.used + |name| + 1, index := Find(a.members, name),
       members := Named(a.members, name))
  }

  lemma NamedShort(members: seq<Member<int>>, name: string)
    ensures |Named(members, name)| <= |members| + 1 && Find(members, name) < |Named(members, name)|
  {
  }

  lemma FillName(s: Scan, name: string)
    requires AtName(false, s) && s.c.p >= 0 && |name| <= MAX_SIZE
    requires var n := s.nodes[s.c.top]; n.used + |name| < |n.area| && |n.members| + 1 < n.room
    ensures BuildName(false, s, name, |Quote(name)|).Go?
    ensures var t := BuildName(false, s, name, |Quote(name)|).s;
            && |t.nodes| == |s.nodes| && t.alloc == s.alloc && t.c.top == s.c.top && t.c.p >= 0
            && (forall i | 0 <= i < |s.nodes| && i != s.c.top :: t.nodes[i] == s.nodes[i])
            && NameFilled(s.nodes[s.c.top], t.nodes[s.c.top], name)
            && AtValue(false, t) && TopIs(t, Object)
  {
    hide Named, Family, Find;
    var n := s.nodes[s.c.top];
    NamedShort(n.members, name);
    var area := Overwrite(n.area, n.used, name);
    assert area[n.used..n.used + |name|] == name;
    var x := Put(false, s.(c := s.c.(str := true, len := 0)), name);
    assert x.Go? && x.s.nodes[s.c.top] == n.(area := area) && x.s.c.len == |name|;
    assert BuildName(false, s, name, |Quote(name)|).Go?;
    NameOver(false, s, name);
  }

  /** Between `s` and `t` the current object got the given members. */
  ghost predicate MembersFilled(s: Scan, t: Scan, members: seq<Member<Value>>) {
    && Passed(s, t, CountMembers(members)) && HasTop(s)
    && Grew(s.nodes[s.c.top], t.nodes[s.c.top], members, s.alloc)
    && HoldsMembers(t.nodes, s.alloc, members)
  }

  /** An object node that got the given members, whose nodes begin at `id`. */
  ghost predicate Grew(a: Node, b: Node, members: seq<Member<Value>>, id: int) {
    && |b.area| == |a.area|
    && b == a.(size := a.size + |members|, members := Collected(a.members, Ids(members, id)), area := b.area,
               used := a.used + NameBytes(members), index := b.index)
  }

  lemma NoMembersFilled(s: Scan)
    requires HasTop(s)
    ensures MembersFilled(s, s, [])
  {
  }

  lemma FilledMembers(s: Scan, n: Scan, x: Scan, t: Scan, members: seq<Member<Value>>)
    requires members != [] && HasTop(s) && s.c.top < s.alloc && x.c.top == s.c.top
    requires Passed(s, n, 0) && n.c.top == s.c.top && n.alloc == s.alloc && Passed(n, x, Count(members[0].value))
    requires |n.nodes| == |x.nodes| == |t.nodes| == |s.nodes|
    requires NameFilled(s.nodes[s.c.top], n.nodes[s.c.top], members[0].name)
    requires Adopt(false, n.nodes[s.c.top], s.alloc) == Some(x.nodes[s.c.top]) && n.nodes[s.c.top].kind == Object
    requires Holds(x.nodes, s.alloc, members[0].value, |members| == 1)
    requires MembersFilled(x, t, members[1..])
    ensures MembersFilled(s, t, members)
  {
    hide *;
    HoldsInside(x.nodes, s.alloc, members[0].value, |members| == 1);
    FilledParts(x, t, members[1..]);
    PassedBehind(n, x, t, Count(members[0].value), CountMembers(members[1..]));
    PassedMembers(s, n, x, t, members);
    OneMemberMore(s.nodes[s.c.top], n.nodes[s.c.top], x.nodes[s.c.top], t.nodes[s.c.top], s.alloc, members);
    HoldsFrame(x.nodes, t.nodes, s.alloc, members[0].value, |members| == 1);
    HoldsOneMore(t.nodes, s.alloc, members);
    FilledAgain(s, t, members);
  }

  lemma HoldsInside(nodes: seq<Node>, k: int, v: Value, last: bool)
    requires Holds(nodes, k, v, last)
    ensures 0 <= k && k + Count(v) <= |nodes|
  {
    hide Count;
  }

  lemma FilledParts(s: Scan, t: Scan, members: seq<Member<Value>>)
    requires MembersFilled(s, t, members)
    ensures Passed(s, t, CountMembers(members)) && HasTop(s) && 0 <= s.c.top < |s.nodes| == |t.nodes|
    ensures Grew(s.nodes[s.c.top], t.nodes[s.c.top], members, s.alloc) && HoldsMembers(t.nodes, s.alloc, members)
  {
    hide Grew, HoldsMembers, CountMembers;
  }

  lemma FilledAgain(s: Scan, t: Scan, members: seq<Member<Value>>)
    requires Passed(s, t, CountMembers(members)) && HasTop(s) && s.c.top < |t.nodes|
    requires Grew(s.nodes[s.c.top], t.nodes[s.c.top], members, s.alloc) && HoldsMembers(t.nodes, s.alloc, members)
    ensures MembersFilled(s, t, members)
  {
    hide Grew, HoldsMembers, CountMembers, Passed;
  }

  lemma PassedBehind(n: Scan, x: Scan, t: Scan, a: nat, b: nat)
    requires Passed(n, x, a) && Passed(x, t, b) && x.c.top < n.alloc
    ensures x.alloc == n.alloc + a && (x.alloc <= |x.nodes| ==> SameFrom(x.nodes, t.nodes, n.alloc, n.alloc + a))
  {
  }

  lemma PassedMembers(s: Scan, n: Scan, x: Scan, t: Scan, members: seq<Member<Value>>)
    requires members != [] && HasTop(s) && s.c.top < s.alloc && x.c.top == s.c.top && n.c.top == s.c.top
    requires Passed(s, n, 0) && Passed(n, x, Count(members[0].value)) && Passed(x, t, CountMembers(members[1..]))
    ensures Passed(s, t, CountMembers(members))
  {
    hide Count;
  }

  lemma OneMemberMore(a: Node, n: Node, x: Node, b: Node, id: int, members: seq<Member<Value>>)
    requires members != [] && NameFilled(a, n, members[0].name)
    requires Adopt(false, n, id) == Some(x) && n.kind == Object
    requires Grew(x, b, members[1..], id + Count(members[0].value))
    ensures Grew(a, b, members, id)
  {
    NamedIsPlaced(a.members, members[0].name, id);
    IdsBegin(a.members, members, id);
    hide Named, Find, Placed, Collected, Ids, Count;
  }

  lemma IdsBegin(start: seq<Member<int>>, members: seq<Member<Value>>, b: int)
    requires members != []
    ensures Collected(start, Ids(members, b))
         == Collected(Placed(start, Member(members[0].name, b)), Ids(members[1..], b + Count(members[0].value)))
  {
    hide Placed, Count;
    assert Ids(members, b)[1..] == Ids(members[1..], b + Count(members[0].value));
  }

  lemma HoldsOneMore(nodes: seq<Node>, b: int, members: seq<Member<Value>>)
    requires members != [] && Holds(nodes, b, members[0].value, |members| == 1)
    requires HoldsMembers(nodes, b + Count(members[0].value), members[1..])
    ensures HoldsMembers(nodes, b, members)
  {
  }

  lemma {:induction false} FillMembers(s: Scan, members: seq<Member<Value>>)
    requires AtName(false, s) && s.c.p >= 0 && s.c.top < s.alloc
    requires var n := s.nodes[s.c.top];
             && n.size + |members| <= MAX_SIZE && (members != [] ==> |n.members| + |members| < n.room)
             && n.used + NameBytes(members) <= |n.area|
    requires forall i | 0 <= i < |members| ::
            |members[i].name| <= MAX_SIZE && Printable(members[i].value) && Modest(members[i].value)
    requires SizedMembers(s.nodes, s.alloc, s.c.top, members) && s.alloc + CountMembers(members) <= |s.nodes|
    ensures BuildMembers(false, s, members).Go?
    ensures var t := BuildMembers(false, s, members).s; !t.c.done && t.c.top == s.c.top && MembersFilled(s, t, members)
    decreases members, 2
  {
    hide Family, Build, BuildName, Printable, Modest, Holds, HoldsMembers, Sized, Named, Find, Quote;
    if members == [] {
      NoMembersFilled(s);
    } else {
      var m := members[0];
      var n, x := FillMember(s, members);
      if |members| == 1 {
        NoMembersFilled(x);
        assert members[1..] == [];
        FilledMembers(s, n, x, x, members);
      } else {
        FillMembers(Comma(x), members[1..]);
        FilledMembers(s, n, Comma(x), BuildMembers(false, Comma(x), members[1..]).s, members);
      }
    }
  }

  /** One member: its name up to `n`, its value up to `x`. */
  lemma {:induction false} FillMember(s: Scan, members: seq<Member<Value>>) returns (n: Scan, x: Scan)
    requires AtName(false, s) && s.c.p >= 0 && s.c.top < s.alloc && members != []
    requires var a := s.nodes[s.c.top];
             && a.size + |members| <= MAX_SIZE && |a.members| + |members| < a.room
             && a.used + NameBytes(members) <= |a.area|
    requires |members[0].name| <= MAX_SIZE && Printable(members[0].value) && Modest(members[0].value)
    requires SizedMembers(s.nodes, s.alloc, s.c.top, members) && s.alloc + CountMembers(members) <= |s.nodes|
    ensures BuildName(false, s, members[0].name, |Quote(members[0].name)|) == Go(n)
    ensures Build(false, n, members[0].value, |members| == 1) == Go(x)
    ensures Passed(s, n, 0) && n.c.top == s.c.top && Passed(n, x, Count(members[0].value))
    ensures NameFilled(s.nodes[s.c.top], n.nodes[s.c.top], members[0].name) && n.nodes[s.c.top].kind == Object
    ensures x.c.top == s.c.top && TopIs(x, Object) && !x.c.done && s.c.top < x.alloc
    ensures x.alloc == s.alloc + Count(members[0].value)
    ensures Adopt(false, n.nodes[s.c.top], s.alloc) == Some(x.nodes[s.c.top])
    ensures Holds(x.nodes, s.alloc, members[0].value, |members| == 1)
    ensures AtName(false, Comma(x)) && x.c.p >= 0
    ensures SizedMembers(x.nodes, x.alloc, s.c.top, members[1..])
    ensures var a, b := s.nodes[s.c.top], x.nodes[s.c.top];
      b.size == a.size + 1 && |b.members| <= |a.members| + 1 && b.room == a.room && |b.area| == |a.area|
      && b.used == a.used + |members[0].name| + 1
    decreases members, 1
  {
    hide Family, Build, BuildName, Printable, Modest, Holds, HoldsMembers, Sized, Named, Find, Quote;
    var m := members[0];
    FillName(s, m.name);
    NamedShort(s.nodes[s.c.top].members, m.name);
    n := BuildName(false, s, m.name, |Quote(m.name)|).s;
    SizedFrame(s.nodes, n.nodes, s.alloc, s.c.top, m.value, |members| == 1);
    FillValue(n, m.value, |members| == 1);
    x := Build(false, n, m.value, |members| == 1).s;
    BuildOver(false, n, m.value, |members| == 1);
    SizedMembersFrame(s.nodes, x.nodes, x.alloc, s.c.top, members[1..]);
  }

  lemma {:induction false} FillObject(s: Scan, v: Value, last: bool)
    requires v.Obj? && AtValue(false, s) && s.c.p >= 0 && CanAdopt(s) && Printable(v) && Modest(v)
    requires s.c.top < s.alloc && Sized(s.nodes, s.alloc, s.c.top, v, last)
    ensures Build(false, s, v, last).Go?
    ensures var t := Build(false, s, v, last).s;
            Passed(s, t, Count(v)) && HasAdopted(s, t) && Holds(t.nodes, s.alloc, v, last)
    decreases v, 0
  {
    hide Family, New, Attach, BuildMembers, Printable, CanAdopt, HasAdopted, MembersFilled, Holds;
    var members, k := v.members, s.alloc;
    PartsPrintable(v);
    Opened(s, v, last, Object);
    var t1 := New(false, s.(c := s.c.(seek := false, p := s.c.p + 1)), Object).s;
    SizedMembersFrame(s.nodes, t1.nodes, k + 1, k, members);
    FillMembers(t1, members);
    var x := BuildMembers(false, t1, members).s;
    MembersOver(false, t1, members);
    var w := x.(c := x.c.(comma := false, p := x.c.p + 1));
    ClosedObject(s, t1, x, w, v, last);
  }

  lemma ClosedObject(s: Scan, t: Scan, x: Scan, w: Scan, v: Value, last: bool)
    requires v.Obj? && CanAdopt(s) && Family(s.nodes) && -1 <= s.c.top < s.alloc && s.alloc + Count(v) <= |s.nodes|
    requires |t.nodes| == |s.nodes| && t.alloc == s.alloc + 1 && t.c.top == s.alloc
    requires forall i | 0 <= i < |s.nodes| && i != s.alloc :: t.nodes[i] == s.nodes[i]
    requires Emptied(t.nodes[s.alloc], v, s.c.top) && MembersFilled(t, x, v.members)
    requires w.nodes == x.nodes && w.alloc == x.alloc && w.c.top == s.alloc && !w.c.done
    ensures Attach(false, w).Go?
    ensures var u := Attach(false, w).s;
            Passed(s, u, Count(v)) && HasAdopted(s, u) && Holds(u.nodes, s.alloc, v, last)
  {
    hide Family, Attach, Collected, Ids;
    AttachSecond(s, w, Count(v));
    HoldsMembersFrame(w.nodes, Attach(false, w).s.nodes, s.alloc + 1, v.members);
  }
}
