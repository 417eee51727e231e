/** What decoding the printed form of a value gives back. */
module JsonRoundTrip {
  import opened JsonText
  import opened JsonMembers
  import opened JsonValue
  import opened JsonScan
  import opened JsonPasses
  import opened JsonAgree
  import opened JsonBuild
  import opened JsonMeasure
  import opened JsonFill
  import opened Wrappers

  // ---------------------------------------------------------------- the value that was read

  /** The value that filled nodes spell from `k` on.  Doubles are not modelled. */
  ghost function ValueOf(nodes: seq<Node>, k: int): Value
    decreases |nodes| - k, 1, 0
  {
    if !(0 <= k < |nodes|) then Gone
    else
      var n := nodes[k];
      match n.kind
      case Object => Obj(MembersOf(nodes, n.members, k))
      case Array => Arr(ItemsOf(nodes, n.items, k))
      case Str => Text(if n.len <= |n.text| then n.text[..n.len] else n.text)
      case Integer => Int(n.ival)
      case Boolean => Bool(n.bval)
      case Double => Gone
      case Null => Nil
  }

  ghost function ItemsOf(nodes: seq<Node>, ids: seq<int>, k: int): seq<Value>
    decreases |nodes| - k, 0, |ids|
  {
    if ids == [] then []
    else [if k < ids[0] < |nodes| && 0 <= k then ValueOf(nodes, ids[0]) else Gone] + ItemsOf(nodes, ids[1..], k)
  }

  ghost function MembersOf(nodes: seq<Node>, ids: seq<Member<int>>, k: int): seq<Member<Value>>
    decreases |nodes| - k, 0, |ids|
  {
    if ids == [] then []
    else [Member(ids[0].name, if k < ids[0].value < |nodes|
      && 0 <= k then ValueOf(nodes, ids[0].value) else Gone)] + MembersOf(nodes, ids[1..], k)
  }

  lemma {:induction false} HoldsIsValue(nodes: seq<Node>, k: int, v: Value, last: bool)
    requires Holds(nodes, k, v, last)
    ensures ValueOf(nodes, k) == Norm(v, last)
    decreases v, 1
  {
    match v
    case Arr(items) => HoldsAreItems(nodes, nodes[k].items, k, k + 1, items);
    case Obj(members) => HoldsAreMembers(nodes, [], k, k + 1, members);
    case _ =>
  }

  lemma {:induction false} HoldsAreItems(nodes: seq<Node>, ids: seq<int>, k: int, b: int, items: seq<Value>)
    requires HoldsItems(nodes, ids, b, items) && 0 <= k < b
    ensures ItemsOf(nodes, ids, k) == NormItems(items)
    decreases items, 0
  {
    if items != [] {
      HoldsIsValue(nodes, b, items[0], |items| == 1);
      HoldsAreItems(nodes, ids[1..], k, b + Count(items[0]), items[1..]);
    }
  }

  ghost function ChildOf(nodes: seq<Node>, k: int, id: int): Value {
    if k < id < |nodes| && 0 <= k then ValueOf(nodes, id) else Gone
  }

  lemma {:induction false} MembersAt(nodes: seq<Node>, ids: seq<Member<int>>, k: int)
    ensures var m := MembersOf(nodes, ids, k);
      |m| == |ids| && forall i | 0 <= i < |ids| :: m[i] == Member(ids[i].name, ChildOf(nodes, k, ids[i].value))
  {
    if ids != [] { MembersAt(nodes, ids[1..], k); }
  }

  /** Members are placed by their names, whatever their values. */
  lemma MembersPlaced(nodes: seq<Node>, ids: seq<Member<int>>, k: int, id: Member<int>)
    ensures MembersOf(nodes, Placed(ids, id), k)
         == Placed(MembersOf(nodes, ids, k), Member(id.name, ChildOf(nodes, k, id.value)))
  {
    hide ValueOf, MembersOf, ChildOf, Find;
    var m, i := MembersOf(nodes, ids, k), Find(ids, id.name);
    var placed := Member(id.name, ChildOf(nodes, k, id.value));
    MembersAt(nodes, ids, k);
    MembersAt(nodes, Placed(ids, id), k);
    SameNames(ids, m, id.name);
    if Has(ids, id.name) {
      assert Placed(ids, id) == ids[i := id] && Placed(m, placed) == m[i := placed];
    } else {
      assert Placed(ids, id) == ids[..i] + [id] + ids[i..] && Placed(m, placed) == m[..i] + [placed] + m[i..];
    }
  }

  lemma {:induction false} HoldsAreMembers(nodes: seq<Node>, start: seq<Member<int>>, k: int, b: int,
      members: seq<Member<Value>>)
    requires HoldsMembers(nodes, b, members) && 0 <= k < b
    ensures MembersOf(nodes, Collected(start, Ids(members, b)), k)
         == Collected(MembersOf(nodes, start, k), NormMembers(members))
    decreases members, 0
  {
    if members != [] {
      var id := Member(members[0].name, b);
      HoldsIsValue(nodes, b, members[0].value, |members| == 1);
      assert b + Count(members[0].value) <= |nodes| && ChildOf(nodes, k, b) == Norm(members[0].value, |members| == 1);
      MembersPlaced(nodes, start, k, id);
      HoldsAreMembers(nodes, Placed(start, id), k, b + Count(members[0].value), members[1..]);
      IdsBegin(start, members, b);
      assert NormMembers(members)[1..] == NormMembers(members[1..]);
      hide ValueOf, MembersOf, Holds, HoldsMembers, Placed, Norm, ChildOf;
    }
  }

  /** The value that a text is decoded to, if any. */
  ghost function Reading(data: string): Option<Value> {
    match Decoded(data)
    case Accept(nodes) => Some(ValueOf(nodes, 0))
    case _ => None
  }

  /** The value that comes back when `v` is printed and decoded. */
  ghost function Reread(v: Value): Option<Value> { Reading(Print(v)) }

  lemma NoMark(v: Value)
    requires Printable(v)
    ensures Print(v) != "" && SkipMark(Print(v)) == Print(v)
  {
    if v.Int? { DecimalIs(v.n); }
  }

  lemma EndAccepts(first: bool, data: string, t: Scan)
    requires Inv(first, data, t) && t.c.done && !t.c.str && !t.c.line && !t.c.block
    requires 0 <= t.c.p <= |data| && CharAt(data, t.c.p) == '\0'
    ensures Run(first, data, t) == Accept(t.nodes)
  {
    hide Inv;
  }

  lemma EndRejects(first: bool, data: string, t: Scan)
    requires Inv(first, data, t) && t.c.str && HasTop(t) && t.c.p == |data|
    ensures Run(first, data, t) == Reject
  {
    hide Inv;
  }

  lemma StartAtValue(first: bool, data: string, nodes: seq<Node>)
    requires Family(nodes) && (first ==> nodes == [])
    ensures AtValue(first, Start(nodes)) && Inv(first, data, Start(nodes)) && Start(nodes).c.p == 0
            && Start(nodes).c.top == -1
  {
  }

  lemma WholeSpells(data: string)
    ensures Spells(data, 0, data)
  {
  }

  /** What the first pass makes of a value, whatever the text. */
  lemma FirstNodes(v: Value) returns (f: seq<Node>)
    requires Printable(v) && Countable(v)
    ensures Build(true, Start([]), v, false).Go? && Build(true, Start([]), v, false).s.c.done
    ensures f == Build(true, Start([]), v, false).s.nodes
    ensures Family(f) && |f| == Count(v) && Sized(f, 0, -1, v, false)
  {
    hide Family, Inv, Build, Printable, Bounded, Sized, AtValue;
    var s := Start([]);
    StartAtValue(true, "", []) by { NoFamily(); }
    MeasureValue(s, v, false);
    BuildOver(true, s, v, false);
    f := Build(true, s, v, false).s.nodes;
  }

  /** And what the second pass makes of it. */
  lemma SecondNodes(v: Value, f: seq<Node>) returns (g: seq<Node>)
    requires Printable(v) && Modest(v) && Family(f) && |f| == Count(v) && Sized(f, 0, -1, v, false)
    ensures Build(false, Start(f), v, false).Go? && Build(false, Start(f), v, false).s.c.done
    ensures g == Build(false, Start(f), v, false).s.nodes && ValueOf(g, 0) == Norm(v, false)
  {
    hide Family, Inv, Build, Printable, Bounded, Sized, Holds, AtValue, ValueOf;
    var s := Start(f);
    StartAtValue(false, "", f);
    FillValue(s, v, false);
    g := Build(false, s, v, false).s.nodes;
    HoldsIsValue(g, 0, v, false);
  }

  /** The first pass accepts a printed container, string or boolean and measures it. */
  lemma FirstPass(v: Value) returns (f: seq<Node>)
    requires Printable(v) && Countable(v) && !Open(v)
    ensures Print(v) != "" && SkipMark(Print(v)) == Print(v)
    ensures Inv(true, Print(v), Start([])) && Run(true, Print(v), Start([])) == Accept(f)
    ensures Family(f) && |f| == Count(v) && Sized(f, 0, -1, v, false)
  {
    hide Family, Inv, Build, Print, Printable, Bounded, Sized, AtValue, Spells, Run, Step;
    var data, s := Print(v), Start([]);
    NoMark(v);
    WholeSpells(data);
    StartAtValue(true, data, []) by { NoFamily(); }
    f := FirstNodes(v);
    ScanValue(true, data, s, v, false);
    EndAccepts(true, data, Build(true, s, v, false).s);
  }

  /** A printed container, string or boolean is read back. */
  lemma RereadClosed(v: Value)
    requires Printable(v) && Modest(v) && !Open(v)
    ensures Reread(v) == Some(Norm(v, false))
  {
    hide Family, Inv, Build, Print, Printable, Bounded, Sized, Holds, AtValue, Spells, Run, Step, ValueOf;
    var data := Print(v);
    ModestIsCountable(v, MAX_SIZE / 2, MAX_SIZE);
    var f := FirstPass(v);
    WholeSpells(data);
    StartAtValue(false, data, f);
    var g := SecondNodes(v, f);
    ScanValue(false, data, Start(f), v, false);
    EndAccepts(false, data, Build(false, Start(f), v, false).s);
    ReadingIs(data, f, g);
  }

  lemma ReadingIs(data: string, f: seq<Node>, g: seq<Node>)
    requires data != "" && Inv(true, SkipMark(data), Start([])) && Run(true, SkipMark(data), Start([])) == Accept(f)
    requires Inv(false, SkipMark(data), Start(f)) && Run(false, SkipMark(data), Start(f)) == Accept(g)
    ensures Reading(data) == Some(ValueOf(g, 0))
  {
    hide Inv, Run, SkipMark, ValueOf;
  }

  /** A text with a container that the second pass finds too large is refused. */
  lemma CrowdedReading(data: string, f: seq<Node>)
    requires data != "" && Run(true, SkipMark(data), Start([])) == Accept(f) && Crowded(f, 0, |f|)
    ensures Reading(data) == None
  {
    hide Run, Step, Inv, Family, Completes, SkipMark;
    PassesAgree(data);
  }

  lemma {:induction false} ModestIsCountable(v: Value, max: nat, more: nat)
    requires Bounded(v, max) && max <= more
    ensures Bounded(v, more)
    decreases v
  {
    match v
    case Arr(items) =>
      forall i | 0 <= i < |items| ensures Bounded(items[i], more) { ModestIsCountable(items[i], max, more); }
    case Obj(members) =>
      forall i | 0 <= i < |members| ensures Bounded(members[i].value,
        more) { ModestIsCountable(members[i].value, max, more); }
    case _ =>
  }

  /** A container that the second pass finds too large. */
  ghost predicate Crowded(nodes: seq<Node>, lo: int, hi: int) {
    0 <= lo && hi <= |nodes| && exists k | lo <= k < hi :: 2 * nodes[k].size > MAX_SIZE
  }

  lemma {:induction false} SizedCrowded(nodes: seq<Node>, k: int, j: int, v: Value, last: bool)
    requires Sized(nodes, k, j, v, last) && Countable(v) && !Modest(v)
    ensures Crowded(nodes, k, k + Count(v))
    decreases v, 1
  {
    match v
    case Arr(items) => if 2 * |items| <= MAX_SIZE { SizedCrowdedItems(nodes, k + 1, k, items); }
    case Obj(members) => if 2 * |members| <= MAX_SIZE { SizedCrowdedMembers(nodes, k + 1, k, members); }
    case _ =>
  }

  lemma {:induction false} SizedCrowdedItems(nodes: seq<Node>, b: int, j: int, items: seq<Value>)
    requires b >= 0 && SizedItems(nodes, b, j, items) && forall i | 0 <= i < |items| :: Countable(items[i])
    requires exists i | 0 <= i < |items| :: !Modest(items[i])
    ensures Crowded(nodes, b, b + CountItems(items))
    decreases items, 0
  {
    hide Sized, Bounded;
    SizedItemsFit(nodes, b, j, items);
    if Modest(items[0]) {
      SizedCrowdedItems(nodes, b + Count(items[0]), j, items[1..]);
    } else {
      SizedCrowded(nodes, b, j, items[0], |items| == 1);
    }
  }

  lemma {:induction false} SizedItemsFit(nodes: seq<Node>, b: int, j: int, items: seq<Value>)
    requires 0 <= b && items != [] && SizedItems(nodes, b, j, items)
    ensures b + CountItems(items) <= |nodes|
    decreases items
  {
    if |items| > 1 { SizedItemsFit(nodes, b + Count(items[0]), j, items[1..]); }
  }

  lemma {:induction false} SizedCrowdedMembers(nodes: seq<Node>, b: int, j: int, members: seq<Member<Value>>)
    requires b >= 0 && SizedMembers(nodes, b, j, members)
            && forall i | 0 <= i < |members| :: Countable(members[i].value)
    requires exists i | 0 <= i < |members| :: !Modest(members[i].value)
    ensures Crowded(nodes, b, b + CountMembers(members))
    decreases members, 0
  {
    hide Sized, Bounded;
    SizedMembersFit(nodes, b, j, members);
    if Modest(members[0].value) {
      SizedCrowdedMembers(nodes, b + Count(members[0].value), j, members[1..]);
    } else {
      SizedCrowded(nodes, b, j, members[0].value, |members| == 1);
    }
  }

  lemma {:induction false} SizedMembersFit(nodes: seq<Node>, b: int, j: int, members: seq<Member<Value>>)
    requires 0 <= b && members != [] && SizedMembers(nodes, b, j, members)
    ensures b + CountMembers(members) <= |nodes|
    decreases members
  {
    if |members| > 1 { SizedMembersFit(nodes, b + Count(members[0].value), j, members[1..]); }
  }

  /** A container that only the first pass can count is refused. */
  lemma RereadCrowded(v: Value)
    requires Printable(v) && Countable(v) && !Modest(v)
    ensures Reread(v) == None
  {
    hide Run, Step, Inv, Sized, Print, Printable, Family, SkipMark;
    if !Open(v) {
      var f := FirstPass(v);
      SizedCrowded(f, 0, -1, v, false);
      CrowdedReading(Print(v), f);
    }
  }

  /** The smallest arrays of booleans that the first pass accepts and the second refuses. */
  lemma CrowdedArray(items: seq<Value>)
    requires |items| == 0x7FFF_FFFC && forall i | 0 <= i < |items| :: items[i].Bool?
    ensures Printable(Arr(items)) && Countable(Arr(items)) && !Modest(Arr(items)) && Reread(Arr(items)) == None
  {
    var v := Arr(items);
    assert Parts(v) == 0x7FFF_FFFC;
    assert forall i | 0 <= i < |items| :: Bounded(items[i], MAX_SIZE) && Printable(items[i]);
    assert Bounded(v, MAX_SIZE) && Printable(v);
    RereadCrowded(v);
  }

  lemma NoFamily()
    ensures Family([])
  {
  }

  /** A printed number or null on its own is refused. */
  lemma RereadOpen(v: Value)
    requires Printable(v) && Open(v)
    ensures Reread(v) == None
  {
    hide Family, Inv, Run, Step, Loose, Spells;
    var data := Print(v);
    NoMark(v);
    WholeSpells(data);
    StartAtValue(true, data, []) by { NoFamily(); }
    var s := Start([]);
    var b;
    if v.Int? {
      b := LoneNumber(data, s, v.n);
    } else {
      var u := s.(c := s.c.(seek := false));
      b := Bare(New(true, u, Str).s);
      StepReaches(true, data, s, b) by { NullBegins(true, data, s); }
      NullLoose();
    }
    ScanLoose(true, data, b, data);
    EndRejects(true, data, Move(Put(true, b, data).s, |data|));
  }

  lemma NullLoose()
    ensures forall i | 0 <= i < 4 :: Loose("null"[i])
  {
  }

  /** A number that nothing follows is read again as a string. */
  lemma LoneNumber(data: string, s: Scan, n: int) returns (b: Scan)
    requires AtValue(true, s) && s.c.p == 0 && s.c.top == -1 && data == Decimal(n) && Spells(data, 0, data)
            && INT64_MIN < n <= INT64_MAX
    ensures Reaches(true, data, s, b) && Unquoted(b) && TopIs(b, Str) && b.c.len == 0 && b.c.p == 0
    ensures |data| <= MAX_SIZE
    ensures forall i | 0 <= i < |data| :: Loose(data[i])
  {
    hide Family, Reaches, Decimal, Digits, Loose, Spells;
    DecimalIs(n);
    DecimalShort(n);
    ScanNumber(data, s, n);
    var w := NumberRead(s, n);
    b := Bare(SetTop(Move(w, 0), w.nodes[w.c.top].(kind := Str)));
    StepReaches(true, data, w, b) by { NumberAtEnd(data, w); }
    ReachesTrans(true, data, s, w, b);
  }

  lemma NumberAtEnd(data: string, w: Scan)
    requires InNumber(w) && TopIs(w, Integer) && !w.num.exp && w.c.p == |data|
    ensures Step(true, data, w) == Go(Bare(SetTop(Move(w, w.num.start), w.nodes[w.c.top].(kind := Str))))
  {
    hide Attach;
  }

  // ---------------------------------------------------------------- when it is the same value

  /** A value that printing and reading keeps: no null, no negative number, and no number as
      the last part of a container. */
  ghost predicate Kept(v: Value, last: bool)
    decreases v, 1
  {
    match v
    case Int(n) => !last && n >= 0
    case Nil => false
    case Gone => false
    case Arr(items) => KeptItems(items)
    case Obj(members) => Increasing(members) && KeptMembers(members)
    case _ => true
  }

  ghost predicate KeptItems(items: seq<Value>)
    decreases items, 0
  {
    items == [] || (Kept(items[0], |items| == 1) && KeptItems(items[1..]))
  }

  ghost predicate KeptMembers(members: seq<Member<Value>>)
    decreases members, 0
  {
    members == [] || (Kept(members[0].value, |members| == 1) && KeptMembers(members[1..]))
  }

  lemma {:induction false} NormIsSame(v: Value, last: bool)
    ensures Norm(v, last) == v <==> Kept(v, last)
    decreases v, 1
  {
    match v
    case Arr(items) => NormItemsSame(items);
    case Obj(members) =>
      NormMembersSame(members);
      NormNames(members);
      CollectedSame(NormMembers(members), members);
    case _ =>
  }

  lemma {:induction false} NormNames(members: seq<Member<Value>>)
    ensures forall i | 0 <= i < |members| :: NormMembers(members)[i].name == members[i].name
    decreases |members|
  {
    if members != [] {
      NormNames(members[1..]);
      assert NormMembers(members)[1..] == NormMembers(members[1..]);
      assert forall i | 0 < i < |members| :: members[i] == members[1..][i - 1];
      assert forall i | 0 < i < |members| :: NormMembers(members)[i] == NormMembers(members[1..])[i - 1];
    }
  }

  lemma {:induction false} NormItemsSame(items: seq<Value>)
    ensures NormItems(items) == items <==> KeptItems(items)
    decreases items, 0
  {
    if items != [] {
      NormIsSame(items[0], |items| == 1);
      NormItemsSame(items[1..]);
      var r := NormItems(items);
      assert r[1..] == NormItems(items[1..]) && r[0] == Norm(items[0], |items| == 1);
      assert items == [items[0]] + items[1..] && r == [r[0]] + r[1..];
    }
  }

  lemma {:induction false} NormMembersSame(members: seq<Member<Value>>)
    ensures NormMembers(members) == members <==> KeptMembers(members)
    decreases members, 0
  {
    if members != [] {
      NormIsSame(members[0].value, |members| == 1);
      NormMembersSame(members[1..]);
      var r := NormMembers(members);
      assert r[1..] == NormMembers(members[1..])
        && r[0] == Member(members[0].name, Norm(members[0].value, |members| == 1));
      assert members == [members[0]] + members[1..] && r == [r[0]] + r[1..];
    }
  }

  /** Decoding the printed form of a value, for every value without doubles whose containers
      the first pass can count. */
  lemma RoundTrip(v: Value)
    requires Printable(v) && Countable(v)
    ensures Reread(v) == if Open(v) || !Modest(v) then None else Some(Norm(v, false))
    ensures Reread(v) == Some(v) <==> !Open(v) && Modest(v) && Kept(v, false)
  {
    if Open(v) {
      RereadOpen(v);
    } else if Modest(v) {
      RereadClosed(v);
    } else {
      RereadCrowded(v);
    }
    NormIsSame(v, false);
  }
}
