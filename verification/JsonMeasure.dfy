/** What the first pass makes of the printed form of a value: the measures of its nodes. */
module JsonMeasure {
  import opened JsonText
  import opened JsonMembers
  import opened JsonValue
  import opened JsonScan
  import opened JsonPasses
  import opened JsonGrowth
  import opened JsonBuild

  /** The nodes a value takes. */
  ghost function Count(v: Value): nat
    decreases v, 0
  {
    match v
    case Arr(items) => 1 + CountItems(items)
    case Obj(members) => 1 + CountMembers(members)
    case _ => 1
  }

  ghost function CountItems(items: seq<Value>): nat
    decreases items, 1
  {
    if items == [] then 0 else Count(items[0]) + CountItems(items[1..])
  }

  ghost function CountMembers(members: seq<Member<Value>>): nat
    decreases members, 1
  {
    if members == [] then 0 else Count(members[0].value) + CountMembers(members[1..])
  }

  ghost function NameBytes(members: seq<Member<Value>>): nat {
    if members == [] then 0 else |members[0].name| + 1 + NameBytes(members[1..])
  }

  /** No container has more than `max` parts. */
  ghost predicate Bounded(v: Value, max: nat) {
    Parts(v) <= max
    && match v
       case Arr(items) => forall i | 0 <= i < |items| :: Bounded(items[i], max)
       case Obj(members) => forall i | 0 <= i < |members| :: Bounded(members[i].value, max)
       case _ => true
  }

  /** No container is too large for the first pass. */
  ghost predicate Countable(v: Value) { Bounded(v, MAX_SIZE) }

  /** And none is too large for the second pass, which counts on. */
  ghost predicate Modest(v: Value) { Bounded(v, MAX_SIZE / 2) }

  // ---------------------------------------------------------------- the first pass measures

  /** The nodes from `k` on are the measure of a value with the parent `j`. */
  ghost predicate Sized(nodes: seq<Node>, k: int, j: int, v: Value, last: bool)
    decreases v, 1
  {
    && 0 <= k && k + Count(v) <= |nodes| && nodes[k].parent == j && Blank(nodes[k])
    && match v
       case Text(text) => nodes[k].kind == Str && nodes[k].len == |text|
       case Nil => nodes[k].kind == Str && nodes[k].len == 4
       case Gone => nodes[k].kind == Str && nodes[k].len == 4
       case Int(n) =>
         if last then nodes[k].kind == Str && nodes[k].len == |Decimal(n)|
         else nodes[k].kind == Integer && nodes[k].ival == Abs(n)
       case Bool(b) => nodes[k].kind == Boolean && nodes[k].bval == b
       case Arr(items) => nodes[k].kind == Array && nodes[k].size == |items| && SizedItems(nodes, k + 1, k, items)
       case Obj(members) =>
         nodes[k].kind == Object && nodes[k].size == |members| && nodes[k].num == NameBytes(members)
         && SizedMembers(nodes, k + 1, k, members)
  }

  ghost predicate SizedItems(nodes: seq<Node>, b: int, j: int, items: seq<Value>)
    decreases items, 0
  {
    items == []
    || (Sized(nodes, b, j, items[0], |items| == 1) && SizedItems(nodes, b + Count(items[0]), j, items[1..]))
  }

  ghost predicate SizedMembers(nodes: seq<Node>, b: int, j: int, members: seq<Member<Value>>)
    decreases members, 0
  {
    members == []
    || (Sized(nodes, b, j, members[0].value, |members| == 1)
       && SizedMembers(nodes, b + Count(members[0].value), j, members[1..]))
  }

  ghost predicate SameFrom(a: seq<Node>, b: seq<Node>, lo: int, hi: int) {
    hi <= |a| && hi <= |b| && forall i | 0 <= i && lo <= i < hi :: a[i] == b[i]
  }

  lemma {:induction false} SizedFrame(a: seq<Node>, b: seq<Node>, k: int, j: int, v: Value, last: bool)
    requires Sized(a, k, j, v, last) && SameFrom(a, b, k, k + Count(v))
    ensures Sized(b, k, j, v, last)
    decreases v, 1
  {
    match v
    case Arr(items) => SizedItemsFrame(a, b, k + 1, k, items);
    case Obj(members) => SizedMembersFrame(a, b, k + 1, k, members);
    case _ =>
  }

  lemma {:induction false} SizedItemsFrame(a: seq<Node>, b: seq<Node>, k: int, j: int, items: seq<Value>)
    requires SizedItems(a, k, j, items) && SameFrom(a, b, k, k + CountItems(items))
    ensures SizedItems(b, k, j, items)
    decreases items, 0
  {
    if items != [] {
      SizedFrame(a, b, k, j, items[0], |items| == 1);
      SizedItemsFrame(a, b, k + Count(items[0]), j, items[1..]);
    }
  }

  lemma {:induction false} SizedMembersFrame(a: seq<Node>, b: seq<Node>, k: int, j: int, members: seq<Member<Value>>)
    requires SizedMembers(a, k, j, members) && SameFrom(a, b, k, k + CountMembers(members))
    ensures SizedMembers(b, k, j, members)
    decreases members, 0
  {
    if members != [] {
      SizedFrame(a, b, k, j, members[0].value, |members| == 1);
      SizedMembersFrame(a, b, k + Count(members[0].value), j, members[1..]);
    }
  }

  /** Between `s` and `t` the first pass appended `n` nodes, and changed no other but its
      current one. */
  ghost predicate Added(s: Scan, t: Scan, n: nat) {
    && |t.nodes| == |s.nodes| + n
    && (forall i | 0 <= i < |s.nodes| && i != s.c.top :: t.nodes[i] == s.nodes[i])
  }

  /** The first pass took a value: its parent, if any, has one child more. */
  ghost predicate Took(s: Scan, t: Scan) {
    if s.c.top == -1 then t.c.done && t.c.top == |s.nodes|
    else HasTop(s) && HasTop(t) && !t.c.done && t.c.top == s.c.top
         && t.nodes[t.c.top] == s.nodes[s.c.top].(size := s.nodes[s.c.top].size + 1)
  }

  ghost predicate CanTake(s: Scan) { s.c.top == -1 || (InContainer(s) && s.nodes[s.c.top].size < MAX_SIZE) }

  /** A value whose nodes follow those of `s` is attached to the current node of `s`. */
  lemma AttachFirst(s: Scan, w: Scan, m: nat)
    requires CanTake(s) && Family(s.nodes) && -1 <= s.c.top < |s.nodes|
    requires m > 0 && Added(s, w, m) && (HasTop(s) ==> w.nodes[s.c.top] == s.nodes[s.c.top])
    requires w.c.top == |s.nodes| && w.nodes[w.c.top].parent == s.c.top && !w.c.done
    ensures Attach(true, w).Go? && Added(s, Attach(true, w).s, m) && Took(s, Attach(true, w).s)
    ensures SameFrom(w.nodes, Attach(true, w).s.nodes, |s.nodes|, |s.nodes| + m)
  {
  }

  lemma FinishFirst(s: Scan, w: Scan, n: Node, text: string, skip: nat)
    requires CanTake(s) && Family(s.nodes) && -1 <= s.c.top < |s.nodes|
    requires w.nodes == s.nodes + [n] && w.c.top == |s.nodes| && n.parent == s.c.top && !w.c.done && w.c.len == 0
    ensures FinishStr(true, w, text, skip).Go?
    ensures var t := FinishStr(true, w, text, skip).s;
            Added(s, t, 1) && Took(s, t) && t.nodes[|s.nodes|] == n.(len := |text|)
  {
    hide Attach;
    var x := Put(true, w, text).s;
    var y := EndStr(true, x.(c := x.c.(str := false, quote := false, p := w.c.p + skip))).s;
    assert y.nodes == s.nodes + [n.(len := |text|)];
    AttachFirst(s, y, 1);
  }

  // The control state after a value, whatever the text.

  /** Some text that has `word` at the place `p`, with one more character behind it. */
  lemma SomeText(p: int, word: string, end: char) returns (data: string)
    requires p >= 0
    ensures Spells(data, p, word) && CharAt(data, p + |word|) == end
  {
    data := Zeros(p) + word + [end];
    assert data[p..p + |word|] == word;
  }

  lemma BuildOver(first: bool, s: Scan, v: Value, last: bool)
    requires AtValue(first, s) && s.c.p >= 0 && Printable(v) && Build(first, s, v, last).Go?
    ensures Over(first, s, Build(first, s, v, last).s, |Print(v)|)
  {
    hide Build, Over, AtValue, Printable, Print, Spells, CharAt;
    var data := SomeText(s.c.p, Print(v), if last then '}' else ',');
    ScanValue(first, data, s, v, last);
  }

  lemma ItemsOver(first: bool, s: Scan, items: seq<Value>)
    requires AtValue(first, s) && TopIs(s, Array) && s.c.p >= 0 && Printable(Arr(items))
            && BuildItems(first, s, items).Go?
    ensures var t := BuildItems(first, s, items).s;
            t.c == s.c.(p := t.c.p, comma := t.c.comma, len := t.c.len) && TopIs(t, Array) && Sane(first, t)
              && t.c.p >= 0
  {
    hide BuildItems, AtValue, Printable, PrintItems, Spells, CharAt, Sane;
    var data := SomeText(s.c.p, PrintItems(items), ']');
    ScanItems(first, data, s, items);
  }

  lemma MembersOver(first: bool, s: Scan, members: seq<Member<Value>>)
    requires AtName(first, s) && s.c.p >= 0 && Printable(Obj(members)) && BuildMembers(first, s, members).Go?
    ensures var t := BuildMembers(first, s, members).s;
            t.c == s.c.(p := t.c.p, comma := t.c.comma, len := t.c.len) && TopIs(t, Object) && Sane(first, t)
              && t.c.p >= 0
  {
    hide BuildMembers, AtName, Printable, PrintMembers, Spells, CharAt, Sane;
    var data := SomeText(s.c.p, PrintMembers(members), '}');
    ScanMembers(first, data, s, members);
  }

  lemma NameOver(first: bool, s: Scan, name: string)
    requires AtName(first, s) && s.c.p >= 0 && |name| <= MAX_SIZE && BuildName(first, s, name, |Quote(name)|).Go?
    ensures var t := BuildName(first, s, name, |Quote(name)|).s;
            AtValue(first, t) && TopIs(t, Object)
              && t.c == s.c.(p := s.c.p + |Quote(name)| + 3, seek := true, len := |name|)
  {
    hide BuildName, AtName, AtValue, Quote, Spells, CharAt;
    var data := SomeText(s.c.p, "\"" + Quote(name) + "\"" + ":", '}');
    ScanQuoted(first, data, s, name);
  }

  lemma {:induction false} MeasureValue(s: Scan, v: Value, last: bool)
    requires AtValue(true, s) && s.c.p >= 0 && CanTake(s) && Printable(v) && Countable(v)
    ensures Build(true, s, v, last).Go?
    ensures var t := Build(true, s, v, last).s;
            Added(s, t, Count(v)) && Took(s, t) && Sized(t.nodes, |s.nodes|, s.c.top, v, last)
    decreases v, 1
  {
    hide Family, Attach, FinishStr, Decimal, Digits, BuildItems, BuildMembers, Quote;
    var u := s.(c := s.c.(seek := false));
    var q := s.c.(seek := false, top := |s.nodes|);
    match v
    case Text(text) =>
      FinishFirst(s, Scan(q.(p := s.c.p + 1, str := true, len := 0), s.num, s.nodes + [Fresh(Str, s.c.top)],
        |s.nodes| + 1),
                  Fresh(Str, s.c.top), text, |Quote(text)| + 1);
    case Nil => MeasureNull(s);
    case Gone => MeasureNull(s);
    case Int(n) => MeasureInt(s, n, last);
    case Bool(b) => MeasureBool(s, b);
    case Arr(items) => MeasureArray(s, v, last);
    case Obj(members) => MeasureObject(s, v, last);
  }

  lemma MeasureNull(s: Scan)
    requires AtValue(true, s) && CanTake(s)
    ensures BuildBare(true, s, "null").Go?
    ensures var t := BuildBare(true, s, "null").s;
            Added(s, t, 1) && Took(s, t) && t.nodes[|s.nodes|] == Fresh(Str, s.c.top).(len := 4)
  {
    hide Family, FinishStr;
    FinishFirst(s, Bare(New(true, s.(c := s.c.(seek := false)), Str).s), Fresh(Str, s.c.top), "null", 4);
  }

  lemma MeasureBool(s: Scan, b: bool)
    requires AtValue(true, s) && CanTake(s)
    ensures Build(true, s, Bool(b), false).Go?
    ensures var t := Build(true, s, Bool(b), false).s;
            Added(s, t, 1) && Took(s, t) && t.nodes[|s.nodes|] == Fresh(Boolean, s.c.top).(bval := b)
  {
    hide Family, Attach, Atom;
    var p := s.c.p + |Print(Bool(b))|;
    var w := WithLeaf(s, Boolean, b, p);
    AtomIs(s, Boolean, b, p);
    assert Build(true, s, Bool(b), false) == Attach(true, w);
    assert w.nodes[|s.nodes|] == Fresh(Boolean, s.c.top).(bval := b);
    assert Added(s, w, 1) && -1 <= s.c.top < |s.nodes| && Family(s.nodes) && !w.c.done;
    hide AtValue, CanTake, Took, Added, Build, WithLeaf, Print;
    AttachFirst(s, w, 1);
  }

  lemma MeasureInt(s: Scan, n: int, last: bool)
    requires AtValue(true, s) && CanTake(s) && INT64_MIN < n <= INT64_MAX
    ensures BuildInt(true, s, n, last).Go?
    ensures var t := BuildInt(true, s, n, last).s;
            Added(s, t, 1) && Took(s, t) && t.nodes[|s.nodes|] == if last
              then Fresh(Str, s.c.top).(ival := Abs(n), len := |Decimal(n)|)
                else Fresh(Integer, s.c.top).(ival := Abs(n))
  {
    hide Family, Attach, FinishStr, Decimal, Digits;
    if last {
      BuildIntLast(s, n);
      var w := NumberRead(s, n);
      var b := Bare(SetTop(Move(w, s.c.p), w.nodes[w.c.top].(kind := Str)));
      assert b.nodes == s.nodes + [Fresh(Str, s.c.top).(ival := Abs(n))];
      FinishFirst(s, b, Fresh(Str, s.c.top).(ival := Abs(n)), Decimal(n), |Decimal(n)|);
    } else {
      BuildIntInner(s, n);
      AttachFirst(s, NumberRead(s, n), 1);
    }
  }

  lemma {:induction false} MeasureArray(s: Scan, v: Value, last: bool)
    requires v.Arr? && AtValue(true, s) && s.c.p >= 0 && CanTake(s) && Printable(v) && Countable(v)
    ensures Build(true, s, v, last).Go?
    ensures var t := Build(true, s, v, last).s;
            Added(s, t, Count(v)) && Took(s, t) && Sized(t.nodes, |s.nodes|, s.c.top, v, last)
    decreases v, 0
  {
    hide Family, Attach, BuildItems, Printable;
    var items, k := v.items, |s.nodes|;
    PartsPrintable(v);
    var u := s.(c := s.c.(seek := false, p := s.c.p + 1));
    NewKeeps(true, u, Array);
    var t1 := New(true, u, Array).s;
    var t2 := t1.(c := t1.c.(seek := true));
    MeasureItems(t2, items);
    var x := BuildItems(true, t2, items).s;
    ItemsOver(true, t2, items);
    var w := x.(c := x.c.(comma := false, seek := false, p := x.c.p + 1));
    AttachFirst(s, w, Count(v));
    SizedItemsFrame(w.nodes, Attach(true, w).s.nodes, k + 1, k, items);
  }

  lemma PartsPrintable(v: Value)
    requires Printable(v)
    ensures v.Arr? ==> forall i | 0 <= i < |v.items| :: Printable(v.items[i])
    ensures v.Obj? ==> forall i | 0 <= i < |v.members| ::
            |v.members[i].name| <= MAX_SIZE && Printable(v.members[i].value)
  {
  }

  lemma {:induction false} MeasureItems(s: Scan, items: seq<Value>)
    requires AtValue(true, s) && s.c.p >= 0 && TopIs(s, Array) && s.nodes[s.c.top].size + |items| <= MAX_SIZE
    requires forall i | 0 <= i < |items| :: Printable(items[i]) && Countable(items[i])
    ensures BuildItems(true, s, items).Go?
    ensures var t := BuildItems(true, s, items).s;
            && Added(s, t, CountItems(items)) && !t.c.done && t.c.top == s.c.top
            && t.nodes[s.c.top] == s.nodes[s.c.top].(size := s.nodes[s.c.top].size + |items|)
            && SizedItems(t.nodes, |s.nodes|, s.c.top, items)
    decreases items, 2
  {
    hide Family, Build, Printable, Countable;
    if items != [] {
      MeasureValue(s, items[0], |items| == 1);
      var x := Build(true, s, items[0], |items| == 1).s;
      BuildOver(true, s, items[0], |items| == 1);
      if |items| > 1 {
        MeasureItems(Comma(x), items[1..]);
        var t := BuildItems(true, Comma(x), items[1..]).s;
        SizedFrame(x.nodes, t.nodes, |s.nodes|, s.c.top, items[0], false);
      }
    }
  }

  lemma {:induction false} MeasureObject(s: Scan, v: Value, last: bool)
    requires v.Obj? && AtValue(true, s) && s.c.p >= 0 && CanTake(s) && Printable(v) && Countable(v)
    ensures Build(true, s, v, last).Go?
    ensures var t := Build(true, s, v, last).s;
            Added(s, t, Count(v)) && Took(s, t) && Sized(t.nodes, |s.nodes|, s.c.top, v, last)
    decreases v, 0
  {
    hide Family, Attach, BuildMembers, Printable;
    var members, k := v.members, |s.nodes|;
    PartsPrintable(v);
    var u := s.(c := s.c.(seek := false, p := s.c.p + 1));
    NewKeeps(true, u, Object);
    var t1 := New(true, u, Object).s;
    MeasureMembers(t1, members);
    var x := BuildMembers(true, t1, members).s;
    MembersOver(true, t1, members);
    var w := x.(c := x.c.(comma := false, p := x.c.p + 1));
    AttachFirst(s, w, Count(v));
    SizedMembersFrame(w.nodes, Attach(true, w).s.nodes, k + 1, k, members);
  }

  lemma MeasureName(s: Scan, name: string)
    requires AtName(true, s) && s.c.p >= 0 && |name| <= MAX_SIZE
    ensures BuildName(true, s, name, |Quote(name)|).Go?
    ensures var t := BuildName(true, s, name, |Quote(name)|).s;
            Added(s, t, 0) && t.c.top == s.c.top
            && t.nodes[s.c.top] == s.nodes[s.c.top].(num := s.nodes[s.c.top].num + |name| + 1)
    ensures var t := BuildName(true, s, name, |Quote(name)|).s; AtValue(true, t) && TopIs(t, Object) && t.c.p >= 0
  {
    assert BuildName(true, s, name, |Quote(name)|).Go?;
    NameOver(true, s, name);
  }

  lemma {:induction false} MeasureMembers(s: Scan, members: seq<Member<Value>>)
    requires AtName(true, s) && s.c.p >= 0 && s.nodes[s.c.top].size + |members| <= MAX_SIZE
    requires forall i | 0 <= i < |members| ::
            |members[i].name| <= MAX_SIZE && Printable(members[i].value) && Countable(members[i].value)
    ensures BuildMembers(true, s, members).Go?
    ensures var t := BuildMembers(true, s, members).s;
            && Added(s, t, CountMembers(members)) && !t.c.done && t.c.top == s.c.top
            && t.nodes[s.c.top] == s.nodes[s.c.top].(size := s.nodes[s.c.top].size + |members|,
               num := s.nodes[s.c.top].num + NameBytes(members))
            && SizedMembers(t.nodes, |s.nodes|, s.c.top, members)
    decreases members, 2
  {
    hide Family, Build, BuildName, Printable, Countable, Quote;
    if members != [] {
      var x := MeasureMember(s, members);
      if |members| > 1 {
        MeasureMembers(Comma(x), members[1..]);
        var t := BuildMembers(true, Comma(x), members[1..]).s;
        SizedFrame(x.nodes, t.nodes, |s.nodes|, s.c.top, members[0].value, false);
      }
    }
  }

  /** One member, up to the end of its value. */
  lemma {:induction false} MeasureMember(s: Scan, members: seq<Member<Value>>) returns (x: Scan)
    requires AtName(true, s) && s.c.p >= 0 && members != [] && s.nodes[s.c.top].size + |members| <= MAX_SIZE
    requires |members[0].name| <= MAX_SIZE && Printable(members[0].value) && Countable(members[0].value)
    ensures var o := BuildName(true, s, members[0].name, |Quote(members[0].name)|);
            o.Go? && Build(true, o.s, members[0].value, |members| == 1) == Go(x)
    ensures Added(s, x, Count(members[0].value)) && !x.c.done && x.c.top == s.c.top && TopIs(x, Object)
    ensures x.nodes[s.c.top] == s.nodes[s.c.top].(size := s.nodes[s.c.top].size + 1,
      num := s.nodes[s.c.top].num + |members[0].name| + 1)
    ensures Sized(x.nodes, |s.nodes|, s.c.top, members[0].value, |members| == 1)
    ensures AtName(true, Comma(x)) && x.c.p >= 0
    decreases members, 1
  {
    hide Family, Build, BuildName, Printable, Countable, Quote, Sized;
    var m := members[0];
    MeasureName(s, m.name);
    var n := BuildName(true, s, m.name, |Quote(m.name)|).s;
    MeasureValue(n, m.value, |members| == 1);
    x := Build(true, n, m.value, |members| == 1).s;
    BuildOver(true, n, m.value, |members| == 1);
  }
}
