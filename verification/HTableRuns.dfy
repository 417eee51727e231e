/** Runs of operations on a hash table: what a whole series of calls leaves behind and
    answers, as a fold over abstract operations, and what that fold means for a map. */
module HTableRuns {
  import opened Wrappers
  import T = HTable

  type Entries = T.Entries
  type Key = T.Key

  datatype Op =
    | Add(num: nat, bytes: seq<T.Char>, value: Pointer, force: bool)
    | Del(num: nat, bytes: seq<T.Char>)
    | Find(num: nat, bytes: seq<T.Char>)

  /** What a call returns: a code, or the value looked up. */
  datatype Answer = Code(ret: int) | Value(value: Pointer)

  /** The entries in order of arrival; with a release function, the values handed to it. */
  datatype State = State(entries: Entries, vfree: bool, freed: seq<Pointer>)

  function Empty(vfree: bool): State { State([], vfree, []) }

  function Holding(s: State, entries: Entries, given: Pointer): State {
    State(entries, s.vfree, if s.vfree then s.freed + [given] else s.freed)
  }

  function KeyOf(op: Op): Key { T.KeyOf(op.num, op.bytes) }

  // ---------------------------------------------------------------- one operation

  ghost function After(s: State, op: Op): State {
    var k, known := KeyOf(op), T.HasKey(s.entries, KeyOf(op));
    match op
    case Add(_, _, v, force) =>
      if !known then s.(entries := s.entries + [(k, v)])
      else if force then
        var i := T.Place(s.entries, k); Holding(s, s.entries[i := (k, v)], s.entries[i].1)
      else s
    case Del(_, _) =>
      if known then
        var i := T.Place(s.entries, k); Holding(s, s.entries[..i] + s.entries[i + 1..], s.entries[i].1)
      else s
    case Find(_, _) => s
  }

  ghost function AnswerTo(s: State, op: Op): Answer {
    var k, known := KeyOf(op), T.HasKey(s.entries, KeyOf(op));
    match op
    case Add(_, _, _, force) => Code(if known && !force then -1 else 0)
    case Del(_, _) => Code(0)
    case Find(_, _) => Value(if known then s.entries[T.Place(s.entries, k)].1 else NULL)
  }

  // ---------------------------------------------------------------- a run

  ghost function Fold(s: State, ops: seq<Op>): State {
    if ops == [] then s else After(Fold(s, ops[..|ops| - 1]), ops[|ops| - 1])
  }

  ghost function Answers(s: State, ops: seq<Op>): seq<Answer> {
    if ops == [] then []
    else
      var front := ops[..|ops| - 1];
      Answers(s, front) + [AnswerTo(Fold(s, front), ops[|ops| - 1])]
  }

  ghost function Shown(t: T.HTable): State
    reads t`order, t.order`value, t`freed
  {
    State(t.Contents(), t.vfree, t.freed)
  }

  /** A single call. */
  method Do(t: T.HTable, op: Op) returns (a: Answer)
    requires t.Valid()
    modifies t, t.nodes, t.order
    ensures t.Valid() && t.curr == old(t.curr) && (t.nodes == old(t.nodes) || fresh(t.nodes))
    ensures forall i | 0 <= i < |t.order| :: t.order[i] in old(t.order) || fresh(t.order[i])
    ensures Shown(t) == After(old(Shown(t)), op) && a == AnswerTo(old(Shown(t)), op)
  {
    hide T.HTable.Valid, T.HasKey, T.EntriesOf;
    match op
    case Add(num, bytes, value, force) =>
      var r := t.Add(num, bytes, value, force);
      a := Code(r);
    case Del(num, bytes) =>
      var r := t.Del(num, bytes);
      a := Code(r);
    case Find(num, bytes) =>
      var v := t.Find(num, bytes);
      a := Value(v);
  }

  /** A series of calls on any table does what the abstract operations do. */
  method Run(t: T.HTable, ops: seq<Op>) returns (answers: seq<Answer>)
    requires t.Valid()
    modifies t, t.nodes, t.order
    ensures t.Valid() && t.curr == old(t.curr)
    ensures Shown(t) == Fold(old(Shown(t)), ops) && answers == Answers(old(Shown(t)), ops)
  {
    hide T.HTable.Valid, After, AnswerTo, Shown;
    answers := [];
    var i := 0;
    while i < |ops|
      invariant 0 <= i <= |ops| && t.Valid() && t.curr == old(t.curr) && (t.nodes == old(t.nodes) || fresh(t.nodes))
      invariant forall k | 0 <= k < |t.order| :: t.order[k] in old(t.order) || fresh(t.order[k])
      invariant Shown(t) == Fold(old(Shown(t)), ops[..i]) && answers == Answers(old(Shown(t)), ops[..i])
    {
      assert ops[..i + 1][..i] == ops[..i];
      var a := Do(t, ops[i]);
      answers := answers + [a];
      i := i + 1;
    }
    assert ops[..i] == ops;
  }

  /** And so on a new one. */
  method RunOnNew(vfree: bool, ops: seq<Op>) returns (t: T.HTable, answers: seq<Answer>)
    ensures fresh(t) && t.Valid()
    ensures Shown(t) == Fold(Empty(vfree), ops) && answers == Answers(Empty(vfree), ops)
  {
    t := new T.HTable(vfree);
    answers := Run(t, ops);
  }

  // ---------------------------------------------------------------- as a map

  ghost function ToMap(s: Entries): map<Key, Pointer> {
    map k | k in (set i | 0 <= i < |s| :: s[i].0) :: s[T.Place(s, k)].1
  }

  /** What an operation does to a map. */
  function Update(m: map<Key, Pointer>, op: Op): map<Key, Pointer> {
    var k := KeyOf(op);
    match op
    case Add(_, _, v, force) => if k in m && !force then m else m[k := v]
    case Del(_, _) => m - {k}
    case Find(_, _) => m
  }

  function Updates(m: map<Key, Pointer>, ops: seq<Op>): map<Key, Pointer> {
    if ops == [] then m else Update(Updates(m, ops[..|ops| - 1]), ops[|ops| - 1])
  }

  lemma MapKeys(s: Entries, k: Key)
    ensures k in ToMap(s) <==> T.HasKey(s, k)
    ensures T.HasKey(s, k) ==> ToMap(s)[k] == s[T.Place(s, k)].1
  {
    if T.HasKey(s, k) {
      var i := T.Place(s, k);
      assert s[i].0 in (set j | 0 <= j < |s| :: s[j].0);
    }
  }

  lemma MapAt(s: Entries, i: nat)
    requires T.UniqueKeys(s) && i < |s|
    ensures s[i].0 in ToMap(s) && ToMap(s)[s[i].0] == s[i].1
  {
    assert T.HasKey(s, s[i].0);
    T.PlaceIs(s, s[i].0, i);
    MapKeys(s, s[i].0);
  }

  /** The entries are those of the map, each key once. */
  lemma SameMap(s: Entries, m: map<Key, Pointer>)
    requires T.UniqueKeys(s)
    requires forall i | 0 <= i < |s| :: s[i].0 in m && m[s[i].0] == s[i].1
    requires forall k | k in m :: T.HasKey(s, k)
    ensures ToMap(s) == m
  {
    forall k ensures k in ToMap(s) <==> k in m { MapKeys(s, k); }
    forall k | k in m ensures ToMap(s)[k] == m[k] { MapKeys(s, k); }
  }

  lemma AppendIsUpdate(e: Entries, k: Key, v: Pointer)
    requires T.UniqueKeys(e) && !T.HasKey(e, k)
    ensures T.UniqueKeys(e + [(k, v)]) && ToMap(e + [(k, v)]) == ToMap(e)[k := v]
  {
    var t, m := e + [(k, v)], ToMap(e)[k := v];
    forall i | 0 <= i < |t| ensures t[i].0 in m && m[t[i].0] == t[i].1 {
      if i < |e| { MapAt(e, i); }
    }
    forall q | q in m ensures T.HasKey(t, q) {
      MapKeys(e, q);
      if q == k { assert t[|e|].0 == q; } else { assert t[T.Place(e, q)].0 == q; }
    }
    hide ToMap;
    SameMap(t, m);
  }

  lemma ReplaceIsUpdate(e: Entries, k: Key, v: Pointer)
    requires T.UniqueKeys(e) && T.HasKey(e, k)
    ensures var t := e[T.Place(e, k) := (k, v)]; T.UniqueKeys(t) && ToMap(t) == ToMap(e)[k := v]
  {
    var t, m := e[T.Place(e, k) := (k, v)], ToMap(e)[k := v];
    forall i | 0 <= i < |t| ensures t[i].0 in m && m[t[i].0] == t[i].1 { MapAt(e, i); }
    forall q | q in m ensures T.HasKey(t, q) {
      MapKeys(e, q);
      MapKeys(e, k);
      assert t[T.Place(e, q)].0 == q;
    }
    hide ToMap;
    SameMap(t, m);
  }

  lemma RemoveIsUpdate(e: Entries, k: Key, d: nat)
    requires T.UniqueKeys(e) && d < |e| && e[d].0 == k
    ensures var t := e[..d] + e[d + 1..]; T.UniqueKeys(t) && ToMap(t) == ToMap(e) - {k}
  {
    var t, m := e[..d] + e[d + 1..], ToMap(e) - {k};
    assert forall i | 0 <= i < |t| :: t[i] == e[if i < d then i else i + 1];
    forall i | 0 <= i < |t| ensures t[i].0 in m && m[t[i].0] == t[i].1 {
      MapAt(e, if i < d then i else i + 1);
    }
    forall q | q in m ensures T.HasKey(t, q) {
      MapKeys(e, q);
      var j := T.Place(e, q);
      assert t[if j < d then j else j - 1].0 == q;
    }
    hide ToMap;
    SameMap(t, m);
  }

  lemma AfterIsUpdate(s: State, op: Op)
    requires T.UniqueKeys(s.entries)
    ensures T.UniqueKeys(After(s, op).entries)
    ensures ToMap(After(s, op).entries) == Update(ToMap(s.entries), op)
  {
    hide T.UniqueKeys, ToMap, T.HasKey;
    var k, e := KeyOf(op), s.entries;
    MapKeys(e, k);
    if op.Add? {
      if T.HasKey(e, k) { ReplaceIsUpdate(e, k, op.value); } else { AppendIsUpdate(e, k, op.value); }
    } else if op.Del? && T.HasKey(e, k) {
      RemoveIsUpdate(e, k, T.Place(e, k));
    }
  }

  /** A run on a new table is a run on a map; each look-up answers with the map's value. */
  lemma {:induction false} RunIsMap(vfree: bool, ops: seq<Op>)
    ensures T.UniqueKeys(Fold(Empty(vfree), ops).entries)
    ensures ToMap(Fold(Empty(vfree), ops).entries) == Updates(map[], ops)
    decreases |ops|
  {
    if ops == [] {
      SameMap([], map[]);
    } else {
      RunIsMap(vfree, ops[..|ops| - 1]);
      AfterIsUpdate(Fold(Empty(vfree), ops[..|ops| - 1]), ops[|ops| - 1]);
    }
  }

  lemma LookUpInRun(vfree: bool, ops: seq<Op>, op: Op)
    requires op.Find?
    ensures var m := Updates(map[], ops);
            AnswerTo(Fold(Empty(vfree), ops), op) == Value(if KeyOf(op) in m then m[KeyOf(op)] else NULL)
  {
    RunIsMap(vfree, ops);
    MapKeys(Fold(Empty(vfree), ops).entries, KeyOf(op));
  }

  // ---------------------------------------------------------------- no value is lost

  function ValuesOf(s: Entries): multiset<Pointer> {
    if s == [] then multiset{} else multiset{s[0].1} + ValuesOf(s[1..])
  }

  lemma {:induction false} ValuesConcat(a: Entries, b: Entries)
    ensures ValuesOf(a + b) == ValuesOf(a) + ValuesOf(b)
  {
    if a == [] {
      assert a + b == b;
    } else {
      assert (a + b)[1..] == a[1..] + b;
      ValuesConcat(a[1..], b);
    }
  }

  lemma ValuesSplit(s: Entries, i: nat)
    requires i < |s|
    ensures ValuesOf(s) == ValuesOf(s[..i]) + multiset{s[i].1} + ValuesOf(s[i + 1..])
  {
    var tail := s[i..];
    assert s == s[..i] + tail && tail[0] == s[i] && tail[1..] == s[i + 1..];
    ValuesConcat(s[..i], tail);
  }

  /** The values the table took over: those of the additions that did not fail. */
  ghost function Taken(s: State, ops: seq<Op>): multiset<Pointer> {
    if ops == [] then multiset{}
    else
      var front, op := ops[..|ops| - 1], ops[|ops| - 1];
      Taken(s, front) + if op.Add? && AnswerTo(Fold(s, front), op) == Code(0) then multiset{op.value} else multiset{}
  }

  ghost function AllOf(s: State): multiset<Pointer> { ValuesOf(s.entries) + multiset(s.freed) }

  lemma Handed(s: State, e: Entries, v: Pointer, x: multiset<Pointer>)
    requires s.vfree && ValuesOf(e) + multiset{v} == ValuesOf(s.entries) + x
    ensures AllOf(Holding(s, e, v)) == AllOf(s) + x
  {
    hide ValuesOf;
    MovedOver(ValuesOf(s.entries), multiset(s.freed), ValuesOf(e), multiset(s.freed + [v]), v, x);
  }

  lemma ReplaceValues(e: Entries, i: nat, p: (Key, Pointer))
    requires i < |e|
    ensures ValuesOf(e[i := p]) + multiset{e[i].1} == ValuesOf(e) + multiset{p.1}
  {
    var t := e[i := p];
    ValuesSplit(e, i);
    ValuesSplit(t, i);
    hide ValuesOf;
    assert t[..i] == e[..i] && t[i + 1..] == e[i + 1..];
  }

  lemma RemoveValues(e: Entries, i: nat)
    requires i < |e|
    ensures ValuesOf(e[..i] + e[i + 1..]) + multiset{e[i].1} == ValuesOf(e)
  {
    ValuesSplit(e, i);
    hide ValuesOf;
    ValuesConcat(e[..i], e[i + 1..]);
  }

  lemma AppendValues(e: Entries, p: (Key, Pointer))
    ensures ValuesOf(e + [p]) == ValuesOf(e) + multiset{p.1}
  {
    ValuesConcat(e, [p]);
    assert [p][1..] == [];
  }

  lemma AfterConserves(s: State, op: Op)
    requires s.vfree
    ensures AllOf(After(s, op))
         == AllOf(s) + if op.Add? && AnswerTo(s, op) == Code(0) then multiset{op.value} else multiset{}
  {
    hide ValuesOf, Holding;
    var k, e := KeyOf(op), s.entries;
    if T.HasKey(e, k) {
      var i := T.Place(e, k);
      hide T.HasKey;
      if op.Add? && op.force {
        ReplaceValues(e, i, (k, op.value));
        Handed(s, e[i := (k, op.value)], e[i].1, multiset{op.value});
      } else if op.Del? {
        RemoveValues(e, i);
        Handed(s, e[..i] + e[i + 1..], e[i].1, multiset{});
      }
    } else if op.Add? {
      AppendValues(e, (k, op.value));
    }
  }

  /** After any run every value taken over is held by one entry or was released, once. */
  lemma {:induction false} RunConserves(s: State, ops: seq<Op>)
    requires s.vfree
    ensures Fold(s, ops).vfree
    ensures AllOf(Fold(s, ops)) == AllOf(s) + Taken(s, ops)
    decreases |ops|
  {
    hide AllOf;
    if ops != [] {
      RunConserves(s, ops[..|ops| - 1]);
      AfterConserves(Fold(s, ops[..|ops| - 1]), ops[|ops| - 1]);
    }
  }
}
