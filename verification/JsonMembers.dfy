/** Members of objects, sorted by name, as a finite map. */
module JsonMembers {
  import opened JsonText

  datatype Member<V> = Member(name: string, value: V)

  /** Strictly increasing names. */
  ghost predicate Increasing<V>(members: seq<Member<V>>) {
    forall i, j | 0 <= i < j < |members| :: Less(members[i].name, members[j].name)
  }

  /** The same in terms of the bytes of the names. */
  ghost predicate Sorted<V>(members: seq<Member<V>>) {
    forall i, j | 0 <= i < j < |members| :: Smaller(members[i].name, members[j].name)
  }

  lemma IncreasingMeans<V>(members: seq<Member<V>>)
    ensures Increasing(members) <==> Sorted(members)
  {
    hide Less, Smaller;
    forall i, j | 0 <= i < j < |members|
      ensures Less(members[i].name, members[j].name) <==> Smaller(members[i].name, members[j].name)
    {
      LessMeans(members[i].name, members[j].name);
    }
  }

  /** The place of a name: how many members come before it. */
  function Find<V>(members: seq<Member<V>>, name: string): (i: nat)
    ensures i <= |members|
    ensures i < |members| ==> Compare(name, members[i].name) <= 0
    ensures forall j | 0 <= j < i :: Compare(name, members[j].name) > 0
  {
    if members == [] || Compare(name, members[0].name) <= 0 then 0 else 1 + Find(members[1..], name)
  }

  predicate Has<V>(members: seq<Member<V>>, name: string) {
    var i := Find(members, name);
    i < |members| && Compare(name, members[i].name) == 0
  }

  function Insert<V>(members: seq<Member<V>>, m: Member<V>): seq<Member<V>> {
    var i := Find(members, m.name);
    members[..i] + [m] + members[i..]
  }

  /** A value for a name: the member of that name gets it, or a new member. */
  function Set<V>(members: seq<Member<V>>, name: string, value: V): seq<Member<V>> {
    var i := Find(members, name);
    if Has(members, name) then members[i := Member(members[i].name, value)] else Insert(members, Member(name, value))
  }

  /** A member takes its place; one of the same name gives way to it. */
  function Placed<V>(members: seq<Member<V>>, m: Member<V>): seq<Member<V>> {
    var i := Find(members, m.name);
    if Has(members, m.name) then members[i := m] else Insert(members, m)
  }

  /** Members that come one after the other. */
  function Collected<V>(start: seq<Member<V>>, members: seq<Member<V>>): seq<Member<V>>
    decreases |members|
  {
    if members == [] then start else Collected(Placed(start, members[0]), members[1..])
  }

  lemma {:induction false} SameNames<V, W>(a: seq<Member<V>>, b: seq<Member<W>>, name: string)
    requires |a| == |b| && forall i | 0 <= i < |a| :: a[i].name == b[i].name
    ensures Find(a, name) == Find(b, name) && (Has(a, name) <==> Has(b, name))
  {
    if a != [] && Compare(name, a[0].name) > 0 { SameNames(a[1..], b[1..], name); }
  }

  /** In sorted members a name has one place. */
  lemma FindUnique<V>(members: seq<Member<V>>, name: string, i: nat)
    requires Increasing(members) && i <= |members|
    requires i < |members| ==> Compare(name, members[i].name) <= 0
    requires i > 0 ==> Compare(name, members[i - 1].name) > 0
    ensures Find(members, name) == i
  {
    var k := Find(members, name);
    if k < i {
      NamesAfter(members, name, k, i - 1);
    }
  }

  lemma NamesAfter<V>(members: seq<Member<V>>, name: string, i: nat, j: nat)
    requires Increasing(members) && i <= j < |members| && Compare(name, members[i].name) <= 0
    ensures Compare(name, members[j].name) <= 0 && (i < j ==> Compare(name, members[j].name) < 0)
  {
    if i < j { CompareTrans(name, members[i].name, members[j].name); }
  }

  /** A name has a member exactly when some member carries it. */
  lemma HasIff<V>(members: seq<Member<V>>, name: string)
    requires Increasing(members)
    ensures Has(members, name) <==> exists j | 0 <= j < |members| :: Compare(name, members[j].name) == 0
  {
    if j :| 0 <= j < |members| && Compare(name, members[j].name) == 0 {
      var i := Find(members, name);
      if i < j { NamesAfter(members, name, i, j); }
    }
  }

  lemma InsertIncreasing<V>(members: seq<Member<V>>, m: Member<V>)
    requires Increasing(members) && !Has(members, m.name)
    ensures Increasing(Insert(members, m))
  {
    var i := Find(members, m.name);
    var r := Insert(members, m);
    forall j, k | 0 <= j < k < |r| ensures Less(r[j].name, r[k].name) {
      InsertAt(members, m, j);
      InsertAt(members, m, k);
      if j == i {
        NamesAfter(members, m.name, i, k - 1);
      } else if k == i {
        CompareFlip(m.name, members[j].name);
      }
    }
  }

  lemma InsertAt<V>(members: seq<Member<V>>, m: Member<V>, j: nat)
    requires j <= |members|
    ensures var i := Find(members, m.name);
            Insert(members, m)[j] == if j < i then members[j] else if j == i then m else members[j - 1]
  {
  }

  lemma SetIncreasing<V>(members: seq<Member<V>>, name: string, value: V)
    requires Increasing(members)
    ensures Increasing(Set(members, name, value)) && Sorted(Set(members, name, value))
  {
    if !Has(members, name) { InsertIncreasing(members, Member(name, value)); }
    hide Increasing, Sorted, Set;
    IncreasingMeans(Set(members, name, value));
  }

  /** The bytes of all names, with their NULs. */
  function NamesLen<V>(members: seq<Member<V>>): nat {
    if members == [] then 0 else |Visible(members[0].name)| + 1 + NamesLen(members[1..])
  }

  lemma {:induction false} NamesLenConcat<V>(a: seq<Member<V>>, b: seq<Member<V>>)
    ensures NamesLen(a + b) == NamesLen(a) + NamesLen(b)
  {
    if a == [] {
      assert a + b == b;
    } else {
      assert (a + b)[1..] == a[1..] + b;
      NamesLenConcat(a[1..], b);
    }
  }

  lemma {:induction false} NamesLenSame<V>(a: seq<Member<V>>, b: seq<Member<V>>)
    requires |a| == |b| && forall i | 0 <= i < |a| :: a[i].name == b[i].name
    ensures NamesLen(a) == NamesLen(b)
  {
    if a != [] { NamesLenSame(a[1..], b[1..]); }
  }

  lemma SetNamesLen<V>(members: seq<Member<V>>, name: string, value: V)
    ensures NamesLen(Set(members, name, value))
         == NamesLen(members) + if Has(members, name) then 0 else |Visible(name)| + 1
  {
    if Has(members, name) {
      NamesLenSame(members, Set(members, name, value));
    } else {
      var i, m := Find(members, name), Member(name, value);
      NamesLenConcat(members[..i] + [m], members[i..]);
      NamesLenConcat(members[..i], [m]);
      NamesLenConcat(members[..i], members[i..]);
      assert members[..i] + members[i..] == members;
      assert NamesLen([m]) == |Visible(name)| + 1 by { assert [m][1..] == []; }
    }
  }

  // ---------------------------------------------------------------- members that come in any order

  lemma PlacedLast<V>(members: seq<Member<V>>, m: Member<V>)
    requires forall i | 0 <= i < |members| :: Less(members[i].name, m.name)
    ensures Placed(members, m) == members + [m]
  {
    forall i | 0 <= i < |members| ensures Compare(m.name, members[i].name) > 0 {
      CompareFlip(m.name, members[i].name);
    }
  }

  lemma PlacedIncreasing<V>(members: seq<Member<V>>, m: Member<V>)
    requires Increasing(members)
    ensures Increasing(Placed(members, m))
  {
    if !Has(members, m.name) {
      InsertIncreasing(members, m);
    } else {
      var i := Find(members, m.name);
      var r := members[i := m];
      CompareFlip(m.name, members[i].name);
      forall j, k | 0 <= j < k < |r| ensures Less(r[j].name, r[k].name) {
        if k == i {
          CompareTrans(members[j].name, members[i].name, m.name);
        } else if j == i {
          CompareTrans(m.name, members[i].name, members[k].name);
        }
      }
    }
  }

  lemma {:induction false} CollectedIncreasing<V>(start: seq<Member<V>>, members: seq<Member<V>>)
    requires Increasing(start)
    ensures Increasing(Collected(start, members))
    decreases |members|
  {
    if members != [] {
      PlacedIncreasing(start, members[0]);
      CollectedIncreasing(Placed(start, members[0]), members[1..]);
    }
  }

  lemma {:induction false} CollectedSorted<V>(start: seq<Member<V>>, members: seq<Member<V>>)
    requires Increasing(start + members)
    ensures Collected(start, members) == start + members
    decreases |members|
  {
    if members != [] {
      var all := start + members;
      forall i | 0 <= i < |start| ensures Less(start[i].name, members[0].name) {
        assert all[i] == start[i] && all[|start|] == members[0];
      }
      PlacedLast(start, members[0]);
      assert start + [members[0]] + members[1..] == all;
      CollectedSorted(start + [members[0]], members[1..]);
    } else {
      assert start + members == start;
    }
  }

  /** Members stay as they come exactly if they are sorted. */
  lemma CollectedSame<V>(r: seq<Member<V>>, members: seq<Member<V>>)
    requires |r| == |members| && forall i | 0 <= i < |members| :: r[i].name == members[i].name
    ensures Collected([], r) == members <==> Increasing(members) && r == members
  {
    CollectedIncreasing([], r);
    if Increasing(members) {
      assert Increasing(r) && [] + r == r;
      CollectedSorted([], r);
    }
  }

  // ---------------------------------------------------------------- as a map

  /** The value of a name, by the part of it that counts. */
  ghost function AsMap<V>(members: seq<Member<V>>): map<string, V> {
    if members == [] then map[] else AsMap(members[1..])[Visible(members[0].name) := members[0].value]
  }

  lemma {:induction false} AsMapKeys<V>(members: seq<Member<V>>, key: string)
    ensures key in AsMap(members) <==> exists j | 0 <= j < |members| :: Visible(members[j].name) == key
  {
    if members != [] {
      AsMapKeys(members[1..], key);
      if j :| 0 <= j < |members| && Visible(members[j].name) == key {
        if j > 0 { assert members[1..][j - 1] == members[j]; }
      }
      if key in AsMap(members[1..]) {
        var j :| 0 <= j < |members[1..]| && Visible(members[1..][j].name) == key;
        assert members[j + 1] == members[1..][j];
      }
    }
  }

  /** Sorted members give every one of them a key of its own. */
  lemma {:induction false} AsMapAt<V>(members: seq<Member<V>>, i: nat)
    requires Increasing(members) && i < |members|
    ensures Visible(members[i].name) in AsMap(members) && AsMap(members)[Visible(members[i].name)] == members[i].value
  {
    if i > 0 {
      AsMapAt(members[1..], i - 1);
      assert members[1..][i - 1] == members[i];
      CompareEqual(members[0].name, members[i].name);
    }
  }

  lemma {:induction false} AsMapSize<V>(members: seq<Member<V>>)
    requires Increasing(members)
    ensures |AsMap(members)| == |members|
  {
    if members != [] {
      AsMapSize(members[1..]);
      var key := Visible(members[0].name);
      AsMapKeys(members[1..], key);
      if key in AsMap(members[1..]) {
        var j :| 0 <= j < |members[1..]| && Visible(members[1..][j].name) == key;
        assert Less(members[0].name, members[j + 1].name);
        CompareEqual(members[0].name, members[j + 1].name);
      }
      assert AsMap(members).Keys == AsMap(members[1..]).Keys + {key};
    }
  }

  /** `Has` and `Find` look a name up in the map. */
  lemma GetIsLookup<V>(members: seq<Member<V>>, name: string)
    requires Increasing(members)
    ensures Has(members, name) <==> Visible(name) in AsMap(members)
    ensures Has(members, name) ==> AsMap(members)[Visible(name)] == members[Find(members, name)].value
  {
    HasIff(members, name);
    AsMapKeys(members, Visible(name));
    if Has(members, name) {
      var i := Find(members, name);
      CompareEqual(name, members[i].name);
      AsMapAt(members, i);
    }
    if j :| 0 <= j < |members| && Visible(members[j].name) == Visible(name) {
      CompareEqual(name, members[j].name);
    }
  }

  lemma {:induction false} AsMapInsert<V>(members: seq<Member<V>>, i: nat, m: Member<V>)
    requires i <= |members|
    requires forall j | 0 <= j < |members| :: Visible(members[j].name) != Visible(m.name)
    ensures AsMap(members[..i] + [m] + members[i..]) == AsMap(members)[Visible(m.name) := m.value]
  {
    var r := members[..i] + [m] + members[i..];
    if i == 0 {
      assert r == [m] + members && r[1..] == members;
    } else {
      AsMapInsert(members[1..], i - 1, m);
      assert r[1..] == members[1..][..i - 1] + [m] + members[1..][i - 1..];
      assert r[0] == members[0];
    }
  }

  lemma {:induction false} AsMapUpdate<V>(members: seq<Member<V>>, i: nat, value: V)
    requires Increasing(members) && i < |members|
    ensures AsMap(members[i := Member(members[i].name, value)]) == AsMap(members)[Visible(members[i].name) := value]
  {
    var r := members[i := Member(members[i].name, value)];
    if i == 0 {
      assert r[1..] == members[1..];
    } else {
      AsMapUpdate(members[1..], i - 1, value);
      assert r[1..] == members[1..][i - 1 := Member(members[i].name, value)];
      CompareEqual(members[0].name, members[i].name);
    }
  }

  /** A member that is placed updates the map, too. */
  lemma PlacedIsUpdate<V>(members: seq<Member<V>>, m: Member<V>)
    requires Increasing(members)
    ensures AsMap(Placed(members, m)) == AsMap(members)[Visible(m.name) := m.value]
  {
    SetIsUpdate(members, m.name, m.value);
    if Has(members, m.name) {
      var i := Find(members, m.name);
      CompareEqual(m.name, members[i].name);
      AsMapAlike(members[i := m], members[i := Member(members[i].name, m.value)]);
    }
  }

  lemma {:induction false} AsMapAlike<V>(r: seq<Member<V>>, s: seq<Member<V>>)
    requires |r| == |s|
    requires forall i | 0 <= i < |r| :: r[i].value == s[i].value && Visible(r[i].name) == Visible(s[i].name)
    ensures AsMap(r) == AsMap(s)
  {
    if r != [] { AsMapAlike(r[1..], s[1..]); }
  }

  /** What members say that come one after the other: of each name the last. */
  function Said<V>(m: map<string, V>, members: seq<Member<V>>): map<string, V>
    decreases |members|
  {
    if members == [] then m else Said(m[Visible(members[0].name) := members[0].value], members[1..])
  }

  lemma {:induction false} CollectedIsSaid<V>(start: seq<Member<V>>, members: seq<Member<V>>)
    requires Increasing(start)
    ensures AsMap(Collected(start, members)) == Said(AsMap(start), members)
    decreases |members|
  {
    if members != [] {
      PlacedIncreasing(start, members[0]);
      PlacedIsUpdate(start, members[0]);
      CollectedIsSaid(Placed(start, members[0]), members[1..]);
    }
  }

  /** Of each name the last: the value at `i` if no later member has the name. */
  lemma {:induction false} SaidLast<V>(m: map<string, V>, members: seq<Member<V>>, i: nat)
    requires i < |members|
    requires forall j | i < j < |members| :: Visible(members[j].name) != Visible(members[i].name)
    ensures var name := Visible(members[i].name);
            name in Said(m, members) && Said(m, members)[name] == members[i].value
    decreases |members|
  {
    var n := m[Visible(members[0].name) := members[0].value];
    if i > 0 {
      SaidLast(n, members[1..], i - 1);
    } else {
      forall j | 0 <= j < |members[1..]| ensures Visible(members[1..][j].name) != Visible(members[0].name) {
        assert members[1..][j] == members[j + 1];
      }
      SaidElse(n, members[1..], Visible(members[0].name));
    }
  }

  lemma {:induction false} SaidElse<V>(m: map<string, V>, members: seq<Member<V>>, key: string)
    requires forall j | 0 <= j < |members| :: Visible(members[j].name) != key
    ensures (key in Said(m, members) <==> key in m) && (key in m ==> Said(m, members)[key] == m[key])
    decreases |members|
  {
    if members != [] { SaidElse(m[Visible(members[0].name) := members[0].value], members[1..], key); }
  }

  /** Setting a member updates the map. */
  lemma SetIsUpdate<V>(members: seq<Member<V>>, name: string, value: V)
    requires Increasing(members)
    ensures AsMap(Set(members, name, value)) == AsMap(members)[Visible(name) := value]
  {
    var i := Find(members, name);
    if Has(members, name) {
      CompareEqual(name, members[i].name);
      AsMapUpdate(members, i, value);
    } else {
      HasIff(members, name);
      forall j | 0 <= j < |members| ensures Visible(members[j].name) != Visible(name) {
        CompareEqual(name, members[j].name);
      }
      AsMapInsert(members, i, Member(name, value));
    }
  }
}
