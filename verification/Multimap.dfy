/** The sorted multimap a tree stands for: pairs in key order, equal keys in the order of
    their arrival. */
module Multimap {
  import opened Wrappers

  const KEY_LIMIT := 0x1_0000_0000_0000_0000

  /** An unsigned 64-bit key. */
  type Key = k: int | 0 <= k < KEY_LIMIT

  type Pairs = seq<(Key, Pointer)>

  ghost predicate InOrder(s: Pairs) {
    forall i, j | 0 <= i < j < |s| :: s[i].0 <= s[j].0
  }

  ghost predicate HasKey(s: Pairs, k: Key) {
    exists i | 0 <= i < |s| :: s[i].0 == k
  }

  /** The pair goes behind all pairs with a key up to its own. */
  ghost function Put(s: Pairs, k: Key, v: Pointer): Pairs {
    if s == [] || k < s[0].0 then [(k, v)] + s else [s[0]] + Put(s[1..], k, v)
  }

  ghost predicate Changed(s: Pairs, s': Pairs, i: nat, k: Key, v: Pointer) {
    i < |s| && s[i].0 == k && s' == s[i := (k, v)]
  }

  ghost predicate Dropped(s: Pairs, s': Pairs, i: nat, k: Key) {
    i < |s| && s[i].0 == k && s' == s[..i] + s[i + 1..]
  }

  lemma {:induction false} PutSplit(a: Pairs, b: Pairs, k: Key, v: Pointer)
    requires forall i | 0 <= i < |a| :: a[i].0 <= k
    requires b == [] || k < b[0].0
    ensures Put(a + b, k, v) == a + [(k, v)] + b
  {
    if a == [] {
      assert a + b == b;
      assert [] + [(k, v)] == [(k, v)];
    } else {
      PutSplit(a[1..], b, k, v);
      assert (a + b)[1..] == a[1..] + b;
      assert [a[0]] + (a[1..] + [(k, v)] + b) == a + [(k, v)] + b;
    }
  }

  /** How many pairs a key has, in the order of arrival: what `Put` does to each key. */
  ghost function Values(s: Pairs, k: Key): seq<Pointer> {
    if s == [] then [] else (if s[0].0 == k then [s[0].1] else []) + Values(s[1..], k)
  }

  lemma {:induction false} PutInOrder(s: Pairs, k: Key, v: Pointer)
    requires InOrder(s)
    ensures InOrder(Put(s, k, v))
    ensures forall i | 0 <= i < |Put(s, k, v)| :: Put(s, k, v)[i].0 == k || exists j | 0 <= j < |s| ::
            s[j].0 == Put(s, k, v)[i].0
  {
    if s == [] || k < s[0].0 {
    } else {
      var r := Put(s[1..], k, v);
      PutInOrder(s[1..], k, v);
      forall i | 0 <= i < |r| ensures s[0].0 <= r[i].0 && (r[i].0 == k || exists j | 0 <= j < |s| :: s[j].0 == r[i].0) {
        if r[i].0 != k {
          var j :| 0 <= j < |s[1..]| && s[1..][j].0 == r[i].0;
          assert s[j + 1].0 == r[i].0;
        }
      }
    }
  }

  /** Each key is a queue: `Put` appends to the queue of its key and to no other. */
  lemma {:induction false} PutAppends(s: Pairs, k: Key, v: Pointer, q: Key)
    requires InOrder(s)
    ensures Values(Put(s, k, v), q) == if q == k then Values(s, q) + [v] else Values(s, q)
  {
    if s == [] || k < s[0].0 {
      assert ([(k, v)] + s)[1..] == s;
      if q == k { NoValues(s, k); }
    } else {
      PutAppends(s[1..], k, v, q);
      assert ([s[0]] + Put(s[1..], k, v))[1..] == Put(s[1..], k, v);
    }
  }

  lemma {:induction false} NoValues(s: Pairs, k: Key)
    requires forall i | 0 <= i < |s| :: s[i].0 != k
    ensures Values(s, k) == []
  {
    if s != [] { NoValues(s[1..], k); }
  }

  // ---------------------------------------------------------------- where the values are

  ghost function AllValues(s: Pairs): seq<Pointer> {
    if s == [] then [] else [s[0].1] + AllValues(s[1..])
  }

  lemma {:induction false} AllValuesAppend(s: Pairs, p: (Key, Pointer))
    ensures AllValues(s + [p]) == AllValues(s) + [p.1]
  {
    if s != [] {
      AllValuesAppend(s[1..], p);
      assert (s + [p])[1..] == s[1..] + [p];
    }
  }

  lemma {:induction false} AllValuesConcat(s: Pairs, t: Pairs)
    ensures AllValues(s + t) == AllValues(s) + AllValues(t)
  {
    if s == [] {
      assert s + t == t;
    } else {
      AllValuesConcat(s[1..], t);
      assert (s + t)[1..] == s[1..] + t;
    }
  }

  /** Nothing is lost or doubled: a value put in is either held or handed to the release
      function, and a value handed out was held. */
  lemma {:induction false} PutKeepsValues(s: Pairs, k: Key, v: Pointer)
    ensures multiset(AllValues(Put(s, k, v))) == multiset(AllValues(s)) + multiset{v}
  {
    if s == [] || k < s[0].0 {
      assert ([(k, v)] + s)[1..] == s;
    } else {
      PutKeepsValues(s[1..], k, v);
      assert ([s[0]] + Put(s[1..], k, v))[1..] == Put(s[1..], k, v);
    }
  }

  lemma ChangedKeepsValues(s: Pairs, s': Pairs, i: nat, k: Key, v: Pointer)
    requires Changed(s, s', i, k, v)
    ensures multiset(AllValues(s')) + multiset{s[i].1} == multiset(AllValues(s)) + multiset{v}
  {
    SplitValues(s, i);
    SplitValues(s', i);
    assert s'[..i] == s[..i] && s'[i + 1..] == s[i + 1..];
  }

  lemma DroppedKeepsValues(s: Pairs, s': Pairs, i: nat, k: Key)
    requires Dropped(s, s', i, k)
    ensures multiset(AllValues(s')) + multiset{s[i].1} == multiset(AllValues(s))
  {
    SplitValues(s, i);
    AllValuesConcat(s[..i], s[i + 1..]);
  }

  lemma SplitValues(s: Pairs, i: nat)
    requires i < |s|
    ensures AllValues(s) == AllValues(s[..i]) + [s[i].1] + AllValues(s[i + 1..])
  {
    var tail := s[i..];
    assert tail[0] == s[i] && tail[1..] == s[i + 1..] && AllValues(tail) == [s[i].1] + AllValues(tail[1..]);
    hide AllValues;
    assert s == s[..i] + tail;
    AllValuesConcat(s[..i], tail);
  }
}
