/** Small things shared by all modules. */
module Wrappers {
  datatype Option<T> = None | Some(value: T)

  /** The address of a value; 0 is the null pointer. */
  type Pointer = int
  const NULL: Pointer := 0

  ghost function Pow2(k: nat): nat { if k == 0 then 1 else 2 * Pow2(k - 1) }

  lemma {:induction false} Pow2Monotone(j: nat, k: nat)
    requires j <= k
    ensures 1 <= Pow2(j) <= Pow2(k)
    decreases k
  {
    if k == 0 {
    } else if j == k {
      Pow2Monotone(j - 1, k - 1);
    } else {
      Pow2Monotone(j, k - 1);
    }
  }

  ghost predicate Distinct<T>(s: seq<T>) {
    forall i, j :: 0 <= i < j < |s| ==> s[i] != s[j]
  }

  function Without<T>(s: seq<T>, d: nat): seq<T>
    requires d < |s|
  {
    s[..d] + s[d + 1..]
  }

  /** The place of a member in a list. */
  ghost function IndexOf<T>(s: seq<T>, x: T): (d: nat)
    requires x in s
    ensures d < |s| && s[d] == x
  {
    if s[0] == x then 0 else 1 + IndexOf(s[1..], x)
  }

  lemma DistinctWithout<T>(live: seq<T>, d: nat)
    requires d < |live| && Distinct(live)
    ensures Distinct(Without(live, d)) && live[d] !in Without(live, d)
    ensures forall x :: x in live <==> x in Without(live, d) || x == live[d]
  {
    var rest := Without(live, d);
    forall x ensures x in live <==> x in rest || x == live[d] {
      if x in live {
        var i := IndexOf(live, x);
        assert i < d ==> rest[i] == x;
        assert i > d ==> rest[i - 1] == x;
      }
    }
  }

  /** One value moves from what is held to what was given away, others come in. */
  lemma MovedOver(held: multiset<Pointer>, given: multiset<Pointer>, held': multiset<Pointer>,
                  given': multiset<Pointer>, v: Pointer, x: multiset<Pointer>)
    requires held' + multiset{v} == held + x && given' == given + multiset{v}
    ensures held' + given' == held + given + x
  {
    forall p: Pointer ensures (held' + given')[p] == (held + given + x)[p] {
      assert (held' + multiset{v})[p] == (held + x)[p];
    }
  }
}
