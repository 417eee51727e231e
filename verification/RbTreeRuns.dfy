/** Runs of operations on a red-black tree.  Which of several pairs with one key is
    replaced, deleted or found depends on the shape of the tree, so a run is a series of
    contents each of which an operation may lead to from the one before. */
module RbTreeRuns {
  import opened Wrappers
  import opened Multimap
  import T = RbTree

  datatype Op = Add(key: Key, value: Pointer, force: bool) | Del(key: Key) | Find(key: Key)

  /** What a call returns: a code, or the value looked up. */
  datatype Answer = Code(ret: int) | Value(value: Pointer)

  /** The pairs in key order; with a release function, the values handed to it. */
  datatype State = State(pairs: Pairs, vfree: bool, freed: seq<Pointer>)

  function Empty(vfree: bool): State { State([], vfree, []) }

  ghost predicate Given(s: State, t: State, v: Pointer) {
    t.vfree == s.vfree && t.freed == if s.vfree then s.freed + [v] else s.freed
  }

  /** What an operation may make of a state, and answer. */
  ghost predicate May(s: State, op: Op, t: State, a: Answer) {
    match op
    case Add(k, v, force) =>
      a == Code(0)
      && if force && HasKey(s.pairs, k)
         then exists i: nat :: Changed(s.pairs, t.pairs, i, k, v) && Given(s, t, s.pairs[i].1)
         else t == s.(pairs := Put(s.pairs, k, v))
    case Del(k) =>
      if HasKey(s.pairs, k)
      then a == Code(0) && exists i: nat :: Dropped(s.pairs, t.pairs, i, k) && Given(s, t, s.pairs[i].1)
      else a == Code(-1) && t == s
    case Find(k) =>
      t == s && if HasKey(s.pairs, k) then a.Value? && (k, a.value) in s.pairs else a == Value(NULL)
  }

  /** The states along a run. */
  ghost predicate Runs(trace: seq<State>, ops: seq<Op>, answers: seq<Answer>) {
    |trace| == |ops| + 1 && |answers| == |ops|
    && forall i | 0 <= i < |ops| :: May(trace[i], ops[i], trace[i + 1], answers[i])
  }

  ghost function Shown(t: T.RbTree): State
    reads t, t.leaf`red, t.nodes
    requires t.Valid()
  {
    State(t.Contents(), t.vfree, t.freed)
  }

  method Do(t: T.RbTree, op: Op) returns (a: Answer)
    requires t.Valid()
    modifies t, t.nodes, t.leaf
    ensures t.Valid() && fresh(t.nodes - old(t.nodes))
    ensures May(old(Shown(t)), op, Shown(t), a)
  {
    hide T.RbTree.Valid, T.RbTree.Contents;
    ghost var i;
    match op
    case Add(key, value, force) =>
      var r;
      r, i := t.Add(key, value, force);
      a := Code(r);
    case Del(key) =>
      var r;
      r, i := t.Del(key);
      a := Code(r);
    case Find(key) =>
      var v;
      v, i := t.Find(key);
      a := Value(v);
  }

  /** A series of calls on any tree leads through states each of which its operation allows. */
  method Run(t: T.RbTree, ops: seq<Op>) returns (answers: seq<Answer>, ghost trace: seq<State>)
    requires t.Valid()
    modifies t, t.nodes, t.leaf
    ensures t.Valid() && fresh(t.nodes - old(t.nodes))
    ensures Runs(trace, ops, answers) && trace[0] == old(Shown(t)) && trace[|ops|] == Shown(t)
  {
    hide T.RbTree.Valid, T.RbTree.Contents, May, Shown;
    answers, trace := [], [Shown(t)];
    var i := 0;
    while i < |ops|
      invariant 0 <= i <= |ops| && t.Valid() && fresh(t.nodes - old(t.nodes))
      invariant Runs(trace, ops[..i], answers) && trace[0] == old(Shown(t)) && trace[i] == Shown(t)
    {
      var a := Do(t, ops[i]);
      LongerRun(trace, ops[..i], answers, ops[i], Shown(t), a);
      assert ops[..i] + [ops[i]] == ops[..i + 1];
      answers, trace := answers + [a], trace + [Shown(t)];
      i := i + 1;
    }
    assert ops[..i] == ops;
  }

  /** And so on a new one. */
  method RunOnNew(vfree: bool, ops: seq<Op>) returns (t: T.RbTree, answers: seq<Answer>, ghost trace: seq<State>)
    ensures fresh(t) && t.Valid()
    ensures Runs(trace, ops, answers) && trace[0] == Empty(vfree) && trace[|ops|] == Shown(t)
  {
    hide T.RbTree.Valid, T.RbTree.Contents, Runs;
    t := new T.RbTree(vfree);
    answers, trace := Run(t, ops);
  }

  lemma LongerRun(trace: seq<State>, ops: seq<Op>, answers: seq<Answer>, op: Op, t: State, a: Answer)
    requires Runs(trace, ops, answers) && May(trace[|ops|], op, t, a)
    ensures Runs(trace + [t], ops + [op], answers + [a])
  {
    hide May;
    var tr, os, an := trace + [t], ops + [op], answers + [a];
    forall i | 0 <= i < |os| ensures May(tr[i], os[i], tr[i + 1], an[i]) {
      if i < |ops| { assert May(trace[i], ops[i], trace[i + 1], answers[i]); }
    }
  }

  lemma ShorterRun(trace: seq<State>, ops: seq<Op>, answers: seq<Answer>)
    requires Runs(trace, ops, answers) && ops != []
    ensures var n := |ops| - 1;
            Runs(trace[..n + 1], ops[..n], answers[..n]) && May(trace[n], ops[n], trace[n + 1], answers[n])
  {
    hide May;
    var n := |ops| - 1;
    var tr, os, an := trace[..n + 1], ops[..n], answers[..n];
    forall i | 0 <= i < n ensures May(tr[i], os[i], tr[i + 1], an[i]) {
      assert May(trace[i], ops[i], trace[i + 1], answers[i]);
    }
    assert May(trace[n], ops[n], trace[n + 1], answers[n]);
  }

  // ---------------------------------------------------------------- how many pairs a key has

  function One(b: bool): nat { if b then 1 else 0 }

  /** How many pairs of `q` there are after an operation on `n` of them. */
  function Many(n: nat, op: Op, q: Key): nat {
    if op.key != q then n
    else
      match op
      case Add(_, _, force) => if force && n > 0 then n else n + 1
      case Del(_) => if n > 0 then n - 1 else 0
      case Find(_) => n
  }

  function ManyAfter(n: nat, ops: seq<Op>, q: Key): nat {
    if ops == [] then n else Many(ManyAfter(n, ops[..|ops| - 1], q), ops[|ops| - 1], q)
  }

  lemma Regrouped(a: seq<Pointer>, b: seq<Pointer>, c: seq<Pointer>)
    ensures a + (b + c) == a + b + c
  {
  }

  lemma {:induction false} ValuesConcat(a: Pairs, b: Pairs, q: Key)
    ensures Values(a + b, q) == Values(a, q) + Values(b, q)
  {
    if a == [] {
      assert a + b == b;
    } else {
      ValuesConcat(a[1..], b, q);
      assert (a + b)[1..] == a[1..] + b;
      Regrouped(if a[0].0 == q then [a[0].1] else [], Values(a[1..], q), Values(b, q));
    }
  }

  lemma ValuesAround(s: Pairs, i: nat, q: Key)
    requires i < |s|
    ensures |Values(s, q)| == |Values(s[..i], q)| + One(s[i].0 == q) + |Values(s[i + 1..], q)|
  {
    var tail := s[i..];
    assert tail[0] == s[i] && tail[1..] == s[i + 1..] && s[..i] + tail == s;
    ValuesConcat(s[..i], tail, q);
  }

  lemma {:induction false} HasValues(s: Pairs, q: Key)
    ensures HasKey(s, q) <==> Values(s, q) != []
  {
    if s != [] {
      HasValues(s[1..], q);
      if HasKey(s[1..], q) {
        var i :| 0 <= i < |s[1..]| && s[1..][i].0 == q;
        assert s[i + 1].0 == q;
      }
      if HasKey(s, q) && s[0].0 != q {
        var i :| 0 <= i < |s| && s[i].0 == q;
        assert s[1..][i - 1].0 == q;
      }
    }
  }

  lemma ChangedKeepsOrder(s: Pairs, s': Pairs, i: nat, k: Key, v: Pointer, q: Key)
    requires InOrder(s) && Changed(s, s', i, k, v)
    ensures InOrder(s') && |Values(s', q)| == |Values(s, q)|
  {
    ValuesAround(s, i, q);
    ValuesAround(s', i, q);
    assert s'[..i] == s[..i] && s'[i + 1..] == s[i + 1..];
  }

  lemma DroppedKeepsOrder(s: Pairs, s': Pairs, i: nat, k: Key, q: Key)
    requires InOrder(s) && Dropped(s, s', i, k)
    ensures InOrder(s') && |Values(s', q)| == |Values(s, q)| - One(k == q)
  {
    ValuesAround(s, i, q);
    ValuesConcat(s[..i], s[i + 1..], q);
  }

  lemma StepCounts(s: State, op: Op, t: State, a: Answer, q: Key)
    requires InOrder(s.pairs) && May(s, op, t, a)
    ensures InOrder(t.pairs) && |Values(t.pairs, q)| == Many(|Values(s.pairs, q)|, op, q)
    ensures op.key == q ==> a == match op
            case Add(_, _, _) => Code(0)
            case Del(_) => Code(if Values(s.pairs, q) == [] then -1 else 0)
            case Find(_) => if Values(s.pairs, q) == [] then Value(NULL) else a
  {
    hide InOrder, HasKey, Values;
    HasValues(s.pairs, op.key);
    match op
    case Add(k, v, force) =>
      if force && HasKey(s.pairs, k) {
        var i: nat :| Changed(s.pairs, t.pairs, i, k, v) && Given(s, t, s.pairs[i].1);
        ChangedKeepsOrder(s.pairs, t.pairs, i, k, v, q);
      } else {
        PutInOrder(s.pairs, k, v);
        PutAppends(s.pairs, k, v, q);
      }
    case Del(k) =>
      if HasKey(s.pairs, k) {
        var i: nat :| Dropped(s.pairs, t.pairs, i, k) && Given(s, t, s.pairs[i].1);
        DroppedKeepsOrder(s.pairs, t.pairs, i, k, q);
      }
    case Find(k) =>
  }

  /** Whichever pair of a key an operation takes, the keys stay in order, and how many pairs
      a key has depends on the operations alone. */
  lemma {:induction false} RunCounts(trace: seq<State>, ops: seq<Op>, answers: seq<Answer>, q: Key)
    requires Runs(trace, ops, answers) && InOrder(trace[0].pairs)
    ensures InOrder(trace[|ops|].pairs)
    ensures |Values(trace[|ops|].pairs, q)| == ManyAfter(|Values(trace[0].pairs, q)|, ops, q)
    decreases |ops|
  {
    if ops != [] {
      ShorterRun(trace, ops, answers);
      var n := |ops| - 1;
      hide May, InOrder, Values;
      RunCounts(trace[..n + 1], ops[..n], answers[..n], q);
      StepCounts(trace[n], ops[n], trace[n + 1], answers[n], q);
    }
  }

  /** So do the answers about a key: a deletion fails, and a search finds nothing, exactly
      if no pair of the key is left; otherwise the search answers with one of its values. */
  lemma AnswerInRun(trace: seq<State>, ops: seq<Op>, answers: seq<Answer>, i: nat)
    requires Runs(trace, ops, answers) && InOrder(trace[0].pairs) && i < |ops|
    ensures var k := ops[i].key;
            var n := ManyAfter(|Values(trace[0].pairs, k)|, ops[..i], k);
            match ops[i]
            case Add(_, _, _) => answers[i] == Code(0)
            case Del(_) => answers[i] == Code(if n == 0 then -1 else 0)
            case Find(_) =>
              answers[i].Value?
              && if n == 0 then answers[i].value == NULL else (k, answers[i].value) in trace[i].pairs
  {
    var k := ops[i].key;
    FirstPart(trace, ops, answers, i);
    hide Runs, InOrder, Values;
    RunCounts(trace[..i + 1], ops[..i], answers[..i], k);
    StepCounts(trace[i], ops[i], trace[i + 1], answers[i], k);
    HasValues(trace[i].pairs, k);
  }

  lemma FirstPart(trace: seq<State>, ops: seq<Op>, answers: seq<Answer>, i: nat)
    requires Runs(trace, ops, answers) && i < |ops|
    ensures Runs(trace[..i + 1], ops[..i], answers[..i]) && May(trace[i], ops[i], trace[i + 1], answers[i])
  {
    hide May;
    var tr, os, an := trace[..i + 1], ops[..i], answers[..i];
    forall j | 0 <= j < i ensures May(tr[j], os[j], tr[j + 1], an[j]) {
      assert May(trace[j], ops[j], trace[j + 1], answers[j]);
    }
    assert May(trace[i], ops[i], trace[i + 1], answers[i]);
  }

  // ---------------------------------------------------------------- no value is lost

  function Added(ops: seq<Op>): multiset<Pointer> {
    if ops == [] then multiset{}
    else
      var op := ops[|ops| - 1];
      Added(ops[..|ops| - 1]) + if op.Add? then multiset{op.value} else multiset{}
  }

  ghost function AllOf(s: State): multiset<Pointer> { multiset(AllValues(s.pairs)) + multiset(s.freed) }

  lemma Handed(s: State, t: State, v: Pointer, x: multiset<Pointer>)
    requires s.vfree && Given(s, t, v)
    requires multiset(AllValues(t.pairs)) + multiset{v} == multiset(AllValues(s.pairs)) + x
    ensures AllOf(t) == AllOf(s) + x
  {
    hide AllValues;
    MovedOver(multiset(AllValues(s.pairs)), multiset(s.freed), multiset(AllValues(t.pairs)), multiset(t.freed), v, x);
  }

  lemma StepConserves(s: State, op: Op, t: State, a: Answer)
    requires s.vfree && May(s, op, t, a)
    ensures t.vfree && AllOf(t) == AllOf(s) + if op.Add? then multiset{op.value} else multiset{}
  {
    hide AllValues, HasKey, Put;
    match op
    case Add(k, v, force) =>
      if force && HasKey(s.pairs, k) {
        var i: nat :| Changed(s.pairs, t.pairs, i, k, v) && Given(s, t, s.pairs[i].1);
        ChangedKeepsValues(s.pairs, t.pairs, i, k, v);
        Handed(s, t, s.pairs[i].1, multiset{v});
      } else {
        PutKeepsValues(s.pairs, k, v);
      }
    case Del(k) =>
      if HasKey(s.pairs, k) {
        var i: nat :| Dropped(s.pairs, t.pairs, i, k) && Given(s, t, s.pairs[i].1);
        DroppedKeepsValues(s.pairs, t.pairs, i, k);
        Handed(s, t, s.pairs[i].1, multiset{});
      }
    case Find(k) =>
  }

  /** After any run every value added is held by one pair or was released, once. */
  lemma {:induction false} RunConserves(trace: seq<State>, ops: seq<Op>, answers: seq<Answer>)
    requires Runs(trace, ops, answers) && trace[0].vfree
    ensures trace[|ops|].vfree && AllOf(trace[|ops|]) == AllOf(trace[0]) + Added(ops)
    decreases |ops|
  {
    if ops != [] {
      ShorterRun(trace, ops, answers);
      var n := |ops| - 1;
      hide May, AllOf;
      RunConserves(trace[..n + 1], ops[..n], answers[..n]);
      StepConserves(trace[n], ops[n], trace[n + 1], answers[n]);
    }
  }
}
