/** Two texts read in step: the scanner's state but for the place in the text, the number read
    last, and what a number left behind that was read again as a string. */
module JsonTwins {
  import opened JsonText
  import opened JsonValue
  import opened JsonScan
  import opened JsonPasses
  import opened JsonBuild
  import opened Wrappers

  predicate Twins(a: Node, b: Node) { b == a.(ival := b.ival) && (a.kind == Str || b.ival == a.ival) }

  ghost predicate SameNodes(a: seq<Node>, b: seq<Node>) {
    |a| == |b| && forall i | 0 <= i < |a| :: Twins(a[i], b[i])
  }

  ghost predicate SameBut(a: Scan, b: Scan) {
    b.c == a.c.(p := b.c.p) && SameNodes(a.nodes, b.nodes) && b.alloc == a.alloc
  }

  ghost predicate Alike(o: Outcome, q: Outcome) { (o.Go? <==> q.Go?) && (o.Go? ==> SameBut(o.s, q.s)) }

  lemma AlikeGoes(o: Outcome, q: Outcome)
    requires Alike(o, q)
    ensures o.Go? <==> q.Go?
  {
  }

  lemma SameSelf(s: Scan)
    ensures SameBut(s, s)
  {
  }

  lemma SameMoved(a: Scan, b: Scan, p: int)
    requires SameBut(a, b)
    ensures SameBut(a, Move(b, p))
  {
  }

  lemma TopTwins(a: Scan, b: Scan)
    requires SameBut(a, b)
    ensures HasTop(a) <==> HasTop(b)
    ensures HasTop(a) ==> Twins(a.nodes[a.c.top], b.nodes[b.c.top])
  {
    hide Twins;
  }

  lemma FamilySame(a: seq<Node>, b: seq<Node>)
    requires SameNodes(a, b) && Family(a)
    ensures Family(b)
  {
    forall k | 0 <= k < |b|
      ensures -1 <= b[k].parent < k && (b[k].parent >= 0 ==> Container(b[b[k].parent]))
    {
      assert Twins(a[k], b[k]) && b[k].parent == a[k].parent;
      if b[k].parent >= 0 { assert Twins(a[a[k].parent], b[a[k].parent]); }
    }
  }

  /** A node is set in both. */
  lemma SetSame(a: seq<Node>, b: seq<Node>, i: int, m: Node, n: Node)
    requires SameNodes(a, b) && 0 <= i < |a| && Twins(m, n)
    ensures SameNodes(a[i := m], b[i := n])
  {
    hide Twins;
  }

  lemma NewAlike(first: bool, a: Scan, b: Scan, kind: Kind)
    requires SameBut(a, b)
    ensures Alike(New(first, a, kind), New(first, b, kind))
    ensures New(first, a, kind).Go? ==> New(first, a, kind).s.c.p == a.c.p && New(first, b, kind).s.c.p == b.c.p
  {
    if first {
    } else if a.alloc < |a.nodes| {
      assert Twins(a.nodes[a.alloc], b.nodes[a.alloc]);
      PreparedTwins(a.nodes[a.alloc], b.nodes[a.alloc]);
      SetSame(a.nodes, b.nodes, a.alloc, Prepared(a.nodes[a.alloc]), Prepared(b.nodes[a.alloc]));
      hide Prepared, SameNodes;
    }
  }

  lemma PreparedTwins(a: Node, b: Node)
    requires Twins(a, b)
    ensures Twins(Prepared(a), Prepared(b))
  {
  }

  lemma PutTwins(first: bool, a: Node, b: Node, len: nat, text: string)
    requires Twins(a, b)
    ensures Twins(PutNode(first, a, len, text), PutNode(first, b, len, text))
  {
    hide Overwrite;
  }

  lemma PutGoesAlike(first: bool, a: Scan, b: Scan, text: string)
    requires SameBut(a, b) && HasTop(a)
    ensures HasTop(b) && (Put(first, a, text).Go? <==> Put(first, b, text).Go?)
  {
    TopTwins(a, b);
    hide Overwrite, SameNodes;
  }

  lemma PutAlike(first: bool, a: Scan, b: Scan, text: string)
    requires SameBut(a, b) && HasTop(a)
    ensures HasTop(b) && Alike(Put(first, a, text), Put(first, b, text))
  {
    PutGoesAlike(first, a, b, text);
    TopTwins(a, b);
    hide Put, PutNode, SameNodes, Twins;
    if Put(first, a, text).Go? {
      PutIs(first, a, text);
      PutIs(first, b, text);
      var m, n := a.nodes[a.c.top], b.nodes[b.c.top];
      PutTwins(first, m, n, a.c.len, text);
      SetSame(a.nodes, b.nodes, a.c.top, PutNode(first, m, a.c.len, text), PutNode(first, n, a.c.len, text));
    }
  }

  lemma EndNameAlike(first: bool, a: Scan, b: Scan)
    requires SameBut(a, b) && HasTop(a)
    ensures HasTop(b) && Alike(EndName(first, a), EndName(first, b))
  {
    TopTwins(a, b);
    hide Named, SameNodes;
    if first {
      SetSame(a.nodes, b.nodes, a.c.top, EndName(first, a).s.nodes[a.c.top], EndName(first, b).s.nodes[a.c.top]);
    } else if EndName(first, a).Go? {
      SetSame(a.nodes, b.nodes, a.c.top, EndName(first, a).s.nodes[a.c.top], EndName(first, b).s.nodes[a.c.top]);
    }
  }

  lemma EndStrAlike(first: bool, a: Scan, b: Scan)
    requires SameBut(a, b) && HasTop(a)
    ensures HasTop(b) && Alike(EndStr(first, a), EndStr(first, b))
  {
    TopTwins(a, b);
    hide SameNodes;
    if EndStr(first, a).Go? {
      SetSame(a.nodes, b.nodes, a.c.top, EndStr(first, a).s.nodes[a.c.top], EndStr(first, b).s.nodes[a.c.top]);
    }
  }

  lemma AdoptTwins(first: bool, a: Node, b: Node, child: int)
    requires Twins(a, b)
    ensures Adopt(first, a, child).Some? <==> Adopt(first, b, child).Some?
    ensures Adopt(first, a, child).Some? ==> Twins(Adopt(first, a, child).value, Adopt(first, b, child).value)
  {
  }

  lemma AttachAlike(first: bool, a: Scan, b: Scan)
    requires SameBut(a, b) && HasTop(a)
    ensures HasTop(b) && Alike(Attach(first, a), Attach(first, b))
  {
    TopTwins(a, b);
    var parent := a.nodes[a.c.top].parent;
    if 0 <= parent < |a.nodes| {
      assert Twins(a.nodes[parent], b.nodes[parent]);
      AdoptTwins(first, a.nodes[parent], b.nodes[parent], a.c.top);
      if Adopt(first, a.nodes[parent], a.c.top).Some? {
        SetSame(a.nodes, b.nodes, parent, Adopt(first, a.nodes[parent], a.c.top).value,
                Adopt(first, b.nodes[parent], a.c.top).value);
      }
    }
    hide Adopt, SameNodes;
  }

  lemma SetTopAlike(a: Scan, b: Scan, m: Node, n: Node)
    requires SameBut(a, b) && HasTop(a) && Twins(m, n)
    ensures HasTop(b) && SameBut(SetTop(a, m), SetTop(b, n)) && HasTop(SetTop(a, m))
  {
    SetSame(a.nodes, b.nodes, a.c.top, m, n);
    hide SameNodes, Twins;
    assert |a.nodes| == |b.nodes| by { SameLength(a.nodes, b.nodes); }
  }

  lemma SameLength(a: seq<Node>, b: seq<Node>)
    requires SameNodes(a, b)
    ensures |a| == |b|
  {
  }

  // ---------------------------------------------------------------- whole values without parts

  lemma FinishAlike(first: bool, a: Scan, b: Scan, text: string, m: nat, n: nat)
    requires SameBut(a, b) && HasTop(a)
    ensures HasTop(b) && Alike(FinishStr(first, a, text, m), FinishStr(first, b, text, n))
  {
    hide Put, EndStr, Attach, SameNodes;
    PutAlike(first, a, b, text);
    if Put(first, a, text).Go? {
      var x, y := Put(first, a, text).s, Put(first, b, text).s;
      TopTwins(x, y);
      if HasTop(x) {
        var u := x.(c := x.c.(str := false, quote := false, p := a.c.p + m));
        var v := y.(c := y.c.(str := false, quote := false, p := b.c.p + n));
        EndStrAlike(first, u, v);
        if EndStr(first, u).Go? {
          TopTwins(EndStr(first, u).s, EndStr(first, v).s);
          if HasTop(EndStr(first, u).s) { AttachAlike(first, EndStr(first, u).s, EndStr(first, v).s); }
        }
      }
    }
  }

  lemma StrAlike(first: bool, a: Scan, b: Scan, text: string, m: nat, n: nat)
    requires SameBut(a, b)
    ensures Alike(BuildStr(first, a, text, m), BuildStr(first, b, text, n))
  {
    hide New, FinishStr, SameNodes;
    var u, v := a.(c := a.c.(p := a.c.p + 1, seek := false)), b.(c := b.c.(p := b.c.p + 1, seek := false));
    NewAlike(first, u, v, Str);
    if New(first, u, Str).Go? {
      var x, y := New(first, u, Str).s, New(first, v, Str).s;
      TopTwins(x, y);
      if TopIs(x, Str) {
        var z, w := x.(c := x.c.(str := true, len := 0)), y.(c := y.c.(str := true, len := 0));
        FinishAlike(first, z, w, text, m + 1, n + 1);
      }
    }
  }

  lemma BareSame(a: Scan, b: Scan)
    requires SameBut(a, b)
    ensures SameBut(Bare(a), Bare(b)) && (HasTop(Bare(a)) <==> HasTop(a))
  {
    hide SameNodes;
  }

  lemma NameAlike(first: bool, a: Scan, b: Scan, name: string, m: nat, n: nat)
    requires SameBut(a, b)
    ensures Alike(ReadName(first, a, name, m), ReadName(first, b, name, n))
  {
    hide Put, EndName, SameNodes;
    TopTwins(a, b);
    if HasTop(a) {
      var u, v := a.(c := a.c.(str := true, len := 0)), b.(c := b.c.(str := true, len := 0));
      PutAlike(first, u, v, name);
      if Put(first, u, name).Go? {
        var x, y := Put(first, u, name).s, Put(first, v, name).s;
        TopTwins(x, y);
        if HasTop(x) {
          EndNameAlike(first, x.(c := x.c.(str := false, p := a.c.p + m + 2)),
                       y.(c := y.c.(str := false, p := b.c.p + n + 2)));
        }
      }
    }
  }

  lemma AtomAlike(first: bool, a: Scan, b: Scan, truth: bool, m: int, n: int)
    requires SameBut(a, b)
    ensures Alike(Atom(first, a, Boolean, truth, m), Atom(first, b, Boolean, truth, n))
  {
    hide New, Attach, SameNodes, SetTop;
    NewAlike(first, a, b, Boolean);
    if New(first, a, Boolean).Go? {
      var x, y := New(first, a, Boolean).s, New(first, b, Boolean).s;
      TopTwins(x, y);
      if HasTop(x) {
        var i := x.nodes[x.c.top].(bval := truth || x.nodes[x.c.top].bval);
        var j := y.nodes[y.c.top].(bval := truth || y.nodes[y.c.top].bval);
        SetTopAlike(Move(x, m), Move(y, n), i, j);
        AttachAlike(first, SetTop(Move(x, m), i), SetTop(Move(y, n), j));
      }
    }
  }

  // ---------------------------------------------------------------- numbers

  lemma IntAlikeFirst(a: Scan, b: Scan, n: int)
    requires SameBut(a, b)
    ensures Alike(BuildInt(true, a, n, false), BuildInt(true, b, n, false))
  {
    hide BuildInt, Attach, Decimal, Digits;
    BuildIntInner(a, n);
    BuildIntInner(b, n);
    AttachAlike(true, NumberRead(a, n), NumberRead(b, n));
  }

  /** What the second pass does with a number whose node is begun. */
  ghost function SecondInt(s: Scan, text: string): Outcome {
    if !HasTop(s) || TopIs(s, Str) then Fault else Attach(false, Move(s, s.c.p + |text|))
  }

  lemma BuildIntSecond(s: Scan, n: int)
    ensures BuildInt(false, s, n, false) == match New(false, s.(c := s.c.(seek := false)), Integer)
      case Go(t) => SecondInt(t, Decimal(n))
      case o => o
  {
    hide New, Attach, FinishStr, Decimal;
    var u := s.(c := s.c.(seek := false));
    NewAlike(false, u, u, Integer) by { SameSelf(u); }
  }

  lemma SecondAlike(a: Scan, b: Scan, text: string)
    requires SameBut(a, b)
    ensures Alike(SecondInt(a, text), SecondInt(b, text))
  {
    hide Attach, SameNodes;
    TopTwins(a, b);
    if HasTop(a) && !TopIs(a, Str) { AttachAlike(false, Move(a, a.c.p + |text|), Move(b, b.c.p + |text|)); }
  }

  lemma IntAlikeSecond(a: Scan, b: Scan, n: int)
    requires SameBut(a, b)
    ensures Alike(BuildInt(false, a, n, false), BuildInt(false, b, n, false))
  {
    hide New, BuildInt, SecondInt, Decimal, SameNodes;
    var u, v := a.(c := a.c.(seek := false)), b.(c := b.c.(seek := false));
    NewAlike(false, u, v, Integer);
    BuildIntSecond(a, n);
    BuildIntSecond(b, n);
    if New(false, u, Integer).Go? { SecondAlike(New(false, u, Integer).s, New(false, v, Integer).s, Decimal(n)); }
  }

  /** A number that is read again as a string is like the string of its digits. */
  lemma DigitsAlikeFirst(a: Scan, b: Scan, n: int, m: nat)
    requires SameBut(a, b)
    ensures Alike(BuildStr(true, a, Decimal(n), m), BuildInt(true, b, n, true))
  {
    hide BuildInt, FinishStr, Decimal, Digits;
    BuildIntLast(b, n);
    var w := NumberRead(b, n);
    var y := Bare(SetTop(Move(w, b.c.p), w.nodes[w.c.top].(kind := Str)));
    var x := New(true, a.(c := a.c.(p := a.c.p + 1, seek := false)), Str).s;
    var z := x.(c := x.c.(str := true, len := 0));
    QuoteForgotten(true, z, Decimal(n), m + 1);
    FinishAlike(true, z.(c := z.c.(quote := true)), y, Decimal(n), m + 1, |Decimal(n)|);
  }

  lemma QuoteForgotten(first: bool, s: Scan, text: string, skip: nat)
    requires HasTop(s)
    ensures FinishStr(first, s.(c := s.c.(quote := true)), text, skip) == FinishStr(first, s, text, skip)
  {
    hide EndStr, Attach, Put, PutNode;
    var t := s.(c := s.c.(quote := true));
    PutQuoted(first, s, text);
    if Put(first, s, text).Go? {
      PutIs(first, s, text);
      PutIs(first, t, text);
    }
  }

  lemma PutQuoted(first: bool, s: Scan, text: string)
    requires HasTop(s)
    ensures var o, q := Put(first, s.(c := s.c.(quote := true)), text), Put(first, s, text);
      (o.Go? <==> q.Go?) && (!o.Go? ==> o == q)
  {
    hide Overwrite;
  }

  lemma DigitsAlikeSecond(a: Scan, b: Scan, n: int, m: nat)
    requires SameBut(a, b) && BuildStr(false, a, Decimal(n), m).Go?
    ensures Alike(BuildStr(false, a, Decimal(n), m), BuildInt(false, b, n, true))
  {
    hide New, Attach, FinishStr, Decimal, Digits, SetTop, SameNodes;
    var u, v := a.(c := a.c.(p := a.c.p + 1, seek := false)), b.(c := b.c.(seek := false));
    NewSecond(u, Str, Integer);
    NewAlike(false, u, v, Integer);
    var x, y := New(false, u, Integer).s, New(false, v, Integer).s;
    TopTwins(x, y);
    var z := x.(c := x.c.(str := true, len := 0));
    QuoteForgotten(false, z, Decimal(n), m + 1);
    BareSame(x, y);
    FinishAlike(false, Bare(x), Bare(y), Decimal(n), m + 1, |Decimal(n)|);
  }

  lemma NewSecond(s: Scan, kind: Kind, other: Kind)
    ensures New(false, s, kind) == New(false, s, other)
  {
  }
}
