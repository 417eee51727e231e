/** The two passes agree: whatever text the first pass accepts, the second fills exactly
    what the first measured. */
module JsonAgree {
  import opened JsonText
  import opened JsonMembers
  import opened JsonScan
  import opened Wrappers
  import opened JsonPasses
  import opened JsonGrowth
  import opened JsonVisits

  // ---------------------------------------------------------------- the second pass follows

  /** The second pass counts the children a second time, on top of what was measured: it
      refuses a container with more than half of the largest size. */
  ghost predicate Roomy(nodes: seq<Node>) {
    forall k | 0 <= k < |nodes| :: 2 * nodes[k].size <= MAX_SIZE
  }

  /** How the node `b` of the second pass stands when the first has measured `a`, of the
      `f` that it measured in the end. */
  ghost predicate Filled(a: Node, b: Node, f: Node, owed: nat, closed: bool) {
    && a.kind == b.kind == f.kind && a.parent == b.parent == f.parent
    && b.size == f.size + a.size && (a.size > 0 ==> b.size <= MAX_SIZE)
    && (a.kind == Object ==>
          && b.room == (if f.size == 0 then 0 else f.size + 1) && |b.area| == (if f.size == 0 then 0 else f.num)
          && b.used == a.num && |b.members| <= a.size + owed && (b.index == 0 || b.index < |b.members|))
    && (a.kind == Array ==> b.room == f.size && |b.items| == a.size)
    && (a.kind == Str ==> |b.text| == f.len + 1 && (closed ==> b.len == f.len == a.len))
    && (a.kind != Object && a.kind != Array && a.kind != Str ==> b.ival == f.ival && b.bval == f.bval)
  }

  /** The children that the node `b` of the second pass holds are those the first counted, in
      their order; only a value that is still to come may be missing. */
  ghost predicate Linked(kids: seq<int>, a: Node, b: Node, owed: nat) {
    && a.size <= |kids| && (a.kind == Array ==> b.items == kids[..a.size])
    && (a.kind == Object ==> forall i | 0 <= i < |b.members| ::
          b.members[i].value in kids[..a.size] || (b.members[i].value == -1 && i == b.index && owed > 0))
  }

  ghost predicate Follows(s: Scan, s': Scan, f: seq<Node>, k: int)
    requires 0 <= k < |s.nodes| <= |s'.nodes| == |f|
  {
    && Filled(s.nodes[k], s'.nodes[k], f[k], Owed(s, k), !Reading(s, k))
    && Linked(Kids(s.nodes, k), s.nodes[k], s'.nodes[k], Owed(s, k))
  }

  /** The second pass, at `s'`, is where the first was at `s` on its way to `f`. */
  ghost predicate Tracks(s: Scan, s': Scan, f: seq<Node>) {
    && s'.c == s.c && s'.alloc == |s.nodes| <= |f| == |s'.nodes| && -1 <= s.c.top < |s.nodes|
    && Lined(s.nodes, s.c.top)
    && (forall k | |s.nodes| <= k < |f| :: s'.nodes[k] == f[k])
    && (forall k | 0 <= k < |s.nodes| :: Follows(s, s', f, k))
  }

  lemma TrackSame(s: Scan, s': Scan, t: Scan, t': Scan, f: seq<Node>)
    requires Tracks(s, s', f) && Grows(s, t) && t'.c == t.c && t.nodes == s.nodes && t'.nodes == s'.nodes
            && t'.alloc == s'.alloc
    requires t.c.top == s.c.top && (s.c.str ==> t.c.str)
    ensures Tracks(t, t', f)
  {
    hide Awaited, Owed, Lined, Kids;
    forall k | 0 <= k < |t.nodes| ensures Follows(t, t', f, k) {
      assert Follows(s, s', f, k) && Grown(s, t, k);
    }
  }

  lemma LinkedMore(kids: seq<int>, more: seq<int>, a: Node, b: Node, owed: nat, owed': nat)
    requires Linked(kids, a, b, owed) && owed <= owed'
    ensures Linked(kids + more, a, b, owed')
  {
    assert (kids + more)[..a.size] == kids[..a.size];
  }

  /** A new node `n`, which the second pass finds as the first left it in the end. */
  lemma TrackNew(s: Scan, s': Scan, t: Scan, t': Scan, f: seq<Node>, n: Node)
    requires Tracks(s, s', f) && Grows(s, t) && t'.c == t.c && Family(s.nodes)
    requires t.nodes == s.nodes + [n] && t.c.top == |s.nodes| && !s.c.str
    requires n == Fresh(n.kind, s.c.top).(bval := n.bval, ival := n.ival)
    requires |s.nodes| < |f| && t'.nodes == s'.nodes[s'.alloc := Prepared(s'.nodes[s'.alloc])]
            && t'.alloc == s'.alloc + 1
    requires var e := f[|s.nodes|]; Blank(e) && e.kind == n.kind && e.parent == n.parent
    requires n.kind == Str ==> t.c.str
    ensures Tracks(t, t', f)
  {
    hide Lined, Kids, Family;
    var j := |s.nodes|;
    LinedNew(s.nodes, n);
    forall k | 0 <= k < |t.nodes| ensures Follows(t, t', f, k) {
      if k < j {
        assert Follows(s, s', f, k) && Grown(s, t, k);
        KidsMore(s.nodes, n, k);
        var more := if n.parent == k then [j] else [];
        LinkedMore(Kids(s.nodes, k), more, s.nodes[k], s'.nodes[k], Owed(s, k), Owed(t, k));
      }
    }
  }

  lemma TrackTop(s: Scan, s': Scan, t: Scan, t': Scan, f: seq<Node>)
    requires Tracks(s, s', f) && Grows(s, t) && t'.c == t.c && HasTop(s) && t.c.top == s.c.top
    requires |t.nodes| == |s.nodes| && |t'.nodes| == |s'.nodes| && t'.alloc == s'.alloc
    requires forall k | 0 <= k < |s.nodes| && k != s.c.top :: t.nodes[k] == s.nodes[k]
    requires forall k | 0 <= k < |f| && k != s.c.top :: t'.nodes[k] == s'.nodes[k]
    requires Follows(t, t', f, s.c.top) && t.nodes[s.c.top].size == s.nodes[s.c.top].size
    ensures Tracks(t, t', f)
  {
    hide Awaited, Owed, Lined, Kids;
    assert Follows(s, s', f, s.c.top);
    LinedSame(s.nodes, t.nodes, s.c.top);
    forall k | 0 <= k < |t.nodes| ensures Follows(t, t', f, k) {
      KidsSame(s.nodes, t.nodes, k);
      if k != s.c.top { assert Follows(s, s', f, k) && Grown(s, t, k); }
    }
  }

  // ---------------------------------------------------------------- the parts of a step, in both passes

  lemma SameKind(s: Scan, s': Scan, f: seq<Node>)
    requires Tracks(s, s', f) && HasTop(s)
    ensures HasTop(s') && s'.nodes[s.c.top].kind == s.nodes[s.c.top].kind
    ensures s'.nodes[s.c.top].parent == s.nodes[s.c.top].parent
  {
    assert Follows(s, s', f, s.c.top);
  }

  ghost predicate Agrees(o: Outcome, t: Scan, f: seq<Node>) {
    (o.Go? && Tracks(t, o.s, f)) || (o.Reject? && !Roomy(f))
  }

  lemma SimPut(s: Scan, s': Scan, f: seq<Node>, c: Ctl, text: string)
    requires Tracks(s, s', f) && HasTop(s) && HasTop(s') && s.c.str
            && (TopIs(s, Str) || (TopIs(s, Object) && !s.c.done))
    requires c.str && c.top == s.c.top && c.len == s.c.len && c.done == s.c.done && c.seek == s.c.seek
    requires Grows(Put(true, s.(c := c), text).s, Final(f))
    ensures Agrees(Put(false, s'.(c := c), text), Put(true, s.(c := c), text).s, f)
  {
    hide Kids, Lined;
    var top := s.c.top;
    var t := Put(true, s.(c := c), text).s;
    GrowsSame(s, t);
    assert Follows(s, s', f, top) && Grown(t, Final(f), top);
    var t' := Put(false, s'.(c := c), text);
    assert t'.Go? && Follows(t, t'.s, f, top);
    TrackTop(s, s', t, t'.s, f);
  }

  lemma NamedLength(members: seq<Member<int>>, name: string)
    ensures |Named(members, name)| <= |members| + 1 && Find(members, name) < |Named(members, name)|
  {
  }

  /** Where all values are known, a new name brings in one that is not. */
  lemma NamedLinked(kids: seq<int>, a: Node, b: Node, name: string, c: Node, d: Node)
    requires Linked(kids, a, b, 0) && a.kind == Object && c.kind == Object && c.size == a.size
    requires d.members == Named(b.members, name) && d.index == Find(b.members, name)
    ensures Linked(kids, c, d, 1)
  {
    hide Find;
    var i, m := d.index, d.members;
    forall j | 0 <= j < |m| ensures m[j].value in kids[..a.size] || (m[j].value == -1 && j == i) {
      if !Has(b.members, name) && j != i { assert m[j] == b.members[if j < i then j else j - 1]; }
    }
  }

  lemma SimName(s: Scan, s': Scan, f: seq<Node>, c: Ctl)
    requires Tracks(s, s', f) && HasTop(s) && HasTop(s') && s.c.str && TopIs(s, Object) && !s.c.done && !s.c.seek
    requires !c.str && c.top == s.c.top && c.len == s.c.len && !c.done
    requires Grows(EndName(true, s.(c := c)).s, Final(f))
    ensures Agrees(EndName(false, s'.(c := c)), EndName(true, s.(c := c)).s, f)
  {
    hide Named, Find, Kids, Lined;
    var top := s.c.top;
    var t := EndName(true, s.(c := c)).s;
    GrowsTop(s, t, t.nodes[top]);
    assert Follows(s, s', f, top) && Grown(t, Final(f), top) && Grown(s, t, top);
    if Above(s.nodes, top, top) { AboveIsEarlier(s.nodes, top, top); }
    var n := s'.nodes[top];
    KidsSame(s.nodes, t.nodes, top);
    if n.used + c.len < |n.area| { NamedLength(n.members, n.area[n.used..n.used + c.len]); }
    var t' := EndName(false, s'.(c := c));
    var name := n.area[n.used..n.used + c.len];
    NamedLinked(Kids(s.nodes, top), s.nodes[top], n, name, t.nodes[top], t'.s.nodes[top]);
    assert t'.Go? && Follows(t, t'.s, f, top);
    TrackTop(s, s', t, t'.s, f);
  }

  lemma SimStr(s: Scan, s': Scan, f: seq<Node>, c: Ctl)
    requires Tracks(s, s', f) && HasTop(s) && HasTop(s') && s.c.str && TopIs(s, Str)
    requires !c.str && c.top == s.c.top && c.len == s.c.len && c.done == s.c.done && c.seek == s.c.seek
    requires Grows(EndStr(true, s.(c := c)).s, Final(f))
    ensures Agrees(EndStr(false, s'.(c := c)), EndStr(true, s.(c := c)).s, f)
  {
    hide Kids, Lined;
    var top := s.c.top;
    var t := EndStr(true, s.(c := c)).s;
    GrowsTop(s, t, t.nodes[top]);
    KidsSame(s.nodes, t.nodes, top);
    assert Follows(s, s', f, top) && Grown(t, Final(f), top);
    var t' := EndStr(false, s'.(c := c));
    assert t'.Go? && Follows(t, t'.s, f, top);
    TrackTop(s, s', t, t'.s, f);
  }

  lemma SimNew(s: Scan, s': Scan, f: seq<Node>, kind: Kind, c: Ctl)
    requires Tracks(s, s', f) && Family(s.nodes) && !s.c.str && c.top == |s.nodes| && (kind == Str ==> c.str)
    requires var t := Scan(c, s.num, s.nodes + [Fresh(kind, s.c.top)], |s.nodes| + 1);
             Grows(s, t) && Grows(t, Final(f)) && !InNumber(t)
    requires Measured(f)
    ensures var t := Scan(c, s.num, s.nodes + [Fresh(kind, s.c.top)], |s.nodes| + 1);
            var o := New(false, s', kind);
            o.Go? && o.s.c == s'.c.(top := |s.nodes|) && Tracks(t, o.s.(c := c), f)
            && HasTop(o.s) && o.s.nodes[o.s.c.top].kind == kind
  {
    var t := Scan(c, s.num, s.nodes + [Fresh(kind, s.c.top)], |s.nodes| + 1);
    assert Grown(t, Final(f), |s.nodes|);
    TrackNew(s, s', t, New(false, s', kind).s.(c := c), f, Fresh(kind, s.c.top));
  }

  /** What the first pass leaves to the second. */
  ghost predicate Measured(f: seq<Node>) {
    Family(f) && forall k | 0 <= k < |f| :: Blank(f[k])
  }

  lemma LinkedTaken(kids: seq<int>, a: Node, b: Node, owed: nat, child: int, c: Node, d: Node, owed': nat)
    requires Linked(kids, a, b, owed) && c == a.(size := a.size + 1) && Adopt(false, b, child) == Some(d)
    requires b.kind == a.kind && |kids| == c.size && kids[c.size - 1] == child
    requires a.kind == Object ==> b.index == 0 || b.index < |b.members|
    ensures Linked(kids, c, d, owed')
  {
    assert kids[..c.size] == kids[..a.size] + [child];
  }

  lemma SimAdopt(s: Scan, s': Scan, f: seq<Node>, t: Scan, k: int)
    requires Tracks(s, s', f) && HasTop(s) && HasTop(s') && Family(s.nodes) && !s.c.str && !s.c.seek && !s.c.done
    requires k == s.nodes[s.c.top].parent >= 0 && t == Adopted(s, k, s.nodes[k].(size := s.nodes[k].size + 1))
    requires Grows(s, t) && Grows(t, Final(f)) && Measured(f)
    ensures var n := Adopt(false, s'.nodes[k], s.c.top);
            n.Some? && n.value.kind == s.nodes[k].kind
            && if n.value.size > MAX_SIZE then !Roomy(f) else Tracks(t, Adopted(s', k, n.value), f)
  {
    hide Kids, Lined;
    assert Follows(s, s', f, k) && Grown(t, Final(f), k) && Grown(s, t, k);
    ParentOf(s.nodes, s.c.top);
    var n := Adopt(false, s'.nodes[k], s.c.top);
    if n.value.size > MAX_SIZE {
      assert 2 * f[k].size > MAX_SIZE;
    } else {
      var t' := Adopted(s', k, n.value);
      LinedTaken(s.nodes, s.c.top, t.nodes[k]);
      LinkedTaken(Kids(s.nodes, k), s.nodes[k], s'.nodes[k], Owed(s, k), s.c.top, t.nodes[k], n.value, Owed(t, k));
      assert Follows(t, t', f, k);
      forall i | 0 <= i < |t.nodes| ensures Follows(t, t', f, i) {
        KidsSame(s.nodes, t.nodes, i);
        if i != k { assert Follows(s, s', f, i) && Grown(s, t, i); }
      }
    }
  }

  lemma SimAttach(s: Scan, s': Scan, f: seq<Node>)
    requires Tracks(s, s', f) && HasTop(s) && HasTop(s') && Family(s.nodes) && !s.c.str && !s.c.seek && !s.c.done
    requires Attach(true, s).Go? && Grows(Attach(true, s).s, Final(f)) && Measured(f)
    ensures Agrees(Attach(false, s'), Attach(true, s).s, f)
  {
    hide Awaited, Owed, Grown, Follows, Roomy, Adopt;
    var top := s.c.top;
    var t := Attach(true, s).s;
    SameKind(s, s', f);
    ParentOf(s.nodes, top);
    AttachCases(true, s);
    var parent := s.nodes[top].parent;
    if parent < 0 {
      GrowsAttach(s, t);
      TrackSame(s, s', t, Attach(false, s').s, f);
    } else {
      AdoptFirst(s.nodes[parent], top);
      GrowsAttach(s, t);
      SimAdopt(s, s', f, t, parent);
    }
  }

  // ---------------------------------------------------------------- every step, in both passes

  lemma FollowString(data: string, s: Scan, s': Scan, f: seq<Node>)
    requires Inv(true, data, s) && Tracks(s, s', f) && Measured(f) && s.c.p <= |data| && s.c.str && HasTop(s)
            && HasTop(s')
    requires StringStep(true, data, s).Go? && Grows(StringStep(true, data, s).s, Final(f))
    ensures Agrees(StringStep(false, data, s'), StringStep(true, data, s).s, f)
  {
    hide Grows, Family, Tracks, Measured, Roomy, Put, Escaped, EndName, EndStr, Attach;
    SameTop(s, s', f);
    var b, p := CharAt(data, s.c.p), s.c.p;
    var t := StringStep(true, data, s).s;
    if s.c.esc {
      var e := Escaped(data, p);
      SimPut(s, s', f, s.c.(esc := false, p := e.end + 1), e.text);
    } else if b == '\\' {
      GrowsSame(s, t);
      TrackSame(s, s', t, s'.(c := t.c), f);
    } else if b == '"' {
      FollowEnd(s, s', f, s.c.(str := false, p := p + 1), b);
    } else if s.c.quote && Ends(s, b) {
      FollowEnd(s, s', f, s.c.(str := false, quote := false), b);
    } else {
      SimPut(s, s', f, s.c.(p := p + 1), [b]);
    }
  }

  lemma SameTop(s: Scan, s': Scan, f: seq<Node>)
    requires Tracks(s, s', f)
    ensures s'.c == s.c && HasTop(s') == HasTop(s) && (HasTop(s) ==> s'.nodes[s.c.top].kind == s.nodes[s.c.top].kind)
  {
    if HasTop(s) { SameKind(s, s', f); }
  }

  lemma FollowEnd(s: Scan, s': Scan, f: seq<Node>, c: Ctl, b: char)
    requires HasTop(s) && HasTop(s') && Tracks(s, s', f) && Measured(f) && Family(s.nodes)
    requires s.c.str && !s.c.seek && (TopIs(s, Str) || (TopIs(s, Object) && !s.c.done))
    requires !c.str && c.top == s.c.top && c.done == s.c.done && c.len == s.c.len && !c.seek
    requires StringEnd(true, s.(c := c), b).Go? && Grows(StringEnd(true, s.(c := c), b).s, Final(f))
    ensures Agrees(StringEnd(false, s'.(c := c), b), StringEnd(true, s.(c := c), b).s, f)
  {
    hide Grows, Family, Tracks, Measured, Roomy, EndName, EndStr, Attach;
    SameTop(s, s', f);
    var u := s.(c := c);
    if TopIs(u, Object) {
      SimName(s, s', f, c);
    } else {
      var v := EndStr(true, u).s;
      EndStrKeeps(true, u);
      if !u.c.done {
        GrowsAttached(v);
        GrowsTrans(v, Attach(true, v).s, Final(f));
        SimStr(s, s', f, c);
        var v' := EndStr(false, s'.(c := c));
        if v'.Go? {
          SameTop(v, v'.s, f);
          SimAttach(v, v'.s, f);
        }
      } else {
        SimStr(s, s', f, c);
      }
    }
  }

  lemma FollowAtom(s: Scan, s': Scan, f: seq<Node>, kind: Kind, bval: bool, p: int)
    requires Family(s.nodes) && -1 <= s.c.top < |s.nodes| && (s.c.top == -1 || InContainer(s)) && !s.c.str
            && !s.c.done && s.c.seek
    requires Tracks(s, s', f) && Measured(f) && (kind == Boolean || kind == Null)
    requires var o := Atom(true, s.(c := s.c.(seek := false)), kind, bval, p); o.Go? && Grows(o.s, Final(f))
    ensures Agrees(Atom(false, s'.(c := s'.c.(seek := false)), kind, bval, p),
            Atom(true, s.(c := s.c.(seek := false)), kind, bval, p).s, f)
  {
    hide Grows, Attach, Family, Roomy, Tracks, Measured;
    var w := WithLeaf(s, kind, bval, p);
    AtomIs(s, kind, bval, p);
    LeafFamily(s, kind, bval, p);
    GrowsAttached(w);
    GrowsTrans(w, Attach(true, w).s, Final(f));
    FollowLeaf(s, s', f, kind, bval, p);
    var w' := New(false, s'.(c := s'.c.(seek := false)), kind).s;
    SimAttach(w, SetTop(Move(w', p), w'.nodes[w'.c.top].(bval := bval || w'.nodes[w'.c.top].bval)), f);
  }

  lemma FollowLeaf(s: Scan, s': Scan, f: seq<Node>, kind: Kind, bval: bool, p: int)
    requires Tracks(s, s', f) && Measured(f) && (kind == Boolean || kind == Null) && !s.c.str && !s.c.done && s.c.seek
    requires Family(s.nodes)
    requires s.c.top == -1 || InContainer(s)
    requires Grows(WithLeaf(s, kind, bval, p), Final(f))
    ensures var o := New(false, s'.(c := s'.c.(seek := false)), kind);
            o.Go? && HasTop(o.s)
            && Tracks(WithLeaf(s, kind, bval, p),
               SetTop(Move(o.s, p), o.s.nodes[o.s.c.top].(bval := bval || o.s.nodes[o.s.c.top].bval)), f)
  {
    var n := Fresh(kind, s.c.top).(bval := bval);
    var w := WithLeaf(s, kind, bval, p);
    GrowsNew(s, w, n);
    assert Grown(w, Final(f), |s.nodes|);
    var o := New(false, s'.(c := s'.c.(seek := false)), kind);
    var w' := SetTop(Move(o.s, p), o.s.nodes[o.s.c.top].(bval := bval || o.s.nodes[o.s.c.top].bval));
    assert w' == Move(o.s, p);
    TrackNew(s, s', w, w', f, n);
  }

  lemma FollowSeek(data: string, s: Scan, s': Scan, f: seq<Node>)
    requires Inv(true, data, s) && Tracks(s, s', f) && Measured(f)
    requires s.c.p <= |data| && !s.c.str && !s.c.line && !s.c.block && !s.c.done && s.c.seek
    requires SeekStep(true, data, s).Go? && Grows(SeekStep(true, data, s).s, Final(f))
    requires !InNumber(SeekStep(true, data, s).s)
    ensures Agrees(SeekStep(false, data, s'), SeekStep(true, data, s).s, f)
  {
    hide Grows, Attach, ValueStep, Family, Tracks, Measured, Roomy;
    SameTop(s, s', f);
    var b, p := CharAt(data, s.c.p), s.c.p;
    var t := SeekStep(true, data, s).s;
    if b == ']' {
      var c := s.c.(comma := false, seek := false, p := p + 1);
      var u := s.(c := c);
      GrowsSame(s, u);
      TrackSame(s, s', u, s'.(c := c), f);
      SimAttach(u, s'.(c := c), f);
    } else if Space(b) || s.c.comma || s.c.colon {
      GrowsSame(s, t);
      TrackSame(s, s', t, s'.(c := t.c), f);
    } else {
      FollowValue(data, s, s', f);
    }
  }

  lemma FollowNew(data: string, s: Scan, s': Scan, f: seq<Node>, kind: Kind, c: Ctl)
    requires Inv(true, data, s) && Tracks(s, s', f) && Measured(f) && !s.c.str && !InNumber(s) && (c.done ==> s.c.done)
    requires c.top == |s.nodes| && (kind == Str ==> c.str) && (c.seek || c.str || kind == Object)
    requires Grows(Scan(c, s.num, s.nodes + [Fresh(kind, s.c.top)], |s.nodes| + 1), Final(f))
    requires kind != Integer && kind != Double
    ensures var o := New(false, s', kind);
            o.Go? && o.s.c == s'.c.(top := |s.nodes|)
              && Tracks(Scan(c, s.num, s.nodes + [Fresh(kind, s.c.top)], |s.nodes| + 1), o.s.(c := c), f)
  {
    hide Grows, Family, Tracks, Measured, Inv1;
    GrowsNew(s, Scan(c, s.num, s.nodes + [Fresh(kind, s.c.top)], |s.nodes| + 1), Fresh(kind, s.c.top));
    SimNew(s, s', f, kind, c);
  }

  lemma FollowValue(data: string, s: Scan, s': Scan, f: seq<Node>)
    requires Inv(true, data, s) && Tracks(s, s', f) && Measured(f)
    requires s.c.p <= |data| && !s.c.str && !s.c.line && !s.c.block && !s.c.done && s.c.seek
    requires var o := ValueStep(true, data, s.(c := s.c.(seek := false)), CharAt(data, s.c.p));
             o.Go? && Grows(o.s, Final(f)) && !InNumber(o.s)
    ensures Agrees(ValueStep(false, data, s'.(c := s'.c.(seek := false)), CharAt(data, s.c.p)),
                   ValueStep(true, data, s.(c := s.c.(seek := false)), CharAt(data, s.c.p)).s, f)
  {
    hide Grows, Attach, Atom, NewBare, NumberStart, Family, Digit, Reads, Tracks, Measured, Roomy, InNumber;
    SameTop(s, s', f);
    var b, p := CharAt(data, s.c.p), s.c.p;
    if b == 't' && |data| - p >= 3 && Reads(data, p + 1, "rue") {
      FollowAtom(s, s', f, Boolean, true, p + 4);
    } else if b == 'f' && |data| - p >= 4 && Reads(data, p + 1, "alse") {
      FollowAtom(s, s', f, Boolean, false, p + 5);
    } else if b == 'n' && |data| - p >= 3 && CharAt(data, p + 1) != 'u' && CharAt(data, p + 2) != 'l'
      && CharAt(data, p + 3) != 'l' {
      FollowAtom(s, s', f, Null, false, p + 4);
    } else {
      FollowOther(data, s, s', f);
    }
  }

  lemma FollowOther(data: string, s: Scan, s': Scan, f: seq<Node>)
    requires Inv(true, data, s) && Tracks(s, s', f) && Measured(f)
    requires s.c.p <= |data| && !s.c.str && !s.c.line && !s.c.block && !s.c.done && s.c.seek
    requires var b, p := CharAt(data, s.c.p), s.c.p;
      && !(b == 't' && |data| - p >= 3 && Reads(data, p + 1, "rue"))
         && !(b == 'f' && |data| - p >= 4 && Reads(data, p + 1, "alse"))
      && !(b == 'n' && |data| - p >= 3 && CharAt(data, p + 1) != 'u' && CharAt(data, p + 2) != 'l'
         && CharAt(data, p + 3) != 'l')
    requires var o := ValueStep(true, data, s.(c := s.c.(seek := false)), CharAt(data, s.c.p));
             o.Go? && Grows(o.s, Final(f)) && !InNumber(o.s)
    ensures Agrees(ValueStep(false, data, s'.(c := s'.c.(seek := false)), CharAt(data, s.c.p)),
                   ValueStep(true, data, s.(c := s.c.(seek := false)), CharAt(data, s.c.p)).s, f)
  {
    hide Grows, Atom, Attach, Family, Digit, Reads, Tracks, Measured, Roomy, InNumber, Prepared, NumberStart;
    SameTop(s, s', f);
    var b, p := CharAt(data, s.c.p), s.c.p;
    var c := s.c.(seek := false, top := |s.nodes|);
    SeekNotNumber(s);
    if b == '{' || b == '[' || b == '"' {
      FollowOpening(data, s, s', f);
    } else if b == 't' {
      FollowNew(data, s, s', f, Str, c.(str := true, quote := true, len := 0));
    } else if b == 'f' {
      FollowNew(data, s, s', f, Str, c.(str := true, quote := true, len := 0));
    } else if b == 'n' {
      FollowNew(data, s, s', f, Str, c.(str := true, quote := true, len := 0));
    } else if !(Digit(b) || b == '-') {
      FollowNew(data, s, s', f, Str, c.(str := true, quote := true, len := 0));
    } else {
      StartInNumber(data, s);
    }
  }

  lemma FollowOpening(data: string, s: Scan, s': Scan, f: seq<Node>)
    requires Inv(true, data, s) && Tracks(s, s', f) && Measured(f)
    requires s.c.p <= |data| && !s.c.str && !s.c.line && !s.c.block && !s.c.done && s.c.seek
    requires var b := CharAt(data, s.c.p); b == '{' || b == '[' || b == '"'
    requires var o := ValueStep(true, data, s.(c := s.c.(seek := false)), CharAt(data, s.c.p));
             o.Go? && Grows(o.s, Final(f))
    ensures Agrees(ValueStep(false, data, s'.(c := s'.c.(seek := false)), CharAt(data, s.c.p)),
                   ValueStep(true, data, s.(c := s.c.(seek := false)), CharAt(data, s.c.p)).s, f)
  {
    hide Grows, Atom, NewBare, NumberStart, Family, Digit, Reads, Tracks, Measured, Roomy, InNumber;
    SameTop(s, s', f);
    var b, p := CharAt(data, s.c.p), s.c.p;
    var c := s.c.(seek := false, top := |s.nodes|);
    SeekNotNumber(s);
    if b == '{' {
      FollowNew(data, s, s', f, Object, c.(p := p + 1));
    } else if b == '[' {
      FollowNew(data, s, s', f, Array, c.(p := p + 1, seek := true));
    } else {
      FollowNew(data, s, s', f, Str, c.(p := p + 1, str := true, len := 0));
    }
  }

  lemma SeekNotNumber(s: Scan)
    requires s.c.seek
    ensures !InNumber(s)
  {
  }

  lemma StartInNumber(data: string, s: Scan)
    requires !s.c.str && !s.c.line && !s.c.block && !s.c.done
    ensures var o := NumberStart(true, data, s.(c := s.c.(seek := false)), CharAt(data, s.c.p)); o.Go? && InNumber(o.s)
  {
  }

  lemma FollowName(data: string, s: Scan, s': Scan, f: seq<Node>)
    requires Inv(true, data, s) && Tracks(s, s', f) && Measured(f) && HasTop(s')
    requires s.c.p <= |data| && !s.c.str && !s.c.line && !s.c.block && !s.c.done && !s.c.seek && TopIs(s, Object)
    requires NameStep(true, data, s).Go? && Grows(NameStep(true, data, s).s, Final(f))
    ensures Agrees(NameStep(false, data, s'), NameStep(true, data, s).s, f)
  {
    hide Grows, Attach, Family, Tracks, Measured, Roomy;
    SameTop(s, s', f);
    var t := NameStep(true, data, s).s;
    if CharAt(data, s.c.p) == '}' {
      var c := s.c.(comma := false, p := s.c.p + 1);
      var u := s.(c := c);
      GrowsSame(s, u);
      TrackSame(s, s', u, s'.(c := c), f);
      SimAttach(u, s'.(c := c), f);
    } else {
      GrowsSame(s, t);
      TrackSame(s, s', t, s'.(c := t.c), f);
    }
  }

  lemma FollowSlash(data: string, s: Scan, s': Scan, f: seq<Node>)
    requires Inv(true, data, s) && Tracks(s, s', f) && Measured(f)
    requires s.c.p <= |data| && !s.c.str && !s.c.line && !s.c.block && CharAt(data, s.c.p) == '/'
    requires SlashStep(true, data, s).Go? && Grows(SlashStep(true, data, s).s, Final(f))
    requires !InNumber(s) && !InNumber(SlashStep(true, data, s).s)
    ensures Agrees(SlashStep(false, data, s'), SlashStep(true, data, s).s, f)
  {
    hide Grows, Family, Tracks, Measured, Roomy;
    SameTop(s, s', f);
    var b := CharAt(data, s.c.p + 1);
    var t := SlashStep(true, data, s).s;
    if b == '/' {
      hide NewBare, CommentAt, Agrees;
      FollowCommentAt(s, s', f, s.c.p + 2, true, s.c.block);
    } else if b == '*' {
      hide NewBare, CommentAt, Agrees;
      FollowCommentAt(s, s', f, s.c.p + 2, s.c.line, true);
    } else {
      FollowNew(data, s, s', f, Str, s.c.(seek := false, top := |s.nodes|, str := true, quote := true, len := 0));
    }
  }

  lemma FollowCommentAt(s: Scan, s': Scan, f: seq<Node>, p: int, line: bool, block: bool)
    requires Tracks(s, s', f) && !InNumber(s) && !s.c.str && !InNumber(CommentAt(s, p, line, block))
    ensures Agrees(Go(CommentAt(s', p, line, block)), CommentAt(s, p, line, block), f)
  {
    hide Grows, Tracks, Roomy;
    SameTop(s, s', f);
    GrowsSame(s, CommentAt(s, p, line, block));
    TrackSame(s, s', CommentAt(s, p, line, block), CommentAt(s', p, line, block), f);
  }

  lemma SamePlace(s: Scan, s': Scan, f: seq<Node>)
    requires Tracks(s, s', f)
    ensures s'.c.p == s.c.p && s'.c.line == s.c.line && s'.c.block == s.c.block
  {
  }

  lemma FollowLine(data: string, s: Scan, s': Scan, f: seq<Node>)
    requires Tracks(s, s', f) && !InNumber(s) && !s.c.str && LineStep(data, s).Go? && !InNumber(LineStep(data, s).s)
    ensures Agrees(LineStep(data, s'), LineStep(data, s).s, f)
  {
    SamePlace(s, s', f);
    hide Tracks, Roomy, CharAt, CommentAt, Agrees, InNumber;
    var b := CharAt(data, s.c.p);
    if b == '\r' || b == '\n' || b == '\0' {
      FollowCommentAt(s, s', f, s.c.p, false, s.c.block);
    } else {
      FollowCommentAt(s, s', f, s.c.p + 1, s.c.line, s.c.block);
    }
  }

  lemma BlockIs(data: string, s: Scan)
    requires BlockStep(data, s).Go?
    ensures BlockStep(data, s).s ==
            if CharAt(data, s.c.p) == '*' && CharAt(data, s.c.p + 1) == '/'
            then CommentAt(s, s.c.p + 2, s.c.line, false)
            else CommentAt(s, s.c.p + 1, s.c.line, s.c.block)
  {
    hide CharAt, CommentAt;
  }

  lemma BlockGoes(data: string, s: Scan, s': Scan)
    requires s'.c.p == s.c.p && BlockStep(data, s).Go?
    ensures BlockStep(data, s').Go?
  {
    hide CharAt, CommentAt;
  }

  lemma FollowBlock(data: string, s: Scan, s': Scan, f: seq<Node>)
    requires Tracks(s, s', f) && !InNumber(s) && !s.c.str && BlockStep(data, s).Go? && !InNumber(BlockStep(data, s).s)
    ensures Agrees(BlockStep(data, s'), BlockStep(data, s).s, f)
  {
    SamePlace(s, s', f);
    BlockGoes(data, s, s');
    BlockIs(data, s);
    BlockIs(data, s');
    hide Tracks, Roomy, CharAt, CommentAt, Agrees, InNumber, BlockStep;
    if CharAt(data, s.c.p) == '*' && CharAt(data, s.c.p + 1) == '/' {
      FollowCommentAt(s, s', f, s.c.p + 2, s.c.line, false);
    } else {
      FollowCommentAt(s, s', f, s.c.p + 1, s.c.line, s.c.block);
    }
  }

  lemma FollowComment(data: string, s: Scan, s': Scan, f: seq<Node>)
    requires Tracks(s, s', f) && !InNumber(s) && !s.c.str && CommentStep(data, s).Go?
    requires !InNumber(CommentStep(data, s).s)
    ensures Agrees(CommentStep(data, s'), CommentStep(data, s).s, f)
  {
    SamePlace(s, s', f);
    hide Tracks, Roomy, LineStep, BlockStep, Agrees, InNumber;
    if s.c.line { FollowLine(data, s, s', f); } else { FollowBlock(data, s, s', f); }
  }

  lemma FollowDone(data: string, s: Scan, s': Scan, f: seq<Node>)
    requires Tracks(s, s', f) && !InNumber(s) && !s.c.str && s.c.done && DoneStep(data, s).Go?
    ensures Agrees(DoneStep(data, s'), DoneStep(data, s).s, f)
  {
    hide Grows, Tracks, Roomy, CharAt;
    SameTop(s, s', f);
    var t := DoneStep(data, s).s;
    GrowsSame(s, t);
    TrackSame(s, s', t, s'.(c := t.c), f);
  }

  /** Where the first pass takes a step other than into or inside a number, the second
      takes the same one, unless a container is too large for it. */
  lemma FollowStep(data: string, s: Scan, s': Scan, f: seq<Node>)
    requires Inv(true, data, s) && Tracks(s, s', f) && Measured(f) && !InNumber(s)
    requires Step(true, data, s).Go? && Grows(Step(true, data, s).s, Final(f)) && !InNumber(Step(true, data, s).s)
    ensures Agrees(Step(false, data, s'), Step(true, data, s).s, f)
  {
    hide Grows, Family, Tracks, Measured, Roomy, StringStep, SlashStep, SeekStep, NameStep;
    hide NumberStep, CommentStep, DoneStep;
    SameTop(s, s', f);
    if s.c.str {
      FollowString(data, s, s', f);
    } else if s.c.line || s.c.block {
      FollowComment(data, s, s', f);
    } else if CharAt(data, s.c.p) == '/' {
      FollowSlash(data, s, s', f);
    } else if s.c.done {
      FollowDone(data, s, s', f);
    } else if s.c.seek {
      FollowSeek(data, s, s', f);
    } else {
      FollowName(data, s, s', f);
    }
  }

  // ---------------------------------------------------------------- numbers, which only the first pass reads

  /** `w` is as far as `u` in the text up to more of the number's characters. */
  ghost predicate Further(data: string, u: Scan, w: Scan) {
    && InNumber(u) && InNumber(w) && 0 <= u.c.p <= w.c.p <= |data| && w.c == u.c.(p := w.c.p) && w.alloc == u.alloc
    && w.num.start == u.num.start
    && w.nodes == u.nodes[u.c.top := u.nodes[u.c.top].(kind := w.nodes[u.c.top].kind, ival := w.nodes[u.c.top].ival)]
    && (forall i | u.c.p <= i < w.c.p :: NumberChar(data[i]))
  }

  /** From the number `w` the first pass goes on at `v`: with a string from the start of the
      number, or, at a comma, with the number as a value. */
  ghost predicate NumberLeft(data: string, w: Scan, v: Scan)
    requires HasTop(w)
  {
    || v == Bare(SetTop(Move(w, w.num.start), w.nodes[w.c.top].(kind := Str)))
    || (CharAt(data, w.c.p) == ',' && Attach(true, w) == Go(v))
  }

  lemma {:induction false} NumberEnds(data: string, u: Scan) returns (w: Scan, v: Scan)
    requires Inv(true, data, u) && InNumber(u) && Run(true, data, u).Accept?
    ensures Inv(true, data, w) && Further(data, u, w) && NumberLeft(data, w, v)
    ensures Inv(true, data, v) && !InNumber(v) && Run(true, data, v) == Run(true, data, u)
    ensures v.alloc == u.alloc && Visits(true, data, v) == Visits(true, data, u)
    ensures Last(true, data, v) == Last(true, data, u)
    ensures Base(true, v) > u.num.start || (v.c.p == u.num.start && v.c.str)
    decreases |data| + 1 - Base(true, u), Rank(true, data, u), |data| + 1 - u.c.p
  {
    hide Family, Shrinks, Attach, Step, Inv1;
    if Step(true, data, u).Accept? { AcceptedAt(true, data, u); }
    NumberTurn(data, u);
    StepShrinks(true, data, u);
    var t := Step(true, data, u).s;
    ShrinksTo(true, data, u, t);
    if InNumber(t) {
      w, v := NumberEnds(data, t);
      FurtherOn(data, u, t, w);
    } else {
      w, v := u, t;
      NumberIsStep(data, u);
      assert u.nodes == u.nodes[u.c.top := u.nodes[u.c.top].(kind := u.nodes[u.c.top].kind,
        ival := u.nodes[u.c.top].ival)];
    }
  }

  /** The step consumed one more character of the number. */
  ghost predicate OneMore(data: string, u: Scan, t: Scan) {
    && InNumber(u) && InNumber(t) && 0 <= u.c.p < |data| && NumberChar(data[u.c.p]) && t.c == u.c.(p := u.c.p + 1)
    && t.alloc == u.alloc && t.num.start == u.num.start
    && t.nodes == u.nodes[u.c.top := u.nodes[u.c.top].(kind := t.nodes[u.c.top].kind, ival := t.nodes[u.c.top].ival)]
  }

  lemma NumberCases(data: string, u: Scan)
    requires 0 <= u.c.p <= |data| && InNumber(u) && NumberStep(data, u).Go?
    ensures var t := NumberStep(data, u).s; OneMore(data, u, t) || NumberLeft(data, u, t)
  {
    hide Attach, Int64, Bare;
    if Digit(CharAt(data, u.c.p)) { DigitMore(data, u); }
  }

  lemma DigitMore(data: string, u: Scan)
    requires 0 <= u.c.p <= |data| && InNumber(u) && NumberStep(data, u).Go? && Digit(CharAt(data, u.c.p))
    ensures OneMore(data, u, NumberStep(data, u).s)
  {
    hide Attach, Int64, Bare;
  }

  lemma NumberTurn(data: string, u: Scan)
    requires Inv(true, data, u) && InNumber(u) && Step(true, data, u).Go?
    ensures var t := Step(true, data, u).s;
            && t.alloc == u.alloc
            && if InNumber(t) then OneMore(data, u, t)
            else NumberLeft(data, u, t) && (t.c.p > u.num.start || (t.c.p == u.num.start && t.c.str))
  {
    assert u.num.start < u.c.p || Digit(data[u.num.start]);
    assert 0 <= u.num.start <= u.c.p && u.num.start < |data|;
    hide Family, Step, Attach, Inv1, Inv, NumberStep;
    NumberIsStep(data, u);
    NumberCases(data, u);
    if Attach(true, u).Go? { AttachKeeps(true, u); }
  }

  lemma NumberIsStep(data: string, u: Scan)
    requires InNumber(u) && Step(true, data, u).Go?
    ensures 0 <= u.c.p <= |data| && Step(true, data, u) == NumberStep(data, u)
  {
    hide NumberStep;
  }

  lemma FurtherOn(data: string, u: Scan, t: Scan, w: Scan)
    requires OneMore(data, u, t) && Further(data, t, w)
    ensures Further(data, u, w)
  {
  }

  lemma {:induction false} NumberSkipped(data: string, p: int, q: int)
    requires 0 <= p <= q < |data| && data[q] == ',' && forall i | p <= i < q :: NumberChar(data[i])
    ensures SkipNumber(data, p) == q
    decreases q - p
  {
    if p < q { NumberSkipped(data, p + 1, q); }
  }

  /** The number became a string: the second pass reads it as one from the start. */
  lemma FollowRestart(s: Scan, s': Scan, f: seq<Node>, v: Scan, n: Node)
    requires Tracks(s, s', f) && Measured(f) && Family(s.nodes) && !s.c.str && s.c.seek
    requires n == Fresh(Str, s.c.top).(ival := n.ival) && v.nodes == s.nodes + [n] && !InNumber(v)
    requires v.c == s.c.(seek := false, top := |s.nodes|, str := true, quote := true, len := 0) && Grows(s, v)
            && Grows(v, Final(f))
    ensures var o := New(false, s'.(c := s'.c.(seek := false)), Integer);
            o.Go? && TopIs(o.s, Str) && Tracks(v, Bare(o.s), f)
  {
    var o := New(false, s'.(c := s'.c.(seek := false)), Integer);
    assert Grown(v, Final(f), |s.nodes|);
    TrackNew(s, s', v, Bare(o.s), f, n);
  }

  /** The number stayed a number: the second pass goes to its end. */
  lemma FollowInteger(s: Scan, s': Scan, f: seq<Node>, w: Scan, n: Node)
    requires Tracks(s, s', f) && Measured(f) && Family(s.nodes) && !s.c.str && (n.kind == Integer || n.kind == Double)
    requires n == Fresh(n.kind, s.c.top).(ival := n.ival) && w.nodes == s.nodes + [n] && Grows(s, w)
    requires w.c == s.c.(seek := false, top := |s.nodes|, p := w.c.p)
    requires |s.nodes| < |f| && f[|s.nodes|].kind == n.kind && f[|s.nodes|].parent == n.parent
    ensures var o := New(false, s'.(c := s'.c.(seek := false)), Integer);
            o.Go? && HasTop(o.s) && !TopIs(o.s, Str) && Tracks(w, Move(o.s, w.c.p), f)
  {
    var o := New(false, s'.(c := s'.c.(seek := false)), Integer);
    TrackNew(s, s', w, Move(o.s, w.c.p), f, n);
  }

  lemma NumberKind(w: Scan, v: Scan, f: seq<Node>)
    requires HasTop(w) && Family(w.nodes) && Attach(true, w) == Go(v) && Grows(v, Final(f)) && !InNumber(v)
    ensures w.c.top < |f| && f[w.c.top].kind == w.nodes[w.c.top].kind && f[w.c.top].parent == w.nodes[w.c.top].parent
  {
    hide Attach, Family, Grown, Adopt;
    ParentOf(w.nodes, w.c.top);
    AttachCases(true, w);
    assert v.nodes[w.c.top] == w.nodes[w.c.top];
    NumberKept(v, f, w.c.top);
  }

  lemma NumberKept(v: Scan, f: seq<Node>, k: int)
    requires 0 <= k < |v.nodes| && Grows(v, Final(f)) && !InNumber(v)
    ensures k < |f| && f[k].kind == v.nodes[k].kind && f[k].parent == v.nodes[k].parent
  {
    assert Grown(v, Final(f), k);
  }

  /** The second pass crosses a number in one step. */
  lemma FollowNumber(data: string, s: Scan, s': Scan, f: seq<Node>, w: Scan, v: Scan)
    requires Inv(true, data, s) && Tracks(s, s', f) && Measured(f) && s.c.p <= |data|
    requires !s.c.str && !s.c.line && !s.c.block && !s.c.done && s.c.seek && !s.c.comma && !s.c.colon
    requires Digit(CharAt(data, s.c.p)) || CharAt(data, s.c.p) == '-'
    requires Further(data, NumberStart(true, data, s.(c := s.c.(seek := false)), CharAt(data, s.c.p)).s, w)
    requires Family(w.nodes) && NumberLeft(data, w, v) && Grows(v, Final(f)) && !InNumber(v)
    ensures Agrees(Step(false, data, s'), v, f)
  {
    hide Grows, Tracks, Measured, Roomy, Attach, Family, Inv1;
    SameTop(s, s', f);
    SeekNotNumber(s);
    var b := CharAt(data, s.c.p);
    var n := Fresh(w.nodes[w.c.top].kind, s.c.top).(ival := w.nodes[w.c.top].ival);
    StepToNumber(data, s');
    assert w.nodes == s.nodes + [n] && w.c.top == |s.nodes|;
    if v == Bare(SetTop(Move(w, w.num.start), w.nodes[w.c.top].(kind := Str))) {
      assert v.nodes == s.nodes + [n.(kind := Str)];
      GrowsNew(s, v, n.(kind := Str));
      FollowRestart(s, s', f, v, n.(kind := Str));
    } else {
      GrowsNew(s, w, n);
      NumberSkipped(data, s.c.p, w.c.p);
      NumberKind(w, v, f);
      FollowInteger(s, s', f, w, n);
      SimAttach(w, Move(New(false, s'.(c := s'.c.(seek := false)), Integer).s, w.c.p), f);
    }
  }

  lemma StepToNumber(data: string, s: Scan)
    requires 0 <= s.c.p <= |data| && !s.c.str && !s.c.line && !s.c.block && !s.c.done && s.c.seek && !s.c.comma
            && !s.c.colon
    requires Digit(CharAt(data, s.c.p)) || CharAt(data, s.c.p) == '-'
    ensures forall first ::
            Step(first, data, s) == NumberStart(first, data, s.(c := s.c.(seek := false)), CharAt(data, s.c.p))
  {
    hide NumberStart, Atom, NewBare;
  }

  // ---------------------------------------------------------------- the whole of both passes

  /** What the second pass made of the nodes `f` that the first measured, with the children
      it stored. */
  ghost predicate Made(f: seq<Node>, g: seq<Node>) {
    |g| == |f| && forall k | 0 <= k < |f| ::
      Filled(f[k], g[k], f[k], 0, true) && Linked(Kids(f, k), f[k], g[k], 0)
  }

  lemma MadeIsRoomy(f: seq<Node>, g: seq<Node>)
    requires Made(f, g)
    ensures Roomy(f)
  {
    forall k | 0 <= k < |f| ensures 2 * f[k].size <= MAX_SIZE {
      assert Filled(f[k], g[k], f[k], 0, true);
    }
  }

  lemma TracksToEnd(s: Scan, s': Scan)
    requires Tracks(s, s', s.nodes) && s.c.done && !s.c.str
    ensures Made(s.nodes, s'.nodes)
  {
    forall k | 0 <= k < |s.nodes|
      ensures Filled(s.nodes[k], s'.nodes[k], s.nodes[k], 0, true)
      ensures Linked(Kids(s.nodes, k), s.nodes[k], s'.nodes[k], 0)
    {
      assert Follows(s, s', s.nodes, k);
    }
  }

  /** The outcome of the second pass from `s'` on, given that of the first. */
  ghost predicate Matches(o: Outcome, f: seq<Node>) {
    (o.Accept? && Made(f, o.nodes)) || (o.Reject? && !Roomy(f))
  }

  lemma NumberBegins(data: string, s: Scan)
    requires Inv(true, data, s) && !InNumber(s) && Step(true, data, s).Go? && InNumber(Step(true, data, s).s)
    ensures 0 <= s.c.p < |data| && !s.c.str && !s.c.line && !s.c.block && !s.c.done && s.c.seek && !s.c.comma
            && !s.c.colon
    ensures Digit(data[s.c.p]) || data[s.c.p] == '-'
    ensures var o := NumberStart(true, data, s.(c := s.c.(seek := false)), data[s.c.p]);
            o == Step(true, data, s) && o.s.num.start == s.c.p
  {
    hide Family, StringStep, NameStep, SeekStep, NumberStart, NumberStep, CommentStep, SlashStep, DoneStep;
    if s.c.str {
      NotFromString(data, s);
    } else if s.c.line || s.c.block {
      NotFromComment(data, s);
    } else if CharAt(data, s.c.p) == '/' {
      NotFromSlash(data, s);
    } else if s.c.done {
      NotFromDone(data, s);
    } else if !s.c.seek && !s.c.done && !s.c.line && !s.c.block && CharAt(data, s.c.p) != '/' {
      NotFromName(data, s);
    } else if s.c.seek && !s.c.line && !s.c.block && CharAt(data, s.c.p) != '/' {
      OnlyFromDigit(data, s);
    }
  }

  lemma NotFromComment(data: string, s: Scan)
    requires Inv(true, data, s) && (s.c.line || s.c.block) && CommentStep(data, s).Go?
    ensures !InNumber(CommentStep(data, s).s)
  {
    hide Family, CharAt;
  }

  lemma NotFromSlash(data: string, s: Scan)
    requires Inv(true, data, s) && !s.c.str && CharAt(data, s.c.p) == '/' && SlashStep(true, data, s).Go?
    ensures !InNumber(SlashStep(true, data, s).s)
  {
    hide Family, CharAt, NewBare;
    if CharAt(data, s.c.p + 1) == '/' {
    } else if CharAt(data, s.c.p + 1) == '*' {
    } else {
      BareNotNumber(s.(c := s.c.(seek := false)));
    }
  }

  lemma BareNotNumber(s: Scan)
    ensures NewBare(true, s).Go? && !InNumber(NewBare(true, s).s)
  {
  }

  lemma NotFromDone(data: string, s: Scan)
    requires s.c.done && DoneStep(data, s).Go?
    ensures !InNumber(DoneStep(data, s).s)
  {
  }

  lemma NotFromString(data: string, s: Scan)
    requires Inv(true, data, s) && s.c.str && HasTop(s) && StringStep(true, data, s).Go?
    ensures !InNumber(StringStep(true, data, s).s)
  {
    hide Family, Attach, Escaped, Ends;
    var b, p := CharAt(data, s.c.p), s.c.p;
    NotFromEnd(s, s.(c := s.c.(str := false, p := p + 1)), b);
    NotFromEnd(s, s.(c := s.c.(str := false, quote := false)), b);
  }

  lemma NotFromEnd(s: Scan, u: Scan, b: char)
    requires HasTop(s) && Family(s.nodes) && (TopIs(s, Str) || TopIs(s, Object)) && HasTop(u) && u.nodes == s.nodes
            && u.c.top == s.c.top
    ensures StringEnd(true, u, b).Go? ==> !InNumber(StringEnd(true, u, b).s)
  {
    hide Family, Attach;
    if TopIs(u, Str) {
      EndStrKeeps(true, u);
      if Attach(true, EndStr(true, u).s).Go? { AttachKeeps(true, EndStr(true, u).s); }
    }
  }

  lemma NotFromName(data: string, s: Scan)
    requires Inv(true, data, s) && TopIs(s, Object) && NameStep(true, data, s).Go?
    ensures !InNumber(NameStep(true, data, s).s)
  {
    hide Family, Attach;
    var u := s.(c := s.c.(comma := false, p := s.c.p + 1));
    AttachedNotNumber(u);
  }

  lemma NumberFromValue(data: string, s: Scan)
    requires Inv(true, data, s) && s.c.p <= |data| && !s.c.str && !s.c.line && !s.c.block && !s.c.done && s.c.seek
    requires var o := ValueStep(true, data, s.(c := s.c.(seek := false)), CharAt(data, s.c.p)); o.Go? && InNumber(o.s)
    ensures s.c.p < |data| && (Digit(data[s.c.p]) || data[s.c.p] == '-')
    ensures var u, b := s.(c := s.c.(seek := false)), CharAt(data, s.c.p);
            ValueStep(true, data, u, b) == NumberStart(true, data, u, b)
  {
    hide Family, Attach, Atom, NewBare, NumberStart, InNumber, Reads;
    var b, p := CharAt(data, s.c.p), s.c.p;
    var u := s.(c := s.c.(seek := false));
    BareNotNumber(u);
    if b == '{' || b == '[' || b == '"' {
      OpenNotNumber(data, u, b);
    } else if b == 't' {
      NotFromAtom(s, Boolean, true, p + 4);
    } else if b == 'f' {
      NotFromAtom(s, Boolean, false, p + 5);
    } else if b == 'n' {
      NotFromAtom(s, Null, false, p + 4);
    }
  }

  lemma OpenNotNumber(data: string, u: Scan, b: char)
    requires b == '{' || b == '[' || b == '"'
    ensures ValueStep(true, data, u, b).Go? && !InNumber(ValueStep(true, data, u, b).s)
  {
    hide Atom, NewBare, NumberStart, Reads;
    if b == '{' {
    } else if b == '[' {
    } else {
    }
  }

  lemma StartsHere(data: string, s: Scan, b: char)
    ensures NumberStart(true, data, s, b).Go? && NumberStart(true, data, s, b).s.num.start == s.c.p
  {
  }

  lemma OnlyFromDigit(data: string, s: Scan)
    requires Inv(true, data, s) && s.c.p <= |data| && !s.c.str && !s.c.line && !s.c.block && !s.c.done && s.c.seek
    requires SeekStep(true, data, s).Go? && InNumber(SeekStep(true, data, s).s)
    ensures s.c.p < |data| && !s.c.comma && !s.c.colon && (Digit(data[s.c.p]) || data[s.c.p] == '-')
    ensures var o := NumberStart(true, data, s.(c := s.c.(seek := false)), data[s.c.p]);
            o == SeekStep(true, data, s) && o.s.num.start == s.c.p
  {
    hide Family, Attach, Atom, NewBare, NumberStart, ValueStep;
    var b, p := CharAt(data, s.c.p), s.c.p;
    if Space(b) {
    } else if b == ']' {
      AttachedNotNumber(s.(c := s.c.(comma := false, seek := false, p := p + 1)));
    } else if !s.c.comma && !s.c.colon {
      NumberFromValue(data, s);
      StartsHere(data, s.(c := s.c.(seek := false)), b);
    }
  }

  lemma AttachedNotNumber(s: Scan)
    requires HasTop(s) && Family(s.nodes)
    ensures Attach(true, s).Go? ==> !InNumber(Attach(true, s).s)
  {
    hide Family, Attach;
    if Attach(true, s).Go? { AttachKeeps(true, s); }
  }

  lemma NotFromAtom(s: Scan, kind: Kind, bval: bool, p: int)
    requires Family(s.nodes) && -1 <= s.c.top < |s.nodes| && (s.c.top == -1 || InContainer(s))
    ensures var o := Atom(true, s.(c := s.c.(seek := false)), kind, bval, p); o.Go? ==> !InNumber(o.s)
  {
    hide Family, Attach, InNumber, Atom;
    AtomIs(s, kind, bval, p);
    LeafFamily(s, kind, bval, p);
    AttachedNotNumber(WithLeaf(s, kind, bval, p));
  }

  lemma CrossShrinks(data: string, s: Scan, v: Scan)
    requires Inv(true, data, s) && 0 <= s.c.p < |data| && !InNumber(s) && !InNumber(v) && Inv(true, data, v)
    requires !s.c.str && !s.c.line && !s.c.block && !s.c.done && s.c.seek && !s.c.comma && !s.c.colon
    requires Digit(data[s.c.p]) || data[s.c.p] == '-'
    requires v.c.p > s.c.p || (v.c.p == s.c.p && v.c.str)
    ensures Shrinks(true, data, s, v)
  {
    hide Family, Inv1;
  }

  lemma DoneAccepts(data: string, s: Scan, s': Scan, f: seq<Node>)
    requires Inv(true, data, s) && Tracks(s, s', f) && Step(true, data, s).Accept?
    ensures Step(false, data, s') == Accept(s'.nodes) && Step(true, data, s) == Accept(s.nodes)
  {
    AcceptedAt(true, data, s);
    hide StringStep, SlashStep, SeekStep, NameStep, NumberStep, CommentStep, Inv, Follows;
    SeekNeverAccepts(true, data, s);
  }

  /** Both passes begin a node in this turn, or neither does. */
  lemma BothBegin(data: string, s: Scan, s': Scan, t: Scan, v: Scan, v': Scan, f: seq<Node>)
    requires Inv(true, data, s) && Inv(true, data, v) && v.alloc == t.alloc
    requires Tracks(s, s', f) && Tracks(v, v', f)
    ensures Begun(s', v') == Begun(s, t)
  {
  }

  lemma TracksLined(s: Scan, s': Scan, f: seq<Node>)
    requires Tracks(s, s', f)
    ensures Lined(s.nodes, s.c.top)
  {
  }

  lemma {:induction false} SecondFollows(data: string, s: Scan, s': Scan, f: seq<Node>)
    requires Inv(true, data, s) && Inv(false, data, s') && Tracks(s, s', f) && Measured(f) && !InNumber(s)
    requires Run(true, data, s) == Accept(f)
    ensures Matches(Run(false, data, s'), f)
    ensures Run(false, data, s').Accept? ==>
              Visits(false, data, s') == Visits(true, data, s) && Lined(f, Last(true, data, s).c.top)
    decreases |data| + 1 - Base(true, s), Rank(true, data, s), |data| + 1 - s.c.p
  {
    hide Step, Shrinks, Inv1, Grows, Tracks, Measured, Roomy, Family, Made, InNumber, Further, NumberLeft, Begun, Lined;
    match Step(true, data, s)
    case Go(t) =>
      StepShrinks(true, data, s);
      ShrinksTo(true, data, s, t);
      GrowsToEnd(data, t);
      var v := t;
      if InNumber(t) {
        NumberBegins(data, s);
        var w;
        w, v := NumberEnds(data, t);
        GrowsToEnd(data, v);
        FollowNumber(data, s, s', f, w, v);
        CrossShrinks(data, s, v);
        ShrinksTo(true, data, s, v);
      } else {
        FollowStep(data, s, s', f);
      }
      if Step(false, data, s').Go? {
        StepShrinks(false, data, s');
        BothBegin(data, s, s', t, v, Step(false, data, s').s, f);
        SecondFollows(data, v, Step(false, data, s').s, f);
      }
    case Accept(_) =>
      AcceptedAt(true, data, s);
      DoneAccepts(data, s, s', f);
      TracksToEnd(s, s');
      TracksLined(s, s', f);
    case _ =>
  }

  // ---------------------------------------------------------------- both passes together

  /** What the second pass made of the nodes `f` that the first measured: every node as large
      as it was counted, and in it exactly its children, in the order of the text. */
  ghost predicate Completes(f: seq<Node>, visits: seq<Visit>, g: seq<Node>) {
    |g| == |f| == |visits| && forall k | 0 <= k < |f| ::
      Filled(f[k], g[k], f[k], 0, true) && HoldsChildren(Children(f, visits, k), f[k], g[k])
  }

  ghost predicate HoldsChildren(children: seq<int>, a: Node, b: Node) {
    && a.size == |children| && (a.kind == Array ==> b.items == children)
    && (a.kind == Object ==> forall i | 0 <= i < |b.members| :: b.members[i].value in children)
  }

  lemma MadeHolds(e: Scan, visits: seq<Visit>, g: seq<Node>)
    requires Made(e.nodes, g) && Lined(e.nodes, e.c.top) && e.c.done && Finished(e) && |visits| == |e.nodes|
    requires forall i | 0 <= i < |visits| :: visits[i].late <==> Stray(e) && e.c.top == i
    ensures Completes(e.nodes, visits, g)
  {
    hide Filled, Lined, Kids, Children, Finished, Stray;
    var f := e.nodes;
    forall k | 0 <= k < |f|
      ensures Filled(f[k], g[k], f[k], 0, true) && HoldsChildren(Children(f, visits, k), f[k], g[k])
    {
      assert Filled(f[k], g[k], f[k], 0, true) && Linked(Kids(f, k), f[k], g[k], 0);
      LinedToEnd(e, visits, k);
    }
  }

  /** Both passes agree: the second begins the same nodes at the same places, and fails only
      on a container too large for it; otherwise it fills every element, and every byte of
      every string and of every object's names that the first counted, never writes
      elsewhere, and each container holds its children in the order of the text: all nodes
      that have it as their parent, but for a string behind the finished text. */
  lemma PassesAgree(data: string)
    requires data != "" && Run(true, SkipMark(data), Start([])).Accept?
    ensures var text := SkipMark(data);
            var f, visits := Run(true, text, Start([])).nodes, Visits(true, text, Start([]));
            && Inv(false, text, Start(f)) && |visits| == |f|
            && (forall i | 0 <= i < |f| && visits[i].late :: f[i].kind == Str && f[i].parent >= 0)
            && if Roomy(f)
               then
                 Decoded(data).Accept? && Visits(false, text, Start(f)) == visits
                 && Completes(f, visits, Decoded(data).nodes)
               else Decoded(data) == Reject
  {
    hide Step, Roomy, Made, Grown, Follows, Completes;
    var text := SkipMark(data);
    StartInv(text, []);
    RunAccepts(true, text, Start([]));
    var f := Run(true, text, Start([])).nodes;
    GrowsToEnd(text, Start([]));
    assert Measured(f);
    SecondFollows(text, Start([]), Start(f), f);
    VisitsAre(text, Start([]));
    if Decoded(data).Accept? {
      MadeIsRoomy(f, Decoded(data).nodes);
      MadeHolds(Last(true, text, Start([])), Visits(true, text, Start([])), Decoded(data).nodes);
    }
  }
}
