/** Strings and names without quotes. */
module JsonWords {
  import opened JsonText
  import opened JsonScan
  import opened JsonPasses
  import opened JsonBuild
  import opened JsonTwins

  /** A string that needs no quotes: it does not begin like another value. */
  predicate RightWord(w: string) {
    && w != "" && |w| <= MAX_SIZE && (forall i | 0 <= i < |w| :: Loose(w[i]))
    && w[0] !in "{[/-" && !Digit(w[0]) && !("true" <= w) && !("false" <= w)
    && (w[0] == 'n' ==> (|w| > 1 && w[1] == 'u') || (|w| > 2 && w[2] == 'l') || (|w| > 3 && w[3] == 'l'))
  }

  /** A name that needs none. */
  predicate RightName(w: string) {
    w != "" && |w| <= MAX_SIZE && w[0] != '/' && forall i | 0 <= i < |w| :: Loose(w[i]) && w[i] != ':'
  }

  // ---------------------------------------------------------------- strings

  lemma ReadsKeyword(data: string, p: int, w: string, word: string)
    requires Spells(data, p, w) && w != "" && word != "" && w[0] == word[0] && Reads(data, p + 1, word[1..])
    ensures word <= w || CharAt(data, p + |w|) in word
  {
    forall i | 0 <= i < |w| && i < |word| ensures w[i] == word[i] {
      SpellsAt(data, p, w, i);
      if i > 0 { assert CharAt(data, p + 1 + (i - 1)) == word[1..][i - 1]; }
    }
    if |w| < |word| {
      assert CharAt(data, p + 1 + (|w| - 1)) == word[1..][|w| - 1] == word[|w|];
    } else {
      assert w[..|word|] == word;
    }
  }

  lemma WordBegins(first: bool, data: string, s: Scan, w: string)
    requires AtValue(first, s) && InContainer(s) && RightWord(w) && Spells(data, s.c.p, w)
    requires CharAt(data, s.c.p + |w|) !in "truefals" && New(first, s.(c := s.c.(seek := false)), Str).Go?
    ensures Step(first, data, s) == Go(Bare(New(first, s.(c := s.c.(seek := false)), Str).s))
  {
    SpellsHere(data, s.c.p, w);
    var p := s.c.p;
    assert "true"[1..] == "rue" && "false"[1..] == "alse";
    if w[0] == 't' && Reads(data, p + 1, "rue") { ReadsKeyword(data, p, w, "true"); }
    if w[0] == 'f' && Reads(data, p + 1, "alse") { ReadsKeyword(data, p, w, "false"); }
    if w[0] == 'n' {
      if |w| > 1 { SpellsAt(data, s.c.p, w, 1); }
      if |w| > 2 { SpellsAt(data, s.c.p, w, 2); }
      if |w| > 3 { SpellsAt(data, s.c.p, w, 3); }
    }
    assert Loose(w[0]) && w[0] !in "{[/-" && !Digit(w[0]);
    hide Spells, Reads, Family, Attach, New, Atom, NumberStart, Loose;
    WordStep(first, data, s);
  }

  lemma WordStep(first: bool, data: string, s: Scan)
    requires AtValue(first, s) && InContainer(s) && 0 <= s.c.p < |data|
    requires New(first, s.(c := s.c.(seek := false)), Str).Go?
    requires var b := data[s.c.p]; b !in " \t\r\n\",]}{[/-" && !Digit(b)
    requires data[s.c.p] == 't' ==> !Reads(data, s.c.p + 1, "rue")
    requires data[s.c.p] == 'f' ==> !Reads(data, s.c.p + 1, "alse")
    requires var p := s.c.p;
      data[p] == 'n' ==> CharAt(data, p + 1) == 'u' || CharAt(data, p + 2) == 'l' || CharAt(data, p + 3) == 'l'
    ensures Step(first, data, s) == Go(Bare(New(first, s.(c := s.c.(seek := false)), Str).s))
  {
    hide Reads, Family, Attach, New, Atom, NumberStart;
  }

  lemma NoLetter(c: char, last: bool)
    requires Closes(c, last)
    ensures c !in "truefals"
  {
  }

  lemma ScanBareWord(first: bool, data: string, s: Scan, w: string, last: bool)
    requires AtValue(first, s) && InContainer(s) && RightWord(w) && Spells(data, s.c.p, w)
    requires Closes(CharAt(data, s.c.p + |w|), last) && BuildBare(first, s, w).Go?
    ensures var t := BuildBare(first, s, w).s; Reaches(first, data, s, t) && Over(first, s, t, |w|)
  {
    hide Family, Reaches, New, Attach, FinishStr, Step, Spells, Closes, CharAt;
    var v := s.(c := s.c.(seek := false));
    NewKeeps(first, v, Str);
    var t1 := Bare(New(first, v, Str).s);
    NoLetter(CharAt(data, s.c.p + |w|), last);
    WordBegins(first, data, s, w);
    StepReaches(first, data, s, t1);
    FinishKeeps(first, t1, w, |w|);
    ScanBare(first, data, t1, w, last);
    ReachesTrans(first, data, s, t1, BuildBare(first, s, w).s);
  }

  lemma WordAlike(first: bool, a: Scan, b: Scan, text: string, m: nat)
    requires SameBut(a, b)
    ensures Alike(BuildStr(first, a, text, m), BuildBare(first, b, text))
  {
    hide New, FinishStr, SameNodes;
    var u, v := a.(c := a.c.(p := a.c.p + 1, seek := false)), b.(c := b.c.(seek := false));
    NewAlike(first, u, v, Str);
    if New(first, u, Str).Go? {
      var x, y := New(first, u, Str).s, New(first, v, Str).s;
      TopTwins(x, y);
      if TopIs(x, Str) {
        QuoteForgotten(first, x.(c := x.c.(str := true, len := 0)), text, m + 1);
        BareSame(x, y);
        FinishAlike(first, Bare(x), Bare(y), text, m + 1, |text|);
      }
    }
  }

  // ---------------------------------------------------------------- names

  /** A name without quotes that ends `skip` characters on. */
  function ReadBare(first: bool, s: Scan, name: string, skip: nat): Outcome {
    if !HasTop(s) then Fault
    else
      match Put(first, Bare(s), name)
      case Go(t) =>
        if !HasTop(t) then Fault else EndName(first, t.(c := t.c.(str := false, quote := false, p := s.c.p + skip)))
      case o => o
  }

  lemma ReadBareIs(first: bool, s: Scan, name: string, m: nat)
    requires !s.c.quote
    ensures ReadBare(first, s, name, m + 2) == ReadName(first, s, name, m)
  {
    hide Put, EndName, Bare;
    if HasTop(s) {
      BareTop(s);
      PutBare(first, s, name);
    }
  }

  lemma BareTop(s: Scan)
    ensures HasTop(Bare(s)) <==> HasTop(s)
  {
  }

  lemma PutBare(first: bool, s: Scan, name: string)
    requires HasTop(s) && HasTop(Bare(s)) && !s.c.quote
    ensures var o, q := Put(first, s.(c := s.c.(str := true, len := 0)), name), Put(first, Bare(s), name);
      (o.Go? <==> q.Go?) && if o.Go? then q.s == o.s.(c := o.s.c.(quote := true)) && !o.s.c.quote else o == q
  {
    hide Put, PutNode;
    var t := s.(c := s.c.(str := true, len := 0));
    PutQuoted(first, t, name);
    if Put(first, t, name).Go? {
      PutIs(first, t, name);
      PutIs(first, Bare(s), name);
    }
  }

  lemma BareNameAlike(first: bool, a: Scan, b: Scan, name: string, m: nat, n: nat)
    requires SameBut(a, b)
    ensures Alike(ReadBare(first, a, name, m), ReadBare(first, b, name, n))
  {
    hide Put, EndName, SameNodes, Bare;
    TopTwins(a, b);
    if HasTop(a) {
      BareSame(a, b);
      PutAlike(first, Bare(a), Bare(b), name);
      if Put(first, Bare(a), name).Go? {
        var x, y := Put(first, Bare(a), name).s, Put(first, Bare(b), name).s;
        TopTwins(x, y);
        if HasTop(x) {
          EndNameAlike(first, x.(c := x.c.(str := false, quote := false, p := a.c.p + m)),
                       y.(c := y.c.(str := false, quote := false, p := b.c.p + n)));
        }
      }
    }
  }

  lemma ScanBareName(first: bool, data: string, s: Scan, w: string)
    requires AtName(first, s) && RightName(w) && Spells(data, s.c.p, w) && ReadBare(first, s, w, |w|).Go?
    requires var c := CharAt(data, s.c.p + |w|); Space(c) || c == ':'
    ensures var t := ReadBare(first, s, w, |w|).s;
      && Reaches(first, data, s, t) && AtColon(first, t)
      && t.c == s.c.(p := s.c.p + |w|, seek := true, colon := true, len := |w|)
  {
    hide Family, Reaches, Put, EndName, Spells, Step;
    var b := Bare(s);
    SpellsHere(data, s.c.p, w);
    BareNameBegins(first, data, s);
    StepReaches(first, data, s, b);
    ScanLoose(first, data, b, w);
    PutKeepsQuoted(first, b, w);
    PutKeeps(first, b, w);
    var u := Move(Put(first, b, w).s, s.c.p + |w|);
    ReachesTrans(first, data, s, b, u);
    var x := u.(c := u.c.(str := false, quote := false));
    assert x == Put(first, b, w).s.(c := x.c);
    EndNameKeeps(first, x);
    BareNameEnds(first, data, u);
    StepReaches(first, data, u, EndName(first, x).s);
    ReachesTrans(first, data, s, u, EndName(first, x).s);
  }

  lemma BareNameBegins(first: bool, data: string, s: Scan)
    requires AtName(first, s) && 0 <= s.c.p < |data| && data[s.c.p] !in " \t\r\n\",}/"
    ensures Step(first, data, s) == Go(Bare(s))
  {
    hide Family, Attach;
  }

  lemma BareNameEnds(first: bool, data: string, u: Scan)
    requires Unquoted(u) && TopIs(u, Object) && u.c.len <= MAX_SIZE && 0 <= u.c.p < |data|
    requires Space(data[u.c.p]) || data[u.c.p] == ':'
    ensures Step(first, data, u) == EndName(first, u.(c := u.c.(str := false, quote := false)))
  {
    hide EndName;
  }
}
