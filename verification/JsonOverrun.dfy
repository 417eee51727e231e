/** When the decoder leaves the text.  The branch for `null` looks at three bytes behind an
    `n` but is content with two; at the end of the text it steps over the end, which the loop
    then never meets again. */
module JsonOverrun {
  import opened JsonText
  import opened JsonScan
  import opened JsonPasses
  import opened JsonAgree
  import opened JsonGrowth

  /** The last three bytes of a text: an `n`, then anything but `u`, then anything but `l`. */
  predicate Bait(text: string) {
    |text| >= 3 && text[|text| - 3] == 'n' && text[|text| - 2] != 'u' && text[|text| - 1] != 'l'
  }

  /** A value is sought at those bytes, and its container is not full. */
  predicate Bitten(text: string, s: Scan) {
    && Bait(text) && s.c.p == |text| - 3
    && !s.c.str && !s.c.line && !s.c.block && !s.c.done && s.c.seek && !s.c.comma && !s.c.colon
    && (HasTop(s) ==> s.nodes[s.c.top].size < MAX_SIZE)
  }

  // ---------------------------------------------------------------- the parts of a step

  /** The first pass refuses a value only if its container is full. */
  lemma AttachStays(s: Scan)
    requires HasTop(s) && Family(s.nodes)
    ensures var (k, o) := (s.nodes[s.c.top].parent, Attach(true, s));
      if 0 <= k < |s.nodes| && s.nodes[k].size >= MAX_SIZE then o == Reject else o.Go? && o.s.c.p == s.c.p
  {
    ParentOf(s.nodes, s.c.top);
    hide Family;
  }

  /** A step of the first pass stays within a text of `n` bytes. */
  predicate Within(o: Outcome, n: nat) {
    match o
    case Go(t) => t.c.p <= n
    case Fault => false
    case _ => true
  }

  lemma StringStays(text: string, s: Scan)
    requires Inv(true, text, s) && s.c.p <= |text| && s.c.str && HasTop(s)
    ensures Within(StringStep(true, text, s), |text|)
  {
    hide Family, Attach, Escaped;
    var b, p := CharAt(text, s.c.p), s.c.p;
    if b != '\0' && s.c.esc {
      if Escaped(text, p).Escape? { EscapeInside(text, p); }
    } else {
      EndStays(text, s.(c := s.c.(str := false, p := p + 1)), b);
      EndStays(text, s.(c := s.c.(str := false, quote := false)), b);
    }
  }

  lemma EndStays(text: string, s: Scan, b: char)
    requires HasTop(s) && Family(s.nodes)
    ensures s.c.p <= |text| ==> Within(StringEnd(true, s, b), |text|)
  {
    hide Family, Attach;
    if !TopIs(s, Object) {
      EndStrKeeps(true, s);
      AttachStays(EndStr(true, s).s);
    }
  }

  lemma AtomStays(s: Scan, kind: Kind, bval: bool, p: int)
    requires Family(s.nodes) && -1 <= s.c.top < |s.nodes| && (s.c.top == -1 || InContainer(s))
    ensures var o := Atom(true, s.(c := s.c.(seek := false)), kind, bval, p);
      if HasTop(s) && s.nodes[s.c.top].size >= MAX_SIZE then o == Reject else o.Go? && o.s.c.p == p
  {
    hide Atom, Attach, Family;
    var u := WithLeaf(s, kind, bval, p);
    AtomIs(s, kind, bval, p);
    LeafFamily(s, kind, bval, p);
    AttachStays(u);
    assert u.nodes[u.c.top].parent == s.c.top && (HasTop(s) ==> u.nodes[s.c.top] == s.nodes[s.c.top]);
  }

  lemma StartStays(text: string, s: Scan, b: char)
    ensures NumberStart(true, text, s, b).Go?
    ensures NumberStart(true, text, s, b).s.c.p == if b == '-' then s.c.p + 1 else s.c.p
  {
  }

  lemma ValueStays(text: string, s: Scan)
    requires Inv(true, text, s) && s.c.p <= |text| && !s.c.str && !s.c.line && !s.c.block && !s.c.done && s.c.seek
    requires !s.c.comma && !s.c.colon
    ensures var o := ValueStep(true, text, s.(c := s.c.(seek := false)), CharAt(text, s.c.p));
      if Bitten(text, s) then o.Go? && o.s.c.p == |text| + 1 else Within(o, |text|)
  {
    hide Family, Atom, NumberStart, NewBare;
    var p, u := s.c.p, s.(c := s.c.(seek := false));
    BareStays(u);
    StartStays(text, u, CharAt(text, p));
    AtomStays(s, Boolean, true, p + 4);
    AtomStays(s, Boolean, false, p + 5);
    AtomStays(s, Null, false, p + 4);
    if |text| - p >= 3 && Reads(text, p + 1, "rue") { assert CharAt(text, p + 1 + 2) == "rue"[2]; }
    if |text| - p >= 4 && Reads(text, p + 1, "alse") { assert CharAt(text, p + 1 + 3) == "alse"[3]; }
  }

  lemma SeekStays(text: string, s: Scan)
    requires Inv(true, text, s) && s.c.p <= |text| && !s.c.str && !s.c.line && !s.c.block && !s.c.done && s.c.seek
    ensures if Bitten(text, s) then SeekStep(true, text, s).Go? && SeekStep(true, text, s).s.c.p == |text| + 1
            else Within(SeekStep(true, text, s), |text|)
  {
    hide Family, Attach, ValueStep;
    if CharAt(text, s.c.p) == ']' {
      if TopIs(s, Array) { AttachStays(s.(c := s.c.(comma := false, seek := false, p := s.c.p + 1))); }
    } else if !s.c.comma && !s.c.colon {
      ValueStays(text, s);
    }
  }

  lemma NumberStays(text: string, s: Scan)
    requires Inv(true, text, s) && s.c.p <= |text| && InNumber(s)
    ensures Within(NumberStep(text, s), |text|)
  {
    hide Family, Attach;
    AttachStays(s);
  }

  lemma CommentStays(text: string, s: Scan)
    requires 0 <= s.c.p <= |text|
    ensures Within(CommentStep(text, s), |text|)
  {
    hide CommentAt;
  }

  lemma DoneStays(text: string, s: Scan)
    requires 0 <= s.c.p <= |text|
    ensures Within(DoneStep(text, s), |text|)
  {
  }

  lemma SlashStays(text: string, s: Scan)
    requires 0 <= s.c.p <= |text| && CharAt(text, s.c.p) == '/'
    ensures Within(SlashStep(true, text, s), |text|)
  {
    hide CommentAt, NewBare, InContainer, TopIs;
    BareStays(s.(c := s.c.(seek := false)));
  }

  lemma BareStays(s: Scan)
    ensures NewBare(true, s).Go? && NewBare(true, s).s.c.p == s.c.p
  {
  }

  lemma NameStays(text: string, s: Scan)
    requires Inv(true, text, s) && s.c.p <= |text| && TopIs(s, Object)
    ensures Within(NameStep(true, text, s), |text|)
  {
    hide Family, Attach;
    AttachStays(s.(c := s.c.(comma := false, p := s.c.p + 1)));
  }

  // ---------------------------------------------------------------- a step, a pass, the decoder

  lemma StepStays(text: string, s: Scan)
    requires Inv(true, text, s) && s.c.p <= |text|
    ensures if Bitten(text, s) then Step(true, text, s).Go? && Step(true, text, s).s.c.p == |text| + 1
            else Within(Step(true, text, s), |text|)
  {
    hide Family, StringStep, CommentStep, SlashStep, SeekStep, NameStep, NumberStep, DoneStep, Within;
    if s.c.str {
      StringStays(text, s);
    } else if s.c.line || s.c.block {
      CommentStays(text, s);
    } else if CharAt(text, s.c.p) == '/' {
      SlashStays(text, s);
    } else if s.c.done {
      DoneStays(text, s);
    } else if s.c.seek {
      SeekStays(text, s);
    } else if TopIs(s, Object) {
      NameStays(text, s);
    } else {
      NumberStays(text, s);
    }
  }

  /** On its way from `s` the first pass seeks a value at the bait. */
  ghost predicate Bites(text: string, s: Scan)
    requires Inv(true, text, s)
    decreases |text| + 1 - Base(true, s), Rank(true, text, s), |text| + 1 - s.c.p
  {
    Bitten(text, s)
    || match Step(true, text, s)
       case Go(t) => StepShrinks(true, text, s); Bites(text, t)
       case _ => false
  }

  lemma {:induction false} RunStays(text: string, s: Scan)
    requires Inv(true, text, s) && s.c.p <= |text|
    ensures Run(true, text, s) == Fault <==> Bites(text, s)
    decreases |text| + 1 - Base(true, s), Rank(true, text, s), |text| + 1 - s.c.p
  {
    hide Step, Bitten, Inv1, Shrinks;
    StepStays(text, s);
    match Step(true, text, s)
    case Go(t) =>
      StepShrinks(true, text, s);
      ShrinksTo(true, text, s, t);
      if Bitten(text, s) {
        PastTheEnd(text, t);
      } else {
        RunStays(text, t);
      }
    case _ =>
  }

  lemma PastTheEnd(text: string, s: Scan)
    requires Inv(true, text, s) && s.c.p == |text| + 1
    ensures Run(true, text, s) == Fault
  {
  }

  /** The decoder leaves the text exactly if, in its first pass, it seeks a value at the bait;
      on a text without the bait neither pass leaves it. */
  lemma LeavesText(data: string)
    requires data != ""
    ensures var text := SkipMark(data);
      && Inv(true, text, Start([]))
      && (Decoded(data) == Fault <==> Bites(text, Start([])))
      && (Decoded(data) == Fault ==> Bait(text))
  {
    var text := SkipMark(data);
    hide Step, Bitten, Inv1;
    StartInv(text, []);
    RunStays(text, Start([]));
    if Bites(text, Start([])) { BitesBait(text, Start([])); }
    if Run(true, text, Start([])).Accept? { PassesAgree(data); }
  }

  lemma {:induction false} BitesBait(text: string, s: Scan)
    requires Inv(true, text, s) && Bites(text, s)
    ensures Bait(text)
    decreases |text| + 1 - Base(true, s), Rank(true, text, s), |text| + 1 - s.c.p
  {
    hide Step, Shrinks, Inv1;
    if !Bitten(text, s) {
      var t := Step(true, text, s).s;
      StepShrinks(true, text, s);
      ShrinksTo(true, text, s, t);
      BitesBait(text, t);
    }
  }

  /** Inputs: the bait alone is enough. */
  lemma BaitAlone(data: string)
    requires |data| == 3 && Bait(data)
    ensures Decoded(data) == Fault
  {
    StartInv(data, []);
    assert Bitten(data, Start([]));
    LeavesText(data);
  }

  lemma Nab()
    ensures Decoded("nab") == Fault
  {
    BaitAlone("nab");
  }
}
