/** White space and comments between the tokens of a text. */
module JsonGaps {
  import opened JsonText
  import opened JsonScan
  import opened JsonBuild

  // ---------------------------------------------------------------- gaps

  /** White space (section 2 of RFC 8259), a comment up to the end of the line, and one in
      slashes and stars. */
  datatype Gap = Blank(c: char) | Line(text: string, end: char) | Block(text: string)

  function GapText(g: Gap): string {
    match g
    case Blank(c) => [c]
    case Line(text, end) => "//" + text + [end]
    case Block(text) => "/*" + text + "*/"
  }

  function GapsText(gs: seq<Gap>): string { if gs == [] then "" else GapText(gs[0]) + GapsText(gs[1..]) }

  ghost predicate RightGap(g: Gap) {
    match g
    case Blank(c) => c as int == 0x20 || c as int == 0x09 || c as int == 0x0A || c as int == 0x0D
    case Line(text, end) => (forall i | 0 <= i < |text| :: text[i] !in "\r\n\0") && (end == '\r' || end == '\n')
    case Block(text) => OpenComment(text)
  }

  /** A comment in slashes and stars is not closed within `text`. */
  predicate OpenComment(text: string) {
    forall i | 0 <= i < |text| :: text[i] != '\0' && !(text[i] == '*' && CharAt(text, i + 1) == '/')
  }

  ghost predicate RightGaps(gs: seq<Gap>) { forall i | 0 <= i < |gs| :: RightGap(gs[i]) }

  /** Between two tokens. */
  predicate Between(s: Scan) {
    !s.c.str && !s.c.line && !s.c.block && (s.c.done || s.c.seek || TopIs(s, Object))
  }

  lemma ScanBlank(first: bool, data: string, s: Scan, c: char)
    requires Between(s) && RightGap(Blank(c)) && Spells(data, s.c.p, [c])
    ensures Reaches(first, data, s, Move(s, s.c.p + 1))
  {
    SpellsHere(data, s.c.p, [c]);
    hide Reaches, Spells;
    StepReaches(first, data, s, Move(s, s.c.p + 1)) by { BlankStep(first, data, s); }
  }

  lemma BlankStep(first: bool, data: string, s: Scan)
    requires Between(s) && 0 <= s.c.p < |data| && Space(data[s.c.p])
    ensures Step(first, data, s) == Go(Move(s, s.c.p + 1))
  {
    hide SlashStep, ValueStep, Attach;
  }

  lemma CommentBegins(first: bool, data: string, s: Scan, line: bool)
    requires Between(s) && 0 <= s.c.p && s.c.p + 1 < |data| && data[s.c.p] == '/'
    requires data[s.c.p + 1] == if line then '/' else '*'
    ensures Step(first, data, s) == Go(CommentAt(s, s.c.p + 2, line, !line))
  {
    hide DoneStep, SeekStep, NameStep, NewBare;
  }

  lemma {:induction false} LineRuns(first: bool, data: string, s: Scan, text: string)
    requires !s.c.str && s.c.line && Spells(data, s.c.p, text)
    requires forall i | 0 <= i < |text| :: text[i] !in "\r\n\0"
    ensures Reaches(first, data, s, Move(s, s.c.p + |text|))
    decreases |text|
  {
    hide Reaches, Spells;
    if text == "" {
      ReachesSelf(first, data, s);
      assert Move(s, s.c.p) == s;
    } else {
      assert text == [text[0]] + text[1..];
      SpellsSplit(data, s.c.p, [text[0]], text[1..]);
      SpellsHere(data, s.c.p, text);
      var t := Move(s, s.c.p + 1);
      StepReaches(first, data, s, t) by { LineMoves(first, data, s); }
      LineRuns(first, data, t, text[1..]);
      ReachesTrans(first, data, s, t, Move(s, s.c.p + |text|));
    }
  }

  lemma LineMoves(first: bool, data: string, s: Scan)
    requires !s.c.str && s.c.line && 0 <= s.c.p < |data| && data[s.c.p] !in "\r\n\0"
    ensures Step(first, data, s) == Go(Move(s, s.c.p + 1))
  {
  }

  lemma LineEnds(first: bool, data: string, s: Scan)
    requires !s.c.str && s.c.line && 0 <= s.c.p < |data| && (data[s.c.p] == '\n' || data[s.c.p] == '\r')
    ensures Step(first, data, s) == Go(s.(c := s.c.(line := false)))
  {
  }

  lemma ScanLine(first: bool, data: string, s: Scan, text: string, end: char)
    requires Between(s) && RightGap(Line(text, end)) && Spells(data, s.c.p, "//" + text + [end])
    ensures Reaches(first, data, s, Move(s, s.c.p + |text| + 3))
  {
    hide Reaches, Spells;
    var p := s.c.p;
    SpellsSplit(data, p, "//" + text, [end]);
    SpellsSplit(data, p, "//", text);
    SlashHere(data, p, "//");
    SpellsHere(data, p + 2 + |text|, [end]);
    var a := s.(c := s.c.(p := p + 2, line := true));
    var b := Move(a, p + 2 + |text|);
    var c := Move(s, p + 2 + |text|);
    StepReaches(first, data, s, a) by { CommentBegins(first, data, s, true); }
    LineRuns(first, data, a, text);
    ReachesTrans(first, data, s, a, b);
    StepReaches(first, data, b, c) by { LineEnds(first, data, b); }
    ReachesTrans(first, data, s, b, c);
    ScanBlank(first, data, c, end);
    ReachesTrans(first, data, s, c, Move(s, p + |text| + 3));
  }

  lemma SlashHere(data: string, p: int, word: string)
    requires Spells(data, p, word) && |word| == 2
    ensures 0 <= p && p + 1 < |data| && data[p] == word[0] && data[p + 1] == word[1]
  {
    SpellsAt(data, p, word, 0);
    SpellsAt(data, p, word, 1);
  }

  lemma {:induction false} BlockRuns(first: bool, data: string, s: Scan, text: string)
    requires !s.c.str && !s.c.line && s.c.block && Spells(data, s.c.p, text) && OpenComment(text)
    requires CharAt(data, s.c.p + |text|) != '/'
    ensures Reaches(first, data, s, Move(s, s.c.p + |text|))
    decreases |text|
  {
    hide Reaches, Spells;
    if text == "" {
      ReachesSelf(first, data, s);
      assert Move(s, s.c.p) == s;
    } else {
      var rest := text[1..];
      assert text == [text[0]] + rest;
      SpellsSplit(data, s.c.p, [text[0]], rest);
      SpellsHere(data, s.c.p, text);
      if rest != "" { SpellsHere(data, s.c.p + 1, rest); }
      var t := Move(s, s.c.p + 1);
      StepReaches(first, data, s, t) by { BlockMoves(first, data, s); }
      forall i | 0 <= i < |rest| ensures rest[i] != '\0' && !(rest[i] == '*' && CharAt(rest, i + 1) == '/') {
        assert rest[i] == text[i + 1] && CharAt(rest, i + 1) == CharAt(text, i + 2);
      }
      BlockRuns(first, data, t, rest);
      ReachesTrans(first, data, s, t, Move(s, s.c.p + |text|));
    }
  }

  lemma BlockEnds(first: bool, data: string, s: Scan)
    requires !s.c.str && !s.c.line && s.c.block
    requires 0 <= s.c.p && s.c.p + 1 < |data| && data[s.c.p] == '*' && data[s.c.p + 1] == '/'
    ensures Step(first, data, s) == Go(s.(c := s.c.(p := s.c.p + 2, block := false)))
  {
  }

  lemma BlockMoves(first: bool, data: string, s: Scan)
    requires !s.c.str && !s.c.line && s.c.block && 0 <= s.c.p < |data| && data[s.c.p] != '\0'
    requires !(data[s.c.p] == '*' && CharAt(data, s.c.p + 1) == '/')
    ensures Step(first, data, s) == Go(Move(s, s.c.p + 1))
  {
  }

  /** A comment in slashes and stars up to a place where it is still open. */
  lemma OpensBlock(first: bool, data: string, s: Scan, text: string) returns (t: Scan)
    requires Between(s) && OpenComment(text) && Spells(data, s.c.p, "/*" + text)
    requires CharAt(data, s.c.p + 2 + |text|) != '/'
    ensures Reaches(first, data, s, t) && t == s.(c := s.c.(p := s.c.p + 2 + |text|, block := true))
  {
    hide Reaches, Spells, Step;
    SpellsSplit(data, s.c.p, "/*", text);
    SlashHere(data, s.c.p, "/*");
    var a := s.(c := s.c.(p := s.c.p + 2, block := true));
    CommentBegins(first, data, s, false);
    StepReaches(first, data, s, a);
    BlockRuns(first, data, a, text);
    t := Move(a, a.c.p + |text|);
    ReachesTrans(first, data, s, a, t);
  }

  lemma ScanBlock(first: bool, data: string, s: Scan, text: string)
    requires Between(s) && RightGap(Block(text)) && Spells(data, s.c.p, "/*" + text + "*/")
    ensures Reaches(first, data, s, Move(s, s.c.p + |text| + 4))
  {
    hide Reaches, Spells, Step;
    SpellsSplit(data, s.c.p, "/*" + text, "*/");
    SlashHere(data, s.c.p + 2 + |text|, "*/");
    var t := OpensBlock(first, data, s, text);
    var u := Move(s, s.c.p + |text| + 4);
    BlockEnds(first, data, t);
    StepReaches(first, data, t, u);
    ReachesTrans(first, data, s, t, u);
  }

  lemma ScanGap(first: bool, data: string, s: Scan, g: Gap)
    requires Between(s) && RightGap(g) && Spells(data, s.c.p, GapText(g))
    ensures Reaches(first, data, s, Move(s, s.c.p + |GapText(g)|))
  {
    hide Reaches, Spells;
    match g
    case Blank(c) => ScanBlank(first, data, s, c);
    case Line(text, end) => ScanLine(first, data, s, text, end);
    case Block(text) => ScanBlock(first, data, s, text);
  }

  /** White space and comments only move on. */
  lemma {:induction false} ScanGaps(first: bool, data: string, s: Scan, gs: seq<Gap>)
    requires Between(s) && RightGaps(gs) && Spells(data, s.c.p, GapsText(gs))
    ensures Reaches(first, data, s, Move(s, s.c.p + |GapsText(gs)|))
    decreases |gs|
  {
    hide Reaches, Spells, RightGap, GapText;
    if gs == [] {
      ReachesSelf(first, data, s);
      assert Move(s, s.c.p) == s;
    } else {
      SpellsSplit(data, s.c.p, GapText(gs[0]), GapsText(gs[1..]));
      ScanGap(first, data, s, gs[0]);
      var t := Move(s, s.c.p + |GapText(gs[0])|);
      ScanGaps(first, data, t, gs[1..]);
      ReachesTrans(first, data, s, t, Move(s, s.c.p + |GapsText(gs)|));
    }
  }
}
