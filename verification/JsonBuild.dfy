/** Reading a printed value: what a pass of the decoder does on the printed form of a
    value, told by recursion on the value instead of step by step on the text. */
module JsonBuild {
  import opened JsonText
  import opened JsonMembers
  import opened JsonValue
  import opened JsonScan
  import opened JsonPasses
  import opened JsonSpelling

  function Abs(n: int): nat { if n < 0 then -n else n }

  // ---------------------------------------------------------------- the recursive form

  /** A string in quotes that begins at the current place, spelled in `width` characters. */
  function BuildStr(first: bool, s: Scan, text: string, width: nat): Outcome {
    match New(first, s.(c := s.c.(p := s.c.p + 1, seek := false)), Str)
    case Go(t) => if TopIs(t, Str)
      then FinishStr(first, t.(c := t.c.(str := true, len := 0)), text, width + 1) else Fault
    case o => o
  }

  /** The bytes of a string, and its end `skip` characters on. */
  function FinishStr(first: bool, s: Scan, text: string, skip: nat): Outcome
    requires HasTop(s)
  {
    match Put(first, s, text)
    case Go(t) =>
      if !HasTop(t) then Fault
      else
        (match EndStr(first, t.(c := t.c.(str := false, quote := false, p := s.c.p + skip)))
         case Go(u) => if HasTop(u) then Attach(first, u) else Fault
         case o => o)
    case o => o
  }

  /** A string without quotes. */
  function BuildBare(first: bool, s: Scan, text: string): Outcome {
    match New(first, s.(c := s.c.(seek := false)), Str)
    case Go(t) => if TopIs(t, Str) then FinishStr(first, Bare(t), text, |text|) else Fault
    case o => o
  }

  /** A number; the last one of its container is read again as a string. */
  function BuildInt(first: bool, s: Scan, n: int, last: bool): Outcome {
    var text := Decimal(n);
    match New(first, s.(c := s.c.(seek := false)), Integer)
    case Go(t) =>
      if !HasTop(t) then Fault
      else if first then
        var node := t.nodes[t.c.top].(ival := Abs(n));
        var num := Num(s.c.p, |Digits(Abs(n))|, n == 0, false, false);
        if last then FinishStr(first, Bare(SetTop(t, node.(kind := Str))).(num := num), text, |text|)
        else Attach(first, SetTop(Move(t, s.c.p + |text|), node).(num := num))
      else if last then if TopIs(t, Str) then FinishStr(first, Bare(t), text, |text|) else Fault
      else if TopIs(t, Str) then Fault else Attach(first, Move(t, s.c.p + |text|))
    case o => o
  }

  function Build(first: bool, s: Scan, v: Value, last: bool): Outcome
    decreases v, 0
  {
    match v
    case Text(text) => BuildStr(first, s, text, |Quote(text)|)
    case Nil => BuildBare(first, s, "null")
    case Gone => BuildBare(first, s, "null")
    case Int(n) => BuildInt(first, s, n, last)
    case Bool(b) => Atom(first, s.(c := s.c.(seek := false)), Boolean, b, s.c.p + |Print(v)|)
    case Arr(items) =>
      (match New(first, s.(c := s.c.(seek := false, p := s.c.p + 1)), Array)
       case Go(t) => if TopIs(t, Array) then CloseArray(first, BuildItems(first, t.(c := t.c.(seek := true)), items))
         else Fault
       case o => o)
    case Obj(members) =>
      (match New(first, s.(c := s.c.(seek := false, p := s.c.p + 1)), Object)
       case Go(t) => if TopIs(t, Object) then CloseObject(first, BuildMembers(first, t, members)) else Fault
       case o => o)
  }

  function CloseArray(first: bool, o: Outcome): Outcome {
    match o
    case Go(t) => if TopIs(t, Array) then Attach(first, t.(c := t.c.(comma := false, seek := false, p := t.c.p + 1)))
      else Fault
    case _ => o
  }

  function CloseObject(first: bool, o: Outcome): Outcome {
    match o
    case Go(t) => if TopIs(t, Object) then Attach(first, t.(c := t.c.(comma := false, p := t.c.p + 1))) else Fault
    case _ => o
  }

  /** Steps over a comma. */
  function Comma(s: Scan): Scan { s.(c := s.c.(comma := false, p := s.c.p + 1)) }

  function BuildItems(first: bool, s: Scan, items: seq<Value>): Outcome
    decreases items, 1
  {
    if items == [] then Go(s)
    else
      match Build(first, s, items[0], |items| == 1)
      case Go(t) =>
        if !(t.c.top == s.c.top && TopIs(t, Array) && !t.c.done) then Fault
        else if |items| == 1 then Go(t) else BuildItems(first, Comma(t), items[1..])
      case o => o
  }

  /** A name in quotes. */
  function ReadName(first: bool, s: Scan, name: string, width: nat): Outcome {
    if !HasTop(s) then Fault
    else
      match Put(first, s.(c := s.c.(str := true, len := 0)), name)
      case Go(t) =>
        if !HasTop(t) then Fault else EndName(first, t.(c := t.c.(str := false, p := s.c.p + width + 2)))
      case o => o
  }

  /** Steps over a colon. */
  function Colon(s: Scan): Scan { s.(c := s.c.(colon := false, p := s.c.p + 1)) }

  /** A name in quotes and its colon. */
  function BuildName(first: bool, s: Scan, name: string, width: nat): Outcome {
    match ReadName(first, s, name, width)
    case Go(t) => Go(Colon(t))
    case o => o
  }

  function BuildMembers(first: bool, s: Scan, members: seq<Member<Value>>): Outcome
    decreases members, 1
  {
    if members == [] then Go(s)
    else
      match BuildName(first, s, members[0].name, |Quote(members[0].name)|)
      case Go(t) =>
        (match Build(first, t, members[0].value, |members| == 1)
         case Go(u) =>
           if !(u.c.top == s.c.top && TopIs(u, Object) && !u.c.done) then Fault
           else if |members| == 1 then Go(u) else BuildMembers(first, Comma(u), members[1..])
         case o => o)
      case o => o
  }

  // ---------------------------------------------------------------- steps on a text

  /** The pass goes from `s` to `t`. */
  ghost predicate Reaches(first: bool, data: string, s: Scan, t: Scan) {
    Inv(first, data, s) ==> Inv(first, data, t) && Run(first, data, s) == Run(first, data, t)
  }

  lemma StepReaches(first: bool, data: string, s: Scan, t: Scan)
    requires Step(first, data, s) == Go(t)
    ensures Reaches(first, data, s, t)
  {
    if Inv(first, data, s) { StepShrinks(first, data, s); }
  }

  lemma ReachesSelf(first: bool, data: string, s: Scan)
    ensures Reaches(first, data, s, s)
  {
  }

  lemma ReachesTrans(first: bool, data: string, s: Scan, t: Scan, u: Scan)
    requires Reaches(first, data, s, t) && Reaches(first, data, t, u)
    ensures Reaches(first, data, s, u)
  {
  }

  // ---------------------------------------------------------------- strings

  /** Inside a string in quotes. */
  ghost predicate Quoted(s: Scan) { HasTop(s) && s.c.str && !s.c.esc && !s.c.quote }

  lemma PutPut(first: bool, s: Scan, a: string, b: string)
    requires HasTop(s) && Put(first, s, a + b).Go?
    ensures Put(first, s, a).Go? && HasTop(Put(first, s, a).s)
    ensures Put(first, Put(first, s, a).s, b) == Put(first, s, a + b)
  {
    if !first {
      var n := s.nodes[s.c.top];
      var at := if n.kind == Object then n.used + s.c.len else s.c.len;
      var buffer := if n.kind == Object then n.area else n.text;
      OverwriteTwice(buffer, at, a, b);
    }
  }

  lemma OverwriteTwice(buffer: string, at: nat, a: string, b: string)
    requires at + |a| + |b| <= |buffer|
    ensures Overwrite(Overwrite(buffer, at, a), at + |a|, b) == Overwrite(buffer, at, a + b)
  {
  }

  lemma PutGoes(first: bool, s: Scan, p: int, text: string)
    requires HasTop(s)
    ensures Put(first, Move(s, p), text).Go? == Put(first, s, text).Go?
  {
  }

  lemma PutMoved(first: bool, s: Scan, p: int, text: string)
    requires HasTop(s)
    ensures Put(first, Move(s, p), text).Go? == Put(first, s, text).Go?
    ensures Put(first, s, text).Go? ==> Put(first, Move(s, p), text).s == Move(Put(first, s, text).s, p)
    ensures Put(first, s, text).Go? ==> HasTop(Put(first, s, text).s)
  {
    PutGoes(first, s, p, text);
    hide Put, PutNode;
    if Put(first, s, text).Go? {
      PutIs(first, s, text);
      PutIs(first, Move(s, p), text);
    }
  }

  /** One piece of a string is read. */
  lemma ScanPiece(first: bool, data: string, s: Scan, q: Piece)
    requires Quoted(s) && s.c.len <= MAX_SIZE && Right(q) && Spells(data, s.c.p, q.text) && Put(first, s, q.bytes).Go?
    ensures Reaches(first, data, s, Move(Put(first, s, q.bytes).s, s.c.p + |q.text|))
  {
    hide Reaches, Put, Quoted, Short, Long, Halves, Spells;
    if Raw(q) {
      ScanRaw(first, data, s, q);
    } else {
      PieceEscape(data, s.c.p, q);
      ScanEscaped(first, data, s, q);
    }
  }

  lemma ScanRaw(first: bool, data: string, s: Scan, q: Piece)
    requires Quoted(s) && s.c.len <= MAX_SIZE && Raw(q) && Spells(data, s.c.p, q.text) && Put(first, s, q.bytes).Go?
    ensures Reaches(first, data, s, Move(Put(first, s, q.bytes).s, s.c.p + 1))
  {
    hide Reaches, Put;
    var b := q.text[0];
    assert q.text == [b] == q.bytes;
    SpellsAt(data, s.c.p, q.text, 0);
    PutMoved(first, s, s.c.p + 1, [b]);
    StepReaches(first, data, s, Move(Put(first, s, [b]).s, s.c.p + 1)) by { PlainChar(first, data, s, b); }
  }

  /** What the decoder takes an escape for is what it stands for. */
  lemma PieceEscape(data: string, p: int, q: Piece)
    requires Right(q) && !Raw(q) && Spells(data, p, q.text)
    ensures 0 <= p && p + 1 < |data| && data[p] == '\\' && data[p + 1] != '\0'
    ensures Escaped(data, p + 1) == Escape(p + |q.text| - 1, q.bytes)
  {
    if Short(q) {
      SpellsAt(data, p, q.text, 0);
      SpellsAt(data, p, q.text, 1);
      assert q.bytes == [q.bytes[0]];
    } else if u :| Long(q, u) && !(0xD800 <= u < 0xE000) {
      hide HexWord, CodePoint;
      LongIs(data, p, q, u);
    } else {
      var high, low :| Halves(q.text, high, low) && high / 64 % 2 == 0 && CodePoint(q.bytes) == Beyond(high, low);
      HalvesAre(data, p, q.text, high, low);
      PlaneOf(high, low);
      hide HexWord, CodePoint, Utf8, Escaped;
      OnlyUtf8(q.bytes);
    }
  }

  lemma ScanEscaped(first: bool, data: string, s: Scan, q: Piece)
    requires Quoted(s) && s.c.len <= MAX_SIZE && Spells(data, s.c.p, q.text) && Put(first, s, q.bytes).Go?
    requires 0 <= s.c.p && s.c.p + 1 < |data| && data[s.c.p] == '\\' && data[s.c.p + 1] != '\0'
    requires Escaped(data, s.c.p + 1) == Escape(s.c.p + |q.text| - 1, q.bytes)
    ensures Reaches(first, data, s, Move(Put(first, s, q.bytes).s, s.c.p + |q.text|))
  {
    hide Reaches, Put, Spells, Step, Escaped;
    var p := s.c.p;
    var t := Move(Put(first, s, q.bytes).s, p + |q.text|);
    PutMoved(first, s, p + |q.text|, q.bytes);
    var e := s.(c := s.c.(esc := true, p := p + 1));
    EscapeBegins(first, data, s);
    StepReaches(first, data, s, e);
    EscapeEnds(first, data, e, q.bytes, p + |q.text| - 1);
    StepReaches(first, data, e, t);
    ReachesTrans(first, data, s, e, t);
  }

  lemma EscapeBegins(first: bool, data: string, s: Scan)
    requires Quoted(s) && s.c.len <= MAX_SIZE && 0 <= s.c.p < |data| && data[s.c.p] == '\\'
    ensures Step(first, data, s) == Go(s.(c := s.c.(esc := true, p := s.c.p + 1)))
  {
  }

  lemma EscapeEnds(first: bool, data: string, e: Scan, text: string, end: int)
    requires HasTop(e) && e.c.str && e.c.esc && e.c.len <= MAX_SIZE && 0 <= e.c.p < |data| && data[e.c.p] != '\0'
    requires Escaped(data, e.c.p) == Escape(end, text)
    ensures Step(first, data, e) == Put(first, e.(c := e.c.(esc := false, p := end + 1)), text)
  {
    hide Put, Escaped;
  }

  lemma PlainChar(first: bool, data: string, s: Scan, b: char)
    requires Quoted(s) && s.c.len <= MAX_SIZE && 0 <= s.c.p < |data| && data[s.c.p] == b && b !in "\"\\\0"
    ensures Step(first, data, s) == Put(first, Move(s, s.c.p + 1), [b])
  {
    hide Put;
  }

  ghost predicate AllRight(ps: seq<Piece>) { forall i | 0 <= i < |ps| :: Right(ps[i]) }

  /** The pieces of a string are read one by one. */
  lemma {:induction false} ScanPieces(first: bool, data: string, s: Scan, ps: seq<Piece>)
    requires Quoted(s) && s.c.len + |Bytes(ps)| <= MAX_SIZE && Spells(data, s.c.p, Texts(ps))
    requires Put(first, s, Bytes(ps)).Go? && AllRight(ps)
    ensures Reaches(first, data, s, Move(Put(first, s, Bytes(ps)).s, s.c.p + |Texts(ps)|))
    decreases |ps|
  {
    hide Reaches, Put, Right;
    if ps == [] {
      PutNothing(first, s);
      ReachesSelf(first, data, s);
      assert Move(s, s.c.p + |Texts(ps)|) == s;
    } else {
      var q, rest := ps[0], ps[1..];
      SpellsSplit(data, s.c.p, q.text, Texts(rest));
      PutPut(first, s, q.bytes, Bytes(rest));
      ScanPiece(first, data, s, q);
      var u := Put(first, s, q.bytes).s;
      var t := Move(u, s.c.p + |q.text|);
      PutKeepsQuoted(first, s, q.bytes);
      PutMoved(first, u, t.c.p, Bytes(rest));
      ScanPieces(first, data, t, rest);
      ReachesTrans(first, data, s, t, Move(Put(first, t, Bytes(rest)).s, t.c.p + |Texts(rest)|));
    }
  }

  lemma PutNothing(first: bool, s: Scan)
    requires HasTop(s) && Put(first, s, "").Go?
    ensures Put(first, s, "").s == s
  {
    if !first {
      var n := s.nodes[s.c.top];
      if n.kind == Object {
        assert Overwrite(n.area, n.used + s.c.len, "") == n.area;
      } else {
        assert Overwrite(n.text, s.c.len, "") == n.text;
      }
    }
  }

  lemma PutKeepsQuoted(first: bool, s: Scan, text: string)
    requires HasTop(s) && Put(first, s, text).Go?
    ensures var t := Put(first, s, text).s;
            HasTop(t) && t.c == s.c.(len := s.c.len + |text|) && t.nodes[t.c.top].kind == s.nodes[s.c.top].kind
            && t.nodes[t.c.top].parent == s.nodes[s.c.top].parent
  {
    hide Put;
    PutIs(first, s, text);
  }

  // ---------------------------------------------------------------- values

  /** A value may begin here. */
  ghost predicate AtValue(first: bool, s: Scan) {
    && s.c.seek && !s.c.comma && !s.c.colon && !s.c.done
    && !s.c.str && !s.c.esc && !s.c.quote && !s.c.line && !s.c.block
    && Sane(first, s) && (first ==> s.c.top == -1 || InContainer(s))
  }

  ghost predicate Sane(first: bool, s: Scan) {
    Family(s.nodes) && -1 <= s.c.top < |s.nodes| && (first ==> s.alloc == |s.nodes|)
  }

  /** At `t` a value is over that began at `s` and took `n` characters. */
  ghost predicate Over(first: bool, s: Scan, t: Scan, n: nat) {
    && t.c == s.c.(p := s.c.p + n, comma := true, seek := t.c.seek, done := t.c.done, top := t.c.top, len := t.c.len)
    && (if t.c.done then !t.c.seek else InContainer(t) && t.c.seek == TopIs(t, Array))
    && Sane(first, t)
  }

  lemma FinishKeeps(first: bool, s: Scan, text: string, skip: nat)
    requires Sane(first, s) && TopIs(s, Str) && !s.c.seek && !s.c.done && FinishStr(first, s, text, skip).Go?
    ensures var x := Put(first, s, text);
            x.Go? && HasTop(x.s) && TopIs(x.s, Str)
            && EndStr(first, x.s.(c := x.s.c.(str := false, quote := false, p := s.c.p + skip))).Go?
    ensures var t := FinishStr(first, s, text, skip).s;
            && t.c == s.c.(p := s.c.p + skip, str := false, quote := false, comma := true,
                           seek := t.c.seek, done := t.c.done, top := t.c.top, len := t.c.len)
            && (if t.c.done then !t.c.seek else InContainer(t) && t.c.seek == TopIs(t, Array))
            && Sane(first, t)
  {
    hide Family, Put, EndStr, Attach;
    PutKeeps(first, s, text);
    var x := Put(first, s, text).s;
    var y := x.(c := x.c.(str := false, quote := false, p := s.c.p + skip));
    EndStrKeeps(first, y);
    AttachKeeps(first, EndStr(first, y).s);
  }

  predicate Fits(ps: seq<Piece>) { |Bytes(ps)| <= MAX_SIZE }

  lemma ScanStr(first: bool, data: string, s: Scan, ps: seq<Piece>)
    requires AtValue(first, s) && Fits(ps) && AllRight(ps) && Spells(data, s.c.p, "\"" + Texts(ps) + "\"")
    requires BuildStr(first, s, Bytes(ps), |Texts(ps)|).Go?
    ensures var t := BuildStr(first, s, Bytes(ps), |Texts(ps)|).s;
            Reaches(first, data, s, t) && Over(first, s, t, |Texts(ps)| + 2)
  {
    hide Family, Reaches, Put, EndStr, Attach, Spells, New, CharAt, Inv, Texts, Bytes, AllRight;
    var p, text, q := s.c.p, Bytes(ps), Texts(ps);
    InQuotes(data, p, q);
    var v := s.(c := s.c.(p := p + 1, seek := false));
    NewKeeps(first, v, Str);
    var t1 := New(first, v, Str).s;
    t1 := t1.(c := t1.c.(str := true, len := 0));
    StepReaches(first, data, s, t1) by { QuoteBegins(first, data, s); }
    FinishKeeps(first, t1, text, |q| + 1);
    ScanPieces(first, data, t1, ps);
    PutKeepsQuoted(first, t1, text);
    var u := Move(Put(first, t1, text).s, p + 1 + |q|);
    ReachesTrans(first, data, s, t1, u);
    var t := BuildStr(first, s, text, |q|).s;
    StepReaches(first, data, u, t) by { QuoteEnds(first, data, u); }
    ReachesTrans(first, data, s, u, t);
  }

  lemma InQuotes(data: string, p: int, q: string)
    requires Spells(data, p, "\"" + q + "\"")
    ensures 0 <= p < |data| && data[p] == '"' && Spells(data, p + 1, q)
    ensures 0 <= p + 1 + |q| < |data| && data[p + 1 + |q|] == '"'
  {
    SpellsSplit(data, p, "\"" + q, "\"");
    SpellsSplit(data, p, "\"", q);
    SpellsHere(data, p, "\"");
    SpellsHere(data, p + 1 + |q|, "\"");
  }

  lemma QuoteBegins(first: bool, data: string, s: Scan)
    requires AtValue(first, s) && 0 <= s.c.p < |data| && data[s.c.p] == '"'
    requires New(first, s.(c := s.c.(p := s.c.p + 1, seek := false)), Str).Go?
    ensures var t := New(first, s.(c := s.c.(p := s.c.p + 1, seek := false)), Str).s;
            Step(first, data, s) == Go(t.(c := t.c.(str := true, len := 0)))
  {
    hide New;
  }

  lemma QuoteEnds(first: bool, data: string, u: Scan)
    requires Quoted(u) && TopIs(u, Str) && !u.c.done && u.c.len <= MAX_SIZE && 0 <= u.c.p < |data| && data[u.c.p] == '"'
    requires var e := EndStr(first, u.(c := u.c.(str := false, p := u.c.p + 1))); e.Go? && HasTop(e.s)
    ensures Step(first, data, u) == Attach(first, EndStr(first, u.(c := u.c.(str := false, p := u.c.p + 1))).s)
  {
    hide EndStr, Attach;
    EndKeepsDone(first, u.(c := u.c.(str := false, p := u.c.p + 1)));
  }

  lemma EndKeepsDone(first: bool, s: Scan)
    requires HasTop(s) && EndStr(first, s).Go?
    ensures EndStr(first, s).s.c == s.c
  {
  }

  // ---------------------------------------------------------------- strings without quotes

  /** A character that neither ends nor changes a string without quotes. */
  predicate Loose(b: char) {
    b != '\0' && b != '\\' && b != '"' && !Space(b) && b != ',' && b != ']' && b != '}'
  }

  /** Behind a value inside a container. */
  predicate Closes(b: char, last: bool) { if last then b == ']' || b == '}' || Space(b) else b == ',' }

  ghost predicate Unquoted(s: Scan) { HasTop(s) && s.c.str && s.c.quote && !s.c.esc }

  lemma {:induction false} ScanLoose(first: bool, data: string, s: Scan, text: string)
    requires Unquoted(s) && s.c.len + |text| <= MAX_SIZE && Spells(data, s.c.p, text) && Put(first, s, text).Go?
    requires forall i | 0 <= i < |text| :: Loose(text[i]) && (TopIs(s, Object) ==> text[i] != ':')
    ensures Reaches(first, data, s, Move(Put(first, s, text).s, s.c.p + |text|))
    decreases |text|
  {
    hide Reaches, Put;
    if text == "" {
      PutNothing(first, s);
      ReachesSelf(first, data, s);
      assert Move(s, s.c.p + 0) == s;
    } else {
      var b, rest := text[0], text[1..];
      assert text == [b] + rest;
      SpellsSplit(data, s.c.p, [b], rest);
      SpellsHere(data, s.c.p, [b]);
      PutPut(first, s, [b], rest);
      var u := Put(first, s, [b]).s;
      PutKeepsQuoted(first, s, [b]);
      var t := Move(u, s.c.p + 1);
      PutMoved(first, s, s.c.p + 1, [b]);
      StepReaches(first, data, s, t) by { LooseChar(first, data, s, b); }
      PutMoved(first, u, t.c.p, rest);
      ScanLoose(first, data, t, rest);
      ReachesTrans(first, data, s, t, Move(Put(first, t, rest).s, t.c.p + |rest|));
    }
  }

  lemma LooseChar(first: bool, data: string, s: Scan, b: char)
    requires Unquoted(s) && s.c.len <= MAX_SIZE && 0 <= s.c.p < |data| && data[s.c.p] == b && Loose(b)
    requires TopIs(s, Object) ==> b != ':'
    ensures Step(first, data, s) == Put(first, Move(s, s.c.p + 1), [b])
  {
    hide Put;
  }

  lemma LooseEnds(first: bool, data: string, u: Scan, last: bool)
    requires Unquoted(u) && TopIs(u, Str) && !u.c.done && u.c.len <= MAX_SIZE
    requires 0 <= u.c.p < |data| && Closes(data[u.c.p], last)
    requires var e := EndStr(first, u.(c := u.c.(str := false, quote := false))); e.Go? && HasTop(e.s)
    ensures Step(first, data, u) == Attach(first, EndStr(first, u.(c := u.c.(str := false, quote := false))).s)
  {
    hide EndStr, Attach;
    EndKeepsDone(first, u.(c := u.c.(str := false, quote := false)));
  }

  /** From the start of a string without quotes to its end. */
  lemma ScanBare(first: bool, data: string, s: Scan, text: string, last: bool)
    requires Sane(first, s) && Unquoted(s) && TopIs(s, Str) && s.c.len == 0
    requires !s.c.seek && !s.c.done && |text| <= MAX_SIZE
    requires Spells(data, s.c.p, text) && Closes(CharAt(data, s.c.p + |text|), last)
    requires forall i | 0 <= i < |text| :: Loose(text[i])
    requires FinishStr(first, s, text, |text|).Go?
    ensures Reaches(first, data, s, FinishStr(first, s, text, |text|).s)
  {
    hide Family, Reaches, Put, EndStr, Attach, Loose;
    FinishKeeps(first, s, text, |text|);
    ScanLoose(first, data, s, text);
    PutKeepsQuoted(first, s, text);
    var u := Move(Put(first, s, text).s, s.c.p + |text|);
    var t := FinishStr(first, s, text, |text|).s;
    StepReaches(first, data, u, t) by { LooseEnds(first, data, u, last); }
    ReachesTrans(first, data, s, u, t);
  }

  lemma ScanNull(first: bool, data: string, s: Scan, last: bool)
    requires AtValue(first, s) && Spells(data, s.c.p, "null") && Closes(CharAt(data, s.c.p + 4), last)
    requires BuildBare(first, s, "null").Go?
    ensures var t := BuildBare(first, s, "null").s; Reaches(first, data, s, t) && Over(first, s, t, 4)
  {
    hide Family, Reaches, New, Attach;
    var v := s.(c := s.c.(seek := false));
    NewKeeps(first, v, Str);
    var t1 := Bare(New(first, v, Str).s);
    StepReaches(first, data, s, t1) by { NullBegins(first, data, s); }
    FinishKeeps(first, t1, "null", 4);
    ScanBare(first, data, t1, "null", last);
    ReachesTrans(first, data, s, t1, BuildBare(first, s, "null").s);
  }

  lemma NullBegins(first: bool, data: string, s: Scan)
    requires AtValue(first, s) && Spells(data, s.c.p, "null") && New(first, s.(c := s.c.(seek := false)), Str).Go?
    ensures Step(first, data, s) == Go(Bare(New(first, s.(c := s.c.(seek := false)), Str).s))
  {
    hide New, Atom;
    SpellsAt(data, s.c.p, "null", 0);
    SpellsAt(data, s.c.p, "null", 1);
  }

  // ---------------------------------------------------------------- true and false

  lemma ScanBool(first: bool, data: string, s: Scan, b: bool)
    requires AtValue(first, s) && Spells(data, s.c.p, if b then "true" else "false")
    requires Build(first, s, Bool(b), false).Go?
    ensures var t := Build(first, s, Bool(b), false).s;
            Reaches(first, data, s, t) && Over(first, s, t, |Print(Bool(b))|)
  {
    hide Family, Reaches, Atom;
    var t := Build(first, s, Bool(b), false).s;
    StepReaches(first, data, s, t) by { BoolStep(first, data, s, b); }
    AtomOver(first, s, b);
  }

  lemma BoolStep(first: bool, data: string, s: Scan, b: bool)
    requires AtValue(first, s) && Spells(data, s.c.p, if b then "true" else "false")
    ensures Step(first, data, s) == Atom(first, s.(c := s.c.(seek := false)), Boolean, b, s.c.p + if b then 4 else 5)
  {
    if b { TrueStep(first, data, s); } else { FalseStep(first, data, s); }
  }

  lemma ReadsRest(data: string, p: int, word: string)
    requires word != "" && Spells(data, p, word)
    ensures CharAt(data, p) == word[0] && Reads(data, p + 1, word[1..]) && 0 <= p && p + |word| <= |data|
  {
    SpellsAt(data, p, word, 0);
    SpellsAt(data, p, word, |word| - 1);
    var rest := word[1..];
    forall i | 0 <= i < |rest| ensures CharAt(data, p + 1 + i) == rest[i] { SpellsAt(data, p, word, 1 + i); }
  }

  lemma TrueStep(first: bool, data: string, s: Scan)
    requires AtValue(first, s) && Spells(data, s.c.p, "true")
    ensures Step(first, data, s) == Atom(first, s.(c := s.c.(seek := false)), Boolean, true, s.c.p + 4)
  {
    hide Atom, New, Spells, Reads, NewBare;
    ReadsRest(data, s.c.p, "true");
    assert "true"[1..] == "rue";
  }

  lemma FalseStep(first: bool, data: string, s: Scan)
    requires AtValue(first, s) && Spells(data, s.c.p, "false")
    ensures Step(first, data, s) == Atom(first, s.(c := s.c.(seek := false)), Boolean, false, s.c.p + 5)
  {
    hide Atom, New, Spells, Reads, NewBare;
    ReadsRest(data, s.c.p, "false");
    assert "false"[1..] == "alse";
  }

  lemma AtomOver(first: bool, s: Scan, b: bool)
    requires AtValue(first, s) && Build(first, s, Bool(b), false).Go?
    ensures Over(first, s, Build(first, s, Bool(b), false).s, |Print(Bool(b))|)
  {
    hide Family, New, Attach;
    var v := s.(c := s.c.(seek := false));
    var q := s.c.p + |Print(Bool(b))|;
    NewKeeps(first, v, Boolean);
    var t := New(first, v, Boolean).s;
    var n := t.nodes[t.c.top].(bval := b || t.nodes[t.c.top].bval);
    SetKeeps(Move(t, q), n);
    AttachKeeps(first, SetTop(Move(t, q), n));
  }

  // ---------------------------------------------------------------- numbers

  /** The value of digits read behind the number `x`. */
  ghost function ReadDigits(x: int, ds: string): int
    decreases |ds|
  {
    if ds == "" then x else ReadDigits(Int64(x * 10 + (ds[0] as int - '0' as int)), ds[1..])
  }

  lemma {:induction false} ReadAppend(x: int, ds: string, d: char)
    ensures ReadDigits(x, ds + [d]) == Int64(ReadDigits(x, ds) * 10 + (d as int - '0' as int))
    decreases |ds|
  {
    if ds == "" {
      assert ("" + [d])[1..] == "";
    } else {
      ReadAppend(Int64(x * 10 + (ds[0] as int - '0' as int)), ds[1..], d);
      assert (ds + [d])[1..] == ds[1..] + [d];
    }
  }

  lemma {:induction false} DigitsValue(n: nat)
    requires n <= INT64_MAX
    ensures ReadDigits(0, Digits(n)) == n
    ensures Digits(n) != "" && forall i | 0 <= i < |Digits(n)| :: Digit(Digits(n)[i])
    ensures Digits(n)[0] == '0' <==> n == 0
    ensures n == 0 ==> |Digits(n)| == 1
  {
    if n >= 10 {
      DigitsValue(n / 10);
      ReadAppend(0, Digits(n / 10), DigitChar(n % 10));
    } else {
      assert Digits(n)[1..] == "";
    }
  }

  /** The first pass behind digits of a number. */
  ghost function Counted(s: Scan, ds: string): Scan
    requires HasTop(s)
  {
    var n := s.nodes[s.c.top];
    Scan(s.c.(p := s.c.p + |ds|),
         s.num.(digits := s.num.digits + |ds|, zero := s.num.zero || (s.num.digits == 0 && ds != "" && ds[0] == '0')),
         s.nodes[s.c.top := n.(ival := ReadDigits(n.ival, ds))], s.alloc)
  }

  lemma {:induction false} ScanDigits(data: string, s: Scan, ds: string)
    requires InNumber(s) && TopIs(s, Integer) && !s.num.exp && !s.num.sign && Spells(data, s.c.p, ds)
    requires forall i | 0 <= i < |ds| :: Digit(ds[i])
    requires s.num.zero ==> ds == ""
    requires s.num.digits == 0 && |ds| > 1 ==> ds[0] != '0'
    ensures Reaches(true, data, s, Counted(s, ds))
    decreases |ds|
  {
    hide Reaches, Int64;
    if ds == "" {
      ReachesSelf(true, data, s);
      assert s.nodes[s.c.top := s.nodes[s.c.top]] == s.nodes;
      assert Counted(s, ds) == s;
    } else {
      var rest := ds[1..];
      assert ds == [ds[0]] + rest;
      SpellsSplit(data, s.c.p, [ds[0]], rest);
      SpellsHere(data, s.c.p, [ds[0]]);
      var t := Counted(s, [ds[0]]);
      StepReaches(true, data, s, t) by { DigitStep(data, s, ds[0]); }
      ScanDigits(data, t, rest);
      CountedOn(s, ds);
      ReachesTrans(true, data, s, t, Counted(s, ds));
    }
  }

  lemma CountedOn(s: Scan, ds: string)
    requires HasTop(s) && ds != ""
    ensures Counted(Counted(s, [ds[0]]), ds[1..]) == Counted(s, ds)
  {
    hide Int64;
    var n := s.nodes[s.c.top];
    assert ReadDigits(n.ival, [ds[0]])
      == Int64(n.ival * 10 + (ds[0] as int - '0' as int)) by { assert [ds[0]][1..] == ""; }
    assert Counted(Counted(s, [ds[0]]), ds[1..]).nodes == Counted(s, ds).nodes;
  }

  lemma DigitStep(data: string, s: Scan, d: char)
    requires InNumber(s) && TopIs(s, Integer) && !s.num.exp && !s.num.zero && !s.num.sign
    requires 0 <= s.c.p < |data| && data[s.c.p] == d && Digit(d)
    ensures Step(true, data, s) == Go(Counted(s, [d]))
  {
    hide Int64;
    var n := s.nodes[s.c.top];
    assert ReadDigits(n.ival, [d]) == Int64(n.ival * 10 + (d as int - '0' as int)) by { assert [d][1..] == ""; }
  }

  lemma DecimalIs(n: int)
    requires INT64_MIN < n <= INT64_MAX
    ensures Decimal(n) == (if n < 0 then "-" else "") + Digits(Abs(n)) && Decimal(n) != ""
    ensures Digits(Abs(n)) != "" && (Digits(Abs(n))[0] == '0' <==> n == 0) && (n == 0 ==> |Digits(Abs(n))| == 1)
    ensures forall i | 0 <= i < |Digits(Abs(n))| :: Digit(Digits(Abs(n))[i])
    ensures forall i | 0 <= i < |Decimal(n)| :: NumberChar(Decimal(n)[i]) && Loose(Decimal(n)[i])
    ensures if n < 0 then Decimal(n)[0] == '-' else Digit(Decimal(n)[0])
  {
    DigitsValue(Abs(n));
  }

  lemma NumberBeginsAt(first: bool, data: string, s: Scan)
    requires AtValue(first, s) && 0 <= s.c.p < |data| && (Digit(data[s.c.p]) || data[s.c.p] == '-')
    ensures Step(first, data, s) == NumberStart(first, data, s.(c := s.c.(seek := false)), data[s.c.p])
  {
    hide NumberStart, Atom, NewBare;
  }

  /** The number of the first pass when all its digits are read. */
  ghost function NumberRead(s: Scan, n: int): Scan {
    Scan(s.c.(seek := false, top := |s.nodes|, p := s.c.p + |Decimal(n)|),
      Num(s.c.p, |Digits(Abs(n))|, n == 0, false, false),
         s.nodes + [Fresh(Integer, s.c.top).(ival := Abs(n))], |s.nodes| + 1)
  }

  lemma ScanNumber(data: string, s: Scan, n: int)
    requires AtValue(true, s) && Spells(data, s.c.p, Decimal(n)) && INT64_MIN < n <= INT64_MAX
    ensures Reaches(true, data, s, NumberRead(s, n))
  {
    hide Reaches, Family;
    DecimalIs(n);
    DigitsValue(Abs(n));
    SpellsHere(data, s.c.p, Decimal(n));
    var ds := Digits(Abs(n));
    SpellsSplit(data, s.c.p, if n < 0 then "-" else "", ds);
    NumberBeginsAt(true, data, s);
    var t := NumberStart(true, data, s.(c := s.c.(seek := false)), data[s.c.p]).s;
    StepReaches(true, data, s, t);
    ScanDigits(data, t, ds);
    assert Counted(t, ds).nodes == NumberRead(s, n).nodes;
    assert Counted(t, ds) == NumberRead(s, n);
    ReachesTrans(true, data, s, t, NumberRead(s, n));
  }

  lemma NumberEndsAt(data: string, w: Scan, last: bool)
    requires InNumber(w) && TopIs(w, Integer) && !w.num.exp && 0 <= w.c.p < |data| && Closes(data[w.c.p], last)
    ensures Step(true, data, w) == if last then Go(Bare(SetTop(Move(w, w.num.start), w.nodes[w.c.top].(kind := Str))))
            else Attach(true, w)
  {
    hide Attach;
  }

  lemma ScanIntFirst(data: string, s: Scan, n: int, last: bool)
    requires AtValue(true, s) && Spells(data, s.c.p, Decimal(n)) && Closes(CharAt(data, s.c.p + |Decimal(n)|), last)
    requires INT64_MIN < n <= INT64_MAX && |Decimal(n)| <= MAX_SIZE && BuildInt(true, s, n, last).Go?
    ensures var t := BuildInt(true, s, n, last).s; Reaches(true, data, s, t) && Over(true, s, t, |Decimal(n)|)
  {
    hide Reaches, Family, Attach, Decimal, Digits, FinishStr;
    ScanNumber(data, s, n);
    DecimalIs(n);
    var w := NumberRead(s, n);
    NumberFamily(s, n);
    var t := BuildInt(true, s, n, last).s;
    assert w.nodes[w.c.top] == Fresh(Integer, s.c.top).(ival := Abs(n));
    if last {
      var b := Bare(SetTop(Move(w, s.c.p), w.nodes[w.c.top].(kind := Str)));
      BuildIntLast(s, n);
      StepReaches(true, data, w, b) by { NumberEndsAt(data, w, last); }
      ReachesTrans(true, data, s, w, b);
      FinishKeeps(true, b, Decimal(n), |Decimal(n)|);
      ScanBare(true, data, b, Decimal(n), last);
      ReachesTrans(true, data, s, b, t);
    } else {
      BuildIntInner(s, n);
      StepReaches(true, data, w, t) by { NumberEndsAt(data, w, last); }
      ReachesTrans(true, data, s, w, t);
      AttachKeeps(true, w);
    }
  }

  lemma NumberFamily(s: Scan, n: int)
    requires AtValue(true, s)
    ensures Sane(true, NumberRead(s, n))
    ensures Sane(true, Bare(SetTop(Move(NumberRead(s, n), s.c.p), NumberRead(s, n).nodes[|s.nodes|].(kind := Str))))
  {
  }

  lemma BuildIntLast(s: Scan, n: int)
    ensures var w := NumberRead(s, n);
            var b := Bare(SetTop(Move(w, s.c.p), w.nodes[w.c.top].(kind := Str)));
            BuildInt(true, s, n, true) == FinishStr(true, b, Decimal(n), |Decimal(n)|)
  {
    hide FinishStr, Decimal, Digits;
    var w := NumberRead(s, n);
    var b := Bare(SetTop(Move(w, s.c.p), w.nodes[w.c.top].(kind := Str)));
    var t := New(true, s.(c := s.c.(seek := false)), Integer).s;
    var node := t.nodes[t.c.top].(ival := Abs(n));
    assert SetTop(t, node.(kind := Str)).nodes == b.nodes;
  }

  lemma BuildIntInner(s: Scan, n: int)
    ensures BuildInt(true, s, n, false) == Attach(true, NumberRead(s, n))
  {
    hide FinishStr, Decimal, Digits, Attach;
    var t := New(true, s.(c := s.c.(seek := false)), Integer).s;
    var node := t.nodes[t.c.top].(ival := Abs(n));
    assert SetTop(Move(t, s.c.p + |Decimal(n)|), node).nodes == NumberRead(s, n).nodes;
  }

  lemma ScanIntSecond(data: string, s: Scan, n: int, last: bool)
    requires AtValue(false, s) && Spells(data, s.c.p, Decimal(n)) && Closes(CharAt(data, s.c.p + |Decimal(n)|), last)
    requires INT64_MIN < n <= INT64_MAX && |Decimal(n)| <= MAX_SIZE && BuildInt(false, s, n, last).Go?
    ensures var t := BuildInt(false, s, n, last).s; Reaches(false, data, s, t) && Over(false, s, t, |Decimal(n)|)
  {
    hide Reaches, Family, Attach, Decimal, Digits, FinishStr, New;
    DecimalIs(n);
    SpellsHere(data, s.c.p, Decimal(n));
    NumberBeginsAt(false, data, s);
    var v := s.(c := s.c.(seek := false));
    NewKeeps(false, v, Integer);
    var t1 := New(false, v, Integer).s;
    var t := BuildInt(false, s, n, last).s;
    if last {
      var b := Bare(t1);
      StepReaches(false, data, s, b);
      FinishKeeps(false, b, Decimal(n), |Decimal(n)|);
      ScanBare(false, data, b, Decimal(n), last);
      ReachesTrans(false, data, s, b, t);
    } else {
      SkipTo(data, s.c.p, Decimal(n));
      StepReaches(false, data, s, t);
      AttachKeeps(false, Move(t1, s.c.p + |Decimal(n)|));
    }
  }

  lemma {:induction false} SkipTo(data: string, p: int, word: string)
    requires Spells(data, p, word) && CharAt(data, p + |word|) == ','
            && forall i | 0 <= i < |word| :: NumberChar(word[i])
    ensures SkipNumber(data, p) == p + |word|
    decreases |word|
  {
    if word != "" {
      assert word == [word[0]] + word[1..];
      SpellsSplit(data, p, [word[0]], word[1..]);
      SpellsHere(data, p, [word[0]]);
      SkipTo(data, p + 1, word[1..]);
    }
  }

  ghost function Pow10(k: nat): nat { if k == 0 then 1 else 10 * Pow10(k - 1) }

  lemma {:induction false} DigitsShort(n: nat, k: nat)
    requires k > 0 && n < Pow10(k)
    ensures |Digits(n)| <= k
    decreases k
  {
    if n >= 10 { DigitsShort(n / 10, k - 1); }
  }

  lemma DecimalShort(n: int)
    requires INT64_MIN < n <= INT64_MAX
    ensures |Decimal(n)| <= MAX_SIZE
  {
    assert Pow10(10) == 100_0000_0000;
    assert Pow10(20) == 10 * (10 * (10 * (10 * (10 * (10 * (10 * (10 * (10 * (10 * Pow10(10))))))))));
    DigitsShort(Abs(n), 20);
  }

  // ---------------------------------------------------------------- containers

  /** Integers have 64 bits, strings and names are not too long. */
  ghost predicate Printable(v: Value) {
    match v
    case Text(text) => |text| <= MAX_SIZE
    case Int(n) => INT64_MIN < n <= INT64_MAX
    case Arr(items) => forall i | 0 <= i < |items| :: Printable(items[i])
    case Obj(members) => forall i | 0 <= i < |members| :: |members[i].name| <= MAX_SIZE && Printable(members[i].value)
    case _ => true
  }

  /** A name or a closing brace may come here. */
  ghost predicate AtName(first: bool, s: Scan) {
    && TopIs(s, Object) && !s.c.seek && !s.c.comma && !s.c.colon && !s.c.done
    && !s.c.str && !s.c.esc && !s.c.quote && !s.c.line && !s.c.block && Sane(first, s)
  }

  /** Behind a name. */
  ghost predicate AtColon(first: bool, s: Scan) {
    && TopIs(s, Object) && s.c.seek && !s.c.comma && s.c.colon && !s.c.done
    && !s.c.str && !s.c.esc && !s.c.quote && !s.c.line && !s.c.block && Sane(first, s)
  }

  lemma ScanNameText(first: bool, data: string, s: Scan, ps: seq<Piece>)
    requires AtName(first, s) && Fits(ps) && AllRight(ps) && Spells(data, s.c.p, "\"" + Texts(ps) + "\"")
    requires ReadName(first, s, Bytes(ps), |Texts(ps)|).Go?
    ensures var t := ReadName(first, s, Bytes(ps), |Texts(ps)|).s;
            && Reaches(first, data, s, t) && AtColon(first, t)
            && t.c == s.c.(p := s.c.p + |Texts(ps)| + 2, seek := true, colon := true, len := |Bytes(ps)|)
  {
    hide Family, Reaches, Put, EndName, Spells, Texts, Bytes;
    var p, name, q := s.c.p, Bytes(ps), |Texts(ps)|;
    InQuotes(data, p, Texts(ps));
    var s0 := s.(c := s.c.(str := true, len := 0));
    var s1 := Move(s0, p + 1);
    StepReaches(first, data, s, s1) by { NameBegins(first, data, s); }
    PutMoved(first, s0, p + 1, name);
    ScanPieces(first, data, s1, ps);
    PutKeepsQuoted(first, s1, name);
    PutKeeps(first, s0, name);
    var u := Move(Put(first, s1, name).s, p + 1 + q);
    ReachesTrans(first, data, s, s1, u);
    var x := u.(c := u.c.(str := false, p := p + q + 2));
    assert x == Put(first, s0, name).s.(c := x.c);
    EndNameKeeps(first, x);
    var y := EndName(first, x).s;
    StepReaches(first, data, u, y) by { NameEnds(first, data, u); }
    ReachesTrans(first, data, s, u, y);
  }

  lemma ScanName(first: bool, data: string, s: Scan, ps: seq<Piece>)
    requires AtName(first, s) && Fits(ps) && AllRight(ps) && Spells(data, s.c.p, "\"" + Texts(ps) + "\"" + ":")
    requires BuildName(first, s, Bytes(ps), |Texts(ps)|).Go?
    ensures var t := BuildName(first, s, Bytes(ps), |Texts(ps)|).s;
            && Reaches(first, data, s, t) && AtValue(first, t) && TopIs(t, Object)
            && t.c == s.c.(p := s.c.p + |Texts(ps)| + 3, seek := true, len := |Bytes(ps)|)
  {
    hide Family, Reaches, ReadName, Spells, Texts, Bytes;
    SpellsSplit(data, s.c.p, "\"" + Texts(ps) + "\"", ":");
    SpellsHere(data, s.c.p + |Texts(ps)| + 2, ":");
    ScanNameText(first, data, s, ps);
    var y := ReadName(first, s, Bytes(ps), |Texts(ps)|).s;
    StepReaches(first, data, y, Colon(y)) by { ColonStep(first, data, y); }
    ReachesTrans(first, data, s, y, Colon(y));
  }

  /** A name as it is printed. */
  lemma ScanQuoted(first: bool, data: string, s: Scan, name: string)
    requires AtName(first, s) && |name| <= MAX_SIZE && Spells(data, s.c.p, "\"" + Quote(name) + "\"" + ":")
    requires BuildName(first, s, name, |Quote(name)|).Go?
    ensures var t := BuildName(first, s, name, |Quote(name)|).s;
            && Reaches(first, data, s, t) && AtValue(first, t) && TopIs(t, Object)
            && t.c == s.c.(p := s.c.p + |Quote(name)| + 3, seek := true, len := |name|)
  {
    hide Family, Reaches, Spells, BuildName, AtName, AtValue, Quote, Texts, Bytes, Right;
    var ps := QuoteSpells(name);
    ScanName(first, data, s, ps);
  }

  lemma NameBegins(first: bool, data: string, s: Scan)
    requires AtName(first, s) && 0 <= s.c.p < |data| && data[s.c.p] == '"'
    ensures Step(first, data, s) == Go(s.(c := s.c.(str := true, len := 0, p := s.c.p + 1)))
  {
    hide Family;
  }

  lemma NameEnds(first: bool, data: string, u: Scan)
    requires Quoted(u) && TopIs(u, Object) && u.c.len <= MAX_SIZE && 0 <= u.c.p < |data| && data[u.c.p] == '"'
    ensures Step(first, data, u) == EndName(first, u.(c := u.c.(str := false, p := u.c.p + 1)))
  {
    hide EndName;
  }

  lemma ColonStep(first: bool, data: string, s: Scan)
    requires s.c.seek && s.c.colon && !s.c.comma && !s.c.done && !s.c.str && !s.c.line && !s.c.block
    requires 0 <= s.c.p < |data| && data[s.c.p] == ':'
    ensures Step(first, data, s) == Go(Colon(s))
  {
    hide ValueStep, SlashStep;
  }

  lemma CommaStep(first: bool, data: string, t: Scan)
    requires t.c.comma && !t.c.done && !t.c.str && !t.c.line && !t.c.block && InContainer(t)
            && t.c.seek == TopIs(t, Array)
    requires 0 <= t.c.p < |data| && data[t.c.p] == ','
    ensures Step(first, data, t) == Go(Comma(t))
  {
    hide ValueStep, SlashStep;
  }

  lemma ClosingStep(first: bool, data: string, t: Scan)
    requires !t.c.done && !t.c.str && !t.c.line && !t.c.block && InContainer(t) && t.c.seek == TopIs(t, Array)
    requires 0 <= t.c.p < |data| && data[t.c.p] == if TopIs(t, Array) then ']' else '}'
    ensures Step(first, data, t) == (if TopIs(t, Array) then CloseArray(first, Go(t)) else CloseObject(first, Go(t)))
  {
    hide ValueStep, SlashStep, Attach;
  }

  lemma CloseKeeps(first: bool, t: Scan)
    requires Sane(first, t) && InContainer(t) && !t.c.done && t.c.seek == TopIs(t, Array)
    requires var o := if TopIs(t, Array) then CloseArray(first, Go(t)) else CloseObject(first, Go(t)); o.Go?
    ensures var u := (if TopIs(t, Array) then CloseArray(first, Go(t)) else CloseObject(first, Go(t))).s;
            && u.c == t.c.(p := t.c.p + 1, comma := true, seek := u.c.seek, done := u.c.done, top := u.c.top)
            && (if u.c.done then !u.c.seek else InContainer(u) && u.c.seek == TopIs(u, Array)) && Sane(first, u)
  {
    hide Family, Attach;
    AttachKeeps(first, t.(c := t.c.(comma := false, seek := false, p := t.c.p + 1)));
  }

  /** Which values need to know what comes behind them. */
  predicate Open(v: Value) { v.Int? || v.Nil? || v.Gone? }

  /** A pass over the printed form of a value does what the recursive form says. */
  lemma {:induction false} ScanValue(first: bool, data: string, s: Scan, v: Value, last: bool)
    requires AtValue(first, s) && Printable(v) && Spells(data, s.c.p, Print(v))
    requires Open(v) ==> Closes(CharAt(data, s.c.p + |Print(v)|), last)
    requires Build(first, s, v, last).Go?
    ensures var t := Build(first, s, v, last).s; Reaches(first, data, s, t) && Over(first, s, t, |Print(v)|)
    decreases v, 1
  {
    hide Reaches, Spells, BuildStr, BuildInt, BuildBare, Family, Quote, Digits;
    match v
    case Text(text) =>
      var ps := QuoteSpells(text);
      ScanStr(first, data, s, ps);
    case Nil => ScanNull(first, data, s, last);
    case Gone => ScanNull(first, data, s, last);
    case Int(n) =>
      DecimalShort(n);
      if first { ScanIntFirst(data, s, n, last); } else { ScanIntSecond(data, s, n, last); }
    case Bool(b) => ScanBool(first, data, s, b);
    case Arr(items) => ScanArray(first, data, s, v, last);
    case Obj(members) => ScanObject(first, data, s, v, last);
  }

  lemma {:induction false} ScanArray(first: bool, data: string, s: Scan, v: Value, last: bool)
    requires v.Arr? && AtValue(first, s) && Printable(v) && Spells(data, s.c.p, Print(v))
    requires Build(first, s, v, last).Go?
    ensures var t := Build(first, s, v, last).s; Reaches(first, data, s, t) && Over(first, s, t, |Print(v)|)
    decreases v, 0
  {
    hide Family, Reaches, New, Spells, PrintItems, BuildItems, CloseArray, Closes;
    var p, items := s.c.p, v.items;
    SpellsSplit(data, p, "[" + PrintItems(items), "]");
    SpellsSplit(data, p, "[", PrintItems(items));
    SpellsHere(data, p, "[");
    SpellsHere(data, p + 1 + |PrintItems(items)|, "]");
    var u := s.(c := s.c.(seek := false, p := p + 1));
    NewKeeps(first, u, Array);
    var t1 := New(first, u, Array).s;
    var t2 := t1.(c := t1.c.(seek := true));
    StepReaches(first, data, s, t2) by { ArrayBegins(first, data, s); }
    BuildItemsGoes(first, t2, items);
    var x := BuildItems(first, t2, items).s;
    var t := Build(first, s, v, last).s;
    ScanItems(first, data, t2, items);
    ReachesTrans(first, data, s, t2, x);
    StepReaches(first, data, x, t) by { ClosingStep(first, data, x); }
    CloseKeeps(first, x);
    ReachesTrans(first, data, s, x, t);
  }

  lemma ArrayBegins(first: bool, data: string, s: Scan)
    requires AtValue(first, s) && 0 <= s.c.p < |data| && data[s.c.p] == '['
    requires New(first, s.(c := s.c.(seek := false, p := s.c.p + 1)), Array).Go?
    ensures var t := New(first, s.(c := s.c.(seek := false, p := s.c.p + 1)), Array).s;
            Step(first, data, s) == Go(t.(c := t.c.(seek := true)))
  {
    hide New;
  }

  lemma BuildItemsGoes(first: bool, s: Scan, items: seq<Value>)
    requires CloseArray(first, BuildItems(first, s, items)).Go?
    ensures BuildItems(first, s, items).Go? && TopIs(BuildItems(first, s, items).s, Array)
  {
    hide BuildItems;
  }

  /** All elements of an array, up to its closing bracket. */
  lemma {:induction false} ScanItems(first: bool, data: string, s: Scan, items: seq<Value>)
    requires AtValue(first, s) && TopIs(s, Array) && Printable(Arr(items)) && Spells(data, s.c.p, PrintItems(items))
    requires CharAt(data, s.c.p + |PrintItems(items)|) == ']' && BuildItems(first, s, items).Go?
    ensures var t := BuildItems(first, s, items).s;
            && Reaches(first, data, s, t)
               && t.c == s.c.(p := s.c.p + |PrintItems(items)|, comma := t.c.comma, len := t.c.len)
            && TopIs(t, Array) && Sane(first, t)
    decreases items, 2
  {
    hide Family, Reaches, Spells, Print, Build;
    ReachesSelf(first, data, s);
    if items != [] {
      var rest := items[1..];
      ItemsText(data, s.c.p, items);
      var x := Build(first, s, items[0], |items| == 1).s;
      ScanValue(first, data, s, items[0], |items| == 1);
      if |items| > 1 {
        StepReaches(first, data, x, Comma(x)) by { CommaStep(first, data, x); }
        ReachesTrans(first, data, s, x, Comma(x));
        ScanItems(first, data, Comma(x), rest);
        ReachesTrans(first, data, s, Comma(x), BuildItems(first, s, items).s);
      }
    }
  }

  lemma ItemsText(data: string, p: int, items: seq<Value>)
    requires items != [] && Spells(data, p, PrintItems(items)) && CharAt(data, p + |PrintItems(items)|) == ']'
    ensures Spells(data, p, Print(items[0]))
    ensures var q := p + |Print(items[0])|;
            if |items| == 1 then CharAt(data, q) == ']' && q == p + |PrintItems(items)|
            else
              CharAt(data, q) == ',' && 0 <= q < |data| && data[q] == ',' && Spells(data, q + 1, PrintItems(items[1..]))
              && q + 1 + |PrintItems(items[1..])| == p + |PrintItems(items)|
  {
    hide Print;
    if |items| > 1 {
      SpellsSplit(data, p, Print(items[0]) + ",", PrintItems(items[1..]));
      SpellsSplit(data, p, Print(items[0]), ",");
      SpellsHere(data, p + |Print(items[0])|, ",");
    }
  }

  // ---------------------------------------------------------------- objects

  lemma {:induction false} ScanObject(first: bool, data: string, s: Scan, v: Value, last: bool)
    requires v.Obj? && AtValue(first, s) && Printable(v) && Spells(data, s.c.p, Print(v))
    requires Build(first, s, v, last).Go?
    ensures var t := Build(first, s, v, last).s; Reaches(first, data, s, t) && Over(first, s, t, |Print(v)|)
    decreases v, 0
  {
    hide Family, Reaches, New, Spells, PrintMembers, BuildMembers, CloseObject, Closes;
    var p, members := s.c.p, v.members;
    SpellsSplit(data, p, "{" + PrintMembers(members), "}");
    SpellsSplit(data, p, "{", PrintMembers(members));
    SpellsHere(data, p, "{");
    SpellsHere(data, p + 1 + |PrintMembers(members)|, "}");
    var u := s.(c := s.c.(seek := false, p := p + 1));
    NewKeeps(first, u, Object);
    var t1 := New(first, u, Object).s;
    StepReaches(first, data, s, t1) by { ObjectBegins(first, data, s); }
    BuildMembersGoes(first, t1, members);
    var x := BuildMembers(first, t1, members).s;
    var t := Build(first, s, v, last).s;
    ScanMembers(first, data, t1, members);
    ReachesTrans(first, data, s, t1, x);
    StepReaches(first, data, x, t) by { ClosingStep(first, data, x); }
    CloseKeeps(first, x);
    ReachesTrans(first, data, s, x, t);
  }

  lemma ObjectBegins(first: bool, data: string, s: Scan)
    requires AtValue(first, s) && 0 <= s.c.p < |data| && data[s.c.p] == '{'
    ensures Step(first, data, s) == New(first, s.(c := s.c.(seek := false, p := s.c.p + 1)), Object)
  {
    hide New;
  }

  lemma BuildMembersGoes(first: bool, s: Scan, members: seq<Member<Value>>)
    requires CloseObject(first, BuildMembers(first, s, members)).Go?
    ensures BuildMembers(first, s, members).Go? && TopIs(BuildMembers(first, s, members).s, Object)
  {
    hide BuildMembers;
  }

  /** All members of an object, up to its closing brace. */
  lemma {:induction false} ScanMembers(first: bool, data: string, s: Scan, members: seq<Member<Value>>)
    requires AtName(first, s) && Printable(Obj(members)) && Spells(data, s.c.p, PrintMembers(members))
    requires CharAt(data, s.c.p + |PrintMembers(members)|) == '}' && BuildMembers(first, s, members).Go?
    ensures var t := BuildMembers(first, s, members).s;
            && Reaches(first, data, s, t)
               && t.c == s.c.(p := s.c.p + |PrintMembers(members)|, comma := t.c.comma, len := t.c.len)
            && TopIs(t, Object) && Sane(first, t)
    decreases members, 2
  {
    hide Family, Reaches, Spells, Print, Build, BuildName, Quote;
    ReachesSelf(first, data, s);
    if members != [] {
      var m, rest := members[0], members[1..];
      MembersText(data, s.c.p, members);
      ScanQuoted(first, data, s, m.name);
      var n := BuildName(first, s, m.name, |Quote(m.name)|).s;
      var x := Build(first, n, m.value, |members| == 1).s;
      ScanValue(first, data, n, m.value, |members| == 1);
      ReachesTrans(first, data, s, n, x);
      if |members| > 1 {
        StepReaches(first, data, x, Comma(x)) by { CommaStep(first, data, x); }
        ReachesTrans(first, data, s, x, Comma(x));
        ScanMembers(first, data, Comma(x), rest);
        ReachesTrans(first, data, s, Comma(x), BuildMembers(first, s, members).s);
      }
    }
  }

  lemma MembersText(data: string, p: int, members: seq<Member<Value>>)
    requires members != [] && Spells(data, p, PrintMembers(members)) && CharAt(data, p + |PrintMembers(members)|) == '}'
    ensures var m := members[0];
            Spells(data, p, "\"" + Quote(m.name) + "\"" + ":") && Spells(data, p + |Quote(m.name)| + 3, Print(m.value))
    ensures var q := p + |Quote(members[0].name)| + 3 + |Print(members[0].value)|;
            if |members| == 1 then CharAt(data, q) == '}' && q == p + |PrintMembers(members)|
            else
              && CharAt(data, q) == ',' && 0 <= q < |data| && data[q] == ','
              && Spells(data, q + 1, PrintMembers(members[1..]))
              && q + 1 + |PrintMembers(members[1..])| == p + |PrintMembers(members)|
  {
    hide *;
    var m, rest := members[0], PrintMembers(members[1..]);
    MemberIs(m);
    MembersAre(members);
    if |members| > 1 {
      SpellsSplit(data, p, PrintMember(m) + ",", rest);
      SpellsSplit(data, p, PrintMember(m), ",");
      SpellsHere(data, p + |PrintMember(m)|, ",");
    }
    SpellsSplit(data, p, "\"" + Quote(m.name) + "\"" + ":", Print(m.value));
  }

  lemma MemberIs(m: Member<Value>)
    ensures PrintMember(m) == "\"" + Quote(m.name) + "\"" + ":" + Print(m.value)
    ensures |PrintMember(m)| == |Quote(m.name)| + 3 + |Print(m.value)|
  {
    hide Print, Quote;
  }

  lemma MembersAre(members: seq<Member<Value>>)
    requires members != []
    ensures |members| == 1 ==> PrintMembers(members) == PrintMember(members[0])
    ensures |members| > 1 ==> PrintMembers(members) == PrintMember(members[0]) + "," + PrintMembers(members[1..])
  {
    hide PrintMember;
  }
}
