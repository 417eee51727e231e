/** How strings are spelled in a text: piece by piece, each a character or an escape of
    section 7 of RFC 8259, with a reader of UTF-8 (RFC 3629) of its own. */
module JsonSpelling {
  import opened JsonText
  import opened JsonMembers
  import opened JsonValue

  /** Characters of a text and the bytes they stand for. */
  datatype Piece = Piece(text: string, bytes: string)

  function Texts(ps: seq<Piece>): string { if ps == [] then "" else ps[0].text + Texts(ps[1..]) }

  function Bytes(ps: seq<Piece>): string { if ps == [] then "" else ps[0].bytes + Bytes(ps[1..]) }

  // ---------------------------------------------------------------- code points

  predicate Tail(b: char) { 0x80 <= b as int < 0xC0 }

  /** The code point that a whole sequence of UTF-8 stands for; -1 if it stands for none. */
  function CodePoint(t: string): int {
    if |t| == 1 && t[0] as int < 0x80 then t[0] as int
    else if |t| == 2 && 0xC2 <= t[0] as int < 0xE0 && Tail(t[1])
    then (t[0] as int - 0xC0) * 64 + (t[1] as int - 0x80)
    else if |t| == 3 && 0xE0 <= t[0] as int < 0xF0 && Tail(t[1]) && Tail(t[2])
    then
      var u := (t[0] as int - 0xE0) * 4096 + (t[1] as int - 0x80) * 64 + (t[2] as int - 0x80);
      if u < 0x800 then -1 else u
    else if |t| == 4 && 0xF0 <= t[0] as int < 0xF5 && Tail(t[1]) && Tail(t[2]) && Tail(t[3])
    then
      var u := (t[0] as int - 0xF0) * 0x4_0000 + (t[1] as int - 0x80) * 4096 + (t[2] as int - 0x80) * 64
               + (t[3] as int - 0x80);
      if u < 0x1_0000 then -1 else u
    else -1
  }

  /** A code point has one sequence. */
  lemma OnlyUtf8(t: string)
    requires 0 <= CodePoint(t) < 0x10_0000
    ensures Utf8(CodePoint(t)) == t
  {
    var u := CodePoint(t);
    match |t|
    case 1 =>
    case 2 => TwoBytes(t[0] as int - 0xC0, t[1] as int - 0x80);
    case 3 => ThreeBytes(t[0] as int - 0xE0, t[1] as int - 0x80, t[2] as int - 0x80);
    case 4 => FourBytes(t[0] as int - 0xF0, t[1] as int - 0x80, t[2] as int - 0x80, t[3] as int - 0x80);
    case _ =>
  }

  lemma TwoBytes(a: int, b: int)
    requires 0 <= b < 64
    ensures (a * 64 + b) / 64 == a && (a * 64 + b) % 64 == b
  {
  }

  lemma ThreeBytes(a: int, b: int, c: int)
    requires 0 <= b < 64 && 0 <= c < 64
    ensures var u := a * 4096 + b * 64 + c; u / 4096 == a && u / 64 % 64 == b && u % 64 == c
  {
    TwoBytes(a * 64 + b, c);
  }

  lemma FourBytes(a: int, b: int, c: int, d: int)
    requires 0 <= b < 64 && 0 <= c < 64 && 0 <= d < 64
    ensures var u := a * 0x4_0000 + b * 4096 + c * 64 + d;
      u / 0x4_0000 == a && u / 4096 % 64 == b && u / 64 % 64 == c && u % 64 == d
  {
    ThreeBytes(a * 64 + b, c, d);
  }

  // ---------------------------------------------------------------- escapes

  predicate HexDigit(c: char, d: int) { 0 <= d < 16 && (c == "0123456789abcdef"[d] || c == "0123456789ABCDEF"[d]) }

  /** Four hexadecimal digits spell `u`. */
  ghost predicate HexWord(t: string, u: int) {
    |t| == 4 && exists a, b, c, d ::
      HexDigit(t[0], a) && HexDigit(t[1], b) && HexDigit(t[2], c) && HexDigit(t[3], d)
      && u == a * 4096 + b * 256 + c * 16 + d
  }

  /** The escapes of two characters, and the byte each stands for; behind a backslash the
      decoder takes any other character for itself. */
  predicate Mark(m: char, b: int) {
    || (m == '"' && b == 34) || (m == '\\' && b == 92) || (m == '/' && b == 47)
    || (m == 'b' && b == 8) || (m == 'f' && b == 12) || (m == 'n' && b == 10)
    || (m == 'r' && b == 13) || (m == 't' && b == 9)
    || (m !in "\"\\/bfnrtu\0" && b == m as int)
  }

  predicate Raw(p: Piece) { p.text == p.bytes && |p.text| == 1 && p.text[0] !in "\"\\\0" }

  predicate Short(p: Piece) {
    |p.text| == 2 && p.text[0] == '\\' && |p.bytes| == 1 && Mark(p.text[1], p.bytes[0] as int)
  }

  ghost predicate Long(p: Piece, u: int) {
    |p.text| == 6 && p.text[..2] == "\\u" && HexWord(p.text[2..], u) && CodePoint(p.bytes) == u
  }

  /** Two halves: `high` and `low` are the numbers of ten bits they carry. */
  ghost predicate Halves(text: string, high: int, low: int) {
    && |text| == 12 && text[..2] == "\\u" && text[6..8] == "\\u" && 0 <= high < 1024 && 0 <= low < 1024
    && HexWord(text[2..6], 0xD800 + high) && HexWord(text[8..], 0xDC00 + low)
  }

  function Beyond(high: int, low: int): int { 0x1_0000 + high * 1024 + low }

  /** The bytes are what section 7 of RFC 8259 says. A pair of halves is read so only if bit 16
      of the number they carry is not set. */
  ghost predicate Right(p: Piece) {
    || Raw(p) || Short(p)
    || (exists u :: Long(p, u) && !(0xD800 <= u < 0xE000))
    || (exists high, low :: Halves(p.text, high, low) && high / 64 % 2 == 0 && CodePoint(p.bytes) == Beyond(high, low))
  }

  lemma HexDigitIs(c: char, d: int)
    requires HexDigit(c, d)
    ensures HexToByte(c) == d
  {
  }

  lemma HexWordIs(data: string, p: int, t: string, u: int)
    requires HexWord(t, u) && Spells(data, p, t)
    ensures Hex4(data, p) == u && 0 <= u < 0x1_0000
  {
    var a, b, c, d :| HexDigit(t[0], a) && HexDigit(t[1], b) && HexDigit(t[2], c) && HexDigit(t[3], d)
                      && u == a * 4096 + b * 256 + c * 16 + d;
    forall i | 0 <= i < 4 ensures CharAt(data, p + i) == t[i] { SpellsAt(data, p, t, i); }
    assert CharAt(data, p + 0) == t[0];
    hide HexToByte;
    HexDigitIs(t[0], a);
    HexDigitIs(t[1], b);
    HexDigitIs(t[2], c);
    HexDigitIs(t[3], d);
  }

  /** What the decoder takes an escape for. */
  lemma LongIs(data: string, p: int, q: Piece, u: int)
    requires Long(q, u) && !(0xD800 <= u < 0xE000) && Spells(data, p, q.text)
    ensures CharAt(data, p) == '\\' && CharAt(data, p + 1) == 'u' && Escaped(data, p + 1) == Escape(p + 5, q.bytes)
  {
    LongHere(data, p, q, u);
    hide *;
    OnlyUtf8(q.bytes);
    UnicodeAlone(data, p + 1, u);
  }

  lemma LongHere(data: string, p: int, q: Piece, u: int)
    requires Long(q, u) && Spells(data, p, q.text)
    ensures 0 <= p && p + 6 <= |data| && CharAt(data, p) == '\\' && CharAt(data, p + 1) == 'u'
    ensures Hex4(data, p + 2) == u && 0 <= u < 0x1_0000 && CodePoint(q.bytes) == u
  {
    hide HexWord, Hex4, CodePoint;
    SpellsAt(data, p, q.text, 0);
    SpellsAt(data, p, q.text, 1);
    assert q.text == q.text[..2] + q.text[2..] && q.text[0] == q.text[..2][0] && q.text[1] == q.text[..2][1];
    SpellsSplit(data, p, q.text[..2], q.text[2..]);
    HexWordIs(data, p + 2, q.text[2..], u);
  }

  lemma UnicodeAlone(data: string, p: int, u: nat)
    requires 0 <= p && p + 5 <= |data| && CharAt(data, p) == 'u' && Hex4(data, p + 1) == u < 0x1_0000
    requires !(0xD800 <= u < 0xE000)
    ensures Escaped(data, p) == Escape(p + 4, Utf8(u))
  {
    hide Hex4, CharAt, Utf8, Joined;
  }

  lemma HalvesHere(data: string, p: int, text: string, high: int, low: int)
    requires Halves(text, high, low) && Spells(data, p, text)
    ensures 0 <= p && p + 12 <= |data| && CharAt(data, p) == '\\' && CharAt(data, p + 1) == 'u'
    ensures CharAt(data, p + 6) == '\\' && CharAt(data, p + 7) == 'u'
    ensures Hex4(data, p + 2) == 0xD800 + high && Hex4(data, p + 8) == 0xDC00 + low
  {
    SpellsAt(data, p, text, 0);
    SpellsAt(data, p, text, 1);
    SpellsAt(data, p, text, 6);
    SpellsAt(data, p, text, 7);
    assert text[0] == text[..2][0] && text[1] == text[..2][1] && text[6] == text[6..8][0] && text[7] == text[6..8][1];
    hide HexWord, Hex4;
    assert text == text[..2] + text[2..6] + text[6..8] + text[8..];
    SpellsSplit(data, p, text[..2] + text[2..6] + text[6..8], text[8..]);
    SpellsSplit(data, p, text[..2] + text[2..6], text[6..8]);
    SpellsSplit(data, p, text[..2], text[2..6]);
    HexWordIs(data, p + 2, text[2..6], 0xD800 + high);
    HexWordIs(data, p + 8, text[8..], 0xDC00 + low);
  }

  /** Of a pair of halves it takes bit 16 for set. */
  lemma HalvesAre(data: string, p: int, text: string, high: int, low: int)
    requires Halves(text, high, low) && Spells(data, p, text)
    ensures CharAt(data, p) == '\\' && CharAt(data, p + 1) == 'u'
    ensures var u := Beyond(high, low) - if high / 64 % 2 == 1 then 0x1_0000 else 0;
            0 <= u < 0x10_0000 && Escaped(data, p + 1) == Escape(p + 11, Utf8(u))
  {
    hide *;
    HalvesBound(text, high, low);
    HalvesHere(data, p, text, high, low);
    JoinedIs(high, low);
    UnicodeJoined(data, p + 1, 0xD800 + high, 0xDC00 + low);
  }

  lemma HalvesBound(text: string, high: int, low: int)
    requires Halves(text, high, low)
    ensures 0 <= high < 1024 && 0 <= low < 1024
  {
    hide HexWord;
  }

  lemma UnicodeJoined(data: string, p: int, u: nat, v: nat)
    requires 0 <= p && p + 11 <= |data| && CharAt(data, p) == 'u'
    requires CharAt(data, p + 5) == '\\' && CharAt(data, p + 6) == 'u'
    requires Hex4(data, p + 1) == u && Hex4(data, p + 7) == v && 0xD800 <= u < 0xE000
    ensures Escaped(data, p) == Escape(p + 10, Utf8(Joined(u, v)))
  {
    hide Hex4, CharAt, Utf8, Joined;
  }

  lemma JoinedIs(high: int, low: int)
    requires 0 <= high < 1024 && 0 <= low < 1024
    ensures Joined(0xD800 + high, 0xDC00 + low) == Beyond(high, low) - if high / 64 % 2 == 1 then 0x1_0000 else 0
  {
    assert (0xD800 + high) % 1024 == high && (0xDC00 + low) % 1024 == low;
    assert (high * 1024 + low) / 0x1_0000 == high / 64;
  }

  lemma PlaneOf(high: int, low: int)
    requires 0 <= high < 1024 && 0 <= low < 1024
    ensures Beyond(high, low) / 0x1_0000 == 1 + high / 64 && 0x1_0000 <= Beyond(high, low)
    ensures (1 + high / 64) % 2 == 1 <==> high / 64 % 2 == 0
  {
    assert (high * 1024 + low) / 0x1_0000 == high / 64;
  }

  /** A pair is taken for its code point exactly if the plane of that is odd. */
  lemma PairIsRight(data: string, p: int, q: Piece, high: int, low: int)
    requires Halves(q.text, high, low) && CodePoint(q.bytes) == Beyond(high, low) && Spells(data, p, q.text)
    ensures Escaped(data, p + 1) == Escape(p + 11, q.bytes) <==> Beyond(high, low) / 0x1_0000 % 2 == 1
  {
    assert 0 <= high < 1024 && 0 <= low < 1024;
    HalvesAre(data, p, q.text, high, low);
    PlaneOf(high, low);
    hide Halves, Spells, Escaped, CodePoint, Utf8, Beyond;
    if high / 64 % 2 == 1 {
      ReadsUtf8(Beyond(high, low) - 0x1_0000);
    } else {
      OnlyUtf8(q.bytes);
    }
  }

  lemma ReadsUtf8(u: nat)
    requires u < 0x10_0000
    ensures CodePoint(Utf8(u)) == u
  {
    if 0x7F < u <= 0x7FF {
      assert u == u / 64 * 64 + u % 64;
    } else if 0x7FF < u <= 0xFFFF {
      assert u / 64 == u / 4096 * 64 + u / 64 % 64 && u == u / 64 * 64 + u % 64;
    } else if 0xFFFF < u {
      assert u / 4096 == u / 0x4_0000 * 64 + u / 4096 % 64;
      assert u / 64 == u / 4096 * 64 + u / 64 % 64 && u == u / 64 * 64 + u % 64;
    }
  }

  // ---------------------------------------------------------------- what the printer writes

  lemma {:induction false} QuoteFront(s: string)
    requires s != ""
    ensures Quote(s) == QuoteChar(s[0]) + Quote(s[1..])
  {
    hide QuoteChar;
    var front, last := s[..|s| - 1], QuoteChar(s[|s| - 1]);
    if |s| == 1 {
      assert Quote(front) == "" && Quote(s[1..]) == "";
    } else {
      QuoteFront(front);
      assert front[1..] == s[1..][..|s| - 2];
      assert Quote(s[1..]) == Quote(front[1..]) + last;
      Regrouped(QuoteChar(s[0]), Quote(front[1..]), last);
    }
  }

  /** How a byte is to be printed: below 32 as the escape of its number, a quote or backslash
      behind a backslash, any other as it is. */
  ghost predicate Printed(p: Piece, b: char) {
    && p.bytes == [b]
    && (b as int < 32 ==> Long(p, b as int))
    && (b == '"' || b == '\\' ==> p.text == ['\\', b])
    && (b as int >= 32 && b != '"' && b != '\\' ==> p.text == [b])
  }

  function PieceOf(b: char): Piece { Piece(QuoteChar(b), [b]) }

  function PiecesOf(s: string): (ps: seq<Piece>)
    ensures |ps| == |s| && forall i | 0 <= i < |s| :: ps[i] == PieceOf(s[i])
  {
    if s == "" then [] else [PieceOf(s[0])] + PiecesOf(s[1..])
  }

  lemma HexOfByte(d: nat)
    requires d < 16
    ensures HexDigit(ByteToHex(d, false), d) && ByteToHex(d, false) as int >= 32
  {
    if d > 9 {
      assert d == 10 || d == 11 || d == 12 || d == 13 || d == 14 || d == 15;
    } else {
      assert d == 0 || d == 1 || d == 2 || d == 3 || d == 4 || d == 5 || d == 6 || d == 7 || d == 8 || d == 9;
    }
  }

  lemma PieceIsPrinted(b: char)
    ensures Printed(PieceOf(b), b) && Right(PieceOf(b))
    ensures forall i | 0 <= i < |PieceOf(b).text| :: PieceOf(b).text[i] as int >= 32
  {
    var p := PieceOf(b);
    if b as int < 32 {
      var x, y := b as int / 16, b as int % 16;
      HexOfByte(x);
      HexOfByte(y);
      HexOfByte(0);
      hide HexDigit, ByteToHex;
      assert p.text == ['\\', 'u', '0', '0', ByteToHex(x, false), ByteToHex(y, false)];
      var t := p.text[2..];
      assert HexDigit(t[0], 0) && HexDigit(t[1], 0) && HexDigit(t[2], x) && HexDigit(t[3], y);
      assert b as int == 0 * 4096 + 0 * 256 + x * 16 + y;
      assert Long(p, b as int);
    }
  }

  lemma {:induction false} TextsOfQuote(s: string)
    ensures Texts(PiecesOf(s)) == Quote(s) && Bytes(PiecesOf(s)) == s
  {
    hide QuoteChar, Quote;
    if s == "" {
      assert Quote("") == "" by { NoQuote(); }
    } else {
      TextsOfQuote(s[1..]);
      QuoteFront(s);
      PiecesFront(s);
      hide PiecesOf;
      assert s == [s[0]] + s[1..];
    }
  }

  lemma NoQuote()
    ensures Quote("") == ""
  {
  }

  lemma PiecesFront(s: string)
    requires s != ""
    ensures PiecesOf(s) != [] && PiecesOf(s)[0] == PieceOf(s[0]) && PiecesOf(s)[1..] == PiecesOf(s[1..])
  {
    hide QuoteChar;
  }

  /** The printed form of a string spells it, byte for byte, with no more escapes than needed
      and no byte below 32. */
  lemma QuoteSpells(s: string) returns (ps: seq<Piece>)
    ensures Quote(s) == Texts(ps) && s == Bytes(ps) && |ps| == |s|
    ensures forall i | 0 <= i < |s| :: Printed(ps[i], s[i]) && Right(ps[i])
    ensures Clean(Quote(s))
  {
    ps := PiecesOf(s);
    TextsOfQuote(s);
    forall i | 0 <= i < |s|
      ensures Printed(ps[i], s[i]) && Right(ps[i])
      ensures forall j | 0 <= j < |ps[i].text| :: ps[i].text[j] as int >= 32
    {
      PieceIsPrinted(s[i]);
    }
    CleanTexts(ps);
  }

  predicate Clean(t: string) { forall i | 0 <= i < |t| :: t[i] as int >= 32 }

  lemma {:induction false} CleanTexts(ps: seq<Piece>)
    requires forall i | 0 <= i < |ps| :: Clean(ps[i].text)
    ensures Clean(Texts(ps))
  {
    if ps != [] { CleanTexts(ps[1..]); }
  }

  // ---------------------------------------------------------------- whole values

  lemma {:induction false} DigitsClean(n: nat)
    ensures Clean(Digits(n))
  {
    if n >= 10 { DigitsClean(n / 10); }
  }

  lemma QuoteClean(s: string)
    ensures Clean(Quote(s))
  {
    var ps := QuoteSpells(s);
  }

  /** No printed value has a byte below 32. */
  lemma {:induction false} PrintClean(v: Value)
    ensures Clean(Print(v))
    decreases v, 1
  {
    match v
    case Obj(members) => MembersClean(members);
    case Arr(items) => ItemsClean(items);
    case Text(s) => QuoteClean(s);
    case Int(n) => DigitsClean(if n < 0 then -n else n);
    case _ =>
  }

  lemma {:induction false} MembersClean(members: seq<Member<Value>>)
    ensures Clean(PrintMembers(members))
    decreases members, 0
  {
    if members != [] {
      QuoteClean(members[0].name);
      PrintClean(members[0].value);
      MembersClean(members[1..]);
      hide Print, Quote;
      assert Clean(PrintMember(members[0]));
      hide PrintMember;
    }
  }

  lemma {:induction false} ItemsClean(items: seq<Value>)
    ensures Clean(PrintItems(items))
    decreases items, 0
  {
    if items != [] {
      PrintClean(items[0]);
      ItemsClean(items[1..]);
      hide Print;
    }
  }
}
