/** Characters and names of JSON texts.  A `string` is a sequence of bytes, one `char` each. */
module JsonText {

  /** Longest string and largest container the decoder accepts. */
  const MAX_SIZE := 0xFFFFFFF7

  datatype Kind = Object | Array | Str | Integer | Double | Boolean | Null

  predicate Digit(b: char) { '0' <= b <= '9' }

  predicate Space(b: char) { b == ' ' || b == '\t' || b == '\r' || b == '\n' }

  /** A character of a text; behind its end stands a NUL. */
  function CharAt(data: string, p: int): char { if 0 <= p < |data| then data[p] else '\0' }

  /** A signed 64-bit integer, wrapping around. */
  function Int64(x: int): int { (x + 0x8000_0000_0000_0000) % 0x1_0000_0000_0000_0000 - 0x8000_0000_0000_0000 }

  // ---------------------------------------------------------------- hexadecimal digits

  /** One hexadecimal digit in lower case, or in upper case if `cap`. */
  function ByteToHex(num: nat, cap: bool): char
    requires num < 16
  {
    if num > 9 then (if cap then (num + 55) as char else (num + 87) as char) else (num + 48) as char
  }

  /** The value of a hexadecimal digit; 255 if it is none. */
  function HexToByte(hex: char): nat {
    if Digit(hex) then hex as int - '0' as int
    else match hex
      case 'a' => 10 case 'A' => 10
      case 'b' => 11 case 'B' => 11
      case 'c' => 12 case 'C' => 12
      case 'd' => 13 case 'D' => 13
      case 'e' => 14 case 'E' => 14
      case 'f' => 15 case 'F' => 15
      case _ => 255
  }

  lemma HexRoundTrip(num: nat, cap: bool)
    requires num < 16
    ensures HexToByte(ByteToHex(num, cap)) == num
  {
    if num > 9 {
      assert num == 10 || num == 11 || num == 12 || num == 13 || num == 14 || num == 15;
    } else {
      assert (num + 48) as char <= '9';
    }
  }

  // ---------------------------------------------------------------- the order of names

  function First(s: string): int { if s == "" then 0 else s[0] as int }

  /** The sign is that of `strcmp`: names are compared up to their first NUL. */
  function Compare(a: string, b: string): int {
    if First(a) != First(b) then First(a) - First(b)
    else if First(a) == 0 then 0
    else Compare(a[1..], b[1..])
  }

  predicate Less(a: string, b: string) { Compare(a, b) < 0 }

  lemma {:induction false} CompareFlip(a: string, b: string)
    ensures Compare(a, b) == -Compare(b, a)
  {
    if First(a) == First(b) && First(a) != 0 { CompareFlip(a[1..], b[1..]); }
  }

  lemma {:induction false} CompareTrans(a: string, b: string, c: string)
    requires Compare(a, b) <= 0 && Compare(b, c) <= 0
    ensures Compare(a, c) <= 0 && (Compare(a, b) < 0 || Compare(b, c) < 0 ==> Compare(a, c) < 0)
  {
    if First(a) == First(b) == First(c) && First(a) != 0 { CompareTrans(a[1..], b[1..], c[1..]); }
  }

  /** The part of a name that counts. */
  function Visible(s: string): string {
    if First(s) == 0 then "" else [s[0]] + Visible(s[1..])
  }

  lemma {:induction false} CompareEqual(a: string, b: string)
    ensures Compare(a, b) == 0 <==> Visible(a) == Visible(b)
  {
    if First(a) == 0 || First(b) == 0 {
    } else {
      CompareEqual(a[1..], b[1..]);
      assert Visible(a)[0] == a[0] && Visible(b)[0] == b[0];
      assert Visible(a)[1..] == Visible(a[1..]) && Visible(b)[1..] == Visible(b[1..]);
    }
  }

  /** The name ends at `k`, where its NUL is. */
  predicate EndsAt(s: string, k: nat) { k == |s| || (k < |s| && s[k] == '\0') }

  /** The names agree below `k`, where the first one ends or has the smaller byte. */
  ghost predicate SmallerAt(a: string, b: string, k: nat) {
    && k <= |a| && k <= |b| && (forall i | 0 <= i < k :: a[i] == b[i] && a[i] != '\0')
    && !EndsAt(b, k) && (EndsAt(a, k) || a[k] as int < b[k] as int)
  }

  ghost predicate Smaller(a: string, b: string) { exists k: nat :: SmallerAt(a, b, k) }

  /** What the order of names means, byte by byte. */
  lemma {:induction false} LessMeans(a: string, b: string)
    ensures Less(a, b) <==> Smaller(a, b)
  {
    if First(a) == First(b) && First(a) != 0 {
      LessMeans(a[1..], b[1..]);
      if Less(a, b) {
        var k: nat :| SmallerAt(a[1..], b[1..], k);
        forall i | 0 <= i < k + 1 ensures a[i] == b[i] && a[i] != '\0' {
          if i > 0 { assert a[1..][i - 1] == b[1..][i - 1]; }
        }
        assert SmallerAt(a, b, k + 1);
      }
      if k: nat :| SmallerAt(a, b, k) {
        assert k > 0;
        assert SmallerAt(a[1..], b[1..], k - 1);
      }
    } else if First(a) < First(b) {
      assert SmallerAt(a, b, 0);
    }
  }

  /** The part of a name that counts is the name up to its first NUL. */
  lemma {:induction false} VisibleMeans(s: string)
    ensures Visible(s) <= s && EndsAt(s, |Visible(s)|)
    ensures forall i | 0 <= i < |Visible(s)| :: s[i] != '\0'
  {
    if First(s) != 0 {
      VisibleMeans(s[1..]);
      var v := Visible(s[1..]);
      assert Visible(s) == [s[0]] + v && s == [s[0]] + s[1..];
      forall i | 0 <= i < |v| + 1 ensures s[i] != '\0' && s[i] == Visible(s)[i] {
        if i > 0 { assert s[i] == s[1..][i - 1]; }
      }
    }
  }

  // ---------------------------------------------------------------- escapes

  /** A code point as one to four bytes of UTF-8. */
  function Utf8(u: nat): string
    requires u < 0x10_0000
  {
    if u <= 0x7F then [u as char]
    else if u <= 0x7FF then [(0xC0 + u / 64) as char, (0x80 + u % 64) as char]
    else if u <= 0xFFFF then [(0xE0 + u / 4096) as char, (0x80 + u / 64 % 64) as char, (0x80 + u % 64) as char]
    else [(0xF0 + u / 0x40000) as char, (0x80 + u / 4096 % 64) as char, (0x80 + u / 64 % 64) as char,
      (0x80 + u % 64) as char]
  }

  datatype Escape = Bad | Escape(end: int, text: string)

  /** The number that four hexadecimal digits from `p` on spell, or -1. */
  function Hex4(data: string, p: int): int {
    var a, b, c, d := HexToByte(CharAt(data, p)), HexToByte(CharAt(data, p + 1)), HexToByte(CharAt(data,
      p + 2)), HexToByte(CharAt(data, p + 3));
    if a == 255 || b == 255 || c == 255 || d == 255 then -1 else a * 4096 + b * 256 + c * 16 + d
  }

  lemma Hex4Range(data: string, p: int)
    ensures -1 <= Hex4(data, p) < 0x1_0000
    ensures 0 <= p && Hex4(data, p) >= 0 ==> p + 4 <= |data|
  {
  }

  /** Two surrogates make one number: ten bits of each below a set bit 16. */
  function Joined(high: nat, low: nat): (u: nat)
    ensures 0x1_0000 <= u < 0x10_0000
  {
    var x := high % 1024 * 1024 + low % 1024;
    if x / 0x1_0000 % 2 == 1 then x else x + 0x1_0000
  }

  /** The escape whose `u` stands at `p`: the place of its last character and its bytes. */
  function Unicode(data: string, p: int): Escape {
    var u := Hex4(data, p + 1);
    Hex4Range(data, p + 1);
    if |data| - p < 4 || u < 0 then Bad
    else if 0xD800 <= u < 0xE000 then
      var v := Hex4(data, p + 7);
      Hex4Range(data, p + 7);
      if |data| - (p + 4) < 6 || CharAt(data, p + 5) != '\\' || CharAt(data, p + 6) != 'u' || v < 0 then Bad
      else Escape(p + 10, Utf8(Joined(u, v)))
    else Escape(p + 4, Utf8(u))
  }

  lemma UnicodeInside(data: string, p: int)
    requires 0 <= p && Unicode(data, p).Escape?
    ensures p < Unicode(data, p).end < |data|
  {
    Hex4Range(data, p + 1);
    Hex4Range(data, p + 7);
  }

  /** What the character behind a backslash, at `p`, stands for. */
  function Escaped(data: string, p: int): Escape {
    match CharAt(data, p)
    case 'b' => Escape(p, ['\U{8}'])
    case 'f' => Escape(p, ['\U{C}'])
    case 'n' => Escape(p, "\n")
    case 'r' => Escape(p, "\r")
    case 't' => Escape(p, "\t")
    case 'u' => Unicode(data, p)
    case b => Escape(p, [b])
  }

  lemma Regrouped(a: string, b: string, c: string)
    ensures a + b + c == a + (b + c)
  {
  }

  // ---------------------------------------------------------------- words in a text

  /** The text has `word` at the place `p`. */
  predicate Spells(data: string, p: int, word: string) { 0 <= p <= p + |word| <= |data| && data[p..p + |word|] == word }

  lemma SpellsSplit(data: string, p: int, a: string, b: string)
    requires Spells(data, p, a + b)
    ensures Spells(data, p, a) && Spells(data, p + |a|, b)
  {
    assert data[p..p + |a|] == (a + b)[..|a|] == a;
    assert data[p + |a|..p + |a| + |b|] == (a + b)[|a|..] == b;
  }

  lemma SpellsAt(data: string, p: int, word: string, i: nat)
    requires Spells(data, p, word) && i < |word|
    ensures CharAt(data, p + i) == word[i]
  {
    assert data[p..p + |word|][i] == word[i];
  }

  lemma SpellsHere(data: string, p: int, word: string)
    requires Spells(data, p, word) && word != ""
    ensures 0 <= p < |data| && data[p] == word[0] == CharAt(data, p)
  {
    SpellsAt(data, p, word, 0);
  }
}
