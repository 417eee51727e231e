/**
  The buffering and padding of MD5 (sections 3.1 and 3.2 of RFC 1321). The
  function that mixes one block of 64 bytes into the state is a parameter.
*/
module Md5 {
  import opened Arithmetic

  type Byte = b: int | 0 <= b < 256

  const WORD := 0x1_0000_0000
  const LONG := 0x1_0000_0000_0000_0000
  type Word = w: int | 0 <= w < WORD

  datatype Words = Words(a: Word, b: Word, c: Word, d: Word)

  const INIT := Words(0x67452301, 0xEFCDAB89, 0x98BADCFE, 0x10325476)

  type Mix = (Words, seq<Byte>) -> Words

  // ------------------------------------------------------------ whole messages

  // All complete blocks of `m`, mixed into `s` one after the other.
  function Fold(f: Mix, s: Words, m: seq<Byte>): Words
    decreases |m|
  {
    if |m| < 64 then s else Fold(f, f(s, m[..64]), m[64..])
  }

  lemma {:induction false} FoldConcat(f: Mix, s: Words, a: seq<Byte>, b: seq<Byte>)
    requires |a| % 64 == 0
    ensures Fold(f, s, a + b) == Fold(f, Fold(f, s, a), b)
    decreases |a|
  {
    if a == [] {
      assert a + b == b;
    } else {
      assert (a + b)[..64] == a[..64] && (a + b)[64..] == a[64..] + b;
      FoldConcat(f, f(s, a[..64]), a[64..], b);
    }
  }

  // One more block.
  lemma FoldBlock(f: Mix, s: Words, m: seq<Byte>, p: nat)
    requires p % 64 == 0 && p + 64 <= |m|
    ensures Fold(f, s, m[..p + 64]) == f(Fold(f, s, m[..p]), m[p..p + 64])
  {
    var block := m[p..p + 64];
    assert m[..p + 64] == m[..p] + block;
    FoldConcat(f, s, m[..p], block);
    assert block[..64] == block;
  }

  // Where the last, incomplete block begins.
  function Whole(n: nat): (q: nat)
    ensures q <= n && q % 64 == 0 && n - q == n % 64
  {
    n - n % 64
  }

  lemma FoldWhole(f: Mix, s: Words, m: seq<Byte>)
    ensures Fold(f, s, m) == Fold(f, s, m[..Whole(|m|)])
  {
    var q := Whole(|m|);
    assert m == m[..q] + m[q..];
    FoldConcat(f, s, m[..q], m[q..]);
  }

  function Zeros(n: nat): (z: seq<Byte>) ensures |z| == n {
    seq(n, _ => 0)
  }

  function Pow256(i: nat): (p: nat) ensures p > 0 {
    if i == 0 then 1 else 256 * Pow256(i - 1)
  }

  // The low eight bytes of a number, the lowest first.
  function Le64(v: nat): (bytes: seq<Byte>) ensures |bytes| == 8 {
    seq(8, i requires 0 <= i < 8 => (v / Pow256(i)) % 256)
  }

  // Section 3.1: a one bit and then as few zeros as bring the length to 56
  // modulo 64; section 3.2: the length in bits.
  function Padded(m: seq<Byte>, bits: nat): (p: seq<Byte>)
    ensures |p| % 64 == 0
  {
    m + [0x80] + Zeros((55 - |m|) % 64) + Le64(bits)
  }

  function LeWord(w: Word): (bytes: seq<Byte>) ensures |bytes| == 4 {
    [w % 256, w / 0x100 % 256, w / 0x1_0000 % 256, w / 0x100_0000 % 256]
  }

  // Section 3.5: the state, low byte first.
  function Output(s: Words): seq<Byte> {
    LeWord(s.a) + LeWord(s.b) + LeWord(s.c) + LeWord(s.d)
  }

  function Digest(f: Mix, m: seq<Byte>, bits: nat): seq<Byte> {
    Output(Fold(f, INIT, Padded(m, bits)))
  }

  // Section 3.3 of RFC 1321: the words to start from, byte by byte.
  lemma StartIs()
    ensures Output(INIT) == [0x01, 0x23, 0x45, 0x67, 0x89, 0xAB, 0xCD, 0xEF,
                             0xFE, 0xDC, 0xBA, 0x98, 0x76, 0x54, 0x32, 0x10]
  {
  }

  // The digest of RFC 1321.
  function Standard(f: Mix, m: seq<Byte>): seq<Byte> {
    Digest(f, m, 8 * |m|)
  }

  // ------------------------------------------------------------ the streaming form

  // `c1` and `c0` are the two words of the bit count; the length of the tail,
  // the bytes that do not fill a block, is read off the count.
  datatype Ctx = Ctx(s: Words, tail: seq<Byte>, c0: Word, c1: Word)

  const START := Ctx(INIT, [], 0, 0)

  function Bits(c0: Word, c1: Word): nat { c1 * WORD + c0 }

  // The code's 32-bit counting: the length is cut to 32 bits first.
  function Counted(c0: Word, c1: Word, len: nat): (Word, Word) {
    var n := len % WORD;
    var add := n * 8 % WORD;
    var d0 := (c0 + add) % WORD;
    (d0, ((c1 + if d0 < add then 1 else 0) % WORD + n / 0x2000_0000) % WORD)
  }

  lemma CountedAdds(c0: Word, c1: Word, len: nat)
    ensures var (d0, d1) := Counted(c0, c1, len);
      Bits(d0, d1) == (Bits(c0, c1) + 8 * (len % WORD)) % LONG
  {
    var n := len % WORD;
    var high, add := n / 0x2000_0000, n * 8 % WORD;
    assert n * 8 == high * WORD + add;
    CarryLow(c0, add);
    CarryHigh(c1, c0, add, high);
  }

  // An addition has overflowed exactly if the sum is less than what was added.
  lemma CarryLow(c: Word, add: Word)
    ensures var d := (c + add) % WORD; d == c + add - if d < add then WORD else 0
  {
  }

  lemma CarryHigh(c1: Word, c0: Word, add: Word, high: nat)
    requires high < 8
    ensures var d0 := (c0 + add) % WORD;
      var d1 := ((c1 + if d0 < add then 1 else 0) % WORD + high) % WORD;
      Bits(d0, d1) == (Bits(c0, c1) + high * WORD + add) % LONG
  {
    CarryLow(c0, add);
    var d0 := (c0 + add) % WORD;
    var carry := if d0 < add then 1 else 0;
    var over := if c1 + carry + high >= WORD then 1 else 0;
    assert ((c1 + carry) % WORD + high) % WORD == c1 + carry + high - over * WORD;
  }

  ghost predicate Wellformed(x: Ctx) {
    |x.tail| == x.c0 / 8 % 64
  }

  function Absorb(f: Mix, x: Ctx, data: seq<Byte>): Ctx {
    var w := x.tail + data;
    var (c0, c1) := Counted(x.c0, x.c1, |data|);
    Ctx(Fold(f, x.s, w), w[Whole(|w|)..], c0, c1)
  }

  lemma CutPlace(len: nat, n: nat, k: nat)
    requires len == WORD * k + n
    ensures len % 64 == n % 64
  {
    assert len == 64 * (0x400_0000 * k) + n;
  }

  // Eight times a number, cut to 32 bits.
  lemma ShiftedPlace(n: nat, add: nat)
    requires add == n * 8 % WORD
    ensures add % 8 == 0 && add / 8 % 64 == n % 64
  {
    var h := n * 8 / WORD;
    assert add == 8 * (n - 0x2000_0000 * h);
    assert add / 8 == n - 64 * (0x80_0000 * h);
  }

  lemma SumPlace(c0: Word, add: Word)
    requires add % 8 == 0
    ensures (c0 + add) % WORD / 8 % 64 == (c0 / 8 + add / 8) % 64
  {
    var carry := if c0 + add >= WORD then 1 else 0;
    assert (c0 + add) % WORD == c0 + add - carry * WORD;
    assert (c0 + add - carry * WORD) / 8 == c0 / 8 + add / 8 - carry * 0x2000_0000;
  }

  lemma PlaceSum(p: nat, q: nat, len: nat)
    requires q % 64 == len % 64
    ensures (p + q) % 64 == (p % 64 + len) % 64
  {
    assert p + q == 64 * (p / 64 + q / 64) + p % 64 + q % 64;
    assert p % 64 + len == 64 * (len / 64) + p % 64 + len % 64;
  }

  lemma AbsorbIs(f: Mix, x: Ctx, data: seq<Byte>, k: nat)
    requires |x.tail| + k == Whole(|x.tail| + |data|) && k <= |data|
    ensures Absorb(f, x, data).tail == data[k..]
    ensures Absorb(f, x, data).s == Fold(f, x.s, x.tail + data)
  {
    hide Counted, Fold, Whole, Absorb;
    AbsorbFields(f, x, data, x.tail + data);
    TailIs(x.tail, data, k);
  }

  lemma TailIs(before: seq<Byte>, data: seq<Byte>, k: nat)
    requires |before| + k == Whole(|before| + |data|) && k <= |data|
    ensures var w := before + data; w[Whole(|w|)..] == data[k..]
  {
    hide Whole;
    Suffix(before, data, k);
  }

  lemma AbsorbFields(f: Mix, x: Ctx, data: seq<Byte>, w: seq<Byte>)
    requires w == x.tail + data
    ensures Absorb(f, x, data).s == Fold(f, x.s, w) && Absorb(f, x, data).tail == w[Whole(|w|)..]
  {
    hide Counted, Fold, Whole;
  }

  lemma Suffix(before: seq<Byte>, data: seq<Byte>, k: nat)
    requires k <= |data|
    ensures (before + data)[|before| + k..] == data[k..]
  {
  }

  lemma AbsorbFew(f: Mix, x: Ctx, data: seq<Byte>)
    requires |x.tail| + |data| < 64
    ensures Absorb(f, x, data).tail == x.tail + data
    ensures Absorb(f, x, data).s == x.s
  {
  }

  lemma PlaceInBlock(c0: Word, c1: Word, len: nat)
    ensures Counted(c0, c1, len).0 / 8 % 64 == (c0 / 8 % 64 + len) % 64
  {
    var n := len % WORD;
    CutPlace(len, n, len / WORD);
    ShiftedPlace(n, n * 8 % WORD);
    SumPlace(c0, n * 8 % WORD);
    PlaceSum(c0 / 8, n * 8 % WORD / 8, len);
  }

  // How a message was cut makes no difference to state and tail, and none to the
  // count either exactly if the lengths, cut to 32 bits, do not overflow.
  lemma AbsorbSplit(f: Mix, x: Ctx, a: seq<Byte>, b: seq<Byte>)
    ensures var (two, one) := (Absorb(f, Absorb(f, x, a), b), Absorb(f, x, a + b));
      && two.s == one.s && two.tail == one.tail
      && (two == one <==> |a| % WORD + |b| % WORD < WORD)
  {
    TailSplit(f, x.s, x.tail + a, b);
    assert x.tail + (a + b) == x.tail + a + b;
    CountSplit(x.c0, x.c1, |a|, |b|);
    hide Counted, Fold;
  }

  lemma TailSplit(f: Mix, s: Words, w: seq<Byte>, b: seq<Byte>)
    ensures var tail := w[Whole(|w|)..];
      && Fold(f, s, w + b) == Fold(f, Fold(f, s, w), tail + b)
      && (w + b)[Whole(|w + b|)..] == (tail + b)[Whole(|tail + b|)..]
  {
    var q := Whole(|w|);
    var rest := w[q..] + b;
    assert w + b == w[..q] + rest;
    FoldConcat(f, s, w[..q], rest);
    FoldWhole(f, s, w);
    assert Whole(|w + b|) == q + Whole(|rest|);
  }

  lemma BitsInjective(c0: Word, c1: Word, d0: Word, d1: Word)
    ensures Bits(c0, c1) == Bits(d0, d1) <==> c0 == d0 && c1 == d1
    ensures Bits(c0, c1) < LONG
  {
  }

  lemma LongSum(u: nat, v: nat)
    ensures (u % LONG + v) % LONG == (u + v) % LONG
  {
    assert u == u / LONG * LONG + u % LONG;
  }

  lemma LongDiffers(u: nat, v: nat)
    requires 0 < v < LONG
    ensures (u + v) % LONG != u % LONG
  {
    var k, h := (u + v) / LONG, u / LONG;
    assert (u + v) % LONG == u % LONG ==> v == (k - h) * LONG;
  }

  lemma CountSplit(c0: Word, c1: Word, a: nat, b: nat)
    ensures var (d0, d1) := Counted(c0, c1, a);
      Counted(d0, d1, b) == Counted(c0, c1, a + b) <==> a % WORD + b % WORD < WORD
  {
    var (d0, d1) := Counted(c0, c1, a);
    var (e0, e1) := Counted(d0, d1, b);
    var (g0, g1) := Counted(c0, c1, a + b);
    CountedAdds(c0, c1, a);
    CountedAdds(d0, d1, b);
    CountedAdds(c0, c1, a + b);
    hide Counted;
    LongSum(Bits(c0, c1) + 8 * (a % WORD), 8 * (b % WORD));
    BitsInjective(e0, e1, g0, g1);
    CutSum(a, b);
    if a % WORD + b % WORD >= WORD {
      LongDiffers(Bits(c0, c1) + 8 * ((a + b) % WORD), 8 * WORD);
    }
  }

  lemma CutSum(a: nat, b: nat)
    ensures (a + b) % WORD == a % WORD + b % WORD - if a % WORD + b % WORD < WORD then 0 else WORD
  {
    var r := a % WORD + b % WORD;
    assert a + b == (a / WORD + b / WORD) * WORD + r;
  }

  // All chunks, one after the other.
  function AbsorbAll(f: Mix, x: Ctx, chunks: seq<seq<Byte>>): Ctx
    decreases |chunks|
  {
    if chunks == [] then x else AbsorbAll(f, Absorb(f, x, chunks[0]), chunks[1..])
  }

  function Concat(chunks: seq<seq<Byte>>): seq<Byte> {
    if chunks == [] then [] else chunks[0] + Concat(chunks[1..])
  }

  // The lengths of the chunks as the count sees them.
  function Cut(chunks: seq<seq<Byte>>): nat {
    if chunks == [] then 0 else |chunks[0]| % WORD + Cut(chunks[1..])
  }

  // Any way of cutting a message gives the state and the tail of the whole
  // message; the count is eight times the sum of the lengths, each cut to 32 bits.
  lemma {:induction false} AbsorbAllIs(f: Mix, x: Ctx, chunks: seq<seq<Byte>>)
    requires |x.tail| < 64
    ensures var (all, one) := (AbsorbAll(f, x, chunks), Absorb(f, x, Concat(chunks)));
      && all.s == one.s && all.tail == one.tail
      && Bits(all.c0, all.c1) == (Bits(x.c0, x.c1) + 8 * Cut(chunks)) % LONG
    decreases |chunks|
  {
    hide Absorb, Counted, Bits;
    if chunks == [] {
      AbsorbNothing(f, x);
    } else {
      var a, rest := chunks[0], chunks[1..];
      var y := Absorb(f, x, a);
      AbsorbCounts(f, x, a);
      AbsorbAllIs(f, y, rest);
      AbsorbSplit(f, x, a, Concat(rest));
      LongSum(Bits(x.c0, x.c1) + 8 * (|a| % WORD), 8 * Cut(rest));
    }
  }

  lemma AbsorbNothing(f: Mix, x: Ctx)
    requires |x.tail| < 64
    ensures var y := Absorb(f, x, []); y.s == x.s && y.tail == x.tail
    ensures Bits(x.c0, x.c1) == Bits(x.c0, x.c1) % LONG
  {
    assert x.tail + [] == x.tail;
  }

  lemma AbsorbCounts(f: Mix, x: Ctx, a: seq<Byte>)
    ensures var y := Absorb(f, x, a);
      |y.tail| < 64 && Bits(y.c0, y.c1) == (Bits(x.c0, x.c1) + 8 * (|a| % WORD)) % LONG
  {
    CountedAdds(x.c0, x.c1, |a|);
  }

  lemma {:induction false} ShortChunks(chunks: seq<seq<Byte>>)
    requires forall i | 0 <= i < |chunks| :: |chunks[i]| < WORD
    ensures Cut(chunks) == |Concat(chunks)|
  {
    if chunks != [] {
      ShortChunks(chunks[1..]);
    }
  }

  // ------------------------------------------------------------ the length field

  function FromLe(bytes: seq<Byte>): nat {
    if bytes == [] then 0 else bytes[0] + 256 * FromLe(bytes[1..])
  }

  // The bytes of a number from the `i`-th on.
  function LeFrom(v: nat, n: nat): (bytes: seq<Byte>)
    ensures |bytes| == n
  {
    if n == 0 then [] else [v % 256] + LeFrom(v / 256, n - 1)
  }

  lemma {:induction false} LeFromIs(v: nat, n: nat, i: nat)
    requires i < n
    ensures LeFrom(v, n)[i] == (v / Pow256(i)) % 256
  {
    if i > 0 {
      LeFromIs(v / 256, n - 1, i - 1);
      DivDiv(v, 256, Pow256(i - 1), Pow256(i));
    }
  }

  lemma Le64Is(v: nat)
    ensures Le64(v) == LeFrom(v, 8)
  {
    forall i | 0 <= i < 8 ensures Le64(v)[i] == LeFrom(v, 8)[i] {
      LeFromIs(v, 8, i);
    }
  }

  lemma {:induction false} FromLeFrom(v: nat, n: nat)
    ensures FromLe(LeFrom(v, n)) == v % Pow256(n)
  {
    if n > 0 {
      FromLeFrom(v / 256, n - 1);
      assert LeFrom(v, n)[1..] == LeFrom(v / 256, n - 1);
      ModMod(v, 256, Pow256(n - 1), Pow256(n));
    }
  }

  lemma Digit(d: Byte, rest: nat)
    ensures (d + 256 * rest) % 256 == d && (d + 256 * rest) / 256 == rest
  {
  }

  lemma LeWordIs(w: Word)
    ensures LeWord(w) == LeFrom(w, 4)
  {
    var w1, w2, w3 := w / 256, w / 256 / 256, w / 256 / 256 / 256;
    assert w2 == w / 0x1_0000 && w3 == w / 0x100_0000;
    assert LeFrom(w3, 1) == [w3 % 256];
    assert LeFrom(w2, 2) == [w2 % 256, w3 % 256];
    assert LeFrom(w1, 3) == [w1 % 256, w2 % 256, w3 % 256];
  }

  lemma {:induction false} LeConcat(low: nat, high: nat, n: nat, m: nat)
    requires low < Pow256(n)
    ensures LeFrom(low, n) + LeFrom(high, m) == LeFrom(low + Pow256(n) * high, n + m)
  {
    if n > 0 {
      var rest := low / 256 + Pow256(n - 1) * high;
      assert Pow256(n) * high == 256 * (Pow256(n - 1) * high);
      Digit(low % 256, rest);
      assert low + Pow256(n) * high == low % 256 + 256 * rest;
      LeConcat(low / 256, high, n - 1, m);
    }
  }

  // What the code writes are the eight bytes of its count.
  lemma CountBytes(c0: Word, c1: Word)
    ensures LeWord(c0) + LeWord(c1) == Le64(Bits(c0, c1))
  {
    LeWordIs(c0);
    LeWordIs(c1);
    assert Pow256(4) == WORD;
    LeConcat(c0, c1, 4, 4);
    Le64Is(Bits(c0, c1));
  }

  // The length in bits of a message of `n` bytes, taken in at once, comes out
  // right modulo 2^64, as section 3.2 asks, exactly if the part of `n` above 32
  // bits is lost to that modulus as well: for every length below 2^32, and for
  // none from there up to 2^61.
  lemma LengthIsRight(n: nat)
    ensures Le64(8 * (n % WORD)) == Le64(8 * n) <==> n / WORD % 0x2000_0000 == 0
  {
    var u, v := 8 * (n % WORD), 8 * n;
    assert Pow256(8) == LONG;
    Le64Is(u);
    Le64Is(v);
    FromLeFrom(u, 8);
    FromLeFrom(v, 8);
    LeFromMod(u, 8);
    LeFromMod(v, 8);
    LostPart(n % WORD, n / WORD);
  }

  // An input: of 2^32 bytes none are counted.
  lemma LengthIsLost()
    ensures Le64(8 * (WORD % WORD)) != Le64(8 * WORD)
  {
    LengthIsRight(WORD);
  }

  lemma {:induction false} LeFromMod(v: nat, n: nat)
    ensures LeFrom(v, n) == LeFrom(v % Pow256(n), n)
  {
    if n > 0 {
      var p := Pow256(n - 1);
      LeFromMod(v / 256, n - 1);
      ModMod(v, 256, p, Pow256(n));
      Digit(v % 256, v / 256 % p);
    }
  }

  lemma Le64Mod(v: nat)
    ensures Le64(v % LONG) == Le64(v)
  {
    assert Pow256(8) == LONG;
    Le64Is(v);
    Le64Is(v % LONG);
    LeFromMod(v, 8);
  }

  lemma LostPart(low: Word, k: nat)
    ensures (8 * (low + k * WORD)) % LONG == (8 * low) % LONG <==> k % 0x2000_0000 == 0
  {
    var q, r := k / 0x2000_0000, k % 0x2000_0000;
    assert 8 * (low + k * WORD) == LONG * q + (8 * low + 8 * WORD * r);
  }
}
