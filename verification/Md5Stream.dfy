/** The context of MD5, updated in place, and the two functions that use it. */
module Md5Stream {
  import opened Md5

  const CHUNK := 1024

  class Context {
    const f: Mix
    const b: array<Byte>
    var s: Words
    var c0: Word
    var c1: Word

    constructor (f: Mix)
      ensures this.f == f && b.Length == 64 && fresh(b) && View() == START
    {
      this.f := f;
      b := new Byte[64];
      s, c0, c1 := INIT, 0, 0;
    }

    function Place(): (n: nat)
      reads this
      ensures n < 64
    {
      c0 / 8 % 64
    }

    ghost function View(): (x: Ctx)
      requires b.Length == 64
      reads this, b
      ensures Wellformed(x)
    {
      Ctx(s, b[..Place()], c0, c1)
    }

    // `memcpy(&b[n], data, len)`.
    method Fill(n: nat, data: seq<Byte>)
      requires n + |data| <= b.Length
      modifies b
      ensures b[..n] == old(b[..n]) && b[n..n + |data|] == data
    {
      forall i | 0 <= i < |data| {
        b[n + i] := data[i];
      }
    }

    method AddLength(len: nat)
      modifies this`c0, this`c1
      ensures (c0, c1) == Counted(old(c0), old(c1), len)
    {
      var n := len % WORD;
      c0 := (c0 + n * 8 % WORD) % WORD;
      if c0 < n * 8 % WORD {
        c1 := (c1 + 1) % WORD;
      }
      c1 := (c1 + n / 0x2000_0000) % WORD;
    }

    // The blocks that `data` completes, the first of them in the buffer; `k` is
    // how much of `data` they take.
    method MixBlocks(data: seq<Byte>, n: nat) returns (k: nat)
      requires b.Length == 64 && n < 64 && 64 - n <= |data|
      modifies this`s, b
      ensures k <= |data| && n + k == Whole(n + |data|)
      ensures s == Fold(f, old(s), old(b[..n]) + data)
    {
      ghost var w := b[..n] + data;
      var l := 64 - n;
      Fill(n, data[..l]);
      assert b[..] == w[..64];
      k := l;
      var first, more := true, true;
      while more
        invariant first ==> k == l && more && s == old(s) && b[..] == w[..64]
        invariant l <= k <= |data| && (n + k) % 64 == 0
        invariant !first ==> s == Fold(f, old(s), w[..n + k])
        invariant more <==> first || k + 63 < |data|
        decreases first, |data| - k
      {
        var block;
        if first {
          block := b[..];
          first := false;
          assert w[..0] == [];
          FoldBlock(f, old(s), w, 0);
          assert w[0..64] == w[..64];
        } else {
          block := data[k..k + 64];
          BlockOf(old(b[..n]), data, k);
          FoldBlock(f, old(s), w, n + k);
          k := k + 64;
        }
        s := f(s, block);
        more := k + 63 < |data|;
      }
      FoldWhole(f, old(s), w);
    }

    // Takes in `data`.
    method Update(data: seq<Byte>)
      requires b.Length == 64
      modifies this`s, this`c0, this`c1, b
      ensures View() == Absorb(f, old(View()), data)
    {
      hide Fold;
      ghost var x := View();
      var n := Place();
      PlaceInBlock(c0, c1, |data|);
      AddLength(|data|);
      var l := 64 - n;
      var k := 0;
      if |data| >= l {
        k := MixBlocks(data, n);
        AbsorbIs(f, x, data, k);
        n := 0;
      } else {
        AbsorbFew(f, x, data);
      }
      Fill(n, data[k..]);
    }

    // The context has taken in `m`.
    ghost predicate Holds(m: seq<Byte>)
      requires b.Length == 64
      reads this, b
    {
      var one := Absorb(f, START, m);
      s == one.s && View().tail == one.tail
    }

    method PutCount(md5: array<Byte>)
      requires md5.Length == 16
      modifies md5
      ensures md5[..8] == Le64(Bits(c0, c1))
    {
      PutWord(md5, 0, c0);
      PutWord(md5, 4, c1);
      CountBytes(c0, c1);
    }

    method PutState(md5: array<Byte>)
      requires md5.Length == 16
      modifies md5
      ensures md5[..] == Output(s)
    {
      PutWord(md5, 0, s.a);
      PutWord(md5, 4, s.b);
      PutWord(md5, 8, s.c);
      PutWord(md5, 12, s.d);
    }

    // The padding, taken in.
    method Pad(ghost m: seq<Byte>) returns (ghost pad: seq<Byte>)
      requires b.Length == 64 && Holds(m)
      modifies this`s, this`c0, this`c1, b
      ensures pad == [0x80] + Zeros((55 - |m|) % 64)
      ensures View() == Absorb(f, old(View()), pad)
    {
      hide Absorb, Wellformed, Zeros;
      TailPlace(f, m);
      var n := Place();
      var l := if n < 56 then 56 - n else 120 - n;
      PadIs(|m|, l);
      pad := ([0x80] + Zeros(63))[..l];
      Update(([0x80] + Zeros(63))[..l]);
    }

    // The length, the padding and the length field, and out with the state.
    method Finish(md5: array<Byte>, ghost m: seq<Byte>)
      requires b.Length == 64 && Holds(m) && md5.Length == 16 && md5 != b
      modifies this`s, this`c0, this`c1, b, md5
      ensures md5[..] == Digest(f, m, old(Bits(c0, c1)))
    {
      hide Absorb, Wellformed, Fold, Output, Le64, Zeros, Bits;
      ghost var x, bits := View(), Bits(c0, c1);
      PutCount(md5);
      ghost var pad := Pad(m);
      Update(md5[..8]);
      assert Padded(m, bits) == m + pad + Le64(bits);
      PaddedIs(f, x, m, pad, Le64(bits));
      PutState(md5);
    }

    // One chunk of a file.
    method Feed(content: seq<Byte>, at: nat, len: nat)
      requires b.Length == 64 && at + len <= |content|
      requires Holds(content[..at]) && Bits(c0, c1) == 8 * at % LONG
      requires len < WORD
      modifies this`s, this`c0, this`c1, b
      ensures Holds(content[..at + len]) && Bits(c0, c1) == 8 * (at + len) % LONG
    {
      hide Absorb, Wellformed, Bits, Counted;
      ghost var x, chunk := View(), content[at..at + len];
      Update(content[at..at + len]);
      assert content[..at + len] == content[..at] + chunk;
      AbsorbSplit(f, START, content[..at], chunk);
      AbsorbCounts(f, x, chunk);
      LengthSum(at, len);
      SameTail(f, x, Absorb(f, START, content[..at]), chunk);
    }
  }

  lemma LengthSum(at: nat, len: nat)
    requires len < WORD
    ensures (8 * at % LONG + 8 * (len % WORD)) % LONG == 8 * (at + len) % LONG
  {
    LongSum(8 * at, 8 * len);
  }

  lemma PadIs(m: nat, l: nat)
    requires l == if m % 64 < 56 then 56 - m % 64 else 120 - m % 64
    ensures ([0x80] + Zeros(63))[..l] == [0x80] + Zeros((55 - m) % 64)
  {
    assert l == 1 + (55 - m) % 64;
  }

  lemma NothingHeld(f: Mix)
    ensures Absorb(f, START, []).s == INIT && Absorb(f, START, []).tail == [] && Bits(0, 0) == 0
  {
    assert START.tail + [] == [];
  }

  // State and tail do not depend on the count.
  lemma SameTail(f: Mix, x: Ctx, y: Ctx, data: seq<Byte>)
    requires x.s == y.s && x.tail == y.tail
    ensures Absorb(f, x, data).s == Absorb(f, y, data).s && Absorb(f, x, data).tail == Absorb(f, y, data).tail
  {
  }

  lemma BlockOf(before: seq<Byte>, data: seq<Byte>, k: nat)
    requires k + 64 <= |data|
    ensures (before + data)[|before| + k..|before| + k + 64] == data[k..k + 64]
  {
  }

  lemma TailPlace(f: Mix, m: seq<Byte>)
    ensures |Absorb(f, START, m).tail| == |m| % 64
  {
    assert START.tail + m == m;
  }

  // Padding and length field, taken in after the message, complete its last block.
  lemma PaddedIs(f: Mix, x: Ctx, m: seq<Byte>, pad: seq<Byte>, field: seq<Byte>)
    requires x.s == Absorb(f, START, m).s && x.tail == Absorb(f, START, m).tail
    requires |m + pad + field| % 64 == 0
    ensures Absorb(f, Absorb(f, x, pad), field).s == Fold(f, INIT, m + pad + field)
  {
    AbsorbSplit(f, START, m, pad);
    AbsorbSplit(f, START, m + pad, field);
    assert START.tail + (m + pad + field) == m + pad + field;
  }

  method PutWord(md5: array<Byte>, j: nat, w: Word)
    requires j + 4 <= md5.Length
    modifies md5
    ensures md5[..] == old(md5[..j]) + LeWord(w) + old(md5[j + 4..])
  {
    md5[j] := w % 256;
    md5[j + 1] := w / 0x100 % 256;
    md5[j + 2] := w / 0x1_0000 % 256;
    md5[j + 3] := w / 0x100_0000 % 256;
  }

  // The digest of a block of memory; there is none of no data.
  method Encode(f: Mix, md5: array<Byte>, data: seq<Byte>) returns (ok: bool)
    requires md5.Length == 16
    modifies md5
    ensures ok <==> data != []
    ensures md5[..] == if ok then Digest(f, data, 8 * (|data| % WORD)) else old(md5[..])
  {
    hide Absorb, Bits, Wellformed, Digest;
    if |data| == 0 {
      return false;
    }
    var ctx := new Context(f);
    ctx.Update(data);
    AbsorbCounts(f, START, data);
    NothingHeld(f);
    ctx.Finish(md5, data);
    return true;
  }

  // The digest of a file, read a kilobyte at a time.
  method EncodeFile(f: Mix, md5: array<Byte>, content: seq<Byte>)
    requires md5.Length == 16
    modifies md5
    ensures md5[..] == Digest(f, content, 8 * |content| % LONG)
  {
    hide Absorb, Bits, Wellformed, Digest;
    var ctx := new Context(f);
    var at := 0;
    NothingHeld(f);
    assert content[..0] == [];
    while at < |content|
      invariant fresh(ctx) && fresh(ctx.b) && ctx.b.Length == 64 && ctx.f == f
      invariant at <= |content| && ctx.Holds(content[..at])
      invariant Bits(ctx.c0, ctx.c1) == 8 * at % LONG
    {
      var len := if |content| - at < CHUNK then |content| - at else CHUNK;
      ctx.Feed(content, at, len);
      at := at + len;
    }
    assert content[..at] == content;
    ctx.Finish(md5, content);
  }

  // Reading a file in pieces gives the digest of RFC 1321, whatever its length.
  // From memory the digest is that one too if the length is below 2^32, or above
  // it by a multiple of 2^61; so for such data, unless there is none, the two
  // functions agree.
  lemma FileIsStandard(f: Mix, m: seq<Byte>)
    ensures Digest(f, m, 8 * |m| % LONG) == Standard(f, m)
    ensures |m| / WORD % 0x2000_0000 == 0 ==> Digest(f, m, 8 * (|m| % WORD)) == Standard(f, m)
  {
    LengthIsRight(|m|);
    Le64Mod(8 * |m|);
  }
}
