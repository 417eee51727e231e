/**
  Integers of variable length: seven bits to a byte, the lowest first, the top
  bit set on all bytes but the last. The encoder goes on while the number is
  greater than 128, so that a number may end in a byte of 128, which the decoder
  takes for a byte with more to follow.
*/
module Vint {
  import opened Arithmetic

  type Byte = b: int | 0 <= b < 256

  // The greatest number of bytes the decoders read.
  const MAX32 := 5
  const MAX64 := 9

  // What the encoder makes of `num` when `left` bytes are left in the buffer;
  // there it stops in any case.
  function Bytes(num: nat, left: nat): (d: seq<Byte>)
    ensures |d| > 0
    decreases left
  {
    if num <= 128 then [num]
    else [num % 128 + 128] + if left <= 1 then [num / 128 % 256] else Bytes(num / 128, left - 1)
  }

  function Bytes32(num: nat): seq<Byte> { Bytes(num, MAX32) }
  function Bytes64(num: nat): seq<Byte> { Bytes(num, MAX64) }

  // The decoder, reading `left` bytes at most, stays within the buffer: it stops behind the
  // first byte without its top bit, if it has not read `left` bytes before.
  predicate Stops(d: seq<Byte>, left: nat)
    decreases left
  {
    left > 0 && d != [] && (d[0] < 128 || left == 1 || Stops(d[1..], left - 1))
  }

  // The decoder, reading `left` bytes at most: how many it reads, their value
  // without top bits, and whether even the last of `left` bytes has its top bit set.
  function Length(d: seq<Byte>, left: nat): (n: nat)
    requires Stops(d, left)
    ensures 0 < n <= left && n <= |d|
    decreases left
  {
    if d[0] < 128 || left == 1 then 1 else 1 + Length(d[1..], left - 1)
  }

  function Value(d: seq<Byte>, left: nat): nat
    requires Stops(d, left)
    decreases left
  {
    d[0] % 128 + if d[0] < 128 || left == 1 then 0 else 128 * Value(d[1..], left - 1)
  }

  predicate Full(d: seq<Byte>, left: nat)
    requires Stops(d, left)
    decreases left
  {
    d[0] >= 128 && (left == 1 || Full(d[1..], left - 1))
  }

  function Get32(d: seq<Byte>): (nat, nat)
    requires Stops(d, MAX32)
  {
    ((Value(d, MAX32) + if Full(d, MAX32) then 0x8000_0000 else 0) % 0x1_0000_0000, Length(d, MAX32))
  }

  function Get64(d: seq<Byte>): (nat, nat)
    requires Stops(d, MAX64)
  {
    ((Value(d, MAX64) + if Full(d, MAX64) then 0x8000_0000_0000_0000 else 0) % 0x1_0000_0000_0000_0000,
      Length(d, MAX64))
  }

  // ------------------------------------------------------------ which numbers come back

  function Pow128(k: nat): (p: nat) ensures p > 0 {
    if k == 0 then 1 else 128 * Pow128(k - 1)
  }

  // None of the first `n` quotients by powers of 128 is 128 itself.
  predicate Plain(num: nat, n: nat) {
    n == 0 || (num != 128 && Plain(num / 128, n - 1))
  }

  lemma {:induction false} PlainBefore(num: nat, n: nat, k: nat)
    requires Plain(num, n) && k < n
    ensures num / Pow128(k) != 128
  {
    if k > 0 {
      PlainBefore(num / 128, n - 1, k - 1);
      DivDiv(num, 128, Pow128(k - 1), Pow128(k));
    }
  }

  lemma {:induction false} NotPlainAt(num: nat, n: nat) returns (k: nat)
    requires !Plain(num, n)
    ensures k < n && num / Pow128(k) == 128
  {
    if num == 128 {
      k := 0;
    } else {
      var j := NotPlainAt(num / 128, n - 1);
      k := j + 1;
      DivDiv(num, 128, Pow128(j), Pow128(k));
    }
  }

  lemma PlainMeans(num: nat, n: nat)
    ensures Plain(num, n) <==> forall k | 0 <= k < n :: num / Pow128(k) != 128
  {
    hide Plain, Pow128;
    if Plain(num, n) {
      forall k | 0 <= k < n ensures num / Pow128(k) != 128 {
        PlainBefore(num, n, k);
      }
    } else {
      var k := NotPlainAt(num, n);
    }
  }

  // A plain number decodes to itself, whatever bytes follow; only if it is too
  // large for the buffer do the two sides disagree about its length.
  lemma {:induction false} PlainDecodes(num: nat, left: nat, rest: seq<Byte>)
    requires left > 0 && Plain(num, left - 1) && num < 256 * Pow128(left - 1)
    ensures var d := Bytes(num, left) + rest;
      && Stops(d, left)
      && Value(d, left) + (if Full(d, left) then Pow128(left) else 0) == num
      && (Length(d, left) == |Bytes(num, left)| <==> num < 129 * Pow128(left - 1))
      && (Full(d, left) <==> num >= 128 * Pow128(left - 1))
  {
    var d := Bytes(num, left) + rest;
    if num >= 128 && left > 1 {
      var tail := Bytes(num / 128, left - 1);
      assert d[1..] == tail + rest;
      PlainDecodes(num / 128, left - 1, rest);
    }
  }

  // Enough bytes are always enough.
  lemma {:induction false} StopsInside(d: seq<Byte>, left: nat)
    requires 0 < left <= |d|
    ensures Stops(d, left)
  {
    if left > 1 { StopsInside(d[1..], left - 1); }
  }

  // A number that is not plain makes the decoder read on behind its last byte;
  // followed by zeros it decodes to a smaller number.
  lemma {:induction false} OthersOverrun(num: nat, left: nat, rest: seq<Byte>)
    requires left > 0 && !Plain(num, left - 1) && Stops(Bytes(num, left) + rest, left)
    ensures var d := Bytes(num, left) + rest;
      && rest != [] && Length(d, left) > |Bytes(num, left)|
      && (rest[0] == 0 ==> Value(d, left) < num && !Full(d, left))
  {
    var d := Bytes(num, left) + rest;
    if num < 128 { SmallIsPlain(num, left - 1); }
    FirstByte(num, left);
    Unfold(d, left);
    hide Value, Full, Length, Bytes;
    if num == 128 {
      assert d[1..] == rest;
      if rest[0] == 0 { Unfold(rest, left - 1); }
    } else {
      assert d[1..] == Bytes(num / 128, left - 1) + rest;
      OthersOverrun(num / 128, left - 1, rest);
    }
  }

  lemma {:induction false} SmallIsPlain(num: nat, n: nat)
    requires num < 128
    ensures Plain(num, n)
  {
    if n > 0 {
      SmallIsPlain(num / 128, n - 1);
    }
  }

  // How many bytes the encoder writes.
  lemma {:induction false} BytesLength(num: nat, left: nat)
    requires left > 0
    ensures |Bytes(num, left)| <= left + 1
    ensures |Bytes(num, left)| <= left <==> num < 129 * Pow128(left - 1)
  {
    if num > 128 && left > 1 {
      BytesLength(num / 128, left - 1);
    }
  }

  lemma Powers()
    ensures Pow128(4) == 0x1000_0000 && Pow128(8) == 0x100_0000_0000_0000 && Pow128(9) == 0x8000_0000_0000_0000
  {
    assert Pow128(2) == 0x4000;
    assert Pow128(6) == 0x400_0000_0000;
  }

  // With 32 bits, value and length come back, whatever bytes follow, exactly if
  // no quotient of the number by 1, 128, 128^2 or 128^3 is 128; otherwise the
  // length is wrong whatever follows.
  lemma RoundTrip32(num: nat, rest: seq<Byte>)
    requires num < 0x1_0000_0000
    ensures var d := Bytes32(num) + rest; Stops(d, MAX32) && Get32(d) == (num, |Bytes32(num)|) <==> Plain(num, 4)
    ensures |Bytes32(num)| <= MAX32
  {
    hide Value, Full, Length, Bytes, Plain, Stops;
    Powers();
    BytesLength(num, MAX32);
    if Plain(num, 4) {
      PlainDecodes(num, MAX32, rest);
    } else if Stops(Bytes32(num) + rest, MAX32) {
      OthersOverrun(num, MAX32, rest);
    }
  }

  // With 64 bits, a plain number keeps its value. The length is right as well,
  // and the encoder keeps within nine bytes, below 129 * 2^56.
  lemma RoundTrip64(num: nat, rest: seq<Byte>)
    requires num < 0x1_0000_0000_0000_0000
    ensures Plain(num, 8) ==> Stops(Bytes64(num) + rest, MAX64) && Get64(Bytes64(num) + rest).0 == num
    ensures var d := Bytes64(num) + rest;
            Stops(d, MAX64) && Get64(d) == (num, |Bytes64(num)|)
            <==> Plain(num, 8) && num < 129 * 0x100_0000_0000_0000
    ensures |Bytes64(num)| <= MAX64 <==> num < 129 * 0x100_0000_0000_0000
  {
    hide Value, Full, Length, Bytes, Plain, Stops;
    Powers();
    BytesLength(num, MAX64);
    if Plain(num, 8) {
      PlainDecodes(num, MAX64, rest);
    } else if Stops(Bytes64(num) + rest, MAX64) {
      OthersOverrun(num, MAX64, rest);
    }
  }

  function Zeros(n: nat): (z: seq<Byte>) ensures |z| == n { seq(n, _ => 0) }

  lemma Wrong(num: nat, left: nat) returns (rest: seq<Byte>)
    requires left > 0 && !Plain(num, left - 1)
    ensures |rest| == left && Stops(Bytes(num, left) + rest, left)
    ensures Value(Bytes(num, left) + rest, left) < num && !Full(Bytes(num, left) + rest, left)
  {
    rest := Zeros(left);
    StopsInside(Bytes(num, left) + rest, left);
    OthersOverrun(num, left, rest);
  }

  // And the value comes back whatever follows only for plain numbers.
  lemma Inverts64(num: nat)
    requires num < 0x1_0000_0000_0000_0000
    ensures (forall rest: seq<Byte> | Stops(Bytes64(num) + rest, MAX64) :: Get64(Bytes64(num) + rest).0 == num)
            <==> Plain(num, 8)
  {
    hide Value, Full, Length, Bytes, Plain, Stops;
    if Plain(num, 8) {
      forall rest: seq<Byte> | Stops(Bytes64(num) + rest, MAX64) ensures Get64(Bytes64(num) + rest).0 == num {
        RoundTrip64(num, rest);
      }
    } else {
      var rest := Wrong(num, MAX64);
      assert Get64(Bytes64(num) + rest).0 != num;
    }
  }

  lemma Inverts32(num: nat)
    requires num < 0x1_0000_0000
    ensures (forall rest: seq<Byte> | Stops(Bytes32(num) + rest, MAX32) :: Get32(Bytes32(num) + rest).0 == num)
            <==> Plain(num, 4)
  {
    hide Value, Full, Length, Bytes, Plain, Stops;
    if Plain(num, 4) {
      forall rest: seq<Byte> | Stops(Bytes32(num) + rest, MAX32) ensures Get32(Bytes32(num) + rest).0 == num {
        RoundTrip32(num, rest);
      }
    } else {
      var rest := Wrong(num, MAX32);
      assert Get32(Bytes32(num) + rest).0 != num;
    }
  }

  // Inputs: 128 takes one byte, of which the decoder makes two; and 129 * 2^56
  // takes ten bytes, of which the decoder reads nine.
  lemma Examples()
    ensures Bytes32(128) == [128] && Get32(Bytes32(128) + Zeros(MAX32)) == (0, 2)
    ensures |Bytes64(0x8100_0000_0000_0000)| == MAX64 + 1
  {
    var d := Bytes32(128) + Zeros(MAX32);
    var t := d[1..];
    assert t[0] == 0;
    assert Value(t, 4) == 0 && Length(t, 4) == 1 && !Full(t, 4);
    assert Value(d, MAX32) == 0 && Length(d, MAX32) == 2 && !Full(d, MAX32);
    Powers();
    BytesLength(0x8100_0000_0000_0000, MAX64);
  }

  // ------------------------------------------------------------ the loops

  // The first `r` bytes are written.
  function Mixed(w: seq<Byte>, was: seq<Byte>, r: nat): seq<Byte>
    requires r <= |w| <= |was|
  {
    w[..r] + was[r..]
  }

  method Put(data: array<Byte>, i: nat, x: Byte, ghost w: seq<Byte>, ghost was: seq<Byte>)
    requires i < |w| <= |was| && x == w[i] && data[..] == Mixed(w, was, i)
    modifies data
    ensures data[..] == Mixed(w, was, i + 1)
  {
    data[i] := x;
  }

  lemma FirstByte(num: nat, left: nat)
    ensures num <= 128 ==> Bytes(num, left) == [num]
    ensures num > 128 ==>
              Bytes(num, left) == [num % 128 + 128] + if left <= 1 then [num / 128 % 256]
                else Bytes(num / 128, left - 1)
  {
  }

  // The next byte, and what is still to come.
  lemma NextByte(w: seq<Byte>, r: nat, num: nat, left: nat)
    requires r < |w| && w[r..] == Bytes(num, left)
    ensures num <= 128 ==> w[r] == num && r + 1 == |w|
    ensures num > 128 ==> w[r] == num % 128 + 128 && r + 1 < |w|
    ensures num > 128 && left <= 1 ==> w[r + 1] == num / 128 % 256 && r + 2 == |w|
    ensures num > 128 && left > 1 ==> w[r + 1..] == Bytes(num / 128, left - 1)
  {
    FirstByte(num, left);
    hide Bytes;
    var t := w[r..];
    assert w[r] == t[0] && w[r + 1..] == t[1..] && |t| == |w| - r;
  }

  // Both encoders; `top` is 3 or 7.
  method Set(data: array<Byte>, number: nat, top: nat) returns (ret: nat)
    requires |Bytes(number, top + 2)| <= data.Length
    modifies data
    ensures ret == |Bytes(number, top + 2)|
    ensures data[..] == Mixed(Bytes(number, top + 2), old(data[..]), ret)
  {
    hide Bytes, Mixed;
    ghost var was: seq<Byte>, w: seq<Byte> := data[..], Bytes(number, top + 2);
    NothingMixed(w, was);
    var num := number;
    ret := 0;
    while num > 128
      invariant ret <= top + 1 && ret < |w| && w[ret..] == Bytes(num, top + 2 - ret)
      invariant data[..] == Mixed(w, was, ret)
      decreases num
    {
      NextByte(w, ret, num, top + 2 - ret);
      Put(data, ret, num % 128 + 128, w, was);
      num := num / 128;
      ret := ret + 1;
      if ret - 1 > top {
        break;
      }
    }
    if num <= 128 && ret <= top + 1 { NextByte(w, ret, num, top + 2 - ret); }
    Put(data, ret, num % 256, w, was);
    ret := ret + 1;
  }

  lemma NothingMixed(w: seq<Byte>, was: seq<Byte>)
    requires |w| <= |was|
    ensures Mixed(w, was, 0) == was
  {
  }

  // One turn of a decoder: the sum and the weight of the next byte, each cut to
  // the width `m` of the integers.
  lemma Turn(sum: nat, weight: nat, x: nat, m: nat)
    requires m > 0
    ensures (sum % m + x * (weight % m)) % m == (sum + x * weight) % m
    ensures weight % m * 128 % m == weight * 128 % m
    ensures x * weight >= 0
  {
    ModSumMul(sum, x, weight, m);
    ModSumMul(0, 128, weight, m);
  }

  // With `i` bytes read there are more to come; and reading ends after `i` bytes.
  ghost predicate Reading(d: seq<Byte>, max: nat, i: nat, sum: nat, weight: nat) {
    i < max && i < |d| && Stops(d, max) && Stops(d[i..], max - i)
    && Value(d, max) == sum + weight * Value(d[i..], max - i)
    && Length(d, max) == i + Length(d[i..], max - i)
    && (Full(d, max) <==> Full(d[i..], max - i))
  }

  ghost predicate Ended(d: seq<Byte>, max: nat, i: nat, sum: nat) {
    0 < i <= max && i <= |d| && Stops(d, max)
    && Value(d, max) == sum && Length(d, max) == i
    && (Full(d, max) <==> i == max && d[i - 1] >= 128)
  }

  lemma Unfold(t: seq<Byte>, left: nat)
    requires Stops(t, left)
    ensures t[0] < 128 || left == 1 ==> Value(t, left) == t[0] % 128 && Length(t, left) == 1
    ensures t[0] < 128 ==> !Full(t, left)
    ensures t[0] >= 128 && left == 1 ==> Full(t, left)
    ensures t[0] >= 128 && left > 1 ==>
              Stops(t[1..], left - 1)
              && Value(t, left) == t[0] % 128 + 128 * Value(t[1..], left - 1)
              && Length(t, left) == 1 + Length(t[1..], left - 1) && (Full(t, left) <==> Full(t[1..], left - 1))
  {
  }

  lemma ReadByte(d: seq<Byte>, max: nat, i: nat, sum: nat, weight: nat)
    requires Reading(d, max, i, sum, weight)
    ensures var next := sum + d[i] % 128 * weight;
      if d[i] < 128 || i + 1 == max then Ended(d, max, i + 1, next) else Reading(d, max, i + 1, next, weight * 128)
  {
    var t := d[i..];
    assert t[0] == d[i];
    Unfold(t, max - i);
    hide Value, Length, Full, Stops;
    if d[i] >= 128 && i + 1 < max {
      assert d[i + 1..] == t[1..];
      Weigh(weight, d[i] % 128, Value(t[1..], max - i - 1));
    }
  }

  lemma Weigh(weight: nat, x: nat, v: nat)
    ensures weight * (x + 128 * v) == x * weight + weight * 128 * v
  {
  }

  lemma NothingRead(d: seq<Byte>, max: nat)
    requires Stops(d, max)
    ensures Reading(d, max, 0, 0, 1)
  {
    assert d[0..] == d;
  }

  // Both decoders, for integers below `m`: `max` is 5 or 9, `high` what is added
  // if the top bit of the last byte is set.
  method Get(data: array<Byte>, max: nat, high: nat, m: nat) returns (ret: nat, len: nat)
    requires Stops(data[..], max) && m > 0
    ensures ret == (Value(data[..], max) + if Full(data[..], max) then high else 0) % m
    ensures len == Length(data[..], max)
  {
    ghost var d := data[..];
    ghost var sum: nat, weight: nat := 0, 1;
    NothingRead(d, max);
    hide Value, Full, Length, Stops;
    ret := 0;
    var n := 1 % m;
    var i := 0;
    var more := true;
    while i < max && more
      invariant i <= max && ret == sum % m && n == weight % m
      invariant if i < max && more then Reading(d, max, i, sum, weight) else Ended(d, max, i, sum)
      decreases max - i
    {
      var x := data[i];
      Turn(sum, weight, x % 128, m);
      ReadByte(d, max, i, sum, weight);
      sum := sum + x % 128 * weight;
      ret := (ret + x % 128 * n) % m;
      i := i + 1;
      if x < 128 {
        more := false;
      } else {
        n := n * 128 % m;
        weight := weight * 128;
      }
    }
    if i == max && data[max - 1] >= 128 {
      ret := (ret + high) % m;
      ModAdd(sum, high, m);
    }
    len := i;
  }

  lemma ModAdd(s: nat, x: nat, m: nat)
    requires m > 0
    ensures (s % m + x) % m == (s + x) % m
  {
    Quotient(s, m);
    ModMore(s % m + x, s / m, m);
  }

  method SetVint32(data: array<Byte>, num: nat) returns (ret: nat)
    requires num < 0x1_0000_0000 && |Bytes32(num)| <= data.Length
    modifies data
    ensures ret == |Bytes32(num)| && data[..] == Bytes32(num) + old(data[ret..])
  {
    ret := Set(data, num, 3);
  }

  // For large numbers the code writes a tenth byte, for which there must be room.
  method SetVint64(data: array<Byte>, num: nat) returns (ret: nat)
    requires num < 0x1_0000_0000_0000_0000 && |Bytes64(num)| <= data.Length
    modifies data
    ensures ret == |Bytes64(num)| && data[..] == Bytes64(num) + old(data[ret..])
  {
    ret := Set(data, num, 7);
  }

  method GetVint32(data: array<Byte>) returns (num: nat, len: nat)
    requires Stops(data[..], MAX32)
    ensures (num, len) == Get32(data[..])
  {
    num, len := Get(data, MAX32, 0x8000_0000, 0x1_0000_0000);
  }

  method GetVint64(data: array<Byte>) returns (num: nat, len: nat)
    requires Stops(data[..], MAX64)
    ensures (num, len) == Get64(data[..])
  {
    num, len := Get(data, MAX64, 0x8000_0000_0000_0000, 0x1_0000_0000_0000_0000);
  }

  // ------------------------------------------------------------ blobs

  function Blob(blob: seq<Byte>): seq<Byte> {
    Bytes32(|blob| % 0x1_0000_0000) + blob
  }

  // The length, cut to 32 bits, and then the bytes.
  method SetBlob(data: array<Byte>, blob: seq<Byte>) returns (ret: nat)
    requires |Blob(blob)| <= data.Length
    modifies data
    ensures ret == |Blob(blob)| && data[..ret] == Blob(blob)
  {
    var num := SetVint32(data, |blob| % 0x1_0000_0000);
    forall i | 0 <= i < |blob| {
      data[num + i] := blob[i];
    }
    ret := |blob| + num;
  }

  // A blob is found again, in length and place, whatever follows it, exactly if its length
  // is plain.
  lemma BlobRoundTrip(blob: seq<Byte>, rest: seq<Byte>)
    requires |blob| < 0x1_0000_0000
    ensures var d := Blob(blob) + rest;
      && (Plain(|blob|, 4) ==>
            Stops(d, MAX32) && var (len, pos) := Get32(d); pos + len <= |d| && d[pos..pos + len] == blob)
      && (Stops(d, MAX32) && Get32(d) == (|blob|, |d| - |blob| - |rest|) <==> Plain(|blob|, 4))
  {
    hide Value, Full, Length, Bytes, Plain, Stops;
    var d := Blob(blob) + rest;
    assert d == Bytes32(|blob|) + (blob + rest);
    RoundTrip32(|blob|, blob + rest);
  }
}
