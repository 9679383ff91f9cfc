/** The byte reader: a cursor over immutable bytes, with variable-length integers in
    the format of section 7.6 of DWARF 4. */
module Leb128 {
  import opened Bytes

  const TWO63: int := 0x8000_0000_0000_0000
  const TWO64: int := 0x1_0000_0000_0000_0000

  datatype Error = UnexpectedEnd | Overflow

  /** What a read yields and where it leaves the cursor, in failure too. */
  datatype Read<+T> = Ok(value: T, next: nat) | Err(error: Error, next: nat)

  // ---------- The meaning of an encoded integer

  predicate Continues(b: Byte) {
    b >= 128
  }

  /** Number of bytes from `pos` on that say another one follows. */
  function Run(data: seq<Byte>, pos: nat): (n: nat)
    requires pos <= |data|
    ensures pos + n <= |data|
    ensures forall i :: pos <= i < pos + n ==> Continues(data[i])
    ensures pos + n < |data| ==> !Continues(data[pos + n])
    decreases |data| - pos
  {
    if pos < |data| && Continues(data[pos]) then 1 + Run(data, pos + 1) else 0
  }

  /** Seven bits a byte, least significant first. */
  function LowValue(s: seq<Byte>): nat {
    if s == [] then 0 else s[0] % 128 + 128 * LowValue(s[1..])
  }

  /** The same with the top bit of the last seven as sign. */
  function SignedValue(s: seq<Byte>): int
    requires s != []
  {
    if |s| == 1 then (if s[0] % 128 >= 64 then s[0] % 128 - 128 else s[0] % 128)
    else s[0] % 128 + 128 * SignedValue(s[1..])
  }

  function Wrap64(v: int): int {
    (v + TWO63) % TWO64 - TWO63
  }

  /** Ten bytes carry 70 bits; an eleventh is never looked at. */
  const MAX_LEB_BYTES: nat := 10

  function Uleb(data: seq<Byte>, pos: nat): Read<nat>
    requires pos <= |data|
  {
    var n := Run(data, pos);
    if n >= MAX_LEB_BYTES then Err(Overflow, pos + MAX_LEB_BYTES)
    else if pos + n == |data| then Err(UnexpectedEnd, pos + n)
    else Ok(LowValue(data[pos..pos + n + 1]) % TWO64, pos + n + 1)
  }

  function Sleb(data: seq<Byte>, pos: nat): (r: Read<int>)
    requires pos <= |data|
    ensures pos <= r.next <= |data|
    ensures r.Ok? ==> pos < r.next
  {
    var n := Run(data, pos);
    if n >= MAX_LEB_BYTES then Err(Overflow, pos + MAX_LEB_BYTES)
    else if pos + n == |data| then Err(UnexpectedEnd, pos + n)
    else Ok(Wrap64(SignedValue(data[pos..pos + n + 1])), pos + n + 1)
  }

  // ---------- Powers of 128

  function Pow128(n: nat): (p: nat)
    ensures p > 0
  {
    if n == 0 then 1 else 128 * Pow128(n - 1)
  }

  lemma Powers()
    ensures Pow128(0) == 1 && Pow128(1) == 0x80 && Pow128(2) == 0x4000 && Pow128(3) == 0x20_0000
    ensures Pow128(4) == 0x1000_0000 && Pow128(5) == 0x8_0000_0000 && Pow128(6) == 0x400_0000_0000
    ensures Pow128(7) == 0x2_0000_0000_0000 && Pow128(8) == 0x100_0000_0000_0000 && Pow128(9) == TWO63
    ensures Pow128(10) == 128 * TWO63
  {
    assert Pow128(4) == 0x1000_0000;
    assert Pow128(7) == 0x2_0000_0000_0000;
  }

  lemma {:induction false} LowValueSnoc(s: seq<Byte>, b: Byte)
    ensures LowValue(s + [b]) == LowValue(s) + (b % 128) * Pow128(|s|)
  {
    if s == [] {
      assert ([] + [b])[1..] == [];
    } else {
      LowValueSnoc(s[1..], b);
      assert (s + [b])[1..] == s[1..] + [b];
      var p := Pow128(|s| - 1);
      assert (b % 128) * (128 * p) == 128 * ((b % 128) * p);
    }
  }

  lemma {:induction false} LowValueBound(s: seq<Byte>)
    ensures LowValue(s) < Pow128(|s|)
  {
    if s != [] {
      LowValueBound(s[1..]);
    }
  }

  /** The sign bit subtracts the next power: what filling the high bits does. */
  lemma {:induction false} SignedFromLow(s: seq<Byte>)
    requires s != []
    ensures SignedValue(s) == LowValue(s) - (if s[|s| - 1] % 128 >= 64 then Pow128(|s|) else 0)
  {
    if |s| == 1 {
      assert s[1..] == [];
    } else {
      SignedFromLow(s[1..]);
    }
  }

  // ---------- Encoding

  /** Canonical signed encoding: seven bits at a time until the rest is the sign. */
  function EncodeSleb(v: int): (s: seq<Byte>)
    ensures s != []
    decreases if v < 0 then -v else v
  {
    if -64 <= v < 64 then [v % 128] else [v % 128 + 128] + EncodeSleb(v / 128)
  }

  lemma {:induction false} EncodedValue(v: int)
    ensures SignedValue(EncodeSleb(v)) == v
    decreases if v < 0 then -v else v
  {
    if !(-64 <= v < 64) {
      EncodedValue(v / 128);
      assert EncodeSleb(v)[1..] == EncodeSleb(v / 128);
      assert v == v % 128 + 128 * (v / 128);
    }
  }

  lemma {:induction false} EncodedShape(v: int)
    ensures var s := EncodeSleb(v);
      && (forall i :: 0 <= i < |s| - 1 ==> Continues(s[i]))
      && !Continues(s[|s| - 1])
      && (s[|s| - 1] >= 64 <==> v < 0)
    decreases if v < 0 then -v else v
  {
    if !(-64 <= v < 64) {
      EncodedShape(v / 128);
    }
  }

  lemma {:induction false} EncodedLength(v: int, n: nat)
    requires n > 0 && -64 * Pow128(n - 1) <= v < 64 * Pow128(n - 1)
    ensures |EncodeSleb(v)| <= n
    decreases n
  {
    if !(-64 <= v < 64) {
      EncodedLength(v / 128, n - 1);
    }
  }

  lemma {:induction false} RunIs(data: seq<Byte>, start: nat, end: nat)
    requires start <= end <= |data|
    requires forall i :: start <= i < end ==> Continues(data[i])
    requires end < |data| ==> !Continues(data[end])
    ensures Run(data, start) == end - start
    decreases end - start
  {
    if start < end {
      RunIs(data, start + 1, end);
    }
  }

  lemma {:induction false} RunAtLeast(data: seq<Byte>, start: nat, n: nat)
    requires start + n <= |data|
    requires forall i :: start <= i < start + n ==> Continues(data[i])
    ensures Run(data, start) >= n
    decreases n
  {
    if n > 0 {
      RunAtLeast(data, start + 1, n - 1);
    }
  }

  lemma RunOfEncoding(data: seq<Byte>, pos: nat, s: seq<Byte>)
    requires s != [] && pos + |s| <= |data| && data[pos..pos + |s|] == s
    requires forall i :: 0 <= i < |s| - 1 ==> Continues(s[i])
    requires !Continues(s[|s| - 1])
    ensures Run(data, pos) == |s| - 1
  {
    forall i | 0 <= i < |s| ensures data[pos + i] == s[i] {
      assert data[pos..pos + |s|][i] == data[pos + i];
    }
    RunIs(data, pos, pos + |s| - 1);
  }

  predicate IsInt64(v: int) {
    -TWO63 <= v < TWO63
  }

  /** An encoded 64-bit value sits at `pos`. */
  ghost predicate EncodedAt(data: seq<Byte>, pos: nat, v: int) {
    At(data, pos, EncodeSleb(v))
  }

  lemma EncodedRun(data: seq<Byte>, pos: nat, v: int)
    requires IsInt64(v) && EncodedAt(data, pos, v)
    ensures Run(data, pos) == |EncodeSleb(v)| - 1
    ensures |EncodeSleb(v)| <= MAX_LEB_BYTES
  {
    EncodedShape(v);
    RunOfEncoding(data, pos, EncodeSleb(v));
    Powers();
    EncodedLength(v, 10);
  }

  /** Reading an encoded 64-bit value anywhere in any bytes gives it back and moves
      past exactly its encoding. */
  lemma SlebRoundTrip(data: seq<Byte>, pos: nat, v: int)
    requires IsInt64(v) && EncodedAt(data, pos, v)
    ensures Sleb(data, pos) == Ok(v, pos + |EncodeSleb(v)|)
    ensures |EncodeSleb(v)| <= MAX_LEB_BYTES
  {
    EncodedRun(data, pos, v);
    EncodedValue(v);
  }

  lemma NonNegativeLow(v: int)
    requires v >= 0
    ensures LowValue(EncodeSleb(v)) == v
  {
    EncodedShape(v);
    EncodedValue(v);
    SignedFromLow(EncodeSleb(v));
  }

  /** Reading signed integers of `data` by position, whatever the position. */
  function SlebReader(data: seq<Byte>): nat -> Read<int> {
    (pos: nat) => if pos <= |data| then Sleb(data, pos) else Err(UnexpectedEnd, pos)
  }

  /** From `pos` to `end` the reader yields exactly the values `vs`. */
  ghost predicate Carries(rd: nat -> Read<int>, pos: nat, vs: seq<int>, end: nat)
    decreases |vs|
  {
    if vs == [] then pos == end
    else rd(pos).Ok? && rd(pos).value == vs[0] && Carries(rd, rd(pos).next, vs[1..], end)
  }

  function EncodeAll(vs: seq<int>): seq<Byte> {
    if vs == [] then [] else EncodeSleb(vs[0]) + EncodeAll(vs[1..])
  }

  predicate AllInt64(vs: seq<int>) {
    forall v :: v in vs ==> IsInt64(v)
  }

  lemma ReaderReads(data: seq<Byte>, pos: nat, v: int)
    requires IsInt64(v) && EncodedAt(data, pos, v)
    ensures SlebReader(data)(pos) == Ok(v, pos + |EncodeSleb(v)|)
  {
    SlebRoundTrip(data, pos, v);
  }

  /** Encoded values in a row are read back in a row. */
  lemma {:induction false} EncodedCarries(data: seq<Byte>, pos: nat, vs: seq<int>)
    requires AllInt64(vs) && At(data, pos, EncodeAll(vs))
    ensures Carries(SlebReader(data), pos, vs, pos + |EncodeAll(vs)|)
    decreases |vs|
  {
    if vs != [] {
      var next := pos + |EncodeSleb(vs[0])|;
      FirstIsRead(data, pos, vs);
      EncodedCarries(data, next, vs[1..]);
      CarriesFirst(SlebReader(data), pos, vs, next, pos + |EncodeAll(vs)|);
    }
  }

  lemma FirstIsRead(data: seq<Byte>, pos: nat, vs: seq<int>)
    requires vs != [] && AllInt64(vs) && At(data, pos, EncodeAll(vs))
    ensures var next := pos + |EncodeSleb(vs[0])|;
      && SlebReader(data)(pos) == Ok(vs[0], next) && At(data, next, EncodeAll(vs[1..]))
      && |EncodeAll(vs)| == |EncodeSleb(vs[0])| + |EncodeAll(vs[1..])|
  {
    assert vs[0] in vs;
    AtConcat(data, pos, EncodeSleb(vs[0]), EncodeAll(vs[1..]));
    ReaderReads(data, pos, vs[0]);
  }

  lemma CarriesFirst(rd: nat -> Read<int>, pos: nat, vs: seq<int>, next: nat, end: nat)
    requires vs != [] && rd(pos) == Ok(vs[0], next) && Carries(rd, next, vs[1..], end)
    ensures Carries(rd, pos, vs, end)
  {
  }

  lemma {:induction false} EncodeAllLength(vs: seq<int>)
    ensures |EncodeAll(vs)| >= |vs|
  {
    if vs != [] {
      EncodeAllLength(vs[1..]);
    }
  }

  lemma {:induction false} EncodeAllConcat(a: seq<int>, b: seq<int>)
    ensures EncodeAll(a + b) == EncodeAll(a) + EncodeAll(b)
  {
    if a == [] {
      assert [] + b == b;
    } else {
      EncodeAllConcat(a[1..], b);
      assert (a + b)[1..] == a[1..] + b;
      var head, mid, last := EncodeSleb(a[0]), EncodeAll(a[1..]), EncodeAll(b);
      assert head + (mid + last) == (head + mid) + last;
    }
  }

  lemma {:induction false} CarriesSplit(rd: nat -> Read<int>, pos: nat, a: seq<int>, b: seq<int>, end: nat)
    requires Carries(rd, pos, a + b, end)
    ensures exists mid :: Carries(rd, pos, a, mid) && Carries(rd, mid, b, end)
    decreases |a|
  {
    if a == [] {
      assert [] + b == b;
      assert Carries(rd, pos, a, pos);
    } else {
      assert (a + b)[1..] == a[1..] + b;
      CarriesSplit(rd, rd(pos).next, a[1..], b, end);
      var mid :| Carries(rd, rd(pos).next, a[1..], mid) && Carries(rd, mid, b, end);
      assert Carries(rd, pos, a, mid);
    }
  }

  /** The unsigned reader agrees on the signed encoding of a non-negative value. */
  lemma UlebReadsSigned(data: seq<Byte>, pos: nat, v: int)
    requires 0 <= v < TWO63 && EncodedAt(data, pos, v)
    ensures Uleb(data, pos) == Ok(v, pos + |EncodeSleb(v)|)
  {
    EncodedRun(data, pos, v);
    NonNegativeLow(v);
  }

  // ---------- The reader

  function Pow2(n: nat): (p: nat)
    ensures p > 0
  {
    if n == 0 then 1 else 2 * Pow2(n - 1)
  }

  lemma {:induction false} SevenBits(n: nat)
    ensures Pow2(7 * n) == Pow128(n)
  {
    if n > 0 {
      SevenBits(n - 1);
      var m := 7 * (n - 1);
      assert Pow2(m + 7) == 2 * Pow2(m + 6) && Pow2(m + 6) == 2 * Pow2(m + 5) && Pow2(m + 5) == 2 * Pow2(m + 4);
      assert Pow2(m + 4) == 2 * Pow2(m + 3) && Pow2(m + 3) == 2 * Pow2(m + 2) && Pow2(m + 2) == 2 * Pow2(m + 1);
      assert Pow2(m + 1) == 2 * Pow2(m);
    }
  }

  /** Left shift in 64 bits. */
  function Shl64(bits: nat, shift: nat): nat {
    (bits * Pow2(shift)) % TWO64
  }

  /** Bitwise or of a value below bit `shift` with one that is zero there: no bit is
      shared, so it is the sum. */
  function OrDisjoint(low: nat, high: nat, shift: nat): nat
    requires low < Pow2(shift) && IsMultiple(high, Pow2(shift))
  {
    low + high
  }

  ghost predicate IsMultiple(x: nat, unit: nat) {
    exists k: nat :: x == k * unit
  }

  lemma MulMonotone(a: nat, b: nat, p: nat)
    requires a <= b
    ensures a * p <= b * p
  {
  }

  lemma PowBelow(n: nat)
    requires n < 9
    ensures 128 * Pow128(n) <= TWO63
  {
    Powers();
  }

  lemma RemainderOf(q: nat, r: nat)
    requires r < TWO64
    ensures (q * TWO64 + r) % TWO64 == r
  {
  }

  lemma LastBit(bits: nat)
    ensures (bits * TWO63) % TWO64 == (bits % 2) * TWO63
  {
    assert bits * TWO63 == (bits / 2) * TWO64 + (bits % 2) * TWO63;
    RemainderOf(bits / 2, (bits % 2) * TWO63);
  }

  /** Seven bits shifted into place: nothing is lost before the tenth byte, which keeps one bit. */
  lemma ShiftedInto64(bits: nat, n: nat)
    requires bits < 128 && n < MAX_LEB_BYTES
    ensures n < 9 ==> Shl64(bits, 7 * n) == bits * Pow128(n) <= 127 * Pow128(n)
    ensures n == 9 ==> Shl64(bits, 7 * n) == (bits % 2) * TWO63
  {
    SevenBits(n);
    if n < 9 {
      PowBelow(n);
      MulMonotone(bits, 127, Pow128(n));
    } else {
      Powers();
      LastBit(bits);
    }
  }

  lemma ShiftedMultiple(bits: nat, n: nat)
    requires bits < 128 && n < MAX_LEB_BYTES
    ensures IsMultiple(Shl64(bits, 7 * n), Pow2(7 * n))
  {
    ShiftedInto64(bits, n);
    SevenBits(n);
    Powers();
    if n < 9 {
      assert Shl64(bits, 7 * n) == bits * Pow2(7 * n);
    } else {
      assert Shl64(bits, 7 * n) == (bits % 2) * Pow2(7 * n);
    }
  }

  lemma SumEarly(acc: nat, bits: nat, n: nat)
    requires bits < 128 && n < 9 && acc < Pow128(n)
    ensures acc + Shl64(bits, 7 * n) == acc + bits * Pow128(n) < TWO63
  {
    ShiftedInto64(bits, n);
    PowBelow(n);
  }

  lemma SumLast(acc: nat, bits: nat)
    requires bits < 128 && acc < TWO63
    ensures acc + Shl64(bits, 63) == (acc + bits * TWO63) % TWO64
  {
    ShiftedInto64(bits, 9);
    assert acc + bits * TWO63 == (bits / 2) * TWO64 + (acc + (bits % 2) * TWO63);
    RemainderOf(bits / 2, acc + (bits % 2) * TWO63);
  }

  lemma NinthPower()
    ensures Pow128(9) == TWO63
  {
    Powers();
  }

  lemma SumBelow(acc: nat, bits: nat, n: nat)
    requires bits < 128 && n < MAX_LEB_BYTES && acc < Pow128(n)
    ensures n < 9 ==> acc + Shl64(bits, 7 * n) == acc + bits * Pow128(n) < TWO63
    ensures acc + Shl64(bits, 7 * n) == (acc + bits * Pow128(n)) % TWO64
  {
    if n < 9 {
      SumEarly(acc, bits, n);
      KeepsSmall(acc + bits * Pow128(n));
    } else {
      NinthPower();
      SumLast(acc, bits);
    }
  }

  lemma KeepsSmall(v: nat)
    requires v < TWO63
    ensures v % TWO64 == v
  {
  }

  /** Or-ing in the next byte's seven bits extends the value read so far. */
  lemma NextSevenBits(data: seq<Byte>, start: nat, pos: nat)
    requires start <= pos < |data| && pos - start < MAX_LEB_BYTES
    ensures var low, shift, bits := LowValue(data[start..pos]), 7 * (pos - start), data[pos] % 128;
      && low < Pow2(shift) && IsMultiple(Shl64(bits, shift), Pow2(shift))
      && low + Shl64(bits, shift) == LowValue(data[start..pos + 1]) % TWO64
      && (pos - start < 9 ==> low + Shl64(bits, shift) == LowValue(data[start..pos + 1]))
      && LowValue(data[start..pos + 1]) < Pow128(pos + 1 - start)
  {
    var n, s, bits := pos - start, data[start..pos], data[pos] % 128;
    SevenBits(n);
    assert data[start..pos + 1] == s + [data[pos]];
    LowValueSnoc(s, data[pos]);
    LowValueBound(s);
    LowValueBound(s + [data[pos]]);
    ShiftedMultiple(bits, n);
    SumBelow(LowValue(s), bits, n);
  }

  lemma HighBits(n: nat)
    requires n <= 9
    ensures Pow2(7 * n) <= TWO63 && IsMultiple(TWO64 - Pow2(7 * n), Pow2(7 * n))
  {
    SevenBits(n);
    Powers();
    PowersDivide(n);
    var p := Pow128(n);
    assert TWO64 - p == (2 * Pow128(9 - n) - 1) * p;
  }

  lemma {:induction false} PowersDivide(n: nat)
    requires n <= 9
    ensures Pow128(9 - n) * Pow128(n) == TWO63
  {
    Powers();
    if n > 0 {
      PowersDivide(n - 1);
      var p := Pow128(n - 1);
      assert Pow128(10 - n) == 128 * Pow128(9 - n);
      assert Pow128(9 - n) * (128 * p) == 128 * Pow128(9 - n) * p;
    }
  }

  /** A 64-bit pattern read as a signed number. */
  function AsSigned(bits: int): int {
    if bits >= TWO63 then bits - TWO64 else bits
  }

  lemma ShortSigned(low: nat, p: nat, negative: bool)
    requires low < p <= TWO63
    ensures low % TWO64 == low
    ensures Wrap64(if negative then low - p else low) == AsSigned(if negative then low + (TWO64 - p) else low)
  {
  }

  lemma LongSigned(v: nat, negative: bool)
    ensures Wrap64(if negative then v - 64 * TWO64 else v) == AsSigned(v % TWO64)
  {
  }

  /** Filling the bits above the last seven with their sign gives the signed value. */
  lemma SignExtends(s: seq<Byte>)
    requires 0 < |s| <= MAX_LEB_BYTES
    ensures var low, fill := LowValue(s) % TWO64, |s| < 10 && s[|s| - 1] % 128 >= 64;
      var result := if fill then low + (TWO64 - Pow2(7 * |s|)) else low;
      Wrap64(SignedValue(s)) == AsSigned(result)
  {
    var negative := s[|s| - 1] % 128 >= 64;
    SignedFromLow(s);
    SevenBits(|s|);
    LowValueBound(s);
    if |s| < 10 {
      HighBits(|s|);
      ShortSigned(LowValue(s), Pow128(|s|), negative);
    } else {
      Powers();
      LongSigned(LowValue(s), negative);
    }
  }

  lemma RoomAbove(s: seq<Byte>)
    requires |s| <= 9
    ensures LowValue(s) % TWO64 < Pow2(7 * |s|) <= TWO63
    ensures IsMultiple(TWO64 - Pow2(7 * |s|), Pow2(7 * |s|))
  {
    LowValueBound(s);
    SevenBits(|s|);
    HighBits(|s|);
  }

  /** Where a read that began at `start` stands after whole continuation bytes. */
  ghost predicate Reading(data: seq<Byte>, start: nat, pos: nat, shift: nat, result: nat) {
    && start <= pos <= |data| && shift == 7 * (pos - start) && shift < 64
    && AllContinue(data, start, pos)
    && result == LowValue(data[start..pos])
  }

  ghost predicate AllContinue(data: seq<Byte>, start: nat, pos: nat)
    requires start <= pos <= |data|
  {
    forall i :: start <= i < pos ==> Continues(data[i])
  }

  lemma RanOut(data: seq<Byte>, start: nat, pos: nat, shift: nat, result: nat)
    requires Reading(data, start, pos, shift, result) && pos == |data|
    ensures Uleb(data, start) == Err(UnexpectedEnd, pos) && Sleb(data, start) == Err(UnexpectedEnd, pos)
  {
    RunIs(data, start, pos);
  }

  /** What taking in one more byte does, whichever way the read goes on. */
  lemma NextByte(data: seq<Byte>, start: nat, pos: nat, shift: nat, result: nat)
    requires Reading(data, start, pos, shift, result) && pos < |data|
    ensures result < Pow2(shift) && IsMultiple(Shl64(data[pos] % 128, shift), Pow2(shift))
    ensures var result', s := result + Shl64(data[pos] % 128, shift), data[start..pos + 1];
      if !Continues(data[pos]) then
        && |s| <= MAX_LEB_BYTES && s != [] && result' == LowValue(s) % TWO64
        && Uleb(data, start) == Ok(result', pos + 1)
        && Sleb(data, start) == Ok(Wrap64(SignedValue(s)), pos + 1)
      else if shift + 7 < 64 then Reading(data, start, pos + 1, shift + 7, result')
      else Uleb(data, start) == Err(Overflow, pos + 1) && Sleb(data, start) == Err(Overflow, pos + 1)
  {
    NextSevenBits(data, start, pos);
    if !Continues(data[pos]) {
      RunIs(data, start, pos);
    } else if shift + 7 >= 64 {
      RunAtLeast(data, start, pos + 1 - start);
    }
  }

  /** A read that has just taken in its last byte, as `result` before any sign extension. */
  ghost predicate Finished(data: seq<Byte>, start: nat, pos: nat, shift: nat, result: nat) {
    && start < pos <= |data| && pos - start <= MAX_LEB_BYTES && shift == 7 * (pos - start)
    && result == LowValue(data[start..pos]) % TWO64
    && Sleb(data, start) == Ok(Wrap64(SignedValue(data[start..pos])), pos)
  }

  lemma SignFits(data: seq<Byte>, start: nat, pos: nat, shift: nat, result: nat)
    requires Finished(data, start, pos, shift, result) && shift < 64
    ensures result < Pow2(shift) <= TWO63 && IsMultiple(TWO64 - Pow2(shift), Pow2(shift))
  {
    RoomAbove(data[start..pos]);
  }

  lemma SignedRead(data: seq<Byte>, start: nat, pos: nat, shift: nat, result: nat)
    requires Finished(data, start, pos, shift, result)
    ensures shift < 64 && data[pos - 1] % 128 >= 64 ==> Sleb(data, start) == Ok(AsSigned(result + (TWO64 - Pow2(shift))), pos)
    ensures !(shift < 64 && data[pos - 1] % 128 >= 64) ==> Sleb(data, start) == Ok(AsSigned(result), pos)
  {
    SignExtends(data[start..pos]);
  }

  class ByteReader {
    const data: seq<Byte>
    var pos: nat

    ghost predicate Valid()
      reads this
    {
      pos <= |data|
    }

    constructor (data: seq<Byte>)
      ensures Valid() && this.data == data && pos == 0
    {
      this.data := data;
      pos := 0;
    }

    function Remaining(): nat
      requires Valid()
      reads this
    {
      |data| - pos
    }

    /** `len` bytes, or nothing and no movement. */
    method ReadExact(len: nat) returns (r: Read<seq<Byte>>)
      requires Valid()
      modifies this
      ensures Valid() && pos == r.next
      ensures r == if old(pos) + len <= |data| then Ok(data[old(pos)..old(pos) + len], old(pos) + len)
                   else Err(UnexpectedEnd, old(pos))
    {
      var end := pos + len;
      if end > |data| {
        return Err(UnexpectedEnd, pos);
      }
      var start := pos;
      pos := end;
      return Ok(data[start..end], end);
    }

    method ReadUleb128() returns (r: Read<nat>)
      requires Valid()
      modifies this
      ensures Valid() && pos == r.next && r == Uleb(data, old(pos))
    {
      ghost var start := pos;
      var result: nat := 0;
      var shift := 0;
      while true
        invariant Reading(data, start, pos, shift, result)
        decreases |data| - pos
      {
        if pos >= |data| {
          RanOut(data, start, pos, shift, result);
          return Err(UnexpectedEnd, pos);
        }
        var byte := data[pos];
        NextByte(data, start, pos, shift, result);
        pos := pos + 1;
        result := OrDisjoint(result, Shl64(byte % 128, shift), shift);
        if !Continues(byte) {
          break;
        }
        shift := shift + 7;
        if shift >= 64 {
          return Err(Overflow, pos);
        }
      }
      return Ok(result, pos);
    }

    method ReadSleb128() returns (r: Read<int>)
      requires Valid()
      modifies this
      ensures Valid() && pos == r.next && r == Sleb(data, old(pos))
    {
      ghost var start := pos;
      var result: nat := 0;
      var shift := 0;
      var byte: Byte;
      while true
        invariant Reading(data, start, pos, shift, result)
        decreases |data| - pos
      {
        if pos >= |data| {
          RanOut(data, start, pos, shift, result);
          return Err(UnexpectedEnd, pos);
        }
        byte := data[pos];
        NextByte(data, start, pos, shift, result);
        pos := pos + 1;
        result := OrDisjoint(result, Shl64(byte % 128, shift), shift);
        shift := shift + 7;
        if !Continues(byte) {
          break;
        }
        if shift >= 64 {
          return Err(Overflow, pos);
        }
      }
      assert Finished(data, start, pos, shift, result);
      SignedRead(data, start, pos, shift, result);
      if shift < 64 && byte % 128 >= 64 {
        // the high bits from `shift` on become ones
        SignFits(data, start, pos, shift, result);
        result := OrDisjoint(result, TWO64 - Pow2(shift), shift);
      }
      return Ok(if result >= TWO63 then result - TWO64 else result, pos);
    }

    method ReadLengthPrefixedString() returns (r: Read<seq<Byte>>)
      requires Valid()
      modifies this
      ensures Valid() && pos == r.next && r == PrefixedString(data, old(pos))
    {
      var length := ReadUleb128();
      match length
      case Err(e, next) => return Err(e, next);
      case Ok(len, next) =>
        if len == 0 {
          return Ok([], next);
        }
        r := ReadExact(len);
    }
  }

  /** A length and that many bytes; a length of zero reads nothing more. */
  function PrefixedString(data: seq<Byte>, pos: nat): Read<seq<Byte>>
    requires pos <= |data|
  {
    match Uleb(data, pos)
    case Err(e, next) => Err(e, next)
    case Ok(len, next) =>
      if len == 0 then Ok([], next)
      else if next + len <= |data| then Ok(data[next..next + len], next + len)
      else Err(UnexpectedEnd, next)
  }
}
