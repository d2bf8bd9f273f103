/** The variable-length integers of the wire format: one byte below 0x80, or a
    tag byte with the number of bytes that follow, least significant first. */
module Varint {
  import opened Bytes

  datatype Error = Overflow | Negative | TooLarge | BadLength

  datatype Result<+T> = Ok(value: T, used: nat) | Err(error: Error)

  /** An integer type by its width in bytes. */
  datatype Ty = Ty(width: nat, signed: bool) {
    predicate Valid() { width == 1 || width == 2 || width == 4 || width == 8 }

    predicate Fits(v: int) {
      if signed then -(Pow(width) / 2) <= v < Pow(width) / 2 else 0 <= v < Pow(width)
    }
  }

  const I8 := Ty(1, true)
  const I32 := Ty(4, true)
  const I64 := Ty(8, true)

  // ------------------------------------------------------------ plain arithmetic

  /** 256 to the power k. */
  function Pow(k: nat): (r: nat)
    ensures r > 0
    ensures k > 0 ==> r % 256 == 0
  {
    if k == 0 then 1 else 256 * Pow(k - 1)
  }

  /** The k low bytes of v, least significant first. */
  function Le(v: int, k: nat): (r: seq<byte>)
    ensures |r| == k
    decreases k
  {
    if k == 0 then [] else [(v % 256) as byte] + Le(v / 256, k - 1)
  }

  function FromLe(bs: seq<byte>): (r: nat)
    ensures r < Pow(|bs|)
  {
    if bs == [] then 0 else bs[0] as nat + 256 * FromLe(bs[1..])
  }

  /** How many bytes the number takes after the tag. */
  function ByteCount(n: nat): (k: nat)
    requires n < Pow(8)
    ensures 1 <= k <= 8 && n < Pow(k) && (k > 1 ==> n >= Pow(k - 1))
  {
    PowValues();
    if n < 0x100 then 1
    else if n < 0x1_0000 then 2
    else if n < 0x100_0000 then 3
    else if n < 0x1_0000_0000 then 4
    else if n < 0x100_0000_0000 then 5
    else if n < 0x1_0000_0000_0000 then 6
    else if n < 0x100_0000_0000_0000 then 7
    else 8
  }

  lemma PowValues()
    ensures Pow(0) == 1 && Pow(1) == 0x100 && Pow(2) == 0x1_0000 && Pow(3) == 0x100_0000 && Pow(4) == 0x1_0000_0000
    ensures Pow(5) == 0x100_0000_0000 && Pow(6) == 0x1_0000_0000_0000 && Pow(7) == 0x100_0000_0000_0000
    ensures Pow(8) == 0x1_0000_0000_0000_0000
  {
    assert Pow(2) == 256 * Pow(1) && Pow(3) == 256 * Pow(2) && Pow(4) == 256 * Pow(3) && Pow(5) == 256 * Pow(4);
    assert Pow(6) == 256 * Pow(5) && Pow(7) == 256 * Pow(6) && Pow(8) == 256 * Pow(7);
  }

  /** The value of v in an unsigned integer of k bytes. */
  function Wrap(v: int, k: nat): (r: nat)
    ensures r < Pow(k)
  {
    v % Pow(k)
  }

  /** The signed integer of k bytes whose bits are those of the number n. */
  function ToSigned(n: nat, k: nat): int { if n < (Pow(k) + 1) / 2 then n else n - Pow(k) }

  function Abs(v: int): nat { if v < 0 then -v else v }

  // -------------------------------------------------------- what the code computes

  /** `size_of`. For 64-bit values it does not drop the sign first. */
  function SizeOf(ty: Ty, v: int): (r: nat)
    requires ty.Valid() && ty.Fits(v)
  {
    PowValues();
    if 0 <= v < 0x80 then 1
    else if ty == I64 then 1 + ByteCount(Wrap(v, 8))
    else 1 + ByteCount(Abs(v))
  }

  /** The bytes `write` appends. A negative value of more than one byte is tagged
      with the length of its magnitude but sent with its own low bytes. */
  function Encode(ty: Ty, v: int): (r: seq<byte>)
    requires ty.Valid() && ty.Fits(v)
  {
    PowValues();
    if 0 <= v < 0x80 then [v as byte]
    else
      var k := ByteCount(Abs(v));
      var bits := if ty == I8 then Abs(v) else Wrap(v, ty.width);
      [(0x80 + (if v < 0 then 0x20 else 0) + k - 1) as byte] + Le(bits, k)
  }

  /** `read`: the value and the number of bytes taken from the front of bs. */
  function Decode(ty: Ty, bs: seq<byte>): (r: Result<int>)
    requires ty.Valid()
    ensures r.Ok? ==> 1 <= r.used <= |bs|
  {
    if bs == [] then Err(Overflow) else
    var tag := bs[0] as nat;
    if tag < 0x80 then Ok(tag, 1) else
    var minus, k := (tag / 0x20) % 2 == 1, tag % 0x20 + 1;
    if !ty.signed && minus then Err(Negative)
    else if k > ty.width then Err(TooLarge)
    else if 1 + k > |bs| then Err(Overflow)
    else
      Ok(Number(ty, minus, FromLe(bs[1..1 + k])), 1 + k)
  }

  /** What the bytes behind a tag stand for. */
  function Number(ty: Ty, minus: bool, n: nat): int {
    if !ty.signed then n
    else
      var v := ToSigned(n, ty.width);
      if minus then ToSigned(Wrap(-v, ty.width), ty.width) else v
  }

  /** `skip_read`: the number of bytes it passes. */
  function Skip(bs: seq<byte>): (r: Result<()>)
    ensures r.Ok? ==> 1 <= r.used <= |bs|
  {
    if bs == [] then Err(Overflow) else
    var tag := bs[0] as nat;
    if tag < 0x80 then Ok((), 1)
    else if 2 + tag % 0x20 > |bs| then Err(Overflow)
    else Ok((), 2 + tag % 0x20)
  }

  // --------------------------------------------------------------------- the laws

  lemma {:induction false} LeRoundTrip(v: int, k: nat)
    ensures FromLe(Le(v, k)) == v % Pow(k)
    decreases k
  {
    if k > 0 {
      LeRoundTrip(v / 256, k - 1);
      assert Le(v, k)[1..] == Le(v / 256, k - 1);
      ModSplit(v, Pow(k - 1));
    }
  }

  lemma ModSplit(v: int, m: nat)
    requires m > 0
    ensures v % (256 * m) == v % 256 + 256 * ((v / 256) % m)
  {
    var q, r := (v / 256) / m, (v / 256) % m;
    assert v / 256 == q * m + r;
    assert v == 256 * (v / 256) + v % 256;
    assert v == q * (256 * m) + (256 * r + v % 256);
    assert 256 * r + v % 256 < 256 * m;
    ModUnique(v, 256 * m, q, 256 * r + v % 256);
  }

  lemma MulAtLeast(a: int, m: nat)
    requires a > 0
    ensures a * m >= m
  {
    assert a * m == m + (a - 1) * m;
  }

  lemma ModUnique(v: int, m: nat, q: int, r: nat)
    requires m > 0 && r < m && v == q * m + r
    ensures v % m == r && v / m == q
  {
    var q' := v / m;
    assert v == q' * m + v % m;
    assert (q - q') * m == q * m - q' * m && (q' - q) * m == q' * m - q * m;
    if q > q' { MulAtLeast(q - q', m); }
    if q < q' { MulAtLeast(q' - q, m); }
  }

  lemma PowMonotone(j: nat, k: nat)
    requires j <= k
    ensures Pow(j) <= Pow(k)
    decreases k
  {
    if j < k { PowMonotone(j, k - 1); }
  }

  /** Sizes and lengths. `size_of` is never below what is written, and is exactly
      that but for negative 64-bit values that need less than eight bytes. */
  lemma SizeCoversLength(ty: Ty, v: int)
    requires ty.Valid() && ty.Fits(v)
    ensures |Encode(ty, v)| <= SizeOf(ty, v) <= 9
    ensures |Encode(ty, v)| == SizeOf(ty, v) <==> !(ty == I64 && -0x100_0000_0000_0000 < v < 0)
  {
    EncodedLength(ty, v);
    SizeComputed(ty, v);
  }

  lemma EncodedLength(ty: Ty, v: int)
    requires ty.Valid() && ty.Fits(v)
    ensures Abs(v) < Pow(8) && |Encode(ty, v)| == if 0 <= v < 0x80 then 1 else 1 + ByteCount(Abs(v))
  {
    FitsCount(ty, v);
  }

  lemma SizeComputed(ty: Ty, v: int)
    requires ty.Valid() && ty.Fits(v)
    ensures Abs(v) < Pow(8)
    ensures SizeOf(ty, v) == if 0 <= v < 0x80 then 1 else if ty == I64 && v < 0 then 9 else 1 + ByteCount(Abs(v))
    ensures ty == I64 && v < 0 ==> (ByteCount(Abs(v)) == 8 <==> v <= -0x100_0000_0000_0000)
  {
    FitsCount(ty, v);
    if ty == I64 {
      PowValues();
      if v < 0 { NegativeLong(v); } else { ModUnique(v, Pow(8), 0, v); }
    }
  }

  /** A negative 64-bit integer has eight bytes as it is, and its magnitude may have less. */
  lemma NegativeLong(v: int)
    requires -0x8000_0000_0000_0000 <= v < 0
    ensures Pow(8) == 0x1_0000_0000_0000_0000 && ByteCount(Wrap(v, 8)) == 8
    ensures ByteCount(-v) == 8 <==> v <= -0x100_0000_0000_0000
  {
    PowValues();
    ModUnique(v, Pow(8), -1, Pow(8) + v);
  }

  /** The negative values that survive: minus one half of a power of 256. */
  predicate HalfPower(v: int) {
    v == -0x80 || v == -0x8000 || v == -0x80_0000 || v == -0x8000_0000 || v == -0x80_0000_0000
    || v == -0x8000_0000_0000 || v == -0x80_0000_0000_0000 || v == -0x8000_0000_0000_0000
  }

  /** The values that a write and a read give back. */
  predicate Faithful(ty: Ty, v: int) { ty.width == 1 || v >= 0 || HalfPower(v) }

  /** What a read makes of a negative value of more than one byte. */
  function Mangled(ty: Ty, v: int): int
    requires ty.Valid() && ty.signed && ty.width > 1 && ty.Fits(v) && v < 0
  {
    PowValues();
    var k := ByteCount(Abs(v));
    if k == ty.width && Abs(v) < Pow(k) / 2 then Abs(v) else Abs(v) - Pow(k)
  }

  lemma FitsCount(ty: Ty, v: int)
    requires ty.Valid() && ty.Fits(v)
    ensures Abs(v) < Pow(8) && ByteCount(Abs(v)) <= ty.width
  {
    PowValues();
  }

  lemma {:induction false} PowSplit(j: nat, k: nat)
    ensures Pow(j + k) == Pow(j) * Pow(k)
  {
    if j > 0 { PowSplit(j - 1, k); }
  }

  /** The low k bytes of a negative value whose magnitude takes k bytes. */
  lemma LowBytes(v: int, k: nat, w: nat)
    requires v < 0 && Abs(v) < Pow(k) && 0 < k <= w
    ensures Wrap(v, w) % Pow(k) == Pow(k) + v
  {
    PowMonotone(k, w);
    ModUnique(v, Pow(w), -1, Pow(w) + v);
    PowSplit(w - k, k);
    LowPart(v, Pow(k), Pow(w - k));
  }

  lemma LowPart(v: int, m: nat, a: nat)
    requires v < 0 && -v < m && a > 0
    ensures (a * m + v) % m == m + v
  {
    TakeOne(a, m);
    MulAtLeast(a, m);
    ModUnique(a * m + v, m, a - 1, m + v);
  }

  lemma TakeOne(a: int, m: int)
    ensures (a - 1) * m == a * m - m
  {
  }

  /** Reading a tag byte with its k bytes. */
  lemma ReadTagged(ty: Ty, minus: bool, k: nat, bits: nat, rest: seq<byte>)
    requires ty.Valid() && 1 <= k <= ty.width && (minus ==> ty.signed)
    ensures var tag := 0x80 + (if minus then 0x20 else 0) + k - 1;
            0 <= tag < 0x100 &&
            Decode(ty, [tag as byte] + Le(bits, k) + rest) == Ok(Number(ty, minus, bits % Pow(k)), 1 + k)
  {
    var tag := (0x80 + (if minus then 0x20 else 0) + k - 1) as byte;
    var bs := [tag] + Le(bits, k) + rest;
    DecodeTagged(ty, minus, k, bs);
    assert bs[1..1 + k] == Le(bits, k);
    LeRoundTrip(bits, k);
  }

  lemma DecodeTagged(ty: Ty, minus: bool, k: nat, bs: seq<byte>)
    requires ty.Valid() && 1 <= k <= ty.width && (minus ==> ty.signed)
    requires |bs| > k && bs[0] as nat == 0x80 + (if minus then 0x20 else 0) + k - 1
    ensures Decode(ty, bs) == Ok(Number(ty, minus, FromLe(bs[1..1 + k])), 1 + k)
  {
    ReadTag(minus, k);
  }

  /** Reading what was written takes just the bytes written, and what it gives is
      the value itself unless that is negative and of more than one byte. */
  lemma ReadWritten(ty: Ty, v: int, rest: seq<byte>)
    requires ty.Valid() && ty.Fits(v)
    ensures Decode(ty, Encode(ty, v) + rest)
         == Ok(if v < 0 && ty.width > 1 then Mangled(ty, v) else v, |Encode(ty, v)|)
  {
    if !(0 <= v < 0x80) {
      FitsCount(ty, v);
      var k := ByteCount(Abs(v));
      var bits := if ty == I8 then Abs(v) else Wrap(v, ty.width);
      ReadTagged(ty, v < 0, k, bits, rest);
      ReadBits(ty, v, k);
    }
  }

  /** What the bits sent for v come back as. */
  lemma ReadBits(ty: Ty, v: int, k: nat)
    requires ty.Valid() && ty.Fits(v) && Abs(v) < Pow(8) && k == ByteCount(Abs(v)) <= ty.width
    ensures var bits := if ty == I8 then Abs(v) else Wrap(v, ty.width);
            Number(ty, v < 0, bits % Pow(k)) == (if v < 0 && ty.width > 1 then Mangled(ty, v) else v)
  {
    if v >= 0 {
      ReadPositive(ty, v, k);
    } else if ty.width == 1 {
      ReadOneByte(v);
    } else {
      ReadNegative(ty, v, k);
    }
  }

  lemma ReadNegative(ty: Ty, v: int, k: nat)
    requires ty.Valid() && ty.signed && ty.width > 1 && ty.Fits(v) && v < 0
    requires Abs(v) < Pow(8) && k == ByteCount(Abs(v)) <= ty.width
    ensures Number(ty, true, Wrap(v, ty.width) % Pow(k)) == Mangled(ty, v)
  {
    LowBytes(v, k, ty.width);
    NegativeIs(ty, Wrap(v, ty.width) % Pow(k), v, k);
  }

  lemma NegativeIs(ty: Ty, n: nat, v: int, k: nat)
    requires ty.Valid() && ty.signed && ty.width > 1 && ty.Fits(v) && v < 0
    requires Abs(v) < Pow(8) && k == ByteCount(Abs(v)) <= ty.width && n == Pow(k) + v
    ensures Number(ty, true, n) == Mangled(ty, v)
  {
    NegateBack(v, k, ty.width);
  }

  lemma ReadPositive(ty: Ty, v: int, k: nat)
    requires ty.Valid() && ty.Fits(v) && 0 <= v < Pow(k)
    ensures v < Pow(ty.width) && Wrap(v, ty.width) == v && v % Pow(k) == v && Number(ty, false, v) == v
  {
    ModUnique(v, Pow(ty.width), 0, v);
    ModUnique(v, Pow(k), 0, v);
  }

  lemma ReadOneByte(v: int)
    requires I8.Fits(v) && v < 0
    ensures Abs(v) < Pow(8) && ByteCount(Abs(v)) == 1 && Number(I8, true, Abs(v) % Pow(1)) == v
  {
    PowValues();
    if v == -0x80 { assert Wrap(0x80, 1) == 0x80; } else { ModUnique(v, Pow(1), -1, Pow(1) + v); }
  }

  lemma ReadTag(minus: bool, k: nat)
    requires 1 <= k <= 8
    ensures var tag := 0x80 + (if minus then 0x20 else 0) + k - 1;
            0x80 <= tag < 0x100 && tag % 0x20 + 1 == k && ((tag / 0x20) % 2 == 1 <==> minus)
  {
  }

  /** Negating the low bytes as a signed integer of w bytes. */
  lemma NegateBack(v: int, k: nat, w: nat)
    requires (w == 2 || w == 4 || w == 8) && 1 <= k <= w && -(Pow(w) / 2) <= v < 0 && Abs(v) < Pow(k)
    ensures ToSigned(Wrap(-ToSigned(Pow(k) + v, w), w), w)
         == (if k == w && Abs(v) < Pow(k) / 2 then Abs(v) else Abs(v) - Pow(k))
  {
    if k == w { NegateWhole(v, w); } else { NegatePart(v, k, w); }
  }

  lemma NegateWhole(v: int, w: nat)
    requires (w == 2 || w == 4 || w == 8) && -(Pow(w) / 2) <= v < 0
    ensures ToSigned(Wrap(-ToSigned(Pow(w) + v, w), w), w) == if Abs(v) < Pow(w) / 2 then Abs(v) else Abs(v) - Pow(w)
  {
    ModUnique(-v, Pow(w), 0, -v);
  }

  lemma NegatePart(v: int, k: nat, w: nat)
    requires 1 <= k < w && v < 0 && Abs(v) < Pow(k)
    ensures ToSigned(Wrap(-ToSigned(Pow(k) + v, w), w), w) == Abs(v) - Pow(k)
  {
    PowMonotone(k, w - 1);
    assert Pow(w) == 256 * Pow(w - 1);
    var n := Pow(k) + v;
    ModUnique(-n, Pow(w), -1, Pow(w) - n);
  }

  /** Round trip. Reading a written value, whatever follows it, gives the value
      back and leaves what follows if and only if the value is not negative, or
      is of a one-byte type, or is minus one half of a power of 256. */
  lemma RoundTrip(ty: Ty, v: int, rest: seq<byte>)
    requires ty.Valid() && ty.Fits(v)
    ensures Decode(ty, Encode(ty, v) + rest) == Ok(v, |Encode(ty, v)|) <==> Faithful(ty, v)
  {
    ReadWritten(ty, v, rest);
    PowValues();
    if v < 0 && ty.width > 1 {
      FitsCount(ty, v);
      HalfPowers(v, ByteCount(Abs(v)));
    }
  }

  lemma HalfPowers(v: int, k: nat)
    requires v < 0 && Abs(v) < 0x1_0000_0000_0000_0000 && Pow(8) == 0x1_0000_0000_0000_0000 && k == ByteCount(Abs(v))
    ensures HalfPower(v) <==> 2 * Abs(v) == Pow(k)
  {
    PowValues();
  }

  /** Passing over a written value, negative or not, passes just its bytes. */
  lemma SkipWritten(ty: Ty, v: int, rest: seq<byte>)
    requires ty.Valid() && ty.Fits(v)
    ensures Skip(Encode(ty, v) + rest) == Ok((), |Encode(ty, v)|)
  {
    PowValues();
    if !(0 <= v < 0x80) {
      ReadTag(v < 0, ByteCount(Abs(v)));
    }
  }

  /** A value that does not come back: -1 as a 64-bit integer is read as -255. */
  lemma MinusOneIsLost(rest: seq<byte>)
    ensures Decode(I64, Encode(I64, -1) + rest) == Ok(-255, 2)
  {
    PowValues();
    ReadWritten(I64, -1, rest);
  }

  // ---------------------------------------------------------- reading what another type wrote

  /** What is read is a value of the type that reads. */
  lemma ReadsItsType(ty: Ty, bs: seq<byte>)
    requires ty.Valid()
    ensures Decode(ty, bs).Ok? ==> ty.Fits(Decode(ty, bs).value)
  {
    if bs != [] && bs[0] as nat < 0x80 { SmallFits(ty, bs[0] as nat); }
    if bs != [] && bs[0] as nat >= 0x80 {
      var minus, k := (bs[0] as nat / 0x20) % 2 == 1, bs[0] as nat % 0x20 + 1;
      if k <= ty.width && k < |bs| {
        PowMonotone(k, ty.width);
        NumberFits(ty, minus, FromLe(bs[1..1 + k]));
      }
    }
  }

  lemma SmallFits(ty: Ty, n: nat)
    requires ty.Valid() && n < 0x80
    ensures ty.Fits(n)
  {
    PowValues();
  }

  lemma NumberFits(ty: Ty, minus: bool, n: nat)
    requires ty.Valid() && n < Pow(ty.width)
    ensures ty.Fits(Number(ty, minus, n))
  {
    HalfPow(ty.width);
  }

  /** What a value of type from is read as by a type that has room for it. */
  function ReadAs(from: Ty, ty: Ty, v: int): int
    requires from.Valid() && ty.Valid() && from.Fits(v)
  {
    if v >= 0 then (if ty.signed && 2 * v >= Pow(ty.width) then v - Pow(ty.width) else v)
    else if from.width == 1 then v
    else
      FitsCount(from, v);
      var k := ByteCount(-v);
      if k == ty.width && 2 * -v < Pow(k) then -v else -v - Pow(k)
  }

  /** A value written as one type and read as another: it has no minus for an unsigned
      type, and not too many bytes for a narrow one. */
  lemma ReadAcross(from: Ty, ty: Ty, v: int, rest: seq<byte>)
    requires from.Valid() && ty.Valid() && from.Fits(v)
    ensures Decode(ty, Encode(from, v) + rest)
         == if v < 0 && !ty.signed then Err(Negative)
            else if v >= Pow(ty.width) || -v >= Pow(ty.width) then Err(TooLarge)
            else Ok(ReadAs(from, ty, v), |Encode(from, v)|)
  {
    PowValues();
    if !(0 <= v < 0x80) {
      FitsCount(from, v);
      var k := ByteCount(Abs(v));
      var bits := if from == I8 then Abs(v) else Wrap(v, from.width);
      CountInside(Abs(v), k, ty.width);
      if v < 0 && !ty.signed {
        ReadErrors(ty, true, k, bits, rest);
      } else if k > ty.width {
        ReadErrors(ty, v < 0, k, bits, rest);
      } else {
        ReadTagged(ty, v < 0, k, bits, rest);
        NumberAcross(from, ty, v, k);
      }
    }
  }

  /** How many bytes there are says how large the number is. */
  lemma CountInside(n: nat, k: nat, w: nat)
    requires n < Pow(8) && k == ByteCount(n) && (w == 1 || w == 2 || w == 4 || w == 8)
    ensures k <= w <==> n < Pow(w)
  {
    if k <= w { PowMonotone(k, w); } else { PowMonotone(w, k - 1); }
  }

  lemma ReadErrors(ty: Ty, minus: bool, k: nat, bits: nat, rest: seq<byte>)
    requires ty.Valid() && 1 <= k <= 8 && ((minus && !ty.signed) || k > ty.width)
    ensures var tag := 0x80 + (if minus then 0x20 else 0) + k - 1;
            0 <= tag < 0x100 && Decode(ty, [tag as byte] + Le(bits, k) + rest) == Err(if minus && !ty.signed then Negative else TooLarge)
  {
    ReadTag(minus, k);
  }

  /** What the bits sent for v come back as. */
  lemma NumberAcross(from: Ty, ty: Ty, v: int, k: nat)
    requires from.Valid() && ty.Valid() && from.Fits(v) && Abs(v) < Pow(8) && k == ByteCount(Abs(v)) <= ty.width
    requires v < 0 ==> ty.signed
    requires k <= from.width
    ensures var bits := if from == I8 then Abs(v) else Wrap(v, from.width);
            Number(ty, v < 0, bits % Pow(k)) == ReadAs(from, ty, v)
  {
    if v >= 0 {
      PositiveAcross(from, ty, v, k);
    } else if from.width == 1 {
      ByteAcross(ty, v, k);
    } else {
      NegativeAcross(from, ty, v, k);
    }
  }

  lemma NegativeAcross(from: Ty, ty: Ty, v: int, k: nat)
    requires from.Valid() && ty.Valid() && from.Fits(v) && v < 0 && from.width > 1 && ty.signed
    requires Abs(v) < Pow(8) && k == ByteCount(Abs(v)) <= ty.width && k <= from.width
    ensures Number(ty, true, Wrap(v, from.width) % Pow(k)) == ReadAs(from, ty, v)
  {
    LowBytes(v, k, from.width);
    MinusAcross(from, ty, Wrap(v, from.width) % Pow(k), v, k);
  }

  lemma MinusAcross(from: Ty, ty: Ty, n: nat, v: int, k: nat)
    requires from.Valid() && ty.Valid() && from.Fits(v) && v < 0 && from.width > 1 && ty.signed
    requires Abs(v) < Pow(8) && k == ByteCount(Abs(v)) <= ty.width && n == Pow(k) + v
    ensures Number(ty, true, n) == ReadAs(from, ty, v)
  {
    if k == ty.width { NegateAcross(v, k); } else { NegatePart(v, k, ty.width); }
  }

  lemma PositiveAcross(from: Ty, ty: Ty, v: int, k: nat)
    requires from.Valid() && ty.Valid() && from.Fits(v) && 0 <= v < Pow(k) && k <= ty.width
    ensures Wrap(v, from.width) == v && v % Pow(k) == v && Number(ty, false, v) == ReadAs(from, ty, v)
  {
    PowMonotone(k, ty.width);
    ModUnique(v, Pow(from.width), 0, v);
    ModUnique(v, Pow(k), 0, v);
    HalfPow(ty.width);
  }

  /** A half of a power of 256 is a whole number. */
  lemma HalfPow(w: nat)
    requires w > 0
    ensures (Pow(w) + 1) / 2 == Pow(w) / 2 && 2 * (Pow(w) / 2) == Pow(w)
  {
    assert Pow(w) == 256 * Pow(w - 1);
  }

  lemma ByteAcross(ty: Ty, v: int, k: nat)
    requires ty.Valid() && ty.signed && I8.Fits(v) && v < 0
    requires Abs(v) < Pow(8) && k == ByteCount(Abs(v)) <= ty.width
    ensures Number(ty, true, Abs(v) % Pow(k)) == v
  {
    PowValues();
    assert k == 1;
    ModUnique(Abs(v), Pow(1), 0, Abs(v));
    if ty.width == 1 {
      ReadOneByte(v);
    } else {
      assert ToSigned(Abs(v), ty.width) == Abs(v);
      ModUnique(v, Pow(ty.width), -1, Pow(ty.width) + v);
    }
  }

  /** Negating all the bytes of a type, whatever they are. */
  lemma NegateAcross(v: int, w: nat)
    requires w > 0 && v < 0 && -v < Pow(w)
    ensures ToSigned(Wrap(-ToSigned(Pow(w) + v, w), w), w) == if 2 * -v < Pow(w) then -v else -v - Pow(w)
  {
    HalfPow(w);
    if 2 * -v <= Pow(w) {
      ModUnique(-v, Pow(w), 0, -v);
    } else {
      ModUnique(-v - Pow(w), Pow(w), -1, -v);
    }
  }

  // ------------------------------------------------------------------- the bytes themselves

  /** Byte i of what is sent is the i-th least significant one. */
  lemma {:induction false} LeAt(v: int, k: nat, i: nat)
    requires i < k
    ensures Le(v, k)[i] as int == (v / Pow(i)) % 256
    decreases i
  {
    if i > 0 {
      LeAt(v / 256, k - 1, i - 1);
      DivTwice(v, Pow(i - 1));
    }
  }

  lemma DivTwice(v: int, m: nat)
    requires m > 0
    ensures (v / 256) / m == v / (256 * m)
  {
    var q, r := (v / 256) / m, (v / 256) % m;
    assert v / 256 == q * m + r;
    assert v == q * (256 * m) + (256 * r + v % 256);
    assert 256 * r + v % 256 < 256 * m;
    ModUnique(v, 256 * m, q, 256 * r + v % 256);
  }

  /** A value of three kinds of tag, byte by byte. */
  lemma BytesSent()
    ensures Encode(I32, 0x7F) == [0x7F]
    ensures Encode(I32, 0x12345) == [0x82, 0x45, 0x23, 0x01]
    ensures Encode(I32, -2) == [0xA0, 0xFE]
    ensures Encode(I8, -2) == [0xA0, 0x02]
  {
    PowValues();
    assert Le(0x12345, 3) == [0x45] + Le(0x123, 2) && Le(0x123, 2) == [0x23] + Le(0x1, 1) && Le(0x1, 1) == [0x01] + Le(0, 0);
    ModUnique(0x12345, Pow(4), 0, 0x12345);
    ModUnique(-2, Pow(4), -1, Pow(4) - 2);
    assert Le(Pow(4) - 2, 1) == [0xFE] + Le((Pow(4) - 2) / 256, 0);
    assert Le(2, 1) == [0x02] + Le(0, 0);
  }
}
