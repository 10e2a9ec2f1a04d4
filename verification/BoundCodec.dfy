/** Single-value bound serialization (pkg/formats/iceberg/stats.go), Appendix D of the Apache Iceberg
    Table Spec: minimal two's-complement decimals and fixed-width little-endian integers. */
module BoundCodec {
  import opened Common
  import opened Model

  type byte = x: int | 0 <= x < 256

  function Pow256(k: nat): (p: nat)
    ensures p >= 1
  {
    if k == 0 then 1 else 256 * Pow256(k - 1)
  }

  /** Big-endian unsigned value (big.Int SetBytes). */
  function FromBytes(b: seq<byte>): nat
  {
    if b == [] then 0 else 256 * FromBytes(b[..|b| - 1]) + Last(b)
  }

  /** Shortest big-endian form (big.Int Bytes): empty for zero. */
  function ToBytes(n: nat): seq<byte>
  {
    if n == 0 then [] else ToBytes(n / 256) + [n % 256]
  }

  function BitLen(n: nat): nat
  {
    if n == 0 then 0 else 1 + BitLen(n / 2)
  }

  // ---------------------------------------------------------------------------------------
  // Big-endian bytes
  // ---------------------------------------------------------------------------------------

  lemma {:induction false} BytesBack(n: nat)
    ensures FromBytes(ToBytes(n)) == n
    ensures n > 0 ==> |ToBytes(n)| >= 1 && Pow256(|ToBytes(n)| - 1) <= n
    ensures n < Pow256(|ToBytes(n)|)
  {
    if n > 0 {
      BytesBack(n / 256);
      var b := ToBytes(n);
      assert b[..|b| - 1] == ToBytes(n / 256);
    }
  }

  lemma {:induction false} BytesRange(b: seq<byte>)
    ensures FromBytes(b) < Pow256(|b|)
  {
    if b != [] {
      BytesRange(b[..|b| - 1]);
    }
  }

  /** The top bit decides which half of the range the value lies in. */
  lemma {:induction false} TopBit(b: seq<byte>)
    requires b != []
    ensures b[0] >= 128 <==> FromBytes(b) >= 128 * Pow256(|b| - 1)
  {
    var init := b[..|b| - 1];
    if init == [] {
      assert b == [b[0]] && FromBytes(init) == 0;
    } else {
      TopBit(init);
      assert init[0] == b[0];
    }
  }

  lemma {:induction false} LeadingZero(b: seq<byte>)
    ensures FromBytes([0] + b) == FromBytes(b)
  {
    if b == [] {
      assert [0] + b == [0] && ([0] + b)[..0] == [];
    } else {
      LeadingZero(b[..|b| - 1]);
      assert ([0] + b)[..|b|] == [0] + b[..|b| - 1];
    }
  }

  lemma {:induction false} BytesInjective(a: seq<byte>, b: seq<byte>)
    requires |a| == |b| && FromBytes(a) == FromBytes(b)
    ensures a == b
  {
    if a != [] {
      var x, y := a[..|a| - 1], b[..|b| - 1];
      SameDigits(FromBytes(x), Last(a), FromBytes(y), Last(b));
      BytesInjective(x, y);
      assert a == x + [Last(a)] && b == y + [Last(b)];
    }
  }

  lemma {:induction false} SameDigits(x: int, i: byte, y: int, j: byte)
    requires 256 * x + i == 256 * y + j
    ensures x == y && i == j
  {
  }

  lemma {:induction false} PowGrows(i: nat, j: nat)
    requires i <= j
    ensures Pow256(i) <= Pow256(j)
    decreases j
  {
    if i < j {
      PowGrows(i, j - 1);
    }
  }

  lemma {:induction false} BitLenOctet(n: nat)
    ensures n >= 256 ==> BitLen(n) == 8 + BitLen(n / 256)
    ensures 0 < n < 256 ==> 1 <= BitLen(n) <= 8
  {
    if n >= 256 {
      Halves(n);
    } else if n > 0 {
      SmallBitLen(n, 8);
    }
  }

  lemma {:induction false} Halves(n: nat)
    requires n >= 256
    ensures BitLen(n) == 8 + BitLen(n / 256)
  {
    assert n / 4 == (n / 2) / 2 && n / 8 == (n / 4) / 2 && n / 16 == (n / 8) / 2 && n / 32 == (n / 16) / 2;
    assert n / 64 == (n / 32) / 2 && n / 128 == (n / 64) / 2 && n / 256 == (n / 128) / 2;
    assert BitLen(n / 2) == 1 + BitLen(n / 4);
    assert BitLen(n / 4) == 1 + BitLen(n / 8);
    assert BitLen(n / 8) == 1 + BitLen(n / 16);
    assert BitLen(n / 16) == 1 + BitLen(n / 32);
    assert BitLen(n / 32) == 1 + BitLen(n / 64);
    assert BitLen(n / 64) == 1 + BitLen(n / 128);
    assert BitLen(n / 128) == 1 + BitLen(n / 256);
  }

  function Pow2(k: nat): nat { if k == 0 then 1 else 2 * Pow2(k - 1) }

  lemma {:induction false} SmallBitLen(n: nat, k: nat)
    requires n < Pow2(k)
    ensures BitLen(n) <= k
    decreases k
  {
    if n > 0 {
      SmallBitLen(n / 2, k - 1);
    }
  }

  /** Rounding the bit length up to whole bytes gives the length of the shortest form. */
  lemma {:induction false} ByteCount(n: nat)
    ensures (BitLen(n) + 7) / 8 == |ToBytes(n)|
  {
    if n > 0 {
      BitLenOctet(n);
      ByteCount(n / 256);
      if n < 256 {
        assert n / 256 == 0 && ToBytes(n / 256) == [];
      }
    }
  }

  // ---------------------------------------------------------------------------------------
  // Decimals
  // ---------------------------------------------------------------------------------------

  function Zeros(k: nat): seq<byte> { if k == 0 then [] else [0] + Zeros(k - 1) }

  /** The byte count the encoder picks for a negative number: enough, and none to spare. */
  function NegativeCount(n: int): nat
    requires n < 0
  {
    var byBits := (BitLen(-n) + 7) / 8;
    var whole := if byBits == 0 then 1 else byBits;
    if -n > 128 * Pow256(whole - 1) then whole + 1 else whole
  }

  function EncodeUnscaledDecimal(n: int): seq<byte>
  {
    if n == 0 then [0]
    else if n > 0 then
      var b := ToBytes(n);
      if b != [] && b[0] >= 128 then [0] + b else b
    else
      var count := NegativeCount(n);
      var out := ToBytes(Max(0, Pow256(count) + n));
      if |out| < count then Zeros(count - |out|) + out else out
  }

  function DecodeUnscaledDecimal(raw: seq<byte>): int
    requires raw != []
  {
    if raw[0] >= 128 then FromBytes(raw) - Pow256(|raw|) else FromBytes(raw)
  }

  /** The range of k-byte two's complement. */
  predicate Fits(n: int, k: nat)
    requires k >= 1
  {
    -(128 * Pow256(k - 1)) <= n < 128 * Pow256(k - 1)
  }

  lemma {:induction false} FitsGrows(n: int, i: nat, j: nat)
    requires 1 <= i <= j && Fits(n, i)
    ensures Fits(n, j)
  {
    PowGrows(i - 1, j - 1);
  }

  lemma {:induction false} DecodeFits(raw: seq<byte>)
    requires raw != []
    ensures Fits(DecodeUnscaledDecimal(raw), |raw|)
  {
    BytesRange(raw);
    TopBit(raw);
  }

  lemma {:induction false} DecodeInjective(a: seq<byte>, b: seq<byte>)
    requires |a| == |b| && a != [] && DecodeUnscaledDecimal(a) == DecodeUnscaledDecimal(b)
    ensures a == b
  {
    BytesRange(a);
    BytesRange(b);
    TopBit(a);
    TopBit(b);
    BytesInjective(a, b);
  }

  /** Big-endian two's complement: the first byte carries the sign, and each one after it the next lower place. */
  lemma {:induction false} DecimalBytesMean(raw: seq<byte>, b: byte)
    ensures DecodeUnscaledDecimal([b]) == if b < 128 then b else b - 256
    ensures raw != [] ==> DecodeUnscaledDecimal(raw + [b]) == 256 * DecodeUnscaledDecimal(raw) + b
  {
    assert [b][..0] == [] && Pow256(0) == 1 && Pow256(1) == 256 * Pow256(0);
    assert FromBytes([b]) == 256 * FromBytes([]) + b;
    assert (raw + [b])[..|raw|] == raw;
  }

  /** A shortest form: decodes to n, and one byte less could not hold n. */
  ghost predicate Shortest(raw: seq<byte>, n: int)
  {
    raw != [] && DecodeUnscaledDecimal(raw) == n && (|raw| > 1 ==> !Fits(n, |raw| - 1))
  }

  lemma {:induction false} EncodePositive(n: int)
    requires n > 0
    ensures Shortest(EncodeUnscaledDecimal(n), n)
  {
    var b := ToBytes(n);
    BytesBack(n);
    TopBit(b);
    LeadingZero(b);
  }

  /** A value in the upper half of the k-byte range takes exactly k bytes. */
  lemma {:induction false} UpperHalfLength(c: nat, k: nat)
    requires k >= 1 && 128 * Pow256(k - 1) <= c < Pow256(k)
    ensures |ToBytes(c)| == k && ToBytes(c)[0] >= 128 && FromBytes(ToBytes(c)) == c
  {
    var out := ToBytes(c);
    BytesBack(c);
    if |out| < k {
      PowGrows(|out|, k - 1);
    } else if |out| > k {
      PowGrows(k, |out| - 1);
    }
    TopBit(out);
  }

  lemma {:induction false} NegativeCountExact(n: int)
    requires n < 0
    ensures var k := NegativeCount(n);
      k >= 1 && -n <= 128 * Pow256(k - 1) && (k > 1 ==> -n > 128 * Pow256(k - 2))
  {
    ByteCount(-n);
    BytesBack(-n);
  }

  lemma {:induction false} EncodeNegative(n: int)
    requires n < 0
    ensures Shortest(EncodeUnscaledDecimal(n), n)
  {
    NegativeCountExact(n);
    var k := NegativeCount(n);
    var complement := Pow256(k) + n;
    assert Pow256(k) == 256 * Pow256(k - 1);
    UpperHalfLength(complement, k);
    var out := ToBytes(complement);
    assert EncodeUnscaledDecimal(n) == out;
    assert DecodeUnscaledDecimal(out) == n;
    if k > 1 {
      assert Pow256(k - 1) == 256 * Pow256(k - 2);
    }
  }

  lemma {:induction false} EncodeShortest(n: int)
    ensures Shortest(EncodeUnscaledDecimal(n), n)
  {
    if n > 0 {
      EncodePositive(n);
    } else if n < 0 {
      EncodeNegative(n);
    } else {
      var zero: seq<byte> := [0];
      assert zero[..0] == [];
    }
  }

  /** The codec is exact: every integer survives the round trip. */
  lemma {:induction false} DecimalRoundTrip(n: int)
    ensures EncodeUnscaledDecimal(n) != [] && DecodeUnscaledDecimal(EncodeUnscaledDecimal(n)) == n
  {
    EncodeShortest(n);
  }

  /** It is canonical: no shorter byte string decodes to n, and none of the same length but this one.
      Re-encoding any payload therefore yields the unique shortest form of its value. */
  lemma {:induction false} DecimalCanonical(raw: seq<byte>)
    requires raw != []
    ensures var e := EncodeUnscaledDecimal(DecodeUnscaledDecimal(raw));
      |e| <= |raw| && (|e| == |raw| <==> e == raw)
  {
    var n := DecodeUnscaledDecimal(raw);
    var e := EncodeUnscaledDecimal(n);
    EncodeShortest(n);
    DecodeFits(raw);
    if |raw| < |e| {
      FitsGrows(n, |raw|, |e| - 1);
      assert false;
    }
    if |e| == |raw| {
      DecodeInjective(e, raw);
    }
  }

  /** Sign extension: the byte that lengthens a payload without changing its value. */
  function SignByte(raw: seq<byte>): byte
    requires raw != []
  {
    if raw[0] >= 128 then 255 else 0
  }

  lemma {:induction false} LeadingFF(b: seq<byte>)
    ensures FromBytes([255] + b) == 255 * Pow256(|b|) + FromBytes(b)
  {
    if b == [] {
      assert [255] + b == [255] && ([255] + b)[..0] == [];
    } else {
      LeadingFF(b[..|b| - 1]);
      assert ([255] + b)[..|b|] == [255] + b[..|b| - 1];
    }
  }

  lemma {:induction false} SignExtended(raw: seq<byte>)
    requires raw != []
    ensures DecodeUnscaledDecimal([SignByte(raw)] + raw) == DecodeUnscaledDecimal(raw)
  {
    if raw[0] >= 128 {
      LeadingFF(raw);
    } else {
      LeadingZero(raw);
    }
  }

  function SignExtend(raw: seq<byte>, k: nat): (out: seq<byte>)
    requires raw != []
    ensures |out| == |raw| + k
    decreases k
  {
    if k == 0 then raw else SignExtend([SignByte(raw)] + raw, k - 1)
  }

  lemma {:induction false} SignExtendKeeps(raw: seq<byte>, k: nat)
    requires raw != []
    ensures DecodeUnscaledDecimal(SignExtend(raw, k)) == DecodeUnscaledDecimal(raw)
    decreases k
  {
    if k > 0 {
      SignExtended(raw);
      SignExtendKeeps([SignByte(raw)] + raw, k - 1);
    }
  }

  /** All payloads of one value: the encoder's output, sign-extended. */
  lemma {:induction false} DecimalPayloads(raw: seq<byte>, n: int)
    requires raw != []
    ensures var e := EncodeUnscaledDecimal(n);
      DecodeUnscaledDecimal(raw) == n <==> e != [] && |e| <= |raw| && raw == SignExtend(e, |raw| - |e|)
  {
    var e := EncodeUnscaledDecimal(n);
    EncodeShortest(n);
    if DecodeUnscaledDecimal(raw) == n {
      DecimalCanonical(raw);
      SignExtendKeeps(e, |raw| - |e|);
      DecodeInjective(raw, SignExtend(e, |raw| - |e|));
    } else if |e| <= |raw| {
      SignExtendKeeps(e, |raw| - |e|);
    }
  }

  // ---------------------------------------------------------------------------------------
  // Fixed-width integers and the type switch
  // ---------------------------------------------------------------------------------------

  function LittleEndian(u: nat, width: nat): (b: seq<byte>)
    ensures |b| == width
  {
    if width == 0 then [] else [u % 256] + LittleEndian(u / 256, width - 1)
  }

  function FromLittleEndian(b: seq<byte>): nat
  {
    if b == [] then 0 else b[0] + 256 * FromLittleEndian(b[1..])
  }

  lemma {:induction false} LittleEndianBack(u: nat, width: nat)
    requires u < Pow256(width)
    ensures FromLittleEndian(LittleEndian(u, width)) == u
  {
    if width > 0 {
      LittleEndianBack(u / 256, width - 1);
      assert LittleEndian(u, width)[1..] == LittleEndian(u / 256, width - 1);
    }
  }

  lemma {:induction false} LittleEndianForth(b: seq<byte>)
    ensures FromLittleEndian(b) < Pow256(|b|) && LittleEndian(FromLittleEndian(b), |b|) == b
  {
    if b != [] {
      LittleEndianForth(b[1..]);
      var low, rest := b[0] as int, FromLittleEndian(b[1..]);
      assert Pow256(|b|) == 256 * Pow256(|b| - 1);
      LowByte(low, rest);
      assert b == [b[0]] + b[1..];
    }
  }

  lemma {:induction false} LowByte(low: int, rest: int)
    requires 0 <= low < 256
    ensures (low + 256 * rest) % 256 == low && (low + 256 * rest) / 256 == rest
  {
  }

  function EncodeFixed(n: int, width: nat): seq<byte>
    requires width >= 1 && Fits(n, width)
  {
    LittleEndian(if n < 0 then n + Pow256(width) else n, width)
  }

  function DecodeFixed(raw: seq<byte>): int
    requires raw != []
  {
    var u := FromLittleEndian(raw);
    if u >= 128 * Pow256(|raw| - 1) then u - Pow256(|raw|) else u
  }

  /** Fixed-width encoding is a bijection between the signed range and the byte strings of the width. */
  lemma {:induction false} FixedRoundTrip(n: int, raw: seq<byte>)
    requires raw != []
    ensures Fits(n, |raw|) ==> (EncodeFixed(n, |raw|) == raw <==> DecodeFixed(raw) == n)
    ensures Fits(DecodeFixed(raw), |raw|)
  {
    var w := |raw|;
    assert Pow256(w) == 256 * Pow256(w - 1);
    LittleEndianForth(raw);
    if Fits(n, w) {
      LittleEndianBack(if n < 0 then n + Pow256(w) else n, w);
    }
  }

  /** A bound after coercion: integers for the numeric types, raw bytes for strings and binary. */
  datatype BoundValue = BoundBool(b: bool) | BoundInt(n: int) | BoundBytes(bytes: seq<byte>)

  function Width(a: Atom): nat
  {
    match a
    case Int => 4
    case Date => 4
    case Long => 8
    case Timestamp(_) => 8
    case TimestampNtz(_) => 8
    case _ => 0
  }

  predicate Textual(a: Atom) { a.String? || a.Enum? || a.Bytes? || a.Fixed? }

  function EncodeBound(a: Atom, v: BoundValue): Option<seq<byte>>
  {
    match v
    case BoundBool(b) => if a.Boolean? then Some([if b then 1 else 0]) else None
    case BoundInt(n) =>
      if Width(a) > 0 then if Fits(n, Width(a)) then Some(EncodeFixed(n, Width(a))) else None
      else if a.Decimal? then Some(EncodeUnscaledDecimal(n))
      else None
    case BoundBytes(bytes) => if Textual(a) then Some(bytes) else None
  }

  function DecodeBound(a: Atom, raw: seq<byte>): Option<BoundValue>
  {
    if a.Boolean? then if |raw| == 1 then Some(BoundBool(raw[0] != 0)) else None
    else if Width(a) > 0 then if |raw| == Width(a) then Some(BoundInt(DecodeFixed(raw))) else None
    else if a.Decimal? then if raw == [] then None else Some(BoundInt(DecodeUnscaledDecimal(raw)))
    else if Textual(a) then Some(BoundBytes(raw))
    else None
  }

  /** Whatever EncodeBound writes, DecodeBound reads back as the same value. */
  lemma {:induction false} BoundRoundTrip(a: Atom, v: BoundValue)
    requires EncodeBound(a, v).Some?
    ensures DecodeBound(a, EncodeBound(a, v).value) == Some(v)
  {
    if v.BoundInt? {
      if Width(a) > 0 {
        FixedRoundTrip(v.n, EncodeFixed(v.n, Width(a)));
      } else {
        DecimalRoundTrip(v.n);
      }
    }
  }

  /** Every payload DecodeBound accepts re-encodes to a payload of the same value that is no longer,
      and to the payload itself for the fixed-width and textual types. */
  lemma {:induction false} BoundReencodes(a: Atom, raw: seq<byte>)
    requires DecodeBound(a, raw).Some?
    ensures var e := EncodeBound(a, DecodeBound(a, raw).value);
      e.Some? && |e.value| <= |raw| && (!a.Decimal? && !a.Boolean? ==> e.value == raw)
  {
    if Width(a) > 0 {
      FixedRoundTrip(DecodeFixed(raw), raw);
    } else if a.Decimal? {
      DecimalCanonical(raw);
    }
  }

  // ---------------------------------------------------------------------------------------
  // The written bytes
  // ---------------------------------------------------------------------------------------

  lemma {:induction false} FourBytes(u: nat)
    ensures LittleEndian(u, 4) == [u % 256, u / 256 % 256, u / 0x1_0000 % 256, u / 0x100_0000 % 256]
  {
    Quarters(u);
    assert LittleEndian(u / 0x1_0000_0000, 0) == [];
    assert LittleEndian(u / 0x100_0000, 1) == [u / 0x100_0000 % 256];
    assert LittleEndian(u / 0x1_0000, 2) == [u / 0x1_0000 % 256, u / 0x100_0000 % 256];
    assert LittleEndian(u / 256, 3) == [u / 256 % 256, u / 0x1_0000 % 256, u / 0x100_0000 % 256];
  }

  lemma {:induction false} Quarters(u: nat)
    ensures u / 256 / 256 == u / 0x1_0000 && u / 0x1_0000 / 256 == u / 0x100_0000 && u / 0x100_0000 / 256 == u / 0x1_0000_0000
  {
  }

  lemma {:induction false} EightBytes(u: nat)
    ensures LittleEndian(u, 8) == LittleEndian(u, 4) + LittleEndian(u / 0x1_0000_0000, 4)
  {
    Quarters(u);
    var rest := LittleEndian(u / 0x1_0000_0000, 4);
    assert LittleEndian(u / 0x100_0000, 5) == [u / 0x100_0000 % 256] + rest;
    assert LittleEndian(u / 0x1_0000, 6) == [u / 0x1_0000 % 256] + LittleEndian(u / 0x100_0000, 5);
    assert LittleEndian(u / 256, 7) == [u / 256 % 256] + LittleEndian(u / 0x1_0000, 6);
    assert LittleEndian(u, 8) == [u % 256] + LittleEndian(u / 256, 7);
    FourBytes(u);
  }

  lemma {:induction false} Powers()
    ensures Pow256(1) == 256 && Pow256(3) == 0x100_0000 && Pow256(4) == 0x1_0000_0000 && Pow256(7) == 0x100_0000_0000_0000 && Pow256(8) == 0x1_0000_0000_0000_0000
  {
    assert Pow256(0) == 1 && Pow256(2) == 0x1_0000 && Pow256(5) == 0x100_0000_0000 && Pow256(6) == 0x1_0000_0000_0000;
  }

  /** Adding a multiple of 2^32 or of 2^64 moves no byte below it. */
  lemma {:induction false} Shifted(n: int, m: int)
    ensures (n + 0x1_0000_0000 * m) % 256 == n % 256
    ensures (n + 0x1_0000_0000 * m) / 256 % 256 == n / 256 % 256
    ensures (n + 0x1_0000_0000 * m) / 0x1_0000 % 256 == n / 0x1_0000 % 256
    ensures (n + 0x1_0000_0000 * m) / 0x100_0000 % 256 == n / 0x100_0000 % 256
    ensures (n + 0x1_0000_0000 * m) / 0x1_0000_0000 == n / 0x1_0000_0000 + m
  {
    assert n + 0x1_0000_0000 * m == n + 256 * (0x100_0000 * m);
    assert n + 0x1_0000_0000 * m == n + 0x1_0000 * (0x1_0000 * m);
    assert n + 0x1_0000_0000 * m == n + 0x100_0000 * (0x100 * m);
    LowBytes(n, 0x100_0000 * m);
    assert (n + 0x1_0000 * (0x1_0000 * m)) / 0x1_0000 == n / 0x1_0000 + 0x1_0000 * m;
    assert (n + 0x100_0000 * (0x100 * m)) / 0x100_0000 == n / 0x100_0000 + 0x100 * m;
    assert (n + 256 * (0x100_0000 * m)) / 256 == n / 256 + 0x100_0000 * m;
    LowBytes(n / 256, 0x1_0000 * m);
    LowBytes(n / 0x1_0000, 0x100 * m);
    LowBytes(n / 0x100_0000, m);
  }

  lemma {:induction false} LowBytes(n: int, m: int)
    ensures (n + 256 * m) % 256 == n % 256
  {
  }

  ghost predicate Spells32(n: int, e: seq<byte>)
  {
    |e| == 4 && e[0] == n % 256 && e[1] == n / 256 % 256 && e[2] == n / 0x1_0000 % 256 && e[3] == n / 0x100_0000 % 256
  }

  /** Booleans are one byte; INT and DATE four, LONG and timestamps eight, least significant first, written exactly
      for the values that fit and read exactly at that length; any payload but the empty one is a decimal, any at
      all is text or binary. */
  lemma {:induction false} BoundBytesMean(a: Atom, n: int, b: bool, raw: seq<byte>)
    ensures EncodeBound(Boolean, BoundBool(b)) == Some([if b then 1 else 0])
    ensures |raw| == 1 ==> DecodeBound(Boolean, raw) == Some(BoundBool(raw[0] != 0))
    ensures a == Boolean ==> (DecodeBound(a, raw).Some? <==> |raw| == 1)
    ensures a == Int || a == Date ==> (DecodeBound(a, raw).Some? <==> |raw| == 4)
    ensures a == Long || a.Timestamp? || a.TimestampNtz? ==> (DecodeBound(a, raw).Some? <==> |raw| == 8)
    ensures a.Decimal? ==> (DecodeBound(a, raw).Some? <==> raw != [])
    ensures a.String? || a.Enum? || a.Bytes? || a.Fixed? ==> DecodeBound(a, raw) == Some(BoundBytes(raw))
    ensures EncodeBound(a, BoundBytes(raw)) == if a.String? || a.Enum? || a.Bytes? || a.Fixed? then Some(raw) else None
    ensures a.Decimal? ==> EncodeBound(a, BoundInt(n)).Some?
    ensures a == Int || a == Date ==>
      var e := EncodeBound(a, BoundInt(n));
      (e.Some? <==> -0x8000_0000 <= n <= 0x7fff_ffff) && (e.Some? ==> Spells32(n, e.value))
    ensures a == Long || a.Timestamp? || a.TimestampNtz? ==>
      var e := EncodeBound(a, BoundInt(n));
      && (e.Some? <==> -0x8000_0000_0000_0000 <= n <= 0x7fff_ffff_ffff_ffff)
      && (e.Some? ==> |e.value| == 8 && Spells32(n, e.value[..4]) && Spells32(n / 0x1_0000_0000, e.value[4..]))
  {
    Powers();
    if a == Int || a == Date {
      FixedBytes32(n);
    } else if a == Long || a.Timestamp? || a.TimestampNtz? {
      FixedBytes64(n);
    }
  }

  lemma {:induction false} FixedBytes32(n: int)
    ensures Fits(n, 4) <==> -0x8000_0000 <= n <= 0x7fff_ffff
    ensures Fits(n, 4) ==> Spells32(n, EncodeFixed(n, 4))
  {
    Powers();
    if Fits(n, 4) {
      var m := if n < 0 then 1 else 0;
      FourBytes(n + 0x1_0000_0000 * m);
      Shifted(n, m);
    }
  }

  lemma {:induction false} FixedBytes64(n: int)
    ensures Fits(n, 8) <==> -0x8000_0000_0000_0000 <= n <= 0x7fff_ffff_ffff_ffff
    ensures Fits(n, 8) ==> var e := EncodeFixed(n, 8); Spells32(n, e[..4]) && Spells32(n / 0x1_0000_0000, e[4..])
  {
    Powers();
    if Fits(n, 8) {
      var m := if n < 0 then 1 else 0;
      var u := n + 0x1_0000_0000 * (0x1_0000_0000 * m);
      EightBytes(u);
      FourBytes(u);
      FourBytes(u / 0x1_0000_0000);
      Shifted(n, 0x1_0000_0000 * m);
      Shifted(n / 0x1_0000_0000, m);
    }
  }
}
