/** Registers to and from numbers: float32 bit patterns and sized integers under every word
    and byte order. Rounding a real to float32 is a parameter of the encoder. */
module Codec {
  import opened Common

  datatype Order = Big | Little

  /** A float32 bit pattern. */
  type Bits32 = x: int | 0 <= x < 0x1_0000_0000

  /** 2e20 is what an ND45 writes for a value out of its measuring range. */
  const OVERRANGE: real := 100000000000000000000.0

  const FLOAT32_MAX: real := 340282346638528859811704183484516925440.0

  predicate OverRange(x: Num) {
    !x.Fin? || Abs(x.r) >= OVERRANGE
  }

  // ----- Register words and bytes

  function WordBytes(w: Word, order: Order): (Byte, Byte) {
    match order
    case Big => (w / 256, w % 256)
    case Little => (w % 256, w / 256)
  }

  function BytesWord(b: (Byte, Byte), order: Order): Word {
    match order
    case Big => (b.0 as int) * 256 + (b.1 as int)
    case Little => (b.1 as int) * 256 + (b.0 as int)
  }

  /** The word as the big-endian number its bytes spell on the wire. */
  function WordValue(w: Word, order: Order): Word {
    BytesWord(WordBytes(w, order), Big)
  }

  lemma WordValueInvolution(w: Word, order: Order)
    ensures WordValue(WordValue(w, order), order) == w
    ensures BytesWord(WordBytes(w, order), order) == w
    ensures BytesWord(WordBytes(w, Big), order) == WordValue(w, order)
  {
    var hi, lo := w / 256, w % 256;
    assert (lo * 256 + hi) / 256 == lo && (lo * 256 + hi) % 256 == hi;
  }

  function RegistersToBits(regs: seq<Word>, wordOrder: Order, byteOrder: Order): Bits32
    requires |regs| >= 2
  {
    var a, b := WordValue(regs[0], byteOrder), WordValue(regs[1], byteOrder);
    match wordOrder
    case Big => (a as int) * 0x10000 + (b as int)
    case Little => (b as int) * 0x10000 + (a as int)
  }

  function BitsToRegisters(bits: Bits32, wordOrder: Order, byteOrder: Order): (regs: seq<Word>)
    ensures |regs| == 2
  {
    var hi := BytesWord(WordBytes(bits / 0x10000, Big), byteOrder);
    var lo := BytesWord(WordBytes(bits % 0x10000, Big), byteOrder);
    match wordOrder
    case Big => [hi, lo]
    case Little => [lo, hi]
  }

  /** Encode then decode is the identity on bit patterns, for all four orders. */
  lemma EncodeDecode(bits: Bits32, wordOrder: Order, byteOrder: Order)
    ensures RegistersToBits(BitsToRegisters(bits, wordOrder, byteOrder), wordOrder, byteOrder) == bits
  {
    WordValueInvolution(bits / 0x10000, byteOrder);
    WordValueInvolution(bits % 0x10000, byteOrder);
  }

  /** Decode then encode is the identity on register pairs, for all four orders. */
  lemma DecodeEncode(regs: seq<Word>, wordOrder: Order, byteOrder: Order)
    requires |regs| == 2
    ensures BitsToRegisters(RegistersToBits(regs, wordOrder, byteOrder), wordOrder, byteOrder) == regs
  {
    var a, b := WordValue(regs[0], byteOrder), WordValue(regs[1], byteOrder);
    WordValueInvolution(regs[0], byteOrder);
    WordValueInvolution(regs[1], byteOrder);
    WordValueInvolution(a, byteOrder);
    WordValueInvolution(b, byteOrder);
    HighLow(a, b);
    HighLow(b, a);
  }

  lemma HighLow(a: Word, b: Word)
    ensures ((a as int) * 0x10000 + b) / 0x10000 == a && ((a as int) * 0x10000 + b) % 0x10000 == b
  {
  }

  // ----- What a bit pattern denotes (IEEE 754-2019 section 3.4)

  function PowerOf2(k: int): (r: real)
    ensures r > 0.0
    decreases if k < 0 then -k else k
  {
    if k == 0 then 1.0 else if k > 0 then 2.0 * PowerOf2(k - 1) else PowerOf2(k + 1) / 2.0
  }

  function Exponent(bits: Bits32): nat { bits / 0x80_0000 % 0x100 }

  function Fraction(bits: Bits32): nat { bits % 0x80_0000 }

  predicate Negative(bits: Bits32) { bits >= 0x8000_0000 }

  /** The unit of a finite pattern's significand. */
  function Unit(bits: Bits32): (r: real)
    ensures r > 0.0
  {
    PowerOf2(if Exponent(bits) == 0 then -149 else Exponent(bits) as int - 150)
  }

  function Significand(bits: Bits32): nat {
    if Exponent(bits) == 0 then Fraction(bits) else 0x80_0000 + Fraction(bits)
  }

  /** The value of a finite pattern with its sign removed. */
  function Magnitude(bits: Bits32): real {
    Scaled(Significand(bits), Unit(bits))
  }

  function Scaled(m: nat, unit: real): real {
    m as real * unit
  }

  function Decode32(bits: Bits32): Num {
    if Exponent(bits) == 255 then
      if Fraction(bits) == 0 then Inf(Negative(bits)) else NaN
    else
      Fin(if Negative(bits) then -Magnitude(bits) else Magnitude(bits))
  }

  function RegistersToFloat(regs: seq<Word>, wordOrder: Order, byteOrder: Order): Num
    requires |regs| >= 2
  {
    Decode32(RegistersToBits(regs, wordOrder, byteOrder))
  }

  // ----- Encoding, with the coarse energy form that keeps only the high word

  function LowIndex(wordOrder: Order): nat { if wordOrder == Big then 1 else 0 }

  function ZeroLow(bits: Bits32): Bits32 { bits - bits % 0x10000 }

  predicate Representable(x: Num) {
    x.Fin? && Abs(x.r) <= FLOAT32_MAX
  }

  /** None is the ValueError of a value float32 cannot hold. `pack` is the rounding. */
  function EncodePoint(pack: real -> Bits32, si: Num, scale: real, sign: int, offset: real,
                       wordOrder: Order, byteOrder: Order, zeroLowWord: bool): (regs: Option<seq<Word>>)
    ensures regs.Some? ==> |regs.value| == 2
  {
    var x := Affine(si, scale, sign, offset);
    if !Representable(x) then None
    else
      var regs := BitsToRegisters(pack(x.r), wordOrder, byteOrder);
      Some(if zeroLowWord then regs[LowIndex(wordOrder) := 0] else regs)
  }

  /** What an encoded point reads back as. */
  lemma EncodePointReadsBack(pack: real -> Bits32, si: Num, scale: real, sign: int, offset: real,
                             wordOrder: Order, byteOrder: Order, zeroLowWord: bool)
    ensures var x := Affine(si, scale, sign, offset);
            var regs := EncodePoint(pack, si, scale, sign, offset, wordOrder, byteOrder, zeroLowWord);
            && (regs.Some? <==> Representable(x))
            && (regs.Some? ==> RegistersToBits(regs.value, wordOrder, byteOrder) ==
                               if zeroLowWord then ZeroLow(pack(x.r)) else pack(x.r))
  {
    var x := Affine(si, scale, sign, offset);
    if Representable(x) {
      EncodeDecode(pack(x.r), wordOrder, byteOrder);
      ZeroLowRegisters(pack(x.r), wordOrder, byteOrder);
    }
  }

  lemma ZeroLowRegisters(bits: Bits32, wordOrder: Order, byteOrder: Order)
    ensures var regs := BitsToRegisters(bits, wordOrder, byteOrder)[LowIndex(wordOrder) := 0];
            RegistersToBits(regs, wordOrder, byteOrder) == ZeroLow(bits)
  {
    WordValueInvolution(bits / 0x10000, byteOrder);
    assert WordValue(0, byteOrder) == 0;
  }

  lemma ZeroLowFields(bits: Bits32)
    ensures Exponent(ZeroLow(bits)) == Exponent(bits) && Negative(ZeroLow(bits)) == Negative(bits)
    ensures Fraction(ZeroLow(bits)) == Fraction(bits) - bits % 0x10000
    ensures bits % 0x10000 <= Fraction(bits)
  {
    var h, l := bits / 0x10000, bits % 0x10000;
    assert bits == h * 0x10000 + l;
    assert bits / 0x80_0000 == h / 0x80;
    assert ZeroLow(bits) / 0x80_0000 == h / 0x80;
    assert bits % 0x80_0000 == h % 0x80 * 0x10000 + l;
    assert ZeroLow(bits) % 0x80_0000 == h % 0x80 * 0x10000;
  }

  lemma ScaledOrder(a: nat, b: nat, p: real)
    requires a <= b && p > 0.0
    ensures a as real * p <= b as real * p
    ensures a < b ==> a as real * p < b as real * p
  {
  }

  /** Dropping the low word keeps the sign and the exponent, never increases the magnitude, and
      on every normal float32 errs by less than one part in 2^7. */
  lemma CoarseEncodingError(bits: Bits32)
    requires Exponent(bits) != 255
    ensures Exponent(ZeroLow(bits)) == Exponent(bits) && Negative(ZeroLow(bits)) == Negative(bits)
    ensures 0.0 <= Magnitude(ZeroLow(bits)) <= Magnitude(bits)
    ensures Exponent(bits) != 0 ==> (Magnitude(bits) - Magnitude(ZeroLow(bits))) * 128.0 < Magnitude(bits)
  {
    ZeroLowFields(bits);
    var m, l := Significand(bits), bits % 0x10000;
    assert Unit(ZeroLow(bits)) == Unit(bits) && Significand(ZeroLow(bits)) == m - l;
    Truncated(m, l, Unit(bits));
  }

  lemma Truncated(m: nat, l: nat, unit: real)
    requires l <= m && l < 0x10000 && unit > 0.0
    ensures 0.0 <= Scaled(m - l, unit) <= Scaled(m, unit)
    ensures m >= 0x80_0000 ==> (Scaled(m, unit) - Scaled(m - l, unit)) * 128.0 < Scaled(m, unit)
  {
    ScaledOrder(0, m - l, unit);
    ScaledOrder(m - l, m, unit);
    if m >= 0x80_0000 { ScaledOrder(l * 128, m, unit); }
    assert m as real * unit - (m - l) as real * unit == l as real * unit;
    assert (l * 128) as real * unit == l as real * unit * 128.0;
  }

  // ----- Sized integers

  datatype Dtype = Float32 | U16 | I16 | U32 | I32 | U64 | I64

  /** Registers one value of this type occupies. */
  function Width(d: Dtype): nat {
    match d
    case U16 | I16 => 1
    case Float32 | U32 | I32 => 2
    case U64 | I64 => 4
  }

  predicate Signed(d: Dtype) { d.I16? || d.I32? || d.I64? }

  function Radix(n: nat): (r: int)
    ensures r >= 1
  {
    if n == 0 then 1 else 0x10000 * Radix(n - 1)
  }

  /** Words most significant first. */
  function BigEndian(words: seq<Word>, byteOrder: Order): nat
    decreases |words|
  {
    if words == [] then 0
    else BigEndian(words[..|words| - 1], byteOrder) * 0x10000 + WordValue(words[|words| - 1], byteOrder)
  }

  function Reverse(s: seq<Word>): (r: seq<Word>)
    ensures |r| == |s| && forall i :: 0 <= i < |s| ==> r[i] == s[|s| - 1 - i]
  {
    if s == [] then [] else Reverse(s[1..]) + [s[0]]
  }

  function Arranged(regs: seq<Word>, wordOrder: Order): (r: seq<Word>)
    ensures |r| == |regs|
  {
    if wordOrder == Big then regs else Reverse(regs)
  }

  /** None is the ValueError of too few registers. */
  function RegistersToInt(regs: seq<Word>, d: Dtype, wordOrder: Order, byteOrder: Order): Option<int>
    requires !d.Float32?
  {
    var n := Width(d);
    if |regs| < n then None
    else
      var u := BigEndian(Arranged(regs[..n], wordOrder), byteOrder);
      Some(if Signed(d) && u >= Radix(n) / 2 then u - Radix(n) else u)
  }

  function Sentinel(d: Dtype): int
    requires !d.Float32?
  {
    if Signed(d) then Radix(Width(d)) / 2 - 1 else Radix(Width(d)) - 1
  }

  lemma {:induction false} BigEndianBound(words: seq<Word>, byteOrder: Order)
    ensures BigEndian(words, byteOrder) < Radix(|words|)
    decreases |words|
  {
    if words != [] { BigEndianBound(words[..|words| - 1], byteOrder); }
  }

  lemma {:induction false} BigEndianInjective(x: seq<Word>, y: seq<Word>, byteOrder: Order)
    requires |x| == |y| && BigEndian(x, byteOrder) == BigEndian(y, byteOrder)
    ensures x == y
    decreases |x|
  {
    if x != [] {
      var n := |x| - 1;
      WordValueInvolution(x[n], byteOrder);
      WordValueInvolution(y[n], byteOrder);
      BigEndianInjective(x[..n], y[..n], byteOrder);
      assert x == x[..n] + [x[n]] && y == y[..n] + [y[n]];
    }
  }

  lemma ReverseInjective(x: seq<Word>, y: seq<Word>)
    requires |x| == |y| && Reverse(x) == Reverse(y)
    ensures x == y
  {
    forall i | 0 <= i < |x| ensures x[i] == y[i] {
      assert Reverse(x)[|x| - 1 - i] == Reverse(y)[|x| - 1 - i];
    }
  }

  predicate InRange(v: int, d: Dtype) {
    var r := Radix(Width(d));
    if Signed(d) then -(r / 2) <= v < r / 2 else 0 <= v < r
  }

  lemma RadixEven(n: nat)
    requires n > 0
    ensures Radix(n) == 2 * (Radix(n) / 2)
  {
    assert Radix(n) == 2 * (0x8000 * Radix(n - 1));
  }

  lemma IntDecodingRange(x: seq<Word>, d: Dtype, wordOrder: Order, byteOrder: Order)
    requires !d.Float32? && |x| == Width(d)
    ensures var v := RegistersToInt(x, d, wordOrder, byteOrder); v.Some? && InRange(v.value, d)
  {
    assert x[..Width(d)] == x;
    BigEndianBound(Arranged(x, wordOrder), byteOrder);
    RadixEven(Width(d));
  }

  /** Exactly enough registers always decode, into the two's-complement range of the type, and
      no two register lists decode alike. */
  lemma IntDecodingExact(x: seq<Word>, y: seq<Word>, d: Dtype, wordOrder: Order, byteOrder: Order)
    requires !d.Float32? && |x| == |y| == Width(d)
    ensures var v := RegistersToInt(x, d, wordOrder, byteOrder); v.Some? && InRange(v.value, d)
    ensures RegistersToInt(x, d, wordOrder, byteOrder) == RegistersToInt(y, d, wordOrder, byteOrder) ==> x == y
  {
    IntDecodingRange(x, d, wordOrder, byteOrder);
    if RegistersToInt(x, d, wordOrder, byteOrder) == RegistersToInt(y, d, wordOrder, byteOrder) {
      var n, a, b := Width(d), Arranged(x, wordOrder), Arranged(y, wordOrder);
      assert x[..n] == x && y[..n] == y;
      BigEndianBound(a, byteOrder);
      BigEndianBound(b, byteOrder);
      assert BigEndian(a, byteOrder) == BigEndian(b, byteOrder);
      BigEndianInjective(a, b, byteOrder);
      if wordOrder == Little { ReverseInjective(x, y); }
    }
  }

  /** NaN marks the channel the device reports as unavailable. */
  function DecodeIntPoint(regs: seq<Word>, d: Dtype, scale: real, sign: int, offset: real,
                          wordOrder: Order, byteOrder: Order): Option<Num>
    requires !d.Float32?
  {
    match RegistersToInt(regs, d, wordOrder, byteOrder)
    case None => None
    case Some(raw) => Some(if raw == Sentinel(d) then NaN else Affine(Fin(raw as real), scale, sign, offset))
  }

  /** Exactly one register pattern of each type means "unavailable". */
  lemma OnePatternIsInvalid(x: seq<Word>, y: seq<Word>, d: Dtype, scale: real, sign: int, offset: real,
                            wordOrder: Order, byteOrder: Order)
    requires !d.Float32? && |x| == |y| == Width(d)
    requires DecodeIntPoint(x, d, scale, sign, offset, wordOrder, byteOrder) == Some(NaN)
    ensures DecodeIntPoint(y, d, scale, sign, offset, wordOrder, byteOrder) == Some(NaN) <==> x == y
  {
    IntDecodingExact(x, y, d, wordOrder, byteOrder);
    IntDecodingExact(y, x, d, wordOrder, byteOrder);
  }
}
