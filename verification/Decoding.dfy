/** The numbers registers stand for, in plain arithmetic: IEEE 754-2019 section 3.4 single precision
    and two's-complement integers, under every word and byte order. */
module Decoding {
  import opened Codec
  import opened Common

  // ----- Which byte is which

  /** The pattern whose bytes, most significant first, are these. */
  function FourBytes(b3: Byte, b2: Byte, b1: Byte, b0: Byte): Bits32 {
    b3 * 0x100_0000 + b2 * 0x1_0000 + b1 * 0x100 + b0
  }

  /** Where the most significant byte travels, for every word and byte order. */
  lemma BytesOfPattern(b3: Byte, b2: Byte, b1: Byte, b0: Byte)
    ensures RegistersToBits([b3 * 256 + b2, b1 * 256 + b0], Big, Big) == FourBytes(b3, b2, b1, b0)
    ensures RegistersToBits([b2 * 256 + b3, b0 * 256 + b1], Big, Little) == FourBytes(b3, b2, b1, b0)
    ensures RegistersToBits([b1 * 256 + b0, b3 * 256 + b2], Little, Big) == FourBytes(b3, b2, b1, b0)
    ensures RegistersToBits([b0 * 256 + b1, b2 * 256 + b3], Little, Little) == FourBytes(b3, b2, b1, b0)
  {
    ByteSwap(b3, b2);
    ByteSwap(b1, b0);
    ByteSwap(b2, b3);
    ByteSwap(b0, b1);
  }

  lemma ByteSwap(hi: Byte, lo: Byte)
    ensures WordValue(hi * 256 + lo, Big) == hi * 256 + lo
    ensures WordValue(lo * 256 + hi, Little) == hi * 256 + lo
  {
    assert (lo * 256 + hi) / 256 == lo && (lo * 256 + hi) % 256 == hi;
  }

  // ----- Powers of two

  /** The a-th negative power of two. */
  function Half(a: nat): real {
    PowerOf2(-(a as int))
  }

  lemma {:induction false} PowerDown(a: nat, b: nat)
    ensures Half(a + b) == Half(a) * Half(b)
    decreases b
  {
    if b > 0 { PowerDown(a, b - 1); }
  }

  lemma {:induction false} PowerUp(a: nat, b: nat)
    ensures PowerOf2(a + b) == PowerOf2(a) * PowerOf2(b)
    decreases b
  {
    if b > 0 { PowerUp(a, b - 1); }
  }

  lemma PowerNext(k: int)
    ensures PowerOf2(k + 1) == 2.0 * PowerOf2(k)
  {
  }

  /** n is the a-th power of two, as the inverse of the a-th negative one. */
  predicate Inverse(a: nat, n: real) {
    Half(a) * n == 1.0
  }

  lemma InverseAdds(a: nat, b: nat, n: real, m: real, product: real)
    requires Inverse(a, n) && Inverse(b, m) && product == n * m
    ensures Inverse(a + b, product)
  {
    PowerDown(a, b);
    calc {
      Half(a + b) * product;
      (Half(a) * Half(b)) * (n * m);
      (Half(a) * n) * (Half(b) * m);
      1.0;
    }
  }

  lemma SmallPowers()
    ensures Inverse(3, 8.0) && Inverse(9, 512.0) && Inverse(20, 1048576.0) && Inverse(23, 8388608.0)
  {
    assert Inverse(3, 8.0) && Inverse(5, 32.0) && Inverse(4, 16.0);
    InverseAdds(5, 4, 32.0, 16.0, 512.0);
    InverseAdds(5, 5, 32.0, 32.0, 1024.0);
    InverseAdds(10, 10, 1024.0, 1024.0, 1048576.0);
    InverseAdds(20, 3, 1048576.0, 8.0, 8388608.0);
  }

  const TWO_TO_149: real := 713623846352979940529142984724747568191373312.0

  lemma TinyPower()
    ensures Inverse(149, TWO_TO_149)
  {
    SmallPowers();
    InverseAdds(20, 20, 1048576.0, 1048576.0, 1099511627776.0);
    InverseAdds(40, 20, 1099511627776.0, 1048576.0, 1152921504606846976.0);
    InverseAdds(60, 60, 1152921504606846976.0, 1152921504606846976.0, 1329227995784915872903807060280344576.0);
    InverseAdds(120, 20, 1329227995784915872903807060280344576.0, 1048576.0,
      1393796574908163946345982392040522594123776.0);
    InverseAdds(140, 9, 1393796574908163946345982392040522594123776.0, 512.0, TWO_TO_149);
  }

  lemma HugePower()
    ensures PowerOf2(104) == 20282409603651670423947251286016.0
  {
    assert PowerOf2(13) == 8192.0;
    PowerUp(13, 13);
    PowerUp(26, 26);
    PowerUp(52, 52);
  }

  // ----- Single precision

  /** The numbers from one up to two. */
  lemma OneToTwo(f: nat)
    requires f < 0x80_0000
    ensures Decode32(0x3F80_0000 + f) == Fin(1.0 + f as real / 8388608.0)
  {
    var bits: Bits32 := 0x3F80_0000 + f;
    assert bits / 0x80_0000 == 127 && bits % 0x80_0000 == f;
    SmallPowers();
    assert Unit(bits) == PowerOf2(-23) == Half(23);
    ScaledFraction(f, Half(23));
  }

  lemma ScaledFraction(f: nat, u: real)
    requires u * 8388608.0 == 1.0
    ensures (0x80_0000 + f) as real * u == 1.0 + f as real / 8388608.0
  {
    assert (0x80_0000 + f) as real == 8388608.0 + f as real;
    assert u == 1.0 / 8388608.0;
  }

  /** One step of the exponent doubles every normal number that stays finite. */
  lemma NextExponent(bits: Bits32)
    requires 0x80_0000 <= bits < 0x7F00_0000
    ensures Decode32(bits).Fin? && Decode32(bits + 0x80_0000) == Fin(2.0 * Decode32(bits).r)
  {
    var next: Bits32 := bits + 0x80_0000;
    assert next / 0x80_0000 == bits / 0x80_0000 + 1 && next % 0x80_0000 == bits % 0x80_0000;
    var k := Exponent(bits);
    assert 1 <= k <= 253 && Exponent(next) == k + 1;
    PowerNext(k as int - 150);
    DoubledUnit(Significand(bits), Unit(bits), Unit(next));
  }

  lemma DoubledUnit(m: nat, u: real, v: real)
    requires v == 2.0 * u
    ensures m as real * v == 2.0 * (m as real * u)
  {
  }

  /** The top bit is the sign. */
  lemma SignBit(bits: Bits32)
    requires bits < 0x7F80_0000
    ensures Decode32(bits).Fin? && Decode32(bits).r >= 0.0
    ensures Decode32(bits + 0x8000_0000) == Fin(-Decode32(bits).r)
  {
    var other: Bits32 := bits + 0x8000_0000;
    assert other / 0x80_0000 == bits / 0x80_0000 + 256 && other % 0x80_0000 == bits % 0x80_0000;
    assert Exponent(other) == Exponent(bits) < 255;
    ScaledOrder(0, Significand(bits), Unit(bits));
  }

  lemma ByInverse(x: real, u: real, n: real)
    requires u * n == 1.0
    ensures n != 0.0 && x * u == x / n
  {
    assert (x * u) * n == x;
  }

  /** Below the normal numbers the fraction counts multiples of 2^-149. */
  lemma Subnormal(f: nat)
    requires f < 0x80_0000
    ensures Decode32(f) == Fin(f as real / TWO_TO_149)
  {
    TinyPower();
    assert Unit(f) == PowerOf2(-149) == Half(149);
    ByInverse(f as real, Half(149), TWO_TO_149);
  }

  /** The patterns above the finite ones, and the largest finite number. */
  lemma Specials(f: nat)
    requires 0 < f < 0x80_0000
    ensures Decode32(0x7F80_0000) == Inf(false) && Decode32(0xFF80_0000) == Inf(true)
    ensures Decode32(0x7F80_0000 + f) == NaN && Decode32(0xFF80_0000 + f) == NaN
    ensures Decode32(0x7F7F_FFFF) == Fin(FLOAT32_MAX)
  {
    assert (0x7F80_0000 + f) / 0x80_0000 == 255 && (0x7F80_0000 + f) % 0x80_0000 == f;
    assert (0xFF80_0000 + f) / 0x80_0000 == 511 && (0xFF80_0000 + f) % 0x80_0000 == f;
    HugePower();
    assert 16777215.0 * 20282409603651670423947251286016.0 == FLOAT32_MAX;
  }

  lemma PairIsPattern(hi: Word, lo: Word)
    ensures RegistersToBits([hi, lo], Big, Big) == hi * 0x1_0000 + lo
  {
    ByteSwap(hi / 256, hi % 256);
    ByteSwap(lo / 256, lo % 256);
  }

  /** Between one and two the fraction of a register pair is read off directly. */
  lemma PairOneToTwo(hi: Word, lo: Word)
    requires 0x3F80 <= hi < 0x4000
    ensures RegistersToFloat([hi, lo], Big, Big) == Fin(1.0 + ((hi - 0x3F80) * 0x1_0000 + lo) as real / 8388608.0)
  {
    PairIsPattern(hi, lo);
    OneToTwo((hi - 0x3F80) * 0x1_0000 + lo);
  }

  /** One step of the exponent doubles the number. */
  lemma PairDoubled(hi: Word, lo: Word)
    requires 0x80 <= hi < 0x7F00
    ensures RegistersToFloat([hi, lo], Big, Big).Fin?
    ensures RegistersToFloat([hi + 0x80, lo], Big, Big) == Fin(2.0 * RegistersToFloat([hi, lo], Big, Big).r)
  {
    PairIsPattern(hi, lo);
    PairIsPattern(hi + 0x80, lo);
    NextExponent(hi * 0x1_0000 + lo);
  }

  /** The top bit negates it. */
  lemma PairNegated(hi: Word, lo: Word)
    requires hi < 0x7F80
    ensures RegistersToFloat([hi, lo], Big, Big).Fin?
    ensures RegistersToFloat([hi + 0x8000, lo], Big, Big) == Fin(-RegistersToFloat([hi, lo], Big, Big).r)
  {
    PairIsPattern(hi, lo);
    PairIsPattern(hi + 0x8000, lo);
    SignBit(hi * 0x1_0000 + lo);
  }

  /** The smallest numbers are multiples of 2^-149. */
  lemma PairSubnormal(hi: Word, lo: Word)
    requires hi < 0x80
    ensures RegistersToFloat([hi, lo], Big, Big) == Fin((hi * 0x1_0000 + lo) as real / TWO_TO_149)
  {
    PairIsPattern(hi, lo);
    Subnormal(hi * 0x1_0000 + lo);
  }

  /** Registers 0x4366, 0x0000 are 230 volts. */
  lemma TwoHundredThirty()
    ensures RegistersToFloat([0x4366, 0x0000], Big, Big) == Fin(230.0)
  {
    BytesOfPattern(0x43, 0x66, 0, 0);
    OneToTwo(0x66_0000);
    NextExponent(0x3FE6_0000);
    NextExponent(0x4066_0000);
    NextExponent(0x40E6_0000);
    NextExponent(0x4166_0000);
    NextExponent(0x41E6_0000);
    NextExponent(0x4266_0000);
    NextExponent(0x42E6_0000);
  }

  // ----- Sized integers

  lemma Unsigned(a: Word, b: Word, c: Word, d: Word)
    ensures RegistersToInt([a], U16, Big, Big) == Some(a as int)
    ensures RegistersToInt([a, b], U32, Big, Big) == Some(a * 0x1_0000 + b)
    ensures RegistersToInt([a, b, c, d], U64, Big, Big) ==
            Some(a * 0x1_0000_0000_0000 + b * 0x1_0000_0000 + c * 0x1_0000 + d)
  {
    BigEndianOne(a);
    BigEndianTwo(a, b);
    BigEndianFour(a, b, c, d);
    assert [a][..1] == [a] && [a, b][..2] == [a, b] && [a, b, c, d][..4] == [a, b, c, d];
  }

  lemma BigEndianOne(a: Word)
    ensures BigEndian([a], Big) == a as int
  {
    ByteSwap(a / 256, a % 256);
    assert [a][..0] == [];
  }

  lemma BigEndianTwo(a: Word, b: Word)
    ensures BigEndian([a, b], Big) == a * 0x1_0000 + b
  {
    BigEndianOne(a);
    ByteSwap(b / 256, b % 256);
    assert [a, b][..1] == [a];
  }

  lemma BigEndianFour(a: Word, b: Word, c: Word, d: Word)
    ensures BigEndian([a, b, c, d], Big) == a * 0x1_0000_0000_0000 + b * 0x1_0000_0000 + c * 0x1_0000 + d
  {
    BigEndianTwo(a, b);
    ByteSwap(c / 256, c % 256);
    ByteSwap(d / 256, d % 256);
    assert [a, b, c, d][..3] == [a, b, c] && [a, b, c][..2] == [a, b];
  }

  /** Two's complement: a signed reading is the unsigned one, less one full turn when its top bit is set. */
  lemma TwosComplement(a: Word, b: Word, c: Word, d: Word)
    ensures RegistersToInt([a], I16, Big, Big) == Some(a - if a >= 0x8000 then 0x1_0000 else 0)
    ensures RegistersToInt([a, b], I32, Big, Big) ==
            Some(a * 0x1_0000 + b - if a >= 0x8000 then 0x1_0000_0000 else 0)
    ensures RegistersToInt([a, b, c, d], I64, Big, Big) ==
            Some(a * 0x1_0000_0000_0000 + b * 0x1_0000_0000 + c * 0x1_0000 + d
                 - if a >= 0x8000 then 0x1_0000_0000_0000_0000 else 0)
  {
    BigEndianOne(a);
    BigEndianTwo(a, b);
    BigEndianFour(a, b, c, d);
    assert [a][..1] == [a] && [a, b][..2] == [a, b] && [a, b, c, d][..4] == [a, b, c, d];
    Radices();
  }

  lemma Radices()
    ensures Radix(1) == 0x1_0000 && Radix(2) == 0x1_0000_0000 && Radix(4) == 0x1_0000_0000_0000_0000
  {
    assert Radix(3) == 0x1_0000_0000_0000;
  }

  function FromUnsigned(u: nat, t: Dtype): int
    requires !t.Float32?
  {
    if Signed(t) && u >= Radix(Width(t)) / 2 then u - Radix(Width(t)) else u
  }

  lemma FromWords(x: seq<Word>, t: Dtype, wo: Order, bo: Order, words: seq<Word>)
    requires !t.Float32? && |x| >= Width(t) && Arranged(x[..Width(t)], wo) == words
    ensures RegistersToInt(x, t, wo, bo) == Some(FromUnsigned(BigEndian(words, bo), t))
  {
  }

  lemma ReversedWords(x: seq<Word>, y: seq<Word>, t: Dtype, bo: Order)
    requires !t.Float32? && |x| == |y| == Width(t) && Reverse(x) == y
    ensures RegistersToInt(x, t, Little, bo) == RegistersToInt(y, t, Big, bo)
  {
    assert x[..|x|] == x && y[..|y|] == y;
    FromWords(x, t, Little, bo, y);
    FromWords(y, t, Big, bo, y);
  }

  /** Little word order sends the words of the same number the other way round. */
  lemma WordsReversed(a: Word, b: Word, c: Word, d: Word, t: Dtype, bo: Order)
    requires t == U32 || t == I32 || t == U64 || t == I64
    ensures Width(t) == 2 ==> RegistersToInt([b, a], t, Little, bo) == RegistersToInt([a, b], t, Big, bo)
    ensures Width(t) == 4 ==> RegistersToInt([d, c, b, a], t, Little, bo) == RegistersToInt([a, b, c, d], t, Big, bo)
  {
    assert Reverse([b, a]) == [a, b];
    assert Reverse([d, c, b, a]) == [a, b, c, d];
    if Width(t) == 2 {
      ReversedWords([b, a], [a, b], t, bo);
    } else {
      ReversedWords([d, c, b, a], [a, b, c, d], t, bo);
    }
  }

  /** The word with its two bytes exchanged. */
  function Swapped(w: Word): Word {
    w % 256 * 256 + w / 256
  }

  function AllSwapped(ws: seq<Word>): (r: seq<Word>)
    ensures |r| == |ws|
  {
    seq(|ws|, i requires 0 <= i < |ws| => Swapped(ws[i]))
  }

  lemma {:induction false} BigEndianSwapped(ws: seq<Word>)
    ensures BigEndian(AllSwapped(ws), Little) == BigEndian(ws, Big)
    decreases |ws|
  {
    if ws != [] {
      var n := |ws| - 1;
      BigEndianSwapped(ws[..n]);
      assert AllSwapped(ws)[..n] == AllSwapped(ws[..n]) && AllSwapped(ws)[n] == Swapped(ws[n]);
      ByteSwap(ws[n] / 256, ws[n] % 256);
    }
  }

  lemma ReverseSwapped(ws: seq<Word>)
    ensures Reverse(AllSwapped(ws)) == AllSwapped(Reverse(ws))
  {
    var x, y := Reverse(AllSwapped(ws)), AllSwapped(Reverse(ws));
    forall i | 0 <= i < |ws| ensures x[i] == y[i] {
      assert x[i] == AllSwapped(ws)[|ws| - 1 - i] && Reverse(ws)[i] == ws[|ws| - 1 - i];
    }
  }

  lemma ArrangedSwapped(ws: seq<Word>, wo: Order)
    ensures Arranged(AllSwapped(ws), wo) == AllSwapped(Arranged(ws, wo))
  {
    if wo == Little { ReverseSwapped(ws); }
  }

  lemma SwappedPrefix(ws: seq<Word>, n: nat)
    requires n <= |ws|
    ensures AllSwapped(ws)[..n] == AllSwapped(ws[..n])
  {
  }

  /** Little byte order exchanges the bytes of every word of the same number. */
  lemma BytesSwapped(ws: seq<Word>, t: Dtype, wo: Order)
    requires !t.Float32?
    ensures RegistersToInt(AllSwapped(ws), t, wo, Little) == RegistersToInt(ws, t, wo, Big)
  {
    var n := Width(t);
    if |ws| >= n {
      SwappedPrefix(ws, n);
      ArrangedSwapped(ws[..n], wo);
      BigEndianSwapped(Arranged(ws[..n], wo));
      FromWords(AllSwapped(ws), t, wo, Little, AllSwapped(Arranged(ws[..n], wo)));
      FromWords(ws, t, wo, Big, Arranged(ws[..n], wo));
    }
  }

  /** Only the leading registers count, and too few of them are an error. */
  lemma LeadingRegisters(regs: seq<Word>, t: Dtype, wo: Order, bo: Order)
    requires !t.Float32?
    ensures var n := if t == U16 || t == I16 then 1 else if t == U32 || t == I32 then 2 else 4;
            && Width(t) == n
            && (RegistersToInt(regs, t, wo, bo) == None <==> |regs| < n)
            && (|regs| >= n ==> RegistersToInt(regs, t, wo, bo) == RegistersToInt(regs[..n], t, wo, bo))
  {
    var n := Width(t);
    if |regs| >= n { assert regs[..n][..n] == regs[..n]; }
  }

  /** The raw number of each type that means "unavailable"; every other one is converted. */
  function Unavailable(t: Dtype): int
    requires !t.Float32?
  {
    match t
    case U16 => 0xFFFF
    case I16 => 0x7FFF
    case U32 => 0xFFFF_FFFF
    case I32 => 0x7FFF_FFFF
    case U64 => 0xFFFF_FFFF_FFFF_FFFF
    case I64 => 0x7FFF_FFFF_FFFF_FFFF
  }

  /** A raw number in the units of its point. */
  function Converted(x: real, scale: real, sign: int, offset: real): real {
    x * (scale * sign as real) + offset
  }

  lemma AffineMeans(x: real, scale: real, sign: int, offset: real)
    ensures Affine(Fin(x), scale, sign, offset) == Fin(Converted(x, scale, sign, offset))
  {
    var k := scale * sign as real;
    assert Affine(Fin(x), scale, sign, offset).Fin?;
    assert Affine(Fin(x), scale, sign, offset).r == x * k + offset;
  }

  lemma IntPointMeans(regs: seq<Word>, t: Dtype, scale: real, sign: int, offset: real, wo: Order, bo: Order)
    requires !t.Float32?
    ensures DecodeIntPoint(regs, t, scale, sign, offset, wo, bo) ==
            match RegistersToInt(regs, t, wo, bo)
            case None => None
            case Some(raw) =>
              Some(if raw == Unavailable(t) then NaN else Fin(Converted(raw as real, scale, sign, offset)))
  {
    SentinelIs(t);
    var raw := RegistersToInt(regs, t, wo, bo);
    if raw.Some? { AffineMeans(raw.value as real, scale, sign, offset); }
  }

  lemma SentinelIs(t: Dtype)
    requires !t.Float32?
    ensures Sentinel(t) == Unavailable(t)
  {
    Radices();
  }
}
