/** Error detection of the CRC, stated on the bits as they travel: every burst of at most
    16 bits is rejected, wherever it falls, and some burst of 17 bits never is. */
module CrcBursts {
  import opened Common
  import opened Crc

  type Bit = x: int | 0 <= x < 2

  /** The CRC register fed one wire bit at a time. */
  function RunBits(c: nat, bits: seq<Bit>): nat
    decreases |bits|
  {
    if bits == [] then c else RunBits(Shift(Xor(c, bits[0])), bits[1..])
  }

  /** The n low bits of a number, least significant first. */
  function LowBits(n: nat, b: nat): (r: seq<Bit>)
    ensures |r| == n
  {
    if n == 0 then [] else [b % 2] + LowBits(n - 1, b / 2)
  }

  /** A frame as it travels: each byte least significant bit first. */
  function WireBits(data: seq<Byte>): (r: seq<Bit>)
    ensures |r| == 8 * |data|
  {
    if data == [] then [] else LowBits(8, data[0]) + WireBits(data[1..])
  }

  // ----- Loading bits all at once or one by one is the same

  lemma AboveLowest(x: nat, q: nat, p: nat)
    requires q == 2 * p
    ensures Xor(x, q) % 2 == x % 2 && Xor(x, q) / 2 == Xor(x / 2, p)
  {
    XorHalves(x, q);
    Halve(p, 0);
    Parity(q, 0, x);
  }

  lemma ShiftHigh(x: nat, q: nat, p: nat)
    requires q == 2 * p
    ensures Shift(Xor(x, q)) == Xor(Shift(x), p)
  {
    AboveLowest(x, q, p);
    if x % 2 == 1 {
      XorAssociative(x / 2, p, POLY);
      XorCommutes(p, POLY);
      XorAssociative(x / 2, POLY, p);
    }
  }

  lemma LowestApart(b: nat)
    ensures Xor(b % 2, 2 * (b / 2)) == b
  {
    XorHalves(b % 2, 2 * (b / 2));
  }

  lemma {:induction false} LoadAhead(n: nat, c: nat, b: nat)
    requires b < Pow2(n)
    ensures RunBits(c, LowBits(n, b)) == Shifts(n, Xor(c, b))
  {
    if n > 0 {
      var x := Xor(c, b % 2);
      assert LowBits(n, b)[1..] == LowBits(n - 1, b / 2);
      LoadAhead(n - 1, Shift(x), b / 2);
      LowestApart(b);
      XorAssociative(c, b % 2, 2 * (b / 2));
      ShiftHigh(x, 2 * (b / 2), b / 2);
    } else {
      XorCommutes(c, 0);
    }
  }

  lemma {:induction false} RunBitsAppend(c: nat, x: seq<Bit>, y: seq<Bit>)
    ensures RunBits(c, x + y) == RunBits(RunBits(c, x), y)
    decreases |x|
  {
    if x == [] {
      assert x + y == y;
    } else {
      assert (x + y)[1..] == x[1..] + y;
      RunBitsAppend(Shift(Xor(c, x[0])), x[1..], y);
    }
  }

  /** The bytewise CRC of the bridge is the serial CRC of the wire bits. */
  lemma {:induction false} RunAsBits(c: nat, data: seq<Byte>)
    ensures Run(c, data) == RunBits(c, WireBits(data))
    decreases |data|
  {
    if data != [] {
      Pow2At16();
      LoadAhead(8, c, data[0]);
      RunBitsAppend(c, LowBits(8, data[0]), WireBits(data[1..]));
      RunAsBits(Feed(c, data[0]), data[1..]);
    }
  }

  // ----- Sixteen bits determine the register

  lemma BitState(c: nat, b: Bit)
    requires State(c)
    ensures State(Xor(c, b)) && Xor(c, b) % 2 == (c + b) % 2
    ensures State(Shift(Xor(c, b)))
  {
    Pow2At16();
    XorBound(c, b, 16);
    XorHalves(c, b);
    ShiftThenBack(Xor(c, b));
  }

  lemma {:induction false} RunBitsState(c: nat, bits: seq<Bit>)
    requires State(c)
    ensures State(RunBits(c, bits))
    decreases |bits|
  {
    if bits != [] {
      BitState(c, bits[0]);
      RunBitsState(Shift(Xor(c, bits[0])), bits[1..]);
    }
  }

  /** If two registers agree from bit k up after a clock, k at most 15, they had the same
      lowest bit and agreed from bit k + 1 up before it. */
  lemma ClockBack(u: nat, v: nat, k: nat)
    requires State(u) && State(v) && k <= 15 && Xor(Shift(u), Shift(v)) < Pow2(k)
    ensures u % 2 == v % 2 && Xor(u, v) < Pow2(k + 1)
  {
    var a, b := u / 2, v / 2;
    XorHalves(u, v);
    if u % 2 == v % 2 {
      if u % 2 == 1 {
        XorCommutes(b, POLY);
        XorAssociative(Xor(a, POLY), POLY, b);
        XorTwice(a, POLY);
      }
    } else {
      Pow2At16();
      Pow2Monotone(k, 15);
      XorBound(a, b, 15);
      XorCommutes(a, POLY);
      XorAssociative(POLY, a, b);
      XorAssociative(a, b, POLY);
      XorCommutes(Xor(a, b), POLY);
      XorTopBit(POLY, Xor(a, b), 15);
      assert false;
    }
  }

  lemma {:induction false} Pow2Monotone(j: nat, k: nat)
    requires j <= k
    ensures Pow2(j) <= Pow2(k)
  {
    if j < k { Pow2Monotone(j, k - 1); }
  }

  lemma XorFour(a: nat, b: nat, c: nat, d: nat)
    ensures Xor(Xor(a, b), Xor(c, d)) == Xor(Xor(a, c), Xor(b, d))
  {
    XorAssociative(a, b, Xor(c, d));
    XorAssociative(b, c, d);
    XorCommutes(b, c);
    XorAssociative(c, b, d);
    XorAssociative(a, c, Xor(b, d));
  }

  lemma {:induction false} SameEndAgrees(c: nat, d: nat, x: seq<Bit>, y: seq<Bit>)
    requires State(c) && State(d) && |x| == |y| <= 16
    requires RunBits(c, x) == RunBits(d, y)
    ensures Xor(c, d) < Pow2(|x|)
    decreases |x|
  {
    if x == [] {
      XorSelf(c);
    } else {
      var u, v := Xor(c, x[0]), Xor(d, y[0]);
      BitState(c, x[0]);
      BitState(d, y[0]);
      SameEndAgrees(Shift(u), Shift(v), x[1..], y[1..]);
      ClockBack(u, v, |x| - 1);
      XorTwice(c, x[0]);
      XorTwice(d, y[0]);
      XorFour(u, x[0], v, y[0]);
      Pow2Monotone(1, |x|);
      XorBound(x[0], y[0], 1);
      XorBound(Xor(u, v), Xor(x[0], y[0]), |x|);
    }
  }

  lemma SameParity(c: nat, i: Bit, j: Bit)
    requires (c + i) % 2 == (c + j) % 2
    ensures i == j
  {
  }

  /** Two bits clocked into one register leave registers this close only if they are equal. */
  lemma SameBit(c: nat, i: Bit, j: Bit, k: nat)
    requires State(c) && k <= 15 && Xor(Shift(Xor(c, i)), Shift(Xor(c, j))) < Pow2(k)
    ensures i == j
  {
    BitState(c, i);
    BitState(c, j);
    ClockBack(Xor(c, i), Xor(c, j), k);
    SameParity(c, i, j);
  }

  lemma SameEndSameBit(c: nat, x: seq<Bit>, y: seq<Bit>)
    requires State(c) && 0 < |x| == |y| <= 16 && RunBits(c, x) == RunBits(c, y)
    ensures x[0] == y[0]
  {
    var u, v := Xor(c, x[0]), Xor(c, y[0]);
    BitState(c, x[0]);
    BitState(c, y[0]);
    SameEndAgrees(Shift(u), Shift(v), x[1..], y[1..]);
    SameBit(c, x[0], y[0], |x| - 1);
  }

  /** From one register, two different groups of at most 16 bits never end alike. */
  lemma {:induction false} RunBitsInjective(c: nat, x: seq<Bit>, y: seq<Bit>)
    requires State(c) && |x| == |y| <= 16 && RunBits(c, x) == RunBits(c, y)
    ensures x == y
    decreases |x|
  {
    if x != [] {
      SameEndSameBit(c, x, y);
      BitState(c, x[0]);
      RunBitsInjective(Shift(Xor(c, x[0])), x[1..], y[1..]);
      assert x == [x[0]] + x[1..] && y == [y[0]] + y[1..];
    }
  }

  lemma {:induction false} SameStateSameBits(c: nat, d: nat, bits: seq<Bit>)
    requires State(c) && State(d) && RunBits(c, bits) == RunBits(d, bits)
    ensures c == d
    decreases |bits|
  {
    if bits != [] {
      var b := bits[0];
      BitState(c, b);
      BitState(d, b);
      ShiftThenBack(Xor(c, b));
      ShiftThenBack(Xor(d, b));
      SameStateSameBits(Shift(Xor(c, b)), Shift(Xor(d, b)), bits[1..]);
      XorTwice(c, b);
      XorTwice(d, b);
    }
  }

  /** The wire bits of the two frames differ only inside one window of at most 16 bits. */
  predicate WithinBurst(f: seq<Byte>, g: seq<Byte>, lo: nat, width: nat) {
    && |f| == |g| && width <= 16 && lo + width <= 8 * |f|
    && WireBits(f)[..lo] == WireBits(g)[..lo]
    && WireBits(f)[lo + width..] == WireBits(g)[lo + width..]
  }

  /** A valid frame hit by a burst of at most 16 bits is never accepted as something else. */
  lemma BurstRejected(f: seq<Byte>, g: seq<Byte>, lo: nat, width: nat)
    requires |f| >= 2 && Accepts(f) && WithinBurst(f, g, lo, width) && f != g
    ensures !Accepts(g)
  {
    if Accepts(g) {
      ResidueIffAccepted(f);
      ResidueIffAccepted(g);
      RunAsBits(0xFFFF, f);
      RunAsBits(0xFFFF, g);
      var x, y, hi := WireBits(f), WireBits(g), lo + width;
      assert x == x[..lo] + x[lo..hi] + x[hi..] && y == y[..lo] + y[lo..hi] + y[hi..];
      RunBitsAppend(0xFFFF, x[..lo] + x[lo..hi], x[hi..]);
      RunBitsAppend(0xFFFF, x[..lo], x[lo..hi]);
      RunBitsAppend(0xFFFF, y[..lo] + y[lo..hi], y[hi..]);
      RunBitsAppend(0xFFFF, y[..lo], y[lo..hi]);
      var c := RunBits(0xFFFF, x[..lo]);
      RunBitsState(0xFFFF, x[..lo]);
      RunBitsState(c, x[lo..hi]);
      RunBitsState(c, y[lo..hi]);
      SameStateSameBits(RunBits(c, x[lo..hi]), RunBits(c, y[lo..hi]), x[hi..]);
      RunBitsInjective(c, x[lo..hi], y[lo..hi]);
      WireBitsInjective(f, g);
    }
  }

  lemma {:induction false} WireBitsAppend(x: seq<Byte>, y: seq<Byte>)
    ensures WireBits(x + y) == WireBits(x) + WireBits(y)
    decreases |x|
  {
    if x == [] {
      assert x + y == y;
    } else {
      assert (x + y)[1..] == x[1..] + y;
      WireBitsAppend(x[1..], y);
    }
  }

  lemma WireBitsSplit(f: seq<Byte>, k: nat)
    requires k <= |f|
    ensures WireBits(f)[..8 * k] == WireBits(f[..k]) && WireBits(f)[8 * k..] == WireBits(f[k..])
  {
    assert f == f[..k] + f[k..];
    WireBitsAppend(f[..k], f[k..]);
  }

  lemma BytesWithinBurst(f: seq<Byte>, g: seq<Byte>, k: nat, n: nat)
    requires |f| == |g| && n <= 2 && k + n <= |f|
    requires f[..k] == g[..k] && f[k + n..] == g[k + n..]
    ensures WithinBurst(f, g, 8 * k, 8 * n)
  {
    WireBitsSplit(f, k);
    WireBitsSplit(g, k);
    WireBitsSplit(f, k + n);
    WireBitsSplit(g, k + n);
    assert 8 * k + 8 * n == 8 * (k + n);
  }

  /** A valid frame changed in one byte, or in two adjacent bytes, is never accepted. */
  lemma AdjacentBytesRejected(f: seq<Byte>, g: seq<Byte>, k: nat, n: nat)
    requires |f| == |g| >= 2 && n <= 2 && k + n <= |f| && Accepts(f) && f != g
    requires forall i :: 0 <= i < |f| && !(k <= i < k + n) ==> g[i] == f[i]
    ensures !Accepts(g)
  {
    assert f[..k] == g[..k] && f[k + n..] == g[k + n..];
    BytesWithinBurst(f, g, k, n);
    BurstRejected(f, g, 8 * k, 8 * n);
  }

  lemma {:induction false} LowBitsInjective(n: nat, a: nat, b: nat)
    requires a < Pow2(n) && b < Pow2(n) && LowBits(n, a) == LowBits(n, b)
    ensures a == b
  {
    if n > 0 {
      assert LowBits(n, a)[0] == LowBits(n, b)[0];
      assert LowBits(n, a)[1..] == LowBits(n, b)[1..];
      LowBitsInjective(n - 1, a / 2, b / 2);
    }
  }

  lemma {:induction false} WireBitsInjective(f: seq<Byte>, g: seq<Byte>)
    requires |f| == |g| && WireBits(f) == WireBits(g)
    ensures f == g
    decreases |f|
  {
    if f != [] {
      assert LowBits(8, f[0]) == WireBits(f)[..8] == WireBits(g)[..8] == LowBits(8, g[0]);
      assert WireBits(f[1..]) == WireBits(f)[8..] == WireBits(g)[8..] == WireBits(g[1..]);
      Pow2At16();
      LowBitsInjective(8, f[0], g[0]);
      WireBitsInjective(f[1..], g[1..]);
      assert f == [f[0]] + f[1..] && g == [g[0]] + g[1..];
    }
  }

  // ----- 16 is the best possible

  function XorBits(x: seq<Bit>, y: seq<Bit>): (r: seq<Bit>)
    requires |x| == |y|
    ensures |r| == |x|
  {
    seq(|x|, i requires 0 <= i < |x| => if x[i] == y[i] then 0 else 1)
  }

  lemma {:induction false} RunBitsLinear(c: nat, d: nat, x: seq<Bit>, e: seq<Bit>)
    requires |x| == |e|
    ensures RunBits(Xor(c, d), XorBits(x, e)) == Xor(RunBits(c, x), RunBits(d, e))
    decreases |x|
  {
    if x != [] {
      var u, v := Xor(c, x[0]), Xor(d, e[0]);
      assert XorBits(x, e)[1..] == XorBits(x[1..], e[1..]);
      assert XorBits(x, e)[0] == Xor(x[0], e[0]);
      XorFour(c, d, x[0], e[0]);
      ShiftLinear(u, v);
      RunBitsLinear(Shift(u), Shift(v), x[1..], e[1..]);
    }
  }

  lemma ShiftLinear(u: nat, v: nat)
    ensures Shift(Xor(u, v)) == Xor(Shift(u), Shift(v))
  {
    var a, b, x := u / 2, v / 2, Xor(u, v);
    XorHalves(u, v);
    assert x / 2 == Xor(a, b) && (x % 2 == 1 <==> u % 2 != v % 2);
    if u % 2 == 1 && v % 2 == 1 {
      XorFour(a, POLY, b, POLY);
      XorSelf(POLY);
      XorCommutes(Xor(a, b), 0);
    } else if u % 2 == 1 {
      XorCommutes(b, POLY);
      XorAssociative(a, POLY, b);
      XorAssociative(a, b, POLY);
    } else {
      XorAssociative(a, b, POLY);
    }
  }

  /** The 17-bit error pattern of the generator polynomial itself. */
  function GeneratorBurst(): (r: seq<Bit>)
    ensures |r| == 17
  {
    [1] + LowBits(16, POLY)
  }

  lemma GeneratorClears()
    ensures RunBits(0, GeneratorBurst()) == 0
  {
    Pow2At16();
    assert GeneratorBurst()[1..] == LowBits(16, POLY);
    assert Shift(Xor(0, 1)) == POLY;
    LoadAhead(16, POLY, POLY);
    XorSelf(POLY);
    ShiftsOut(16, 0);
  }

  lemma LowestBit(n: nat, b: nat, q: nat, bit: Bit)
    requires b == 2 * q + bit
    ensures LowBits(n + 1, b) == [bit] + LowBits(n, q)
  {
  }

  lemma LowestTwo(n: nat, b: nat, q: nat, b1: Bit, b0: Bit)
    requires b == 4 * q + 2 * b1 + b0
    ensures LowBits(n + 2, b) == [b0, b1] + LowBits(n, q)
  {
    var c := 2 * q + b1;
    LowestBit(n + 1, b, c, b0);
    LowestBit(n, c, q, b1);
  }

  lemma LowestFour(n: nat, b: nat, q: nat, b3: Bit, b2: Bit, b1: Bit, b0: Bit)
    requires b == 16 * q + 8 * b3 + 4 * b2 + 2 * b1 + b0
    ensures LowBits(n + 4, b) == [b0, b1, b2, b3] + LowBits(n, q)
  {
    var c := 4 * q + 2 * b3 + b2;
    LowestTwo(n + 2, b, c, b1, b0);
    LowestTwo(n, c, q, b3, b2);
  }

  lemma PolyBits()
    ensures LowBits(16, POLY) == [1, 0, 0, 0, 0, 0, 0, 0, 0, 0, 0, 0, 0, 1, 0, 1]
  {
    LowestFour(12, 0xA001, 0xA00, 0, 0, 0, 1);
    LowestFour(8, 0xA00, 0xA0, 0, 0, 0, 0);
    LowestFour(4, 0xA0, 0xA, 0, 0, 0, 0);
    LowestFour(0, 0xA, 0, 1, 0, 1, 0);
  }

  /** The generator is x^16 + x^15 + x^2 + 1: on the wire, highest power first, it is divided out. */
  lemma GeneratorPolynomial(bits: seq<Bit>)
    requires bits == [1, 1, 0, 0, 0, 0, 0, 0, 0, 0, 0, 0, 0, 0, 1, 0, 1]
    ensures bits == GeneratorBurst() && RunBits(0, bits) == 0
  {
    PolyBits();
    assert bits == [bits[0]] + bits[1..] && bits[1..] == LowBits(16, POLY);
    GeneratorClears();
  }

  lemma {:induction false} ZeroBits(n: nat)
    ensures RunBits(0, seq(n, _ => 0)) == 0
  {
    if n > 0 {
      var z: seq<Bit> := seq(n, _ => 0);
      assert z[1..] == seq(n - 1, _ => 0);
      ZeroBits(n - 1);
    }
  }

  /** An otherwise empty message holding that burst after lo bits. */
  function BurstAt(lo: nat, rest: nat): (r: seq<Bit>)
    ensures |r| == lo + 17 + rest && r[lo] == 1
  {
    seq(lo, _ => 0) + GeneratorBurst() + seq(rest, _ => 0)
  }

  lemma BurstClears(lo: nat, rest: nat)
    ensures RunBits(0, BurstAt(lo, rest)) == 0
  {
    var pre: seq<Bit>, post: seq<Bit> := seq(lo, _ => 0), seq(rest, _ => 0);
    RunBitsAppend(0, pre + GeneratorBurst(), post);
    RunBitsAppend(0, pre, GeneratorBurst());
    ZeroBits(lo);
    GeneratorClears();
    ZeroBits(rest);
  }

  lemma BurstKeepsResidue(x: seq<Bit>, y: seq<Bit>, lo: nat, rest: nat)
    requires |x| == lo + 17 + rest && y == XorBits(x, BurstAt(lo, rest))
    ensures RunBits(0xFFFF, y) == RunBits(0xFFFF, x) && y[lo] != x[lo]
  {
    BurstClears(lo, rest);
    RunBitsLinear(0xFFFF, 0, x, BurstAt(lo, rest));
    XorCommutes(0xFFFF, 0);
    XorCommutes(RunBits(0xFFFF, x), 0);
  }

  function FromBits(bits: seq<Bit>): nat
    decreases |bits|
  {
    if bits == [] then 0 else bits[0] + 2 * FromBits(bits[1..])
  }

  lemma {:induction false} LowBitsOfFromBits(bits: seq<Bit>)
    ensures FromBits(bits) < Pow2(|bits|) && LowBits(|bits|, FromBits(bits)) == bits
    decreases |bits|
  {
    if bits != [] {
      LowBitsOfFromBits(bits[1..]);
      Halve(FromBits(bits[1..]), bits[0]);
    }
  }

  /** Any whole number of bytes of wire bits is some frame. */
  lemma {:induction false} FrameOfBits(n: nat, bits: seq<Bit>) returns (g: seq<Byte>)
    requires |bits| == 8 * n
    ensures |g| == n && WireBits(g) == bits
  {
    if n == 0 {
      g := [];
    } else {
      LowBitsOfFromBits(bits[..8]);
      Pow2At16();
      var rest := FrameOfBits(n - 1, bits[8..]);
      g := [FromBits(bits[..8])] + rest;
      assert g[1..] == rest;
      assert bits == bits[..8] + bits[8..];
    }
  }

  /** One 17-bit burst, at any offset, turns every valid frame into another valid frame. */
  lemma SeventeenBitsPass(f: seq<Byte>, lo: nat) returns (g: seq<Byte>)
    requires |f| >= 2 && Accepts(f) && lo + 17 <= 8 * |f|
    ensures |g| == |f| && WireBits(g) == XorBits(WireBits(f), BurstAt(lo, 8 * |f| - lo - 17))
    ensures Accepts(g) && g != f
  {
    g := FrameOfBits(|f|, XorBits(WireBits(f), BurstAt(lo, 8 * |f| - lo - 17)));
    BurstKeepsResidue(WireBits(f), WireBits(g), lo, 8 * |f| - lo - 17);
    RunAsBits(0xFFFF, f);
    RunAsBits(0xFFFF, g);
    ResidueIffAccepted(f);
    ResidueIffAccepted(g);
  }
}
