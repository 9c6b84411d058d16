/** CRC-16 of Modbus RTU frames (MODBUS over Serial Line V1.02, section 6.2.2):
    the bit loop the bridge runs, and the algebra that makes the check worth having.
    Numbers are unbounded naturals, as Python integers are; `c >> 1` is c / 2 and `c & 1` is
    c % 2. */
module Crc {
  import opened Common

  /** Exclusive or of two naturals, bit by bit. */
  function Xor(a: nat, b: nat): nat
    decreases a + b
  {
    if a == 0 then b else if b == 0 then a else (a + b) % 2 + 2 * Xor(a / 2, b / 2)
  }

  const POLY: nat := 0xA001

  /** One turn of the inner loop. */
  function Shift(c: nat): nat {
    if c % 2 == 1 then Xor(c / 2, POLY) else c / 2
  }

  function Shifts(n: nat, c: nat): nat {
    if n == 0 then c else Shifts(n - 1, Shift(c))
  }

  /** One turn of the outer loop. */
  function Feed(c: nat, b: Byte): nat {
    Shifts(8, Xor(c, b))
  }

  function Run(c: nat, data: seq<Byte>): nat
    decreases |data|
  {
    if data == [] then c else Run(Feed(c, data[0]), data[1..])
  }

  function Crc16(data: seq<Byte>): nat {
    Run(0xFFFF, data)
  }

  /** A frame carries the CRC of everything before it in its last two bytes, low byte first. */
  predicate Accepts(frame: seq<Byte>)
    requires |frame| >= 2
  {
    var n := |frame|;
    Crc16(frame[..n - 2]) == (frame[n - 2] as nat) + 256 * (frame[n - 1] as nat)
  }

  method RtuCrc(data: seq<Byte>) returns (crc: nat)
    ensures crc == Crc16(data)
  {
    crc := 0xFFFF;
    for i := 0 to |data|
      invariant Run(crc, data[i..]) == Crc16(data)
    {
      ghost var before := crc;
      crc := Xor(crc, data[i]);
      for k := 0 to 8
        invariant Shifts(8 - k, crc) == Feed(before, data[i])
      {
        crc := if crc % 2 == 1 then Xor(crc / 2, POLY) else crc / 2;
      }
      assert data[i..][1..] == data[i + 1..];
    }
  }

  // ----- Exclusive or

  lemma XorStep(a: nat, b: nat)
    requires a > 0 && b > 0
    ensures Xor(a, b) == 2 * Xor(a / 2, b / 2) + (a + b) % 2
  {
  }

  lemma XorZero(a: nat)
    ensures Xor(0, a) == Xor(a, 0) == a
  {
  }

  lemma XorHalves(a: nat, b: nat)
    ensures Xor(a, b) % 2 == (a + b) % 2 && Xor(a, b) / 2 == Xor(a / 2, b / 2)
  {
    if a == 0 {
      XorZero(b);
      XorZero(b / 2);
    } else if b == 0 {
      XorZero(a);
      XorZero(a / 2);
    } else {
      XorStep(a, b);
      Halve(Xor(a / 2, b / 2), (a + b) % 2);
    }
  }

  lemma Halve(a: nat, i: nat)
    requires i < 2
    ensures (2 * a + i) / 2 == a && (2 * a + i) % 2 == i
  {
  }

  lemma {:induction false} XorSelf(a: nat)
    ensures Xor(a, a) == 0
  {
    if a > 0 { XorSelf(a / 2); }
  }

  lemma Parity(x: nat, y: nat, z: nat)
    requires x % 2 == y % 2
    ensures (x + z) % 2 == (y + z) % 2
  {
  }

  lemma SameHalves(a: nat, b: nat, c: nat, d: nat)
    requires (a + b) % 2 == (c + d) % 2 && Xor(a / 2, b / 2) == Xor(c / 2, d / 2)
    ensures Xor(a, b) == Xor(c, d)
  {
    XorHalves(a, b);
    XorHalves(c, d);
  }

  lemma {:induction false} XorAssociative(a: nat, b: nat, c: nat)
    ensures Xor(Xor(a, b), c) == Xor(a, Xor(b, c))
    decreases a + b + c
  {
    if a > 0 && b > 0 && c > 0 {
      var ab, bc := Xor(a, b), Xor(b, c);
      XorHalves(a, b);
      XorHalves(b, c);
      Parity(ab, a + b, c);
      Parity(bc, b + c, a);
      XorAssociative(a / 2, b / 2, c / 2);
      SameHalves(ab, c, a, bc);
    }
  }

  lemma {:induction false} XorCommutes(a: nat, b: nat)
    ensures Xor(a, b) == Xor(b, a)
    decreases a
  {
    if a > 0 && b > 0 { XorCommutes(a / 2, b / 2); }
  }

  lemma XorTwice(a: nat, b: nat)
    ensures Xor(Xor(a, b), b) == a
  {
    XorAssociative(a, b, b);
    XorSelf(b);
  }

  /** If a xor b = d then a = b xor d. */
  lemma XorMove(a: nat, b: nat, d: nat)
    ensures Xor(a, b) == d <==> a == Xor(d, b)
  {
    XorTwice(a, b);
    XorTwice(d, b);
  }

  lemma {:induction false} XorBound(a: nat, b: nat, k: nat)
    requires a < Pow2(k) && b < Pow2(k)
    ensures Xor(a, b) < Pow2(k)
  {
    if k > 0 {
      XorBound(a / 2, b / 2, k - 1);
      XorHalves(a, b);
    }
  }

  lemma {:induction false} XorTopBit(a: nat, b: nat, k: nat)
    requires Pow2(k) <= a < 2 * Pow2(k) && b < 2 * Pow2(k)
    ensures Xor(a, b) >= Pow2(k) <==> b < Pow2(k)
  {
    XorHalves(a, b);
    if k > 0 { XorTopBit(a / 2, b / 2, k - 1); }
  }

  // ----- The state update is a bijection of the 16-bit states

  predicate State(c: int) { 0 <= c < 0x10000 }

  lemma Pow2At16()
    ensures Pow2(8) == 0x100 && Pow2(15) == 0x8000 && Pow2(16) == 0x10000
  {
    assert Pow2(4) == 16;
    assert Pow2(8) == 0x100;
    assert Pow2(12) == 0x1000;
  }

  function Unshift(c: nat): nat {
    if c >= 0x8000 then 2 * Xor(c, POLY) + 1 else 2 * c
  }

  lemma ShiftThenBack(c: nat)
    requires State(c)
    ensures State(Shift(c)) && Unshift(Shift(c)) == c
  {
    Pow2At16();
    if c % 2 == 1 {
      XorCommutes(POLY, c / 2);
      XorTopBit(POLY, c / 2, 15);
      XorBound(c / 2, POLY, 16);
      XorTwice(c / 2, POLY);
    }
  }

  lemma ShiftEven(x: nat)
    ensures Shift(2 * x) == x
  {
    Halve(x, 0);
  }

  lemma ShiftOdd(x: nat)
    ensures Shift(2 * x + 1) == Xor(x, POLY)
  {
    Halve(x, 1);
  }

  lemma BackThenShift(c: nat)
    requires State(c)
    ensures State(Unshift(c)) && Shift(Unshift(c)) == c
  {
    Pow2At16();
    if c >= 0x8000 {
      XorTopBit(c, POLY, 15);
      XorTwice(c, POLY);
      ShiftOdd(Xor(c, POLY));
    } else {
      ShiftEven(c);
    }
  }

  function Unshifts(n: nat, c: nat): nat {
    if n == 0 then c else Unshift(Unshifts(n - 1, c))
  }

  function Unfeed(c: nat, b: Byte): nat {
    Xor(Unshifts(8, c), b)
  }

  lemma {:induction false} ShiftsBijective(n: nat, c: nat)
    requires State(c)
    ensures State(Shifts(n, c)) && State(Unshifts(n, c))
    ensures Unshifts(n, Shifts(n, c)) == c && Shifts(n, Unshifts(n, c)) == c
  {
    if n > 0 {
      ShiftThenBack(c);
      ShiftsBijective(n - 1, Shift(c));
      ShiftsBijective(n - 1, c);
      BackThenShift(Unshifts(n - 1, c));
    }
  }

  /** For every byte, the per-byte update is a bijection on 16-bit states. */
  lemma FeedBijective(c: nat, b: Byte)
    requires State(c)
    ensures State(Feed(c, b)) && State(Unfeed(c, b))
    ensures Unfeed(Feed(c, b), b) == c && Feed(Unfeed(c, b), b) == c
  {
    Pow2At16();
    XorBound(c, b, 16);
    XorTwice(c, b);
    ShiftsBijective(8, Xor(c, b));
    ShiftsBijective(8, c);
    XorBound(Unshifts(8, c), b, 16);
    XorTwice(Unshifts(8, c), b);
  }

  lemma {:induction false} RunState(c: nat, data: seq<Byte>)
    requires State(c)
    ensures State(Run(c, data))
    decreases |data|
  {
    if data != [] {
      FeedBijective(c, data[0]);
      RunState(Feed(c, data[0]), data[1..]);
    }
  }

  /** Two different states never meet again on the same bytes. */
  lemma {:induction false} RunInjective(c: nat, d: nat, data: seq<Byte>)
    requires State(c) && State(d) && Run(c, data) == Run(d, data)
    ensures c == d
    decreases |data|
  {
    if data != [] {
      FeedBijective(c, data[0]);
      FeedBijective(d, data[0]);
      RunInjective(Feed(c, data[0]), Feed(d, data[0]), data[1..]);
    }
  }

  lemma {:induction false} RunAppend(c: nat, x: seq<Byte>, y: seq<Byte>)
    ensures Run(c, x + y) == Run(Run(c, x), y)
    decreases |x|
  {
    if x == [] {
      assert x + y == y;
    } else {
      assert (x + y)[1..] == x[1..] + y;
      RunAppend(Feed(c, x[0]), x[1..], y);
    }
  }

  // ----- A frame is accepted exactly when the CRC of all of it is zero

  lemma {:induction false} ShiftsOut(n: nat, h: nat)
    ensures Shifts(n, Pow2(n) * h) == h
  {
    if n > 0 {
      DoubledProduct(Pow2(n - 1), h);
      ShiftEven(Pow2(n - 1) * h);
      ShiftsOut(n - 1, h);
    }
  }

  lemma XorDoubled(t: nat, lo: nat, d: nat)
    requires Xor(t, lo / 2) == t + lo / 2 && d == 2 * t
    ensures Xor(d, lo) == d + lo
  {
    XorHalves(d, lo);
    Halve(t, 0);
    Parity(d, 0, lo);
  }

  lemma DoubledProduct(p: nat, h: nat)
    ensures (2 * p) * h == 2 * (p * h)
  {
  }

  lemma {:induction false} XorDisjoint(lo: nat, hi: nat, k: nat)
    requires lo < Pow2(k)
    ensures Xor(Pow2(k) * hi, lo) == Pow2(k) * hi + lo
  {
    if k > 0 {
      XorDisjoint(lo / 2, hi, k - 1);
      DoubledProduct(Pow2(k - 1), hi);
      XorDoubled(Pow2(k - 1) * hi, lo, Pow2(k) * hi);
    } else {
      XorCommutes(hi, 0);
    }
  }

  lemma FeedZero(c: nat, b: Byte)
    requires State(c)
    ensures Feed(c, b) == 0 <==> c == b
  {
    Pow2At16();
    XorBound(c, b, 16);
    ShiftsBijective(8, Xor(c, b));
    ShiftsOut(8, 0);
    ShiftsBijective(8, 0);
    XorMove(c, b, 0);
  }

  /** Feeding the two CRC bytes in wire order clears the state, and nothing else does. */
  lemma ResidueStep(c: nat, lo: Byte, hi: Byte)
    requires State(c)
    ensures Feed(Feed(c, lo), hi) == 0 <==> c == lo + 256 * hi
  {
    Pow2At16();
    FeedBijective(c, lo);
    FeedZero(Feed(c, lo), hi);
    XorBound(c, lo, 16);
    ShiftsBijective(8, Xor(c, lo));
    ShiftsOut(8, hi);
    ShiftsBijective(8, 256 * hi);
    XorMove(c, lo, 256 * hi);
    XorDisjoint(lo, hi, 8);
  }

  lemma ResidueIffAccepted(frame: seq<Byte>)
    requires |frame| >= 2
    ensures Accepts(frame) <==> Crc16(frame) == 0
  {
    var n := |frame|;
    var body, lo, hi := frame[..n - 2], frame[n - 2], frame[n - 1];
    var c := Crc16(body);
    assert frame == body + [lo, hi];
    RunAppend(0xFFFF, body, [lo, hi]);
    assert [lo, hi][1..] == [hi];
    assert Run(c, [lo, hi]) == Run(Feed(c, lo), [hi]) == Feed(Feed(c, lo), hi);
    RunState(0xFFFF, body);
    ResidueStep(c, lo, hi);
  }

  // ----- The algorithm itself, on frames worked out by hand

  lemma {:induction false} ShiftLast(n: nat, c: nat)
    ensures Shifts(n + 1, c) == Shift(Shifts(n, c))
  {
    if n > 0 { ShiftLast(n - 1, Shift(c)); }
  }

  lemma TopBitFed(b: Byte)
    requires b == 0x80
    ensures Feed(0, b) == 0xA001
  {
    assert Pow2(4) == 16 && Pow2(7) == 128;
    ShiftsOut(7, 1);
    ShiftLast(7, b);
    ShiftOdd(0);
    assert Feed(0, b) == Shifts(8, b);
  }

  /** Two bytes FF empty the register, so it starts at FFFF; a top bit then leaves the polynomial
      behind, which the frame carries low byte first. */
  lemma KnownFrames()
    ensures Crc16([0xFF, 0xFF]) == 0 && Crc16([0xFF, 0xFF, 0x80]) == 0xA001
    ensures Accepts([0xFF, 0xFF, 0x80, 0x01, 0xA0])
  {
    ResidueStep(0xFFFF, 0xFF, 0xFF);
    TopBitFed(0x80);
    var x: seq<Byte>, y: seq<Byte>, f: seq<Byte> := [0xFF, 0xFF], [0x80], [0xFF, 0xFF, 0x80, 0x01, 0xA0];
    assert x[1..] == [0xFF] && [0xFF][1..] == [] && y[1..] == [];
    assert Run(0xFFFF, x) == Run(Feed(0xFFFF, 0xFF), [0xFF]) == Feed(Feed(0xFFFF, 0xFF), 0xFF);
    RunAppend(0xFFFF, x, y);
    assert Run(0, y) == Feed(0, 0x80);
    assert x + y == [0xFF, 0xFF, 0x80] == f[..3];
  }
}
