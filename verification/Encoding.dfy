/** What a meter that reads a served register pair sees, in plain arithmetic on the value served. */
module Encoding {
  import opened Codec
  import opened Common
  import opened Datastore
  import opened Decoding
  import opened Derive
  import opened ImageCoherence
  import opened RegisterMap

  /** The ratio is a positive finite number, where the point divides by it. */
  predicate RatioUsable(p: TargetPoint, ct: Num) {
    !p.divideByCt || (ct.Fin? && ct.r > 0.0)
  }

  /** The number a target point stands for: divided by the CT ratio where the map says so, then
      converted. */
  function OnTheWire(x: real, p: TargetPoint, ct: Num): real
    requires RatioUsable(p, ct)
  {
    Converted(if p.divideByCt then x / ct.r else x, p.scale, p.sign, p.offset)
  }

  predicate FitsFloat32(y: real) {
    -340282346638528859811704183484516925440.0 <= y <= 340282346638528859811704183484516925440.0
  }

  /** The pattern of the number, without its low sixteen bits in the coarse form. */
  function WirePattern(pack: Rounding, y: real, p: TargetPoint): Bits32 {
    if p.zeroLowWord then pack(y) / 0x1_0000 * 0x1_0000 else pack(y)
  }

  lemma TopHalf(bits: Bits32)
    ensures ZeroLow(bits) == bits / 0x1_0000 * 0x1_0000
  {
  }

  lemma DividedValue(x: real, p: TargetPoint, ct: Num)
    requires RatioUsable(p, ct)
    ensures Affine(if p.divideByCt then DivideBy(Fin(x), ct.r) else Fin(x), p.scale, p.sign, p.offset) ==
            Fin(OnTheWire(x, p, ct))
  {
    AffineMeans(if p.divideByCt then x / ct.r else x, p.scale, p.sign, p.offset);
  }

  /** A finite value is encoded exactly when the ratio is usable and its number fits float32, and then
      as the pattern of that number. */
  lemma TargetMeans(pack: Rounding, x: real, p: TargetPoint, side: TargetSide, ct: Num)
    ensures EncodeTarget(pack, Fin(x), p, side, ct).Some? <==> RatioUsable(p, ct) && FitsFloat32(OnTheWire(x, p, ct))
    ensures EncodeTarget(pack, Fin(x), p, side, ct).Some? ==>
              RegistersToBits(EncodeTarget(pack, Fin(x), p, side, ct).value, side.wordOrder, side.byteOrder) ==
              WirePattern(pack, OnTheWire(x, p, ct), p)
  {
    if RatioUsable(p, ct) {
      var y := OnTheWire(x, p, ct);
      DividedValue(x, p, ct);
      EncodePointReadsBack(pack, if p.divideByCt then DivideBy(Fin(x), ct.r) else Fin(x), p.scale, p.sign, p.offset,
                           side.wordOrder, side.byteOrder, p.zeroLowWord);
      TopHalf(pack(y));
    }
  }

  /** Nothing but a finite value is ever encoded. */
  lemma OnlyFinite(pack: Rounding, x: Num, p: TargetPoint, side: TargetSide, ct: Num)
    requires !x.Fin?
    ensures EncodeTarget(pack, x, p, side, ct) == None
  {
  }

  lemma WhatIsEncoded(pack: Rounding, x: Num, p: TargetPoint, side: TargetSide, ct: Num)
    requires EncodeTarget(pack, x, p, side, ct).Some?
    ensures x.Fin? && RatioUsable(p, ct) && FitsFloat32(OnTheWire(x.r, p, ct))
    ensures RegistersToBits(EncodeTarget(pack, x, p, side, ct).value, side.wordOrder, side.byteOrder) ==
            WirePattern(pack, OnTheWire(x.r, p, ct), p)
  {
    if x.Fin? {
      TargetMeans(pack, x.r, p, side, ct);
    } else {
      OnlyFinite(pack, x, p, side, ct);
    }
  }

  /** A meter that reads a served pair gets back a number that float32 can hold exactly. */
  lemma ExactNumberIsRead(pack: Rounding, values: Values, img: Image, p: TargetPoint, side: TargetSide, ct: Num,
                          x: real)
    requires ServesPoint(img, pack, values, p, side, ct) && values[p.from_] == Fin(x)
    ensures RatioUsable(p, ct)
    ensures !p.zeroLowWord && Decode32(pack(OnTheWire(x, p, ct))) == Fin(OnTheWire(x, p, ct)) ==>
              RegistersToFloat(ReadBack(img, Span(side.fc, p.addr)), side.wordOrder, side.byteOrder) ==
              Fin(OnTheWire(x, p, ct))
  {
    TargetMeans(pack, x, p, side, ct);
  }
}
