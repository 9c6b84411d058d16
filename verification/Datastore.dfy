/** The served register image and its two-phase update: everything is encoded before anything
    is written, so a sample lands completely or not at all. */
module Datastore {
  import opened Codec
  import opened Common
  import opened Derive
  import opened RegisterMap

  datatype Image = Image(holding: seq<Word>, inputs: seq<Word>) {
    function Bank(fc: int): seq<Word> { if fc == 3 then holding else inputs }
  }

  /** One point's place in the image. */
  datatype Span = Span(fc: int, addr: int)

  datatype Write = Write(span: Span, regs: seq<Word>)

  predicate Fits(img: Image, s: Span) {
    0 <= s.addr && s.addr + 2 <= |img.Bank(s.fc)|
  }

  predicate WellFormed(img: Image, w: Write) {
    |w.regs| == 2 && Fits(img, w.span)
  }

  function Put(img: Image, w: Write): (r: Image)
    requires WellFormed(img, w)
    ensures |r.holding| == |img.holding| && |r.inputs| == |img.inputs|
  {
    var bank := img.Bank(w.span.fc)[w.span.addr := w.regs[0]][w.span.addr + 1 := w.regs[1]];
    if w.span.fc == 3 then Image(bank, img.inputs) else Image(img.holding, bank)
  }

  function PutAll(img: Image, ws: seq<Write>): (r: Image)
    requires forall i :: 0 <= i < |ws| ==> WellFormed(img, ws[i])
    ensures |r.holding| == |img.holding| && |r.inputs| == |img.inputs|
    decreases |ws|
  {
    if ws == [] then img
    else
      assert WellFormed(img, ws[|ws| - 1]);
      Put(PutAll(img, ws[..|ws| - 1]), ws[|ws| - 1])
  }

  // ----- Encoding a sample

  type Rounding = real -> Bits32

  /** None is a ValueError: a CT ratio that is not a positive finite number, or a value float32
      cannot hold. */
  function EncodeTarget(pack: Rounding, si: Num, p: TargetPoint, side: TargetSide, ct: Num): (r: Option<seq<Word>>)
    ensures r.Some? ==> |r.value| == 2
  {
    if p.divideByCt && !(ct.Fin? && ct.r > 0.0) then None
    else
      var x := if p.divideByCt then DivideBy(si, ct.r) else si;
      EncodePoint(pack, x, p.scale, p.sign, p.offset, side.wordOrder, side.byteOrder, p.zeroLowWord)
  }

  /** The first phase: all writes, or why there are none. A bad value raises at once; missing
      names are collected first. */
  datatype Pending = Ready(writes: seq<Write>) | Missing | BadValue

  function AddPoint(
      before: Pending, pack: Rounding, canonical: Values, p: TargetPoint, side: TargetSide, ct: Num): Pending
  {
    if before == BadValue then BadValue
    else if p.from_ !in canonical then Missing
    else
      match EncodeTarget(pack, canonical[p.from_], p, side, ct)
      case None => BadValue
      case Some(regs) => if before.Ready? then Ready(before.writes + [Write(Span(side.fc, p.addr), regs)]) else before
  }

  function EncodeSide(before: Pending, pack: Rounding, canonical: Values, side: TargetSide, ct: Num, n: nat): Pending
    requires n <= |side.points|
  {
    if n == 0 then before
    else
      var init := EncodeSide(before, pack, canonical, side, ct, n - 1);
      AddPoint(init, pack, canonical, side.points[n - 1].point, side, ct)
  }

  function EncodeAll(pack: Rounding, canonical: Values, sides: seq<TargetSide>, ct: Num): Pending
    decreases |sides|
  {
    if sides == [] then Ready([])
    else
      var n := |sides| - 1;
      EncodeSide(EncodeAll(pack, canonical, sides[..n], ct), pack, canonical, sides[n], ct, |sides[n].points|)
  }

  function LayoutSide(side: TargetSide): (r: seq<Span>)
    ensures |r| == |side.points|
  {
    seq(|side.points|, i requires 0 <= i < |side.points| => Span(side.fc, side.points[i].point.addr))
  }

  /** Every target span, in the order the writes are made. */
  function Layout(sides: seq<TargetSide>): seq<Span>
    decreases |sides|
  {
    if sides == [] then [] else Layout(sides[..|sides| - 1]) + LayoutSide(sides[|sides| - 1])
  }

  function SpansOf(ws: seq<Write>): (r: seq<Span>)
    ensures |r| == |ws|
  {
    seq(|ws|, i requires 0 <= i < |ws| => ws[i].span)
  }

  lemma {:induction false} EncodeSideLayout(before: Pending, pack: Rounding, canonical: Values, side: TargetSide,
                                            ct: Num, n: nat)
    requires n <= |side.points|
    requires before.Ready? ==> TwoEach(before.writes)
    ensures var after := EncodeSide(before, pack, canonical, side, ct, n);
            after.Ready? ==>
              && before.Ready? && SpansOf(after.writes) == SpansOf(before.writes) + LayoutSide(side)[..n]
              && TwoEach(after.writes)
  {
    if n == 0 {
      assert LayoutSide(side)[..0] == [];
      if before.Ready? { assert SpansOf(before.writes) + [] == SpansOf(before.writes); }
    } else {
      EncodeSideLayout(before, pack, canonical, side, ct, n - 1);
      AddPointLayout(EncodeSide(before, pack, canonical, side, ct, n - 1),
                     pack, canonical, side.points[n - 1].point, side, ct);
      assert LayoutSide(side)[..n] == LayoutSide(side)[..n - 1] + [LayoutSide(side)[n - 1]];
      if before.Ready? {
        assert SpansOf(before.writes) + LayoutSide(side)[..n] ==
               SpansOf(before.writes) + LayoutSide(side)[..n - 1] + [LayoutSide(side)[n - 1]];
      }
    }
  }

  predicate TwoEach(ws: seq<Write>) { forall i :: 0 <= i < |ws| ==> |ws[i].regs| == 2 }

  lemma AddPointLayout(before: Pending, pack: Rounding, canonical: Values, p: TargetPoint, side: TargetSide, ct: Num)
    ensures var after := AddPoint(before, pack, canonical, p, side, ct);
            after.Ready? ==>
              && before.Ready? && SpansOf(after.writes) == SpansOf(before.writes) + [Span(side.fc, p.addr)]
              && (TwoEach(before.writes) ==> TwoEach(after.writes))
  {
  }

  lemma {:induction false} EncodeAllLayout(pack: Rounding, canonical: Values, sides: seq<TargetSide>, ct: Num)
    ensures var r := EncodeAll(pack, canonical, sides, ct);
            r.Ready? ==>
              && SpansOf(r.writes) == Layout(sides)
              && TwoEach(r.writes)
    decreases |sides|
  {
    if sides != [] {
      var n := |sides| - 1;
      EncodeAllLayout(pack, canonical, sides[..n], ct);
      EncodeSideLayout(EncodeAll(pack, canonical, sides[..n], ct), pack, canonical, sides[n], ct, |sides[n].points|);
      assert LayoutSide(sides[n])[..|sides[n].points|] == LayoutSide(sides[n]);
    }
  }

  /** The write is this point's own value, encoded for its own place. */
  predicate Encodes(w: Write, pack: Rounding, canonical: Values, p: TargetPoint, side: TargetSide, ct: Num) {
    && w.span == Span(side.fc, p.addr) && p.from_ in canonical
    && EncodeTarget(pack, canonical[p.from_], p, side, ct) == Some(w.regs)
  }

  /** The writes from before stay, and each of the first n points follows in order. */
  predicate SideAdded(before: seq<Write>, after: seq<Write>, pack: Rounding, canonical: Values, side: TargetSide,
                      ct: Num, n: nat)
    requires n <= |side.points|
  {
    && |after| == |before| + n
    && (forall k :: 0 <= k < |before| ==> after[k] == before[k])
    && forall i :: 0 <= i < n ==> Encodes(after[|before| + i], pack, canonical, side.points[i].point, side, ct)
  }

  lemma PointAdded(before: Pending, pack: Rounding, canonical: Values, p: TargetPoint, side: TargetSide, ct: Num)
    requires AddPoint(before, pack, canonical, p, side, ct).Ready?
    ensures before.Ready?
    ensures exists w :: Encodes(w, pack, canonical, p, side, ct) &&
                        AddPoint(before, pack, canonical, p, side, ct).writes == before.writes + [w]
  {
    var w := Write(Span(side.fc, p.addr), EncodeTarget(pack, canonical[p.from_], p, side, ct).value);
    assert Encodes(w, pack, canonical, p, side, ct);
  }

  lemma SideAddedNext(before: seq<Write>, after: seq<Write>, w: Write, pack: Rounding, canonical: Values,
                      side: TargetSide, ct: Num, n: nat)
    requires n < |side.points| && SideAdded(before, after, pack, canonical, side, ct, n)
    requires Encodes(w, pack, canonical, side.points[n].point, side, ct)
    ensures SideAdded(before, after + [w], pack, canonical, side, ct, n + 1)
  {
  }

  lemma {:induction false} EncodeSideAt(before: Pending, pack: Rounding, canonical: Values, side: TargetSide, ct: Num,
                                        n: nat)
    requires n <= |side.points| && EncodeSide(before, pack, canonical, side, ct, n).Ready?
    ensures before.Ready?
    ensures SideAdded(before.writes, EncodeSide(before, pack, canonical, side, ct, n).writes,
                      pack, canonical, side, ct, n)
  {
    if n > 0 {
      var init, p := EncodeSide(before, pack, canonical, side, ct, n - 1), side.points[n - 1].point;
      PointAdded(init, pack, canonical, p, side, ct);
      var w :| Encodes(w, pack, canonical, p, side, ct) &&
               AddPoint(init, pack, canonical, p, side, ct).writes == init.writes + [w];
      EncodeSideAt(before, pack, canonical, side, ct, n - 1);
      SideAddedNext(before.writes, init.writes, w, pack, canonical, side, ct, n - 1);
    }
  }

  lemma EncodeAllLength(pack: Rounding, canonical: Values, sides: seq<TargetSide>, ct: Num)
    requires EncodeAll(pack, canonical, sides, ct).Ready?
    ensures |EncodeAll(pack, canonical, sides, ct).writes| == |Layout(sides)|
  {
    EncodeAllLayout(pack, canonical, sides, ct);
  }

  lemma EncodeLastSide(pack: Rounding, canonical: Values, sides: seq<TargetSide>, ct: Num, n: nat)
    requires n + 1 == |sides| && EncodeAll(pack, canonical, sides, ct).Ready?
    ensures EncodeAll(pack, canonical, sides[..n], ct).Ready?
    ensures SideAdded(EncodeAll(pack, canonical, sides[..n], ct).writes, EncodeAll(pack, canonical, sides, ct).writes,
                      pack, canonical, sides[n], ct, |sides[n].points|)
  {
    var before := EncodeAll(pack, canonical, sides[..n], ct);
    var m := |sides[n].points|;
    assert EncodeAll(pack, canonical, sides, ct) == EncodeSide(before, pack, canonical, sides[n], ct, m);
    EncodeSideAt(before, pack, canonical, sides[n], ct, m);
  }

  predicate EncodesAt(
      ws: seq<Write>, k: nat, pack: Rounding, canonical: Values, p: TargetPoint, side: TargetSide, ct: Num)
  {
    k < |ws| && Encodes(ws[k], pack, canonical, p, side, ct)
  }

  lemma EncodesAtLast(before: seq<Write>, after: seq<Write>, pack: Rounding, canonical: Values, side: TargetSide,
                      ct: Num, i: nat)
    requires i < |side.points| && SideAdded(before, after, pack, canonical, side, ct, |side.points|)
    ensures EncodesAt(after, |before| + i, pack, canonical, side.points[i].point, side, ct)
  {
  }

  lemma EncodesAtKept(before: seq<Write>, after: seq<Write>, last: TargetSide, k: nat,
                      pack: Rounding, canonical: Values, p: TargetPoint, side: TargetSide, ct: Num)
    requires SideAdded(before, after, pack, canonical, last, ct, |last.points|)
    requires EncodesAt(before, k, pack, canonical, p, side, ct)
    ensures EncodesAt(after, k, pack, canonical, p, side, ct)
  {
  }

  /** In a complete encoding every point of every section is written its own value, at the
      position its section and its place in it give. */
  lemma {:induction false} EncodeAllAt(pack: Rounding, canonical: Values, sides: seq<TargetSide>, ct: Num, x: nat,
                                       i: nat)
    requires x < |sides| && i < |sides[x].points| && EncodeAll(pack, canonical, sides, ct).Ready?
    ensures EncodesAt(EncodeAll(pack, canonical, sides, ct).writes, |Layout(sides[..x])| + i,
                      pack, canonical, sides[x].points[i].point, sides[x], ct)
    decreases |sides|
  {
    var n := |sides| - 1;
    EncodeLastSide(pack, canonical, sides, ct, n);
    var before := EncodeAll(pack, canonical, sides[..n], ct).writes;
    var after := EncodeAll(pack, canonical, sides, ct).writes;
    if x < n {
      assert sides[..n][..x] == sides[..x];
      EncodeAllAt(pack, canonical, sides[..n], ct, x, i);
      EncodesAtKept(before, after, sides[n], |Layout(sides[..x])| + i,
                    pack, canonical, sides[x].points[i].point, sides[x], ct);
    } else {
      EncodeAllLength(pack, canonical, sides[..n], ct);
      EncodesAtLast(before, after, pack, canonical, sides[n], ct, i);
    }
  }

  // ----- The datastore itself

  predicate Sized(img: Image, sides: seq<TargetSide>) {
    forall s :: s in Layout(sides) ==> Fits(img, s)
  }

  datatype UpdateResult = Updated | KeyError | ValueError

  class Store {
    const holding: array<Word>
    const inputs: array<Word>

    constructor (holdingSize: nat, inputSize: nat)
      ensures fresh(holding) && fresh(inputs) && holding != inputs
      ensures Now() == Image(seq(holdingSize, _ => 0), seq(inputSize, _ => 0))
    {
      holding := new Word[holdingSize](_ => 0);
      inputs := new Word[inputSize](_ => 0);
    }

    function Now(): Image
      reads holding, inputs
    {
      Image(holding[..], inputs[..])
    }

    method SetValues(w: Write)
      requires holding != inputs && WellFormed(Now(), w)
      modifies holding, inputs
      ensures Now() == Put(old(Now()), w)
    {
      if w.span.fc == 3 {
        holding[w.span.addr] := w.regs[0];
        holding[w.span.addr + 1] := w.regs[1];
      } else {
        inputs[w.span.addr] := w.regs[0];
        inputs[w.span.addr + 1] := w.regs[1];
      }
    }

    method WriteAll(ws: seq<Write>)
      requires holding != inputs && forall i :: 0 <= i < |ws| ==> WellFormed(Now(), ws[i])
      modifies holding, inputs
      ensures Now() == PutAll(old(Now()), ws)
    {
      ghost var img := Now();
      for i := 0 to |ws|
        invariant Now() == PutAll(img, ws[..i])
      {
        assert ws[..i + 1][..i] == ws[..i];
        SetValues(ws[i]);
      }
      assert ws[..|ws|] == ws;
    }

    /** Encode everything, then write everything; on any error nothing is written. */
    method Update(pack: Rounding, canonical: Values, sides: seq<TargetSide>, ct: Num) returns (result: UpdateResult)
      requires holding != inputs && Sized(Now(), sides)
      modifies holding, inputs
      ensures match EncodeAll(pack, canonical, sides, ct)
              case Missing => result == KeyError && Now() == old(Now())
              case BadValue => result == ValueError && Now() == old(Now())
              case Ready(ws) =>
                && (forall i :: 0 <= i < |ws| ==> WellFormed(old(Now()), ws[i]))
                && result == Updated && Now() == PutAll(old(Now()), ws)
    {
      var pending := Encode(pack, canonical, sides, ct);
      if pending == BadValue {
        return ValueError;
      }
      if pending == Missing {
        return KeyError;
      }
      EncodeAllLayout(pack, canonical, sides, ct);
      forall i | 0 <= i < |pending.writes| ensures WellFormed(Now(), pending.writes[i]) {
        assert pending.writes[i].span == SpansOf(pending.writes)[i] == Layout(sides)[i];
      }
      WriteAll(pending.writes);
      return Updated;
    }
  }

  method Encode(pack: Rounding, canonical: Values, sides: seq<TargetSide>, ct: Num) returns (pending: Pending)
    ensures pending == EncodeAll(pack, canonical, sides, ct)
  {
    pending := Ready([]);
    for i := 0 to |sides|
      invariant pending == EncodeAll(pack, canonical, sides[..i], ct)
    {
      ghost var before := pending;
      assert sides[..i + 1][..i] == sides[..i];
      for j := 0 to |sides[i].points|
        invariant pending == EncodeSide(before, pack, canonical, sides[i], ct, j)
      {
        pending := AddPoint(pending, pack, canonical, sides[i].points[j].point, sides[i], ct);
      }
    }
    assert sides[..|sides|] == sides;
  }

  /** One past the highest register any target of this function code uses. */
  function Extent(sides: seq<TargetSide>, fc: int): nat
    decreases |sides|
  {
    if sides == [] then 0
    else
      var rest, side := Extent(sides[..|sides| - 1], fc), sides[|sides| - 1];
      if side.fc == fc then Larger(rest, ExtentPoints(side.points)) else rest
  }

  function ExtentPoints(points: seq<Named<TargetPoint>>): nat
    decreases |points|
  {
    if points == [] then 0
    else Larger(ExtentPoints(points[..|points| - 1]), Natural(points[|points| - 1].point.addr + 1))
  }

  function Larger(a: nat, b: nat): nat { if a > b then a else b }

  function Natural(a: int): nat { if a < 0 then 0 else a }

  lemma {:induction false} ExtentCoversPoints(points: seq<Named<TargetPoint>>, i: nat)
    requires i < |points|
    ensures points[i].point.addr + 1 <= ExtentPoints(points)
    decreases |points|
  {
    if i < |points| - 1 { ExtentCoversPoints(points[..|points| - 1], i); }
  }

  lemma {:induction false} ExtentCovers(sides: seq<TargetSide>, fc: int, s: Span)
    requires s in Layout(sides) && s.fc == fc
    ensures s.addr + 1 <= Extent(sides, fc)
    decreases |sides|
  {
    var n := |sides| - 1;
    if s in Layout(sides[..n]) {
      ExtentCovers(sides[..n], fc, s);
    } else {
      var i :| 0 <= i < |sides[n].points| && LayoutSide(sides[n])[i] == s;
      ExtentCoversPoints(sides[n].points, i);
    }
  }

  /** The sizing of a fresh context leaves room for exactly the targets with a non-negative address,
      which no load-time check demands; `identityEnd` is the last register of the identity block. */
  method BuildContext(sides: seq<TargetSide>, identityEnd: nat) returns (store: Store)
    requires forall s :: s in Layout(sides) ==> s.fc == 3 || s.fc == 4
    ensures fresh(store) && fresh(store.holding) && fresh(store.inputs) && store.holding != store.inputs
    ensures forall s :: s in Layout(sides) ==> (Fits(store.Now(), s) <==> s.addr >= 0)
    ensures Sized(store.Now(), sides) <==> forall s :: s in Layout(sides) ==> s.addr >= 0
  {
    store := new Store(Larger(Extent(sides, 3), identityEnd) + 1, Extent(sides, 4) + 1);
    forall s | s in Layout(sides) ensures Fits(store.Now(), s) <==> s.addr >= 0 {
      ExtentCovers(sides, s.fc, s);
    }
  }
}
