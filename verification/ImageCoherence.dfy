/** When a complete update leaves every target register holding its own encoding. */
module ImageCoherence {
  import opened Codec
  import opened Common
  import opened Datastore
  import opened Derive
  import opened RegisterMap

  predicate SameBank(a: int, b: int) { (a == 3) == (b == 3) }

  predicate Clash(a: Span, b: Span) {
    SameBank(a.fc, b.fc) && Overlap(a.addr, b.addr)
  }

  predicate Disjoint(spans: seq<Span>) {
    forall i, j :: 0 <= i < j < |spans| ==> !Clash(spans[i], spans[j])
  }

  function ReadBack(img: Image, s: Span): seq<Word>
    requires Fits(img, s)
  {
    [img.Bank(s.fc)[s.addr], img.Bank(s.fc)[s.addr + 1]]
  }

  predicate Touches(s: Span, fc: int, a: int) {
    SameBank(s.fc, fc) && 0 <= a - s.addr <= 1
  }

  lemma PutCell(img: Image, w: Write, fc: int, a: int)
    requires WellFormed(img, w) && 0 <= a < |img.Bank(fc)|
    ensures |Put(img, w).Bank(fc)| == |img.Bank(fc)|
    ensures Put(img, w).Bank(fc)[a] == if Touches(w.span, fc, a) then w.regs[a - w.span.addr] else img.Bank(fc)[a]
  {
  }

  predicate AllFit(img: Image, ws: seq<Write>) { forall i :: 0 <= i < |ws| ==> WellFormed(img, ws[i]) }

  /** A register outside every span keeps its value. */
  lemma {:induction false} UntouchedKeeps(img: Image, ws: seq<Write>, fc: int, a: int)
    requires AllFit(img, ws) && 0 <= a < |img.Bank(fc)|
    requires forall i :: 0 <= i < |ws| ==> !Touches(ws[i].span, fc, a)
    ensures |PutAll(img, ws).Bank(fc)| == |img.Bank(fc)|
    ensures PutAll(img, ws).Bank(fc)[a] == img.Bank(fc)[a]
    decreases |ws|
  {
    if ws != [] {
      var n := |ws| - 1;
      UntouchedKeeps(img, ws[..n], fc, a);
      PutCell(PutAll(img, ws[..n]), ws[n], fc, a);
    }
  }

  /** A register holds what the last write touching it wrote. */
  lemma {:induction false} LastWriteWins(img: Image, ws: seq<Write>, k: nat, fc: int, a: int)
    requires AllFit(img, ws) && k < |ws| && 0 <= a < |img.Bank(fc)| && Touches(ws[k].span, fc, a)
    requires forall j :: k < j < |ws| ==> !Touches(ws[j].span, fc, a)
    ensures |PutAll(img, ws).Bank(fc)| == |img.Bank(fc)|
    ensures PutAll(img, ws).Bank(fc)[a] == ws[k].regs[a - ws[k].span.addr]
    decreases |ws|
  {
    var n := |ws| - 1;
    PutCell(PutAll(img, ws[..n]), ws[n], fc, a);
    if k < n { LastWriteWins(img, ws[..n], k, fc, a); }
  }

  lemma DisjointReadsBack(img: Image, ws: seq<Write>, k: nat)
    requires AllFit(img, ws) && Disjoint(SpansOf(ws)) && k < |ws|
    ensures Fits(PutAll(img, ws), ws[k].span) && ReadBack(PutAll(img, ws), ws[k].span) == ws[k].regs
  {
    var s := ws[k].span;
    forall j | k < j < |ws|
      ensures !Touches(ws[j].span, s.fc, s.addr) && !Touches(ws[j].span, s.fc, s.addr + 1)
    {
      assert !Clash(SpansOf(ws)[k], SpansOf(ws)[j]);
    }
    LastWriteWins(img, ws, k, s.fc, s.addr);
    LastWriteWins(img, ws, k, s.fc, s.addr + 1);
  }

  // ----- Exactly the disjoint layouts are coherent

  /** Write 0 through the k-th span and 1 through every other. */
  function Telling(layout: seq<Span>, k: nat): (ws: seq<Write>)
    ensures SpansOf(ws) == layout
  {
    seq(|layout|, i requires 0 <= i < |layout| => Write(layout[i], if i == k then [0, 0] else [1, 1]))
  }

  lemma {:induction false} LastTouching(ws: seq<Write>, from: nat, fc: int, a: int) returns (k: nat)
    requires from < |ws| && Touches(ws[from].span, fc, a)
    ensures from <= k < |ws| && Touches(ws[k].span, fc, a)
    ensures forall j :: k < j < |ws| ==> !Touches(ws[j].span, fc, a)
    decreases |ws| - from
  {
    if j :| from < j < |ws| && Touches(ws[j].span, fc, a) {
      k := LastTouching(ws, j, fc, a);
    } else {
      k := from;
    }
  }

  ghost predicate AlwaysCoherent(img: Image, layout: seq<Span>)
    requires forall s :: s in layout ==> Fits(img, s)
  {
    forall ws: seq<Write>, k: int ::
      SpansOf(ws) == layout && TwoEach(ws) && AllFit(img, ws) && 0 <= k < |ws| ==>
      Fits(PutAll(img, ws), ws[k].span) && ReadBack(PutAll(img, ws), ws[k].span) == ws[k].regs
  }

  lemma TellingFits(img: Image, layout: seq<Span>, i: nat)
    requires forall s :: s in layout ==> Fits(img, s)
    ensures TwoEach(Telling(layout, i)) && AllFit(img, Telling(layout, i))
  {
    forall k | 0 <= k < |layout| ensures WellFormed(img, Telling(layout, i)[k]) {
      assert layout[k] in layout;
    }
  }

  lemma OverwrittenSpan(img: Image, layout: seq<Span>, i: nat, j: nat, a: int)
    requires i < j < |layout| && AllFit(img, Telling(layout, i))
    requires Touches(layout[i], layout[i].fc, a) && Touches(layout[j], layout[i].fc, a)
    ensures Fits(PutAll(img, Telling(layout, i)), layout[i])
    ensures ReadBack(PutAll(img, Telling(layout, i)), layout[i]) != [0, 0]
  {
    var ws := Telling(layout, i);
    assert WellFormed(img, ws[i]);
    var k := LastTouching(ws, j, layout[i].fc, a);
    LastWriteWins(img, ws, k, layout[i].fc, a);
    assert ReadBack(PutAll(img, ws), layout[i])[a - layout[i].addr] == 1;
  }

  lemma ClashIsSeen(img: Image, layout: seq<Span>, i: nat, j: nat)
    requires i < j < |layout| && Clash(layout[i], layout[j])
    requires forall s :: s in layout ==> Fits(img, s)
    ensures !AlwaysCoherent(img, layout)
  {
    var ws := Telling(layout, i);
    TellingFits(img, layout, i);
    var a := if layout[i].addr >= layout[j].addr then layout[i].addr else layout[j].addr;
    OverwrittenSpan(img, layout, i, j, a);
    assert ws[i].span == layout[i] && ws[i].regs == [0, 0];
  }

  /** A layout reads back every point's own registers, whatever is written, exactly when no two
      spans of one register bank overlap. */
  lemma CoherentIffDisjoint(img: Image, layout: seq<Span>)
    requires forall s :: s in layout ==> Fits(img, s)
    ensures AlwaysCoherent(img, layout) <==> Disjoint(layout)
  {
    if Disjoint(layout) {
      forall ws: seq<Write>, k: int | SpansOf(ws) == layout && TwoEach(ws) && AllFit(img, ws) && 0 <= k < |ws|
        ensures Fits(PutAll(img, ws), ws[k].span) && ReadBack(PutAll(img, ws), ws[k].span) == ws[k].regs
      {
        DisjointReadsBack(img, ws, k);
      }
    } else {
      var i, j :| 0 <= i < j < |layout| && Clash(layout[i], layout[j]);
      ClashIsSeen(img, layout, i, j);
    }
  }

  // ----- Exactly which samples a layout with overlaps still serves right

  /** Where two writes touch one register they write the same. */
  predicate AgreeAt(u: Write, v: Write, a: int)
    requires |u.regs| == |v.regs| == 2
  {
    Touches(u.span, u.span.fc, a) && Touches(v.span, u.span.fc, a) ==>
      u.regs[a - u.span.addr] == v.regs[a - v.span.addr]
  }

  ghost predicate Agree(ws: seq<Write>)
    requires TwoEach(ws)
  {
    forall i, j, a :: 0 <= i < |ws| && 0 <= j < |ws| ==> AgreeAt(ws[i], ws[j], a)
  }

  predicate ReadsBack(img: Image, w: Write) {
    Fits(img, w.span) && ReadBack(img, w.span) == w.regs
  }

  ghost predicate AllReadBack(img: Image, ws: seq<Write>) {
    forall k :: 0 <= k < |ws| ==> ReadsBack(img, ws[k])
  }

  lemma AgreedRegister(img: Image, ws: seq<Write>, k: nat, a: int)
    requires AllFit(img, ws) && Agree(ws) && k < |ws| && Touches(ws[k].span, ws[k].span.fc, a)
    ensures |PutAll(img, ws).Bank(ws[k].span.fc)| == |img.Bank(ws[k].span.fc)|
    ensures PutAll(img, ws).Bank(ws[k].span.fc)[a] == ws[k].regs[a - ws[k].span.addr]
  {
    var fc := ws[k].span.fc;
    var last := LastTouching(ws, k, fc, a);
    LastWriteWins(img, ws, last, fc, a);
    assert AgreeAt(ws[k], ws[last], a);
  }

  lemma AgreedReadsBack(img: Image, ws: seq<Write>, k: nat)
    requires AllFit(img, ws) && Agree(ws) && k < |ws|
    ensures ReadsBack(PutAll(img, ws), ws[k])
  {
    AgreedRegister(img, ws, k, ws[k].span.addr);
    AgreedRegister(img, ws, k, ws[k].span.addr + 1);
  }

  lemma BothReadBackAgree(img: Image, u: Write, v: Write, a: int)
    requires |u.regs| == |v.regs| == 2 && ReadsBack(img, u) && ReadsBack(img, v)
    ensures AgreeAt(u, v, a)
  {
    if Touches(u.span, u.span.fc, a) && Touches(v.span, u.span.fc, a) {
      assert u.regs[a - u.span.addr] == img.Bank(u.span.fc)[a];
      assert v.regs[a - v.span.addr] == img.Bank(v.span.fc)[a];
    }
  }

  /** Every write of a batch reads back exactly when overlapping writes agree on the registers they
      share; disjoint spans are the case that needs no such luck. */
  lemma ReadsBackIffAgree(img: Image, ws: seq<Write>)
    requires AllFit(img, ws)
    ensures AllReadBack(PutAll(img, ws), ws) <==> Agree(ws)
  {
    if Agree(ws) {
      forall k | 0 <= k < |ws| ensures ReadsBack(PutAll(img, ws), ws[k]) {
        AgreedReadsBack(img, ws, k);
      }
    }
    if AllReadBack(PutAll(img, ws), ws) {
      forall i, j, a | 0 <= i < |ws| && 0 <= j < |ws| ensures AgreeAt(ws[i], ws[j], a) {
        BothReadBackAgree(PutAll(img, ws), ws[i], ws[j], a);
      }
    }
  }

  // ----- What the load-time check of a register map adds to that

  /** The part of disjointness no load-time check looks at: points of different sections. */
  predicate SidesApart(a: TargetSide, b: TargetSide) {
    forall i, j :: 0 <= i < |a.points| && 0 <= j < |b.points| ==>
      !(SameBank(a.fc, b.fc) && Overlap(a.points[i].point.addr, b.points[j].point.addr))
  }

  predicate SectionsApart(sides: seq<TargetSide>) {
    forall x, y :: 0 <= x < y < |sides| ==> SidesApart(sides[x], sides[y])
  }

  lemma {:induction false} LayoutIndex(sides: seq<TargetSide>, x: nat, i: nat) returns (k: nat)
    requires x < |sides| && i < |sides[x].points|
    ensures |Layout(sides[..x])| <= k < |Layout(sides[..x + 1])| <= |Layout(sides)|
    ensures Layout(sides)[k] == Span(sides[x].fc, sides[x].points[i].point.addr)
    ensures k == |Layout(sides[..x])| + i
    decreases |sides|
  {
    var n := |sides| - 1;
    if x == n {
      k := |Layout(sides[..n])| + i;
      assert sides[..x + 1] == sides;
    } else {
      k := LayoutIndex(sides[..n], x, i);
      assert sides[..n][..x] == sides[..x] && sides[..n][..x + 1] == sides[..x + 1];
    }
  }

  lemma {:induction false} LayoutMember(sides: seq<TargetSide>, k: nat) returns (x: nat, i: nat)
    requires k < |Layout(sides)|
    ensures x < |sides| && i < |sides[x].points|
    ensures Layout(sides)[k] == Span(sides[x].fc, sides[x].points[i].point.addr)
    ensures k == |Layout(sides[..x])| + i
    decreases |sides|
  {
    var n := |sides| - 1;
    if k >= |Layout(sides[..n])| {
      x, i := n, k - |Layout(sides[..n])|;
    } else {
      x, i := LayoutMember(sides[..n], k);
      assert sides[..n][..x] == sides[..x];
    }
  }

  lemma {:induction false} LayoutGrows(sides: seq<TargetSide>, x: nat, y: nat)
    requires x <= y <= |sides|
    ensures |Layout(sides[..x])| <= |Layout(sides[..y])|
    decreases y
  {
    if x < y {
      LayoutGrows(sides, x, y - 1);
      assert sides[..y][..y - 1] == sides[..y - 1];
    }
  }

  /** The spans of an accepted map are pairwise disjoint exactly when its sections also keep clear
      of one another. */
  lemma AcceptedMapDisjointIff(sides: seq<TargetSide>)
    requires forall x :: 0 <= x < |sides| ==> sides[x].Accepted()
    ensures Disjoint(Layout(sides)) <==> SectionsApart(sides)
  {
    var layout := Layout(sides);
    if Disjoint(layout) {
      forall x, y | 0 <= x < y < |sides| ensures SidesApart(sides[x], sides[y]) {
        forall i, j | 0 <= i < |sides[x].points| && 0 <= j < |sides[y].points|
          ensures !(SameBank(sides[x].fc, sides[y].fc) &&
                  Overlap(sides[x].points[i].point.addr, sides[y].points[j].point.addr))
        {
          var k := LayoutIndex(sides, x, i);
          var l := LayoutIndex(sides, y, j);
          LayoutGrows(sides, x + 1, y);
          assert k < l && !Clash(layout[k], layout[l]);
        }
      }
    }
    if SectionsApart(sides) {
      forall k, l | 0 <= k < l < |layout| ensures !Clash(layout[k], layout[l]) {
        var x, i := LayoutMember(sides, k);
        var y, j := LayoutMember(sides, l);
        if x == y {
          assert i < j && SpansDisjoint(sides[x].points);
        } else if x < y {
          assert SidesApart(sides[x], sides[y]);
        } else {
          LayoutGrows(sides, y + 1, x);
          var l' := LayoutIndex(sides, y, j);
          assert false;
        }
      }
    }
  }

  // ----- What is served of one sample

  /** The register pair of this target point holds the encoding of its own value. */
  predicate ServesPoint(img: Image, pack: Rounding, values: Values, p: TargetPoint, side: TargetSide, ct: Num) {
    && p.from_ in values && Fits(img, Span(side.fc, p.addr))
    && EncodeTarget(pack, values[p.from_], p, side, ct) == Some(ReadBack(img, Span(side.fc, p.addr)))
  }

  lemma ServesIffReadsBack(img: Image, w: Write, pack: Rounding, values: Values, p: TargetPoint, side: TargetSide,
                           ct: Num)
    requires Encodes(w, pack, values, p, side, ct)
    ensures ServesPoint(img, pack, values, p, side, ct) <==> ReadsBack(img, w)
  {
  }

  /** Every target point is served its own value of this sample. */
  ghost predicate ServesAll(img: Image, pack: Rounding, values: Values, sides: seq<TargetSide>, ct: Num) {
    forall x, j :: 0 <= x < |sides| && 0 <= j < |sides[x].points| ==>
      ServesPoint(img, pack, values, sides[x].points[j].point, sides[x], ct)
  }

  lemma ServedReadsBack(img: Image, pack: Rounding, values: Values, sides: seq<TargetSide>, ct: Num)
    requires EncodeAll(pack, values, sides, ct).Ready? && ServesAll(img, pack, values, sides, ct)
    ensures AllReadBack(img, EncodeAll(pack, values, sides, ct).writes)
  {
    var ws := EncodeAll(pack, values, sides, ct).writes;
    EncodeAllLength(pack, values, sides, ct);
    forall k | 0 <= k < |ws| ensures ReadsBack(img, ws[k]) {
      var x, j := LayoutMember(sides, k);
      EncodeAllAt(pack, values, sides, ct, x, j);
      assert ServesPoint(img, pack, values, sides[x].points[j].point, sides[x], ct);
      ServesIffReadsBack(img, ws[k], pack, values, sides[x].points[j].point, sides[x], ct);
    }
  }

  lemma ReadBackServes(img: Image, pack: Rounding, values: Values, sides: seq<TargetSide>, ct: Num)
    requires EncodeAll(pack, values, sides, ct).Ready? && AllReadBack(img, EncodeAll(pack, values, sides, ct).writes)
    ensures ServesAll(img, pack, values, sides, ct)
  {
    var ws := EncodeAll(pack, values, sides, ct).writes;
    forall x, j | 0 <= x < |sides| && 0 <= j < |sides[x].points|
      ensures ServesPoint(img, pack, values, sides[x].points[j].point, sides[x], ct)
    {
      EncodeAllAt(pack, values, sides, ct, x, j);
      ServesIffReadsBack(img, ws[|Layout(sides[..x])| + j], pack, values, sides[x].points[j].point, sides[x], ct);
    }
  }

  /** A delivered sample is served right at every point exactly when the encodings of points that
      share registers agree there. */
  lemma ServesAllIffAgree(img: Image, pack: Rounding, values: Values, sides: seq<TargetSide>, ct: Num)
    requires EncodeAll(pack, values, sides, ct).Ready? && AllFit(img, EncodeAll(pack, values, sides, ct).writes)
    ensures TwoEach(EncodeAll(pack, values, sides, ct).writes)
    ensures var ws := EncodeAll(pack, values, sides, ct).writes;
            ServesAll(PutAll(img, ws), pack, values, sides, ct) <==> Agree(ws)
  {
    var ws := EncodeAll(pack, values, sides, ct).writes;
    var after := PutAll(img, ws);
    EncodeAllLayout(pack, values, sides, ct);
    ReadsBackIffAgree(img, ws);
    if ServesAll(after, pack, values, sides, ct) {
      ServedReadsBack(after, pack, values, sides, ct);
    }
    if AllReadBack(after, ws) {
      ReadBackServes(after, pack, values, sides, ct);
    }
  }

  lemma DisjointAgrees(ws: seq<Write>)
    requires TwoEach(ws) && Disjoint(SpansOf(ws))
    ensures Agree(ws)
  {
    forall i, j, a | 0 <= i < |ws| && 0 <= j < |ws| ensures AgreeAt(ws[i], ws[j], a) {
      if i < j {
        assert !Clash(SpansOf(ws)[i], SpansOf(ws)[j]);
      } else if j < i {
        assert !Clash(SpansOf(ws)[j], SpansOf(ws)[i]);
      }
    }
  }

  /** The map of the example below: import energy in one FC04 section and export energy in another,
      both at address 0. */
  function ClashingMap(): RegisterMap {
    var imp := TargetPoint(0, NetImpEnergyTotal, 1.0, 0.0, 1, false, false);
    var exp := TargetPoint(0, NetExpEnergyTotal, 1.0, 0.0, 1, false, false);
    RegisterMap(SourceSide(Big, Big, [], None, 0, []), None, None, None, TargetSide(Big, Big, 3, []),
                TargetSide(Big, Big, 4, [Named(NetImpEnergyTotal, imp)]),
                TargetSide(Big, Big, 4, [Named(NetExpEnergyTotal, exp)]))
  }

  lemma ClashingMapAccepted()
    ensures ClashingMap().Accepted()
    ensures Layout(ClashingMap().Targets()) == [Span(4, 0), Span(4, 0)]
  {
    var m := ClashingMap();
    var t := m.Targets();
    assert t[..2][..1] == t[..1] && t[..1][..0] == [] && Layout([]) == [];
    assert Layout(t[..1]) == [] && Layout(t[..2]) == [Span(4, 0)];
    assert Needed(t) <= DERIVED_KEYS;
  }

  lemma EncodeOne(before: seq<Write>, pack: Rounding, values: Values, side: TargetSide, ct: Num, regs: seq<Word>)
    requires |side.points| == 1 && side.points[0].point.from_ in values
    requires EncodeTarget(pack, values[side.points[0].point.from_], side.points[0].point, side, ct) == Some(regs)
    ensures EncodeSide(Ready(before), pack, values, side, ct, 1) ==
            Ready(before + [Write(Span(side.fc, side.points[0].point.addr), regs)])
  {
    assert EncodeSide(Ready(before), pack, values, side, ct, 0) == Ready(before);
  }

  lemma EncodeLast(pack: Rounding, values: Values, sides: seq<TargetSide>, ct: Num, n: nat)
    requires n + 1 == |sides|
    ensures EncodeAll(pack, values, sides, ct) ==
            EncodeSide(EncodeAll(pack, values, sides[..n], ct), pack, values, sides[n], ct, |sides[n].points|)
  {
  }

  lemma ClashingWrites(pack: Rounding, values: Values, ct: Num, imp: seq<Word>, exp: seq<Word>)
    requires NetImpEnergyTotal in values && NetExpEnergyTotal in values
    requires values[NetImpEnergyTotal] == Fin(1.0) && values[NetExpEnergyTotal] == Fin(0.0)
    requires imp == BitsToRegisters(pack(1.0), Big, Big) && exp == BitsToRegisters(pack(0.0), Big, Big)
    ensures EncodeAll(pack, values, ClashingMap().Targets(), ct) ==
            Ready([Write(Span(4, 0), imp), Write(Span(4, 0), exp)])
  {
    var t := ClashingMap().Targets();
    assert t[..1][..0] == [] && t[..2][..1] == t[..1];
    EncodeLast(pack, values, t[..1], ct, 0);
    EncodeLast(pack, values, t[..2], ct, 1);
    EncodeLast(pack, values, t, ct, 2);
    EncodeOne([], pack, values, t[1], ct, imp);
    EncodeOne([Write(Span(4, 0), imp)], pack, values, t[2], ct, exp);
  }

  lemma ClashingServedWrong(img: Image, imp: seq<Word>, exp: seq<Word>)
    requires |imp| == |exp| == 2 && imp[0] != exp[0] && |img.inputs| == 2
    ensures AllFit(img, [Write(Span(4, 0), imp), Write(Span(4, 0), exp)])
    ensures !ReadsBack(PutAll(img, [Write(Span(4, 0), imp), Write(Span(4, 0), exp)]), Write(Span(4, 0), imp))
  {
    LastWriteWins(img, [Write(Span(4, 0), imp), Write(Span(4, 0), exp)], 1, 4, 0);
  }

  /** The gap is real: a map whose two FC04 sections claim the same registers for different values is
      accepted, and a complete sample is served wrong by it: the import energy of 1 reads as the
      export energy. */
  lemma AcceptedMapMayClash() returns (m: RegisterMap, pack: Rounding, values: Values, img: Image)
    ensures m.Accepted() && !Disjoint(Layout(m.Targets())) && Sized(img, m.Targets()) && m.extTarget.points != []
    ensures var r := EncodeAll(pack, values, m.Targets(), Fin(1.0));
            && r.Ready? && AllFit(img, r.writes)
            && !ServesPoint(PutAll(img, r.writes), pack, values, m.extTarget.points[0].point, m.extTarget, Fin(1.0))
  {
    m := ClashingMap();
    pack := (r: real) => if r == 1.0 then 0x3F80_0000 else 0;
    values := map[NetImpEnergyTotal := Fin(1.0), NetExpEnergyTotal := Fin(0.0)];
    img := Image([0, 0], [0, 0]);
    var imp, exp := BitsToRegisters(pack(1.0), Big, Big), BitsToRegisters(pack(0.0), Big, Big);
    ClashingMapAccepted();
    assert Clash(Layout(m.Targets())[0], Layout(m.Targets())[1]);
    assert imp[0] == 0x3F80 && exp[0] == 0;
    ClashingWrites(pack, values, Fin(1.0), imp, exp);
    ClashingServedWrong(img, imp, exp);
    ClashingFirstPoint(PutAll(img, [Write(Span(4, 0), imp), Write(Span(4, 0), exp)]), pack, values, imp);
  }

  lemma ClashingFirstPoint(img: Image, pack: Rounding, values: Values, imp: seq<Word>)
    requires NetImpEnergyTotal in values && values[NetImpEnergyTotal] == Fin(1.0)
    requires imp == BitsToRegisters(pack(1.0), Big, Big) && !ReadsBack(img, Write(Span(4, 0), imp))
    ensures var side := ClashingMap().extTarget;
            !ServesPoint(img, pack, values, side.points[0].point, side, Fin(1.0))
  {
    var side := ClashingMap().extTarget;
    ServesIffReadsBack(img, Write(Span(4, 0), imp), pack, values, side.points[0].point, side, Fin(1.0));
  }
}
