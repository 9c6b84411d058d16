/** The moment a sample becomes the served truth: the register image first, the freshness stamp
    only after it, both or neither. */
module Bridge {
  import opened Common
  import opened Datastore
  import opened Derive
  import opened RegisterMap

  /** The latest complete sample and when it was stamped. */
  datatype Stamp = Stamp(values: Values, ts: real)

  class CanonicalStore {
    var latest: Option<Stamp>

    constructor ()
      ensures latest == None
    {
      latest := None;
    }

    method Update(values: Values, ts: real)
      modifies this
      ensures latest == Some(Stamp(values, ts))
    {
      latest := Some(Stamp(values, ts));
    }

    method Age(now: real) returns (age: Option<real>)
      ensures age == AgeOf(latest, now)
    {
      age := if latest == None then None else Some(now - latest.value.ts);
    }
  }

  /** None is the infinite age of a store never stamped. */
  function AgeOf(latest: Option<Stamp>, now: real): Option<real> {
    if latest == None then None else Some(now - latest.value.ts)
  }

  /** What is served and what it is believed to be. */
  datatype Served = Served(image: Image, latest: Option<Stamp>)

  function Delivered(pack: Rounding, sides: seq<TargetSide>, ct: Num, s: Served, values: Values, ts: real): Served
    requires Sized(s.image, sides)
  {
    match EncodeAll(pack, values, sides, ct)
    case Ready(ws) =>
      EncodedFits(pack, values, sides, ct, s.image);
      Served(PutAll(s.image, ws), Some(Stamp(values, ts)))
    case Missing => s
    case BadValue => s
  }

  lemma EncodedFits(pack: Rounding, values: Values, sides: seq<TargetSide>, ct: Num, img: Image)
    requires Sized(img, sides)
    ensures var r := EncodeAll(pack, values, sides, ct);
            r.Ready? ==> forall i :: 0 <= i < |r.writes| ==> WellFormed(img, r.writes[i])
  {
    EncodeAllLayout(pack, values, sides, ct);
    var r := EncodeAll(pack, values, sides, ct);
    if r.Ready? {
      forall i | 0 <= i < |r.writes| ensures WellFormed(img, r.writes[i]) {
        assert r.writes[i].span == SpansOf(r.writes)[i] == Layout(sides)[i];
      }
    }
  }

  class Bridge {
    const context: Store
    const store: CanonicalStore
    const sides: seq<TargetSide>
    const ct: Num

    ghost predicate Valid()
      reads context, store, context.holding, context.inputs
    {
      context.holding != context.inputs && Sized(context.Now(), sides)
    }

    ghost function Now(): Served
      reads context, store, context.holding, context.inputs
    {
      Served(context.Now(), store.latest)
    }

    constructor (context: Store, sides: seq<TargetSide>, ct: Num)
      requires context.holding != context.inputs && Sized(context.Now(), sides)
      ensures this.context == context && this.sides == sides && this.ct == ct && fresh(store)
      ensures Valid() && Now() == Served(context.Now(), None)
    {
      this.context, this.sides, this.ct := context, sides, ct;
      store := new CanonicalStore();
    }

    /** False is the exception that lands in the poller's error path. */
    method OnUpdate(pack: Rounding, values: Values, ts: real) returns (ok: bool)
      requires Valid()
      modifies context.holding, context.inputs, store
      ensures Valid()
      ensures old(Sized(context.Now(), sides)) && Now() == Delivered(pack, sides, ct, old(Now()), values, ts)
      ensures ok <==> EncodeAll(pack, values, sides, ct).Ready?
      ensures !ok ==> Now() == old(Now())
    {
      EncodedFits(pack, values, sides, ct, context.Now());
      var result := context.Update(pack, values, sides, ct);
      if result != Updated {
        return false;
      }
      store.Update(values, ts);
      return true;
    }
  }

  // ----- When an update can fail

  predicate Encodable(pack: Rounding, canonical: Values, p: TargetPoint, side: TargetSide, ct: Num) {
    p.from_ in canonical && EncodeTarget(pack, canonical[p.from_], p, side, ct).Some?
  }

  lemma {:induction false} SideReadyIff(before: Pending, pack: Rounding, canonical: Values, side: TargetSide, ct: Num,
                                        n: nat)
    requires n <= |side.points|
    ensures EncodeSide(before, pack, canonical, side, ct, n).Ready? <==>
            before.Ready? && forall i :: 0 <= i < n ==> Encodable(pack, canonical, side.points[i].point, side, ct)
    ensures EncodeSide(before, pack, canonical, side, ct, n) == Missing ==>
            before == Missing || exists i :: 0 <= i < n && side.points[i].point.from_ !in canonical
  {
    if n > 0 { SideReadyIff(before, pack, canonical, side, ct, n - 1); }
  }

  /** An update succeeds exactly when every target point finds its value and can encode it. */
  lemma {:induction false} ReadyIffAllEncodable(pack: Rounding, canonical: Values, sides: seq<TargetSide>, ct: Num)
    ensures EncodeAll(pack, canonical, sides, ct).Ready? <==>
            forall x, i :: 0 <= x < |sides| && 0 <= i < |sides[x].points| ==>
              Encodable(pack, canonical, sides[x].points[i].point, sides[x], ct)
    decreases |sides|
  {
    if sides != [] {
      var n := |sides| - 1;
      ReadyIffAllEncodable(pack, canonical, sides[..n], ct);
      SideReadyIff(EncodeAll(pack, canonical, sides[..n], ct), pack, canonical, sides[n], ct, |sides[n].points|);
    }
  }

  /** With every needed name present, the missing-key error cannot happen. */
  lemma {:induction false} NeverMissing(pack: Rounding, canonical: Values, sides: seq<TargetSide>, ct: Num)
    requires Needed(sides) <= canonical.Keys
    ensures EncodeAll(pack, canonical, sides, ct) != Missing
    decreases |sides|
  {
    if sides != [] {
      var n := |sides| - 1;
      forall name | name in Needed(sides[..n]) ensures name in Needed(sides) {
        var i, j :| 0 <= i < n && 0 <= j < |sides[..n][i].points| && sides[..n][i].points[j].point.from_ == name;
        assert sides[i].points[j].point.from_ == name;
      }
      NeverMissing(pack, canonical, sides[..n], ct);
      SideReadyIff(EncodeAll(pack, canonical, sides[..n], ct), pack, canonical, sides[n], ct, |sides[n].points|);
      forall i | 0 <= i < |sides[n].points| ensures sides[n].points[i].point.from_ in canonical {
        assert sides[n].points[i].point.from_ in Needed(sides);
      }
    }
  }
}
