/** From the configuration checks to the running bridge: which deliveries cannot fail for want
    of a value, and which maps can never be served. */
module BridgeSoundness {
  import opened Bridge
  import Codec
  import opened Common
  import opened Datastore
  import opened Derive
  import opened HubCache
  import opened Pollers
  import opened PollerSoundness
  import opened RegisterMap
  import opened Sources

  /** No needed name of an ND45 bridge relies on a derive step, which its poller never runs. */
  predicate Nd45NeedsNoDerive(m: RegisterMap, s: Source) {
    s.Nd45? ==> Needed(m.Targets()) * DeriveTargets(s.side.derive) <= Names(s.side.points) + DERIVED_KEYS
  }

  lemma UnneededIsUnready(pack: Rounding, canonical: Values, sides: seq<TargetSide>, ct: Num)
    requires !(Needed(sides) <= canonical.Keys)
    ensures !EncodeAll(pack, canonical, sides, ct).Ready?
  {
    var name :| name in Needed(sides) && name !in canonical.Keys;
    var i, j :| 0 <= i < |sides| && 0 <= j < |sides[i].points| && sides[i].points[j].point.from_ == name;
    ReadyIffAllEncodable(pack, canonical, sides, ct);
    assert !Encodable(pack, canonical, sides[i].points[j].point, sides[i], ct);
  }

  /** For an accepted map, a returned sample never runs into the missing-key error, except on an
      ND45 bridge whose targets need a derived name: there no sample can ever be delivered. */
  lemma MissingKeyIffUnderivedNd45(h: Hypotenuse, m: RegisterMap, s: Source, responses: seq<Response>, pack: Rounding,
                                   ct: Num)
    requires Configured(s, m) && Decodable(s) && |responses| == |PollRequests(s)|
    requires PollOutcome(h, s, responses).Good?
    ensures var delivery := EncodeAll(pack, PollOutcome(h, s, responses).values, m.Targets(), ct);
            if Nd45NeedsNoDerive(m, s) then delivery != Missing else !delivery.Ready?
  {
    var values := PollOutcome(h, s, responses).values;
    EverySampleServesTargets(h, m, s, responses);
    if Nd45NeedsNoDerive(m, s) {
      NeverMissing(pack, values, m.Targets(), ct);
    } else {
      UnneededIsUnready(pack, values, m.Targets(), ct);
    }
  }

  /** Such a map is accepted: one target reads a name that only an ND45 derive step would write. */
  lemma UnservableMapIsAccepted() returns (m: RegisterMap, s: Source)
    ensures Configured(s, m) && Decodable(s) && s.Nd45? && !Nd45NeedsNoDerive(m, s)
  {
    var op := DeriveOp(Constant, [PfTotal], [], [], Some(1.0), Avg);
    var side := SourceSide(Codec.Big, Codec.Big, [], None, 0, [op]);
    var point := TargetPoint(0, PfTotal, 1.0, 0.0, 1, false, false);
    var target := TargetSide(Codec.Big, Codec.Big, 3, [Named(PfTotal, point)]);
    var empty := TargetSide(Codec.Big, Codec.Big, 4, []);
    m := RegisterMap(side, None, None, None, target, empty, empty);
    s := Nd45(side, 1, []);
    assert side.derive[0] == op && PfTotal in op.targets;
    assert PfTotal in DeriveTargets(side.derive);
    assert m.Targets()[0].points[0].point.from_ == PfTotal;
    assert PfTotal in Needed(m.Targets());
    assert Names(side.points) == {};
    forall name | name in Needed(m.Targets()) ensures name == PfTotal {
    }
    assert PfTotal in Needed(m.Targets()) * DeriveTargets(side.derive);
    assert PfTotal !in Names(side.points) + DERIVED_KEYS;
  }
}
