/** What a combined reading is, in plain arithmetic on what the devices hold and on what the map
    declares. */
module CombinationMeaning {
  import opened Combination
  import opened Common
  import opened Derive
  import opened RegisterMap

  /** The sum of a value over the devices that have it, and how many these are. */
  function SumOver(devices: seq<Reading>, key: Name): real
    decreases |devices|
  {
    if devices == [] then 0.0
    else
      var d := devices[|devices| - 1];
      SumOver(devices[..|devices| - 1], key) + if key in d then d[key] else 0.0
  }

  function CountOver(devices: seq<Reading>, key: Name): nat
    decreases |devices|
  {
    if devices == [] then 0
    else CountOver(devices[..|devices| - 1], key) + if key in devices[|devices| - 1] then 1 else 0
  }

  lemma TotalAppend(xs: seq<real>, x: real)
    ensures Total(xs + [x]) == Total(xs) + x
  {
    assert (xs + [x])[..|xs|] == xs;
  }

  lemma {:induction false} ReadingsAdd(devices: seq<Reading>, key: Name)
    ensures Total(Readings(devices, key)) == SumOver(devices, key)
    ensures |Readings(devices, key)| == CountOver(devices, key)
    decreases |devices|
  {
    if devices != [] {
      var n := |devices| - 1;
      ReadingsAdd(devices[..n], key);
      var init := Readings(devices[..n], key);
      if key in devices[n] {
        TotalAppend(init, devices[n][key]);
      } else {
        assert init + [] == init;
      }
    }
  }

  lemma {:induction false} PointDeclares(points: seq<Named<SourcePoint>>, i: nat)
    requires DistinctNames(points) && i < |points|
    ensures PointMode(points[i].name, points) == Some(points[i].point.aggregate)
    decreases |points|
  {
    if i > 0 {
      assert points[0].name != points[i].name;
      PointDeclares(points[1..], i - 1);
    }
  }

  lemma {:induction false} NoPointDeclares(points: seq<Named<SourcePoint>>, key: Name)
    requires forall i :: 0 <= i < |points| ==> points[i].name != key
    ensures PointMode(key, points) == None
    decreases |points|
  {
    if points != [] { NoPointDeclares(points[1..], key); }
  }

  /** The first step that writes the key. */
  predicate FirstWriter(ops: seq<DeriveOp>, key: Name, k: nat) {
    k < |ops| && key in ops[k].targets && forall j :: 0 <= j < k ==> key !in ops[j].targets
  }

  lemma {:induction false} FirstWriterDeclares(ops: seq<DeriveOp>, key: Name, k: nat)
    requires FirstWriter(ops, key, k)
    ensures ModeFrom(key, ops) == ops[k].aggregate
    decreases |ops|
  {
    if k > 0 {
      assert key !in ops[0].targets;
      FirstWriterDeclares(ops[1..], key, k - 1);
    }
  }

  /** Whether the map wants this key summed: its own point decides, else the first derive step that
      writes it. */
  predicate WantsSum(side: SourceSide, key: Name) {
    || (exists i :: 0 <= i < |side.points| && side.points[i].name == key && side.points[i].point.aggregate == Sum)
    || ((forall i :: 0 <= i < |side.points| ==> side.points[i].name != key)
        && exists k: nat :: k < |side.derive| && FirstWriter(side.derive, key, k) && side.derive[k].aggregate == Sum)
  }

  predicate Produced(side: SourceSide, key: Name) {
    key in Names(side.points) || key in DeriveTargets(side.derive)
  }

  lemma {:induction false} SomeFirstWriter(ops: seq<DeriveOp>, key: Name) returns (k: nat)
    requires exists j :: 0 <= j < |ops| && key in ops[j].targets
    ensures FirstWriter(ops, key, k)
    decreases |ops|
  {
    if key in ops[0].targets {
      k := 0;
    } else {
      var j :| 0 <= j < |ops| && key in ops[j].targets;
      assert ops[1..][j - 1] == ops[j];
      k := SomeFirstWriter(ops[1..], key);
      k := k + 1;
    }
  }

  lemma OneFirstWriter(ops: seq<DeriveOp>, key: Name, j: nat, k: nat)
    requires FirstWriter(ops, key, j) && FirstWriter(ops, key, k)
    ensures j == k
  {
  }

  lemma ModeMeans(side: SourceSide, key: Name)
    requires DistinctNames(side.points) && Produced(side, key)
    ensures Mode(side, key) == if WantsSum(side, key) then Sum else Avg
  {
    if key in Names(side.points) {
      var i :| 0 <= i < |side.points| && side.points[i].name == key;
      PointDeclares(side.points, i);
      assert forall j :: 0 <= j < |side.points| && side.points[j].name == key ==> j == i;
    } else {
      assert forall i :: 0 <= i < |side.points| ==> side.points[i].name in Names(side.points);
      NoPointDeclares(side.points, key);
      var k := SomeFirstWriter(side.derive, key);
      FirstWriterDeclares(side.derive, key, k);
      forall j: nat | j < |side.derive| && FirstWriter(side.derive, key, j) ensures j == k {
        OneFirstWriter(side.derive, key, j, k);
      }
    }
  }

  /** A combined value is the sum over the devices that have it when the map wants it summed, and that
      sum over their number otherwise. */
  lemma CombinedMeans(side: SourceSide, devices: seq<Reading>, key: Name)
    requires DistinctNames(side.points) && Produced(side, key)
    ensures key in Combined(side, devices) <==> CountOver(devices, key) > 0
    ensures CountOver(devices, key) > 0 ==>
              Combined(side, devices)[key] ==
              if WantsSum(side, key) then SumOver(devices, key)
              else SumOver(devices, key) / CountOver(devices, key) as real
  {
    ReadingsExist(devices, key);
    ReadingsAdd(devices, key);
    ModeMeans(side, key);
  }
}
