/** The bisecting register scan of a meter that rejects every block touching an undefined
    address: what it finds and how many requests it takes. */
module BisectionScan {
  import opened Common

  /** A device is its defined registers; a block read succeeds only if all of it is defined. */
  type Device = map<int, Word>

  predicate AllDefined(d: Device, addr: int, count: nat) {
    forall a :: addr <= a < addr + count ==> a in d
  }

  function Part(d: Device, lo: int, hi: int): map<int, Word> {
    map a | a in d && lo <= a < hi :: d[a]
  }

  /** The undefined addresses from lo up to hi. */
  function Undefined(d: Device, lo: int, hi: int): set<int> {
    set a | lo <= a < hi && a !in d
  }

  /** How many requests scanning a span takes. */
  function Cost(d: Device, addr: int, count: nat): nat
    requires count >= 1
    decreases count
  {
    if AllDefined(d, addr, count) || count == 1 then 1
    else 1 + Cost(d, addr, count / 2) + Cost(d, addr + count / 2, count - count / 2)
  }

  /** The smallest k with n <= 2^k. */
  function CeilLog2(n: nat): nat {
    if n <= 1 then 0 else 1 + CeilLog2((n + 1) / 2)
  }

  lemma {:induction false} CeilLog2Meaning(n: nat)
    requires n >= 1
    ensures n <= Pow2(CeilLog2(n))
    ensures n > 1 ==> Pow2(CeilLog2(n) - 1) < n
  {
    if n > 1 {
      CeilLog2Meaning((n + 1) / 2);
    }
  }

  lemma {:induction false} CeilLog2Monotone(m: nat, n: nat)
    requires m <= n
    ensures CeilLog2(m) <= CeilLog2(n)
  {
    if m > 1 { CeilLog2Monotone((m + 1) / 2, (n + 1) / 2); }
  }

  lemma UndefinedSplits(d: Device, lo: int, mid: int, hi: int)
    requires lo <= mid <= hi
    ensures |Undefined(d, lo, hi)| == |Undefined(d, lo, mid)| + |Undefined(d, mid, hi)|
  {
    var l, r := Undefined(d, lo, mid), Undefined(d, mid, hi);
    assert Undefined(d, lo, hi) == l + r && l !! r;
  }

  lemma UndefinedWitness(d: Device, addr: int, count: nat)
    ensures AllDefined(d, addr, count) <==> Undefined(d, addr, addr + count) == {}
  {
    if Undefined(d, addr, addr + count) == {} {
      forall a | addr <= a < addr + count ensures a in d {
        assert a !in Undefined(d, addr, addr + count);
      }
    }
  }

  /** 1 + 2 u k, counted out one undefined register at a time. */
  function Budget(u: nat, k: nat): (b: nat)
    ensures b >= 1
  {
    if u == 0 then 1 else Budget(u - 1, k) + 2 * k
  }

  lemma {:induction false} BudgetMeaning(u: nat, k: nat)
    ensures Budget(u, k) == 1 + 2 * u * k
  {
    if u > 0 {
      BudgetMeaning(u - 1, k);
      assert 2 * (u - 1) * k + 2 * k == 2 * u * k;
    }
  }

  lemma {:induction false} BudgetAdds(u1: nat, u2: nat, k: nat)
    ensures Budget(u1 + u2, k) + 1 == Budget(u1, k) + Budget(u2, k)
  {
    if u2 > 0 { BudgetAdds(u1, u2 - 1, k); }
  }

  lemma {:induction false} BudgetDeeper(u: nat, j: nat, k: nat)
    requires j <= k
    ensures Budget(u, j) <= Budget(u, k) && Budget(u, k + 1) == Budget(u, k) + 2 * u
  {
    if u > 0 { BudgetDeeper(u - 1, j, k); }
  }

  lemma BudgetOfHalves(u1: nat, u2: nat, j: nat, k: nat)
    requires j <= k && u1 + u2 >= 1
    ensures 1 + Budget(u1, j) + Budget(u2, k) <= Budget(u1 + u2, k + 1)
  {
    BudgetDeeper(u1, j, k);
    BudgetAdds(u1, u2, k);
    BudgetDeeper(u1 + u2, k, k);
  }

  lemma Times(a: nat, b: nat, c: nat)
    requires b <= c
    ensures a * b <= a * c
  {
  }

  lemma LogOfHalves(count: nat, half: nat)
    requires count > 1 && half == count / 2
    ensures CeilLog2(half) <= CeilLog2(count - half) == CeilLog2(count) - 1
  {
    assert count - half == (count + 1) / 2;
    CeilLog2Monotone(half, (count + 1) / 2);
  }

  lemma CostHalves(d: Device, addr: int, count: nat, half: nat)
    requires count > 1 && half == count / 2 && !AllDefined(d, addr, count)
    ensures Cost(d, addr, count) == 1 + Cost(d, addr, half) + Cost(d, addr + half, count - half)
  {
  }

  lemma CostOfHalves(d: Device, addr: int, count: nat, half: nat, u1: nat, u2: nat, j: nat, k: nat)
    requires count > 1 && half == count / 2 && !AllDefined(d, addr, count)
    requires j <= k && u1 + u2 >= 1
    requires Cost(d, addr, half) <= Budget(u1, j) && Cost(d, addr + half, count - half) <= Budget(u2, k)
    ensures Cost(d, addr, count) <= Budget(u1 + u2, k + 1)
  {
    BudgetOfHalves(u1, u2, j, k);
    CostHalves(d, addr, count, half);
  }

  lemma SomethingUndefined(d: Device, addr: int, count: nat)
    requires !AllDefined(d, addr, count)
    ensures |Undefined(d, addr, addr + count)| >= 1
  {
    UndefinedWitness(d, addr, count);
  }

  lemma {:induction false} CostWithinBudget(d: Device, addr: int, count: nat)
    requires count >= 1
    ensures Cost(d, addr, count) <= Budget(|Undefined(d, addr, addr + count)|, CeilLog2(count))
    decreases count
  {
    if !AllDefined(d, addr, count) && count > 1 {
      var half := count / 2;
      var mid, end := addr + half, addr + count;
      LogOfHalves(count, half);
      CostWithinBudget(d, addr, half);
      CostWithinBudget(d, mid, count - half);
      UndefinedSplits(d, addr, mid, end);
      SomethingUndefined(d, addr, count);
      CostOfHalves(d, addr, count, half, |Undefined(d, addr, mid)|, |Undefined(d, mid, end)|,
                   CeilLog2(half), CeilLog2(count - half));
    }
  }

  /** At most 1 + 2 u ceil(log2 n) requests for a span of n registers with u undefined. */
  lemma CostBound(d: Device, addr: int, count: nat)
    requires count >= 1
    ensures Cost(d, addr, count) <= 1 + 2 * |Undefined(d, addr, addr + count)| * CeilLog2(count)
  {
    CostWithinBudget(d, addr, count);
    BudgetMeaning(|Undefined(d, addr, addr + count)|, CeilLog2(count));
  }

  class Session {
    const device: Device
    var values: map<int, Word>
    var requests: nat

    constructor (device: Device)
      ensures this.device == device && values == map[] && requests == 0
    {
      this.device := device;
      values, requests := map[], 0;
    }

    /** One request on the wire. */
    method ReadBlock(addr: int, count: nat) returns (regs: Option<seq<Word>>)
      modifies `requests
      ensures requests == old(requests) + 1
      ensures regs.Some? <==> AllDefined(device, addr, count)
      ensures regs.Some? ==> |regs.value| == count && forall i :: 0 <= i < count ==> regs.value[i] == device[addr + i]
    {
      requests := requests + 1;
      if forall a :: addr <= a < addr + count ==> a in device {
        return Some(seq(count, i requires 0 <= i < count => device[addr + i]));
      }
      return None;
    }

    method Store(addr: int, regs: seq<Word>)
      requires forall i :: 0 <= i < |regs| ==> addr + i in device && regs[i] == device[addr + i]
      modifies `values
      ensures Adds(device, old(values), values, addr, addr + |regs|)
    {
      for i := 0 to |regs|
        invariant Adds(device, old(values), values, addr, addr + i)
      {
        values := values[addr + i := regs[i]];
      }
    }

    method ScanSpan(addr: int, count: nat)
      requires count >= 1
      modifies this
      ensures Adds(device, old(values), values, addr, addr + count)
      ensures requests == old(requests) + Cost(device, addr, count)
      decreases count
    {
      var regs := ReadBlock(addr, count);
      if regs.Some? {
        Store(addr, regs.value);
        return;
      }
      if count == 1 {
        return;
      }
      var half := count / 2;
      ScanSpan(addr, half);
      ghost var between := values;
      ScanSpan(addr + half, count - half);
      AddsCompose(device, old(values), between, values, addr, addr + half, addr + count);
    }
  }

  /** `after` is `before` with the defined registers from lo up to hi written over it. */
  ghost predicate Adds(d: Device, before: map<int, Word>, after: map<int, Word>, lo: int, hi: int) {
    forall a :: && (a in after <==> a in before || (lo <= a < hi && a in d))
                && (a in after ==> after[a] == if lo <= a < hi && a in d then d[a] else before[a])
  }

  lemma AddsCompose(d: Device, x: map<int, Word>, y: map<int, Word>, z: map<int, Word>, lo: int, mid: int, hi: int)
    requires lo <= mid <= hi && Adds(d, x, y, lo, mid) && Adds(d, y, z, mid, hi)
    ensures Adds(d, x, z, lo, hi)
  {
  }

  /** Registers per request when a range is fully defined. */
  const BLOCK: nat := 20

  function Blocks(start: int, end: int): nat {
    if end <= start then 0 else (end - start + BLOCK - 1) / BLOCK
  }

  /** The scan of a range finds exactly its defined registers with their values, in at most one
      request per block of 20 plus 10 per undefined register. */
  method ScanRange(session: Session, start: int, end: int) returns (values: map<int, Word>)
    requires session.values == map[]
    modifies session
    ensures values == Part(session.device, start, end)
    ensures session.requests <= old(session.requests) + Blocks(start, end) +
            10 * |Undefined(session.device, start, end)|
  {
    var addr := start;
    ghost var d := session.device;
    assert Undefined(d, start, addr) == {};
    while addr < end
      invariant start <= addr && (addr <= end || addr == start)
      invariant Adds(d, map[], session.values, start, addr)
      invariant addr < end ==> (addr - start) % BLOCK == 0
      invariant session.requests <= old(session.requests) + Blocks(start, addr) + 10 * |Undefined(d, start, addr)|
      decreases end - addr
    {
      var count := if BLOCK < end - addr then BLOCK else end - addr;
      SpanCost(d, start, addr, count);
      ghost var before := session.values;
      session.ScanSpan(addr, count);
      AddsCompose(d, map[], before, session.values, start, addr, addr + count);
      addr := addr + count;
    }
    assert Undefined(d, start, addr) == Undefined(d, start, end);
    values := session.values;
    AddsToEmpty(d, values, start, addr);
    assert Part(d, start, addr) == Part(d, start, end);
  }

  lemma AddsToEmpty(d: Device, m: map<int, Word>, lo: int, hi: int)
    requires Adds(d, map[], m, lo, hi)
    ensures m == Part(d, lo, hi)
  {
    forall a ensures a in m <==> a in Part(d, lo, hi) {
    }
  }

  lemma SpanCost(d: Device, start: int, addr: int, count: nat)
    requires start <= addr && (addr - start) % BLOCK == 0 && 1 <= count <= BLOCK
    ensures Blocks(start, addr) + 10 * |Undefined(d, start, addr)| + Cost(d, addr, count) <=
            Blocks(start, addr + count) + 10 * |Undefined(d, start, addr + count)|
  {
    CostBound(d, addr, count);
    UndefinedSplits(d, start, addr, addr + count);
    BlockCost(|Undefined(d, addr, addr + count)|, count);
    OneMoreBlock(start, addr, count);
  }

  lemma OneMoreBlock(start: int, addr: int, count: nat)
    requires start <= addr && (addr - start) % BLOCK == 0 && 1 <= count <= BLOCK
    ensures Blocks(start, addr + count) == Blocks(start, addr) + 1
  {
  }

  lemma BlockCost(u: nat, count: nat)
    requires 1 <= count <= BLOCK
    ensures 2 * u * CeilLog2(count) <= 10 * u
  {
    CeilLog2Monotone(count, BLOCK);
    assert CeilLog2(5) == 3 && CeilLog2(10) == 4 && CeilLog2(20) == 5;
    Times(2 * u, CeilLog2(count), 5);
  }
}
