/** Types every component shares. */
module Common {
  datatype Option<+T> = None | Some(value: T)

  /** One 16-bit Modbus register. */
  type Word = x: int | 0 <= x < 0x10000

  type Byte = x: int | 0 <= x < 256

  /** Names of canonical values: those the code itself mentions, and any other text. */
  datatype Name =
    | ImpEnergyTotal | ExpEnergyTotal
    | ActiveEnergyTotal | NetImpEnergyTotal | NetExpEnergyTotal
    | PfL1 | PfL2 | PfL3 | PfTotal
    | Other(text: string)

  /** A float as the pipeline sees it: an exact real, or one of the values `isfinite` rejects. */
  datatype Num = Fin(r: real) | NaN | Inf(negative: bool)

  /** What a deque of this maximum length holds after these appends. */
  function LastN<T>(n: nat, s: seq<T>): (r: seq<T>)
    ensures |r| == if |s| < n then |s| else n
  {
    if |s| <= n then s else s[|s| - n..]
  }

  function Append<T>(n: nat, s: seq<T>, x: T): seq<T> {
    LastN(n, s + [x])
  }

  lemma LastNAt<T>(n: nat, s: seq<T>, k: nat)
    requires k < |s| && k < n
    ensures LastN(n, s)[|LastN(n, s)| - 1 - k] == s[|s| - 1 - k]
  {
  }

  lemma AppendLastN<T>(n: nat, s: seq<T>, x: T)
    ensures Append(n, LastN(n, s), x) == LastN(n, s + [x])
  {
  }

  function Pow2(n: nat): (r: nat)
    ensures r >= 1
  {
    if n == 0 then 1 else 2 * Pow2(n - 1)
  }

  function Abs(r: real): real { if r < 0.0 then -r else r }

  /** x * scale * sign + offset in float arithmetic, rounding aside. */
  function Affine(x: Num, scale: real, sign: int, offset: real): Num {
    var k := scale * sign as real;
    match x
    case Fin(r) => Fin(r * k + offset)
    case NaN => NaN
    case Inf(neg) => if k == 0.0 then NaN else Inf(neg != (k < 0.0))
  }

  function DivideBy(x: Num, d: real): Num
    requires d != 0.0
  {
    match x
    case Fin(r) => Fin(r / d)
    case NaN => NaN
    case Inf(neg) => Inf(neg != (d < 0.0))
  }
}
