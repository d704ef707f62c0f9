/** Scalar values as the index and the filters see them: IEEE doubles with both
    zeros, the infinities and NaN kept apart, plus the 64-bit unsigned bound. */
module Numbers {

  const U64_MAX: int := 0xFFFF_FFFF_FFFF_FFFF
  const U32_MAX: int := 0xFFFF_FFFF

  type u64 = x: int | 0 <= x <= U64_MAX

  datatype Option<+T> = None | Some(value: T)

  /** A double. `NegZero` is the second zero: numerically equal to `Fin(0.0)`, different in its bits. */
  datatype Num = NegZero | Fin(r: real) | PosInf | NegInf | NaN

  predicate IsFinite(n: Num) {
    n.NegZero? || n.Fin?
  }

  predicate IsInfinite(n: Num) {
    n.PosInf? || n.NegInf?
  }

  function Real(n: Num): real
    requires IsFinite(n)
  {
    if n.NegZero? then 0.0 else n.r
  }

  /** The `<` of IEEE 754: false as soon as one side is NaN. */
  predicate IeeeLess(a: Num, b: Num) {
    if a.NaN? || b.NaN? then false
    else if IsFinite(a) && IsFinite(b) then Real(a) < Real(b)
    else (a.NegInf? && !b.NegInf?) || (b.PosInf? && !a.PosInf?)
  }

  /** SQL equality of DuckDB: the zeros are equal and NaN equals NaN. */
  predicate SqlEqual(a: Num, b: Num) {
    if IsFinite(a) && IsFinite(b) then Real(a) == Real(b) else a == b
  }

  /** SQL order of DuckDB: NaN is greater than every other value. */
  predicate SqlLess(a: Num, b: Num) {
    if a.NaN? then false
    else if b.NaN? then true
    else IeeeLess(a, b)
  }

  function Max(a: int, b: int): int {
    if a > b then a else b
  }

  function Min(a: int, b: int): int {
    if a < b then a else b
  }

  /** The number an unsigned column value stands for. */
  function OfNat(n: int): Num {
    Fin(n as real)
  }
}
