/** Conversion of computed prices to quota, saturating at the 32-bit range. */
module QuotaMath {
  import opened Prelude

  const MAX_QUOTA := 0x7FFF_FFFF
  const MIN_QUOTA := -0x8000_0000

  datatype ClampKind = Overflow | Underflow | NotANumber

  /** int(value): truncation toward zero */
  function Truncate(x: real): int {
    if x >= 0.0 then x.Floor else -((-x).Floor)
  }

  /** math.Round on a finite number: half away from zero */
  function Round(x: real): int {
    if x >= 0.0 then (x + 0.5).Floor else -((0.5 - x).Floor)
  }

  /** math.Round */
  function RoundFloat(v: Float): Float {
    match v
    case Fin(x) => Fin(Round(x) as real)
    case _ => v
  }

  function Saturate(v: Float): (int, Option<ClampKind>) {
    match v
    case NaN => (0, Some(NotANumber))
    case PosInf => (MAX_QUOTA, Some(Overflow))
    case NegInf => (MIN_QUOTA, Some(Underflow))
    case Fin(x) =>
      if x >= MAX_QUOTA as real then (MAX_QUOTA, Some(Overflow))
      else if x <= MIN_QUOTA as real then (MIN_QUOTA, Some(Underflow))
      else (Truncate(x), None)
  }

  function Strict(r: (int, Option<ClampKind>)): Option<int> {
    if r.1.Some? then None else Some(r.0)
  }

  function QuotaFromFloat(v: Float): int { Saturate(v).0 }

  function QuotaRound(v: Float): int { Saturate(RoundFloat(v)).0 }

  /** The order of the extended reals; NaN is comparable to nothing. */
  predicate AtMost(a: Float, b: Float) {
    a != NaN && b != NaN && (a == NegInf || b == PosInf || (a.Fin? && b.Fin? && a.x <= b.x))
  }

  /** A conversion never leaves the 32-bit range, so a charge never turns into a credit, and
      it reports a clamp exactly when the truncated price was not used. */
  lemma SaturationIsSafe(v: Float)
    ensures MIN_QUOTA <= QuotaFromFloat(v) <= MAX_QUOTA
    ensures Saturate(v).1.None? <==> v.Fin? && MIN_QUOTA as real < v.x < MAX_QUOTA as real
    ensures Saturate(v).1.None? ==> QuotaFromFloat(v) == Truncate(v.x)
    ensures Saturate(v).1.None? && v.x >= 0.0 ==> QuotaFromFloat(v) as real <= v.x < QuotaFromFloat(v) as real + 1.0
    ensures Saturate(v).1.None? && v.x <= 0.0 ==> QuotaFromFloat(v) as real - 1.0 < v.x <= QuotaFromFloat(v) as real
    ensures v.PosInf? || (v.Fin? && v.x >= 2147483647.0) ==> QuotaFromFloat(v) == 2147483647
    ensures v.NegInf? || (v.Fin? && v.x <= -2147483648.0) ==> QuotaFromFloat(v) == -2147483648
    ensures v.NaN? ==> QuotaFromFloat(v) == 0
    ensures AtMost(Fin(0.0), v) ==> QuotaFromFloat(v) >= 0
    ensures AtMost(v, Fin(0.0)) ==> QuotaFromFloat(v) <= 0
    ensures Strict(Saturate(v)).Some? ==> Strict(Saturate(v)).value == QuotaFromFloat(v)
  {
  }

  /** Truncation goes toward zero by less than one. */
  lemma TruncateIsClose(x: real)
    ensures x >= 0.0 ==> Truncate(x) as real <= x < Truncate(x) as real + 1.0
    ensures x <= 0.0 ==> Truncate(x) as real - 1.0 < x <= Truncate(x) as real <= 0.0
  {
  }

  /** Rounding goes to a nearest integer, and from the middle away from zero. */
  lemma RoundIsNearest(x: real)
    ensures -0.5 <= Round(x) as real - x <= 0.5
    ensures Round(x) as real - x == -0.5 ==> x < 0.0
    ensures Round(x) as real - x == 0.5 ==> x > 0.0
  {
  }

  lemma TruncateMonotone(x: real, y: real)
    requires x <= y
    ensures Truncate(x) <= Truncate(y)
  {
  }

  /** A higher price never gives a lower quota, across both clamps. */
  lemma QuotaMonotone(a: Float, b: Float)
    requires AtMost(a, b)
    ensures QuotaFromFloat(a) <= QuotaFromFloat(b)
  {
    SaturationIsSafe(a);
    SaturationIsSafe(b);
    if a.Fin? && b.Fin? { TruncateMonotone(a.x, b.x); }
  }

  /** Rounding stays within a half and is symmetric: a refund undoes the charge of the same amount. */
  lemma RoundIsSymmetric(x: real)
    requires MIN_QUOTA as real + 1.0 < x < MAX_QUOTA as real - 1.0
    ensures QuotaRound(Fin(-x)) == -QuotaRound(Fin(x))
    ensures -0.5 <= QuotaRound(Fin(x)) as real - x <= 0.5
  {
    var r := RoundFloat(Fin(x)).x;
    assert -0.5 <= r - x <= 0.5;
    assert RoundFloat(Fin(-x)).x == -r;
    assert Truncate(r) as real == r;
    assert Truncate(-r) == -Truncate(r);
  }
}
