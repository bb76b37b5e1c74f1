/** Token-2022 transfer fees: the fee the token program withholds on a transfer, and the program's own
    inverse, which finds the amount to transfer so that a given amount arrives. */
module TransferFees {
  import opened Numbers
  import opened Wrappers

  const ONE_IN_BASIS_POINTS := 10_000

  datatype TransferFee = TransferFee(maximumFee: u64, basisPoints: u16) {
    /** The token program accepts no fee above 100 percent. */
    predicate Valid() {
      basisPoints <= ONE_IN_BASIS_POINTS
    }
  }

  /** Rounding-up division over u128, with its three overflow exits. */
  function CeilDiv(numerator: u128, denominator: u128): Option<u128> {
    if numerator + denominator > U128_MAX || numerator + denominator < 1 || denominator == 0 then
      None
    else
      QuotientBounds(numerator + denominator - 1, denominator);
      Some((numerator + denominator - 1) / denominator)
  }

  /** The fee withheld by the token program, as the Token-2022 extension defines it. */
  function CalculateFee(fee: TransferFee, preFeeAmount: u64): Option<u64> {
    if fee.basisPoints == 0 || preFeeAmount == 0 then
      Some(0)
    else
      ProductBound(preFeeAmount, fee.basisPoints, U64_MAX, 0xffff);
      match CeilDiv(preFeeAmount * fee.basisPoints, ONE_IN_BASIS_POINTS)
      case None => None
      case Some(rawFee) => if rawFee > U64_MAX then None else Some(Min(rawFee, fee.maximumFee))
  }

  function CalculatePostFeeAmount(fee: TransferFee, preFeeAmount: u64): Option<u64> {
    match CalculateFee(fee, preFeeAmount)
    case None => None
    case Some(withheld) => if withheld > preFeeAmount then None else Some(preFeeAmount - withheld)
  }

  function CheckedAdd(x: u64, y: u64): Option<u64> {
    if x + y > U64_MAX then None else Some(x + y)
  }

  /** The program's inverse of `CalculatePostFeeAmount`. */
  function CalculatePreFeeAmount(fee: TransferFee, postFeeAmount: u64): Option<u64> {
    if fee.basisPoints == 0 then
      Some(postFeeAmount)
    else if postFeeAmount == 0 then
      Some(0)
    else if fee.basisPoints == ONE_IN_BASIS_POINTS then
      CheckedAdd(fee.maximumFee, postFeeAmount)
    else if fee.basisPoints > ONE_IN_BASIS_POINTS then
      None
    else
      match CeilDiv(postFeeAmount * ONE_IN_BASIS_POINTS, ONE_IN_BASIS_POINTS - fee.basisPoints)
      case None => None
      case Some(raw) =>
        if raw < postFeeAmount then None
        else if raw - postFeeAmount >= fee.maximumFee then CheckedAdd(postFeeAmount, fee.maximumFee)
        else if raw > U64_MAX then None
        else Some(raw)
  }

  // ---- What arrives, in closed form ----

  /** What is left of `amount` after a proportional fee rounded up and never above the maximum. */
  ghost function Arriving(fee: TransferFee, amount: int): int
    requires fee.Valid()
  {
    Max(amount * (ONE_IN_BASIS_POINTS - fee.basisPoints) / ONE_IN_BASIS_POINTS, amount - fee.maximumFee)
  }

  /** Rounding the fee up is rounding the remainder down. */
  lemma CeilIsComplement(amount: nat, bps: nat)
    ensures amount - (amount * bps + 9_999) / 10_000 == amount * (10_000 - bps) / 10_000
  {
    var c := (amount * bps + 9_999) / 10_000;
    assert amount * (10_000 - bps) == amount * 10_000 - amount * bps;
    QuotientUnique(amount * (10_000 - bps), 10_000, amount - c);
  }

  /** A valid fee can always be charged, and leaves the closed-form amount. */
  lemma PostFeeAmount(fee: TransferFee, amount: u64)
    requires fee.Valid()
    ensures CalculatePostFeeAmount(fee, amount) == Some(Arriving(fee, amount))
    ensures 0 <= Arriving(fee, amount) <= amount
  {
    CeilIsComplement(amount, fee.basisPoints);
    var kept := amount * (10_000 - fee.basisPoints);
    MulNonNegative(amount, 10_000 - fee.basisPoints);
    assert kept <= amount * 10_000 by {
      MulNonNegative(amount, fee.basisPoints);
      assert kept == amount * 10_000 - amount * fee.basisPoints;
    }
    MulNonNegative(amount, fee.basisPoints);
  }

  lemma ArrivingMonotone(fee: TransferFee, a: nat, b: nat)
    requires fee.Valid() && a <= b
    ensures Arriving(fee, a) <= Arriving(fee, b)
  {
    var d := 10_000 - fee.basisPoints;
    MulMonotone(a, b, d);
    QuotientMonotone(a * d, b * d, 10_000);
  }

  // ---- The inverse ----

  /** `p` is the least amount from which at least `target` arrives. */
  ghost predicate IsLeastSource(fee: TransferFee, p: int, target: int)
    requires fee.Valid()
  {
    && Arriving(fee, p) >= target
    && forall q: nat :: q < p ==> Arriving(fee, q) < target
  }

  /** At the uncapped quotient, exactly the target arrives. */
  lemma UncappedSource(bps: nat, x: nat, raw: nat)
    requires 0 < bps < 10_000
    requires raw == (x * 10_000 + (10_000 - bps) - 1) / (10_000 - bps)
    ensures raw * (10_000 - bps) / 10_000 == x
    ensures raw >= x
  {
    var d := 10_000 - bps;
    assert raw * d <= x * 10_000 + d - 1 < (raw + 1) * d;
    assert (raw + 1) * d == raw * d + d;
    QuotientUnique(raw * d, 10_000, x);
    QuotientAtLeast(x * 10_000 + d - 1, d, x);
    assert x * d <= x * 10_000;
  }

  /** Below it, too little does. */
  lemma BelowUncappedSource(bps: nat, x: nat, raw: nat, q: nat)
    requires 0 < bps < 10_000
    requires raw == (x * 10_000 + (10_000 - bps) - 1) / (10_000 - bps)
    requires q < raw
    ensures q * (10_000 - bps) / 10_000 < x
  {
    var d := 10_000 - bps;
    assert raw * d <= x * 10_000 + d - 1;
    MulMonotone(q, raw - 1, d);
    assert (raw - 1) * d == raw * d - d;
    QuotientAtLeast(q * d, 10_000, x);
  }

  /** Without the u64 bound the inverse would always be `target` plus the smaller of the two fees. */
  ghost function IdealSource(fee: TransferFee, target: nat): nat
    requires fee.Valid()
  {
    if fee.basisPoints == 0 || target == 0 then target
    else if fee.basisPoints == 10_000 then target + fee.maximumFee
    else
      var d := 10_000 - fee.basisPoints;
      var raw := (target * 10_000 + d - 1) / d;
      Min(target + fee.maximumFee, raw)
  }

  lemma FreeSourceIsLeast(fee: TransferFee, target: nat)
    requires fee.basisPoints == 0
    ensures IsLeastSource(fee, target, target) && Arriving(fee, target) == target
  {
    forall q: int
      ensures Arriving(fee, q) == q
    {
      assert q * (10_000 - 0) / 10_000 == q;
    }
  }

  lemma WholeFeeSourceIsLeast(fee: TransferFee, target: nat)
    requires fee.basisPoints == 10_000 && target > 0
    ensures IsLeastSource(fee, target + fee.maximumFee, target) && Arriving(fee, target + fee.maximumFee) == target
  {
    forall q: int
      ensures Arriving(fee, q) == Max(0, q - fee.maximumFee)
    {
      assert q * (10_000 - 10_000) / 10_000 == 0;
    }
  }

  lemma PartialFeeSourceIsLeast(fee: TransferFee, target: nat)
    requires 0 < fee.basisPoints < 10_000 && target > 0
    ensures IsLeastSource(fee, IdealSource(fee, target), target)
    ensures Arriving(fee, IdealSource(fee, target)) == target
  {
    var p, d := IdealSource(fee, target), 10_000 - fee.basisPoints;
    var raw := (target * 10_000 + d - 1) / d;
    UncappedSource(fee.basisPoints, target, raw);
    MulMonotone(p, raw, d);
    QuotientMonotone(p * d, raw * d, 10_000);
    forall q: nat | q < p
      ensures Arriving(fee, q) < target
    {
      BelowUncappedSource(fee.basisPoints, target, raw, q);
    }
  }

  lemma IdealSourceIsLeast(fee: TransferFee, target: nat)
    requires fee.Valid()
    ensures IsLeastSource(fee, IdealSource(fee, target), target)
    ensures Arriving(fee, IdealSource(fee, target)) == target
  {
    hide Arriving, IsLeastSource;
    if fee.basisPoints == 0 {
      FreeSourceIsLeast(fee, target);
    } else if target == 0 {
      ZeroSourceIsLeast(fee);
    } else if fee.basisPoints == 10_000 {
      WholeFeeSourceIsLeast(fee, target);
    } else {
      PartialFeeSourceIsLeast(fee, target);
    }
  }

  lemma ZeroSourceIsLeast(fee: TransferFee)
    requires fee.Valid()
    ensures IsLeastSource(fee, 0, 0) && Arriving(fee, 0) == 0
  {
  }

  /** The code computes exactly that source, and gives up exactly when it does not fit in 64 bits. */
  lemma PreFeeIsIdealSource(fee: TransferFee, target: u64)
    requires fee.Valid()
    ensures CalculatePreFeeAmount(fee, target) ==
            if IdealSource(fee, target) <= U64_MAX then Some(IdealSource(fee, target)) else None
  {
    if 0 < fee.basisPoints < 10_000 && target > 0 {
      var d := 10_000 - fee.basisPoints;
      var raw := (target * 10_000 + d - 1) / d;
      UncappedSource(fee.basisPoints, target, raw);
    }
  }

  /** Fee inversion is exact, minimal and complete: a result yields exactly the target and nothing smaller
      yields as much; no result means that no 64-bit amount yields as much. */
  lemma FeeInversion(fee: TransferFee, target: u64)
    requires fee.Valid()
    ensures match CalculatePreFeeAmount(fee, target)
            case Some(p) =>
              && CalculatePostFeeAmount(fee, p) == Some(target)
              && (forall q: u64 :: q < p ==> CalculatePostFeeAmount(fee, q).Some?
                                             && CalculatePostFeeAmount(fee, q).value < target)
            case None =>
              forall q: u64 :: CalculatePostFeeAmount(fee, q).Some? && CalculatePostFeeAmount(fee, q).value < target
  {
    PreFeeIsIdealSource(fee, target);
    IdealSourceIsLeast(fee, target);
    var p := IdealSource(fee, target);
    if p <= U64_MAX {
      PostFeeAmount(fee, p);
    }
    forall q: u64 | q < p
      ensures CalculatePostFeeAmount(fee, q).Some? && CalculatePostFeeAmount(fee, q).value < target
    {
      PostFeeAmount(fee, q);
    }
  }

  /** Whatever arrives from some amount can be inverted, at no greater cost. */
  lemma ArrivedIsInvertible(fee: TransferFee, amount: u64, target: u64)
    requires fee.Valid()
    requires CalculatePostFeeAmount(fee, amount).Some? && target <= CalculatePostFeeAmount(fee, amount).value
    ensures CalculatePreFeeAmount(fee, target).Some? && CalculatePreFeeAmount(fee, target).value <= amount
  {
    FeeInversion(fee, target);
  }
}
