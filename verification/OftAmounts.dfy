/** The stored account of the OFT program and the amounts of a transfer: local and shared decimals, dust,
    the bridge's own fee, and what is charged, delivered and kept. */
module OftAmounts {
  import opened Numbers
  import opened Wrappers
  import opened TransferFees

  datatype OftType = Native | Adapter

  datatype OftStore = OftStore(
    key: Pubkey,
    oftType: OftType,
    ld2sdRate: u64,
    tokenMint: Pubkey,
    tokenEscrow: Pubkey,
    endpointProgram: Pubkey,
    tvlLd: u64,
    admin: Pubkey,
    defaultFeeBps: u16,
    paused: bool,
    pauser: Option<Pubkey>,
    unpauser: Option<Pubkey>)
  {
    function Ld2Sd(amountLd: u64): u64
      requires ld2sdRate > 0
    {
      QuotientBounds(amountLd, ld2sdRate);
      amountLd / ld2sdRate
    }

    /** `None` is the overflow panic. */
    function Sd2Ld(amountSd: u64): Option<u64> {
      MulNonNegative(amountSd, ld2sdRate);
      if amountSd * ld2sdRate > U64_MAX then None else Some(amountSd * ld2sdRate)
    }

    function RemoveDust(amountLd: u64): u64
      requires ld2sdRate > 0
    {
      QuotientAtLeast(amountLd, ld2sdRate, 0);
      amountLd - amountLd % ld2sdRate
    }
  }

  function GetPostFeeAmountLd(transferFee: Option<TransferFee>, amountLd: u64): Result<u64> {
    match transferFee
    case Some(fee) => CalculatePostFeeAmount(fee, amountLd).ToResult(InvalidArgument)
    case None => Ok(amountLd)
  }

  function GetPreFeeAmountLd(transferFee: Option<TransferFee>, amountLd: u64): Result<u64> {
    match transferFee
    case Some(fee) => CalculatePreFeeAmount(fee, amountLd).ToResult(InvalidArgument)
    case None => Ok(amountLd)
  }

  function EffectiveBps(defaultFeeBps: u16, feeBps: Option<u16>): u16 {
    match feeBps
    case Some(bps) => bps
    case None => defaultFeeBps
  }

  /** The bridge's fee; the final cast keeps the low 64 bits. */
  function CalculateOftFee(preFeeAmount: u64, defaultFeeBps: u16, feeBps: Option<u16>): u64 {
    var bps := EffectiveBps(defaultFeeBps, feeBps);
    if bps == 0 || preFeeAmount == 0 then 0
    else preFeeAmount * bps / ONE_IN_BASIS_POINTS % U64_SIZE
  }

  datatype Amounts = Amounts(sentLd: u64, receivedLd: u64, oftFeeLd: u64)

  function ComputeFeeAndAdjustAmount(
    amountLd: u64, store: OftStore, transferFee: Option<TransferFee>, feeBps: Option<u16>): Result<Amounts>
  {
    if store.oftType.Adapter? then
      var arriving :- GetPostFeeAmountLd(transferFee, amountLd);
      if store.ld2sdRate == 0 then Err(Panic) else
      var dusted := store.RemoveDust(arriving);
      var sent :- GetPreFeeAmountLd(transferFee, dusted);
      var oftFee := store.RemoveDust(CalculateOftFee(dusted, store.defaultFeeBps, feeBps));
      if dusted < oftFee then Err(Panic) else
      Ok(Amounts(sent, dusted - oftFee, oftFee))
    else
      if store.ld2sdRate == 0 then Err(Panic) else
      var sent := store.RemoveDust(amountLd);
      var oftFee := store.RemoveDust(CalculateOftFee(sent, store.defaultFeeBps, feeBps));
      if sent < oftFee then Err(Panic) else
      Ok(Amounts(sent, sent - oftFee, oftFee))
  }

  // ---- The settings under which the arithmetic is sound (kept by every run, see module Mesh) ----

  predicate FeeValid(transferFee: Option<TransferFee>) {
    transferFee.Some? ==> transferFee.value.Valid()
  }

  predicate SoundSettings(store: OftStore, transferFee: Option<TransferFee>, feeBps: Option<u16>) {
    && store.ld2sdRate >= 1
    && FeeValid(transferFee)
    && EffectiveBps(store.defaultFeeBps, feeBps) < ONE_IN_BASIS_POINTS
  }

  /** What is left of `amount` after the transfer fee of the mint. */
  ghost function Arrived(transferFee: Option<TransferFee>, amount: int): int
    requires FeeValid(transferFee)
  {
    if transferFee.Some? then Arriving(transferFee.value, amount) else amount
  }

  lemma ArrivedIsPostFee(transferFee: Option<TransferFee>, amount: u64)
    requires FeeValid(transferFee)
    ensures GetPostFeeAmountLd(transferFee, amount) == Ok(Arrived(transferFee, amount))
    ensures 0 <= Arrived(transferFee, amount) <= amount
  {
    if transferFee.Some? {
      PostFeeAmount(transferFee.value, amount);
    }
  }

  lemma ArrivedMonotone(transferFee: Option<TransferFee>, a: nat, b: nat)
    requires FeeValid(transferFee) && a <= b
    ensures Arrived(transferFee, a) <= Arrived(transferFee, b)
  {
    if transferFee.Some? {
      ArrivingMonotone(transferFee.value, a, b);
    }
  }

  /** The program's pre-fee amount for a target that does arrive from `amount`: it exists, costs no more
      than `amount`, and yields the target exactly. */
  lemma PreFeeOfArrived(transferFee: Option<TransferFee>, amount: u64, target: u64)
    requires FeeValid(transferFee)
    requires target <= Arrived(transferFee, amount)
    ensures GetPreFeeAmountLd(transferFee, target).Ok?
    ensures var sent := GetPreFeeAmountLd(transferFee, target).value;
            && sent <= amount
            && Arrived(transferFee, sent) == target
  {
    if transferFee.Some? {
      PostFeeAmount(transferFee.value, amount);
      ArrivedIsInvertible(transferFee.value, amount, target);
      FeeInversion(transferFee.value, target);
      PostFeeAmount(transferFee.value, CalculatePreFeeAmount(transferFee.value, target).value);
    }
  }

  // ---- Closed forms ----

  /** Whole shared units that `amountLd` is worth to the bridge. */
  ghost function SharedUnits(amountLd: u64, store: OftStore, transferFee: Option<TransferFee>): nat
    requires store.ld2sdRate >= 1 && FeeValid(transferFee)
  {
    var counted := if store.oftType.Adapter? then Arrived(transferFee, amountLd) else amountLd;
    ArrivedIsPostFee(transferFee, amountLd);
    QuotientBounds(counted, store.ld2sdRate);
    counted / store.ld2sdRate
  }

  lemma RemoveDustIsWholeUnits(store: OftStore, amountLd: u64)
    requires store.ld2sdRate >= 1
    ensures store.RemoveDust(amountLd) == amountLd / store.ld2sdRate * store.ld2sdRate
  {
  }

  /** Taking the fee in local decimals and dusting it is taking the fee in shared units. */
  lemma DustedFee(units: nat, rate: nat, bps: nat)
    requires rate >= 1
    ensures units * rate * bps / 10_000 / rate == units * bps / 10_000
  {
    var q := units * bps / 10_000;
    var n := units * rate * bps;
    assert n == units * bps * rate;
    assert q * 10_000 <= units * bps < (q + 1) * 10_000;
    MulMonotone(q * 10_000, units * bps, rate);
    MulMonotone(units * bps + 1, (q + 1) * 10_000, rate);
    assert (units * bps + 1) * rate == n + rate;
    QuotientAtLeast(n, 10_000, q * rate);
    QuotientAtLeast(n, 10_000, (q + 1) * rate);
    assert q * rate * 10_000 == q * 10_000 * rate;
    assert (q + 1) * rate * 10_000 == (q + 1) * 10_000 * rate;
    QuotientUnique(n / 10_000, rate, q);
  }

  lemma FeeBelowUnits(units: nat, bps: nat)
    requires bps < 10_000
    ensures 0 <= units * bps / 10_000 <= units
    ensures units > 0 ==> units * bps / 10_000 < units
  {
    MulNonNegative(units, bps);
    assert units * bps <= units * 10_000;
    if units > 0 {
      assert units * bps < units * 10_000;
    }
  }

  lemma ScaleMonotone(rate: nat, a: int, b: int)
    requires a <= b
    ensures rate * a <= rate * b
  {
    MulMonotone(a, b, rate);
  }

  /** A whole number of shared units survives the conversion to shared decimals and back. */
  lemma WholeUnitsRoundTrip(store: OftStore, units: nat, amount: u64)
    requires store.ld2sdRate >= 1 && amount == store.ld2sdRate * units
    ensures store.Ld2Sd(amount) == units
    ensures units <= U64_MAX && store.Sd2Ld(units) == Some(amount)
    ensures amount % store.ld2sdRate == 0
  {
    MultipleDivides(units, store.ld2sdRate);
    QuotientBounds(amount, store.ld2sdRate);
  }

  lemma SplitProduct(rate: nat, k: nat, fee: nat)
    requires fee <= k
    ensures 0 <= rate * fee <= rate * k
    ensures rate * (k - fee) == rate * k - rate * fee
  {
    MulNonNegative(rate, k - fee);
  }

  lemma OftFeeClosedForm(amount: u64, units: nat, store: OftStore, feeBps: Option<u16>)
    requires store.ld2sdRate >= 1 && amount == units * store.ld2sdRate
    requires EffectiveBps(store.defaultFeeBps, feeBps) < 10_000
    ensures var bps := EffectiveBps(store.defaultFeeBps, feeBps);
            store.RemoveDust(CalculateOftFee(amount, store.defaultFeeBps, feeBps))
            == store.ld2sdRate * (units * bps / 10_000)
  {
    var rate, bps := store.ld2sdRate, EffectiveBps(store.defaultFeeBps, feeBps);
    FeeBelowUnits(amount, bps);
    assert CalculateOftFee(amount, store.defaultFeeBps, feeBps) == amount * bps / 10_000;
    RemoveDustIsWholeUnits(store, amount * bps / 10_000);
    DustedFee(units, rate, bps);
  }

  /** The whole outcome of the fee computation. With `k` whole shared units and `bps` the peer's own fee if it
      has one, otherwise the default: it never fails; the fee is `floor(k * bps / 10000)` shared units whatever
      the local decimals; the rest is received; the charge is within the request, and after the mint's fee
      exactly the dusted amount arrives. */
  lemma AmountsClosedForm(amountLd: u64, store: OftStore, transferFee: Option<TransferFee>, feeBps: Option<u16>)
    requires SoundSettings(store, transferFee, feeBps)
    ensures var k := SharedUnits(amountLd, store, transferFee);
            var bps := if feeBps.Some? then feeBps.value else store.defaultFeeBps;
            var fee := k * bps / 10_000;
            var r := ComputeFeeAndAdjustAmount(amountLd, store, transferFee, feeBps);
            && r.Ok?
            && 0 <= fee <= k
            && (k > 0 ==> fee < k)
            && r.value.oftFeeLd == store.ld2sdRate * fee
            && r.value.receivedLd == store.ld2sdRate * (k - fee)
            && r.value.receivedLd + r.value.oftFeeLd == store.ld2sdRate * k
            && r.value.sentLd <= amountLd
            && (store.oftType.Adapter? ==>
                  && Arrived(transferFee, r.value.sentLd) == store.ld2sdRate * k
                  && Ok(r.value.sentLd) == GetPreFeeAmountLd(transferFee, store.ld2sdRate * k))
            && (store.oftType.Native? ==> r.value.sentLd == store.ld2sdRate * k)
  {
    var rate, bps := store.ld2sdRate, EffectiveBps(store.defaultFeeBps, feeBps);
    var k := SharedUnits(amountLd, store, transferFee);
    ArrivedIsPostFee(transferFee, amountLd);
    var counted := if store.oftType.Adapter? then Arrived(transferFee, amountLd) else amountLd;
    RemoveDustIsWholeUnits(store, counted);
    var dusted := store.RemoveDust(counted);
    assert dusted == rate * k;
    OftFeeClosedForm(dusted, k, store, feeBps);
    FeeBelowUnits(k, bps);
    SplitProduct(rate, k, k * bps / 10_000);
    if store.oftType.Adapter? {
      PreFeeOfArrived(transferFee, amountLd, dusted);
    }
  }

  // ---- Consequences for the sender and the recipient ----

  /** The sender is never charged more than requested, and on the adapter path the inversion cannot fail. */
  lemma NeverOvercharged(amountLd: u64, store: OftStore, transferFee: Option<TransferFee>, feeBps: Option<u16>)
    requires SoundSettings(store, transferFee, feeBps)
    ensures ComputeFeeAndAdjustAmount(amountLd, store, transferFee, feeBps).Ok?
    ensures ComputeFeeAndAdjustAmount(amountLd, store, transferFee, feeBps).value.sentLd <= amountLd
  {
    AmountsClosedForm(amountLd, store, transferFee, feeBps);
  }

  /** Nothing is lost on the wire: what is received is a whole number of shared units, so converting it to
      shared decimals and back is the identity, and a nonzero dusted amount delivers at least one unit. */
  lemma NoValueLostOnTheWire(
    amountLd: u64, store: OftStore, transferFee: Option<TransferFee>, feeBps: Option<u16>)
    requires SoundSettings(store, transferFee, feeBps)
    ensures var r := ComputeFeeAndAdjustAmount(amountLd, store, transferFee, feeBps);
            && r.Ok?
            && store.Sd2Ld(store.Ld2Sd(r.value.receivedLd)) == Some(r.value.receivedLd)
            && r.value.receivedLd % store.ld2sdRate == 0
            && (SharedUnits(amountLd, store, transferFee) > 0 ==> store.Ld2Sd(r.value.receivedLd) >= 1)
  {
    AmountsClosedForm(amountLd, store, transferFee, feeBps);
    var k := SharedUnits(amountLd, store, transferFee);
    var fee := k * EffectiveBps(store.defaultFeeBps, feeBps) / 10_000;
    WholeUnitsRoundTrip(store, k - fee, ComputeFeeAndAdjustAmount(amountLd, store, transferFee, feeBps).value.receivedLd);
  }

  /** Nothing is created or lost in the split: what the bridge takes in is what is received plus its fee. */
  lemma AmountsBalance(amountLd: u64, store: OftStore, transferFee: Option<TransferFee>, feeBps: Option<u16>)
    requires SoundSettings(store, transferFee, feeBps)
    ensures var r := ComputeFeeAndAdjustAmount(amountLd, store, transferFee, feeBps);
            && r.Ok?
            && r.value.receivedLd % store.ld2sdRate == 0
            && r.value.receivedLd + r.value.oftFeeLd
               == (if store.oftType.Adapter? then Arrived(transferFee, r.value.sentLd) else r.value.sentLd)
  {
    AmountsClosedForm(amountLd, store, transferFee, feeBps);
    NoValueLostOnTheWire(amountLd, store, transferFee, feeBps);
  }

  /** Feeding the charged amount back in changes nothing, and no smaller request has the same outcome. */
  lemma AdjustmentIsIdempotent(
    amountLd: u64, store: OftStore, transferFee: Option<TransferFee>, feeBps: Option<u16>)
    requires SoundSettings(store, transferFee, feeBps)
    ensures var r := ComputeFeeAndAdjustAmount(amountLd, store, transferFee, feeBps);
            && r.Ok?
            && ComputeFeeAndAdjustAmount(r.value.sentLd, store, transferFee, feeBps) == r
            && forall other: u64 ::
                 ComputeFeeAndAdjustAmount(other, store, transferFee, feeBps) == r ==> r.value.sentLd <= other
  {
    AmountsClosedForm(amountLd, store, transferFee, feeBps);
    var r := ComputeFeeAndAdjustAmount(amountLd, store, transferFee, feeBps);
    var k := SharedUnits(amountLd, store, transferFee);
    MultipleDivides(k, store.ld2sdRate);
    assert SharedUnits(r.value.sentLd, store, transferFee) == k;
    AmountsClosedForm(r.value.sentLd, store, transferFee, feeBps);
    forall other: u64 | ComputeFeeAndAdjustAmount(other, store, transferFee, feeBps) == r
      ensures r.value.sentLd <= other
    {
      AmountsClosedForm(other, store, transferFee, feeBps);
    }
  }

  /** Units net of fee never decrease as units grow. */
  lemma NetUnitsMonotone(j: nat, k: nat, bps: nat)
    requires j <= k && bps < 10_000
    ensures j - j * bps / 10_000 <= k - k * bps / 10_000
  {
    var d := k - j;
    assert k * bps == j * bps + d * bps;
    MulNonNegative(d, bps);
    assert d * bps <= d * 10_000;
    QuotientMonotone(k * bps, j * bps + d * 10_000, 10_000);
    assert (j * bps + d * 10_000) / 10_000 == j * bps / 10_000 + d;
  }

  /** A larger request is charged no less and delivers no less. */
  lemma AmountsMonotone(
    a: u64, b: u64, store: OftStore, transferFee: Option<TransferFee>, feeBps: Option<u16>)
    requires SoundSettings(store, transferFee, feeBps)
    requires a <= b
    ensures var ra := ComputeFeeAndAdjustAmount(a, store, transferFee, feeBps);
            var rb := ComputeFeeAndAdjustAmount(b, store, transferFee, feeBps);
            && ra.Ok? && rb.Ok?
            && ra.value.sentLd <= rb.value.sentLd
            && ra.value.receivedLd <= rb.value.receivedLd
  {
    AmountsClosedForm(a, store, transferFee, feeBps);
    AmountsClosedForm(b, store, transferFee, feeBps);
    var rate, bps := store.ld2sdRate, EffectiveBps(store.defaultFeeBps, feeBps);
    var j, k := SharedUnits(a, store, transferFee), SharedUnits(b, store, transferFee);
    assert j <= k by {
      ArrivedMonotone(transferFee, a, b);
      QuotientMonotone(Arrived(transferFee, a), Arrived(transferFee, b), rate);
      QuotientMonotone(a, b, rate);
    }
    NetUnitsMonotone(j, k, bps);
    ScaleMonotone(rate, j - j * bps / 10_000, k - k * bps / 10_000);
    ScaleMonotone(rate, j, k);
    if store.oftType.Adapter? {
      var sentB := ComputeFeeAndAdjustAmount(b, store, transferFee, feeBps).value.sentLd;
      PreFeeOfArrived(transferFee, sentB, rate * j);
    }
  }
}
