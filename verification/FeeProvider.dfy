/** Splitting a swap's fee into the regular and the extra part. JavaScript numbers are exact reals here. */
module FeeProvider {
  import opened Wrappers

  datatype OrderSide = Buy | Sell
  datatype SwapType = Submarine | ReverseSubmarine | Chain

  /** The configured percentages of a pair. */
  datatype PercentageFees = PercentageFees(submarine: real, reverse: real, chainBuy: real, chainSell: real)

  datatype Fees = Fees(percentageFee: int, percentageFeeRate: real, extraFee: Option<int>)

  function Ceil(x: real): int {
    -((-x).Floor)
  }

  /** `Math.round`: to the nearest integer, halves up. */
  function Round(x: real): int {
    (x + 0.5).Floor
  }

  /** `toFixed(2)`: halves away from zero. */
  function ToFixed2(x: real): real {
    if x < 0.0 then -(Round(-x * 100.0) as real / 100.0) else Round(x * 100.0) as real / 100.0
  }

  function AddPremium(fee: real, premium: Option<real>): real {
    match premium
    case None => fee
    case Some(p) => ToFixed2(fee + p / 100.0)
  }

  /** The combined rate, in steps of 0.01%; a negative extra percentage throws. */
  function TotalRate(base: real, extraPercentage: real): Option<real> {
    if extraPercentage < 0.0 then None
    else Some((Round(base * 10000.0) + Round(extraPercentage * 100.0)) as real / 10000.0)
  }

  function Percentage(fees: PercentageFees, side: OrderSide, kind: SwapType): real {
    match (kind, side)
    case (Submarine, _) => fees.submarine
    case (ReverseSubmarine, _) => fees.reverse
    case (Chain, Buy) => fees.chainBuy
    case (Chain, Sell) => fees.chainSell
  }

  /** The rate to calculate with; pairs that are not configured are free. */
  function PercentageFeeRate(
      configured: map<string, PercentageFees>, pair: string, side: OrderSide, kind: SwapType, premium: Option<real>)
    : real
  {
    if pair !in configured then 0.0
    else AddPremium(Percentage(configured[pair], side, kind), premium) / 100.0
  }

  function Charge(feeRate: real, amount: real, rate: real): real {
    feeRate * amount * rate
  }

  /** The extra fee on top of a regular charge when `combined` is charged in total. */
  function ExtraFee(charge: real, combined: real): int {
    Round((Ceil(combined) - Ceil(charge)) as real)
  }

  function FeesFor(feeRate: real, amount: real, rate: real, extraPercentage: Option<real>): Option<Fees> {
    var charge := Charge(feeRate, amount, rate);
    match extraPercentage
    case None => Some(Fees(Ceil(charge), feeRate, None))
    case Some(extra) =>
      match TotalRate(feeRate, extra)
      case None => None
      case Some(total) =>
        Some(Fees(Ceil(charge), feeRate, Some(ExtraFee(charge, Charge(total, amount, rate)))))
  }

  function GetFees(
      configured: map<string, PercentageFees>, pair: string, side: OrderSide, kind: SwapType, premium: Option<real>,
      amount: real, rate: real, extraPercentage: Option<real>)
    : Option<Fees>
  {
    FeesFor(PercentageFeeRate(configured, pair, side, kind, premium), amount, rate, extraPercentage)
  }

  // What rounding means

  /** The least integer at or above what a rate charges for an amount at an exchange rate. */
  predicate RoundedUp(n: int, feeRate: real, amount: real, rate: real) {
    n as real - 1.0 < feeRate * amount * rate <= n as real
  }

  /** The nearest integer, the upper one of two. */
  predicate Nearest(n: int, x: real) {
    n as real - 0.5 <= x < n as real + 0.5
  }

  lemma RoundedUpIff(feeRate: real, amount: real, rate: real, n: int)
    ensures RoundedUp(n, feeRate, amount, rate) <==> n == Ceil(Charge(feeRate, amount, rate))
  {}

  lemma RoundIsNearest(x: real, n: int)
    ensures Nearest(n, x) <==> n == Round(x)
  {}

  // Rounding

  predicate Whole(x: real) {
    x.Floor as real == x
  }

  lemma RoundOfInt(n: int)
    ensures Round(n as real) == n
  {
    var f := (n as real + 0.5).Floor;
    assert f as real <= n as real + 0.5 < f as real + 1.0;
    assert (f - n) as real <= 0.5 && (f - n) as real > -0.5;
  }

  lemma RoundOfWhole(x: real)
    requires Whole(x)
    ensures Round(x) as real == x
  {
    RoundOfInt(x.Floor);
  }

  lemma CeilBounds(x: real)
    ensures x <= Ceil(x) as real < x + 1.0
  {}

  lemma CeilIsMonotone(x: real, y: real)
    requires x <= y
    ensures Ceil(x) <= Ceil(y)
  {}

  lemma ScaleIsMonotone(x: real, y: real, a: real, r: real)
    requires x <= y && a >= 0.0 && r >= 0.0
    ensures Charge(x, a, r) <= Charge(y, a, r)
  {
    assert x * a <= y * a;
  }

  /** A premium always brings the percentage to whole hundredths. */
  lemma PremiumIsWhole(fee: real, premium: real)
    ensures Whole(AddPremium(fee, Some(premium)) * 100.0)
  {
    var x := fee + premium / 100.0;
    var n := if x < 0.0 then -Round(-x * 100.0) else Round(x * 100.0);
    assert AddPremium(fee, Some(premium)) * 100.0 == n as real;
  }

  // Theorems

  /**
   For all inputs, with and without an extra percentage: the regular fee is the rounded-up charge, the regular
   and the extra fee together are the rounded-up charge at the combined rate in steps of 0.01%, and only a
   negative extra percentage is refused.
   */
  lemma FeesAre(
      configured: map<string, PercentageFees>, pair: string, side: OrderSide, kind: SwapType, premium: Option<real>,
      amount: real, rate: real, extraPercentage: Option<real>, base: int, extra: int)
    requires extraPercentage.Some? ==>
               && Nearest(base, PercentageFeeRate(configured, pair, side, kind, premium) * 10000.0)
               && Nearest(extra, extraPercentage.value * 100.0)
    ensures var feeRate := PercentageFeeRate(configured, pair, side, kind, premium);
            var fees := GetFees(configured, pair, side, kind, premium, amount, rate, extraPercentage);
            && (fees.None? <==> extraPercentage.Some? && extraPercentage.value < 0.0)
            && (fees.Some? ==>
                  && fees.value.percentageFeeRate == feeRate
                  && RoundedUp(fees.value.percentageFee, feeRate, amount, rate)
                  && (fees.value.extraFee.Some? <==> extraPercentage.Some?)
                  && (extraPercentage.Some? ==>
                        RoundedUp(fees.value.percentageFee + fees.value.extraFee.value,
                                  (base + extra) as real / 10000.0, amount, rate)))
  {
    hide PercentageFeeRate, RoundedUp, Nearest, Ceil, Round, Charge;
    var feeRate := PercentageFeeRate(configured, pair, side, kind, premium);
    RoundedUpIff(feeRate, amount, rate, Ceil(Charge(feeRate, amount, rate)));
    if extraPercentage.Some? && extraPercentage.value >= 0.0 {
      RoundIsNearest(feeRate * 10000.0, base);
      RoundIsNearest(extraPercentage.value * 100.0, extra);
      var total := (base + extra) as real / 10000.0;
      assert TotalRate(feeRate, extraPercentage.value) == Some(total);
      SplitIsDifference(feeRate, total, amount, rate, extraPercentage.value);
      RoundedUpIff(total, amount, rate, Ceil(Charge(total, amount, rate)));
    }
  }

  /**
   The rate of every kind and side: the configured percentage, or nothing for other pairs; a premium in
   hundredths of a percent is added and the sum rounded to the nearest 0.01%, halves away from zero.
   */
  lemma RateIs(
      configured: map<string, PercentageFees>, pair: string, side: OrderSide, kind: SwapType, premium: Option<real>)
    ensures pair !in configured ==> PercentageFeeRate(configured, pair, side, kind, premium) == 0.0
    ensures pair in configured ==>
              var p := configured[pair];
              var percentage := if kind == Submarine then p.submarine
                                else if kind == ReverseSubmarine then p.reverse
                                else if side == Buy then p.chainBuy else p.chainSell;
              var rate := PercentageFeeRate(configured, pair, side, kind, premium);
              && (premium.None? ==> 100.0 * rate == percentage)
              && (premium.Some? ==>
                    var off := 100.0 * rate - (percentage + premium.value / 100.0);
                    && Whole(rate * 10000.0)
                    && -0.005 <= off <= 0.005
                    && (off == 0.005 ==> percentage + premium.value / 100.0 >= 0.0)
                    && (off == -0.005 ==> percentage + premium.value / 100.0 < 0.0))
  {
    if pair in configured && premium.Some? {
      PremiumRateQualifies(configured, pair, side, kind, premium.value);
      var x := Percentage(configured[pair], side, kind) + premium.value / 100.0;
      FixedIsNearest(x);
    }
  }

  lemma FixedIsNearest(x: real)
    ensures -0.005 <= ToFixed2(x) - x <= 0.005
    ensures ToFixed2(x) - x == 0.005 ==> x >= 0.0
    ensures ToFixed2(x) - x == -0.005 ==> x < 0.0
  {
    var y := if x < 0.0 then -x * 100.0 else x * 100.0;
    RoundIsNearest(y, Round(y));
  }

  /**
   For a base rate in whole steps of 0.01%: regular and extra fee add up to the rounded-up combined fee, the
   extra fee is never negative, and for an extra percentage with two decimals it misses the exact extra charge
   by less than one unit.
   */
  lemma FeesAddUp(feeRate: real, amount: real, rate: real, extra: real)
    requires Whole(feeRate * 10000.0) && amount >= 0.0 && rate >= 0.0 && extra >= 0.0
    ensures var fees := FeesFor(feeRate, amount, rate, Some(extra));
            && fees.Some? && fees.value.extraFee.Some?
            && RoundedUp(fees.value.percentageFee, feeRate, amount, rate)
            && RoundedUp(fees.value.percentageFee + fees.value.extraFee.value,
                         feeRate + Round(extra * 100.0) as real / 10000.0, amount, rate)
            && fees.value.extraFee.value >= 0
            && (Whole(extra * 100.0) ==>
                  -1.0 < fees.value.extraFee.value as real - extra / 100.0 * amount * rate < 1.0)
  {
    RoundOfWhole(feeRate * 10000.0);
    var added := Round(extra * 100.0) as real / 10000.0;
    var total := TotalRate(feeRate, extra).value;
    assert total == feeRate + added;
    RoundedUpIff(feeRate, amount, rate, Ceil(Charge(feeRate, amount, rate)));
    RoundedUpIff(feeRate + added, amount, rate, Ceil(Charge(total, amount, rate)));
    SplitIsDifference(feeRate, total, amount, rate, extra);
    ScaleIsMonotone(feeRate, total, amount, rate);
    CeilIsMonotone(Charge(feeRate, amount, rate), Charge(total, amount, rate));
    if Whole(extra * 100.0) {
      RoundOfWhole(extra * 100.0);
      assert total == feeRate + extra / 100.0;
      Distribute(feeRate, extra / 100.0, amount, rate);
      CeilBounds(Charge(feeRate, amount, rate));
      CeilBounds(Charge(total, amount, rate));
    }
  }

  lemma ExtraFeeIsDifference(charge: real, combined: real)
    ensures ExtraFee(charge, combined) == Ceil(combined) - Ceil(charge)
  {
    hide Ceil, Round;
    RoundOfInt(Ceil(combined) - Ceil(charge));
  }

  lemma SplitIsDifference(feeRate: real, total: real, amount: real, rate: real, extra: real)
    requires TotalRate(feeRate, extra) == Some(total)
    ensures FeesFor(feeRate, amount, rate, Some(extra))
         == Some(Fees(Ceil(Charge(feeRate, amount, rate)), feeRate,
                      Some(Ceil(Charge(total, amount, rate)) - Ceil(Charge(feeRate, amount, rate)))))
  {
    hide Ceil, Round, ExtraFee, TotalRate, Charge;
    ExtraFeeIsDifference(Charge(feeRate, amount, rate), Charge(total, amount, rate));
  }

  lemma Distribute(a: real, b: real, amount: real, rate: real)
    ensures Charge(a + b, amount, rate) == Charge(a, amount, rate) + Charge(b, amount, rate)
  {
    assert (a + b) * amount == a * amount + b * amount;
  }

  /** With a referral premium the base rate always qualifies, whatever was configured. */
  lemma PremiumRateQualifies(
      configured: map<string, PercentageFees>, pair: string, side: OrderSide, kind: SwapType, premium: real)
    ensures Whole(PercentageFeeRate(configured, pair, side, kind, Some(premium)) * 10000.0)
  {
    if pair in configured {
      var p := Percentage(configured[pair], side, kind);
      PremiumIsWhole(p, premium);
      assert PercentageFeeRate(configured, pair, side, kind, Some(premium)) * 10000.0
          == AddPremium(p, Some(premium)) * 100.0;
    }
  }

  /** So for a referral with a premium the split is sound for every pair, configured or not. */
  lemma FeesWithPremiumAddUp(
      configured: map<string, PercentageFees>, pair: string, side: OrderSide, kind: SwapType, premium: real,
      amount: real, rate: real, extra: real)
    requires amount >= 0.0 && rate >= 0.0 && extra >= 0.0
    ensures var feeRate := PercentageFeeRate(configured, pair, side, kind, Some(premium));
            var fees := GetFees(configured, pair, side, kind, Some(premium), amount, rate, Some(extra));
            && fees.Some? && fees.value.extraFee.Some? && fees.value.extraFee.value >= 0
            && RoundedUp(fees.value.percentageFee, feeRate, amount, rate)
            && RoundedUp(fees.value.percentageFee + fees.value.extraFee.value,
                         feeRate + Round(extra * 100.0) as real / 10000.0, amount, rate)
  {
    hide FeesFor, Ceil, RoundedUp, Round, Whole, PercentageFeeRate;
    PremiumRateQualifies(configured, pair, side, kind, premium);
    FeesAddUp(PercentageFeeRate(configured, pair, side, kind, Some(premium)), amount, rate, extra);
  }

  ghost predicate ExtraFeeNeverNegative(feeRate: real, extra: real)
    requires extra >= 0.0
  {
    forall amount: real, rate: real :: amount >= 0.0 && rate >= 0.0 ==>
      FeesFor(feeRate, amount, rate, Some(extra)).value.extraFee.value >= 0
  }

  /** For any base rate: the extra fee is never negative exactly if rounding did not lower the combined rate. */
  lemma ExtraFeeNeverNegativeIff(feeRate: real, extra: real)
    requires extra >= 0.0
    ensures ExtraFeeNeverNegative(feeRate, extra) <==> TotalRate(feeRate, extra).value >= feeRate
  {
    var total := TotalRate(feeRate, extra).value;
    if total >= feeRate {
      forall amount: real, rate: real | amount >= 0.0 && rate >= 0.0
        ensures FeesFor(feeRate, amount, rate, Some(extra)).value.extraFee.value >= 0
      {
        ScaleIsMonotone(feeRate, total, amount, rate);
        CeilIsMonotone(Charge(feeRate, amount, rate), Charge(total, amount, rate));
        SplitIsDifference(feeRate, total, amount, rate, extra);
      }
    } else {
      var amount := RatesShow(total, feeRate, 1.0);
      CeilBounds(Charge(total, amount, 1.0));
      CeilBounds(Charge(feeRate, amount, 1.0));
      SplitIsDifference(feeRate, total, amount, 1.0, extra);
      assert FeesFor(feeRate, amount, 1.0, Some(extra)).value.extraFee.value < 0;
    }
  }

  /** Two different rates differ by any given charge for some amount. */
  lemma RatesShow(low: real, high: real, gap: real) returns (amount: real)
    requires low < high && gap > 0.0
    ensures amount >= 0.0 && Charge(high, amount, 1.0) == Charge(low, amount, 1.0) + gap
  {
    amount := gap / (high - low);
    assert (high - low) * amount == gap;
    assert high * amount == low * amount + (high - low) * amount;
  }

  ghost predicate AlwaysAddsUp(feeRate: real, extra: real)
    requires extra >= 0.0
  {
    forall amount: real, rate: real :: amount >= 0.0 && rate >= 0.0 ==>
      var fees := FeesFor(feeRate, amount, rate, Some(extra)).value;
      RoundedUp(fees.percentageFee + fees.extraFee.value,
                feeRate + Round(extra * 100.0) as real / 10000.0, amount, rate)
  }

  /** The parts add up to the rounded-up combined fee for all amounts exactly if the base rate has whole steps. */
  lemma AlwaysAddsUpIff(feeRate: real, extra: real)
    requires extra >= 0.0
    ensures AlwaysAddsUp(feeRate, extra) <==> Whole(feeRate * 10000.0)
  {
    hide RoundedUp;
    var total := TotalRate(feeRate, extra).value;
    var exact := feeRate + Round(extra * 100.0) as real / 10000.0;
    if Whole(feeRate * 10000.0) {
      forall amount: real, rate: real | amount >= 0.0 && rate >= 0.0
        ensures var fees := FeesFor(feeRate, amount, rate, Some(extra)).value;
                RoundedUp(fees.percentageFee + fees.extraFee.value, exact, amount, rate)
      {
        FeesAddUp(feeRate, amount, rate, extra);
      }
    } else {
      OnlyWholeRatesStay(feeRate, extra);
      var amount := MismatchShows(feeRate, total, exact, extra);
    }
  }

  lemma MismatchShows(feeRate: real, total: real, exact: real, extra: real) returns (amount: real)
    requires TotalRate(feeRate, extra) == Some(total) && total != exact
    ensures amount >= 0.0
    ensures var fees := FeesFor(feeRate, amount, 1.0, Some(extra)).value;
            !RoundedUp(fees.percentageFee + fees.extraFee.value, exact, amount, 1.0)
  {
    hide RoundedUp, TotalRate, Charge;
    amount := RatesShow(if total < exact then total else exact, if total < exact then exact else total, 1.0);
    CeilBounds(Charge(total, amount, 1.0));
    CeilBounds(Charge(exact, amount, 1.0));
    SplitIsDifference(feeRate, total, amount, 1.0, extra);
    RoundedUpIff(exact, amount, 1.0, Ceil(Charge(total, amount, 1.0)));
  }

  lemma OnlyWholeRatesStay(feeRate: real, extra: real)
    requires extra >= 0.0 && !Whole(feeRate * 10000.0)
    ensures TotalRate(feeRate, extra).value != feeRate + Round(extra * 100.0) as real / 10000.0
  {}

  ghost predicate ExtraFeeAlwaysClose(feeRate: real, extra: real)
    requires extra >= 0.0
  {
    forall amount: real, rate: real :: amount >= 0.0 && rate >= 0.0 ==>
      -1.0 < FeesFor(feeRate, amount, rate, Some(extra)).value.extraFee.value as real
             - extra / 100.0 * amount * rate < 1.0
  }

  /** The extra fee is within one unit of the exact charge for all amounts exactly if rounding kept the rate. */
  lemma ExtraFeeAlwaysCloseIff(feeRate: real, extra: real)
    requires extra >= 0.0
    ensures ExtraFeeAlwaysClose(feeRate, extra) <==> TotalRate(feeRate, extra).value == feeRate + extra / 100.0
  {
    var total, exact := TotalRate(feeRate, extra).value, feeRate + extra / 100.0;
    if total == exact {
      forall amount: real, rate: real | amount >= 0.0 && rate >= 0.0
        ensures -1.0 < FeesFor(feeRate, amount, rate, Some(extra)).value.extraFee.value as real
                       - extra / 100.0 * amount * rate < 1.0
      {
        ExtraFeeDistance(feeRate, total, amount, rate, extra);
      }
    } else {
      var amount := RatesShow(if total < exact then total else exact, if total < exact then exact else total, 2.0);
      ExtraFeeDistance(feeRate, total, amount, 1.0, extra);
    }
  }

  /** The extra fee is within one unit of the charge that the rounded rates give. */
  lemma ExtraFeeDistance(feeRate: real, total: real, amount: real, rate: real, extra: real)
    requires TotalRate(feeRate, extra) == Some(total)
    ensures var shift := Charge(total, amount, rate) - Charge(feeRate + extra / 100.0, amount, rate);
            -1.0 < FeesFor(feeRate, amount, rate, Some(extra)).value.extraFee.value as real
                   - Charge(extra / 100.0, amount, rate) - shift < 1.0
  {
    SplitIsDifference(feeRate, total, amount, rate, extra);
    Distribute(feeRate, extra / 100.0, amount, rate);
    CeilBounds(Charge(feeRate, amount, rate));
    CeilBounds(Charge(total, amount, rate));
  }

  /** Every pair configured with 0.004%, without premium: the extra fee for nothing extra is negative. */
  lemma FinerRateGoesNegative(
      configured: map<string, PercentageFees>, pair: string, side: OrderSide, kind: SwapType)
    requires pair in configured && Percentage(configured[pair], side, kind) == 0.004
    ensures GetFees(configured, pair, side, kind, None, 100000.0, 1.0, Some(0.0))
         == Some(Fees(4, 0.00004, Some(-4)))
  {
    assert PercentageFeeRate(configured, pair, side, kind, None) == 0.00004;
    assert Ceil(0.00004 * 100000.0 * 1.0) == 4;
    assert TotalRate(0.00004, 0.0) == Some(0.0);
    assert Ceil(0.0 * 100000.0 * 1.0) == 0;
  }
}
