/**
 * The valuation transform: one row of derived metrics per stored bond, given the
 * market snapshot. Every number is an exact real; a metric JavaScript would compute as
 * `NaN` or `Infinity` (an unset input, a zero denominator) is `None`.
 */
module Valuation {
  import opened Wrappers
  import opened JsMath
  import opened Schemas

  /** One output row: the bond's own fields followed by the derived metrics. */
  datatype Row = Row(
    symbol: string,
    isin: Option<string>,
    issuePrice: Option<real>,
    askPrice: Option<real>,
    tradedVolumeValue: Option<real>,
    maturityDate: int,
    yearsToMaturity: Option<real>,
    interestPayable: real,
    interestValue: Option<real>,
    noOfFutureInterestPayments: Option<int>,
    totalRemainingInterest: Option<real>,
    presentValueDividend: Option<real>,
    fairValue: Option<real>,
    discount: Option<real>,
    discountCmp: Option<real>)

  /** Reading the snapshot failed because there is none. */
  datatype ValuationError = NoSnapshot

  /** The row carries the bond's own fields unchanged. */
  predicate CarriesBond(row: Row, sgb: Sgb) {
    && row.symbol == sgb.symbol
    && row.isin == sgb.isin
    && row.issuePrice == sgb.issuePrice
    && row.askPrice == sgb.askPrice
    && row.tradedVolumeValue == sgb.tradedVolumeValue
    && row.maturityDate == sgb.maturityDate
    && row.yearsToMaturity == sgb.yearsToMaturity
    && row.interestPayable == sgb.interestPayable
  }

  /** The semiannual coupon: half a year's interest at `interestPayable` percent of the issue price. */
  function Coupon(issuePrice: Option<real>, interestPayable: real): (c: Option<real>)
    ensures c.Some? <==> issuePrice.Some?
    ensures c.Some? ==> 2.0 * c.value == issuePrice.value * (interestPayable / 100.0)
  {
    match issuePrice
    case None => None
    case Some(p) => Some(p * interestPayable / 200.0)
  }

  /**
   * The number of remaining semiannual coupons: twice the rounded years to maturity.
   * It is always even, zero exactly for years in [-0.5, 0.5), and not clamped at zero
   * once the bond has matured.
   */
  function Periods(yearsToMaturity: Option<real>): (n: Option<int>)
    ensures n.Some? <==> yearsToMaturity.Some?
    ensures n.Some? ==> n.value % 2 == 0
    ensures n.Some? ==> (n.value == 0 <==> -0.5 <= yearsToMaturity.value < 0.5)
    ensures n.Some? ==> n.value as real - 1.0 <= 2.0 * yearsToMaturity.value < n.value as real + 1.0
  {
    match yearsToMaturity
    case None => None
    case Some(y) => Some(Round(y) * 2)
  }

  /**
   * The ordinary-annuity expression `c * (1 - f) / i`, where `f` is the discount factor
   * `(1 + i) ** -n` of the last coupon.
   */
  function Annuity(c: real, i: real, f: real): real
    requires i != 0.0
  {
    c * (1.0 - f) / i
  }

  /**
   * The present value of the remaining coupons by the ordinary-annuity formula
   * `c * (1 - (1 + i) ** -n) / i`. It is undefined (NaN or Infinity) exactly when an
   * input is unset, when the rate is zero (`0 / 0`), or when the rate is -1 with coupons
   * left (a zero base raised to a negative power).
   */
  function PresentValue(c: Option<real>, i: real, n: Option<int>): (pv: Option<real>)
    ensures pv.Some? <==> c.Some? && n.Some? && i != 0.0 && !(i == -1.0 && n.value > 0)
  {
    if c.None? || n.None? then None
    else
      match IntPow(1.0 + i, -n.value)
      case None => None
      case Some(f) => if i == 0.0 then None else Some(Annuity(c.value, i, f))
  }

  /** The independent reference: each of the `n` coupons discounted by its own period. */
  ghost function DiscountedCoupons(c: real, i: real, n: nat): real
    requires i != -1.0
    decreases n
  {
    if n == 0 then 0.0 else DiscountedCoupons(c, i, n - 1) + c / Pow(1.0 + i, n)
  }

  /**
   * One discounting step in plain arithmetic: growing the compounding factor `p` by one
   * period adds the coupon discounted by the grown factor.
   */
  lemma AnnuityStep(c: real, i: real, p: real, p': real)
    requires i != 0.0 && i != -1.0 && p != 0.0 && p' == (1.0 + i) * p
    ensures Annuity(c, i, 1.0 / p') == Annuity(c, i, 1.0 / p) + c / p'
  {
  }

  /** The annuity closed form equals the sum of the individually discounted coupons. */
  lemma {:induction false} AnnuityIsDiscountedSum(c: real, i: real, n: nat)
    requires i != 0.0 && i != -1.0
    ensures Annuity(c, i, 1.0 / Pow(1.0 + i, n)) == DiscountedCoupons(c, i, n)
    decreases n
  {
    if n > 0 {
      AnnuityIsDiscountedSum(c, i, n - 1);
      AnnuityStep(c, i, Pow(1.0 + i, n - 1), Pow(1.0 + i, n));
    }
  }

  /** A number whose product with `p` is one is the reciprocal of `p`. */
  lemma ReciprocalUnique(f: real, p: real)
    requires p != 0.0 && f * p == 1.0
    ensures f == 1.0 / p
  {
  }

  /** For a bond not past maturity, the formula computes the discounted coupon sum. */
  lemma PresentValueIsDiscountedSum(c: real, i: real, n: nat)
    requires i != 0.0 && i != -1.0
    ensures PresentValue(Some(c), i, Some(n)) == Some(DiscountedCoupons(c, i, n))
  {
    var b := 1.0 + i;
    var e: int := -(n as int);
    var f := IntPow(b, e);
    assert f.Some?;
    if n == 0 {
      assert f.value == 1.0 == 1.0 / Pow(b, 0);
    } else {
      ReciprocalUnique(f.value, Pow(b, n));
    }
    AnnuityIsDiscountedSum(c, i, n);
  }

  /** With a positive rate and a non-negative coupon, the sum of `n` discounted coupons lies in [0, c * n]. */
  lemma {:induction false} DiscountedCouponsBounds(c: real, i: real, n: nat)
    requires i > 0.0 && c >= 0.0
    ensures 0.0 <= DiscountedCoupons(c, i, n) <= c * n as real
    decreases n
  {
    if n > 0 {
      DiscountedCouponsBounds(c, i, n - 1);
      DiscountedCouponBounds(c, Pow(1.0 + i, n));
      AddWithinBounds(DiscountedCoupons(c, i, n - 1), c / Pow(1.0 + i, n), c, n);
    }
  }

  /** A non-negative coupon discounted by a factor of at least 1 lies in [0, c]. */
  lemma DiscountedCouponBounds(c: real, p: real)
    requires c >= 0.0 && p >= 1.0
    ensures 0.0 <= c / p <= c
  {
  }

  /** Adding a value in [0, c] to one in [0, c * (n - 1)] gives one in [0, c * n]. */
  lemma AddWithinBounds(d: real, x: real, c: real, n: nat)
    requires n > 0 && 0.0 <= d <= c * (n - 1) as real && 0.0 <= x <= c
    ensures 0.0 <= d + x <= c * n as real
  {
  }

  /** With a positive rate, a non-negative coupon and a discount factor in (0, 1], the annuity is below `c / i`. */
  lemma AnnuityBelowPerpetuity(c: real, i: real, f: real)
    requires i > 0.0 && c >= 0.0 && 0.0 < f <= 1.0
    ensures Annuity(c, i, f) <= c / i
    ensures c > 0.0 ==> Annuity(c, i, f) < c / i
  {
  }

  /**
   * With a positive discount rate, a non-negative coupon and a non-negative coupon
   * count, the present value is defined, lies between 0 and the undiscounted total `c * n`, stays
   * below the perpetuity value `c / i`, and is 0 when no coupon remains.
   */
  lemma PresentValueBounds(c: real, i: real, n: int)
    requires i > 0.0 && c >= 0.0 && n >= 0
    ensures PresentValue(Some(c), i, Some(n)).Some?
    ensures 0.0 <= PresentValue(Some(c), i, Some(n)).value <= c * n as real
    ensures PresentValue(Some(c), i, Some(n)).value <= c / i
    ensures n == 0 ==> PresentValue(Some(c), i, Some(n)).value == 0.0
  {
    PresentValueIsDiscountedSum(c, i, n);
    DiscountedCouponsBounds(c, i, n);
    var p := Pow(1.0 + i, n);
    AnnuityIsDiscountedSum(c, i, n);
    assert p >= 1.0;
    assert 0.0 < 1.0 / p <= 1.0;
    AnnuityBelowPerpetuity(c, i, 1.0 / p);
  }

  /** With a positive coupon and a non-zero rate above -1, every extra remaining coupon adds value. */
  lemma {:induction false} PresentValueGrowsWithPeriods(c: real, i: real, n: nat, m: nat)
    requires c > 0.0 && i > -1.0 && i != 0.0 && n < m
    ensures PresentValue(Some(c), i, Some(n)).value < PresentValue(Some(c), i, Some(m)).value
    decreases m
  {
    PresentValueIsDiscountedSum(c, i, n);
    PresentValueIsDiscountedSum(c, i, m);
    PresentValueIsDiscountedSum(c, i, m - 1);
    assert c / Pow(1.0 + i, m) > 0.0;
    if n < m - 1 {
      PresentValueGrowsWithPeriods(c, i, n, m - 1);
    }
  }

  /** A factor above 1 with a positive rate and coupon makes the annuity negative. */
  lemma AnnuityNegative(c: real, i: real, f: real)
    requires c > 0.0 && i > 0.0 && f > 1.0
    ensures Annuity(c, i, f) < 0.0
  {
    var x := c * (1.0 - f);
    assert x < 0.0;
    assert (x / i) * i == x;
  }

  /**
   * Past maturity the period count turns negative and, with a positive rate and coupon,
   * so does the present value: the formula is not clamped.
   */
  lemma PresentValueNegativeAfterMaturity(c: real, i: real, n: int)
    requires c > 0.0 && i > 0.0 && n < 0
    ensures PresentValue(Some(c), i, Some(n)).Some?
    ensures PresentValue(Some(c), i, Some(n)).value < 0.0
  {
    var f := Pow(1.0 + i, -n);
    assert IntPow(1.0 + i, -n) == Some(f);
    AnnuityNegative(c, i, f);
  }

  /** The undiscounted interest still to be paid, `issuePrice * (rate / 2) * n / 100`. */
  function TotalRemainingInterest(issuePrice: Option<real>, interestPayable: real, n: Option<int>): (t: Option<real>)
    ensures t.Some? <==> issuePrice.Some? && n.Some?
    ensures t.Some? ==> t.value == Coupon(issuePrice, interestPayable).value * n.value as real
  {
    if issuePrice.None? || n.None? then None
    else Some(issuePrice.value * (interestPayable / 2.0) * n.value as real / 100.0)
  }

  /**
   * The discount of the ask price relative to `reference`: `(reference - ask) / reference`,
   * undefined when either is unset or the reference is zero.
   */
  function Discount(reference: Option<real>, ask: Option<real>): (d: Option<real>)
    ensures d.Some? <==> reference.Some? && ask.Some? && reference.value != 0.0
    ensures d.Some? ==> d.value * reference.value == reference.value - ask.value
  {
    if reference.None? || ask.None? || reference.value == 0.0 then None
    else Some((reference.value - ask.value) / reference.value)
  }

  /** Against a non-zero reference, the discount is zero exactly when the ask price equals it. */
  lemma DiscountZeroIff(reference: real, ask: real)
    requires reference != 0.0
    ensures Discount(Some(reference), Some(ask)) == Some(0.0) <==> ask == reference
  {
  }

  /** Against a positive reference, the discount is positive exactly below it and negative above it. */
  lemma DiscountSign(reference: real, ask: real)
    requires reference > 0.0
    ensures Discount(Some(reference), Some(ask)).value > 0.0 <==> ask < reference
    ensures Discount(Some(reference), Some(ask)).value < 0.0 <==> ask > reference
  {
  }

  /** Against a positive reference, a higher ask price gives a strictly smaller discount. */
  lemma DiscountStrictlyDecreasing(reference: real, ask1: real, ask2: real)
    requires reference > 0.0 && ask1 < ask2
    ensures Discount(Some(reference), Some(ask1)).value > Discount(Some(reference), Some(ask2)).value
  {
  }

  /**
   * One bond's row. The bond's own fields are carried over; the coupon is the interest
   * value; the total remaining interest is coupon times periods; the fair value is the
   * present value plus the gold price; the two discounts compare the ask price with the
   * fair value and with the gold price.
   */
  function ValueBond(sgb: Sgb, info: Info): (r: Row)
    ensures CarriesBond(r, sgb)
    ensures r.interestValue == Coupon(sgb.issuePrice, sgb.interestPayable)
    ensures r.noOfFutureInterestPayments == Periods(sgb.yearsToMaturity)
    ensures r.totalRemainingInterest.Some? <==> r.interestValue.Some? && r.noOfFutureInterestPayments.Some?
    ensures r.totalRemainingInterest.Some? ==>
      r.totalRemainingInterest.value == r.interestValue.value * r.noOfFutureInterestPayments.value as real
    ensures r.presentValueDividend == PresentValue(r.interestValue, info.discountRate / 200.0, r.noOfFutureInterestPayments)
    ensures r.fairValue.Some? <==> r.presentValueDividend.Some? && info.goldPriceInr.Some?
    ensures r.fairValue.Some? ==> r.fairValue.value == r.presentValueDividend.value + info.goldPriceInr.value
    ensures r.discount == Discount(r.fairValue, sgb.askPrice)
    ensures r.discountCmp == Discount(info.goldPriceInr, sgb.askPrice)
  {
    var c := Coupon(sgb.issuePrice, sgb.interestPayable);
    var i := info.discountRate / 200.0;
    var n := Periods(sgb.yearsToMaturity);
    var pv := PresentValue(c, i, n);
    var fairValue := if pv.Some? && info.goldPriceInr.Some? then Some(pv.value + info.goldPriceInr.value) else None;
    Row(
      sgb.symbol, sgb.isin, sgb.issuePrice, sgb.askPrice, sgb.tradedVolumeValue,
      sgb.maturityDate, sgb.yearsToMaturity, sgb.interestPayable,
      c, n, TotalRemainingInterest(sgb.issuePrice, sgb.interestPayable, n), pv, fairValue,
      Discount(fairValue, sgb.askPrice), Discount(info.goldPriceInr, sgb.askPrice))
  }

  /**
   * For a non-negative coupon, a positive discount rate and years to maturity of at
   * least -0.5 (so no negative period count), the present value is defined and lies
   * between 0 and the total remaining interest.
   */
  lemma PresentValueWithinRemainingInterest(issuePrice: real, interestPayable: real, years: real, discountRate: real)
    requires issuePrice >= 0.0 && interestPayable >= 0.0 && years >= -0.5 && discountRate > 0.0
    ensures PresentValue(Coupon(Some(issuePrice), interestPayable), discountRate / 200.0, Periods(Some(years))).Some?
    ensures 0.0 <= PresentValue(Coupon(Some(issuePrice), interestPayable), discountRate / 200.0, Periods(Some(years))).value
    ensures PresentValue(Coupon(Some(issuePrice), interestPayable), discountRate / 200.0, Periods(Some(years))).value
      <= TotalRemainingInterest(Some(issuePrice), interestPayable, Periods(Some(years))).value
  {
    var c := Coupon(Some(issuePrice), interestPayable).value;
    var n := Periods(Some(years)).value;
    NonNegativeProduct(issuePrice, interestPayable / 100.0);
    assert n >= 0;
    PresentValueBounds(c, discountRate / 200.0, n);
  }

  /**
   * For a priced bond with a non-negative coupon, a positive discount rate and years to
   * maturity of at least -0.5, the fair value is defined and lies between the gold
   * price and the gold price plus the total remaining interest.
   */
  lemma FairValueBounds(sgb: Sgb, info: Info)
    requires sgb.issuePrice.Some? && sgb.issuePrice.value >= 0.0 && sgb.interestPayable >= 0.0
    requires sgb.yearsToMaturity.Some? && sgb.yearsToMaturity.value >= -0.5
    requires info.discountRate > 0.0 && info.goldPriceInr.Some?
    ensures ValueBond(sgb, info).fairValue.Some?
    ensures info.goldPriceInr.value <= ValueBond(sgb, info).fairValue.value
    ensures ValueBond(sgb, info).fairValue.value <= info.goldPriceInr.value + ValueBond(sgb, info).totalRemainingInterest.value
  {
    PresentValueWithinRemainingInterest(sgb.issuePrice.value, sgb.interestPayable, sgb.yearsToMaturity.value, info.discountRate);
  }

  /** A product of non-negative factors is non-negative. */
  lemma NonNegativeProduct(x: real, y: real)
    requires x >= 0.0 && y >= 0.0
    ensures x * y >= 0.0
  {
  }

  /**
   * The whole transform: one row per bond, in input order, each computed against the
   * first snapshot. With bonds but no snapshot, reading the snapshot fails; with no
   * bonds the result is empty whatever the snapshots.
   */
  method GetSgbData(sgbs: seq<Sgb>, infos: seq<Info>) returns (r: Result<seq<Row>, ValuationError>)
    ensures r.Failure? <==> |sgbs| > 0 && |infos| == 0
    ensures r.Success? ==> |r.value| == |sgbs|
    ensures r.Success? ==> forall k :: 0 <= k < |sgbs| ==> CarriesBond(r.value[k], sgbs[k])
    ensures r.Success? ==> forall k :: 0 <= k < |sgbs| ==> |infos| > 0 && r.value[k] == ValueBond(sgbs[k], infos[0])
  {
    if |sgbs| == 0 {
      return Success([]);
    }
    if |infos| == 0 {
      return Failure(NoSnapshot);
    }
    var data: seq<Row> := [];
    for k := 0 to |sgbs|
      invariant |data| == k
      invariant forall j :: 0 <= j < k ==> data[j] == ValueBond(sgbs[j], infos[0])
    {
      data := data + [ValueBond(sgbs[k], infos[0])];
    }
    return Success(data);
  }
}
