/**
 * Worked examples of the valuation on concrete bonds: a three-year bond, the same bond
 * at maturity, a bond without an ask price and one without an issue price.
 */
module Scenarios {
  import opened Wrappers
  import opened JsMath
  import opened Schemas
  import opened Valuation

  /** A bond of issue price 100 paying 2.5% a year, quoted at 6200. */
  function SampleBond(years: Option<real>, issuePrice: Option<real>, ask: Option<real>): Sgb {
    Sgb("SGBSAMPLE", Some("IN0020000000"), issuePrice, ask, Some(0.0), years, 0, DefaultInterestPayable)
  }

  /** Gold at 6000 and the default discount rate of 6%. */
  function SampleInfo(): Info {
    Info(Some(6000.0), DefaultDiscountRate, 0)
  }

  /** The three-year bond quoted at 6200, valued against the sample snapshot. */
  function ThreeYearRow(): Row {
    ValueBond(SampleBond(Some(3.0), Some(100.0), Some(6200.0)), SampleInfo())
  }

  /**
   * Three years out: six coupons of 1.25 discounted at 3% a period are worth about
   * 6.7715, so the fair value is about 6006.77 and the bond trades at a premium of
   * about 3.2% to it.
   */
  lemma ThreeYearBond()
    ensures ThreeYearRow().noOfFutureInterestPayments == Some(6)
    ensures ThreeYearRow().interestValue == Some(1.25)
    ensures ThreeYearRow().totalRemainingInterest == Some(7.5)
    ensures 6.771 < ThreeYearRow().presentValueDividend.value < 6.772
    ensures 6006.771 < ThreeYearRow().fairValue.value < 6006.772
    ensures -0.033 < ThreeYearRow().discount.value < -0.032
  {
    var p := Pow(1.03, 6);
    assert p == 1.03 * 1.03 * 1.03 * 1.03 * 1.03 * 1.03 by {
      assert Pow(1.03, 2) == 1.03 * 1.03;
      assert Pow(1.03, 4) == 1.03 * 1.03 * Pow(1.03, 2);
    }
    assert IntPow(1.03, -6) == Some(1.0 / p);
  }

  /** At maturity no coupon remains: the present value is 0 and the fair value is the gold price. */
  lemma BondAtMaturity()
    ensures ValueBond(SampleBond(Some(0.0), Some(100.0), Some(6200.0)), SampleInfo()).noOfFutureInterestPayments == Some(0)
    ensures ValueBond(SampleBond(Some(0.0), Some(100.0), Some(6200.0)), SampleInfo()).presentValueDividend == Some(0.0)
    ensures ValueBond(SampleBond(Some(0.0), Some(100.0), Some(6200.0)), SampleInfo()).fairValue == Some(6000.0)
  {
  }

  /** Without an ask price only the two discounts are undefined. */
  lemma BondWithoutAskPrice()
    ensures ValueBond(SampleBond(Some(3.0), Some(100.0), None), SampleInfo()).discount == None
    ensures ValueBond(SampleBond(Some(3.0), Some(100.0), None), SampleInfo()).discountCmp == None
    ensures ValueBond(SampleBond(Some(3.0), Some(100.0), None), SampleInfo()).fairValue.Some?
    ensures ValueBond(SampleBond(Some(3.0), Some(100.0), None), SampleInfo()).totalRemainingInterest == Some(7.5)
  {
  }

  /**
   * Without an issue price the coupon, the present value, the total remaining interest,
   * the fair value and the discount to it are undefined, while the period count and the
   * discount to the gold price are still computed.
   */
  lemma BondWithoutIssuePrice()
    ensures ValueBond(SampleBond(Some(3.0), None, Some(6200.0)), SampleInfo()).interestValue == None
    ensures ValueBond(SampleBond(Some(3.0), None, Some(6200.0)), SampleInfo()).presentValueDividend == None
    ensures ValueBond(SampleBond(Some(3.0), None, Some(6200.0)), SampleInfo()).fairValue == None
    ensures ValueBond(SampleBond(Some(3.0), None, Some(6200.0)), SampleInfo()).totalRemainingInterest == None
    ensures ValueBond(SampleBond(Some(3.0), None, Some(6200.0)), SampleInfo()).discount == None
    ensures ValueBond(SampleBond(Some(3.0), None, Some(6200.0)), SampleInfo()).noOfFutureInterestPayments == Some(6)
    ensures ValueBond(SampleBond(Some(3.0), None, Some(6200.0)), SampleInfo()).discountCmp == Some(-1.0 / 30.0)
  {
  }

  /**
   * With a zero discount rate the formula divides zero by zero, so the present value,
   * the fair value and the discount to it are all undefined.
   */
  lemma ZeroDiscountRate()
    ensures ValueBond(SampleBond(Some(3.0), Some(100.0), Some(6200.0)), Info(Some(6000.0), 0.0, 0)).presentValueDividend == None
    ensures ValueBond(SampleBond(Some(3.0), Some(100.0), Some(6200.0)), Info(Some(6000.0), 0.0, 0)).fairValue == None
    ensures ValueBond(SampleBond(Some(3.0), Some(100.0), Some(6200.0)), Info(Some(6000.0), 0.0, 0)).discount == None
  {
  }
}
