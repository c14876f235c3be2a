/**
 * The two persisted record shapes: one `Sgb` per bond tranche and the `Info`
 * market snapshot, with the defaults and the one required field their schemas declare.
 * Dates are milliseconds since the epoch; `now` stands for `Date.now` at creation time.
 */
module Schemas {
  import opened Wrappers

  /** Coupon rate, in percent per year, of a bond created without one. */
  const DefaultInterestPayable: real := 2.5

  /** Annual discount rate, in percent, of a snapshot created without one. */
  const DefaultDiscountRate: real := 6.0

  /** A stored bond. Fields with a default are always present; the others may be unset. */
  datatype Sgb = Sgb(
    symbol: string,
    isin: Option<string>,
    issuePrice: Option<real>,
    askPrice: Option<real>,
    tradedVolumeValue: Option<real>,
    yearsToMaturity: Option<real>,
    maturityDate: int,
    interestPayable: real)

  /** A stored bond satisfies the schema's one requirement: a non-empty symbol. */
  predicate ValidSgb(s: Sgb) {
    |s.symbol| > 0
  }

  /** The fields a new bond document is built from; any of them may be left out. */
  datatype SgbFields = SgbFields(
    symbol: Option<string>,
    isin: Option<string>,
    issuePrice: Option<real>,
    askPrice: Option<real>,
    tradedVolumeValue: Option<real>,
    yearsToMaturity: Option<real>,
    maturityDate: Option<int>,
    interestPayable: Option<real>)

  datatype SchemaError = SymbolRequired

  /**
   * Creating a bond document: validation fails exactly when the symbol is missing or
   * empty; the coupon rate defaults to 2.5 and the maturity date to the creation time;
   * every other field is kept as given, unset or not.
   */
  function CreateSgb(f: SgbFields, now: int): (r: Result<Sgb, SchemaError>)
    ensures r.Failure? <==> f.symbol.None? || f.symbol.value == ""
    ensures r.Success? ==> ValidSgb(r.value) && Some(r.value.symbol) == f.symbol
    ensures r.Success? ==> r.value.interestPayable == (if f.interestPayable.Some? then f.interestPayable.value else DefaultInterestPayable)
    ensures r.Success? ==> r.value.maturityDate == (if f.maturityDate.Some? then f.maturityDate.value else now)
    ensures r.Success? ==>
      && r.value.isin == f.isin
      && r.value.issuePrice == f.issuePrice
      && r.value.askPrice == f.askPrice
      && r.value.tradedVolumeValue == f.tradedVolumeValue
      && r.value.yearsToMaturity == f.yearsToMaturity
  {
    if f.symbol.None? || f.symbol.value == "" then Failure(SymbolRequired)
    else
      Success(Sgb(
        f.symbol.value, f.isin, f.issuePrice, f.askPrice, f.tradedVolumeValue,
        f.yearsToMaturity, f.maturityDate.GetOr(now), f.interestPayable.GetOr(DefaultInterestPayable)))
  }

  /** The fields of a stored bond, all of them set. */
  function SgbFieldsOf(s: Sgb): SgbFields {
    SgbFields(
      Some(s.symbol), s.isin, s.issuePrice, s.askPrice, s.tradedVolumeValue,
      s.yearsToMaturity, Some(s.maturityDate), Some(s.interestPayable))
  }

  /** Re-creating a valid bond from its own fields gives it back, whatever the clock says. */
  lemma CreateSgbRoundTrip(s: Sgb, now: int)
    requires ValidSgb(s)
    ensures CreateSgb(SgbFieldsOf(s), now) == Success(s)
  {
  }

  /** The creation time matters only when no maturity date is supplied. */
  lemma CreateSgbClockOnlyForDefault(f: SgbFields, t1: int, t2: int)
    ensures f.maturityDate.Some? ==> CreateSgb(f, t1) == CreateSgb(f, t2)
    ensures CreateSgb(f, t1).Success? && t1 != t2 && f.maturityDate.None? ==> CreateSgb(f, t1) != CreateSgb(f, t2)
  {
  }

  /** The stored market snapshot. */
  datatype Info = Info(
    goldPriceInr: Option<real>,
    discountRate: real,
    lastUpdatedDate: int)

  /** The fields a new snapshot document is built from. */
  datatype InfoFields = InfoFields(
    goldPriceInr: Option<real>,
    discountRate: Option<real>,
    lastUpdatedDate: Option<int>)

  /**
   * Creating a snapshot never fails: the gold price has no default and stays unset when
   * not given, the discount rate defaults to 6 and the update date to the creation time.
   */
  function CreateInfo(f: InfoFields, now: int): (r: Info)
    ensures r.goldPriceInr == f.goldPriceInr
    ensures r.discountRate == (if f.discountRate.Some? then f.discountRate.value else DefaultDiscountRate)
    ensures r.lastUpdatedDate == (if f.lastUpdatedDate.Some? then f.lastUpdatedDate.value else now)
  {
    Info(f.goldPriceInr, f.discountRate.GetOr(DefaultDiscountRate), f.lastUpdatedDate.GetOr(now))
  }

  /** The fields of a stored snapshot, all of them set. */
  function InfoFieldsOf(s: Info): InfoFields {
    InfoFields(s.goldPriceInr, Some(s.discountRate), Some(s.lastUpdatedDate))
  }

  /** Re-creating a snapshot from its own fields gives it back. */
  lemma CreateInfoRoundTrip(s: Info, now: int)
    ensures CreateInfo(InfoFieldsOf(s), now) == s
  {
  }
}
