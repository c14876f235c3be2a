# Sovereign Gold Bond valuation — a Dafny model

This project models the valuation core of the SGB discount calculator. The calculator
holds one record per exchange-traded Sovereign Gold Bond tranche and one market snapshot
(gold price, discount rate). From these it derives, per bond:

- the semiannual coupon;
- the number of remaining coupons;
- the present value of those coupons (ordinary-annuity formula);
- the fair value (present value plus gold price);
- the undiscounted remaining interest;
- the discount of the ask price to the fair value and to the gold price.

It also models the pure part of the hourly refresh. That covers turning one exchange
quote into updated bond fields, applying this to a batch of bonds, updating the snapshot,
and the bid/ask endpoint, which uses the same price fallback.

Modules:

- `Wrappers` (wrappers.dfy): `Option` and `Result`.
- `JsMath` (jsmath.dfy): `Math.round`, and `**` with an integer exponent, over exact reals.
- `Schemas` (schemas.dfy): the `Sgb` and `Info` records. Creation applies the schema
  defaults (coupon rate 2.5, discount rate 6, dates = creation time) and the one required
  field (`symbol`).
- `Refresh` (refresh.dfy): quote → bond update, the batch, the snapshot refresh, the
  bid/ask endpoint.
- `Valuation` (valuation.dfy): the per-bond metrics, `ValueBond`, and the transform
  `GetSgbData`.
- `Scenarios` (scenarios.dfy): worked examples on concrete bonds.

How JavaScript numbers are represented: every number is an exact `real`. A stored field
that is `undefined` or `NaN` is `None`. So is any metric that JavaScript would compute as
`NaN` or `±Infinity`. This collapse is exact for these formulas. No finite value is ever
divided by an infinite one: the divisors are `i`, 200, 100, the gold price, and the fair
value, and when the fair value is infinite the numerator is too. So once an operand is
`NaN` or infinite, every later result is non-finite as well. `now` (`Date.now()`) is an
explicit parameter. In the batch refresh each bond has its own reading, because each
bond reads the clock after its own quote has arrived. Every member is a pure function
of its inputs, so calling the transform twice on the same inputs gives the same rows.

Behaviour of the code worth noting:

- the remaining coupon count `n = Math.round(yearsToMaturity) * 2` is not clamped at 0
  after maturity. It goes negative, and so does the present value
  (`PresentValueNegativeAfterMaturity`);
- a zero discount rate is not special-cased: the annuity formula gives `0 / 0`, i.e.
  `NaN`, and not `c * n` (`PresentValue`, `Scenarios.ZeroDiscountRate`);
- both discounts are ratios `(reference - ask) / reference`, not percentages;
- for a three-year bond (issue price 100, rate 2.5, discount rate 6, gold 6000) the
  exact present value is about 6.7715, so the fair value is about 6006.77
  (`Scenarios.ThreeYearBond`).

## Model

| member | source | states |
|---|---|---|
| JsMath.Round | backend/server.js:338 | `Math.round` gives the integer nearest to `x`, halves upward: `r - 0.5 <= x < r + 0.5` |
| JsMath.RoundUnique | backend/server.js:338 | that nearest-integer condition determines the rounded value uniquely |
| JsMath.Pow | backend/server.js:340 | a natural power of a non-zero, positive, ≥ 1, or > 1 base keeps that property (strictly > 1 for a positive exponent) |
| JsMath.IntPow | backend/server.js:340 | `b ** e` is undefined (Infinity) exactly for a zero base with a negative exponent; otherwise it is the power, or for a negative exponent the reciprocal of the power |
| Schemas.CreateSgb | backend/schemas.js:5-14 | creating a bond fails exactly when `symbol` is missing or empty; the coupon rate defaults to 2.5; the maturity date defaults to the creation time; all other fields stay optional and are kept as given |
| Schemas.CreateSgbRoundTrip | backend/schemas.js:5-14 | re-creating a valid bond from its own fields returns it unchanged |
| Schemas.CreateSgbClockOnlyForDefault | backend/schemas.js:12 | the creation time affects the result only when no maturity date is given, and then it does |
| Schemas.CreateInfo | backend/schemas.js:19-23 | creating a snapshot never fails; the gold price has no default; the discount rate defaults to 6 and the update date to the creation time |
| Schemas.CreateInfoRoundTrip | backend/schemas.js:19-23 | re-creating a snapshot from its own fields returns it unchanged |
| Refresh.ReadNumber | backend/server.js:283-294 | reading a quote field fails (TypeError) exactly when it is absent; otherwise it yields the parsed number or NaN |
| Refresh.PriceWithFallback | backend/server.js:284-288 | the price is the preferred field when it parses and `lastPrice` otherwise; it fails only when a field it actually reads is absent |
| Refresh.AskPrice | backend/server.js:284-288 | the ask price is `sellPrice1` when it parses and `lastPrice` otherwise; it fails exactly when `sellPrice1` is absent, or does not parse and `lastPrice` is absent |
| Refresh.BidPrice | backend/server.js:80-82 | the bid price is `buyPrice1` when it parses and `lastPrice` otherwise; it fails exactly when `buyPrice1` is absent, or does not parse and `lastPrice` is absent |
| Refresh.FallbackIgnoresLastWhenPreferredParses | backend/server.js:76-82 | when the preferred price parses, `lastPrice` has no influence at all |
| Refresh.TradedValue | backend/server.js:290-294 | the traded value is the parsed number, or 0 when it does not parse |
| Refresh.YearsToMaturity | backend/server.js:299-302 | years to maturity times the milliseconds in 365 days is the time left; it is positive before the maturity date, zero at it, negative after |
| Refresh.YearsToMaturityOneYearLater | backend/server.js:299-300 | 365 days later the years to maturity are exactly one less |
| Refresh.RefreshBond | backend/server.js:268-316 | a bond becomes null exactly when its quote is missing or lacks a field the update reads; otherwise face value, ask price, traded value, ISIN and years to maturity are replaced, and symbol, maturity date and coupon rate are kept |
| Refresh.RefreshBondIdempotent | backend/server.js:283-302 | refreshing an already refreshed bond again with the same quote at the same time changes nothing |
| Refresh.RefreshBatch | backend/server.js:267-317 | the batch has one entry per bond, in order, and entry `k` is bond `k` refreshed with quote `k` at that bond's own clock reading (taken after its own fetch) |
| Refresh.RefreshBatchIsolatesFailures | backend/server.js:267-317 | a missing quote makes its own bond null; changing one bond's quote leaves every other entry unchanged |
| Refresh.RefreshInfo | backend/server.js:255-265 | the refreshed snapshot has the new gold price and the refresh time; it keeps the old discount rate, or gets the default 6 when no snapshot existed |
| Refresh.RefreshInfoLastWins | backend/server.js:255-265 | after two successive snapshot refreshes, only the later one's gold price and time remain, and the discount rate is what a single refresh would give |
| Refresh.BidAsk | backend/server.js:59-89 | no quote data gives the no-data reply; otherwise the reply carries the ask and bid prices with their `lastPrice` fallbacks, and fails exactly when a field it reads is absent |
| Refresh.BidAskAgreesWithRefresh | backend/server.js:76-82 | for the same quote, the endpoint's ask price equals the ask price the refresh stores |
| Valuation.Coupon | backend/server.js:336 | the semiannual coupon is half the annual interest: twice it equals issue price × rate / 100; it is undefined exactly when the issue price is unset |
| Valuation.Periods | backend/server.js:338 | the remaining coupon count is even, is 0 exactly when years to maturity lie in [-0.5, 0.5), is within one of twice the years, and is undefined only when the years are unset |
| Valuation.PresentValue | backend/server.js:337-340 | the present value is defined exactly when its inputs are set, the rate is non-zero, and the rate is not -1 with coupons left |
| Valuation.AnnuityStep | backend/server.js:340 | growing the compounding factor by one period adds one coupon discounted by the grown factor to the annuity formula |
| Valuation.AnnuityIsDiscountedSum | backend/server.js:340 | the closed form `c (1 - (1+i)^-n) / i` equals the sum of the `n` coupons, each discounted by its own period |
| Valuation.PresentValueIsDiscountedSum | backend/server.js:337-340 | with `n ≥ 0`, a non-zero rate and a rate other than -1, the present value equals that discounted-coupon sum |
| Valuation.DiscountedCouponsBounds | backend/server.js:337-340 | with a positive rate and a non-negative coupon, the discounted sum lies in `[0, c n]` |
| Valuation.PresentValueBounds | backend/server.js:337-340 | with a positive rate, `c ≥ 0` and `n ≥ 0`, the present value is defined, lies in `[0, c n]` and below `c / i`, and is 0 when `n = 0` |
| Valuation.PresentValueGrowsWithPeriods | backend/server.js:338-340 | with a positive coupon and a non-zero rate above -1, more remaining coupons give a strictly larger present value |
| Valuation.PresentValueNegativeAfterMaturity | backend/server.js:338-340 | with a negative coupon count (after maturity), a positive rate and a positive coupon, the present value is negative: there is no clamp |
| Valuation.TotalRemainingInterest | backend/server.js:344-345 | the undiscounted remaining interest equals coupon × remaining coupon count, and is undefined exactly when an input is |
| Valuation.Discount | backend/server.js:403-404 | the discount times the reference equals reference minus ask; it is undefined exactly when an input is unset or the reference is 0 |
| Valuation.DiscountZeroIff | backend/server.js:403-404 | against a non-zero reference, the discount is 0 exactly when the ask price equals the reference |
| Valuation.DiscountSign | backend/server.js:403-404 | against a positive reference, the discount is positive exactly below it and negative exactly above it |
| Valuation.DiscountStrictlyDecreasing | backend/server.js:403-404 | against a positive reference, a higher ask price gives a strictly smaller discount |
| Valuation.ValueBond | backend/server.js:335-411 | a row copies the bond's fields unchanged; interest value is the coupon; total remaining interest is coupon × periods; fair value is present value + gold price; the two discounts compare the ask with fair value and with gold price |
| Valuation.PresentValueWithinRemainingInterest | backend/server.js:336-345 | with non-negative issue price and rate, a positive discount rate and years ≥ -0.5, the present value is defined and lies between 0 and the total remaining interest |
| Valuation.FairValueBounds | backend/server.js:342 | under the same conditions with a gold price set, the fair value lies between the gold price and gold price + total remaining interest |
| Valuation.GetSgbData | backend/server.js:332-414 | one row per bond in input order, each valued against the first snapshot, with the bond's fields carried over; fails exactly when there are bonds but no snapshot |
| Scenarios.ThreeYearBond | backend/server.js:336-404 | a three-year 2.5% bond at issue price 100, gold 6000 and rate 6 has 6 coupons of 1.25, total interest 7.5, present value in (6.771, 6.772), and a discount between -3.3% and -3.2% at ask 6200 |
| Scenarios.BondAtMaturity | backend/server.js:338-342 | at zero years to maturity there are no coupons, the present value is 0 and the fair value is the gold price |
| Scenarios.BondWithoutAskPrice | backend/server.js:342-404 | with no ask price both discounts are undefined, while the fair value and the total remaining interest are still computed |
| Scenarios.BondWithoutIssuePrice | backend/server.js:336-404 | with no issue price the coupon, present value, total remaining interest, fair value and discount to fair value are undefined, while the coupon count and the discount to gold are still computed |
| Scenarios.ZeroDiscountRate | backend/server.js:337-340 | a zero discount rate makes the present value, the fair value and the discount to fair value undefined |

## Left out

- The `yield` metric (backend/server.js:405-408): it raises a real to the fractional power `1 / yearsToMaturity`, which exact reals cannot express. The row has no yield field.
- Date strings (backend/server.js:347-382): `toLocaleString` depends on locale and time zone. `interestDate1` and `interestDate2` are read there but are not declared in the bond schema (backend/schemas.js:5-14). On a schema-backed record they read as `undefined`, so the `toLocaleString` call on them would throw for any non-empty bond list. The model values every bond as if the date strings were formed.
- `parseFloat` and `.replace(",", "")` on quote strings: quote fields arrive already parsed (`Field`). As written, `.replace(",", "")` removes only the first comma, whereas the gold price parse (backend/server.js:251) removes all of them.
- Assigning `NaN` to a numeric schema path makes the save fail (a cast error in the database layer). The model stores such a value as unset, and the save is not modelled.
- The refresh's outer error handler (backend/server.js:326-329), `Info.create` on an existing snapshot (319), and `Sgb.bulkSave` of a batch containing nulls (321): these are database behaviour.
- Express routing, middleware and static serving (backend/server.js:1-236), CSV export (102-194), the HTTP fetch and HTML scraping of the gold price (245-251), database reads and writes, the cron schedule (416-434), and the `Promise.all` fan-out (267). These are I/O and concurrency; the batch is modelled as an ordered map.
- The Angular client (client/src/app): UI and HTTP calls only.
- IEEE-754 rounding: arithmetic is exact. A result JavaScript would give as `NaN` or `Infinity` is `None`, without telling which.
- A snapshot field or bond field that is stored as `Infinity` is not representable: stored numbers are finite or unset.
