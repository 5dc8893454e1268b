/**
 * The SIP (systematic investment plan) calculator behind POST /api/sip/calculate
 * (Backend/routes/sip.js): validation of the three body fields, conversion of
 * the annual percentage rate to a monthly rate and of years to months, and the
 * maturity amount of an annuity due, M = P · ((1 + r)^n − 1) / r · (1 + r).
 *
 * Amounts are exact reals. A body field is what the JSON body held: nothing, a
 * number, or a string together with the number `parseFloat` reads from it.
 */
module Sip {
  import opened Base

  datatype Field = Missing | Number(value: real) | Text(text: string, parsed: real)

  /** JavaScript truthiness of a body field: absent, 0 and "" are falsy. */
  predicate FieldTruthy(f: Field)
  {
    match f
    case Missing => false
    case Number(v) => v != 0.0
    case Text(s, _) => s != ""
  }

  /** `parseFloat` of a present field. */
  function ParseFloat(f: Field): real
    requires f != Missing
  {
    match f
    case Number(v) => v
    case Text(_, p) => p
  }

  datatype SipBody = SipBody(monthlyInvestment: Field, rate: Field, years: Field)

  datatype SipData = SipData(monthlyInvestment: real, annualRate: real, years: real,
                             totalInvested: real, estimatedReturns: real, finalAmount: real)

  datatype SipReply =
    | Rejected(status: int, message: string)
    | Calculated(data: SipData)
    | Failed(status: int, message: string, error: string)

  const MissingFieldsMessage := "Please provide monthlyInvestment, rate, and years"
  const InvalidValuesMessage := "Invalid input values. All values must be positive."
  const CalculationErrorMessage := "Error calculating SIP"
  /** What destructuring an absent request body throws. */
  const NoBodyError := "Cannot destructure property 'monthlyInvestment' of 'req.body' as it is undefined."

  /** The monthly interest rate of an annual percentage rate. */
  function MonthlyRate(rate: real): real
  {
    rate / 100.0 / 12.0
  }

  /** The number of monthly instalments in `years` years. */
  function Months(years: real): real
  {
    years * 12.0
  }

  predicate IsWhole(x: real)
  {
    x.Floor as real == x
  }

  function Pow(x: real, k: nat): real
  {
    if k == 0 then 1.0 else x * Pow(x, k - 1)
  }

  /** Σ_{k=1..n} (1 + r)^k: what one unit paid at the start of each of n months
      is worth at the end of month n. */
  function Growth(r: real, n: nat): real
  {
    if n == 0 then 0.0 else Growth(r, n - 1) + Pow(1.0 + r, n)
  }

  /** The maturity amount: P·n when r = 0, otherwise the closed form
      P · ((1 + r)^n − 1) / r · (1 + r). */
  function Maturity(p: real, r: real, n: real): real
    requires r == 0.0 || (IsWhole(n) && n >= 0.0)
  {
    if r == 0.0 then p * n
    else p * ((Pow(1.0 + r, n.Floor as nat) - 1.0) / r) * (1.0 + r)
  }

  lemma {:induction false} GeometricGrowth(r: real, n: nat)
    ensures r * Growth(r, n) == (Pow(1.0 + r, n) - 1.0) * (1.0 + r)
  {
    if n > 0 {
      GeometricGrowth(r, n - 1);
      var q := 1.0 + r;
      var a := Pow(q, n - 1);
      assert Pow(q, n) == q * a;
      calc {
        r * Growth(r, n);
        r * Growth(r, n - 1) + r * (q * a);
        (a - 1.0) * q + r * (q * a);
        (q * a - 1.0) * q;
      }
    }
  }

  lemma {:induction false} GrowthWithoutInterest(n: nat)
    ensures Growth(0.0, n) == n as real
  {
    if n > 0 {
      GrowthWithoutInterest(n - 1);
      PowAtLeastOne(0.0, n);
      assert Pow(1.0, n) == 1.0 by { PowOfOne(n); }
    }
  }

  lemma {:induction false} PowOfOne(k: nat)
    ensures Pow(1.0, k) == 1.0
  {
    if k > 0 {
      PowOfOne(k - 1);
    }
  }

  lemma {:induction false} PowAtLeastOne(r: real, k: nat)
    requires r >= 0.0
    ensures Pow(1.0 + r, k) >= 1.0
    ensures r > 0.0 && k > 0 ==> Pow(1.0 + r, k) > 1.0
  {
    if k > 0 {
      PowAtLeastOne(r, k - 1);
      var a := Pow(1.0 + r, k - 1);
      assert Pow(1.0 + r, k) == a + r * a;
      assert r * a >= 0.0;
      assert r > 0.0 ==> r * a > 0.0;
    }
  }

  /** The closed form is the annuity-due sum: every one of the n instalments of P
      grows for the months that remain, the last one for one month. */
  lemma MaturityIsGrowth(p: real, r: real, n: nat)
    ensures Maturity(p, r, n as real) == p * Growth(r, n)
  {
    assert (n as real).Floor == n;
    if r == 0.0 {
      GrowthWithoutInterest(n);
    } else {
      GeometricGrowth(r, n);
      var g := Growth(r, n);
      var c := Pow(1.0 + r, n) - 1.0;
      assert r * g == c * (1.0 + r);
      assert (c / r) * (1.0 + r) == g;
      assert Maturity(p, r, n as real) == p * ((c / r) * (1.0 + r));
    }
  }

  lemma {:induction false} GrowthAtLeastMonths(r: real, n: nat)
    requires r >= 0.0
    ensures Growth(r, n) >= n as real
    ensures r > 0.0 && n > 0 ==> Growth(r, n) > n as real
  {
    if n > 0 {
      GrowthAtLeastMonths(r, n - 1);
      PowAtLeastOne(r, n);
    }
  }

  /** With a non-negative rate and a positive instalment over whole months, the
      maturity amount is at least what was paid in, so the estimated returns are
      never negative; with a positive rate and at least one month they are
      positive. */
  lemma ReturnsNonNegative(p: real, r: real, n: nat)
    requires p > 0.0 && r >= 0.0
    ensures Maturity(p, r, n as real) >= p * n as real
    ensures r > 0.0 && n > 0 ==> Maturity(p, r, n as real) > p * n as real
  {
    MaturityIsGrowth(p, r, n);
    GrowthAtLeastMonths(r, n);
    var g := Growth(r, n);
    assert p * g - p * n as real == p * (g - n as real);
  }

  /** `Math.round(x * 100) / 100`: Math.round rounds halves up. */
  function Round2(x: real): (y: real)
    ensures -0.005 < y - x <= 0.005
    ensures x >= 0.0 ==> y >= 0.0
    ensures (y * 100.0).Floor as real == y * 100.0
  {
    (x * 100.0 + 0.5).Floor as real / 100.0
  }

  predicate AllTruthy(b: SipBody)
  {
    FieldTruthy(b.monthlyInvestment) && FieldTruthy(b.rate) && FieldTruthy(b.years)
  }

  /** The converted inputs pass the second validation. */
  predicate InRange(b: SipBody)
    requires AllTruthy(b)
  {
    var p := ParseFloat(b.monthlyInvestment);
    var r := MonthlyRate(ParseFloat(b.rate));
    var n := Months(ParseFloat(b.years));
    !(p <= 0.0 || r < 0.0 || n <= 0.0)
  }

  /** The power `(1 + r)^n` is taken only over a whole number of months. */
  predicate WholeMonthsWhenCompounding(request: Option<SipBody>)
  {
    request.Some? && AllTruthy(request.value) && InRange(request.value)
      && MonthlyRate(ParseFloat(request.value.rate)) != 0.0
    ==> IsWhole(Months(ParseFloat(request.value.years)))
  }

  /** The invested total P·n, the estimated returns (maturity amount less the
      invested total) and the maturity amount, each rounded to cents. */
  function Amounts(p: real, r: real, n: real): (real, real, real)
    requires r == 0.0 || (IsWhole(n) && n >= 0.0)
  {
    var maturity := Maturity(p, r, n);
    var totalInvested := p * n;
    (Round2(totalInvested), Round2(maturity - totalInvested), Round2(maturity))
  }

  /** The `data` of a successful reply: the parsed inputs echoed back, then the
      amounts for the monthly rate and the month count. */
  function Report(p: real, rate: real, years: real): (d: SipData)
    requires MonthlyRate(rate) == 0.0 || (IsWhole(Months(years)) && Months(years) >= 0.0)
    ensures d.monthlyInvestment == p && d.annualRate == rate && d.years == years
  {
    var a := Amounts(p, MonthlyRate(rate), Months(years));
    SipData(p, rate, years, a.0, a.1, a.2)
  }

  /** The handler of POST /api/sip/calculate: 500 without a body, 400 when a
      field is falsy, 400 when the converted values are out of range, and the
      report otherwise. */
  function Calculate(request: Option<SipBody>): (reply: SipReply)
    requires WholeMonthsWhenCompounding(request)
    ensures request.None? ==> reply == Failed(500, CalculationErrorMessage, NoBodyError)
    ensures request.Some? && !AllTruthy(request.value) ==> reply == Rejected(400, MissingFieldsMessage)
    ensures request.Some? && AllTruthy(request.value) && !InRange(request.value) ==>
              reply == Rejected(400, InvalidValuesMessage)
    ensures reply.Calculated? <==> request.Some? && AllTruthy(request.value) && InRange(request.value)
    ensures reply.Calculated? ==>
              var b := request.value;
              reply.data == Report(ParseFloat(b.monthlyInvestment), ParseFloat(b.rate), ParseFloat(b.years))
  {
    match request
    case None => Failed(500, CalculationErrorMessage, NoBodyError)
    case Some(b) =>
      if !AllTruthy(b) then Rejected(400, MissingFieldsMessage)
      else
        var p := ParseFloat(b.monthlyInvestment);
        var r := MonthlyRate(ParseFloat(b.rate));
        var n := Months(ParseFloat(b.years));
        if p <= 0.0 || r < 0.0 || n <= 0.0 then Rejected(400, InvalidValuesMessage)
        else Calculated(Report(p, ParseFloat(b.rate), ParseFloat(b.years)))
  }

  /** A numeric rate of 0 is falsy and is rejected before any arithmetic, while
      the string "0" is truthy and yields the interest-free amount P·n. */
  lemma ZeroRate(p: real, years: real)
    requires p > 0.0 && years > 0.0
    ensures Calculate(Some(SipBody(Number(p), Number(0.0), Number(years)))) == Rejected(400, MissingFieldsMessage)
    ensures Calculate(Some(SipBody(Number(p), Text("0", 0.0), Number(years)))).Calculated?
    ensures Calculate(Some(SipBody(Number(p), Text("0", 0.0), Number(years)))).data.finalAmount
            == Round2(p * Months(years))
  {
    var b := SipBody(Number(p), Text("0", 0.0), Number(years));
    assert MonthlyRate(0.0) == 0.0;
    assert Maturity(p, 0.0, Months(years)) == p * Months(years);
  }

  /** For a positive instalment, a non-negative rate and a whole number n of
      months, the reported maturity amount is the annuity-due sum P·Σ(1 + r)^k
      and the invested total is P·n, each to within half a cent; the reported
      returns are not negative; and the final amount is the reported total plus
      the reported returns to within the three roundings. */
  lemma AmountsMatchAnnuity(p: real, r: real, n: nat)
    requires p > 0.0 && r >= 0.0
    ensures var (totalInvested, estimatedReturns, finalAmount) := Amounts(p, r, n as real);
            -0.005 < finalAmount - p * Growth(r, n) <= 0.005
            && -0.005 < totalInvested - p * n as real <= 0.005
            && estimatedReturns >= 0.0
            && -0.015 < finalAmount - (totalInvested + estimatedReturns) < 0.015
  {
    assert (n as real).Floor == n;
    MaturityIsGrowth(p, r, n);
    ReturnsNonNegative(p, r, n);
    RoundingGap(Maturity(p, r, n as real), p * n as real);
  }

  lemma RoundingGap(m: real, t: real)
    ensures -0.015 < Round2(m) - (Round2(t) + Round2(m - t)) < 0.015
  {
  }
}
