/** Currency conversion at a published rate (src/anafpy/bnr/models.py), over exact
    rationals: the decimal context's 28 digits are never reached by real amounts. */
module BnrConversion {
  import opened Wrappers

  datatype FxRate = FxRate(quoted: real, multiplier: pos)
  type pos = x: int | 0 < x witness 1

  datatype FxRateSet = FxRateSet(baseCurrency: string, rates: map<string, FxRate>)

  /** A conversion; the result is in whole cents (bani). */
  datatype Conversion = Conversion(amount: real, currency: string, cents: int, rate: FxRate)

  /** `quantize(0.01, ROUND_HALF_UP)`, in cents: half away from zero. */
  function RoundCents(x: real): int {
    if x >= 0.0 then (x * 100.0 + 0.5).Floor else -((-x * 100.0 + 0.5).Floor)
  }

  function Exact(amount: real, rate: FxRate): real {
    amount * rate.quoted / rate.multiplier as real
  }

  /** `None` is the configuration error for a currency BNR does not quote; `code` is
      already stripped and upper-cased. */
  function Convert(set_: FxRateSet, amount: real, code: string): Option<Conversion> {
    if code == set_.baseCurrency then
      var one := FxRate(1.0, 1);
      Some(Conversion(amount, code, RoundCents(Exact(amount, one)), one))
    else if code in set_.rates then
      var rate := set_.rates[code];
      Some(Conversion(amount, code, RoundCents(Exact(amount, rate)), rate))
    else None
  }

  /** The price of a single unit of the currency. */
  function LeiPerUnit(rate: FxRate): real {
    rate.quoted / rate.multiplier as real
  }

  // ---- Rounding ------------------------------------------------------------------------

  /** Within half a cent, and a tie goes away from zero: this pins the result. */
  lemma RoundingExactly(x: real, n: int)
    ensures RoundCents(x) == n <==>
            (if x >= 0.0 then n as real - 0.5 <= x * 100.0 < n as real + 0.5
             else n as real - 0.5 < x * 100.0 <= n as real + 0.5)
  {
  }

  lemma RoundingIsOdd(x: real)
    ensures RoundCents(-x) == -RoundCents(x)
  {
  }

  lemma RoundingIsMonotone(x: real, y: real)
    requires x <= y
    ensures RoundCents(x) <= RoundCents(y)
  {
  }

  // ---- Conversion ----------------------------------------------------------------------

  lemma ExactIsLinear(a: real, b: real, rate: FxRate)
    ensures Exact(a + b, rate) == Exact(a, rate) + Exact(b, rate)
    ensures Exact(-a, rate) == -Exact(a, rate)
    ensures Exact(a, rate) == a * LeiPerUnit(rate) && LeiPerUnit(rate) * rate.multiplier as real == rate.quoted
  {
  }

  /** Within half a cent of `lei`, a tie going away from zero. */
  predicate IsNearestCent(cents: int, lei: real) {
    if lei >= 0.0 then cents as real - 0.5 <= 100.0 * lei < cents as real + 0.5
    else cents as real - 0.5 < 100.0 * lei <= cents as real + 0.5
  }

  /** A conversion keeps what was asked and uses the published rate: the result is the
      nearest cent to amount times quotation over multiplier, and the base currency's to the
      amount itself. There is none exactly for a currency that is neither. */
  lemma ConvertIsNearest(set_: FxRateSet, amount: real, code: string)
    ensures Convert(set_, amount, code).None? <==> code != set_.baseCurrency && code !in set_.rates
    ensures Convert(set_, amount, code).Some? ==>
              var c := Convert(set_, amount, code).value;
              && c.amount == amount && c.currency == code
              && (if code == set_.baseCurrency then
                    c.rate.quoted == 1.0 && c.rate.multiplier == 1 && IsNearestCent(c.cents, amount)
                  else
                    && c.rate == set_.rates[code]
                    && IsNearestCent(c.cents, amount * set_.rates[code].quoted / set_.rates[code].multiplier as real))
  {
    if code == set_.baseCurrency {
      assert Exact(amount, FxRate(1.0, 1)) == amount;
      NearestCent(amount);
    } else if code in set_.rates {
      var lei := amount * set_.rates[code].quoted / set_.rates[code].multiplier as real;
      assert Exact(amount, set_.rates[code]) == lei;
      NearestCent(lei);
    }
  }

  lemma NearestCent(lei: real)
    ensures IsNearestCent(RoundCents(lei), lei)
  {
    RoundingExactly(lei, RoundCents(lei));
  }

  lemma ConvertIsOdd(set_: FxRateSet, amount: real, code: string)
    requires Convert(set_, amount, code).Some?
    ensures Convert(set_, -amount, code).Some? && Convert(set_, -amount, code).value.cents == -Convert(set_, amount, code).value.cents
  {
    var c := Convert(set_, amount, code).value;
    ExactIsLinear(amount, 0.0, c.rate);
    RoundingIsOdd(Exact(amount, c.rate));
  }

  /** Conversion is monotone in the amount, upwards at a quotation that is not negative (as
      BNR's are) and downwards at one that is. */
  lemma ConvertIsMonotone(set_: FxRateSet, a: real, b: real, code: string)
    requires Convert(set_, a, code).Some? && a <= b
    ensures Convert(set_, b, code).Some?
    ensures var x, y := Convert(set_, a, code).value, Convert(set_, b, code).value;
            && (x.rate.quoted >= 0.0 ==> x.cents <= y.cents)
            && (x.rate.quoted <= 0.0 ==> x.cents >= y.cents)
  {
    var rate := Convert(set_, a, code).value.rate;
    if rate.quoted >= 0.0 {
      ExactGrows(a, b, rate);
      RoundingIsMonotone(Exact(a, rate), Exact(b, rate));
    }
    if rate.quoted <= 0.0 {
      ExactShrinks(a, b, rate);
      RoundingIsMonotone(Exact(b, rate), Exact(a, rate));
    }
  }

  lemma ExactShrinks(a: real, b: real, rate: FxRate)
    requires a <= b && rate.quoted <= 0.0
    ensures Exact(a, rate) >= Exact(b, rate)
  {
  }

  lemma ExactGrows(a: real, b: real, rate: FxRate)
    requires a <= b && rate.quoted >= 0.0
    ensures Exact(a, rate) <= Exact(b, rate)
  {
  }

  // ---- Lines of an invoice ---------------------------------------------------------------

  function Sum(amounts: seq<real>): real {
    if amounts == [] then 0.0 else Sum(amounts[..|amounts| - 1]) + amounts[|amounts| - 1]
  }

  function SumOfConverted(amounts: seq<real>, rate: FxRate): int {
    if amounts == [] then 0
    else SumOfConverted(amounts[..|amounts| - 1], rate) + RoundCents(Exact(amounts[|amounts| - 1], rate))
  }

  lemma {:induction false} LinesDrift(amounts: seq<real>, rate: FxRate)
    ensures var d := SumOfConverted(amounts, rate) as real - 100.0 * Exact(Sum(amounts), rate);
            -0.5 * |amounts| as real <= d <= 0.5 * |amounts| as real
  {
    if amounts == [] {
      assert Exact(0.0, rate) == 0.0;
    } else {
      var front, last := amounts[..|amounts| - 1], amounts[|amounts| - 1];
      LinesDrift(front, rate);
      ExactIsLinear(Sum(front), last, rate);
      RoundingExactly(Exact(last, rate), RoundCents(Exact(last, rate)));
    }
  }

  /** Converting line by line differs from converting the total by at most (n + 1) / 2
      cents. */
  lemma LinesAgainstTotal(set_: FxRateSet, amounts: seq<real>, code: string)
    requires code == set_.baseCurrency || code in set_.rates
    ensures var d := ConvertedLines(set_, amounts, code) - Convert(set_, Sum(amounts), code).value.cents;
            -(|amounts| + 1) <= 2 * d <= |amounts| + 1
  {
    var rate := if code == set_.baseCurrency then FxRate(1.0, 1) else set_.rates[code];
    LinesAtRate(set_, amounts, code, rate);
    LinesDrift(amounts, rate);
    var total := Exact(Sum(amounts), rate);
    RoundingExactly(total, RoundCents(total));
  }

  /** The cents of the lines, each converted by itself. */
  function ConvertedLines(set_: FxRateSet, amounts: seq<real>, code: string): int
    requires code == set_.baseCurrency || code in set_.rates
  {
    if amounts == [] then 0
    else ConvertedLines(set_, amounts[..|amounts| - 1], code) + Convert(set_, amounts[|amounts| - 1], code).value.cents
  }

  lemma {:induction false} LinesAtRate(set_: FxRateSet, amounts: seq<real>, code: string, rate: FxRate)
    requires code == set_.baseCurrency || code in set_.rates
    requires rate == if code == set_.baseCurrency then FxRate(1.0, 1) else set_.rates[code]
    ensures ConvertedLines(set_, amounts, code) == SumOfConverted(amounts, rate)
  {
    if amounts == [] {
    } else {
      LinesAtRate(set_, amounts[..|amounts| - 1], code, rate);
    }
  }

  /** The sum does not depend on how the lines are grouped. */
  lemma {:induction false} SumConcat(a: seq<real>, b: seq<real>)
    ensures Sum(a + b) == Sum(a) + Sum(b) && (|a| == 1 ==> Sum(a) == a[0])
    decreases |b|
  {
    if b == [] {
      assert a + b == a;
      assert |a| == 1 ==> a[..0] == [];
    } else {
      assert (a + b)[..|a + b| - 1] == a + b[..|b| - 1];
      SumConcat(a, b[..|b| - 1]);
    }
  }
}
