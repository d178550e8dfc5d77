/** `src/lib/constants.ts`: the fixed USD/TRY rates and `formatCurrency`,
    which converts an amount between the two currencies and shows it with
    the target currency's sign and two decimals. Digit grouping by locale
    is not modelled: the displayed number is its value in cents. */
module Constants {
  import opened Wrappers
  import opened Entities
  import Money

  const UsdToTry: real := 35.39
  const TryToUsd: real := 1.0 / 35.39

  /** A formatted amount: the currency sign and the value rounded to cents. */
  datatype Display = Display(sign: char, cents: int)

  /** The sign for a currency. */
  function Sign(c: Currency): (s: char)
    ensures s == '$' <==> c == USD
  {
    if c == USD then '$' else '\U{20BA}'
  }

  /** The conversion `formatCurrency` applies. */
  function Convert(amount: real, from: Currency, to: Currency): (r: real)
    ensures from == to ==> r == amount
    ensures from == USD && to == TRY ==> r == amount * UsdToTry
    ensures from == TRY && to == USD ==> r * UsdToTry == amount
  {
    if from == to then amount
    else if from == USD then amount * UsdToTry
    else amount * TryToUsd
  }

  /** Converting there and back gives the original amount (in exact arithmetic). */
  lemma ConvertRoundTrip(amount: real, from: Currency, to: Currency)
    ensures Convert(Convert(amount, from, to), to, from) == amount
  {
  }

  /** Rounding to a whole number of cents, halves away from zero as the
      number formatter does. */
  function RoundHalfAway(x: real): (n: int)
    ensures x >= 0.0 ==> n >= 0 && n as real - 0.5 <= x < n as real + 0.5
    ensures x < 0.0 ==> n <= 0 && n as real - 0.5 < x <= n as real + 0.5
  {
    if x >= 0.0 then Money.Round(x) else -Money.Round(-x)
  }

  /** `formatCurrency(amount, from, to)`; `None` is `null` or `undefined`. */
  function FormatCurrency(amount: Option<real>, from: Currency, to: Currency): (d: Display)
    ensures d.sign == Sign(to)
    ensures amount.None? ==> d.cents == 0
    ensures amount.Some? ==> d.cents == RoundHalfAway(Convert(amount.value, from, to) * 100.0)
  {
    match amount
    case None => Display(Sign(to), 0)
    case Some(a) => Display(Sign(to), RoundHalfAway(Convert(a, from, to) * 100.0))
  }

  /** The shown value is within half a cent of the converted amount. */
  lemma FormatWithinHalfCent(amount: real, from: Currency, to: Currency)
    ensures var c := FormatCurrency(Some(amount), from, to).cents as real;
      -0.5 <= c - Convert(amount, from, to) * 100.0 <= 0.5
  {
  }

  /** A same-currency amount already in whole cents is shown exactly. */
  lemma FormatWholeCents(cents: int, c: Currency)
    ensures FormatCurrency(Some(cents as real / 100.0), c, c) == Display(Sign(c), cents)
  {
    assert Convert(cents as real / 100.0, c, c) * 100.0 == cents as real;
    if cents >= 0 {
      Money.RoundUnique(cents as real, cents);
    } else {
      Money.RoundUnique(-cents as real, -cents);
    }
  }
}
