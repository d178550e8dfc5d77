/** What the entry forms share: the amount sanitiser, `parseInt`, and the
    fields an edit form pre-fills from a stored number with `toString()`. */
module FormFields {
  import opened Wrappers
  import Text

  /** `value.replace(/[^0-9.]/g, '')`, the amount fields' `onChange`. */
  function Sanitise(value: string): (r: string)
    ensures forall i :: 0 <= i < |r| ==> Text.IsNumericChar(r[i])
    ensures Text.KeepNumeric(r) == r
  {
    Text.KeepNumericIdempotent(value);
    Text.KeepNumeric(value)
  }

  /** `parseInt(s)` on an optional sign and decimal digits; `None` is
      `NaN`. Leading whitespace is not modelled. */
  function ParseInt(s: string): (r: Option<int>)
    ensures r.None? <==> Text.LeadingDigits(if |s| > 0 && (s[0] == '-' || s[0] == '+') then s[1..] else s) == 0
    ensures r.Some? && r.value < 0 ==> s[0] == '-'
  {
    var signed := |s| > 0 && (s[0] == '-' || s[0] == '+');
    var body := if signed then s[1..] else s;
    var n := Text.LeadingDigits(body);
    if n == 0 then None
    else
      var v := Text.LeadingValue(body) as int;
      Some(if signed && s[0] == '-' then -v else v)
  }

  /** `parseInt` of the digits of a natural number gives it back. */
  lemma ParseIntExample()
    ensures ParseInt("3") == Some(3)
    ensures ParseInt("") == None
  {
    assert Text.LeadingDigits("3") == 1;
    assert "3"[..1] == "3";
  }

  /** Digits `ds` followed by anything that does not start with a digit
      are read as their decimal value `v`, negated after a minus and kept
      after a plus. */
  lemma ParseIntDigits(ds: string, rest: string, v: nat)
    requires |ds| > 0 && Text.AllDigits(ds) && v == Text.DigitsValue(ds)
    requires rest == [] || !Text.IsDigit(rest[0])
    ensures ParseInt(ds + rest) == Some(v)
    ensures ParseInt("-" + ds + rest) == Some(-(v as int))
    ensures ParseInt("+" + ds + rest) == Some(v)
  {
    DigitsBody(ds, rest);
    ReadsDigits(ds, rest, v);
  }

  /** With or without a sign, the digits read from `ds + rest` give `v`. */
  lemma ReadsDigits(ds: string, rest: string, v: nat)
    requires Text.LeadingDigits(ds + rest) > 0 && Text.LeadingValue(ds + rest) == v
    ensures ParseInt(ds + rest) == Some(v)
    ensures ParseInt("-" + ds + rest) == Some(-(v as int))
    ensures ParseInt("+" + ds + rest) == Some(v)
  {
    UnsignedDigits(ds + rest);
    SignedDigits('-', ds + rest, "-" + ds + rest, v);
    SignedDigits('+', ds + rest, "+" + ds + rest, v);
  }

  /** Without a sign the leading digits are read as they are. */
  lemma UnsignedDigits(body: string)
    requires Text.LeadingDigits(body) > 0
    ensures ParseInt(body) == Some(Text.LeadingValue(body))
  {
    assert Text.IsDigit(body[0]);
  }

  /** Digits followed by a non-digit are read as their decimal value. */
  lemma DigitsBody(ds: string, rest: string)
    requires |ds| > 0 && Text.AllDigits(ds)
    requires rest == [] || !Text.IsDigit(rest[0])
    ensures Text.LeadingDigits(ds + rest) == |ds| && Text.LeadingValue(ds + rest) == Text.DigitsValue(ds)
  {
    var s := ds + rest;
    assert s[..|ds|] == ds;
    assert |ds| < |s| ==> s[|ds|] == rest[0];
    Text.DigitsThen(s, ds);
  }

  /** A sign in front of the digits read sets the sign of the number. */
  lemma SignedDigits(sign: char, body: string, s: string, v: nat)
    requires sign == '-' || sign == '+'
    requires s == [sign] + body
    requires Text.LeadingDigits(body) > 0 && Text.LeadingValue(body) == v
    ensures ParseInt(s) == Some(if sign == '-' then -(v as int) else v)
  {
    assert s[0] == sign && s[1..] == body;
  }


  /** An edit form's field: text typed by the user, or a stored number
      shown with `toString()` (which `parseFloat` reads back exactly). */
  datatype Field = Entered(text: string) | Shown(value: real)

  /** JavaScript truthiness of the field's text: only the empty text is
      falsy, since `toString()` of a number is never empty. */
  predicate Filled(f: Field) {
    f.Shown? || f.text != ""
  }

  /** `parseFloat` of the field. */
  function AsFloat(f: Field): (r: Option<real>)
    ensures f.Shown? ==> r == Some(f.value)
    ensures f.Entered? ==> r == Text.ParseFloat(f.text)
  {
    match f
    case Entered(s) => Text.ParseFloat(s)
    case Shown(v) => Some(v)
  }

  /** `parseInt` of the field: a shown number is cut toward zero. */
  function AsInt(f: Field): (r: Option<int>)
    ensures f.Shown? && f.value >= 0.0 ==> r.Some? && r.value as real <= f.value < r.value as real + 1.0
    ensures f.Shown? && f.value < 0.0 ==> r.Some? && r.value as real - 1.0 < f.value <= r.value as real
  {
    match f
    case Entered(s) => ParseInt(s)
    case Shown(v) => Some(if v >= 0.0 then v.Floor else -((-v).Floor))
  }

  /** A shown whole number is read back unchanged. */
  lemma ShownIntRoundTrip(n: int)
    ensures AsInt(Shown(n as real)) == Some(n)
  {
    if n < 0 {
      assert (-(n as real)).Floor == -n;
    }
  }

  /** `x?.toString() || ''`: the stored value shown, or an empty field. */
  function Prefill(x: Option<real>): (f: Field)
    ensures Filled(f) <==> x.Some?
    ensures x.Some? ==> AsFloat(f) == x
    ensures x.None? ==> AsFloat(f).None?
  {
    Text.ParseFloatExamples();
    match x
    case Some(v) => Shown(v)
    case None => Entered("")
  }

  /** What a `catch` receives: an `Error` with its message, or any other
      value. */
  datatype Caught = ErrorInstance(message: string) | OtherValue

  /** `err instanceof Error ? err.message : fallback`. */
  function CaughtMessage(c: Caught, fallback: string): (m: string)
    ensures c.ErrorInstance? ==> m == c.message
    ensures c.OtherValue? ==> m == fallback
  {
    match c
    case ErrorInstance(message) => message
    case OtherValue => fallback
  }

  /** `s || null`: an empty text is stored as `null`. */
  function NullIfEmpty(s: string): (r: Option<string>)
    ensures r.None? <==> s == ""
    ensures r.Some? ==> r.value == s
  {
    if s == "" then None else Some(s)
  }
}
