/** String operations the original code relies on: `toLowerCase`,
    `includes`, `lastIndexOf`, `slice`, `trim`, the `/[^0-9.]/g` sanitiser
    and `parseFloat`, each on strings as sequences of characters. */
module Text {
  import opened Wrappers

  predicate IsAsciiUpper(c: char) { 'A' <= c <= 'Z' }
  predicate IsAsciiLower(c: char) { 'a' <= c <= 'z' }
  predicate IsDigit(c: char) { '0' <= c <= '9' }

  /** `toLowerCase` on one character (ASCII letters only). */
  function LowerChar(c: char): (r: char)
    ensures IsAsciiUpper(c) ==> IsAsciiLower(r)
    ensures !IsAsciiUpper(c) ==> r == c
  {
    if IsAsciiUpper(c) then (c as int + 32) as char else c
  }

  function ToLower(s: string): (r: string)
    ensures |r| == |s|
    ensures forall i :: 0 <= i < |s| ==> r[i] == LowerChar(s[i])
  {
    seq(|s|, i requires 0 <= i < |s| => LowerChar(s[i]))
  }

  /** `s.length`: JavaScript counts UTF-16 code units, two for a
      character above U+FFFF (a surrogate pair) and one for any other. */
  function Utf16Length(s: string): (n: nat)
    ensures |s| <= n <= 2 * |s|
    ensures n == |s| <==> forall i :: 0 <= i < |s| ==> s[i] as int <= 0xFFFF
    decreases |s|
  {
    if s == [] then 0
    else
      var n := Utf16Length(s[1..]);
      assert forall i :: 1 <= i < |s| ==> s[i] == s[1..][i - 1];
      (if s[0] as int > 0xFFFF then 2 else 1) + n
  }

  /** The length of a concatenation is the sum of the lengths. */
  lemma {:induction false} Utf16LengthAppend(s: string, t: string)
    ensures Utf16Length(s + t) == Utf16Length(s) + Utf16Length(t)
    decreases |s|
  {
    if s != [] {
      assert (s + t)[0] == s[0] && (s + t)[1..] == s[1..] + t;
      Utf16LengthAppend(s[1..], t);
    } else {
      assert s + t == t;
    }
  }

  predicate StartsWith(s: string, prefix: string) {
    |prefix| <= |s| && s[..|prefix|] == prefix
  }

  /** `s.includes(t)`: `t` occurs in `s` as a contiguous block. */
  predicate Includes(s: string, t: string)
    decreases |s|
  {
    StartsWith(s, t) || (|s| > 0 && Includes(s[1..], t))
  }

  /** The empty string occurs in every string. */
  lemma IncludesEmpty(s: string)
    ensures Includes(s, "")
  {
    assert StartsWith(s, "");
  }

  /** `t` occurs in `s` starting at index `i`. */
  predicate OccursAt(s: string, t: string, i: int) {
    0 <= i && i + |t| <= |s| && s[i..i + |t|] == t
  }

  /** `t` occurs in `s` exactly when some block of `s` equals `t`. */
  lemma {:induction false} IncludesAt(s: string, t: string)
    ensures Includes(s, t) <==> exists i :: OccursAt(s, t, i)
    decreases |s|
  {
    if StartsWith(s, t) {
      assert OccursAt(s, t, 0);
    }
    if |s| > 0 {
      IncludesAt(s[1..], t);
      if i :| OccursAt(s, t, i) {
        if i > 0 {
          assert s[1..][i - 1..i - 1 + |t|] == s[i..i + |t|];
          assert OccursAt(s[1..], t, i - 1);
        } else {
          assert StartsWith(s, t);
        }
      }
      if i :| OccursAt(s[1..], t, i) {
        assert s[i + 1..i + 1 + |t|] == s[1..][i..i + |t|];
        assert OccursAt(s, t, i + 1);
      }
    } else if i :| OccursAt(s, t, i) {
      assert StartsWith(s, t);
    }
  }

  /** The case-insensitive search used by every list filter:
      `field.toLowerCase().includes(term.toLowerCase())`. */
  predicate MatchesSearch(field: string, term: string) {
    Includes(ToLower(field), ToLower(term))
  }

  /** An empty search term matches every field. */
  lemma EmptySearchMatches(field: string)
    ensures MatchesSearch(field, "")
  {
    IncludesEmpty(ToLower(field));
  }

  /** The largest index below `k` holding `c`, or -1. */
  function LastIndexBelow(s: string, c: char, k: nat): (r: int)
    requires k <= |s|
    ensures -1 <= r < k
    ensures r >= 0 ==> s[r] == c
    ensures forall j :: r < j < k ==> s[j] != c
    decreases k
  {
    if k == 0 then -1 else if s[k - 1] == c then k - 1 else LastIndexBelow(s, c, k - 1)
  }

  /** `s.lastIndexOf(c, pos)` for a one-character search string: the last
      occurrence at or before `pos` (clamped to the string), or -1. */
  function LastIndexOfFrom(s: string, c: char, pos: int): (r: int)
    ensures -1 <= r < |s|
    ensures r >= 0 ==> s[r] == c && r <= (if pos < 0 then 0 else pos)
    ensures forall j :: r < j < |s| && j <= pos ==> s[j] != c
    ensures pos < 0 && |s| > 0 && s[0] == c ==> r == 0
  {
    var k := if pos < 0 then 1 else if pos + 1 > |s| then |s| else pos + 1;
    if |s| == 0 then -1 else LastIndexBelow(s, c, k)
  }

  /** `s.lastIndexOf(c)`: the last occurrence anywhere, or -1. */
  function LastIndexOf(s: string, c: char): (r: int)
    ensures -1 <= r < |s|
    ensures r >= 0 ==> s[r] == c
    ensures forall j :: r < j < |s| ==> s[j] != c
  {
    LastIndexBelow(s, c, |s|)
  }

  /** A `slice` bound: negative values count from the end, then clamp. */
  function SliceBound(i: int, len: nat): (r: nat)
    ensures r <= len
  {
    if i < 0 then (if len + i < 0 then 0 else len + i) else if i > len then len else i
  }

  /** `s.slice(start, end)` with JavaScript's treatment of negative bounds. */
  function Slice(s: string, start: int, end: int): string {
    var a := SliceBound(start, |s|);
    var b := SliceBound(end, |s|);
    if a < b then s[a..b] else ""
  }

  /** Within the string `slice` takes the characters from `start` up to
      `end`, and a negative start counts back from the end. */
  lemma SliceMeaning(s: string, start: int, end: int)
    ensures 0 <= start <= end <= |s| ==> Slice(s, start, end) == s[start..end]
    ensures -|s| <= start < 0 ==> Slice(s, start, |s|) == s[|s| + start..]
    ensures 0 <= end <= start ==> Slice(s, start, end) == ""
  {
  }

  /** Cutting at any bound `k`, the slice before it and the slice from it
      give the string back. */
  lemma SliceSplit(s: string, k: int)
    ensures Slice(s, 0, k) + SliceFrom(s, k) == s
  {
    var b := SliceBound(k, |s|);
    if b == 0 {
      assert SliceFrom(s, k) == s;
    } else {
      assert Slice(s, 0, k) == s[..b];
    }
  }

  /** `s.slice(start)`. */
  function SliceFrom(s: string, start: int): string {
    s[SliceBound(start, |s|)..]
  }

  /** The characters the amount sanitiser keeps. */
  predicate IsNumericChar(c: char) { IsDigit(c) || c == '.' }

  /** `value.replace(/[^0-9.]/g, '')`: keep digits and dots, in order. */
  function KeepNumeric(s: string): (r: string)
    ensures |r| <= |s|
    ensures forall i :: 0 <= i < |r| ==> IsNumericChar(r[i])
  {
    if s == [] then [] else (if IsNumericChar(s[0]) then [s[0]] else []) + KeepNumeric(s[1..])
  }

  /** The sanitiser leaves an already clean string alone, and only those. */
  lemma {:induction false} KeepNumericFixedPoint(s: string)
    ensures KeepNumeric(s) == s <==> forall i :: 0 <= i < |s| ==> IsNumericChar(s[i])
    decreases |s|
  {
    if s != [] {
      KeepNumericFixedPoint(s[1..]);
      if !IsNumericChar(s[0]) {
        assert |KeepNumeric(s)| < |s|;
      } else {
        assert KeepNumeric(s) == [s[0]] + KeepNumeric(s[1..]);
        if KeepNumeric(s) == s {
          assert KeepNumeric(s[1..]) == s[1..];
        }
        if forall i :: 0 <= i < |s| ==> IsNumericChar(s[i]) {
          assert forall i :: 0 <= i < |s[1..]| ==> IsNumericChar(s[1..][i]) by {
            forall i | 0 <= i < |s[1..]| ensures IsNumericChar(s[1..][i]) {
              assert s[1..][i] == s[i + 1];
            }
          }
        }
      }
    }
  }

  /** Sanitising twice is the same as sanitising once. */
  lemma KeepNumericIdempotent(s: string)
    ensures KeepNumeric(KeepNumeric(s)) == KeepNumeric(s)
  {
    KeepNumericFixedPoint(KeepNumeric(s));
  }

  /** The whitespace `String.prototype.trim` removes: the white space
      characters (tab, vertical tab, form feed, space, no-break space, the
      byte-order mark and the other space separators of Unicode category
      Zs) and the line terminators. */
  predicate IsJsSpace(c: char) {
    c == '\t' || c == '\U{B}' || c == '\U{C}' || c == ' ' || c == '\U{A0}' || c == '\U{FEFF}'
    || c == '\U{1680}' || '\U{2000}' <= c <= '\U{200A}' || c == '\U{202F}' || c == '\U{205F}' || c == '\U{3000}'
    || c == '\n' || c == '\r' || c == '\U{2028}' || c == '\U{2029}'
  }

  /** The ideographic space and the other wide spaces are trimmed too. */
  lemma TrimWideSpaces()
    ensures Trim("\U{3000}") == ""
    ensures Trim("\U{2003}a\U{1680}") == "a"
  {
    TrimBlank("\U{3000}");
    EmSpaceTrimmed();
    OghamSpaceTrimmed();
  }

  lemma EmSpaceTrimmed()
    ensures TrimStart("\U{2003}a\U{1680}") == "a\U{1680}"
  {
    assert "\U{2003}a\U{1680}"[1..] == "a\U{1680}";
  }

  lemma OghamSpaceTrimmed()
    ensures TrimEnd("a\U{1680}") == "a"
  {
    assert "a\U{1680}"[..1] == "a";
  }

  function TrimStart(s: string): (r: string)
    ensures |r| <= |s| && r == s[|s| - |r|..]
    ensures r == [] || !IsJsSpace(r[0])
    ensures forall i :: 0 <= i < |s| - |r| ==> IsJsSpace(s[i])
    decreases |s|
  {
    if s != [] && IsJsSpace(s[0]) then
      var r := TrimStart(s[1..]);
      assert forall i :: 1 <= i < |s| - |r| ==> IsJsSpace(s[i]) by {
        forall i | 1 <= i < |s| - |r| ensures IsJsSpace(s[i]) { assert s[i] == s[1..][i - 1]; }
      }
      r
    else s
  }

  function TrimEnd(s: string): (r: string)
    ensures |r| <= |s| && r == s[..|r|]
    ensures r == [] || !IsJsSpace(r[|r| - 1])
    ensures forall i :: |r| <= i < |s| ==> IsJsSpace(s[i])
    decreases |s|
  {
    if s != [] && IsJsSpace(s[|s| - 1]) then TrimEnd(s[..|s| - 1]) else s
  }

  /** `s.trim()`. */
  function Trim(s: string): string {
    TrimEnd(TrimStart(s))
  }

  /** Trimming leaves nothing exactly when the text is all whitespace. */
  lemma TrimBlank(s: string)
    ensures Trim(s) == "" <==> forall i :: 0 <= i < |s| ==> IsJsSpace(s[i])
  {
    var a := TrimStart(s);
    if a != [] {
      var k := |s| - |a|;
      assert s[k] == a[0];
    }
  }

  /** What trimming keeps is a block of the original text that neither
      starts nor ends with whitespace. */
  lemma TrimKeepsBlock(s: string)
    ensures Trim(s) != "" ==> !IsJsSpace(Trim(s)[0]) && !IsJsSpace(Trim(s)[|Trim(s)| - 1])
    ensures OccursAt(s, Trim(s), |s| - |TrimStart(s)|)
  {
    var a := TrimStart(s);
    var r := TrimEnd(a);
    assert Trim(s) == r;
    PrefixOfSuffix(s, a, r);
    if r != "" {
      assert r[0] == a[0];
    }
  }

  /** A prefix of a suffix of `s` is a block of `s`. */
  lemma PrefixOfSuffix(s: string, a: string, r: string)
    requires |a| <= |s| && a == s[|s| - |a|..]
    requires |r| <= |a| && r == a[..|r|]
    ensures OccursAt(s, r, |s| - |a|)
  {
    var k := |s| - |a|;
    assert s[k..k + |r|] == r;
  }

  /** The number of leading decimal digits of `s`. */
  function LeadingDigits(s: string): (n: nat)
    ensures n <= |s|
    ensures forall i :: 0 <= i < n ==> IsDigit(s[i])
    ensures n < |s| ==> !IsDigit(s[n])
    decreases |s|
  {
    if s == [] || !IsDigit(s[0]) then 0 else 1 + LeadingDigits(s[1..])
  }

  /** The value of one decimal digit. */
  function DigitValue(c: char): (d: nat)
    requires IsDigit(c)
    ensures d <= 9
  {
    c as int - '0' as int
  }

  /** The value of a string of decimal digits. */
  function DigitsValue(ds: string): nat
    requires forall i :: 0 <= i < |ds| ==> IsDigit(ds[i])
    decreases |ds|
  {
    if ds == [] then 0 else DigitsValue(ds[..|ds| - 1]) * 10 + DigitValue(ds[|ds| - 1])
  }

  /** The value of the leading decimal digits of `s` (0 when there are
      none). */
  function LeadingValue(s: string): nat {
    var n := LeadingDigits(s);
    assert forall i :: 0 <= i < n ==> s[..n][i] == s[i];
    DigitsValue(s[..n])
  }

  function Pow10(n: nat): (r: nat)
    ensures r >= 1
  {
    if n == 0 then 1 else 10 * Pow10(n - 1)
  }

  /** The unsigned part of `parseFloat`: the longest prefix of the form
      digits, or digits `.` digits, or `.` digits; `None` when it has no digit. */
  function ParseUnsigned(body: string): (r: Option<real>)
    ensures r.Some? ==> r.value >= 0.0
    ensures r.None? <==> LeadingDigits(body) == 0 && !(|body| > 1 && body[0] == '.' && IsDigit(body[1]))
  {
    var ip := LeadingDigits(body);
    var rest := body[ip..];
    var fp := if |rest| > 0 && rest[0] == '.' then LeadingDigits(rest[1..]) else 0;
    if ip == 0 && fp == 0 then None
    else
      var whole := LeadingValue(body) as real;
      var fraction := if fp == 0 then 0.0 else LeadingValue(rest[1..]) as real / Pow10(fp) as real;
      Some(whole + fraction)
  }

  /** `parseFloat(s)` on the grammar the forms produce: an optional sign
      followed by the unsigned part. `None` stands for `NaN`. Exponents,
      `Infinity` and leading whitespace are not modelled. */
  function ParseFloat(s: string): (r: Option<real>)
    ensures r.Some? && r.value < 0.0 ==> |s| > 0 && s[0] == '-'
    ensures r.None? <==> ParseUnsigned(if |s| > 0 && (s[0] == '-' || s[0] == '+') then s[1..] else s).None?
  {
    if |s| > 0 && (s[0] == '-' || s[0] == '+') then
      match ParseUnsigned(s[1..])
      case None => None
      case Some(v) => Some(if s[0] == '-' then -v else v)
    else ParseUnsigned(s)
  }

  /** An amount typed through the sanitiser never parses to a negative number. */
  lemma SanitisedNeverNegative(s: string)
    ensures ParseFloat(KeepNumeric(s)).Some? ==> ParseFloat(KeepNumeric(s)).value >= 0.0
  {
    var k := KeepNumeric(s);
    if |k| > 0 {
      assert IsNumericChar(k[0]);
    }
  }

  predicate AllDigits(s: string) {
    forall i :: 0 <= i < |s| ==> IsDigit(s[i])
  }

  /** A prefix of digits followed by a non-digit, or by the end, is the
      leading-digit run. */
  lemma LeadingDigitsUpTo(s: string, n: nat)
    requires n <= |s| && forall i :: 0 <= i < n ==> IsDigit(s[i])
    requires n == |s| || !IsDigit(s[n])
    ensures LeadingDigits(s) == n
  {
  }

  /** A string of digits parses to its decimal value. */
  lemma ParseFloatDigits(ds: string)
    requires |ds| > 0 && AllDigits(ds)
    ensures ParseFloat(ds) == Some(DigitsValue(ds) as real)
  {
    AllLeading(ds);
  }

  /** Digits, a dot and digits, with a digit on at least one side of the
      dot, parse to the whole part plus the fraction the digits after the
      dot stand for. */
  lemma ParseFloatDecimal(ds: string, fs: string)
    requires AllDigits(ds) && AllDigits(fs) && |ds| + |fs| > 0
    ensures ParseFloat(ds + "." + fs) == Some(DigitsValue(ds) as real + DigitsValue(fs) as real / Pow10(|fs|) as real)
  {
    var s := ds + "." + fs;
    assert s[..|ds|] == ds && s[|ds|] == '.' && s[|ds| + 1..] == fs;
    assert s[0] == if |ds| > 0 then ds[0] else '.';
    UnsignedParse(s);
    WholePart(s, ds);
    AllLeading(fs);
    ParseUnsignedDecimal(s, |ds|, fs);
    if |fs| == 0 {
      NoFraction(fs);
    }
    DecimalSum(s, DigitsValue(ds), DigitsValue(fs), Pow10(|fs|), |fs|);
  }

  /** Puts the parsed whole part and fraction together. */
  lemma DecimalSum(s: string, w: nat, f: nat, k: nat, n: nat)
    requires ParseFloat(s) == ParseUnsigned(s) && ParseUnsigned(s).Some? && k >= 1
    requires ParseUnsigned(s).value == w as real + (if n == 0 then 0.0 else f as real / k as real)
    requires n == 0 ==> f as real / k as real == 0.0
    ensures ParseFloat(s) == Some(w as real + f as real / k as real)
  {
  }

  /** Without a sign, `parseFloat` is its unsigned part. */
  lemma UnsignedParse(s: string)
    requires |s| > 0 && s[0] != '-' && s[0] != '+'
    ensures ParseFloat(s) == ParseUnsigned(s)
  {
  }

  /** No digits after the dot stand for nothing. */
  lemma NoFraction(fs: string)
    requires |fs| == 0
    ensures DigitsValue(fs) as real / Pow10(|fs|) as real == 0.0
  {
  }

  /** The unsigned part of leading digits, a dot and digits. */
  lemma ParseUnsignedDecimal(s: string, n: nat, fs: string)
    requires n < |s| && LeadingDigits(s) == n && s[n] == '.' && s[n + 1..] == fs
    requires LeadingDigits(fs) == |fs| && n + |fs| > 0
    ensures ParseUnsigned(s).Some?
    ensures ParseUnsigned(s).value == LeadingValue(s) as real + (if |fs| == 0 then 0.0 else LeadingValue(fs) as real / Pow10(|fs|) as real)
  {
    assert s[n..][1..] == fs;
  }

  /** When digits are followed by a dot, they are the leading digits and
      give the leading value. */
  lemma WholePart(s: string, ds: string)
    requires AllDigits(ds) && |ds| < |s| && s[..|ds|] == ds && s[|ds|] == '.'
    ensures LeadingDigits(s) == |ds| && LeadingValue(s) == DigitsValue(ds)
  {
    assert forall i :: 0 <= i < |ds| ==> s[i] == ds[i];
    LeadingDigitsUpTo(s, |ds|);
  }

  /** Digits followed by the end or by a non-digit are the leading digits
      and give the leading value. */
  lemma DigitsThen(s: string, ds: string)
    requires AllDigits(ds) && |ds| <= |s| && s[..|ds|] == ds
    requires |ds| == |s| || !IsDigit(s[|ds|])
    ensures LeadingDigits(s) == |ds| && LeadingValue(s) == DigitsValue(ds)
  {
    assert forall i :: 0 <= i < |ds| ==> s[i] == ds[i];
    LeadingDigitsUpTo(s, |ds|);
  }

  /** A string of digits is all leading digits. */
  lemma AllLeading(ds: string)
    requires AllDigits(ds)
    ensures LeadingDigits(ds) == |ds| && LeadingValue(ds) == DigitsValue(ds)
  {
    LeadingDigitsUpTo(ds, |ds|);
    assert ds[..|ds|] == ds;
  }

  /** Worked values: "12.5" is 12.5, "007" is 7, "." and "" are `NaN`. */
  lemma ParseFloatExamples()
    ensures ParseFloat("12.5") == Some(12.5)
    ensures ParseFloat("007") == Some(7.0)
    ensures ParseFloat(".") == None
    ensures ParseFloat("") == None
  {
    ParseFloatFraction();
    ParseFloatLeadingZeros();
  }

  lemma ParseFloatFraction()
    ensures ParseFloat("12.5") == Some(12.5)
  {
    assert LeadingDigits("12.5") == 2;
    assert "12.5"[..2] == "12";
    assert "12.5"[2..] == ".5";
    assert ".5"[1..] == "5";
    assert LeadingDigits("5") == 1;
    assert DigitsValue("12") == 12 by { assert "12"[..1] == "1"; }
  }

  lemma ParseFloatLeadingZeros()
    ensures ParseFloat("007") == Some(7.0)
  {
    assert LeadingDigits("007") == 3;
    assert "007"[..3] == "007";
    assert "007"[3..] == "";
    assert DigitsValue("007") == 7 by { assert "007"[..2] == "00"; assert "00"[..1] == "0"; }
  }
}
