/** The two ways the routes turn the `:id` path segment into a number:
    `parseInt` (GET /api/products/:id) reads the leading decimal digits and
    ignores the rest, while `Number` (PUT and DELETE) accepts only a string
    that is entirely a decimal literal. NaN is `None`. Signs, whitespace,
    hexadecimal, exponents and fractions are not modelled. */
module JsNumbers {
  import opened Common

  predicate IsDigit(c: char)
  {
    '0' <= c <= '9'
  }

  predicate AllDigits(s: string)
  {
    forall i :: 0 <= i < |s| ==> IsDigit(s[i])
  }

  /** The value of a string of decimal digits, most significant first. */
  function DigitsValue(s: string): (n: nat)
    requires AllDigits(s)
  {
    if |s| == 0 then 0
    else DigitsValue(s[..|s| - 1]) * 10 + (s[|s| - 1] - '0') as nat
  }

  /** The longest prefix of `s` made of decimal digits. */
  function LeadingDigits(s: string): (p: string)
    ensures |p| <= |s| && p == s[..|p|]
    ensures AllDigits(p)
    ensures |p| < |s| ==> !IsDigit(s[|p|])
  {
    if |s| == 0 || !IsDigit(s[0]) then ""
    else [s[0]] + LeadingDigits(s[1..])
  }

  /** `parseInt(s)`: the value of the leading digits, NaN when there are none. */
  function ParseInt(s: string): (r: Option<int>)
    ensures r.None? <==> |s| == 0 || !IsDigit(s[0])
    ensures r.Some? ==> r.value >= 0
    ensures forall k :: 0 <= k <= |s| && AllDigits(s[..k]) && (k == |s| || !IsDigit(s[k])) ==>
      r == (if k == 0 then None else Some(DigitsValue(s[..k])))
  {
    var p := LeadingDigits(s);
    if |p| == 0 then None else Some(DigitsValue(p))
  }

  /** `Number(s)`: the empty string is 0, a digit string is its value,
      anything else is NaN. */
  function ToNumber(s: string): (r: Option<int>)
    ensures s == "" ==> r == Some(0)
    ensures r.None? <==> exists i :: 0 <= i < |s| && !IsDigit(s[i])
    ensures r.Some? ==> r.value >= 0
  {
    if AllDigits(s) then Some(DigitsValue(s)) else None
  }

  /** `String(n)` for a non-negative integer. */
  function ToDecimal(n: nat): (s: string)
    ensures |s| >= 1 && AllDigits(s)
  {
    if n < 10 then [('0' as int + n) as char]
    else ToDecimal(n / 10) + [('0' as int + n % 10) as char]
  }

  lemma {:induction false} DecimalRoundTrip(n: nat)
    ensures DigitsValue(ToDecimal(n)) == n
  {
    var s := ToDecimal(n);
    if n >= 10 {
      assert s[..|s| - 1] == ToDecimal(n / 10);
      DecimalRoundTrip(n / 10);
    }
  }

  /** Both parsers read back what `String(n)` prints. */
  lemma ParsersReadDecimal(n: nat)
    ensures ParseInt(ToDecimal(n)) == Some(n)
    ensures ToNumber(ToDecimal(n)) == Some(n)
  {
    var s := ToDecimal(n);
    DecimalRoundTrip(n);
    assert LeadingDigits(s) == s;
  }

  /** Where `Number` accepts a non-empty string, `parseInt` agrees with it. */
  lemma {:induction false} ParsersAgreeOnDigitStrings(s: string)
    requires ToNumber(s).Some? && |s| > 0
    ensures ParseInt(s) == ToNumber(s)
  {
    assert LeadingDigits(s) == s;
  }

  /** The parsers differ on a digit prefix followed by other text:
      `parseInt("7abc")` is 7 while `Number("7abc")` is NaN. */
  lemma ParsersDifferOnTrailingText()
    ensures ParseInt("7abc") == Some(7)
    ensures ToNumber("7abc") == None
  {
    assert LeadingDigits("abc") == "";
    assert LeadingDigits("7abc") == "7";
    assert DigitsValue("7") == DigitsValue("") * 10 + 7;
    assert !IsDigit("7abc"[1]);
  }
}
