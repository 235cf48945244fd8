/** The browser's `localStorage` and the number/string conversions the
    session code applies to what it stores. */
module BrowserStorage {
  import opened Wrappers
  import JsString

  /** A key/value store of strings. */
  class LocalStorage {
    var items: map<string, string>

    constructor ()
      ensures items == map[]
    {
      items := map[];
    }

    /** `getItem(key)`: None stands for null. */
    function GetItem(key: string): Option<string>
      reads this
    {
      if key in items then Some(items[key]) else None
    }

    /** `setItem(key, value)`. */
    method SetItem(key: string, value: string)
      modifies this
      ensures items == old(items)[key := value]
    {
      items := items[key := value];
    }

    /** `clear()`. */
    method Clear()
      modifies this
      ensures items == map[]
    {
      items := map[];
    }
  }

  predicate IsDigit(c: char) {
    '0' <= c <= '9'
  }

  predicate AllDigits(s: string) {
    forall i :: 0 <= i < |s| ==> IsDigit(s[i])
  }

  function DigitChar(d: nat): (c: char)
    requires d < 10
    ensures IsDigit(c) && c as int - '0' as int == d
  {
    ('0' as int + d) as char
  }

  /** `n.toString()` for a non-negative integer, in decimal. */
  function NatToString(n: nat): (s: string)
    ensures s != [] && AllDigits(s)
    ensures s[0] == '0' <==> n == 0
    ensures |s| > 1 ==> s[0] != '0'
  {
    if n < 10 then [DigitChar(n)] else NatToString(n / 10) + [DigitChar(n % 10)]
  }

  /** The value of a string of decimal digits. */
  function DigitsValue(s: string): nat
    requires AllDigits(s)
  {
    if s == [] then 0 else DigitsValue(s[..|s| - 1]) * 10 + (s[|s| - 1] as int - '0' as int)
  }

  /** `Number(s)`, with None standing for NaN: surrounding white space is
      ignored, a blank string is 0, and a run of decimal digits is its value. */
  function JsNumber(s: string): (r: Option<int>)
  {
    var t := JsString.Trim(s);
    if t == "" then Some(0)
    else if AllDigits(t) then Some(DigitsValue(t))
    else None
  }

  /** What `Number(s)` gives: 0 for a blank string, NaN exactly when the
      trimmed text is not a run of decimal digits, never a negative value. */
  lemma NumberCases(s: string)
    ensures JsString.AllSpace(s) ==> JsNumber(s) == Some(0)
    ensures JsNumber(s).None? <==> !JsString.AllSpace(s) && !AllDigits(JsString.Trim(s))
    ensures JsNumber(s).Some? ==> JsNumber(s).value >= 0
  {
    JsString.TrimEmptyIff(s);
  }

  /** `String(v)` for a value that may be undefined. */
  function Stringify(v: Option<string>): string {
    if v.Some? then v.value else "undefined"
  }

  lemma {:induction false} DigitsValueOfNatToString(n: nat)
    ensures DigitsValue(NatToString(n)) == n
  {
    if n >= 10 {
      var s := NatToString(n);
      assert s[..|s| - 1] == NatToString(n / 10);
      DigitsValueOfNatToString(n / 10);
    }
  }

  /** Reading back a stored number: `Number(String(n)) == n`. */
  lemma NumberOfString(n: nat)
    ensures JsNumber(NatToString(n)) == Some(n)
  {
    var s := NatToString(n);
    JsString.TrimOfTrimmed(s);
    DigitsValueOfNatToString(n);
  }
}
