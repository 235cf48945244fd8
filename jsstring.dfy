/** The few JavaScript string operations the core relies on. */
module JsString {
  import opened Wrappers

  /** `!!s` for an optional request field: present and not the empty string. */
  predicate Truthy(s: Option<string>) {
    s.Some? && s.value != ""
  }

  /** `s || fallback` for an optional string field. */
  function Or(s: Option<string>, fallback: string): string {
    if Truthy(s) then s.value else fallback
  }

  /** The characters `String.prototype.trim` removes (white space and line terminators). */
  predicate IsSpace(c: char) {
    || c == ' ' || c == '\t' || c == '\n' || c == '\r' || c == '\U{B}' || c == '\U{C}'
    || c == '\U{A0}' || c == '\U{1680}' || ('\U{2000}' <= c <= '\U{200A}')
    || c == '\U{2028}' || c == '\U{2029}' || c == '\U{202F}' || c == '\U{205F}'
    || c == '\U{3000}' || c == '\U{FEFF}'
  }

  predicate AllSpace(s: string) {
    forall i :: 0 <= i < |s| ==> IsSpace(s[i])
  }

  /** Drops leading white space: the result is a suffix of `s` that is empty
      or starts with a non-space, and everything dropped was white space. */
  function TrimStart(s: string): (r: string)
    ensures |r| <= |s| && r == s[|s| - |r|..]
    ensures r != [] ==> !IsSpace(r[0])
    ensures AllSpace(s[..|s| - |r|])
    decreases |s|
  {
    if s != [] && IsSpace(s[0]) then
      var r := TrimStart(s[1..]);
      assert s[..|s| - |r|] == [s[0]] + s[1..][..|s| - 1 - |r|];
      r
    else s
  }

  /** Drops trailing white space: the result is a prefix of `s` that is empty
      or ends with a non-space, and everything dropped was white space. */
  function TrimEnd(s: string): (r: string)
    ensures |r| <= |s| && r == s[..|r|]
    ensures r != [] ==> !IsSpace(r[|r| - 1])
    ensures AllSpace(s[|r|..])
    decreases |s|
  {
    if s != [] && IsSpace(s[|s| - 1]) then
      var r := TrimEnd(s[..|s| - 1]);
      assert s[|r|..] == s[..|s| - 1][|r|..] + [s[|s| - 1]];
      r
    else s
  }

  /** `s.trim()`. */
  function Trim(s: string): (r: string)
    ensures |r| <= |s|
    ensures r != [] ==> !IsSpace(r[0]) && !IsSpace(r[|r| - 1])
  {
    TrimEnd(TrimStart(s))
  }

  /** `s.trim()` is empty exactly when `s` is nothing but white space. */
  lemma TrimEmptyIff(s: string)
    ensures Trim(s) == "" <==> AllSpace(s)
  {
    var t := TrimStart(s);
    if Trim(s) == "" {
      assert AllSpace(t[0..]);
      assert s == s[..|s| - |t|] + t;
    }
  }

  /** Trimming twice is trimming once. */
  lemma TrimIdempotent(s: string)
    ensures Trim(Trim(s)) == Trim(s)
  {
    var r := Trim(s);
    if r != [] {
      assert TrimStart(r) == r;
      assert TrimEnd(r) == r;
    }
  }

  /** The form `trim` leaves: empty, or bounded by non-spaces at both ends. */
  predicate Bounded(s: string) {
    s != [] ==> !IsSpace(s[0]) && !IsSpace(s[|s| - 1])
  }

  /** Whatever `trim` returns is bounded. */
  lemma TrimIsBounded(s: string)
    ensures Bounded(Trim(s))
  {
  }

  /** A non-space-bounded string is its own trim. */
  lemma TrimOfTrimmed(s: string)
    requires s != [] ==> !IsSpace(s[0]) && !IsSpace(s[|s| - 1])
    ensures Trim(s) == s
  {
    assert TrimStart(s) == s;
  }

  /** ASCII-only `toUpperCase` of one character. */
  function UpperChar(c: char): char {
    if 'a' <= c <= 'z' then (c as int - 32) as char else c
  }

  /** ASCII-only `toLowerCase` of one character. */
  function LowerChar(c: char): char {
    if 'A' <= c <= 'Z' then (c as int + 32) as char else c
  }

  /** `s.toUpperCase()`, letter by letter. */
  function Upper(s: string): (r: string)
    ensures |r| == |s|
    ensures forall i :: 0 <= i < |s| ==> r[i] == UpperChar(s[i])
  {
    if s == [] then [] else [UpperChar(s[0])] + Upper(s[1..])
  }

  /** `s.toLowerCase()`, letter by letter. */
  function Lower(s: string): (r: string)
    ensures |r| == |s|
    ensures forall i :: 0 <= i < |s| ==> r[i] == LowerChar(s[i])
  {
    if s == [] then [] else [LowerChar(s[0])] + Lower(s[1..])
  }

  predicate IsUpperCase(s: string) {
    forall i :: 0 <= i < |s| ==> !('a' <= s[i] <= 'z')
  }

  /** Upper-casing yields no lower-case letter, so normalising twice is normalising once. */
  lemma UpperNormalises(s: string)
    ensures IsUpperCase(Upper(s))
    ensures Upper(Upper(s)) == Upper(s)
  {
  }

  /** An upper-case string is its own upper-casing. */
  lemma UpperOfUpperCase(s: string)
    requires IsUpperCase(s)
    ensures Upper(s) == s
  {
  }

  /** `t` sits in `s` at position `i`. */
  predicate OccursAt(s: string, t: string, i: int) {
    0 <= i && i + |t| <= |s| && s[i..i + |t|] == t
  }

  /** `s.includes(t)`: the search the browser runs, from left to right. */
  function Includes(s: string, t: string): (r: bool)
    ensures r <==> exists i :: OccursAt(s, t, i)
    decreases |s|
  {
    if |t| > |s| then false
    else if s[..|t|] == t then (assert OccursAt(s, t, 0); true)
    else
      var rest := Includes(s[1..], t);
      assert forall i :: OccursAt(s[1..], t, i) <==> OccursAt(s, t, i + 1);
      assert !OccursAt(s, t, 0);
      assert forall i :: OccursAt(s, t, i) ==> i == 0 || OccursAt(s[1..], t, i - 1);
      rest
  }

  /** Every string includes the empty string. */
  lemma IncludesEmpty(s: string)
    ensures Includes(s, "")
  {
    assert OccursAt(s, "", 0);
  }
}
