/** The JavaScript string operations the handlers rely on: `trim`, `toLowerCase`,
    and the `x?.trim() || null` / `x?.trim() ?? old` idioms for optional text. */
module Text {
  import opened Common

  /** White space as JavaScript's `trim` and `parseInt` skip it: the ASCII spaces,
      the line terminators, NO-BREAK SPACE and the byte order mark (the other
      Unicode space separators are not modelled). */
  predicate IsSpace(c: char) {
    c == ' ' || c == '\t' || c == '\n' || c == '\r' || c == '\U{000B}' || c == '\U{000C}' ||
    c == '\U{00A0}' || c == '\U{FEFF}' || c == '\U{2028}' || c == '\U{2029}'
  }

  predicate AllSpace(s: string) {
    forall i :: 0 <= i < |s| ==> IsSpace(s[i])
  }

  /** `s` without its leading white space. */
  function TrimStart(s: string): (r: string)
    ensures |r| <= |s| && r == s[|s| - |r|..]
    ensures AllSpace(s[..|s| - |r|])
    ensures r == [] || !IsSpace(r[0])
  {
    if s != [] && IsSpace(s[0]) then TrimStart(s[1..]) else s
  }

  /** `s` without its trailing white space. */
  function TrimEnd(s: string): (r: string)
    ensures |r| <= |s| && r == s[..|r|]
    ensures AllSpace(s[|r|..])
    ensures r == [] || !IsSpace(r[|r| - 1])
  {
    if s != [] && IsSpace(s[|s| - 1]) then TrimEnd(s[..|s| - 1]) else s
  }

  /** JavaScript's `s.trim()`. */
  function Trim(s: string): string {
    TrimEnd(TrimStart(s))
  }

  /** The `!x || x.trim() === ''` test the handlers apply to required names. */
  predicate IsBlank(name: Option<string>) {
    name.None? || Trim(name.value) == ""
  }

  /** JavaScript truthiness of an optional string: present and not empty. */
  predicate Truthy(s: Option<string>) {
    s.Some? && s.value != ""
  }

  /** `x?.trim() || null`: absent, or empty after trimming, becomes null. */
  function TrimOrNull(x: Option<string>): (r: Option<string>)
    ensures r.None? <==> IsBlank(x)
    ensures r.Some? ==> r.value == Trim(x.value)
  {
    if x.None? || Trim(x.value) == "" then None else Some(Trim(x.value))
  }

  /** `x?.trim() ?? current` for a required text column: an absent field keeps the
      current value; a present one is trimmed, even down to "". */
  function TrimOr(x: Option<string>, current: string): (r: string)
    ensures x.None? ==> r == current
    ensures x.Some? ==> r == Trim(x.value)
  {
    if x.None? then current else Trim(x.value)
  }

  /** `x?.trim() ?? current` for a nullable text column. */
  function TrimOrKeep(x: Option<string>, current: Option<string>): (r: Option<string>)
    ensures x.None? ==> r == current
    ensures x.Some? ==> r == Some(Trim(x.value))
  {
    if x.None? then current else Some(Trim(x.value))
  }

  /** `x || fallback` on an optional string. */
  function OrDefault(x: Option<string>, fallback: string): (r: string)
    ensures Truthy(x) ==> r == x.value
    ensures !Truthy(x) ==> r == fallback
  {
    if Truthy(x) then x.value else fallback
  }

  /** A trimmed string has no white space at either end, and trimming it again changes nothing. */
  lemma {:induction false} TrimIdempotent(s: string)
    ensures var t := Trim(s); t == [] || (!IsSpace(t[0]) && !IsSpace(t[|t| - 1]))
    ensures Trim(Trim(s)) == Trim(s)
  {
    var a := TrimStart(s);
    var t := TrimEnd(a);
    if t != [] {
      assert t[0] == a[0];
    }
    assert TrimStart(t) == t;
    assert TrimEnd(t) == t;
  }

  /** A string trims to "" exactly when it is all white space. */
  lemma {:induction false} BlankIffAllSpace(s: string)
    ensures Trim(s) == "" <==> AllSpace(s)
  {
    var a := TrimStart(s);
    if Trim(s) == "" {
      assert a == a[|a|..];
      assert AllSpace(a);
      assert s == s[..|s| - |a|] + a;
    }
  }

  /** `toLowerCase` on the ASCII letters; other characters are unchanged. */
  function LowerChar(c: char): char {
    if 'A' <= c <= 'Z' then (c as int + 32) as char else c
  }

  function ToLower(s: string): (r: string)
    ensures |r| == |s|
    ensures forall i :: 0 <= i < |s| ==> r[i] == LowerChar(s[i])
  {
    if s == [] then [] else [LowerChar(s[0])] + ToLower(s[1..])
  }

  /** Text without ASCII capitals is its own lower case. */
  lemma LowerWithoutCapitals(s: string)
    requires forall i :: 0 <= i < |s| ==> !('A' <= s[i] <= 'Z')
    ensures ToLower(s) == s
  {
  }
}
