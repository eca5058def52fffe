/** The string helpers the pages share: `norm` (`(v ?? "").toString().trim()`),
    lower-casing and `includes`. */
module Strings {

  import opened Optional

  /** The characters `String.prototype.trim` removes: white space and line
      terminators of ECMAScript. */
  predicate IsSpace(c: char) {
    if c <= ' ' then c == ' ' || '\t' <= c <= '\r'
    else '\U{A0}' <= c && (c == '\U{A0}' || c == '\U{1680}' || ('\U{2000}' <= c <= '\U{200A}')
                           || c == '\U{2028}' || c == '\U{2029}' || c == '\U{202F}' || c == '\U{205F}'
                           || c == '\U{3000}' || c == '\U{FEFF}')
  }

  /** The first position from `i` on that is not white space. */
  function SkipSpaces(s: string, i: nat): (j: nat)
    requires i <= |s|
    ensures i <= j <= |s|
    ensures j < |s| ==> !IsSpace(s[j])
    ensures forall k :: i <= k < j ==> IsSpace(s[k])
    decreases |s| - i
  {
    if i < |s| && IsSpace(s[i]) then SkipSpaces(s, i + 1) else i
  }

  /** The end of `s[lo..j]` without its trailing white space. */
  function SkipSpacesBack(s: string, lo: nat, j: nat): (e: nat)
    requires lo <= j <= |s|
    ensures lo <= e <= j
    ensures e > lo ==> !IsSpace(s[e - 1])
    ensures forall k :: e <= k < j ==> IsSpace(s[k])
    decreases j
  {
    if j > lo && IsSpace(s[j - 1]) then SkipSpacesBack(s, lo, j - 1) else j
  }

  /** Every character of `t` is white space. */
  predicate AllSpace(t: string) {
    forall i :: 0 <= i < |t| ==> IsSpace(t[i])
  }

  /** `s.trim()`: `s` without its leading and trailing white space. The
      result is the middle part of `s` between a white-space prefix and a
      white-space suffix, and it starts and ends with something else, which
      fixes it uniquely. */
  function Trim(s: string): (r: string)
    ensures r != [] ==> !IsSpace(r[0]) && !IsSpace(r[|r| - 1])
    ensures exists a, b :: 0 <= a <= b <= |s| && r == s[a..b] && AllSpace(s[..a]) && AllSpace(s[b..])
    ensures Contains(s, r)
  {
    var a := SkipSpaces(s, 0);
    var e := SkipSpacesBack(s, a, |s|);
    assert OccursAt(s, s[a..e], a);
    assert AllSpace(s[..a]) && AllSpace(s[e..]);
    s[a..e]
  }

  /** Trimming twice is trimming once. */
  lemma TrimIdempotent(s: string)
    ensures Trim(Trim(s)) == Trim(s)
  {
    TrimUnpadded(Trim(s));
  }

  /** Neither starts nor ends with white space. */
  predicate Unpadded(s: string) {
    s != [] ==> !IsSpace(s[0]) && !IsSpace(s[|s| - 1])
  }

  /** A string that neither starts nor ends with white space is its own trim. */
  lemma TrimUnpadded(s: string)
    requires Unpadded(s)
    ensures Trim(s) == s
  {
    assert s[0..|s|] == s;
  }

  lemma {:induction false} SkipBlank(s: string, i: nat)
    requires i <= |s|
    requires forall k :: i <= k < |s| ==> IsSpace(s[k])
    ensures SkipSpaces(s, i) == |s|
    decreases |s| - i
  {
    if i < |s| {
      SkipBlank(s, i + 1);
    }
  }

  /** A text of white space only trims to the empty text. */
  lemma TrimBlank(s: string)
    requires forall i :: 0 <= i < |s| ==> IsSpace(s[i])
    ensures Trim(s) == ""
  {
    SkipBlank(s, 0);
  }

  /** `(v ?? "").toString().trim()` for a string or a missing value. */
  function Norm(v: Option<string>): string {
    Trim(v.GetOr(""))
  }

  /** JavaScript truthiness of an optional text: `null` and `""` are false. */
  predicate Truthy(o: Option<string>) {
    o.Some? && o.value != ""
  }

  /** `x || null` on an optional text. */
  function OrNull(o: Option<string>): (r: Option<string>)
    ensures r.Some? <==> Truthy(o)
    ensures r.Some? ==> r == o
  {
    if Truthy(o) then o else None
  }

  /** `text || null` */
  function TextOrNull(s: string): (r: Option<string>)
    ensures r == OrNull(Some(s))
  {
    if s == "" then None else Some(s)
  }

  /** `toLowerCase` on the Latin letters A-Z (other letters are kept). */
  function LowerChar(c: char): (d: char)
    ensures 'A' <= c <= 'Z' ==> 'a' <= d <= 'z'
    ensures !('A' <= c <= 'Z') ==> d == c
  {
    if 'A' <= c <= 'Z' then (c as int - 'A' as int + 'a' as int) as char else c
  }

  function Lower(s: string): (r: string)
    ensures |r| == |s|
    ensures forall i :: 0 <= i < |s| ==> r[i] == LowerChar(s[i])
  {
    seq(|s|, i requires 0 <= i < |s| => LowerChar(s[i]))
  }

  /** `s.includes(sub)` */
  predicate Contains(s: string, sub: string) {
    exists i | 0 <= i <= |s| - |sub| :: OccursAt(s, sub, i)
  }

  predicate OccursAt(s: string, sub: string, i: int) {
    0 <= i <= |s| - |sub| && s[i..i + |sub|] == sub
  }

  /** Lower-casing keeps an occurrence: a text that includes `sub` in any
      case includes its lower-cased form once lower-cased. */
  lemma LowerContains(s: string, sub: string)
    requires Contains(s, sub)
    ensures Contains(Lower(s), Lower(sub))
  {
    var i :| 0 <= i <= |s| - |sub| && OccursAt(s, sub, i);
    assert forall k :: 0 <= k < |sub| ==> Lower(s)[i + k] == LowerChar(sub[k]);
    assert Lower(s)[i..i + |sub|] == Lower(sub);
    assert OccursAt(Lower(s), Lower(sub), i);
  }

  /** Every string includes the empty string. */
  lemma ContainsEmpty(s: string)
    ensures Contains(s, "")
  {
    assert OccursAt(s, "", 0);
  }
}
