/**
 * The JavaScript string built-ins the transcoding engine relies on, stated with
 * their exact clamping, "not found" and replacement semantics, plus the
 * Option type that stands for JavaScript's null/undefined.
 */
module Js {

  /** `null`/`undefined` (None) or a value. */
  datatype Option<T> = None | Some(value: T)

  function Min(a: int, b: int): int { if a <= b then a else b }
  function Max(a: int, b: int): int { if a >= b then a else b }

  /** JavaScript's `x || 0` on a `number | null`: null and 0 both give 0. */
  function OrZero(x: Option<int>): int { if x.Some? then x.value else 0 }

  /** An index argument of `substring`, clamped into [0, len]. */
  function Clamp(i: int, len: nat): (r: nat)
    ensures r <= len
    ensures 0 <= i <= len ==> r == i
  {
    if i < 0 then 0 else if i > len then len else i
  }

  /** `s.substring(a, b)`: both bounds clamped, swapped when a > b. */
  function Substring(s: string, a: int, b: int): (r: string)
    ensures 0 <= a <= b <= |s| ==> r == s[a..b]
    ensures |r| <= |s|
  {
    var x, y := Clamp(a, |s|), Clamp(b, |s|);
    if x <= y then s[x..y] else s[y..x]
  }

  /** `s.substring(a)`. */
  function SubstringFrom(s: string, a: int): (r: string)
    ensures 0 <= a <= |s| ==> r == s[a..]
    ensures a > |s| ==> r == ""
    ensures a < 0 ==> r == s
  {
    s[Clamp(a, |s|)..]
  }

  /** An index argument of `slice`: a negative one counts from the end. */
  function SliceIndex(i: int, len: nat): (r: nat)
    ensures r <= len
    ensures 0 <= i <= len ==> r == i
  {
    if i < 0 then (if len + i < 0 then 0 else len + i) else if i > len then len else i
  }

  /** `s.slice(a, b)`: negative bounds count from the end; empty when the start passes the end. */
  function Slice(s: string, a: int, b: int): (r: string)
    ensures 0 <= a <= b <= |s| ==> r == s[a..b]
    ensures 0 <= b <= a ==> r == ""
  {
    var x, y := SliceIndex(a, |s|), SliceIndex(b, |s|);
    if x >= y then "" else s[x..y]
  }

  /** `sub` occurs in `s` at index i. */
  predicate OccursAt(s: string, sub: string, i: int) {
    0 <= i && i + |sub| <= |s| && s[i..i + |sub|] == sub
  }

  /** The first occurrence of `sub` at or after i, or -1. */
  function IndexFrom(s: string, sub: string, i: nat): (r: int)
    requires i <= |s|
    decreases |s| - i
    ensures r == -1 || (i <= r && OccursAt(s, sub, r))
    ensures r == -1 ==> forall j :: i <= j <= |s| ==> !OccursAt(s, sub, j)
    ensures r >= 0 ==> forall j :: i <= j < r ==> !OccursAt(s, sub, j)
  {
    if OccursAt(s, sub, i) then i else if i == |s| then -1 else IndexFrom(s, sub, i + 1)
  }

  /** `s.indexOf(sub, from)`: the start position is clamped into [0, |s|]. */
  function IndexOfFrom(s: string, sub: string, from: int): int
  {
    IndexFrom(s, sub, Clamp(from, |s|))
  }

  /** `s.indexOf(sub)`. */
  function IndexOf(s: string, sub: string): int
  {
    IndexFrom(s, sub, 0)
  }

  /** The last occurrence of `sub` at or before i, or -1. */
  function LastIndexUpTo(s: string, sub: string, i: int): (r: int)
    requires i <= |s|
    decreases i + 1
    ensures r == -1 || (r <= i && OccursAt(s, sub, r))
    ensures r == -1 ==> forall j :: 0 <= j <= i ==> !OccursAt(s, sub, j)
    ensures r >= 0 ==> forall j :: r < j <= i ==> !OccursAt(s, sub, j)
  {
    if i < 0 then -1 else if OccursAt(s, sub, i) then i else LastIndexUpTo(s, sub, i - 1)
  }

  /** `s.lastIndexOf(sub)`. */
  function LastIndexOf(s: string, sub: string): int
  {
    LastIndexUpTo(s, sub, |s|)
  }

  /** The characters JavaScript's `\s` class matches. */
  predicate IsWhitespace(c: char) {
    c == '\t' || c == '\n' || c == '\U{000B}' || c == '\U{000C}' || c == '\r' || c == ' '
    || c == '\U{00A0}' || c == '\U{1680}' || ('\U{2000}' <= c <= '\U{200A}')
    || c == '\U{2028}' || c == '\U{2029}' || c == '\U{202F}' || c == '\U{205F}'
    || c == '\U{3000}' || c == '\U{FEFF}'
  }

  /**
   * The replacement text `String.prototype.replace` builds from a replacement
   * string when the pattern is a string (so there are no capture groups):
   * `$$`, `$&`, `` $` `` and `$'` are expanded, every other `$` stays as it is.
   */
  function Substitute(rep: string, matched: string, before: string, after: string): string
    decreases |rep|
  {
    if |rep| < 2 || rep[0] != '$' then
      (if rep == [] then [] else [rep[0]] + Substitute(rep[1..], matched, before, after))
    else if rep[1] == '$' then "$" + Substitute(rep[2..], matched, before, after)
    else if rep[1] == '&' then matched + Substitute(rep[2..], matched, before, after)
    else if rep[1] == '`' then before + Substitute(rep[2..], matched, before, after)
    else if rep[1] == '\'' then after + Substitute(rep[2..], matched, before, after)
    else "$" + Substitute(rep[1..], matched, before, after)
  }

  lemma {:induction false} SubstituteWithoutDollar(rep: string, matched: string, before: string, after: string)
    requires forall i :: 0 <= i < |rep| ==> rep[i] != '$'
    ensures Substitute(rep, matched, before, after) == rep
    decreases |rep|
  {
    if rep != [] {
      SubstituteWithoutDollar(rep[1..], matched, before, after);
    }
  }

  /** `s.replace(pattern, rep)` with a string pattern: only the first occurrence is replaced. */
  function ReplaceFirst(s: string, pattern: string, rep: string): (r: string)
    ensures IndexOf(s, pattern) < 0 ==> r == s
  {
    var i := IndexOf(s, pattern);
    if i < 0 then s
    else s[..i] + Substitute(rep, pattern, s[..i], s[i + |pattern|..]) + s[i + |pattern|..]
  }

  lemma ReplaceFirstPlain(s: string, pattern: string, rep: string)
    requires forall i :: 0 <= i < |rep| ==> rep[i] != '$'
    requires IndexOf(s, pattern) >= 0
    ensures var i := IndexOf(s, pattern);
            ReplaceFirst(s, pattern, rep) == s[..i] + rep + s[i + |pattern|..]
  {
    var i := IndexOf(s, pattern);
    SubstituteWithoutDollar(rep, pattern, s[..i], s[i + |pattern|..]);
  }

  /** JavaScript's `%`: the remainder takes the sign of the dividend. */
  function JsRem(a: int, b: int): (r: int)
    requires b != 0
    ensures a >= 0 && b > 0 ==> 0 <= r < b && r == a % b
  {
    var m := if b < 0 then -b else b;
    if a >= 0 then a % m else -((-a) % m)
  }
}
