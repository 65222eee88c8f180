/** The PHP string built-ins the scanners rely on, with PHP's meaning:
    `empty()`, `trim()`, `explode()` and `strpos()`. */
module PhpStrings {
  import opened Wrappers

  /** `! empty($s)` for a string: only "" and "0" are empty. */
  predicate Truthy(s: string) {
    s != "" && s != "0"
  }

  /** The characters `trim()` strips by default: space, tab, line feed,
      carriage return, NUL and vertical tab. */
  predicate IsTrimmed(c: char) {
    c == ' ' || c == '\t' || c == '\n' || c == '\r' || c == '\0' || c == '\U{000B}'
  }

  /** The index of the first character from `i` on that `trim()` keeps, or `|s|`. */
  function KeptFrom(s: string, i: nat): (n: nat)
    requires i <= |s|
    ensures i <= n <= |s|
    ensures forall k | i <= k < n :: IsTrimmed(s[k])
    ensures n < |s| ==> !IsTrimmed(s[n])
    decreases |s| - i
  {
    if i < |s| && IsTrimmed(s[i]) then KeptFrom(s, i + 1) else i
  }

  /** The end of the last character before `j` and not before `lo` that
      `trim()` keeps, or `lo`. */
  function KeptUpTo(s: string, lo: nat, j: nat): (n: nat)
    requires lo <= j <= |s|
    ensures lo <= n <= j
    ensures forall k | n <= k < j :: IsTrimmed(s[k])
    ensures lo < n ==> !IsTrimmed(s[n - 1])
    decreases j
  {
    if lo < j && IsTrimmed(s[j - 1]) then KeptUpTo(s, lo, j - 1) else j
  }

  /** `trim($s)`: drops the stripped characters at the start, then those at
      the end, leaving a string that neither starts nor ends with one. */
  function Trim(s: string): (r: string)
    ensures r == [] || (!IsTrimmed(r[0]) && !IsTrimmed(r[|r| - 1]))
  {
    var a := KeptFrom(s, 0);
    s[a..KeptUpTo(s, a, |s|)]
  }

  /** `trim` removes only stripped characters, and only at the two ends. */
  lemma TrimStrips(s: string)
    ensures exists a, b | 0 <= a <= b <= |s| ::
      Trim(s) == s[a..b] && (forall k | 0 <= k < a :: IsTrimmed(s[k])) && (forall k | b <= k < |s| :: IsTrimmed(s[k]))
  {
    var a := KeptFrom(s, 0);
    var b := KeptUpTo(s, a, |s|);
    assert Trim(s) == s[a..b];
  }

  /** `implode($sep, $parts)`, the inverse of `Explode`. */
  function Implode(parts: seq<string>, sep: char): string
    requires |parts| >= 1
  {
    if |parts| == 1 then parts[0] else parts[0] + [sep] + Implode(parts[1..], sep)
  }

  /** `explode($sep, $s)` for a one-character separator: the pieces between
      separators, one more piece than there are separators. */
  function Explode(s: string, sep: char): (parts: seq<string>)
    ensures |parts| >= 1
    ensures forall p | p in parts :: sep !in p
    ensures Implode(parts, sep) == s
  {
    if s == [] then [[]]
    else
      var rest := Explode(s[1..], sep);
      if s[0] == sep then
        assert ([[]] + rest)[1..] == rest;
        [[]] + rest
      else
        var parts := [[s[0]] + rest[0]] + rest[1..];
        assert |rest| > 1 ==> parts[1..] == rest[1..];
        parts
  }

  /** `strpos($s, $c)` for one character: the first index holding `c`. */
  function StrPos(s: string, c: char): (r: Option<nat>)
    ensures r.None? <==> c !in s
    ensures r.Some? ==> r.value < |s| && s[r.value] == c && c !in s[..r.value]
  {
    if s == [] then None
    else if s[0] == c then Some(0)
    else
      match StrPos(s[1..], c)
      case None => None
      case Some(i) =>
        assert s[..i + 1] == [s[0]] + s[1..][..i];
        Some(i + 1)
  }
}
