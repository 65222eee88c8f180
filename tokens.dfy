/** The token stream `token_get_all()` hands the scanners, and the cursor
    moves they make over it. */
module Tokens {

  /** The token kinds the scanners tell apart; every other kind is `Other`.
      `CurlyOpen` is `T_CURLY_OPEN` ("{$" in a string) and `DollarOpenCurly`
      is `T_DOLLAR_OPEN_CURLY_BRACES` ("${" in a string). */
  datatype Kind = Class | Function | DocComment | Whitespace | String | CurlyOpen | DollarOpenCurly | Other

  /** A bare punctuation token. The lexer returns digits inside classified
      tokens, so a bare token is never "0" and is always truthy in PHP. */
  type RawChar = c: char | c != '0' witness ';'

  /** `[kind, text, line]` from the lexer, or a bare one-character string. */
  datatype Token = Classified(kind: Kind, text: string, line: nat) | Raw(ch: RawChar)

  predicate IsKind(t: Token, k: Kind) {
    t.Classified? && t.kind == k
  }

  predicate IsRaw(t: Token, c: char) {
    t.Raw? && t.ch == c
  }

  /** A `T_STRING` token: an identifier. */
  predicate IsName(t: Token) {
    IsKind(t, String)
  }

  predicate IsOpenParen(t: Token) {
    IsRaw(t, '(')
  }

  predicate IsSemicolon(t: Token) {
    IsRaw(t, ';')
  }

  predicate IsNotWhitespace(t: Token) {
    !IsKind(t, Whitespace)
  }

  /** PHP's `next()` on the token array: one place on, never past the end,
      where it stays. */
  function Advance(toks: seq<Token>, p: nat): (q: nat)
    requires p <= |toks|
    ensures q <= |toks| && (p < |toks| ==> q == p + 1) && (p == |toks| ==> q == p)
  {
    if p < |toks| then p + 1 else p
  }

  /** The tokens at which the scanners' search loops stop. */
  datatype Stop = AtName | AtNameOrParen | AtOpenParen | AtNotWhitespace | AtSemicolon

  predicate Stops(stop: Stop, t: Token) {
    match stop
    case AtName => IsName(t)
    case AtNameOrParen => IsName(t) || IsOpenParen(t)
    case AtOpenParen => IsOpenParen(t)
    case AtNotWhitespace => IsNotWhitespace(t)
    case AtSemicolon => IsSemicolon(t)
  }

  /** Where a `while ($token = next(...))` loop that stops at the first token
      satisfying `stop` leaves the cursor, looking from index `i` on: at that
      token, or at the end of the stream when there is none. */
  function Seek(toks: seq<Token>, i: nat, stop: Stop): (r: nat)
    ensures r <= |toks| && (i <= |toks| ==> i <= r)
    ensures r < |toks| ==> i <= r && Stops(stop, toks[r])
    ensures forall k | i <= k < r :: !Stops(stop, toks[k])
    decreases |toks| - i
  {
    if i >= |toks| then |toks|
    else if Stops(stop, toks[i]) then i
    else Seek(toks, i + 1, stop)
  }

  /** `Seek` is determined by its contract: the first stopping index, or the end. */
  lemma SeekIsFirst(toks: seq<Token>, i: nat, stop: Stop, r: nat)
    requires i <= r <= |toks|
    requires r < |toks| ==> Stops(stop, toks[r])
    requires forall k | i <= k < r :: !Stops(stop, toks[k])
    ensures Seek(toks, i, stop) == r
  {
  }
}
