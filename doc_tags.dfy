/** Reading `@since` and `@deprecated` out of a doc comment, line by line,
    as `parse_doc_comment_for` does. */
module DocTags {
  import opened Wrappers
  import opened PhpStrings

  /** The version facts recorded for one declaration: `since`, `deprecated`
      and the line of the declaration's name. */
  datatype Item = Item(since: string, deprecated: string, line: nat)

  /** Lower-cases an ASCII letter, as PCRE's caseless matching does. */
  function LowerAscii(c: char): char {
    if 'A' <= c <= 'Z' then (c as int + 32) as char else c
  }

  /** `s` starts with the lower-case `word` when letters are compared without case. */
  predicate StartsCaseless(word: string, s: string) {
    word == [] || (s != [] && LowerAscii(s[0]) == word[0] && StartsCaseless(word[1..], s[1..]))
  }

  /** What a caseless prefix match means character by character. */
  lemma {:induction false} StartsCaselessChars(word: string, s: string)
    requires StartsCaseless(word, s)
    ensures |word| <= |s|
    ensures forall k | 0 <= k < |word| :: LowerAscii(s[k]) == word[k]
  {
    if word != [] {
      StartsCaselessChars(word[1..], s[1..]);
      assert forall k | 1 <= k < |word| :: s[k] == s[1..][k - 1] && word[k] == word[1..][k - 1];
    }
  }

  /** A caseless prefix match needs at least as many characters as the word. */
  lemma {:induction false} StartsCaselessLength(word: string, s: string)
    requires StartsCaseless(word, s)
    ensures |word| <= |s|
  {
    if word != [] {
      StartsCaselessLength(word[1..], s[1..]);
    }
  }

  /** A caseless prefix match survives cutting off what follows the word. */
  lemma {:induction false} StartsCaselessCut(word: string, s: string, n: nat)
    requires StartsCaseless(word, s) && |word| <= n <= |s|
    ensures StartsCaseless(word, s[..n])
  {
    if word != [] {
      assert s[..n][1..] == s[1..][..n - 1];
      StartsCaselessCut(word[1..], s[1..], n - 1);
    }
  }

  /** The pattern `@(since|deprecated)` matches at index `i` of `line`. */
  predicate TagAt(line: string, i: nat)
    requires i < |line|
  {
    line[i] == '@' && (StartsCaseless("since", line[i + 1..]) || StartsCaseless("deprecated", line[i + 1..]))
  }

  /** The leftmost index from `i` on where the pattern matches, or `|line|`. */
  function TagIndex(line: string, i: nat): (r: nat)
    requires i <= |line|
    ensures i <= r <= |line|
    ensures r < |line| ==> TagAt(line, r)
    ensures forall k | i <= k < r :: !TagAt(line, k)
    decreases |line| - i
  {
    if i == |line| then i
    else if TagAt(line, i) then i
    else TagIndex(line, i + 1)
  }

  /** What `preg_match('/@(since|deprecated)(.*)?$/i', $line, $matches)` finds. */
  datatype TagMatch = NoMatch | Match(tag: string, rest: string)

  /** The match of the tag pattern in a trimmed line, which holds no line feed:
      the leftmost `@` followed by either tag name in any case. `tag` is
      `$matches[1]` as written in the line, `rest` is `$matches[2]`, the whole
      remainder of the line. */
  function MatchTag(line: string): (r: TagMatch)
    ensures r.NoMatch? <==> forall k | 0 <= k < |line| :: !TagAt(line, k)
  {
    var i := TagIndex(line, 0);
    if i == |line| then NoMatch
    else
      var n := if StartsCaseless("since", line[i + 1..]) then 5 else 10;
      StartsCaselessLength(if n == 5 then "since" else "deprecated", line[i + 1..]);
      Match(line[i + 1..i + 1 + n], line[i + 1 + n..])
  }

  /** `MatchTag` finds the leftmost match of the pattern, if there is one, and
      splits the rest of the line into the tag name and what follows it. */
  lemma MatchTagIsLeftmost(line: string)
    ensures MatchTag(line).Match? ==>
      var m := MatchTag(line);
      var at := |line| - |m.rest| - |m.tag| - 1;
      0 <= at && TagAt(line, at) && (forall k | 0 <= k < at :: !TagAt(line, k)) &&
      line[at..] == "@" + m.tag + m.rest &&
      ((|m.tag| == 5 && StartsCaseless("since", m.tag)) ||
       (|m.tag| == 10 && StartsCaseless("deprecated", m.tag)))
  {
    var i := TagIndex(line, 0);
    if i < |line| {
      var since := StartsCaseless("since", line[i + 1..]);
      var n := if since then 5 else 10;
      StartsCaselessLength(if since then "since" else "deprecated", line[i + 1..]);
      assert MatchTag(line) == Match(line[i + 1..i + 1 + n], line[i + 1 + n..]);
      StartsCaselessCut(if since then "since" else "deprecated", line[i + 1..], n);
      assert line[i + 1..][..n] == line[i + 1..i + 1 + n];
      assert line[i..] == [line[i]] + line[i + 1..i + 1 + n] + line[i + 1 + n..];
    }
  }

  /** One iteration of the `foreach` over the comment's lines. Only a tag
      written in lower case acts; `version` is the trimmed rest of the line. */
  function ApplyTag(item: Item, line: string): (r: Item)
    ensures r.line == item.line
    ensures MatchTag(line).NoMatch? ==> r == item
    ensures r.since == item.since || (!Truthy(item.since) && Truthy(r.since))
    ensures r.deprecated == item.deprecated || Truthy(r.deprecated)
  {
    match MatchTag(line)
    case NoMatch => item
    case Match(tag, rest) =>
      var version := Trim(rest);
      if Truthy(version) && tag == "since" && !Truthy(item.since) then item.(since := version)
      else if Truthy(version) && tag == "deprecated" then item.(deprecated := version)
      else if !Truthy(version) && tag == "deprecated" then item.(deprecated := "-")
      else item
  }

  /** The `foreach` over all lines, in order. */
  function ApplyAll(item: Item, lines: seq<string>): (r: Item)
    ensures r.line == item.line
    ensures item.since != "0" ==> r.since != "0"
    ensures item.deprecated != "0" ==> r.deprecated != "0"
    decreases |lines|
  {
    if lines == [] then item
    else ApplyTag(ApplyAll(item, lines[..|lines| - 1]), lines[|lines| - 1])
  }

  /** `array_filter($lines)`: drops the empty strings and "0". */
  function FilterTruthy(lines: seq<string>): (r: seq<string>)
    ensures |r| <= |lines|
    ensures forall s :: s in r <==> s in lines && Truthy(s)
  {
    if lines == [] then []
    else if Truthy(lines[0]) then [lines[0]] + FilterTruthy(lines[1..])
    else FilterTruthy(lines[1..])
  }

  /** `array_map('trim', $lines)` */
  function TrimAll(lines: seq<string>): (r: seq<string>)
    ensures |r| == |lines|
    ensures forall i | 0 <= i < |r| :: r[i] == Trim(lines[i])
  {
    if lines == [] then [] else [Trim(lines[0])] + TrimAll(lines[1..])
  }

  /** `array_filter(array_map('trim', explode("\n", $doc)))` */
  function DocLines(doc: string): (r: seq<string>)
    ensures forall l | l in r :: Truthy(l) && !IsTrimmed(l[0]) && !IsTrimmed(l[|l| - 1])
    ensures forall l | l in r :: exists p | p in Explode(doc, '\n') :: l == Trim(p)
  {
    FilterTruthy(TrimAll(Explode(doc, '\n')))
  }

  /** No line of the comment with something left after trimming is lost. */
  lemma DocLinesComplete(doc: string)
    ensures forall p | p in Explode(doc, '\n') && Truthy(Trim(p)) :: Trim(p) in DocLines(doc)
  {
  }

  /** The item `parse_doc_comment_for` records for a name on line `line`. */
  function DocItem(doc: string, line: nat): (r: Item)
    ensures r.line == line && r.since != "0" && r.deprecated != "0"
  {
    ApplyAll(Item("", "", line), DocLines(doc))
  }

  /** The line loop of `parse_doc_comment_for`: the item for a name on line
      `line`, read from the comment `doc`. */
  method ReadDocComment(doc: string, line: nat) returns (item: Item)
    ensures item == DocItem(doc, line)
  {
    item := ApplyLines(Item("", "", line), DocLines(doc));
  }

  /** The `foreach` itself, line after line. */
  method ApplyLines(start: Item, lines: seq<string>) returns (item: Item)
    ensures item == ApplyAll(start, lines)
  {
    item := start;
    for i := 0 to |lines|
      invariant item == ApplyAll(start, lines[..i])
    {
      assert lines[..i + 1][..i] == lines[..i];
      item := ApplyTag(item, lines[i]);
    }
    assert lines[..|lines|] == lines;
  }

  // ----- Reference definitions of the two tags, and their agreement with the loop.

  /** The value a line offers for `since`: a lower-case `@since` with a
      non-empty trimmed value other than "0". */
  function SinceValue(line: string): Option<string> {
    match MatchTag(line)
    case Match(tag, rest) =>
      if tag == "since" && Truthy(Trim(rest)) then Some(Trim(rest)) else None
    case NoMatch => None
  }

  /** The value a line sets `deprecated` to: the trimmed value of a lower-case
      `@deprecated`, or "-" when that value is empty or "0". */
  function DeprecatedValue(line: string): Option<string> {
    match MatchTag(line)
    case Match(tag, rest) =>
      if tag == "deprecated" then Some(if Truthy(Trim(rest)) then Trim(rest) else "-") else None
    case NoMatch => None
  }

  /** The first value offered for `since`, reading from the top; "" when none is. */
  function FirstSince(lines: seq<string>): (r: string)
    ensures r == "" || Truthy(r)
  {
    if lines == [] then ""
    else
      match SinceValue(lines[0])
      case Some(v) => v
      case None => FirstSince(lines[1..])
  }

  /** The value of the last `@deprecated` line, reading from the top. */
  function LastDeprecated(lines: seq<string>): Option<string> {
    if lines == [] then None
    else
      match LastDeprecated(lines[1..])
      case Some(v) => Some(v)
      case None => DeprecatedValue(lines[0])
  }

  /** What one line does to the item, tag by tag. */
  lemma ApplyTagEffect(item: Item, line: string)
    ensures ApplyTag(item, line).since ==
      if SinceValue(line).Some? && !Truthy(item.since) then SinceValue(line).value else item.since
    ensures ApplyTag(item, line).deprecated == DeprecatedValue(line).GetOr(item.deprecated)
    ensures ApplyTag(item, line).line == item.line
  {
  }

  lemma {:induction false} FirstSinceSnoc(lines: seq<string>)
    requires lines != []
    ensures var init, last := lines[..|lines| - 1], lines[|lines| - 1];
      FirstSince(lines) == if FirstSince(init) != "" then FirstSince(init) else SinceValue(last).GetOr("")
  {
    if |lines| > 1 {
      assert lines[1..][..|lines[1..]| - 1] == lines[..|lines| - 1][1..];
      assert lines[1..][|lines[1..]| - 1] == lines[|lines| - 1];
      FirstSinceSnoc(lines[1..]);
    }
  }

  lemma {:induction false} LastDeprecatedSnoc(lines: seq<string>)
    requires lines != []
    ensures var init, last := lines[..|lines| - 1], lines[|lines| - 1];
      LastDeprecated(lines) == if DeprecatedValue(last).Some? then DeprecatedValue(last) else LastDeprecated(init)
  {
    if |lines| > 1 {
      assert lines[1..][..|lines[1..]| - 1] == lines[..|lines| - 1][1..];
      assert lines[1..][|lines[1..]| - 1] == lines[|lines| - 1];
      LastDeprecatedSnoc(lines[1..]);
    }
  }

  /** `since` ends up as the first lower-case `@since` value that is neither
      empty nor "0"; later `@since` lines are ignored. */
  lemma {:induction false} SinceIsFirst(item: Item, lines: seq<string>)
    requires item.since == ""
    ensures ApplyAll(item, lines).since == FirstSince(lines)
  {
    if lines != [] {
      var init := lines[..|lines| - 1];
      SinceIsFirst(item, init);
      ApplyTagEffect(ApplyAll(item, init), lines[|lines| - 1]);
      FirstSinceSnoc(lines);
    }
  }

  /** `deprecated` ends up as the value of the last `@deprecated` line, a bare
      one giving "-" even after an explicit value; untouched when there is none. */
  lemma {:induction false} DeprecatedIsLast(item: Item, lines: seq<string>)
    ensures ApplyAll(item, lines).deprecated == LastDeprecated(lines).GetOr(item.deprecated)
  {
    if lines != [] {
      var init := lines[..|lines| - 1];
      DeprecatedIsLast(item, init);
      ApplyTagEffect(ApplyAll(item, init), lines[|lines| - 1]);
      LastDeprecatedSnoc(lines);
    }
  }

  /** The record `parse_doc_comment_for` builds, tag by tag. */
  lemma DocItemTags(doc: string, line: nat)
    ensures DocItem(doc, line).since == FirstSince(DocLines(doc))
    ensures DocItem(doc, line).deprecated == LastDeprecated(DocLines(doc)).GetOr("")
    ensures DocItem(doc, line).line == line
  {
    SinceIsFirst(Item("", "", line), DocLines(doc));
    DeprecatedIsLast(Item("", "", line), DocLines(doc));
  }

  /** `array_filter` changes nothing the tags see: "" and "0" hold no `@`. */
  lemma {:induction false} FilterUnobservable(item: Item, lines: seq<string>)
    ensures ApplyAll(item, FilterTruthy(lines)) == ApplyAll(item, lines)
  {
    if lines != [] {
      var init, last := lines[..|lines| - 1], lines[|lines| - 1];
      FilterUnobservable(item, init);
      FilterSnoc(lines);
      var kept := FilterTruthy(init);
      if Truthy(last) {
        assert (kept + [last])[..|kept + [last]| - 1] == kept;
      } else {
        assert kept + [] == kept;
        MatchTagIsLeftmost(last);
      }
    }
  }

  lemma {:induction false} FilterSnoc(lines: seq<string>)
    requires lines != []
    ensures FilterTruthy(lines) ==
      FilterTruthy(lines[..|lines| - 1]) + (if Truthy(lines[|lines| - 1]) then [lines[|lines| - 1]] else [])
  {
    if |lines| > 1 {
      var tail := lines[1..];
      assert tail[..|tail| - 1] == lines[..|lines| - 1][1..];
      assert tail[|tail| - 1] == lines[|lines| - 1];
      FilterSnoc(tail);
      assert lines[..|lines| - 1] == [lines[0]] + tail[..|tail| - 1];
    }
  }
}
