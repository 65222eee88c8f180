/** `WP_Version_Detect`: finds the call sites in a file's tokens and joins
    them against the version database's function records. */
module VersionDetect {
  import opened Wrappers
  import opened PhpArrays
  import opened Tokens
  import opened VersionDatabase

  /** How the token after an identifier is read. `AsWritten` is the test as
      the code states it, which accepts any bare token. `Intended` is what
      the comparison with `'('` and the flag `$is_function_call` suggest: the
      lookahead still stops at the first token that is
      not whitespace, and the identifier is a call only when that token is
      `(`. It is not the one-token repair of the test to `'(' === $token`:
      with that repair a bare token other than `(` meets neither branch, the
      lookahead runs on past it, and `foo; bar();` would report no call. */
  datatype Lookahead = AsWritten | Intended

  /** An entry of the call list: the identifier and its line. */
  datatype Call = Call(name: string, line: nat)

  /** An entry of the filtered map: the database record of the function
      called, and the lines of the calls. */
  datatype Usage = Usage(name: string, coreFile: string, coreLine: nat, since: string, deprecated: string, lines: seq<nat>)

  // ----- Call sites

  /** The first token after `i` that is not whitespace, or the end. */
  function LookaheadAt(toks: seq<Token>, i: nat): (la: nat)
    requires i < |toks|
    ensures i < la <= |toks|
    ensures forall k | i < k < la :: IsKind(toks[k], Whitespace)
    ensures la < |toks| ==> !IsKind(toks[la], Whitespace)
  {
    Seek(toks, i + 1, AtNotWhitespace)
  }

  /** The lookahead token makes the identifier a call. */
  predicate MarksCall(mode: Lookahead, t: Token) {
    t.Raw? && (mode == AsWritten || t.ch == '(')
  }

  /** `detect_string` at `i` records a call. */
  predicate IsCallAt(mode: Lookahead, toks: seq<Token>, i: nat)
    requires i < |toks|
  {
    IsName(toks[i]) &&
    var la := LookaheadAt(toks, i);
    la < |toks| && MarksCall(mode, toks[la])
  }

  /** Where `consume_token` leaves the cursor for the token at `i`: on the
      first `(` after a `function`; after an identifier, on the `;` that
      ends a call or on the lookahead token otherwise; elsewhere, in place. */
  function StepEnd(mode: Lookahead, toks: seq<Token>, i: nat): (e: nat)
    requires i < |toks|
    ensures i <= e <= |toks|
  {
    if IsKind(toks[i], Function) then Seek(toks, i + 1, AtOpenParen)
    else if IsName(toks[i]) then
      var la := LookaheadAt(toks, i);
      if IsCallAt(mode, toks, i) then Seek(toks, la + 1, AtSemicolon) else la
    else i
  }

  /** The indices of the identifiers recorded as calls, when the main loop
      is at `i`. */
  function CallSitesFrom(mode: Lookahead, toks: seq<Token>, i: nat): (s: seq<nat>)
    requires i <= |toks|
    ensures forall k | 0 <= k < |s| :: i <= s[k] < |toks| && IsCallAt(mode, toks, s[k])
    ensures forall k, l | 0 <= k < l < |s| :: s[k] < s[l]
    decreases |toks| - i
  {
    if i == |toks| then []
    else
      var rest := CallSitesFrom(mode, toks, Advance(toks, StepEnd(mode, toks, i)));
      if IsCallAt(mode, toks, i) then [i] + rest else rest
  }

  /** The call entries for the identifiers at `sites`. */
  function CallsAt(toks: seq<Token>, sites: seq<nat>): (r: seq<Call>)
    requires forall k | 0 <= k < |sites| :: sites[k] < |toks| && IsName(toks[sites[k]])
    ensures |r| == |sites|
  {
    if sites == [] then []
    else
      var s := sites[0];
      assert s < |toks| && IsName(toks[s]);
      [Call(toks[s].text, toks[s].line)] + CallsAt(toks, sites[1..])
  }

  /** The entry the token at `i` adds to the call list: one when it is a
      call, none otherwise. */
  function CallAt(mode: Lookahead, toks: seq<Token>, i: nat): (r: seq<Call>)
    requires i < |toks|
    ensures |r| <= 1 && (r != [] <==> IsCallAt(mode, toks, i))
  {
    if IsCallAt(mode, toks, i) then [Call(toks[i].text, toks[i].line)] else []
  }

  /** The entries the main loop of `detect` appends from `i` on, one step
      at a time. */
  function CallsFrom(mode: Lookahead, toks: seq<Token>, i: nat): (r: seq<Call>)
    requires i <= |toks|
    decreases |toks| - i
  {
    if i == |toks| then []
    else CallAt(mode, toks, i) + CallsFrom(mode, toks, Advance(toks, StepEnd(mode, toks, i)))
  }

  /** One step of the main loop moves the token's entry, if any, from the
      pending calls to the recorded ones. */
  lemma CallsFromStep(mode: Lookahead, toks: seq<Token>, i: nat, before: seq<Call>)
    requires i < |toks|
    ensures before + CallsFrom(mode, toks, i) ==
      (before + CallAt(mode, toks, i)) + CallsFrom(mode, toks, Advance(toks, StepEnd(mode, toks, i)))
  {
    var rest := CallsFrom(mode, toks, Advance(toks, StepEnd(mode, toks, i)));
    assert before + (CallAt(mode, toks, i) + rest) == (before + CallAt(mode, toks, i)) + rest;
  }

  /** `$function_calls` after the main loop of `detect` on a whole file. */
  function CallsOf(mode: Lookahead, toks: seq<Token>): (r: seq<Call>)
    ensures r == CallsAt(toks, CallSitesFrom(mode, toks, 0))
  {
    CallsFromSites(mode, toks, 0);
    CallsFrom(mode, toks, 0)
  }

  /** The call list holds one entry per call site, naming the identifier
      there and its line, in token order. */
  lemma {:induction false} CallsFromSites(mode: Lookahead, toks: seq<Token>, i: nat)
    requires i <= |toks|
    ensures CallsFrom(mode, toks, i) == CallsAt(toks, CallSitesFrom(mode, toks, i))
    decreases |toks| - i
  {
    if i < |toks| {
      var j := Advance(toks, StepEnd(mode, toks, i));
      CallsFromSites(mode, toks, j);
      if IsCallAt(mode, toks, i) {
        var after := CallSitesFrom(mode, toks, j);
        assert CallSitesFrom(mode, toks, i) == [i] + after;
        assert ([i] + after)[1..] == after;
      }
    }
  }

  /** After `function`, everything up to and including the first `(` is
      passed over: the name of a function definition is never a call. */
  lemma FunctionHeaderSkipped(mode: Lookahead, toks: seq<Token>, i: nat)
    requires i < |toks| && IsKind(toks[i], Function)
    ensures forall c | c in CallSitesFrom(mode, toks, i) :: c > Seek(toks, i + 1, AtOpenParen)
  {
  }

  /** An identifier that is not a call hands the cursor to its lookahead
      token, which the main loop then steps over without dispatching it. */
  lemma LookaheadNotDispatched(mode: Lookahead, toks: seq<Token>, i: nat)
    requires i < |toks| && IsName(toks[i]) && !IsCallAt(mode, toks, i)
    ensures forall c | c in CallSitesFrom(mode, toks, i) :: c > LookaheadAt(toks, i)
  {
  }

  /** A call swallows every token up to and including the first `;` after
      its lookahead token, so no identifier among its arguments is reported;
      when the lookahead is itself `;`, the next statement goes too. */
  lemma ArgumentsSwallowed(mode: Lookahead, toks: seq<Token>, i: nat)
    requires i < |toks| && IsCallAt(mode, toks, i)
    ensures var s := CallSitesFrom(mode, toks, i);
      s != [] && s[0] == i &&
      forall k | 1 <= k < |s| :: s[k] > Seek(toks, LookaheadAt(toks, i) + 1, AtSemicolon)
  {
  }

  /** As written, every identifier whose next non-whitespace token is bare
      punctuation is a call; as intended, only one followed by `(`. */
  lemma CallSitesCharacterized(mode: Lookahead, toks: seq<Token>, c: nat)
    requires c in CallSitesFrom(mode, toks, 0)
    ensures c < |toks| && IsName(toks[c])
    ensures var la := LookaheadAt(toks, c);
      la < |toks| && toks[la].Raw? &&
      (forall k | c < k < la :: IsKind(toks[k], Whitespace)) &&
      (mode == Intended ==> toks[la] == Raw('('))
  {
  }

  /** `foo; bar();`: as written, `foo` is reported and `bar`, swallowed with
      the statement after the `;`, is not; as intended it is the other way
      round. */
  lemma {:induction false} SemicolonLookahead()
    ensures var toks := [Classified(String, "foo", 1), Raw(';'), Classified(String, "bar", 2),
                         Raw('('), Raw(')'), Raw(';')];
      CallsOf(AsWritten, toks) == [Call("foo", 1)] && CallsOf(Intended, toks) == [Call("bar", 2)]
  {
    var toks := [Classified(String, "foo", 1), Raw(';'), Classified(String, "bar", 2),
                 Raw('('), Raw(')'), Raw(';')];
    // As written: `foo` is a call that swallows up to the `;` closing `bar();`.
    assert LookaheadAt(toks, 0) == 1;
    assert Seek(toks, 2, AtSemicolon) == 5;
    assert CallsFrom(AsWritten, toks, 6) == [];
    assert CallsFrom(AsWritten, toks, 0) == [Call("foo", 1)];
    // As intended: `foo` is not a call and hands the cursor to `;`, which is
    // passed over; `bar` is a call that swallows `(`, `)` and `;`.
    assert Seek(toks, 4, AtSemicolon) == 5;
    assert LookaheadAt(toks, 2) == 3;
    assert CallsFrom(Intended, toks, 6) == [];
    assert CallsFrom(Intended, toks, 2) == [Call("bar", 2)];
    assert CallsFrom(Intended, toks, 0) == [Call("bar", 2)];
  }

  // ----- filter_wp_core_functions

  /** A usage entry seeded from the database record of `f`, with no line yet. */
  function Seed(f: string, rec: Record): Usage {
    Usage(f, rec.file, rec.line, rec.since, rec.deprecated, [])
  }

  /** The `foreach` of `filter_wp_core_functions` over the calls, in order. */
  function FilterCalls(db: map<string, Record>, calls: seq<Call>): (r: OMap<Usage>)
    ensures r.Valid()
    decreases |calls|
  {
    if calls == [] then Empty()
    else
      var acc := FilterCalls(db, calls[..|calls| - 1]);
      var c := calls[|calls| - 1];
      if c.name !in db then acc
      else
        var u := if c.name in acc.vals then acc.vals[c.name] else Seed(c.name, db[c.name]);
        acc.Put(c.name, u.(lines := u.lines + [c.line]))
  }

  /** The lines of the calls of `f`, in call order. */
  function LinesOf(calls: seq<Call>, f: string): seq<nat>
    decreases |calls|
  {
    if calls == [] then []
    else
      var c := calls[|calls| - 1];
      LinesOf(calls[..|calls| - 1], f) + if c.name == f then [c.line] else []
  }

  /** The names of the calls that the database knows, in call order. */
  function Matched(db: map<string, Record>, calls: seq<Call>): seq<string>
    decreases |calls|
  {
    if calls == [] then []
    else
      var c := calls[|calls| - 1];
      Matched(db, calls[..|calls| - 1]) + if c.name in db then [c.name] else []
  }

  /** Each name once, where it first occurs. */
  function FirstOccurrences(names: seq<string>): seq<string>
    decreases |names|
  {
    if names == [] then []
    else
      var init, n := FirstOccurrences(names[..|names| - 1]), names[|names| - 1];
      if n in init then init else init + [n]
  }

  /** A name has lines exactly when some call names it. */
  lemma {:induction false} LinesOfNonEmpty(calls: seq<Call>, f: string)
    ensures LinesOf(calls, f) != [] <==> exists k | 0 <= k < |calls| :: calls[k].name == f
    decreases |calls|
  {
    if calls != [] {
      var init := calls[..|calls| - 1];
      LinesOfNonEmpty(init, f);
      if exists k | 0 <= k < |init| :: init[k].name == f {
        var k :| 0 <= k < |init| && init[k].name == f;
        assert calls[k] == init[k];
      }
      if exists k | 0 <= k < |calls| :: calls[k].name == f {
        var k :| 0 <= k < |calls| && calls[k].name == f;
        if k < |init| {
          assert init[k] == calls[k];
        }
      }
    }
  }

  /** Calls to names the database lacks are dropped; a known name gets one
      entry, seeded from its record, holding the lines of all its calls in
      order. */
  lemma {:induction false} FilterEntries(db: map<string, Record>, calls: seq<Call>, f: string)
    ensures var r := FilterCalls(db, calls);
      (f in r.vals <==> f in db && LinesOf(calls, f) != []) &&
      (f in r.vals ==> r.vals[f] == Seed(f, db[f]).(lines := LinesOf(calls, f)))
    decreases |calls|
  {
    if calls != [] {
      FilterEntries(db, calls[..|calls| - 1], f);
    }
  }

  /** The entries come in the order their names are first called. */
  lemma {:induction false} FilterKeysInOrder(db: map<string, Record>, calls: seq<Call>)
    ensures FilterCalls(db, calls).keys == FirstOccurrences(Matched(db, calls))
    decreases |calls|
  {
    if calls != [] {
      var init, c := calls[..|calls| - 1], calls[|calls| - 1];
      FilterKeysInOrder(db, init);
      var m := Matched(db, init);
      if c.name in db {
        var m' := m + [c.name];
        assert m'[..|m'| - 1] == m;
        assert c.name in FilterCalls(db, init).vals <==> c.name in FirstOccurrences(m);
      } else {
        assert Matched(db, calls) == m;
      }
    }
  }

  /** The number of lines over the entries `keys` of `vals`. */
  function SumLines(keys: seq<string>, vals: map<string, Usage>): nat
    requires forall k | k in keys :: k in vals
    decreases |keys|
  {
    if keys == [] then 0
    else SumLines(keys[..|keys| - 1], vals) + |vals[keys[|keys| - 1]].lines|
  }

  lemma {:induction false} SumLinesUpdate(keys: seq<string>, vals: map<string, Usage>, f: string, u: Usage)
    requires forall k | k in keys :: k in vals
    requires Distinct(keys) && f in vals
    ensures SumLines(keys, vals[f := u]) ==
      SumLines(keys, vals) + if f in keys then |u.lines| - |vals[f].lines| else 0
    decreases |keys|
  {
    if keys != [] {
      var init := keys[..|keys| - 1];
      assert Distinct(init);
      SumLinesUpdate(init, vals, f, u);
      assert f in keys <==> f in init || f == keys[|keys| - 1];
      assert keys[|keys| - 1] == f ==> f !in init;
    }
  }

  lemma {:induction false} SumLinesFrame(keys: seq<string>, vals: map<string, Usage>, f: string, u: Usage)
    requires forall k | k in keys :: k in vals
    requires f !in keys
    ensures SumLines(keys, vals[f := u]) == SumLines(keys, vals)
    decreases |keys|
  {
    if keys != [] {
      SumLinesFrame(keys[..|keys| - 1], vals, f, u);
    }
  }

  /** No matched call loses its line: the entries hold as many lines as
      there are calls to names the database knows. */
  lemma {:induction false} FilterKeepsEveryLine(db: map<string, Record>, calls: seq<Call>)
    ensures var r := FilterCalls(db, calls);
      SumLines(r.keys, r.vals) == |Matched(db, calls)|
    decreases |calls|
  {
    if calls != [] {
      var init := calls[..|calls| - 1];
      var c := calls[|calls| - 1];
      var acc := FilterCalls(db, init);
      FilterKeepsEveryLine(db, init);
      if c.name in db {
        var f := c.name;
        var u := if f in acc.vals then acc.vals[f] else Seed(f, db[f]);
        var u' := u.(lines := u.lines + [c.line]);
        if f in acc.vals {
          SumLinesUpdate(acc.keys, acc.vals, f, u');
        } else {
          SumLinesFrame(acc.keys, acc.vals, f, u');
          var keys := acc.keys + [f];
          assert keys[..|keys| - 1] == acc.keys;
        }
      }
    }
  }

  // ----- The detector

  /** The object: the database's function map, the lookahead reading, the
      tokens with the array's internal pointer as `pos`, and
      `$function_calls` in its two shapes: the list `calls` while a file is
      scanned, and the map `usages` it is then replaced by. */
  class Detector {
    const database: map<string, Record>
    const mode: Lookahead
    var tokens: seq<Token>
    var pos: nat
    var calls: seq<Call>
    var usages: OMap<Usage>

    predicate Valid()
      reads this
    {
      pos <= |tokens|
    }

    /** The constructor with the database already read and decoded. */
    constructor (functions: map<string, Record>, lookahead: Lookahead)
      ensures Valid() && database == functions && mode == lookahead
      ensures tokens == [] && calls == [] && usages == Empty()
    {
      database := functions;
      mode := lookahead;
      tokens := [];
      pos := 0;
      calls := [];
      usages := Empty();
    }

    /** `next($this->tokens)` */
    method Next() returns (t: Option<Token>)
      requires Valid()
      modifies this`pos
      ensures Valid() && pos == Advance(tokens, old(pos))
      ensures t == if pos < |tokens| then Some(tokens[pos]) else None
    {
      pos := Advance(tokens, pos);
      t := if pos < |tokens| then Some(tokens[pos]) else None;
    }

    /** `detect` on a file whose tokens are `source`, `None` when it cannot
        be read: then nothing changes, not even the previous file's result. */
    method Detect(source: Option<seq<Token>>)
      requires Valid()
      modifies this
      ensures Valid()
      ensures source.None? ==> tokens == old(tokens) && pos == old(pos) && calls == old(calls) && usages == old(usages)
      ensures source.Some? ==>
        tokens == source.value && calls == CallsOf(mode, tokens) && usages == FilterCalls(database, calls)
    {
      if source.None? {
        return;
      }
      tokens := source.value;
      pos := 0;
      // Initialization.
      calls := [];
      ConsumeAll();
      FilterWpCoreFunctions();
    }

    /** The calls the main loop has still to record from the cursor on. */
    function Pending(): seq<Call>
      requires Valid()
      reads this
    {
      CallsFrom(mode, tokens, pos)
    }

    /** The main loop of `detect`: hands every token the cursor reaches to
        `consume_token`. */
    method ConsumeAll()
      requires Valid()
      modifies this`pos, this`calls
      ensures Valid() && calls == old(calls) + old(Pending())
    {
      while pos < |tokens|
        invariant Valid()
        invariant calls + Pending() == old(calls) + old(Pending())
        decreases |tokens| - pos
      {
        CallsFromStep(mode, tokens, pos, calls);
        Step();
      }
    }

    /** One pass of the main loop: `consume_token`, then `next`. */
    method Step()
      requires Valid() && pos < |tokens|
      modifies this`pos, this`calls
      ensures Valid() && pos == Advance(tokens, StepEnd(mode, tokens, old(pos)))
      ensures calls == old(calls) + CallAt(mode, tokens, old(pos))
    {
      ConsumeToken(tokens[pos]);
      var _ := Next();
    }

    /** `consume_token` */
    method ConsumeToken(token: Token)
      requires Valid() && pos < |tokens| && token == tokens[pos]
      modifies this`pos, this`calls
      ensures Valid() && pos == StepEnd(mode, tokens, old(pos))
      ensures calls == old(calls) + CallAt(mode, tokens, old(pos))
    {
      if IsKind(token, Function) {
        SkipFunction();
      } else if IsName(token) {
        DetectString();
      }
    }

    /** `skip_function`: moves to the first `(`. */
    method SkipFunction()
      requires Valid() && pos < |tokens|
      modifies this`pos
      ensures Valid() && pos == Seek(tokens, old(pos) + 1, AtOpenParen)
    {
      var token := Next();
      while token.Some?
        invariant Valid() && old(pos) < pos
        invariant token == if pos < |tokens| then Some(tokens[pos]) else None
        invariant forall k | old(pos) + 1 <= k < pos :: !Stops(AtOpenParen, tokens[k])
        decreases |tokens| - pos
      {
        if IsOpenParen(token.value) {
          break;
        }
        token := Next();
      }
      SeekIsFirst(tokens, old(pos) + 1, AtOpenParen, pos);
    }

    /** `detect_string` on the identifier at the cursor. */
    method DetectString()
      requires Valid() && pos < |tokens| && IsName(tokens[pos])
      modifies this`pos, this`calls
      ensures Valid() && pos == StepEnd(mode, tokens, old(pos))
      ensures calls == old(calls) + CallAt(mode, tokens, old(pos))
    {
      var name := tokens[pos].text;
      var line := tokens[pos].line;
      var isFunctionCall := FindLookahead();
      if isFunctionCall {
        calls := calls + [Call(name, line)];
        // Advance to the semicolon.
        SkipToSemicolon();
      }
    }

    /** The first loop of `detect_string`: over whitespace to the next
        token, which decides whether the identifier is a call. */
    method FindLookahead() returns (isFunctionCall: bool)
      requires Valid() && pos < |tokens| && IsName(tokens[pos])
      modifies this`pos
      ensures Valid() && pos == LookaheadAt(tokens, old(pos))
      ensures isFunctionCall == IsCallAt(mode, tokens, old(pos))
    {
      isFunctionCall := false;
      var token := Next();
      while token.Some?
        invariant Valid() && old(pos) < pos && !isFunctionCall
        invariant token == if pos < |tokens| then Some(tokens[pos]) else None
        invariant forall k | old(pos) + 1 <= k < pos :: !Stops(AtNotWhitespace, tokens[k])
        decreases |tokens| - pos
      {
        if token.value.Classified? {
          if token.value.kind == Whitespace {
            token := Next();
            continue;
          } else {
            break;
          }
        } else if mode == AsWritten || token.value.ch == '(' {
          isFunctionCall := true;
          break;
        } else {
          break;
        }
      }
      SeekIsFirst(tokens, old(pos) + 1, AtNotWhitespace, pos);
    }

    /** The second loop of `detect_string`: on to the next `;`. */
    method SkipToSemicolon()
      requires Valid() && pos < |tokens|
      modifies this`pos
      ensures Valid() && pos == Seek(tokens, old(pos) + 1, AtSemicolon)
    {
      var token := Next();
      while token.Some?
        invariant Valid() && old(pos) < pos
        invariant token == if pos < |tokens| then Some(tokens[pos]) else None
        invariant forall k | old(pos) + 1 <= k < pos :: !Stops(AtSemicolon, tokens[k])
        decreases |tokens| - pos
      {
        if IsSemicolon(token.value) {
          break;
        }
        token := Next();
      }
      SeekIsFirst(tokens, old(pos) + 1, AtSemicolon, pos);
    }

    /** `filter_wp_core_functions`: replaces the call list by the map of
        known functions. */
    method FilterWpCoreFunctions()
      modifies this`usages
      ensures usages == FilterCalls(database, calls)
    {
      var list := calls;
      var filtered: OMap<Usage> := Empty();
      for i := 0 to |list|
        invariant filtered == FilterCalls(database, list[..i])
      {
        var f, l := list[i].name, list[i].line;
        assert list[..i + 1][..i] == list[..i];
        if f in database {
          var record := database[f];
          var entry := if f in filtered.vals then filtered.vals[f] else Seed(f, record);
          filtered := filtered.Put(f, entry.(lines := entry.lines + [l]));
        }
      }
      assert list[..|list|] == list;
      usages := filtered;
    }
  }
}
