/** `WP_Class_Function_Version`: one pass over a file's tokens that collects
    the names of top-level classes and functions and, for those preceded by a
    doc comment, the `since`/`deprecated` record read from it. */
module ClassFunctionVersion {
  import opened Wrappers
  import opened PhpStrings
  import opened PhpArrays
  import opened Tokens
  import opened DocTags

  /** The two keys of `$versions`: 'class' and 'function'. */
  datatype EntityType = ClassEntity | FunctionEntity

  /** `$versions`: for each entity type, name => item. */
  datatype Versions = Versions(classes: OMap<Item>, functions: OMap<Item>) {

    ghost predicate Valid() {
      classes.Valid() && functions.Valid()
    }

    function Of(t: EntityType): OMap<Item> {
      match t
      case ClassEntity => classes
      case FunctionEntity => functions
    }

    /** `$versions[$type][$name] = $item` */
    function Put(t: EntityType, name: string, item: Item): (r: Versions)
      ensures r.Of(t) == Of(t).Put(name, item)
      ensures forall u | u != t :: r.Of(u) == Of(u)
      ensures Valid() ==> r.Valid()
    {
      match t
      case ClassEntity => this.(classes := classes.Put(name, item))
      case FunctionEntity => this.(functions := functions.Put(name, item))
    }
  }

  /** `$versions` before the scan: no record of either type. */
  function NoVersions(): (v: Versions)
    ensures v.Valid()
    ensures forall t :: v.Of(t).keys == [] && v.Of(t).vals == map[]
  {
    Versions(Empty(), Empty())
  }

  /** The scanner's fields: the cursor, the pending doc comment (`''` and
      `null` both as ""), `$classes`, `$functions` and `$versions`. */
  datatype Extraction = Extraction(pos: nat, doc: string, classes: seq<string>, functions: seq<string>, versions: Versions) {
    /** `$classes` or `$functions`. */
    function Of(t: EntityType): seq<string> {
      if t == ClassEntity then classes else functions
    }
  }

  /** The fields when `scan` starts: cursor on the first token, nothing found. */
  function Initial(): (r: Extraction)
    ensures r.pos == 0 && !Truthy(r.doc) && r.classes == [] && r.functions == []
    ensures Consistent(r) && forall t :: r.versions.Of(t).keys == []
  {
    Extraction(0, "", [], [], NoVersions())
  }

  /** `parse_doc_comment_for($type, $token)`: records the item read from the
      pending comment under the name token's text, and clears the comment. */
  function Record(st: Extraction, t: EntityType, name: Token): (r: Extraction)
    requires name.Classified?
    ensures r.doc == "" && r.pos == st.pos && r.classes == st.classes && r.functions == st.functions
    ensures r.versions.Of(t).vals == st.versions.Of(t).vals[name.text := DocItem(st.doc, name.line)]
    ensures r.versions.Of(t).keys == if name.text in st.versions.Of(t).vals then st.versions.Of(t).keys
      else st.versions.Of(t).keys + [name.text]
    ensures r.versions.Of(Other(t)) == st.versions.Of(Other(t))
    ensures st.versions.Valid() ==> r.versions.Valid()
  {
    st.(doc := "", versions := st.versions.Put(t, name.text, DocItem(st.doc, name.line)))
  }

  // ----- extract_class

  predicate OpensBrace(t: Token) {
    IsRaw(t, '{') || IsKind(t, CurlyOpen) || IsKind(t, DollarOpenCurly)
  }

  /** Where the brace-skipping loop of `extract_class` stops, examining tokens
      from `i` on with `depth` braces open: at the `}` that leaves no brace
      open, or at the end of the stream. A `}` with nothing open also stops it. */
  function BodyEnd(toks: seq<Token>, i: nat, depth: nat): (e: nat)
    ensures e <= |toks| && (i <= |toks| ==> i <= e)
    ensures e < |toks| ==> IsRaw(toks[e], '}')
    decreases |toks| - i
  {
    if i >= |toks| then |toks|
    else if IsRaw(toks[i], '{') then BodyEnd(toks, i + 1, depth + 1)
    else if IsRaw(toks[i], '}') then
      if depth <= 1 then i else BodyEnd(toks, i + 1, depth - 1)
    else if IsKind(toks[i], CurlyOpen) || IsKind(toks[i], DollarOpenCurly) then BodyEnd(toks, i + 1, depth + 1)
    else BodyEnd(toks, i + 1, depth)
  }

  /** The state after the first loop of `extract_class`: the cursor on the
      first identifier after `class`, appended to `$classes`, or past the end
      of the stream when there is none. */
  function FoundClassName(toks: seq<Token>, st: Extraction): (r: Extraction)
    requires st.pos < |toks|
    ensures st.pos < r.pos <= |toks| && r == st.(pos := r.pos, classes := r.classes)
    ensures forall k | st.pos < k < r.pos :: !IsName(toks[k])
    ensures r.pos < |toks| ==> IsName(toks[r.pos]) && r.classes == st.classes + [toks[r.pos].text]
    ensures r.pos == |toks| ==> r.classes == st.classes
  {
    var n := Seek(toks, st.pos + 1, AtName);
    st.(pos := n, classes := st.classes + if n < |toks| then [toks[n].text] else [])
  }

  /** Where the second loop of `extract_class` leaves the cursor when the
      name is at `n`. */
  function SkipBody(toks: seq<Token>, n: nat): (e: nat)
    requires n <= |toks|
    ensures n <= e <= |toks| && (n < |toks| ==> n < e)
    ensures e < |toks| ==> IsRaw(toks[e], '}')
  {
    if n < |toks| then BodyEnd(toks, n + 1, 0) else |toks|
  }

  /** How many tokens of `toks[i..k]` open a brace level. */
  function Opens(toks: seq<Token>, i: nat, k: nat): nat
    requires i <= k <= |toks|
    decreases k - i
  {
    if i == k then 0 else (if OpensBrace(toks[i]) then 1 else 0) + Opens(toks, i + 1, k)
  }

  /** How many tokens of `toks[i..k]` are a bare `}`. */
  function Closes(toks: seq<Token>, i: nat, k: nat): nat
    requires i <= k <= |toks|
    decreases k - i
  {
    if i == k then 0 else (if IsRaw(toks[i], '}') then 1 else 0) + Closes(toks, i + 1, k)
  }

  /** The brace skip stops at the first `}` met while at most one level is
      open, counting from `depth` levels at `i`: every `}` before it is met
      with two or more levels open, so the count never drops below zero. */
  lemma {:induction false} BodyEndIsFirstClose(toks: seq<Token>, i: nat, depth: nat)
    requires i <= |toks|
    ensures var e := BodyEnd(toks, i, depth);
      (forall k | i <= k < e :: IsRaw(toks[k], '}') ==> depth + Opens(toks, i, k) - Closes(toks, i, k) >= 2) &&
      (e < |toks| ==> depth + Opens(toks, i, e) - Closes(toks, i, e) <= 1)
    decreases |toks| - i
  {
    if i < |toks| {
      var d' := if OpensBrace(toks[i]) then depth + 1
        else if IsRaw(toks[i], '}') then depth - 1 else depth;
      if !(IsRaw(toks[i], '}') && depth <= 1) {
        BodyEndIsFirstClose(toks, i + 1, d');
        assert BodyEnd(toks, i, depth) == BodyEnd(toks, i + 1, d');
      }
    }
  }

  /** `extract_class` on the `class` token at the cursor. `None` is the
      TypeError raised when no name follows and a comment is pending: the
      search then hands `false` to `parse_doc_comment_for`. */
  function AfterClass(toks: seq<Token>, st: Extraction): (r: Option<Extraction>)
    requires st.pos < |toks|
    ensures r.Some? ==> st.pos < r.value.pos <= |toks|
    ensures r.Some? ==> st.classes <= r.value.classes && r.value.functions == st.functions
    ensures r.None? <==> Seek(toks, st.pos + 1, AtName) == |toks| && Truthy(st.doc)
  {
    var found := FoundClassName(toks, st);
    if found.pos == |toks| && Truthy(st.doc) then None
    else
      var recorded := if Truthy(st.doc) then Record(found, ClassEntity, toks[found.pos]) else found;
      Some(recorded.(pos := SkipBody(toks, found.pos)))
  }

  // ----- extract_function

  /** `extract_function` on the `function` token at the cursor: the first
      identifier is the name; a `(` first means an anonymous function. */
  function AfterFunction(toks: seq<Token>, st: Extraction): (r: Extraction)
    requires st.pos < |toks|
    ensures st.pos < r.pos <= |toks|
    ensures r.classes == st.classes && st.functions <= r.functions
  {
    var j := Seek(toks, st.pos + 1, AtNameOrParen);
    if j < |toks| && IsName(toks[j]) then
      var named := st.(pos := j, functions := st.functions + [toks[j].text]);
      if Truthy(st.doc) then Record(named, FunctionEntity, toks[j]) else named
    else
      st.(pos := j)
  }

  // ----- consume_token and scan

  /** `consume_token` on the token at the cursor. */
  function AfterToken(toks: seq<Token>, st: Extraction): (r: Option<Extraction>)
    requires st.pos < |toks|
    ensures r.Some? ==> st.pos <= r.value.pos <= |toks|
    ensures r.Some? ==> st.classes <= r.value.classes && st.functions <= r.value.functions
  {
    match toks[st.pos]
    case Raw(_) => Some(st)
    case Classified(kind, text, _) =>
      match kind
      case Class => AfterClass(toks, st)
      case Function => Some(AfterFunction(toks, st))
      case DocComment => Some(st.(doc := text))
      case Whitespace => Some(st)
      case _ => Some(st.(doc := ""))
  }

  /** The `while` loop of `scan` from state `st` on; `None` if it throws. */
  function ScanFrom(toks: seq<Token>, st: Extraction): (r: Option<Extraction>)
    requires st.pos <= |toks|
    ensures r.Some? ==> r.value.pos == |toks|
    ensures r.Some? ==> st.classes <= r.value.classes && st.functions <= r.value.functions
    decreases |toks| - st.pos
  {
    if st.pos == |toks| then Some(st)
    else
      match AfterToken(toks, st)
      case None => None
      case Some(next) => ScanFrom(toks, next.(pos := Advance(toks, next.pos)))
  }

  /** The whole of `scan` on a file's tokens. */
  function Scan(toks: seq<Token>): (r: Option<Extraction>)
    ensures r.Some? ==> r.value.pos == |toks| && Consistent(r.value)
  {
    var r := ScanFrom(toks, Initial());
    if r.Some? then ScanConsistent(toks, Initial()); r else r
  }

  // ----- What the pass promises

  /** The pending doc comment: a doc comment sets it, whitespace and bare
      punctuation leave it, and any other token but `class` and `function`
      clears it. */
  lemma PendingDocComment(toks: seq<Token>, st: Extraction)
    requires st.pos < |toks|
    requires !IsKind(toks[st.pos], Class) && !IsKind(toks[st.pos], Function)
    ensures AfterToken(toks, st).Some?
    ensures var r := AfterToken(toks, st).value;
      r == st.(doc := r.doc) &&
      r.doc == (if IsKind(toks[st.pos], DocComment) then toks[st.pos].text
                else if toks[st.pos].Raw? || IsKind(toks[st.pos], Whitespace) then st.doc
                else "")
  {
  }

  /** A declaration's record is written exactly when a truthy comment is
      pending as its name is found; it holds the item read from that comment
      with the name's line, under the name, and the comment is then cleared. */
  lemma DeclarationRecorded(toks: seq<Token>, st: Extraction, t: EntityType)
    requires st.pos < |toks|
    requires IsKind(toks[st.pos], if t == ClassEntity then Class else Function)
    requires AfterToken(toks, st).Some?
    ensures var r := AfterToken(toks, st).value;
      var n := Seek(toks, st.pos + 1, if t == ClassEntity then AtName else AtNameOrParen);
      var named := n < |toks| && IsName(toks[n]);
      (named ==> r.Of(t) == st.Of(t) + [toks[n].text]) &&
      (!named ==> r.Of(t) == st.Of(t)) &&
      (named && Truthy(st.doc) ==>
        r.doc == "" && r.versions == st.versions.Put(t, toks[n].text, DocItem(st.doc, toks[n].line))) &&
      (!(named && Truthy(st.doc)) ==> r.doc == st.doc && r.versions == st.versions) &&
      r.Of(Other(t)) == st.Of(Other(t))
  {
    if t == ClassEntity {
      ClassListed(toks, st);
      ClassRecordWritten(toks, st);
    } else {
      FunctionListed(toks, st);
      FunctionRecordWritten(toks, st);
    }
  }

  /** `extract_class` appends the name it finds to `$classes`, and nothing
      when there is none. */
  lemma ClassListed(toks: seq<Token>, st: Extraction)
    requires st.pos < |toks| && AfterClass(toks, st).Some?
    ensures var r := AfterClass(toks, st).value;
      var n := Seek(toks, st.pos + 1, AtName);
      (n < |toks| ==> r.classes == st.classes + [toks[n].text]) &&
      (n == |toks| ==> r.classes == st.classes) &&
      r.functions == st.functions
  {
    AfterClassValue(toks, st);
  }

  /** `extract_class` writes a record exactly when a truthy comment is
      pending (the scan throws when no name follows it). */
  lemma ClassRecordWritten(toks: seq<Token>, st: Extraction)
    requires st.pos < |toks| && AfterClass(toks, st).Some?
    ensures var r := AfterClass(toks, st).value;
      var n := Seek(toks, st.pos + 1, AtName);
      (Truthy(st.doc) ==> (n < |toks| && r.doc == "" &&
        r.versions == st.versions.Put(ClassEntity, toks[n].text, DocItem(st.doc, toks[n].line)))) &&
      (!Truthy(st.doc) ==> r.doc == st.doc && r.versions == st.versions)
  {
    AfterClassValue(toks, st);
  }

  /** What `extract_class` leaves when it does not throw: the record, if a
      comment is pending, then the cursor at the end of the body. */
  lemma AfterClassValue(toks: seq<Token>, st: Extraction)
    requires st.pos < |toks| && AfterClass(toks, st).Some?
    ensures var found := FoundClassName(toks, st);
      found.pos == Seek(toks, st.pos + 1, AtName) &&
      (Truthy(st.doc) ==> (found.pos < |toks| &&
        AfterClass(toks, st).value == Record(found, ClassEntity, toks[found.pos]).(pos := SkipBody(toks, found.pos)))) &&
      (!Truthy(st.doc) ==> AfterClass(toks, st).value == found.(pos := SkipBody(toks, found.pos)))
  {
  }

  /** `extract_function` appends the name it finds to `$functions`, and
      nothing when a `(` or the end comes first. */
  lemma FunctionListed(toks: seq<Token>, st: Extraction)
    requires st.pos < |toks|
    ensures var r := AfterFunction(toks, st);
      var n := Seek(toks, st.pos + 1, AtNameOrParen);
      var named := n < |toks| && IsName(toks[n]);
      (named ==> r.functions == st.functions + [toks[n].text]) &&
      (!named ==> r.functions == st.functions) &&
      r.classes == st.classes
  {
    AfterFunctionValue(toks, st);
  }

  /** `extract_function` writes a record exactly when it finds a name while
      a truthy comment is pending. */
  lemma FunctionRecordWritten(toks: seq<Token>, st: Extraction)
    requires st.pos < |toks|
    ensures var r := AfterFunction(toks, st);
      var n := Seek(toks, st.pos + 1, AtNameOrParen);
      var named := n < |toks| && IsName(toks[n]);
      (named && Truthy(st.doc) ==>
        r.doc == "" && r.versions == st.versions.Put(FunctionEntity, toks[n].text, DocItem(st.doc, toks[n].line))) &&
      (!(named && Truthy(st.doc)) ==> r.doc == st.doc && r.versions == st.versions)
  {
    AfterFunctionValue(toks, st);
  }

  /** What `extract_function` leaves: the name listed and, if a comment is
      pending, recorded, with the cursor on the name; or only the cursor
      moved to the `(` or the end. */
  lemma AfterFunctionValue(toks: seq<Token>, st: Extraction)
    requires st.pos < |toks|
    ensures var n := Seek(toks, st.pos + 1, AtNameOrParen);
      n < |toks| && IsName(toks[n]) ==>
        var named := st.(pos := n, functions := st.functions + [toks[n].text]);
        AfterFunction(toks, st) == if Truthy(st.doc) then Record(named, FunctionEntity, toks[n]) else named
    ensures var n := Seek(toks, st.pos + 1, AtNameOrParen);
      !(n < |toks| && IsName(toks[n])) ==> AfterFunction(toks, st) == st.(pos := n)
  {
  }

  /** The other entity type. */
  function Other(t: EntityType): EntityType {
    if t == ClassEntity then FunctionEntity else ClassEntity
  }

  /** The fields `scan` keeps consistent: every name with a record was also
      appended to its list. */
  ghost predicate Consistent(st: Extraction) {
    st.versions.Valid() &&
    (forall k | k in st.versions.classes.vals :: k in st.classes) &&
    (forall k | k in st.versions.functions.vals :: k in st.functions)
  }

  lemma StepConsistent(toks: seq<Token>, st: Extraction)
    requires st.pos < |toks| && Consistent(st)
    requires AfterToken(toks, st).Some?
    ensures Consistent(AfterToken(toks, st).value)
  {
    var r := AfterToken(toks, st).value;
    if IsKind(toks[st.pos], Class) {
      DeclarationRecorded(toks, st, ClassEntity);
    } else if IsKind(toks[st.pos], Function) {
      DeclarationRecorded(toks, st, FunctionEntity);
    }
  }

  /** `scan` keeps every record's name among the names it found. */
  lemma {:induction false} ScanConsistent(toks: seq<Token>, st: Extraction)
    requires st.pos <= |toks| && Consistent(st)
    requires ScanFrom(toks, st).Some?
    ensures Consistent(ScanFrom(toks, st).value)
    decreases |toks| - st.pos
  {
    if st.pos < |toks| {
      StepConsistent(toks, st);
      var next := AfterToken(toks, st).value;
      ScanConsistent(toks, next.(pos := Advance(toks, next.pos)));
    }
  }

  // ----- Which tokens the loop of `scan` hands to `consume_token`

  /** The cursor positions at which the loop of `scan` calls `consume_token`,
      from state `st` on, in order, up to the end or to the call that throws. */
  function DispatchedFrom(toks: seq<Token>, st: Extraction): (d: seq<nat>)
    requires st.pos <= |toks|
    ensures forall k | 0 <= k < |d| :: st.pos <= d[k] < |toks|
    ensures forall k | 0 < k < |d| :: d[k - 1] < d[k]
    ensures st.pos < |toks| ==> d != [] && d[0] == st.pos
    decreases |toks| - st.pos
  {
    if st.pos == |toks| then []
    else
      match AfterToken(toks, st)
      case None => [st.pos]
      case Some(next) => [st.pos] + DispatchedFrom(toks, next.(pos := Advance(toks, next.pos)))
  }

  /** The token kind that declares an entity of type `t`. */
  function KindOf(t: EntityType): Kind {
    if t == ClassEntity then Class else Function
  }

  /** The search for the name after the keyword: `extract_class` looks for an
      identifier, `extract_function` stops at an identifier or a `(`. */
  function NameStop(t: EntityType): Stop {
    if t == ClassEntity then AtName else AtNameOrParen
  }

  /** The token at `d` is a `class` or `function` keyword for type `t` whose
      name token has the text `name`. */
  predicate DeclaresAt(toks: seq<Token>, d: nat, t: EntityType, name: string) {
    d < |toks| && IsKind(toks[d], KindOf(t)) &&
    var n := Seek(toks, d + 1, NameStop(t));
    n < |toks| && IsName(toks[n]) && toks[n].text == name
  }

  /** The brace skip seen from the loop of `scan`: after a `class` keyword
      whose name is at `n`, no token up to the `}` that closes the class
      body is handed to `consume_token`, so nothing declared inside the body
      (a method in particular) is ever listed or recorded. */
  lemma ClassBodyNotDispatched(toks: seq<Token>, st: Extraction)
    requires st.pos < |toks| && IsKind(toks[st.pos], Class)
    ensures var n := Seek(toks, st.pos + 1, AtName);
      var d := DispatchedFrom(toks, st);
      d[0] == st.pos && forall k | 0 < k < |d| :: SkipBody(toks, n) < d[k]
  {
    var n := Seek(toks, st.pos + 1, AtName);
    match AfterToken(toks, st)
    case None =>
    case Some(next) =>
      assert next.pos == SkipBody(toks, n);
      var st' := next.(pos := Advance(toks, next.pos));
      assert DispatchedFrom(toks, st) == [st.pos] + DispatchedFrom(toks, st');
  }

  /** Every record `scan` ends with was there before or was written for a
      `class` or `function` keyword the loop handed to `consume_token`,
      under the name that keyword's search found. */
  lemma {:induction false} RecordsFromDispatched(toks: seq<Token>, st: Extraction, t: EntityType, name: string)
    requires st.pos <= |toks| && ScanFrom(toks, st).Some?
    requires name in ScanFrom(toks, st).value.versions.Of(t).vals
    ensures name in st.versions.Of(t).vals ||
      exists d | d in DispatchedFrom(toks, st) :: DeclaresAt(toks, d, t, name)
    decreases |toks| - st.pos
  {
    if st.pos < |toks| {
      var next := AfterToken(toks, st).value;
      var st' := next.(pos := Advance(toks, next.pos));
      assert DispatchedFrom(toks, st) == [st.pos] + DispatchedFrom(toks, st');
      RecordsFromDispatched(toks, st', t, name);
      if name in next.versions.Of(t).vals && name !in st.versions.Of(t).vals {
        if IsKind(toks[st.pos], KindOf(t)) {
          DeclarationRecorded(toks, st, t);
          assert DeclaresAt(toks, st.pos, t, name);
        } else if IsKind(toks[st.pos], KindOf(Other(t))) {
          DeclarationRecorded(toks, st, Other(t));
        } else {
          PendingDocComment(toks, st);
        }
      }
    }
  }

  /** Over a whole file: every recorded name is the name found after a
      `class` or `function` keyword at a position the loop dispatched, and
      therefore after none that lies inside a skipped class body. */
  lemma ScanRecordsDeclarations(toks: seq<Token>, t: EntityType, name: string)
    requires Scan(toks).Some? && name in Scan(toks).value.versions.Of(t).vals
    ensures exists d | d in DispatchedFrom(toks, Initial()) :: DeclaresAt(toks, d, t, name)
  {
    RecordsFromDispatched(toks, Initial(), t, name);
  }

  /** The tokens of `class Beta { /** @since 1.0 */ function inner() {} }`. */
  function ClassWithMethod(): seq<Token> {
    [Classified(Class, "class", 1), Classified(Whitespace, " ", 1),
     Classified(String, "Beta", 1), Raw('{'), Classified(DocComment, "/** @since 1.0 */", 1),
     Classified(Function, "function", 2), Classified(String, "inner", 2),
     Raw('('), Raw(')'), Raw('{'), Raw('}'), Raw('}')]
  }

  /** In `ClassWithMethod()`, the name found after `class` is `Beta`, at 2. */
  lemma ClassWithMethodName()
    ensures FoundClassName(ClassWithMethod(), Initial()) == Extraction(2, "", ["Beta"], [], NoVersions())
  {
    assert Seek(ClassWithMethod(), 1, AtName) == 2;
  }

  /** In `ClassWithMethod()`, the body after the name ends at the last token. */
  lemma ClassWithMethodBody()
    ensures SkipBody(ClassWithMethod(), 2) == 11
  {
    var toks := ClassWithMethod();
    assert BodyEnd(toks, 10, 2) == 11;
    assert BodyEnd(toks, 6, 1) == 11;
  }

  /** The class `Beta` is listed; the method `inner` and the comment before
      it are never read, so `inner` is neither listed nor recorded. */
  lemma {:induction false} MethodInClassBodyIgnored()
    ensures Scan(ClassWithMethod()) == Some(Extraction(12, "", ["Beta"], [], NoVersions()))
  {
    var toks := ClassWithMethod();
    ClassWithMethodName();
    ClassWithMethodBody();
    var found := Extraction(11, "", ["Beta"], [], NoVersions());
    assert AfterClass(toks, Initial()) == Some(found);
    assert ScanFrom(toks, found.(pos := 12)) == Some(found.(pos := 12));
  }

  /** The object: the fields of `WP_Class_Function_Version`, with the
      array's internal pointer as `pos`. */
  class Extractor {
    var tokens: seq<Token>
    var pos: nat
    var docComment: string
    var classes: seq<string>
    var functions: seq<string>
    var versions: Versions

    predicate Valid()
      reads this
    {
      pos <= |tokens|
    }

    /** The fields as the specification functions see them. */
    function State(): Extraction
      reads this
    {
      Extraction(pos, docComment, classes, functions, versions)
    }

    /** The constructor with the file already read and tokenized; `Scan` is
        the constructor's call to `scan`. */
    constructor (source: seq<Token>)
      ensures Valid() && tokens == source && State() == Initial()
    {
      tokens := source;
      pos := 0;
      docComment := "";
      classes := [];
      functions := [];
      versions := NoVersions();
    }

    /** `next($this->tokens)`: the token now under the cursor, if any. */
    method Next() returns (t: Option<Token>)
      requires Valid()
      modifies this`pos
      ensures Valid() && pos == Advance(tokens, old(pos))
      ensures t == if pos < |tokens| then Some(tokens[pos]) else None
    {
      pos := Advance(tokens, pos);
      t := if pos < |tokens| then Some(tokens[pos]) else None;
    }

    /** `scan`: consumes every token; `ok` is false when a TypeError ends it. */
    method Scan() returns (ok: bool)
      requires Valid()
      modifies this
      ensures Valid() && tokens == old(tokens)
      ensures ok == ScanFrom(tokens, old(State())).Some?
      ensures ok ==> State() == ScanFrom(tokens, old(State())).value
    {
      while pos < |tokens|
        invariant Valid() && tokens == old(tokens)
        invariant ScanFrom(tokens, State()) == ScanFrom(tokens, old(State()))
        decreases |tokens| - pos
      {
        ghost var before := State();
        ok := ConsumeToken(tokens[pos]);
        if !ok {
          return;
        }
        var _ := Next();
        assert State() == AfterToken(tokens, before).value.(pos := pos);
      }
      ok := true;
    }

    /** `consume_token` */
    method ConsumeToken(token: Token) returns (ok: bool)
      requires Valid() && pos < |tokens| && token == tokens[pos]
      modifies this
      ensures Valid() && tokens == old(tokens)
      ensures ok == AfterToken(tokens, old(State())).Some?
      ensures ok ==> State() == AfterToken(tokens, old(State())).value
    {
      ok := true;
      if token.Classified? {
        match token.kind
        case Class => ok := ExtractClass();
        case Function => ExtractFunction();
        case DocComment => docComment := token.text;
        case Whitespace =>
        case _ => docComment := "";
      }
    }

    /** `extract_class`; `ok` is false for the TypeError. */
    method ExtractClass() returns (ok: bool)
      requires Valid() && pos < |tokens|
      modifies this
      ensures Valid() && tokens == old(tokens)
      ensures ok == AfterClass(tokens, old(State())).Some?
      ensures ok ==> State() == AfterClass(tokens, old(State())).value
    {
      var token := FindClassName();
      if Truthy(docComment) {
        if token.None? {
          // parse_doc_comment_for( 'class', false ): a TypeError.
          return false;
        }
        ParseDocCommentFor(ClassEntity, token.value);
      }
      SkipClassBody();
      ok := true;
    }

    /** The first loop of `extract_class`: moves to the first identifier
        after `class` and appends it to `$classes`. */
    method FindClassName() returns (token: Option<Token>)
      requires Valid() && pos < |tokens|
      modifies this`pos, this`classes
      ensures Valid() && State() == FoundClassName(tokens, old(State()))
      ensures token == if pos < |tokens| then Some(tokens[pos]) else None
    {
      token := Next();
      while token.Some?
        invariant Valid() && old(pos) < pos
        invariant token == if pos < |tokens| then Some(tokens[pos]) else None
        invariant forall k | old(pos) + 1 <= k < pos :: !IsName(tokens[k])
        invariant classes == old(classes)
        decreases |tokens| - pos
      {
        if IsName(token.value) {
          classes := classes + [token.value.text];
          break;
        }
        token := Next();
      }
      SeekIsFirst(tokens, old(pos) + 1, AtName, pos);
    }

    /** The second loop of `extract_class`: skips the class body by counting
        the braces that open and close after the name at the cursor. */
    method SkipClassBody()
      requires Valid()
      modifies this`pos
      ensures Valid()
      ensures State() == old(State()).(pos := SkipBody(tokens, old(pos)))
    {
      var braceStack: seq<char> := [];
      var token := Next();
      while token.Some?
        invariant Valid() && (old(pos) < |tokens| ==> old(pos) < pos)
        invariant old(pos) >= |tokens| ==> pos == |tokens|
        invariant token == if pos < |tokens| then Some(tokens[pos]) else None
        invariant old(pos) < |tokens| ==> BodyEnd(tokens, old(pos) + 1, 0) == BodyEnd(tokens, pos, |braceStack|)
        invariant forall k | 0 <= k < |braceStack| :: braceStack[k] == '{'
        decreases |tokens| - pos
      {
        if token.value == Raw('{') {
          braceStack := braceStack + ['{'];
        } else if token.value == Raw('}') {
          if |braceStack| > 0 {
            braceStack := braceStack[..|braceStack| - 1];
          }
          if |braceStack| == 0 {
            break;
          }
        } else if IsKind(token.value, CurlyOpen) || IsKind(token.value, DollarOpenCurly) {
          braceStack := braceStack + ['{'];
        }
        token := Next();
      }
    }

    /** `extract_function` */
    method ExtractFunction()
      requires Valid() && pos < |tokens|
      modifies this
      ensures Valid() && tokens == old(tokens)
      ensures State() == AfterFunction(tokens, old(State()))
    {
      var token := Next();
      while token.Some?
        invariant Valid() && tokens == old(tokens) && old(pos) < pos
        invariant token == if pos < |tokens| then Some(tokens[pos]) else None
        invariant forall k | old(pos) + 1 <= k < pos :: !Stops(AtNameOrParen, tokens[k])
        invariant State() == old(State()).(pos := pos)
        decreases |tokens| - pos
      {
        if IsName(token.value) || IsOpenParen(token.value) {
          break;
        }
        token := Next();
      }
      SeekIsFirst(tokens, old(pos) + 1, AtNameOrParen, pos);
      // The loop's `T_STRING` branch; at a `(` the function is anonymous.
      if token.Some? && IsName(token.value) {
        functions := functions + [token.value.text];
        if Truthy(docComment) {
          ParseDocCommentFor(FunctionEntity, token.value);
        }
      }
    }

    /** `parse_doc_comment_for`: reads the pending comment into an item for
        `token`, stores it under the token's text and clears the comment. */
    method ParseDocCommentFor(entity: EntityType, token: Token)
      requires token.Classified?
      modifies this`docComment, this`versions
      ensures State() == Record(old(State()), entity, token)
    {
      var item := ReadDocComment(docComment, token.line);
      docComment := "";
      versions := versions.Put(entity, token.text, item);
    }
  }
}
