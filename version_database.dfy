/** `scan_version`: scans every core file, merges the per-file version
    records into one database keyed by type and name, and sorts it. */
module VersionDatabase {
  import opened Wrappers
  import opened PhpStrings
  import opened PhpArrays
  import opened Tokens
  import opened DocTags
  import opened ClassFunctionVersion

  /** One database entry: the file (relative to the core's root) and line of
      the declaration, and its `since` and `deprecated` values. */
  datatype Record = Record(file: string, line: nat, since: string, deprecated: string)

  /** `$database`: the 'class' and 'function' maps, in that (sorted) order. */
  datatype Database = Database(classes: OMap<Record>, functions: OMap<Record>) {

    ghost predicate Valid() {
      classes.Valid() && functions.Valid()
    }

    function Of(t: EntityType): OMap<Record> {
      match t
      case ClassEntity => classes
      case FunctionEntity => functions
    }
  }

  /** The entry a file's item becomes. */
  function ToRecord(rel: string, item: Item): Record {
    Record(rel, item.line, item.since, item.deprecated)
  }

  /** A core file: its path relative to the core's root, and its tokens, or
      `None` when it cannot be read (the scanner then finds nothing). */
  datatype SourceFile = SourceFile(rel: string, tokens: Option<seq<Token>>)

  // ----- Excluding wp-content

  /** The path's first segment, when it has a separator (`/`) at all. */
  function FirstSegment(rel: string): Option<string> {
    match StrPos(rel, '/')
    case None => None
    case Some(p) => Some(rel[..p])
  }

  /** A file under `wp-content` is not core code and is skipped. */
  predicate Excluded(rel: string)
    ensures Excluded(rel) ==> |rel| > 10 && rel[10] == '/' && rel[..10] == "wp-content"
  {
    FirstSegment(rel) == Some("wp-content")
  }

  /** Exactly the paths that start with the directory `wp-content/` are
      skipped; in particular a file at the root is never skipped. */
  lemma ExcludedIff(rel: string)
    ensures Excluded(rel) <==> |rel| > 10 && rel[..11] == "wp-content/"
  {
    var w := "wp-content";
    if |rel| > 10 && rel[..11] == w + "/" {
      assert rel[10] == '/' && rel[..10] == w;
      var p := StrPos(rel, '/');
      assert p.Some? && p.value <= 10;
      assert forall k | 0 <= k < 10 :: rel[k] == w[k] && w[k] != '/';
      assert p.value == 10;
    }
    if Excluded(rel) {
      var p := StrPos(rel, '/').value;
      assert rel[..p] == w;
      assert rel[..11] == rel[..p] + [rel[p]];
    }
  }

  // ----- Merging

  /** What a file contributes: its scanner's `$versions`, `None` when the
      scan ends in the TypeError, which aborts the whole build. */
  function FileVersions(f: SourceFile): (r: Option<Versions>)
    ensures r.Some? ==> r.value.Valid()
  {
    match f.tokens
    case None => Some(NoVersions())
    case Some(toks) =>
      match Scan(toks)
      case None => None
      case Some(st) => Some(st.versions)
  }

  /** The inner `foreach` over one type's items: each name is (re)written
      with an entry for this file. */
  function MergeItems(entries: OMap<Record>, rel: string, names: seq<string>, items: map<string, Item>): (r: OMap<Record>)
    requires forall k | k in names :: k in items
    ensures entries.Valid() ==> r.Valid()
    decreases |names|
  {
    if names == [] then entries
    else
      var n := |names| - 1;
      MergeItems(entries, rel, names[..n], items).Put(names[n], ToRecord(rel, items[names[n]]))
  }

  /** Both types of one file's records merged into the database. */
  function MergeFile(db: Database, rel: string, v: Versions): (r: Database)
    requires v.Valid()
    ensures db.Valid() ==> r.Valid()
  {
    Database(MergeItems(db.classes, rel, v.classes.keys, v.classes.vals),
             MergeItems(db.functions, rel, v.functions.keys, v.functions.vals))
  }

  /** The database after the files, in order, before sorting; `None` when a
      scan aborts it. */
  function Build(files: seq<SourceFile>): (r: Option<Database>)
    ensures r.Some? ==> r.value.Valid()
    decreases |files|
  {
    if files == [] then Some(Database(Empty(), Empty()))
    else AddFile(Build(files[..|files| - 1]), files[|files| - 1])
  }

  /** One round of the outer `foreach`: a file under `wp-content` is
      skipped, a scan that throws aborts the build for good, and any other
      file is merged in. */
  function AddFile(db: Option<Database>, f: SourceFile): (r: Option<Database>)
    requires db.Some? ==> db.value.Valid()
    ensures r.Some? ==> r.value.Valid()
    ensures db.None? ==> r.None?
    ensures Excluded(f.rel) ==> r == db
    ensures db.Some? && !Excluded(f.rel) ==> (r.None? <==> FileVersions(f).None?)
  {
    match db
    case None => None
    case Some(d) =>
      if Excluded(f.rel) then db
      else
        match FileVersions(f)
        case None => None
        case Some(v) => Some(MergeFile(d, f.rel, v))
  }

  /** The three `ksort` calls. */
  function SortDatabase(db: Database): (r: Database)
    requires db.Valid()
    ensures r.Valid() && r.classes.vals == db.classes.vals && r.functions.vals == db.functions.vals
    ensures forall t, i, j | 0 <= i < j < |r.Of(t).keys| :: StringOrder.Less(r.Of(t).keys[i], r.Of(t).keys[j])
  {
    var r := Database(db.classes.KSort(), db.functions.KSort());
    assert forall t :: r.Of(t) == db.Of(t).KSort();
    r
  }

  /** What `scan_version` writes out. */
  function ScanVersionResult(files: seq<SourceFile>): (r: Option<Database>)
    ensures r.Some? <==> Build(files).Some?
    ensures r.Some? ==> r.value.Valid() && forall t :: r.value.Of(t).vals == Build(files).value.Of(t).vals
    ensures r.Some? ==> forall t, i, j | 0 <= i < j < |r.value.Of(t).keys| ::
      StringOrder.Less(r.value.Of(t).keys[i], r.value.Of(t).keys[j])
  {
    match Build(files)
    case None => None
    case Some(db) => Some(SortDatabase(db))
  }

  // ----- Reference definition: the last file wins

  /** The entry for `name` of type `t` that the last included file recording
      it gives. */
  function LastRecord(files: seq<SourceFile>, t: EntityType, name: string): Option<Record>
    decreases |files|
  {
    if files == [] then None
    else
      var f := files[|files| - 1];
      var v := FileVersions(f);
      if !Excluded(f.rel) && v.Some? && name in v.value.Of(t).vals then
        Some(ToRecord(f.rel, v.value.Of(t).vals[name]))
      else LastRecord(files[..|files| - 1], t, name)
  }

  /** One merge: the names it writes get this file's entries, the others
      keep theirs. */
  lemma {:induction false} MergeItemsLookup(entries: OMap<Record>, rel: string, names: seq<string>, items: map<string, Item>, name: string)
    requires forall k | k in names :: k in items
    ensures var r := MergeItems(entries, rel, names, items);
      (name in r.vals <==> name in entries.vals || name in names) &&
      (name in names ==> r.vals[name] == ToRecord(rel, items[name])) &&
      (name !in names && name in entries.vals ==> r.vals[name] == entries.vals[name])
    decreases |names|
  {
    if names != [] {
      var n := |names| - 1;
      MergeItemsLookup(entries, rel, names[..n], items, name);
      assert names == names[..n] + [names[n]];
    }
  }

  /** A later file overwrites a same-name entry; the database holds exactly
      the names some included file records (declares under a truthy doc
      comment), each with the entry of the last such file. */
  lemma {:induction false} BuildIsLastFileWins(files: seq<SourceFile>, t: EntityType, name: string)
    requires Build(files).Some?
    ensures var db := Build(files).value;
      (name in db.Of(t).vals <==> LastRecord(files, t, name).Some?) &&
      (name in db.Of(t).vals ==> db.Of(t).vals[name] == LastRecord(files, t, name).value)
    decreases |files|
  {
    if files != [] {
      var init, f := files[..|files| - 1], files[|files| - 1];
      BuildIsLastFileWins(init, t, name);
      if !Excluded(f.rel) {
        var v := FileVersions(f).value;
        var db := Build(init).value;
        MergeItemsLookup(db.Of(t), f.rel, v.Of(t).keys, v.Of(t).vals, name);
        assert Build(files).value.Of(t) == MergeItems(db.Of(t), f.rel, v.Of(t).keys, v.Of(t).vals);
      }
    }
  }

  /** The files that are not skipped. */
  function Included(files: seq<SourceFile>): (r: seq<SourceFile>)
    ensures forall f | f in r :: !Excluded(f.rel)
    decreases |files|
  {
    if files == [] then []
    else
      var f := files[|files| - 1];
      Included(files[..|files| - 1]) + if Excluded(f.rel) then [] else [f]
  }

  /** What lies under `wp-content` has no effect on the database, not even
      a file whose scan would abort. */
  lemma {:induction false} ExcludedFilesIrrelevant(files: seq<SourceFile>)
    ensures Build(files) == Build(Included(files))
    decreases |files|
  {
    if files != [] {
      var init, f := files[..|files| - 1], files[|files| - 1];
      ExcludedFilesIrrelevant(init);
      if Excluded(f.rel) {
        assert Included(files) == Included(init) + [];
        assert Included(init) + [] == Included(init);
      } else {
        var inc := Included(init) + [f];
        assert Included(files) == inc;
        assert inc[..|inc| - 1] == Included(init) && inc[|inc| - 1] == f;
        assert Build(inc) == AddFile(Build(Included(init)), f);
      }
    }
  }

  // ----- The build loop

  /** One more name handled by the inner `foreach`. */
  lemma MergeItemsSnoc(entries: OMap<Record>, rel: string, names: seq<string>, items: map<string, Item>, i: nat)
    requires i < |names| && forall k | k in names :: k in items
    ensures MergeItems(entries, rel, names[..i + 1], items) ==
      MergeItems(entries, rel, names[..i], items).Put(names[i], ToRecord(rel, items[names[i]]))
  {
    assert names[..i + 1][..i] == names[..i];
  }

  /** The inner `foreach` of `scan_version` for one type. */
  method MergeEntries(entries: OMap<Record>, rel: string, items: OMap<Item>) returns (r: OMap<Record>)
    requires forall k | k in items.keys :: k in items.vals
    ensures r == MergeItems(entries, rel, items.keys, items.vals)
  {
    var names, vals := items.keys, items.vals;
    r := entries;
    for i := 0 to |names|
      invariant r == MergeItems(entries, rel, names[..i], vals)
    {
      MergeItemsSnoc(entries, rel, names, vals, i);
      var name := names[i];
      r := r.Put(name, ToRecord(rel, vals[name]));
    }
    assert names[..|names|] == names;
  }

  /** `new WP_Class_Function_Version( $path )` and `get_version_data()`. */
  method ScanFile(f: SourceFile) returns (data: Option<Versions>)
    ensures data == FileVersions(f)
  {
    match f.tokens {
      case None =>
        data := Some(NoVersions());
      case Some(toks) =>
        var scanner := new Extractor(toks);
        var ok := scanner.Scan();
        data := if ok then Some(scanner.versions) else None;
    }
  }

  /** A scan that throws ends the build: no later file can bring it back. */
  lemma {:induction false} AbortIsFinal(files: seq<SourceFile>, i: nat)
    requires i <= |files| && Build(files[..i]).None?
    ensures Build(files).None?
    decreases |files| - i
  {
    if i < |files| {
      assert files[..i + 1][..i] == files[..i];
      AbortIsFinal(files, i + 1);
    } else {
      assert files[..i] == files;
    }
  }

  /** `scan_version` over the given files, in the order they are listed;
      `None` when a scan throws. */
  method ScanVersion(files: seq<SourceFile>) returns (result: Option<Database>)
    ensures result == ScanVersionResult(files)
  {
    var database := Database(Empty(), Empty());
    for i := 0 to |files|
      invariant Build(files[..i]) == Some(database)
    {
      var f := files[i];
      assert files[..i + 1][..i] == files[..i];
      if Excluded(f.rel) {
        continue;
      }
      var data := ScanFile(f);
      if data.None? {
        AbortIsFinal(files, i + 1);
        return None;
      }
      var classes := MergeEntries(database.classes, f.rel, data.value.classes);
      var functions := MergeEntries(database.functions, f.rel, data.value.functions);
      database := Database(classes, functions);
    }
    assert files[..|files|] == files;
    result := Some(SortDatabase(database));
  }
}
