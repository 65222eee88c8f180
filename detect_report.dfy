/** `detect_wp_function_calls`: runs one detector over a plugin's files,
    gathers every file's filtered calls into one report keyed by function,
    and finds the highest `since` version among the functions reported. */
module DetectReport {
  import opened Wrappers
  import opened PhpArrays
  import StringOrder
  import opened VersionDatabase
  import opened VersionDetect

  /** An entry of `$output`: the record of the function called, and for each
      file (relative path) that calls it, the lines of the calls there. */
  datatype Entry = Entry(name: string, coreFile: string, coreLine: nat, since: string, deprecated: string,
                         lines: OMap<seq<nat>>)

  /** A new entry, from the first usage seen of its function. */
  function SeedEntry(u: Usage): Entry {
    Entry(u.name, u.coreFile, u.coreLine, u.since, u.deprecated, Empty())
  }

  /** The inner `foreach` over one file's usages, in the order of `keys`:
      each function's entry (seeded if new) gets this file's lines. */
  function AddUsages(output: OMap<Entry>, rel: string, keys: seq<string>, vals: map<string, Usage>): (r: OMap<Entry>)
    requires forall k | k in keys :: k in vals
    ensures output.Valid() ==> r.Valid()
    decreases |keys|
  {
    if keys == [] then output
    else
      var acc := AddUsages(output, rel, keys[..|keys| - 1], vals);
      var u := vals[keys[|keys| - 1]];
      var e := if u.name in acc.vals then acc.vals[u.name] else SeedEntry(u);
      acc.Put(u.name, e.(lines := e.lines.Put(rel, u.lines)))
  }

  /** What `get_function_calls` returns after the detector has been handed
      `files`: the usages of the last readable one, since a file that cannot
      be read leaves the previous result in place. */
  function UsagesAfter(db: map<string, Record>, mode: Lookahead, files: seq<SourceFile>): (r: OMap<Usage>)
    ensures r.Valid()
    decreases |files|
  {
    if files == [] then Empty()
    else
      match files[|files| - 1].tokens
      case None => UsagesAfter(db, mode, files[..|files| - 1])
      case Some(toks) => FilterCalls(db, CallsOf(mode, toks))
  }

  /** `$output` after the files, in order. */
  function Report(db: map<string, Record>, mode: Lookahead, files: seq<SourceFile>): (r: OMap<Entry>)
    ensures r.Valid()
    decreases |files|
  {
    if files == [] then Empty()
    else
      var calls := UsagesAfter(db, mode, files);
      AddUsages(Report(db, mode, files[..|files| - 1]), files[|files| - 1].rel, calls.keys, calls.vals)
  }

  /** The `since` values of the entries, in the report's order. */
  function SinceValues(keys: seq<string>, vals: map<string, Entry>): (r: seq<string>)
    requires forall k | k in keys :: k in vals
    ensures |r| == |keys| && forall i | 0 <= i < |r| :: r[i] == vals[keys[i]].since
    decreases |keys|
  {
    if keys == [] then []
    else SinceValues(keys[..|keys| - 1], vals) + [vals[keys[|keys| - 1]].since]
  }

  /** `sort( $since )` then `array_pop`: the last value in sorted order, or
      none (PHP's `null`) when nothing was reported. */
  function Highest(output: OMap<Entry>): (r: Option<string>)
    requires output.Valid()
    ensures r.None? <==> output.keys == []
    ensures r.Some? ==> r.value in SinceValues(output.keys, output.vals)
  {
    var since := SinceValues(output.keys, output.vals);
    var sorted := StringOrder.Sort(since);
    assert |multiset(sorted)| == |multiset(since)|;
    if sorted == [] then None
    else
      assert sorted[|sorted| - 1] in multiset(sorted);
      Some(sorted[|sorted| - 1])
  }

  // ----- Properties

  /** The highest version is the `since` of some reported function and no
      reported function has a higher one; there is none exactly when the
      report is empty. */
  lemma HighestIsMaximum(output: OMap<Entry>)
    requires output.Valid()
    ensures Highest(output).None? <==> output.vals == map[]
    ensures Highest(output).Some? ==>
      (exists f | f in output.vals :: output.vals[f].since == Highest(output).value) &&
      forall f | f in output.vals :: StringOrder.AtMost(output.vals[f].since, Highest(output).value)
  {
    var since := SinceValues(output.keys, output.vals);
    var sorted := StringOrder.Sort(since);
    if output.keys == [] {
      assert |multiset(sorted)| == 0;
      assert forall f :: f !in output.vals;
    } else {
      StringOrder.SortLastIsMaximum(since, sorted);
      HighestAttained(output, since, sorted[|sorted| - 1]);
    }
  }

  /** The top of the sorted `since` values bounds every entry's and is some
      entry's. */
  lemma HighestAttained(output: OMap<Entry>, since: seq<string>, top: string)
    requires output.Valid() && since == SinceValues(output.keys, output.vals)
    requires top in since && forall v | v in since :: StringOrder.AtMost(v, top)
    ensures exists f | f in output.vals :: output.vals[f].since == top
    ensures forall f | f in output.vals :: StringOrder.AtMost(output.vals[f].since, top)
  {
    var i :| 0 <= i < |since| && since[i] == top;
    assert output.vals[output.keys[i]].since == top;
    forall f | f in output.vals ensures StringOrder.AtMost(output.vals[f].since, top) {
      var j :| 0 <= j < |output.keys| && output.keys[j] == f;
      assert since[j] in since;
    }
  }

  /** One file's usages: the functions it uses get an entry (the existing
      one, or one seeded from the usage), whose lines for this file are the
      usage's lines; nothing else changes. */
  lemma {:induction false} AddUsagesLookup(output: OMap<Entry>, rel: string, keys: seq<string>, vals: map<string, Usage>,
                                           f: string)
    requires forall k | k in keys :: k in vals && vals[k].name == k
    requires Distinct(keys)
    ensures var r := AddUsages(output, rel, keys, vals);
      (f in r.vals <==> f in output.vals || f in keys) &&
      (f !in keys && f in output.vals ==> r.vals[f] == output.vals[f]) &&
      (f in keys ==>
        var e := if f in output.vals then output.vals[f] else SeedEntry(vals[f]);
        r.vals[f] == e.(lines := e.lines.Put(rel, vals[f].lines)))
    decreases |keys|
  {
    if keys != [] {
      var init, last := keys[..|keys| - 1], keys[|keys| - 1];
      assert Distinct(init);
      AddUsagesLookup(output, rel, init, vals, f);
      assert vals[last].name == last;
      if f == last {
        assert f !in init;
      } else {
        assert f in keys <==> f in init;
      }
    }
  }

  /** Every usage of one file's filtered calls is keyed by its function. */
  lemma UsagesNamed(db: map<string, Record>, mode: Lookahead, files: seq<SourceFile>, f: string)
    requires f in UsagesAfter(db, mode, files).vals
    ensures f in db && UsagesAfter(db, mode, files).vals[f].name == f
    ensures var u := UsagesAfter(db, mode, files).vals[f];
      u.coreFile == db[f].file && u.coreLine == db[f].line &&
      u.since == db[f].since && u.deprecated == db[f].deprecated
    decreases |files|
  {
    if files != [] {
      match files[|files| - 1].tokens {
        case None => UsagesNamed(db, mode, files[..|files| - 1], f);
        case Some(toks) => FilterEntries(db, CallsOf(mode, toks), f);
      }
    }
  }

  /** Every reported function is in the database, and its entry carries the
      database's record of it. */
  lemma {:induction false} ReportMetadata(db: map<string, Record>, mode: Lookahead, files: seq<SourceFile>, f: string)
    requires f in Report(db, mode, files).vals
    ensures var e := Report(db, mode, files).vals[f];
      f in db && e.name == f && e.coreFile == db[f].file && e.coreLine == db[f].line &&
      e.since == db[f].since && e.deprecated == db[f].deprecated
    decreases |files|
  {
    var init := files[..|files| - 1];
    var calls := UsagesAfter(db, mode, files);
    forall k | k in calls.keys ensures k in calls.vals && calls.vals[k].name == k {
      UsagesNamed(db, mode, files, k);
    }
    AddUsagesLookup(Report(db, mode, init), files[|files| - 1].rel, calls.keys, calls.vals, f);
    if f in calls.keys {
      UsagesNamed(db, mode, files, f);
      if f in Report(db, mode, init).vals {
        ReportMetadata(db, mode, init, f);
      }
    } else {
      ReportMetadata(db, mode, init, f);
    }
  }

  /** Reference definition: the lines of `f` in the file `rel`, as the last
      file handed over under that path whose result names `f` gave them. */
  function LastLines(db: map<string, Record>, mode: Lookahead, files: seq<SourceFile>, f: string, rel: string): Option<seq<nat>>
    decreases |files|
  {
    if files == [] then None
    else
      var calls := UsagesAfter(db, mode, files);
      if files[|files| - 1].rel == rel && f in calls.vals then Some(calls.vals[f].lines)
      else LastLines(db, mode, files[..|files| - 1], f, rel)
  }

  /** The report lists `f` under `rel` exactly when the detector's result
      after some file under that path names `f` (for an unreadable file, the
      result of the file before it), with the lines of the last such result. */
  lemma {:induction false} ReportLines(db: map<string, Record>, mode: Lookahead, files: seq<SourceFile>, f: string, rel: string)
    ensures var r := Report(db, mode, files);
      (f in r.vals && rel in r.vals[f].lines.vals <==> LastLines(db, mode, files, f, rel).Some?) &&
      (f in r.vals && rel in r.vals[f].lines.vals ==> r.vals[f].lines.vals[rel] == LastLines(db, mode, files, f, rel).value)
    decreases |files|
  {
    if files != [] {
      var init := files[..|files| - 1];
      var calls := UsagesAfter(db, mode, files);
      forall k | k in calls.keys ensures k in calls.vals && calls.vals[k].name == k {
        UsagesNamed(db, mode, files, k);
      }
      ReportLines(db, mode, init, f, rel);
      var before := Report(db, mode, init);
      var last := files[|files| - 1].rel;
      AddUsagesLookup(before, last, calls.keys, calls.vals, f);
      var r := Report(db, mode, files);
      assert r == AddUsages(before, last, calls.keys, calls.vals);
      if f in calls.keys {
        var e := if f in before.vals then before.vals[f] else SeedEntry(calls.vals[f]);
        assert r.vals[f].lines == e.lines.Put(last, calls.vals[f].lines);
        if last != rel && f !in before.vals {
          assert rel !in e.lines.vals;
        }
      } else {
        assert f !in calls.vals;
      }
    }
  }

  // ----- The driver

  /** The report and the detector's result after one more file. */
  lemma ReportSnoc(db: map<string, Record>, mode: Lookahead, files: seq<SourceFile>, i: nat)
    requires i < |files|
    ensures UsagesAfter(db, mode, files[..i + 1]) ==
      match files[i].tokens
      case None => UsagesAfter(db, mode, files[..i])
      case Some(toks) => FilterCalls(db, CallsOf(mode, toks))
    ensures var calls := UsagesAfter(db, mode, files[..i + 1]);
      Report(db, mode, files[..i + 1]) == AddUsages(Report(db, mode, files[..i]), files[i].rel, calls.keys, calls.vals)
  {
    assert files[..i + 1][..i] == files[..i];
  }

  /** One more usage handled by the inner `foreach`. */
  lemma AddUsagesSnoc(output: OMap<Entry>, rel: string, keys: seq<string>, vals: map<string, Usage>, i: nat)
    requires i < |keys| && forall k | k in keys :: k in vals
    ensures var acc := AddUsages(output, rel, keys[..i], vals);
      var u := vals[keys[i]];
      var e := if u.name in acc.vals then acc.vals[u.name] else SeedEntry(u);
      AddUsages(output, rel, keys[..i + 1], vals) == acc.Put(u.name, e.(lines := e.lines.Put(rel, u.lines)))
  {
    assert keys[..i + 1][..i] == keys[..i];
  }

  /** The inner `foreach` of `detect_wp_function_calls` for one file. */
  method AddFileUsages(output: OMap<Entry>, rel: string, calls: OMap<Usage>) returns (r: OMap<Entry>)
    requires forall k | k in calls.keys :: k in calls.vals
    ensures r == AddUsages(output, rel, calls.keys, calls.vals)
  {
    var keys, vals := calls.keys, calls.vals;
    r := output;
    for i := 0 to |keys|
      invariant r == AddUsages(output, rel, keys[..i], vals)
    {
      AddUsagesSnoc(output, rel, keys, vals, i);
      var call := vals[keys[i]];
      var entry := if call.name in r.vals then r.vals[call.name] else SeedEntry(call);
      r := r.Put(call.name, entry.(lines := entry.lines.Put(rel, call.lines)));
    }
    assert keys[..|keys|] == keys;
  }

  /** `detect_wp_function_calls` over the given files, in order, with the
      database's function map: the report and the highest version. */
  method DetectFunctionCalls(db: map<string, Record>, mode: Lookahead, files: seq<SourceFile>)
    returns (output: OMap<Entry>, highest: Option<string>)
    ensures output == Report(db, mode, files) && highest == Highest(output)
  {
    var detector := new Detector(db, mode);
    output := Empty();
    for i := 0 to |files|
      invariant detector.Valid() && detector.database == db && detector.mode == mode
      invariant detector.usages == UsagesAfter(db, mode, files[..i])
      invariant output == Report(db, mode, files[..i])
    {
      var file := files[i];
      ReportSnoc(db, mode, files, i);
      detector.Detect(file.tokens);
      var calls := detector.usages;
      output := AddFileUsages(output, file.rel, calls);
    }
    assert files[..|files|] == files;
    highest := Highest(output);
  }
}
