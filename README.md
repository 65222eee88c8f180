# wp-version-check-prototype, modelled in Dafny

This project models the two scanners of the WordPress version checker. Both work on PHP token streams.

- **`WP_Class_Function_Version`** (`wp-class-function-version.php`) walks the tokens of each WordPress core file.
  - It collects the names of the classes and functions declared there.
  - For every declaration preceded by a doc comment, it records the `@since` and `@deprecated` values read from that comment.
  - `scan_version` merges the per-file records of every core file outside `wp-content/` into a database keyed by type and name, later files overwriting earlier ones, and sorts it by key.
- **`WP_Version_Detect`** (`wp-version-detect.php`) walks the tokens of a plugin file.
  - It records every identifier it takes for a function call.
  - It joins those calls against the database's function records.
  - `detect_wp_function_calls` gathers the usages of every plugin file into one report keyed by function, each with its lines per file, and picks the highest `since` version.

The model follows the PHP code:
- `current`/`next` are a cursor `pos` that never moves past the end of the token sequence (`Tokens.Advance`).
- PHP's `empty()` and truthiness are `PhpStrings.Truthy`: false for `""` and `"0"`.
- PHP's ordered arrays are `PhpArrays.OMap`: keys in insertion order, and an overwrite keeps the key's place.
- A token is either `Classified(kind, text, line)` or a bare one-character `Raw(ch)`.

The objects are Dafny classes whose methods change their fields, as the PHP methods do:
- `ClassFunctionVersion.Extractor` and `VersionDetect.Detector`.
- Every method is proved against a specification function of the object's state: `AfterToken`, `ScanFrom`, `CallsFrom`, `FilterCalls` and so on.
- The properties of the scanners are proved as lemmas about those functions.

Modules:
- `Wrappers`: `Option`.
- `PhpStrings`: `trim`, `explode`, `strpos` and `empty()`.
- `StringOrder`: the string order used for `sort`/`ksort`, and insertion sort.
- `PhpArrays`: ordered arrays and `ksort`.
- `Tokens`: tokens and the forward search that every `while (next(...))` loop performs.
- `DocTags`: `parse_doc_comment_for`'s reading of a doc comment.
- `ClassFunctionVersion`: the declaration scanner.
- `VersionDatabase`: `scan_version`.
- `VersionDetect`: the call detector.
- `DetectReport`: `detect_wp_function_calls`.

Where the code and what its names and comments suggest differ, the model follows the code:
- **`(` test at `wp-version-detect.php:80`.** The code accepts any bare token after an identifier. The comparison with `'('` and the flag `$is_function_call` suggest a call only when `(` follows. Both readings are modelled, selected by `VersionDetect.Lookahead`. See "## Findings".
  - The intended reading keeps the lookahead loop's stop at the first token that is not whitespace, and makes the identifier a call only when that token is `(`.
  - It is not the one-token repair of the test to `'(' === $token`. With that repair, a bare token other than `(` meets neither branch and the lookahead loop runs on past it. For `foo; bar();` it would then report no call at all.
- **Token after an identifier that is not a call.** The code never dispatches it: `detect_string` leaves the cursor on that token and the main loop's `next` steps over it (`VersionDetect.LookaheadNotDispatched`). The lookahead only inspects that token, which suggests scanning would resume from it.
- **Method and static calls.** They are reported like any other call: the method name in `$obj->name(` is an identifier followed by `(`. The names `detect_wp_function_calls` and `filter_wp_core_functions` suggest plain function calls only; a method whose name equals a core function's is joined against that function's record.
- **Unreadable plugin file.** `detect` returns before resetting `$function_calls`. The previous file's usages are therefore re-attributed to the unreadable file's path (`DetectReport.UsagesAfter`) instead of the file being skipped.
- **Highest version.** It is the last element of all `since` values after `sort`, empty ones included, so it is `""` only when every `since` is empty. The variable `$highest_ver` and the closing message ("The highest WP core version number") suggest the semantic-version maximum of the non-empty values.
- **Class without a name.** When a `class` keyword has no identifier after it and a doc comment is pending, `parse_doc_comment_for` is called with `false` and PHP throws a TypeError. The model ends the scan with `None`, and `scan_version` then yields no database (`VersionDatabase.AbortIsFinal`).
- **Bare `@deprecated`.** A `@deprecated` line with no value stores `"-"` even when an earlier line gave a version, so `deprecated` ends as the last tag's value, `"-"` included (`wp-class-function-version.php:127-130`, `DocTags.DeprecatedIsLast`). `@since` keeps the first value instead.
- **Bare punctuation token.** `consume_token` ignores any token that is not a token array, so a bare token such as `;`, `{` or `=` between a doc comment and a declaration keeps the comment pending. Only a classified token other than whitespace clears it, through the `default` branch (`wp-class-function-version.php:53-73`, `ClassFunctionVersion.PendingDocComment`).

## Model

| member | source | states |
|---|---|---|
| PhpStrings.Trim | wp-class-function-version.php:118-124 | the result has no trimmable character at either end |
| PhpStrings.TrimStrips | wp-class-function-version.php:118-124 | the result is the input with stripped characters cut from the two ends only |
| PhpStrings.Explode | wp-class-function-version.php:118 | at least one part, no part holds the separator, and joining the parts with it gives the input back |
| PhpStrings.StrPos | wp-class-function-version.php:190 | the index of the first occurrence, or none when the character does not occur |
| StringOrder.LessIrreflexive | wp-class-function-version.php:218-220 | the key order used by `ksort` is irreflexive |
| StringOrder.LessTransitive | wp-class-function-version.php:218-220 | the key order is transitive |
| StringOrder.LessTotal | wp-class-function-version.php:218-220 | any two distinct keys are ordered one way or the other |
| StringOrder.AtMostTransitive | wp-version-detect.php:207 | the non-strict order used by `sort` is transitive |
| StringOrder.AtMostTotalOrder | wp-version-detect.php:207 | the non-strict order is total and antisymmetric |
| StringOrder.Sort | wp-version-detect.php:207 | the result is sorted and a permutation of the input |
| StringOrder.SortLastIsMaximum | wp-version-detect.php:207-208 | the last sorted value is one of the inputs and no input is above it |
| StringOrder.SortKeepsDistinct | wp-class-function-version.php:218-219 | sorting distinct keys gives strictly increasing keys |
| PhpArrays.OMap.Put | wp-class-function-version.php:137 | the key now maps to the value; a new key goes last and an existing one keeps its place |
| PhpArrays.OMap.KSort | wp-class-function-version.php:218-219 | the same entries, with strictly increasing keys |
| PhpArrays.SortedKeys | wp-class-function-version.php:218-219 | the sorted keys are the same keys, each once, in increasing order |
| Tokens.Advance | wp-class-function-version.php:49 | `next` moves one token forward and never past the end |
| Tokens.Seek | wp-class-function-version.php:81-86 | the first token from the start that stops the loop, or the end; none before it does |
| Tokens.SeekIsFirst | wp-version-detect.php:59-63 | a loop that stopped at the first stopping token, or at the end, stopped where the search does |
| DocTags.TagIndex | wp-class-function-version.php:120 | the leftmost position where `@since`/`@deprecated` (any case) matches, none before it |
| DocTags.MatchTag | wp-class-function-version.php:120 | `preg_match` finds no match exactly when the pattern matches at no position of the line |
| DocTags.MatchTagIsLeftmost | wp-class-function-version.php:120 | a match is the leftmost position where the pattern matches, split into the tag as written (`since` or `deprecated` in any case) and the rest of the line |
| DocTags.ApplyTag | wp-class-function-version.php:120-131 | one line never changes the item's line; a line without a tag changes nothing; `since` changes only while still empty, and only to a truthy value; `deprecated` changes only to a truthy value |
| DocTags.ApplyAll | wp-class-function-version.php:119-133 | the tag loop never changes the item's line, and never sets `since` or `deprecated` to "0" |
| DocTags.FilterTruthy | wp-class-function-version.php:118 | `array_filter` keeps exactly the truthy lines (not "" and not "0"), and no more lines than it is given |
| DocTags.TrimAll | wp-class-function-version.php:118 | `array_map('trim')` gives one line per line, each the trimmed input line at the same position |
| DocTags.DocLines | wp-class-function-version.php:118 | every line kept is truthy, has no trimmable character at either end, and is a trimmed line of the comment |
| DocTags.DocLinesComplete | wp-class-function-version.php:118 | every line of the comment that is truthy after trimming is kept, trimmed |
| DocTags.DocItem | wp-class-function-version.php:111-133 | the item carries the name's line and never "0" as `since` or `deprecated` |
| DocTags.ApplyLines | wp-class-function-version.php:119-133 | the `foreach` loop computes the item the line-by-line fold defines |
| DocTags.ReadDocComment | wp-class-function-version.php:111-133 | the item read from a comment is the fold over its trimmed, non-empty lines |
| DocTags.FirstSince | wp-class-function-version.php:125-126 | the first offered `since` value is empty or truthy |
| DocTags.ApplyTagEffect | wp-class-function-version.php:120-131 | one line: `since` is set only when still empty; `deprecated` takes the line's value or "-" for a bare tag; only lower-case tags act |
| DocTags.SinceIsFirst | wp-class-function-version.php:125-126 | `since` ends as the first non-empty lower-case `@since` value; later ones are ignored |
| DocTags.DeprecatedIsLast | wp-class-function-version.php:127-130 | `deprecated` ends as the value of the last `@deprecated` line, a bare one giving "-" |
| DocTags.DocItemTags | wp-class-function-version.php:111-137 | the recorded item is the first `since`, the last `deprecated` (or "") and the name's line |
| DocTags.FilterUnobservable | wp-class-function-version.php:118 | dropping "" and "0" lines does not change the item |
| ClassFunctionVersion.Versions.Put | wp-class-function-version.php:137 | writes the item under the name in the given type's map only |
| ClassFunctionVersion.NoVersions | wp-class-function-version.php:23-26 | `$versions` starts with both maps well formed and empty: no key and no entry for either type |
| ClassFunctionVersion.Initial | wp-class-function-version.php:23-34 | the scan starts on the first token with no pending comment, no name found and no record, which is consistent |
| ClassFunctionVersion.Record | wp-class-function-version.php:111-138 | the item read from the pending comment is stored under the name in the given type's map (a new name goes last, an existing one keeps its place); the comment is cleared; the cursor, the name lists and the other type's map are unchanged; the map stays well formed |
| ClassFunctionVersion.FoundClassName | wp-class-function-version.php:81-86 | the cursor moves forward to the first identifier after `class`, which is appended to `$classes`, or to the end with nothing appended; no identifier lies between; nothing else changes |
| ClassFunctionVersion.BodyEnd | wp-class-function-version.php:93-108 | the brace loop ends within the tokens and not before its start, and on a `}` unless at the end |
| ClassFunctionVersion.SkipBody | wp-class-function-version.php:93-108 | the second loop of `extract_class` moves the cursor past the name, never past the end, and stops on a `}` unless at the end |
| ClassFunctionVersion.BodyEndIsFirstClose | wp-class-function-version.php:93-108 | the loop stops at the first `}` that leaves no brace open, or at the end; every earlier `}` leaves one open |
| ClassFunctionVersion.AfterClass | wp-class-function-version.php:78-109 | when `extract_class` does not throw, it moves the cursor forward, never past the end, only appends to `$classes` and leaves `$functions` alone; it throws exactly when no name follows while a comment is pending |
| ClassFunctionVersion.AfterFunction | wp-class-function-version.php:140-153 | `extract_function` moves the cursor forward, never past the end, only appends to `$functions` and leaves `$classes` alone |
| ClassFunctionVersion.AfterToken | wp-class-function-version.php:53-76 | `consume_token` never moves the cursor back or past the end, and only appends to the name lists |
| ClassFunctionVersion.ScanFrom | wp-class-function-version.php:46-50 | the loop, when no TypeError ends it, runs to the end of the tokens and only appends to the name lists |
| ClassFunctionVersion.Scan | wp-class-function-version.php:36-50 | a scan that does not throw ends past the last token, with every recorded name among the names found |
| ClassFunctionVersion.PendingDocComment | wp-class-function-version.php:64-73 | a doc comment becomes pending, whitespace and bare characters keep it, any other token clears it; nothing else changes |
| ClassFunctionVersion.DeclarationRecorded | wp-class-function-version.php:78-153 | a found name is appended to its list; a record is written under it exactly when a truthy comment is pending, which is then cleared; the other type is untouched |
| ClassFunctionVersion.ClassListed | wp-class-function-version.php:81-86 | `extract_class` appends the name it finds to `$classes`, nothing when there is none, and leaves `$functions` alone |
| ClassFunctionVersion.ClassRecordWritten | wp-class-function-version.php:88-90 | `extract_class` writes the record exactly when a truthy comment is pending, under the name found, and clears the comment; otherwise the comment and the records are unchanged |
| ClassFunctionVersion.FunctionListed | wp-class-function-version.php:140-153 | `extract_function` appends the name it finds to `$functions`, nothing when a `(` (an anonymous function) or the end comes first, and leaves `$classes` alone |
| ClassFunctionVersion.FunctionRecordWritten | wp-class-function-version.php:144-146 | `extract_function` writes the record exactly when it finds a name while a truthy comment is pending, and clears the comment; otherwise the comment and the records are unchanged |
| ClassFunctionVersion.StepConsistent | wp-class-function-version.php:53-76 | each token keeps every recorded name among the names found |
| ClassFunctionVersion.ScanConsistent | wp-class-function-version.php:46-50 | the whole scan keeps every recorded name among the names found |
| ClassFunctionVersion.DispatchedFrom | wp-class-function-version.php:46-50 | the positions the loop hands to `consume_token` start at the cursor, increase strictly and lie within the tokens |
| ClassFunctionVersion.ClassBodyNotDispatched | wp-class-function-version.php:78-109 | after a `class` keyword, no token up to the `}` closing its body is handed to `consume_token`, so nothing declared in the body is listed or recorded |
| ClassFunctionVersion.RecordsFromDispatched | wp-class-function-version.php:46-76 | every record at the end of the loop was there before or belongs to a dispatched `class` or `function` keyword, under the name its search found |
| ClassFunctionVersion.ScanRecordsDeclarations | wp-class-function-version.php:36-76 | over a file, every recorded name is the name found after a dispatched `class` or `function` keyword |
| ClassFunctionVersion.MethodInClassBodyIgnored | wp-class-function-version.php:78-109 | for `class Beta { /** @since 1.0 */ function inner() {} }`, `Beta` is listed and `inner` is neither listed nor recorded |
| ClassFunctionVersion.Extractor.constructor | wp-class-function-version.php:30-34 | the scanner starts on the first token with nothing found |
| ClassFunctionVersion.Extractor.Next | wp-class-function-version.php:49 | `next` advances the cursor and returns the token under it, if any |
| ClassFunctionVersion.Extractor.Scan | wp-class-function-version.php:36-50 | the loop ends in the state the scan function defines, or reports the TypeError |
| ClassFunctionVersion.Extractor.ConsumeToken | wp-class-function-version.php:53-76 | the new state is the one `consume_token` defines |
| ClassFunctionVersion.Extractor.ExtractClass | wp-class-function-version.php:78-109 | the new state is the one `extract_class` defines, or the TypeError |
| ClassFunctionVersion.Extractor.FindClassName | wp-class-function-version.php:81-86 | the cursor stops on the first identifier, which is appended to the class list |
| ClassFunctionVersion.Extractor.SkipClassBody | wp-class-function-version.php:93-108 | the cursor stops where the brace search ends; nothing else changes |
| ClassFunctionVersion.Extractor.ExtractFunction | wp-class-function-version.php:140-153 | the new state is the one `extract_function` defines |
| ClassFunctionVersion.Extractor.ParseDocCommentFor | wp-class-function-version.php:111-138 | records the comment's item under the token's name and clears the comment |
| VersionDatabase.Excluded | wp-class-function-version.php:190-197 | a skipped path has `wp-content` before its first `/` |
| VersionDatabase.ExcludedIff | wp-class-function-version.php:190-197 | a file is skipped exactly when its path starts with `wp-content/` |
| VersionDatabase.FileVersions | wp-class-function-version.php:202-204 | a file's records, when there are any, are well formed |
| VersionDatabase.MergeItems | wp-class-function-version.php:207-214 | merging keeps the database well formed |
| VersionDatabase.MergeFile | wp-class-function-version.php:206-215 | merging a file keeps both maps well formed |
| VersionDatabase.Build | wp-class-function-version.php:187-216 | the built database is well formed |
| VersionDatabase.AddFile | wp-class-function-version.php:187-216 | one round of the outer loop: a file under `wp-content/` changes nothing, an abort stays an abort, and any other file aborts the build exactly when its scan throws; the database stays well formed |
| VersionDatabase.SortDatabase | wp-class-function-version.php:218-220 | the same entries, each map with strictly increasing keys |
| VersionDatabase.MergeItemsLookup | wp-class-function-version.php:207-214 | the names merged get this file's entries; the others keep theirs |
| VersionDatabase.BuildIsLastFileWins | wp-class-function-version.php:187-216 | the database holds exactly the names some included file records (declares under a truthy doc comment), each with the entry of the last such file |
| VersionDatabase.Included | wp-class-function-version.php:190-197 | no file kept is under `wp-content/` |
| VersionDatabase.ExcludedFilesIrrelevant | wp-class-function-version.php:187-197 | files under `wp-content/` have no effect, not even one whose scan would throw |
| VersionDatabase.MergeEntries | wp-class-function-version.php:207-214 | the inner loop computes the merge |
| VersionDatabase.ScanFile | wp-class-function-version.php:202-204 | scanning a file gives its records, none when unreadable, or the abort |
| VersionDatabase.AbortIsFinal | wp-class-function-version.php:187-216 | once a scan throws, no later file brings the build back |
| VersionDatabase.ScanVersionResult | wp-class-function-version.php:176-220 | the result exists exactly when the build does not abort; it holds the build's entries, each map well formed with strictly increasing keys |
| VersionDatabase.ScanVersion | wp-class-function-version.php:176-225 | the loop computes the sorted database, or none when a scan throws |
| VersionDetect.LookaheadAt | wp-version-detect.php:73-84 | the lookahead loop stops on the first token after the identifier that is not whitespace, or at the end; only whitespace lies between |
| VersionDetect.StepEnd | wp-version-detect.php:44-99 | `consume_token` never moves the cursor back or past the end |
| VersionDetect.CallSitesFrom | wp-version-detect.php:35-39 | every reported site is an identifier whose lookahead marks a call, in increasing order |
| VersionDetect.CallsAt | wp-version-detect.php:86-90 | one call entry per site |
| VersionDetect.CallAt | wp-version-detect.php:86-90 | a token adds one entry exactly when it is a call |
| VersionDetect.CallsOf | wp-version-detect.php:32-39 | the call list of a whole file is one entry per call site, with its name and line, in token order |
| VersionDetect.CallsFromSites | wp-version-detect.php:35-39 | the call list holds one entry per call site, with its name and line, in token order |
| VersionDetect.FunctionHeaderSkipped | wp-version-detect.php:58-64 | nothing up to the first `(` after `function` is a call: a definition's name is never reported |
| VersionDetect.LookaheadNotDispatched | wp-version-detect.php:73-84 | after an identifier that is not a call, its lookahead token is not dispatched |
| VersionDetect.ArgumentsSwallowed | wp-version-detect.php:86-97 | a call swallows everything up to the next `;`, so no identifier in its arguments is reported |
| VersionDetect.CallSitesCharacterized | wp-version-detect.php:66-84 | a call site is an identifier whose next non-whitespace token is bare, and is `(` in the intended reading |
| VersionDetect.SemicolonLookahead | wp-version-detect.php:80 | for `foo; bar();` the code reports `foo` and misses `bar`; the intended reading reports `bar` |
| VersionDetect.FilterCalls | wp-version-detect.php:101-128 | the filtered map is well formed |
| VersionDetect.LinesOfNonEmpty | wp-version-detect.php:122 | a function has lines exactly when some call names it |
| VersionDetect.FilterEntries | wp-version-detect.php:101-128 | a function has an entry exactly when it is in the database and called; the entry is its record with the lines of all its calls in order |
| VersionDetect.FilterKeysInOrder | wp-version-detect.php:104-120 | entries come in the order their functions are first called |
| VersionDetect.FilterKeepsEveryLine | wp-version-detect.php:101-128 | the entries hold exactly one line per call to a known function |
| VersionDetect.Detector.constructor | wp-version-detect.php:3-20 | the detector starts with the decoded database and an empty call list |
| VersionDetect.Detector.Next | wp-version-detect.php:38 | `next` advances the cursor and returns the token under it, if any |
| VersionDetect.Detector.Detect | wp-version-detect.php:22-42 | on a readable file, the calls and usages the specification functions define; on an unreadable one, nothing changes |
| VersionDetect.Detector.ConsumeAll | wp-version-detect.php:35-39 | the main loop appends exactly the calls found from the cursor on |
| VersionDetect.Detector.Step | wp-version-detect.php:37-38 | one pass moves the cursor past the step and appends the token's call, if any |
| VersionDetect.Detector.ConsumeToken | wp-version-detect.php:44-56 | the cursor ends where the step ends and the token's call is appended, if any |
| VersionDetect.Detector.SkipFunction | wp-version-detect.php:58-64 | the cursor stops on the first `(` after `function`, or at the end |
| VersionDetect.Detector.DetectString | wp-version-detect.php:66-99 | the identifier is recorded exactly when it is a call, and the cursor ends on the `;` that follows it, or on the lookahead token |
| VersionDetect.Detector.FindLookahead | wp-version-detect.php:73-84 | the cursor stops on the next non-whitespace token, and the result says whether it marks a call |
| VersionDetect.Detector.SkipToSemicolon | wp-version-detect.php:92-97 | the cursor stops on the next `;`, or at the end |
| VersionDetect.Detector.FilterWpCoreFunctions | wp-version-detect.php:101-128 | the usages are the filtered map of the calls |
| DetectReport.AddUsages | wp-version-detect.php:181-195 | merging one file's usages keeps the report well formed |
| DetectReport.UsagesAfter | wp-version-detect.php:177-179 | the usages `get_function_calls` hands back after `detect` on each file in turn (an unreadable file, which `detect` returns early on at lines 23-25, leaves the previous file's) are well formed |
| DetectReport.Report | wp-version-detect.php:172-196 | the report is well formed |
| DetectReport.SinceValues | wp-version-detect.php:203-205 | one `since` per entry, in the report's order |
| DetectReport.Highest | wp-version-detect.php:203-208 | there is no highest version exactly when the report is empty; otherwise it is one of the reported `since` values |
| DetectReport.HighestIsMaximum | wp-version-detect.php:203-208 | the highest version is some reported function's `since` and none is above it; there is none exactly when nothing was reported |
| DetectReport.HighestAttained | wp-version-detect.php:203-208 | the top of the sorted values is attained and bounds every entry |
| DetectReport.AddUsagesLookup | wp-version-detect.php:181-195 | each function used by the file gets its entry, seeded if new, with this file's lines; the others are unchanged |
| DetectReport.UsagesNamed | wp-version-detect.php:108-119 | every usage is keyed by its function, which is in the database, and carries the database's record |
| DetectReport.ReportMetadata | wp-version-detect.php:181-194 | every reported function is in the database and its entry carries the database's record |
| DetectReport.ReportLines | wp-version-detect.php:194 | a function is listed under a path exactly when the detector's result after some file under that path names it (for an unreadable file, the previous file's result), with the lines from the last file under that path whose result names it |
| DetectReport.AddFileUsages | wp-version-detect.php:181-195 | the inner loop computes the merge of one file's usages |
| DetectReport.DetectFunctionCalls | wp-version-detect.php:157-211 | the loop over the files computes the report and the highest version |

## Left out

- File and directory access: `file_exists`, `is_readable`, `file_get_contents`, the recursive directory iterators and their `.php` filter. Files are given as a list of relative paths, each with its tokens, or none when unreadable. The order of the list is the iteration order.
- `token_get_all`: the PHP lexer is not modelled. Tokens are an input, with the kinds the scanners distinguish and every other kind as `Other`. A bare token is a single character other than "0", as the lexer yields.
- JSON: `json_encode`, `json_decode`, `file_put_contents` and the `die` calls in the detector's constructor. The detector's constructor takes the decoded function map.
- `echo` output, `trace_line` and the `test1`/`test2` helpers: output only.
- `get_function_data` and `get_class_data`: accessors. Their values are the fields `functions` and `classes`.
- `DIRECTORY_SEPARATOR` is taken to be `/`.
- StringOrder.Sort: PHP's `sort` and `ksort` compare numeric strings as numbers. The model orders strings by code points, so it is weaker than PHP's flag-dependent comparison.
- VersionDatabase.ScanVersionResult: the result exists whenever the build does not abort. PHP 8's `ksort` also throws when no included file records (declares under a truthy doc comment) any class, or any function, because `$database['class']` or `$database['function']` is then unset; the model gives an empty map there instead.
- VersionDatabase.ScanVersion: when no included file records (declares under a truthy doc comment) any class, or any function, `$database['class']` or `$database['function']` is unset and PHP 8's `ksort` throws on it. The model gives an empty map there instead.
- ClassFunctionVersion.Extractor.constructor: the PHP constructor calls `scan` itself. In the model, construction and `Extractor.Scan` are two calls, made in that order by `VersionDatabase.ScanFile`.
- VersionDetect.Detector: `$function_calls` holds the call list while a file is scanned and the filtered map afterwards. The model keeps these as two fields, `calls` and `usages`.
- ClassFunctionVersion.Extractor.ParseDocCommentFor: `null` and `""` are both modelled as `""` in the doc-comment field. They are only ever tested for truthiness.

## Findings

| source | as written | input that shows it | evidently intended | confidence | as-written member | corrected member |
|---|---|---|---|---|---|---|
| wp-version-detect.php:80 | `is_string( $token ) && '('` tests a non-empty literal, so any bare token after an identifier makes it a call, and the statement after it is swallowed up to the next `;` | tokens of `foo; bar();`: `foo` is reported and `bar` is not | a call only when the next non-whitespace token is `(`, the lookahead still stopping at that token | not executed | VersionDetect.SemicolonLookahead (mode `AsWritten`) | VersionDetect.CallSitesCharacterized (mode `Intended`) |
