# broccoli-concat's concatenation engine, in Dafny

`ConcatWithMaps` in `concat.js` builds one output file from many input files.
At construction it validates its options. It requires an output file and a
strategy, and it rejects header or footer file lists that hold glob
characters. It also builds an index of the header and footer files. On each
run (`build`) it creates a fresh concatenation strategy and drives it with
two calls: `addSpace(text)` for literal text and `addFile(relativePath)` for a
file. The sections come in a fixed order:

1. the literal header,
2. the header files,
3. the body files,
4. the footer files,
5. the literal footer with a newline.

Every section except the first is opened by the separator. The body files are
the discovered files with these steps applied (`addFiles`):

- converted to forward-slash form;
- deduplicated in first-occurrence order;
- filtered: entries whose root-relative path is a header or footer file are
  dropped, and so are directories;
- added under their relative path: the first occurrence of the input root
  followed by `/` is cut out of the path, wherever it stands (for files
  found under the root, that is the root prefix).

A run raises "nothing matched" when the body is empty, no header or footer
file explains it, and `allowNone` is off.

The model has five modules:

- `Wrappers` holds `Option`, `Result` and `Outcome`. A thrown error becomes a
  `Failure`/`Fail` value.
- `JsBuiltins` holds the JavaScript and lodash behaviour the engine relies on:
  - `replace` with a string pattern, which removes only the first occurrence,
    wherever it is (the search for that occurrence is `IndexOf`, written
    like `String.prototype.indexOf`; the engine does not call `indexOf` itself);
  - `split`/`join`;
  - lodash `uniq`, which keeps first occurrences.
- `StrategyTrace` models the strategy as an object whose `events` field is an
  append-only trace of `Space(text)` and `File(path)` calls. It also describes
  a run as a sequence of sections. `Render` joins them with the separator.
- `Concat` holds the engine:
  - the options and the errors;
  - the glob check and the change-detection file list;
  - `makeIndex`, `isDirectory` and `ensurePosix`;
  - the body filter;
  - the class `ConcatWithMaps`. Its methods follow `build`, `beginSection`
    and `addFiles` step by step, and each is proved against a function of the
    engine's fields.
- `ConcatProperties` holds the lemmas that relate these parts, and the worked
  scenarios.

JavaScript truthiness is written out:

- an optional string counts only when it is present and non-empty (`Truthy`);
- a missing list behaves as an empty list (`OrEmpty`);
- `separator` defaults to `"\n"` only when it is missing, so an explicit `""`
  is kept.

A missing strategy fails construction when `Strategy.name` is read
(`concat.js:27`), just after the output-file check. The engine never reaches
its explicit strategy check at `concat.js:30-32`. The model has one
`MissingStrategy` error, raised at the point where the code really fails.

## Model

| member | source | states |
|---|---|---|
| `Concat.EnsureNoMagic` | concat.js:52-60 | passes exactly when no entry of the list (a missing list counts as empty) holds one of `{ } * [ ]`; a failure names the list and the first offending entry |
| `Concat.FirstMagicFrom` | concat.js:55-58 | finds the first entry at or after a position that holds a glob character, with every earlier entry clean, or reports that there is none |
| `Concat.WatchedFiles` | concat.js:22-25 | the change-detection list is "no restriction" exactly when header, input and footer lists are all empty; otherwise it holds each of their entries once, in first-occurrence order |
| `Concat.ConstructionError` | concat.js:18-47 | construction succeeds exactly when options and a truthy `outputFile` are present, a strategy is given and neither header nor footer list holds a glob; the missing-output-file error fires exactly when options or `outputFile` are missing or empty, and the missing-strategy error exactly when they are present but the strategy is not; with both present, a glob in the header list reports the header check's error, and only a clean header list lets a glob in the footer list report the footer check's error |
| `Concat.ConcatWithMaps.Create` | concat.js:13-50 | fails exactly when `ConstructionError` reports an error, with that error; on success returns a fresh engine whose fields are the options, whose separator defaults to `"\n"` only for a missing option, and whose index is valid |
| `Concat.ConcatWithMaps.constructor` | concat.js:34-44 | assigns each option to its field, defaults the separator, builds the header/footer index and establishes `Valid` |
| `Concat.MakeIndex` | concat.js:62-70 | a path is in the index exactly when it occurs in the header list or the footer list (missing lists count as empty), and every entry maps to `true` |
| `Concat.DirectoryMarker` | concat.js:122-127 | the empty path is no directory, and a path is a directory exactly when its last character is `/` |
| `Concat.EnsurePosix` | concat.js:162-167 | the result has the input's length, with every platform-separator character replaced by `/` and every other character kept |
| `JsBuiltins.JoinSplitReplaces` | concat.js:164 | splitting on one character and joining with another replaces each occurrence of the first by the second, position by position |
| `JsBuiltins.Split` | concat.js:164 | splitting yields at least one part, and no part contains the split character |
| `ConcatProperties.EnsurePosixIdempotent` | concat.js:162-167 | converting twice gives the same as converting once, and a non-`/` platform separator never survives conversion |
| `JsBuiltins.IndexOf` | concat.js:134 | the search `replace` performs (here and at concat.js:158): the first position at which the pattern occurs, with no occurrence before it, or none when it occurs nowhere |
| `JsBuiltins.IndexOfFrom` | concat.js:134 | returns the first position at or after the start at which the pattern occurs, or reports that it occurs nowhere there |
| `JsBuiltins.RemoveFirst` | concat.js:134 | `replace`: a string without the pattern is unchanged; otherwise exactly its first occurrence, wherever it stands, is cut out (so a string starting with the pattern loses that prefix), and the result is shorter by the pattern's length |
| `JsBuiltins.RemoveFirstInside` | concat.js:134 | an occurrence inside the string is removed too: `"a/r/x"` without `"r/"` is `"a/x"` |
| `JsBuiltins.Join` | concat.js:164 | `join`: the parts with the joiner between each two; its effect after `split` is stated by `JoinSplitReplaces` |
| `Concat.IsDirectory` | concat.js:122-127 | `isDirectory`: a non-empty path whose last character is `/`; its characterisation is `DirectoryMarker` |
| `Concat.Relative` | concat.js:134 | the relative path of a discovered file, by `replace` of the root and `/`; `RelativeCutsRoot` states what it is |
| `Concat.RelativeCutsRoot` | concat.js:134 | the first occurrence of the root and `/` is cut out wherever it stands, a file under the root loses exactly that prefix, and a file without it is unchanged |
| `Concat.KeepsEntry` | concat.js:139-144 | the filter's verdict on one candidate: its relative path is not a header or footer file, checked first, and it is not a directory |
| `Concat.Kept` | concat.js:133-145 | the filter, candidate by candidate in order; `KeptSelects` states what it keeps |
| `Concat.Overlaps` | concat.js:139-141 | the overlap flag: some candidate's relative path is a header or footer file; `OverlapsSnoc` relates it to the loop |
| `Concat.WriterName` | concat.js:27 | the writer's name is the strategy's truthy `name`, or `Unknown`, followed by `Concat` |
| `Concat.ConcatWithMaps.NothingMatches` | concat.js:150-152 | the "nothing matched" condition: no overlap, an empty body and `allowNone` off; `NothingMatchesIff` restates it over the discovered entries |
| `Concat.ConcatWithMaps.HeadSections` | concat.js:94-104 | the head of a run: the literal header when truthy, then each header file in list order |
| `Concat.ConcatWithMaps.TailSections` | concat.js:108-118 | the tail of a run: each footer file in list order, then the literal footer with a newline when truthy |
| `Concat.ConcatWithMaps.Sections` | concat.js:94-118 | the sections of a successful run: head, one section per body path, tail; `Build` is proved against it and `BuildFileOrder` and `LiteralsAtTheEnds` state its consequences |
| `Concat.Truthy` | concat.js:18 | JavaScript truthiness of an optional string, as tested here and at concat.js:27, 94 and 115: present and non-empty; `ConstructionError`, `WriterName`, `HeadSections` and `TailSections` are stated with it |
| `Concat.OrEmpty` | concat.js:22 | `list \|\| []`, here and at concat.js:55 and 65: a missing list is the empty list; `EnsureNoMagic`, `WatchedFiles` and `MakeIndex` are stated with it |
| `Concat.IsMagic` | concat.js:52 | the character class of `MAGIC`: exactly `{ } * [ ]`; `HasMagic` and `EnsureNoMagic` are stated with it |
| `Concat.FileSections` | concat.js:156-159 | one file section per path, in order, as each `forEach` here and at concat.js:100-103 and 109-112 adds: the section at each position is the file at that position; `EmitFiles` and `PathsOfFileSections` state the paths it writes |
| `Concat.HasMagic` | concat.js:52-56 | `MAGIC.test(a)`: some character of the entry is one of `{ } * [ ]`; `FirstMagicFrom` and `EnsureNoMagic` state the search for it |
| `Concat.InIndex` | concat.js:139 | `index[relativePath] === true`: the path is a key mapped to `true`; `Valid` (via `MakeIndex`) makes it exactly membership in the header and footer lists |
| `Concat.PosixAll` | concat.js:133 | `listFiles().map(ensurePosix)`: each discovered entry converted in place, in order; `BodySelection` states the body's membership and order against it |
| `Concat.RelativeAll` | concat.js:156-159 | the `replace` of each kept file's root prefix, in order; `BodyPathsUnderRoot` states what each resulting path is |
| `Concat.ConcatWithMaps.Candidates` | concat.js:133 | `uniq` of the converted entries; `Uniq` and `UniqFirstOccurrenceOrder` state that it holds each entry once, in order of first discovery |
| `Concat.ConcatWithMaps.BodyFiles` | concat.js:133-145 | the filtered `files`; `BodySelection` states which entries it keeps and in which order, and `NothingMatchesIff` when it is empty without an overlap |
| `Concat.ConcatWithMaps.BodyPaths` | concat.js:156-159 | the paths the body files are added under; `BodyPathsUnderRoot` states each is the file minus the root and `/`, none twice |
| `StrategyTrace.Render` | concat.js:86-92 | a whole run: the sections emitted with the begin-section rule from the first section on; `SeparatorPlacement` and `RenderRoundTrip` characterise it |
| `JsBuiltins.RemoveFirstPrefixInjective` | concat.js:158 | two paths that both start with the root prefix and agree after it is removed are the same path |
| `JsBuiltins.Uniq` | concat.js:22 | lodash `uniq`: the result holds exactly the elements of the input and has no duplicates |
| `JsBuiltins.UniqFirstOccurrenceOrder` | concat.js:133 | `uniq` keeps elements in the order of their first occurrence |
| `JsBuiltins.UniqDistinct` | concat.js:133 | a list without repeats is left unchanged by `uniq` |
| `JsBuiltins.OrderTransitive` | concat.js:133 | keeping first-occurrence order through `uniq` and then the filter keeps it overall |
| `Concat.KeptSelects` | concat.js:133-145 | the filter keeps exactly the candidates whose relative path is not indexed and which are not directories; over distinct candidates it keeps each once, in their order |
| `Concat.KeptSnoc` | concat.js:139-144 | the filter decides each candidate on its own: one more candidate is kept or dropped without changing the earlier verdicts |
| `Concat.OverlapsSnoc` | concat.js:139-141 | the overlap flag is set after one more candidate exactly when it was set before or that candidate's relative path is indexed |
| `Concat.ConcatWithMaps.SelectFiles` | concat.js:130-145 | the filter loop returns exactly the kept candidates, and sets the overlap flag exactly when some candidate's relative path is a header or footer file |
| `Concat.ConcatWithMaps.AddFiles` | concat.js:129-160 | fails exactly when nothing matches, with the "nothing matched" error, adding no call and leaving the first-section flag alone; otherwise adds one file section per body path, each opened by the begin-section rule |
| `Concat.ConcatWithMaps.BeginSection` | concat.js:86-92 | adds the separator exactly when this is not the first section, and clears the first-section flag |
| `Concat.ConcatWithMaps.AddFileSections` | concat.js:99-104 | one `forEach` over a file list adds each file as its own section, in list order, each opened by the begin-section rule |
| `Concat.ConcatWithMaps.AddHeaderSections` | concat.js:94-104 | adds the literal header when truthy, then each header file, and the flag stays set only if nothing was added |
| `Concat.ConcatWithMaps.AddFooterSections` | concat.js:108-118 | adds each footer file, then the literal footer with a newline when truthy |
| `Concat.ConcatWithMaps.Build` | concat.js:72-120 | a run creates a fresh strategy for the output file and input root; it fails exactly when nothing matches, having written only the header sections; otherwise its trace is all sections in the fixed order, joined by the separator |
| `StrategyTrace.Emit` | concat.js:86-92 | emitting n sections makes 2n calls, or 2n-1 when the first of them opens the run |
| `StrategyTrace.EmitAppend` | concat.js:86-92 | emitting two groups of sections one after the other is emitting them together; the second group starts the run only if the first was empty |
| `StrategyTrace.SeparatorPlacement` | concat.js:86-92 | a run of n sections has 2n-1 calls: even positions are the sections' contents in order and odd positions are separators, so there are n-1 separators, none first and none last |
| `StrategyTrace.RenderRoundTrip` | concat.js:86-92 | the sections can be read back from the trace: the separators carry no other information |
| `StrategyTrace.EmitFiles` | concat.js:86-92 | separators add no files: the files a trace writes are exactly those of its file sections, in order |
| `StrategyTrace.Strategy.AddSpace` | concat.js:90 | `addSpace` appends one literal call to the trace and changes nothing else |
| `StrategyTrace.Strategy.AddFile` | concat.js:102 | `addFile` appends one file call to the trace and changes nothing else |
| `StrategyTrace.Strategy.constructor` | concat.js:79-83 | a fresh strategy knows its output file and base directory and has an empty trace |
| `ConcatProperties.BodySelection` | concat.js:133-145 | body files are distinct; a discovered entry becomes one exactly when its relative path is not a header or footer file and it is not a directory; they keep the order of first discovery |
| `ConcatProperties.BodyExcludesHeaderFooter` | concat.js:136-142 | no body file is added under a path that is a header or footer file |
| `ConcatProperties.BodyPathsUnderRoot` | concat.js:156-159 | when every entry lies under the root, each body file is added under its path minus the root and `/`, and no relative path is added twice |
| `ConcatProperties.NothingMatchesIff` | concat.js:147-154 | the run raises exactly when `allowNone` is off and every discovered entry is a directory whose relative path is not a header or footer file |
| `ConcatProperties.NothingMatchesOnlyIfUnlistedDirectories` | concat.js:150-153 | if the run raises, `allowNone` is off and every discovered entry is an unlisted directory |
| `ConcatProperties.UnlistedDirectoriesNothingMatches` | concat.js:150-153 | if `allowNone` is off and every discovered entry is an unlisted directory, the run raises |
| `ConcatProperties.KeptAll` | concat.js:133-145 | a filter that accepts every candidate keeps them all, in order |
| `ConcatProperties.KeptNone` | concat.js:133-145 | a filter that accepts no candidate keeps nothing |
| `ConcatProperties.PlainInputsAllAdded` | concat.js:133-145 | distinct entries, none a directory and none a header or footer file, all become body files, in order |
| `ConcatProperties.PlainInputsBody` | concat.js:129-159 | distinct plain files directly under the root, with no header or footer files, are added under their bare names in the order found |
| `ConcatProperties.HeadPaths` | concat.js:94-104 | the head of a run writes the header files and no other file |
| `ConcatProperties.TailPaths` | concat.js:108-118 | the tail of a run writes the footer files and no other file |
| `ConcatProperties.BuildFileOrder` | concat.js:94-118 | a run writes the header files in list order, then the body files, then the footer files in list order; a run that raised wrote only the header files |
| `ConcatProperties.LiteralsAtTheEnds` | concat.js:94-118 | a truthy literal header is the run's first call and a truthy literal footer, with its newline, its last |
| `ConcatProperties.ScenarioTwoInputs` | concat.js:72-160 | two distinct plain files under the root and no header or footer: the run writes the first, the separator, the second, and does not raise |
| `ConcatProperties.ScenarioHeaderIsFooter` | concat.js:136-154 | one file that is both header and footer and the only file found: it is written twice with a separator between, never as body, and the overlap prevents the error |
| `ConcatProperties.ScenarioLiterals` | concat.js:94-118 | literal header and footer around one file: header, separator, file, separator, footer with newline |
| `ConcatProperties.RebuildIsIdempotent` | concat.js:72-120 | two runs over the same discovered files end the same way and write the same trace |

## Left out

- Change detection and caching by `broccoli-caching-writer` (`concat.js:1`,
  `concat.js:10`, `concat.js:24-28`): an external library that only decides
  whether a run happens. The model records the options handed to it
  (`WriterOptions`) and nothing more.
- The `instanceof` re-call at `concat.js:14-16`: calling the engine without
  `new` behaves like calling it with `new`, and the model only has `Create`.
- Output-path resolution and directory creation (`path.join`, `mkdirp.sync`,
  `concat.js:75-77`): these are file-system effects. The model's strategy
  receives the configured `outputFile`, not the joined path.
- `sourceMapConfig` and `encoderCache` are not modelled (`concat.js:35`,
  `concat.js:49`, `concat.js:79-83`). The source drops `enabled` from the
  source-map options, and its `merge` writes `outputFile`, `baseDir` and
  `cache` into the engine's own `sourceMapConfig` object on every run; the
  model's strategy receives only the output file and the base directory.
- The concrete strategy: reading, encoding and source maps. It is only the
  trace of calls. Its `end(callback)` is modelled as running the callback
  straight away and passing it the strategy itself (`concat.js:85`): the
  separators, literals, header and footer files go to the callback's
  `concat` parameter and the body files to `this.concat` (`concat.js:158`),
  and the model writes all of them to the one strategy of the run. The
  strategy constructor is kept as its `name`, which the engine reads at
  `concat.js:27`; `Build` stands for the `new this.Strategy(...)` of
  `concat.js:79` by creating a fresh trace.
- Errors raised by the strategy are not modelled: the real `addFile` throws
  when a header, body or footer file cannot be read, and the run then stops
  partway through. `StrategyTrace.Strategy.AddFile` always succeeds.
- `listFiles()` and `inputPaths[0]` are parameters of `Build` (`listed`,
  `inputPath`), and the platform `path.sep` is the parameter `pathSep`.
- The text of the error messages: errors are `ConcatError` values that carry
  what the messages mention (the list name, the entry, `inputFiles`).
- `annotation` is only forwarded, and it is kept in `WriterOptions`.
- Strings are sequences of characters. UTF-16 code units and surrogate pairs
  are not modelled; none of the engine's string operations depend on them.
