/**
 * The concatenation engine: construction-time validation, the header/footer
 * index, body-file selection, and the section driver that opens every
 * section but the first with the separator.
 */
module Concat {
  import opened Wrappers
  import opened JsBuiltins
  import opened StrategyTrace

  /** The options object; `None` stands for a missing (`undefined` or `null`) option. */
  datatype Options = Options(
    outputFile: Option<string>,
    inputFiles: Option<seq<string>>,
    headerFiles: Option<seq<string>>,
    footerFiles: Option<seq<string>>,
    header: Option<string>,
    footer: Option<string>,
    separator: Option<string>,
    allowNone: bool,
    annotation: Option<string>)

  /** What the engine reads of the strategy constructor it is given: its `name` property. */
  datatype StrategyCtor = StrategyCtor(name: Option<string>)

  /** The options handed to the change-detection base writer. */
  datatype WriterOptions = WriterOptions(inputFiles: Option<seq<string>>, annotation: Option<string>, name: string)

  datatype ConcatError =
    | MissingOutputFile
    | MissingStrategy
    | GlobInList(listName: string, entry: string)
    | NothingMatched(inputFiles: Option<seq<string>>)

  /** JavaScript truthiness of an optional string: present and non-empty. */
  predicate Truthy(s: Option<string>) {
    s.Some? && s.value != ""
  }

  /** `list || []`. */
  function OrEmpty(list: Option<seq<string>>): seq<string> {
    if list.Some? then list.value else []
  }

  // ---------------------------------------------------------------------------
  // Construction-time validation

  /** The glob metacharacters `{ } * [ ]`. */
  predicate IsMagic(c: char) {
    c == '{' || c == '}' || c == '*' || c == '[' || c == ']'
  }

  /** The glob test: `s` contains a glob metacharacter. */
  predicate HasMagic(s: string) {
    exists i :: 0 <= i < |s| && IsMagic(s[i])
  }

  /** The first entry at or after `from` that contains a glob metacharacter. */
  function FirstMagicFrom(list: seq<string>, from: nat): (r: Option<nat>)
    ensures r.Some? ==> from <= r.value < |list| && HasMagic(list[r.value])
    ensures r.Some? ==> forall j :: from <= j < r.value ==> !HasMagic(list[j])
    ensures r.None? ==> forall j :: from <= j < |list| ==> !HasMagic(list[j])
    decreases |list| - from
  {
    if from >= |list| then None
    else if HasMagic(list[from]) then Some(from)
    else FirstMagicFrom(list, from + 1)
  }

  /**
   * Rejects a header or footer list holding a glob. A missing list passes;
   * otherwise the error names the list and its first offending entry.
   */
  function EnsureNoMagic(name: string, list: Option<seq<string>>): (r: Outcome<ConcatError>)
    ensures r.Pass? <==> forall k :: 0 <= k < |OrEmpty(list)| ==> !HasMagic(OrEmpty(list)[k])
    ensures r.Fail? ==> exists k :: 0 <= k < |OrEmpty(list)| && r.error == GlobInList(name, OrEmpty(list)[k])
                                 && HasMagic(OrEmpty(list)[k])
                                 && forall j :: 0 <= j < k ==> !HasMagic(OrEmpty(list)[j])
  {
    match FirstMagicFrom(OrEmpty(list), 0)
    case None => Pass
    case Some(k) => Fail(GlobInList(name, OrEmpty(list)[k]))
  }

  /**
   * The files the change-detection writer watches: header, input and footer
   * files in that order with duplicates dropped, or no restriction when none
   * are given.
   */
  function WatchedFiles(options: Options): (r: Option<seq<string>>)
    ensures r.None? <==> OrEmpty(options.headerFiles) + OrEmpty(options.inputFiles) + OrEmpty(options.footerFiles) == []
    ensures r.Some? ==> NoDuplicates(r.value)
    ensures r.Some? ==> forall p :: p in r.value <==>
      p in OrEmpty(options.headerFiles) + OrEmpty(options.inputFiles) + OrEmpty(options.footerFiles)
    ensures r.Some? ==> InFirstOccurrenceOrder(r.value,
      OrEmpty(options.headerFiles) + OrEmpty(options.inputFiles) + OrEmpty(options.footerFiles))
  {
    var all := OrEmpty(options.headerFiles) + OrEmpty(options.inputFiles) + OrEmpty(options.footerFiles);
    var files := Uniq(all);
    UniqFirstOccurrenceOrder(all);
    assert all != [] ==> all[0] in files;
    if |files| == 0 then None else Some(files)
  }

  /** `(Strategy.name || 'Unknown') + 'Concat'`. */
  function WriterName(strategy: StrategyCtor): string {
    (if Truthy(strategy.name) then strategy.name.value else "Unknown") + "Concat"
  }

  /**
   * The error construction throws, if any, in the order the checks run:
   * the output file, then the strategy, then globs in the header files, then
   * in the footer files.
   */
  function ConstructionError(options: Option<Options>, strategy: Option<StrategyCtor>): (r: Option<ConcatError>)
    ensures r.None? <==>
      && options.Some? && Truthy(options.value.outputFile) && strategy.Some?
      && (forall k :: 0 <= k < |OrEmpty(options.value.headerFiles)| ==> !HasMagic(OrEmpty(options.value.headerFiles)[k]))
      && (forall k :: 0 <= k < |OrEmpty(options.value.footerFiles)| ==> !HasMagic(OrEmpty(options.value.footerFiles)[k]))
    ensures r == Some(MissingOutputFile) <==> options.None? || !Truthy(options.value.outputFile)
    ensures r.Some? && r.value.GlobInList? ==>
      && options.Some? && strategy.Some?
      && HasMagic(r.value.entry)
      && (|| (r.value.listName == "headerFiles" && r.value.entry in OrEmpty(options.value.headerFiles))
          || (r.value.listName == "footerFiles" && r.value.entry in OrEmpty(options.value.footerFiles)))
    ensures r == Some(MissingStrategy) <==> options.Some? && Truthy(options.value.outputFile) && strategy.None?
    ensures options.Some? && Truthy(options.value.outputFile) && strategy.Some?
         && EnsureNoMagic("headerFiles", options.value.headerFiles).Fail?
        ==> r == Some(EnsureNoMagic("headerFiles", options.value.headerFiles).error)
    ensures options.Some? && Truthy(options.value.outputFile) && strategy.Some?
         && EnsureNoMagic("headerFiles", options.value.headerFiles).Pass?
         && EnsureNoMagic("footerFiles", options.value.footerFiles).Fail?
        ==> r == Some(EnsureNoMagic("footerFiles", options.value.footerFiles).error)
    ensures r.Some? ==> !r.value.NothingMatched?
  {
    if options.None? || !Truthy(options.value.outputFile) then Some(MissingOutputFile)
    else if strategy.None? then Some(MissingStrategy)
    else match EnsureNoMagic("headerFiles", options.value.headerFiles)
      case Fail(e) => Some(e)
      case Pass =>
        match EnsureNoMagic("footerFiles", options.value.footerFiles)
        case Fail(e) => Some(e)
        case Pass => None
  }

  /** The first `i + 1` entries hold what the first `i` hold, and entry `i`. */
  lemma PrefixMembers(all: seq<string>, i: nat)
    requires i < |all|
    ensures forall p :: p in all[..i + 1] <==> p in all[..i] || p == all[i]
  {
    assert all[..i + 1] == all[..i] + [all[i]];
  }

  /** Builds the header/footer index: every entry of `a` then `b` maps to `true`. */
  method MakeIndex(a: Option<seq<string>>, b: Option<seq<string>>) returns (index: map<string, bool>)
    ensures forall p :: p in index <==> p in OrEmpty(a) + OrEmpty(b)
    ensures forall p :: p in index ==> index[p]
  {
    var all := OrEmpty(a) + OrEmpty(b);
    index := map[];
    var i := 0;
    while i < |all|
      invariant 0 <= i <= |all|
      invariant forall p :: p in index <==> p in all[..i]
      invariant forall p :: p in index ==> index[p]
    {
      PrefixMembers(all, i);
      index := index[all[i] := true];
      i := i + 1;
    }
    assert all[..|all|] == all;
  }

  /** `index[p] === true`. */
  predicate InIndex(index: map<string, bool>, p: string) {
    p in index && index[p]
  }

  // ---------------------------------------------------------------------------
  // Paths

  /** Entries listed with a trailing `/` are directories. */
  function IsDirectory(fullPath: string): bool {
    |fullPath| > 0 && fullPath[|fullPath| - 1] == '/'
  }

  /** The last character alone decides: exactly the paths ending in `/` are directories. */
  lemma DirectoryMarker(q: string, c: char)
    ensures !IsDirectory("")
    ensures IsDirectory(q + [c]) <==> c == '/'
  {
    assert (q + [c])[|q + [c]| - 1] == c;
  }

  /**
   * Converts a platform path to forward-slash form by splitting on the
   * platform separator `pathSep` and joining with `/` (nothing to do when the
   * platform separator already is `/`).
   */
  function EnsurePosix(filepath: string, pathSep: char): (r: string)
    ensures |r| == |filepath|
    ensures forall i :: 0 <= i < |filepath| ==> r[i] == if filepath[i] == pathSep then '/' else filepath[i]
  {
    if pathSep != '/' then
      JoinSplitReplaces(filepath, pathSep, '/');
      Join(Split(filepath, pathSep), "/")
    else filepath
  }

  /** `file.replace(posixInputPath + '/', '')`. */
  function Relative(file: string, posixRoot: string): string {
    RemoveFirst(file, posixRoot + "/")
  }

  /**
   * The relative path of a file: the first occurrence of the root and its
   * `/` is cut out, wherever it stands; a file under the root loses exactly
   * that prefix, and a file without it is unchanged.
   */
  lemma RelativeCutsRoot(file: string, posixRoot: string)
    ensures OccursAt(file, posixRoot + "/", 0) ==> Relative(file, posixRoot) == file[|posixRoot| + 1..]
    ensures forall i: nat ::
      OccursAt(file, posixRoot + "/", i) && (forall j: nat :: j < i ==> !OccursAt(file, posixRoot + "/", j)) ==>
      Relative(file, posixRoot) == file[..i] + file[i + |posixRoot| + 1..]
    ensures (forall j: nat :: !OccursAt(file, posixRoot + "/", j)) ==> Relative(file, posixRoot) == file
  {
  }

  // ---------------------------------------------------------------------------
  // Body selection

  /** The filter's verdict on one candidate: not a header/footer file (checked first), and not a directory. */
  predicate KeepsEntry(index: map<string, bool>, posixRoot: string, file: string) {
    !InIndex(index, Relative(file, posixRoot)) && !IsDirectory(file)
  }

  /** The candidates the filter keeps (`files.filter(...)`). */
  function Kept(index: map<string, bool>, posixRoot: string, files: seq<string>): seq<string>
    decreases |files|
  {
    if files == [] then []
    else
      var last := files[|files| - 1];
      Kept(index, posixRoot, files[..|files| - 1]) + if KeepsEntry(index, posixRoot, last) then [last] else []
  }

  /**
   * The filter keeps exactly the candidates it accepts, each once when the
   * candidates are distinct, and in their original order.
   */
  lemma {:induction false} KeptSelects(index: map<string, bool>, posixRoot: string, files: seq<string>)
    ensures forall f :: f in Kept(index, posixRoot, files) <==> f in files && KeepsEntry(index, posixRoot, f)
    ensures NoDuplicates(files) ==> NoDuplicates(Kept(index, posixRoot, files))
    ensures NoDuplicates(files) ==> InFirstOccurrenceOrder(Kept(index, posixRoot, files), files)
    decreases |files|
  {
    if files != [] {
      var init, last := files[..|files| - 1], files[|files| - 1];
      assert files == init + [last];
      KeptSelects(index, posixRoot, init);
      var r := Kept(index, posixRoot, init);
      if NoDuplicates(files) {
        assert NoDuplicates(init) by {
          forall i, j | 0 <= i < j < |init| ensures init[i] != init[j] {
            assert files[i] == init[i] && files[j] == init[j];
          }
        }
        if KeepsEntry(index, posixRoot, last) {
          OrderAppendNew(r, init, last);
        } else {
          OrderExtend(r, init, last);
        }
      }
    }
  }

  /** The filter handles one more candidate by keeping or dropping it alone. */
  lemma KeptSnoc(index: map<string, bool>, posixRoot: string, files: seq<string>, file: string)
    ensures Kept(index, posixRoot, files + [file])
         == Kept(index, posixRoot, files) + (if KeepsEntry(index, posixRoot, file) then [file] else [])
  {
    assert (files + [file])[..|files|] == files;
  }

  /** Some candidate's relative path is a header or footer file. */
  predicate Overlaps(index: map<string, bool>, posixRoot: string, files: seq<string>) {
    exists k :: 0 <= k < |files| && InIndex(index, Relative(files[k], posixRoot))
  }

  /** One more candidate overlaps exactly when it, or an earlier one, names a header or footer file. */
  lemma OverlapsSnoc(index: map<string, bool>, posixRoot: string, files: seq<string>, file: string)
    ensures Overlaps(index, posixRoot, files + [file])
        <==> Overlaps(index, posixRoot, files) || InIndex(index, Relative(file, posixRoot))
  {
    var fs := files + [file];
    if Overlaps(index, posixRoot, files) {
      var k :| 0 <= k < |files| && InIndex(index, Relative(files[k], posixRoot));
      assert fs[k] == files[k];
    }
    if InIndex(index, Relative(file, posixRoot)) {
      assert fs[|files|] == file;
    }
    if Overlaps(index, posixRoot, fs) {
      var k :| 0 <= k < |fs| && InIndex(index, Relative(fs[k], posixRoot));
      if k < |files| {
        assert fs[k] == files[k];
      }
    }
  }

  /** One step of the filter loop over `candidates`, at position `i`. */
  lemma FilterStep(index: map<string, bool>, posixRoot: string, candidates: seq<string>, i: nat)
    requires i < |candidates|
    ensures Kept(index, posixRoot, candidates[..i + 1])
         == Kept(index, posixRoot, candidates[..i]) + (if KeepsEntry(index, posixRoot, candidates[i]) then [candidates[i]] else [])
    ensures Overlaps(index, posixRoot, candidates[..i + 1])
        <==> Overlaps(index, posixRoot, candidates[..i]) || InIndex(index, Relative(candidates[i], posixRoot))
  {
    assert candidates[..i + 1] == candidates[..i] + [candidates[i]];
    KeptSnoc(index, posixRoot, candidates[..i], candidates[i]);
    OverlapsSnoc(index, posixRoot, candidates[..i], candidates[i]);
  }

  lemma {:induction false} FileSectionsSnoc(paths: seq<string>, p: string)
    ensures FileSections(paths + [p]) == FileSections(paths) + [FileSection(p)]
    decreases |paths|
  {
    if paths != [] {
      assert (paths + [p])[1..] == paths[1..] + [p];
      FileSectionsSnoc(paths[1..], p);
    }
  }

  /** `listFiles().map(ensurePosix)`. */
  function PosixAll(listed: seq<string>, pathSep: char): seq<string> {
    seq(|listed|, i requires 0 <= i < |listed| => EnsurePosix(listed[i], pathSep))
  }

  /** The relative path of each kept file, in order. */
  function RelativeAll(files: seq<string>, posixRoot: string): seq<string> {
    seq(|files|, i requires 0 <= i < |files| => Relative(files[i], posixRoot))
  }

  /** One file section per path, in order. */
  function FileSections(paths: seq<string>): (r: seq<Section>)
    ensures |r| == |paths|
    ensures forall k :: 0 <= k < |r| ==> r[k] == FileSection(paths[k])
    decreases |paths|
  {
    if paths == [] then [] else [FileSection(paths[0])] + FileSections(paths[1..])
  }

  // ---------------------------------------------------------------------------
  // The engine

  class ConcatWithMaps {
    const writerOptions: WriterOptions
    const strategy: StrategyCtor
    const inputFiles: Option<seq<string>>
    const outputFile: string
    const allowNone: bool
    const header: Option<string>
    const headerFiles: Option<seq<string>>
    const headerFooterFilesIndex: map<string, bool>
    const footer: Option<string>
    const footerFiles: Option<seq<string>>
    const separator: string
    /** The strategy of the latest run. */
    var concat: Strategy?

    /** The index holds exactly the header and footer files. */
    ghost predicate Valid() {
      forall p :: InIndex(headerFooterFilesIndex, p) <==> p in OrEmpty(headerFiles) + OrEmpty(footerFiles)
    }

    /** Assigns the validated options to the engine's fields. */
    constructor (options: Options, strategy: StrategyCtor, writerOptions: WriterOptions)
      requires options.outputFile.Some?
      ensures Valid()
      ensures this.writerOptions == writerOptions && this.strategy == strategy
      ensures inputFiles == options.inputFiles && outputFile == options.outputFile.value
      ensures allowNone == options.allowNone
      ensures header == options.header && headerFiles == options.headerFiles
      ensures footer == options.footer && footerFiles == options.footerFiles
      ensures separator == if options.separator.Some? then options.separator.value else "\n"
      ensures concat == null
    {
      this.writerOptions := writerOptions;
      this.strategy := strategy;
      inputFiles := options.inputFiles;
      outputFile := options.outputFile.value;
      allowNone := options.allowNone;
      header := options.header;
      headerFiles := options.headerFiles;
      var index := MakeIndex(options.headerFiles, options.footerFiles);
      headerFooterFilesIndex := index;
      footer := options.footer;
      footerFiles := options.footerFiles;
      separator := if options.separator.Some? then options.separator.value else "\n";
      concat := null;
    }

    /** `new ConcatWithMaps(inputNode, options, Strategy)`: validates, then builds the engine. */
    static method Create(options: Option<Options>, strategy: Option<StrategyCtor>)
      returns (r: Result<ConcatWithMaps, ConcatError>)
      ensures r.Failure? <==> ConstructionError(options, strategy).Some?
      ensures r.Failure? ==> Some(r.error) == ConstructionError(options, strategy)
      ensures r.Success? ==> fresh(r.value) && r.value.Valid() && r.value.concat == null
      ensures r.Success? ==>
        var o, e := options.value, r.value;
        && e.writerOptions == WriterOptions(WatchedFiles(o), o.annotation, WriterName(strategy.value))
        && e.strategy == strategy.value
        && e.inputFiles == o.inputFiles && e.outputFile == o.outputFile.value && e.allowNone == o.allowNone
        && e.header == o.header && e.headerFiles == o.headerFiles
        && e.footer == o.footer && e.footerFiles == o.footerFiles
        && e.separator == if o.separator.Some? then o.separator.value else "\n"
    {
      if options.None? || !Truthy(options.value.outputFile) {
        return Failure(MissingOutputFile);
      }
      var o := options.value;
      var allInputFiles := WatchedFiles(o);
      // Reading `Strategy.name` is what fails on a missing strategy.
      if strategy.None? {
        return Failure(MissingStrategy);
      }
      var writer := WriterOptions(allInputFiles, o.annotation, WriterName(strategy.value));
      var engine := new ConcatWithMaps(o, strategy.value, writer);
      var check := EnsureNoMagic("headerFiles", engine.headerFiles);
      if check.Fail? {
        return Failure(check.error);
      }
      check := EnsureNoMagic("footerFiles", engine.footerFiles);
      if check.Fail? {
        return Failure(check.error);
      }
      return Success(engine);
    }

    /** The deduplicated, forward-slash candidates of a run. */
    function Candidates(listed: seq<string>, pathSep: char): seq<string> {
      Uniq(PosixAll(listed, pathSep))
    }

    /** The discovered entries that become body files (as full paths). */
    function BodyFiles(listed: seq<string>, inputPath: string, pathSep: char): seq<string> {
      Kept(headerFooterFilesIndex, EnsurePosix(inputPath, pathSep), Candidates(listed, pathSep))
    }

    /** The paths the body files are added under, relative to the input root. */
    function BodyPaths(listed: seq<string>, inputPath: string, pathSep: char): seq<string> {
      RelativeAll(BodyFiles(listed, inputPath, pathSep), EnsurePosix(inputPath, pathSep))
    }

    /** The body selection raises: no overlap explains an empty body and `allowNone` is off. */
    predicate NothingMatches(listed: seq<string>, inputPath: string, pathSep: char) {
      && !Overlaps(headerFooterFilesIndex, EnsurePosix(inputPath, pathSep), Candidates(listed, pathSep))
      && BodyFiles(listed, inputPath, pathSep) == []
      && !allowNone
    }

    /** The literal header (when truthy), then each header file. */
    function HeadSections(): seq<Section> {
      (if Truthy(header) then [TextSection(header.value)] else []) + FileSections(OrEmpty(headerFiles))
    }

    /** Each footer file, then the literal footer with a newline (when truthy). */
    function TailSections(): seq<Section> {
      FileSections(OrEmpty(footerFiles)) + (if Truthy(footer) then [TextSection(footer.value + "\n")] else [])
    }

    /** All sections of a successful run, in their fixed order. */
    function Sections(listed: seq<string>, inputPath: string, pathSep: char): seq<Section> {
      HeadSections() + FileSections(BodyPaths(listed, inputPath, pathSep)) + TailSections()
    }

    /** The `beginSection` closure: writes the separator unless this is the run's first section. */
    method BeginSection(first: bool) returns (first': bool)
      requires concat != null
      modifies concat
      ensures concat.events == old(concat.events) + (if first then [] else [Space(separator)])
      ensures !first'
    {
      if first {
        first' := false;
      } else {
        concat.AddSpace(separator);
        first' := false;
      }
    }

    /** One `forEach` over a header or footer file list: each file is its own section. */
    method AddFileSections(first: bool, files: seq<string>) returns (first': bool)
      requires concat != null
      modifies concat
      ensures concat.events == old(concat.events) + Emit(first, separator, FileSections(files))
      ensures first' == (first && files == [])
    {
      first' := first;
      var i := 0;
      while i < |files|
        invariant 0 <= i <= |files|
        invariant concat.events == old(concat.events) + Emit(first, separator, FileSections(files[..i]))
        invariant first' == (first && i == 0)
      {
        ghost var t1 := concat.events;
        first' := BeginSection(first');
        concat.AddFile(files[i]);
        EmitThenOne(first, separator, FileSections(files[..i]), FileSection(files[i]), old(concat.events), t1, concat.events);
        assert files[..i + 1] == files[..i] + [files[i]];
        FileSectionsSnoc(files[..i], files[i]);
        i := i + 1;
      }
      assert files[..i] == files;
    }

    /**
     * The filter over the deduplicated forward-slash candidates: drops
     * header/footer files, noting that one was seen, then directories.
     */
    method SelectFiles(candidates: seq<string>, posixInputPath: string)
      returns (files: seq<string>, headerFooterFileOverlap: bool)
      ensures files == Kept(headerFooterFilesIndex, posixInputPath, candidates)
      ensures headerFooterFileOverlap == Overlaps(headerFooterFilesIndex, posixInputPath, candidates)
    {
      headerFooterFileOverlap := false;
      files := [];
      var i := 0;
      while i < |candidates|
        invariant 0 <= i <= |candidates|
        invariant files == Kept(headerFooterFilesIndex, posixInputPath, candidates[..i])
        invariant headerFooterFileOverlap == Overlaps(headerFooterFilesIndex, posixInputPath, candidates[..i])
      {
        var file := candidates[i];
        FilterStep(headerFooterFilesIndex, posixInputPath, candidates, i);
        var relativePath := Relative(file, posixInputPath);
        if InIndex(headerFooterFilesIndex, relativePath) {
          headerFooterFileOverlap := true;
        } else if !IsDirectory(file) {
          files := files + [file];
        }
        i := i + 1;
      }
      assert candidates[..i] == candidates;
    }

    /**
     * Selects and adds the body files: deduplicated forward-slash candidates,
     * minus header/footer files (noting the overlap) and directories. Raises
     * when nothing was selected, nothing overlapped and `allowNone` is off.
     */
    method AddFiles(first: bool, listed: seq<string>, inputPath: string, pathSep: char)
      returns (first': bool, r: Outcome<ConcatError>)
      requires concat != null
      modifies concat
      ensures r.Fail? <==> NothingMatches(listed, inputPath, pathSep)
      ensures r.Fail? ==> r.error == NothingMatched(inputFiles)
      ensures r.Fail? ==> concat.events == old(concat.events) && first' == first
      ensures r.Pass? ==>
        && concat.events == old(concat.events) + Emit(first, separator, FileSections(BodyPaths(listed, inputPath, pathSep)))
        && first' == (first && BodyPaths(listed, inputPath, pathSep) == [])
    {
      var posixInputPath := EnsurePosix(inputPath, pathSep);
      var files, headerFooterFileOverlap := SelectFiles(Uniq(PosixAll(listed, pathSep)), posixInputPath);
      if !headerFooterFileOverlap && |files| == 0 && !allowNone {
        return first, Fail(NothingMatched(inputFiles));
      }
      first' := AddFileSections(first, RelativeAll(files, posixInputPath));
      r := Pass;
    }

    /** The literal header, when truthy, then each header file (header files in list order). */
    method AddHeaderSections(first: bool) returns (first': bool)
      requires concat != null
      modifies concat
      ensures concat.events == old(concat.events) + Emit(first, separator, HeadSections())
      ensures first' == (first && HeadSections() == [])
    {
      ghost var t0 := concat.events;
      ghost var literal := if Truthy(header) then [TextSection(header.value)] else [];
      first' := first;
      if Truthy(header) {
        first' := BeginSection(first');
        concat.AddSpace(header.value);
        EmitSnoc(first, separator, [], TextSection(header.value));
      }
      ghost var t1 := concat.events;
      assert t1 == t0 + Emit(first, separator, literal);
      assert first' == (first && literal == []);
      first' := AddFileSections(first', OrEmpty(headerFiles));
      EmitThen(first, separator, literal, FileSections(OrEmpty(headerFiles)), t0, t1, concat.events);
    }

    /** Each footer file in list order, then the literal footer with a newline, when truthy. */
    method AddFooterSections(first: bool) returns (first': bool)
      requires concat != null
      modifies concat
      ensures concat.events == old(concat.events) + Emit(first, separator, TailSections())
      ensures first' == (first && TailSections() == [])
    {
      ghost var files := FileSections(OrEmpty(footerFiles));
      first' := AddFileSections(first, OrEmpty(footerFiles));
      if Truthy(footer) {
        ghost var t1 := concat.events;
        first' := BeginSection(first');
        concat.AddSpace(footer.value + "\n");
        EmitThenOne(first, separator, files, TextSection(footer.value + "\n"), old(concat.events), t1, concat.events);
      } else {
        assert TailSections() == files;
      }
    }

    /**
     * One run: a fresh strategy receives the literal header, each header
     * file, the body files, each footer file and the literal footer, every
     * section after the first opened by the separator. When the body
     * selection raises, the run stops after the header files.
     */
    method Build(listed: seq<string>, inputPath: string, pathSep: char) returns (r: Outcome<ConcatError>)
      modifies this
      ensures concat != null && fresh(concat)
      ensures concat.outputFile == outputFile && concat.baseDir == inputPath
      ensures r.Fail? <==> NothingMatches(listed, inputPath, pathSep)
      ensures r.Fail? ==> r.error == NothingMatched(inputFiles) && concat.events == Render(HeadSections(), separator)
      ensures r.Pass? ==> concat.events == Render(Sections(listed, inputPath, pathSep), separator)
    {
      var firstSection := true;
      concat := new Strategy(outputFile, inputPath);
      firstSection := AddHeaderSections(firstSection);
      ghost var t1 := concat.events;
      var res;
      firstSection, res := AddFiles(firstSection, listed, inputPath, pathSep);
      if res.Fail? {
        return res;
      }
      ghost var body := FileSections(BodyPaths(listed, inputPath, pathSep));
      ghost var t2 := concat.events;
      EmitThen(true, separator, HeadSections(), body, [], t1, t2);
      firstSection := AddFooterSections(firstSection);
      EmitThen(true, separator, HeadSections() + body, TailSections(), [], t2, concat.events);
      r := Pass;
    }
  }
}
