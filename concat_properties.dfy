/**
 * Properties of the concatenation engine that relate several of its parts:
 * what the body selection keeps and in which order, when it raises, which
 * files a run writes in which order, and worked scenarios: two plain
 * inputs, a header file that is also discovered as an input, and literal
 * header and footer around one file.
 */
module ConcatProperties {
  import opened Wrappers
  import opened JsBuiltins
  import opened StrategyTrace
  import opened Concat

  /** Forward-slash form leaves nothing to convert, and converts nothing twice. */
  lemma EnsurePosixIdempotent(filepath: string, pathSep: char)
    ensures EnsurePosix(EnsurePosix(filepath, pathSep), pathSep) == EnsurePosix(filepath, pathSep)
    ensures pathSep != '/' ==> pathSep !in EnsurePosix(filepath, pathSep)
  {
    var once := EnsurePosix(filepath, pathSep);
    var twice := EnsurePosix(once, pathSep);
    assert |twice| == |once|;
    forall i | 0 <= i < |once| ensures twice[i] == once[i] {
    }
  }

  /**
   * Body deduplication and order: the body files are distinct; a discovered
   * entry (in forward-slash form) is one of them exactly when its relative
   * path is not a header or footer file and it is not a directory; and they
   * keep the order of their first discovery, never re-sorted.
   */
  lemma BodySelection(e: ConcatWithMaps, listed: seq<string>, inputPath: string, pathSep: char)
    ensures NoDuplicates(e.BodyFiles(listed, inputPath, pathSep))
    ensures forall f :: f in e.BodyFiles(listed, inputPath, pathSep) <==>
      && f in PosixAll(listed, pathSep)
      && !InIndex(e.headerFooterFilesIndex, Relative(f, EnsurePosix(inputPath, pathSep)))
      && !IsDirectory(f)
    ensures InFirstOccurrenceOrder(e.BodyFiles(listed, inputPath, pathSep), PosixAll(listed, pathSep))
  {
    var discovered := PosixAll(listed, pathSep);
    var candidates := Uniq(discovered);
    var posixRoot := EnsurePosix(inputPath, pathSep);
    UniqFirstOccurrenceOrder(discovered);
    KeptSelects(e.headerFooterFilesIndex, posixRoot, candidates);
    OrderTransitive(Kept(e.headerFooterFilesIndex, posixRoot, candidates), candidates, discovered);
    forall f ensures f in candidates <==> f in discovered {
      if f in discovered {
        var i :| 0 <= i < |discovered| && discovered[i] == f;
      }
    }
  }

  /** Overlap: no body file is added under a path that is a header or footer file. */
  lemma BodyExcludesHeaderFooter(e: ConcatWithMaps, listed: seq<string>, inputPath: string, pathSep: char)
    requires e.Valid()
    ensures forall p :: p in e.BodyPaths(listed, inputPath, pathSep) ==>
      p !in OrEmpty(e.headerFiles) + OrEmpty(e.footerFiles)
  {
    var files := e.BodyFiles(listed, inputPath, pathSep);
    var posixRoot := EnsurePosix(inputPath, pathSep);
    var paths := e.BodyPaths(listed, inputPath, pathSep);
    KeptSelects(e.headerFooterFilesIndex, posixRoot, e.Candidates(listed, pathSep));
    forall p | p in paths ensures p !in OrEmpty(e.headerFiles) + OrEmpty(e.footerFiles) {
      var k :| 0 <= k < |paths| && paths[k] == p;
      assert files[k] in files;
      assert p == Relative(files[k], posixRoot);
    }
  }

  /**
   * When every discovered entry lies under the input root, each body file is
   * added under its path with the root and its `/` cut off, and no path is
   * added twice.
   */
  lemma BodyPathsUnderRoot(e: ConcatWithMaps, listed: seq<string>, inputPath: string, pathSep: char)
    requires forall i :: 0 <= i < |listed| ==>
      OccursAt(EnsurePosix(listed[i], pathSep), EnsurePosix(inputPath, pathSep) + "/", 0)
    ensures |e.BodyPaths(listed, inputPath, pathSep)| == |e.BodyFiles(listed, inputPath, pathSep)|
    ensures forall k :: 0 <= k < |e.BodyFiles(listed, inputPath, pathSep)| ==>
      && OccursAt(e.BodyFiles(listed, inputPath, pathSep)[k], EnsurePosix(inputPath, pathSep) + "/", 0)
      && e.BodyPaths(listed, inputPath, pathSep)[k]
         == e.BodyFiles(listed, inputPath, pathSep)[k][|EnsurePosix(inputPath, pathSep)| + 1..]
    ensures NoDuplicates(e.BodyPaths(listed, inputPath, pathSep))
  {
    var files := e.BodyFiles(listed, inputPath, pathSep);
    var paths := e.BodyPaths(listed, inputPath, pathSep);
    var posixRoot := EnsurePosix(inputPath, pathSep);
    var pat := posixRoot + "/";
    BodySelection(e, listed, inputPath, pathSep);
    forall k | 0 <= k < |files| ensures OccursAt(files[k], pat, 0) {
      assert files[k] in files;
      var i :| 0 <= i < |listed| && PosixAll(listed, pathSep)[i] == files[k];
    }
    forall j, k | 0 <= j < k < |paths| ensures paths[j] != paths[k] {
      if paths[j] == paths[k] {
        RemoveFirstPrefixInjective(files[j], files[k], pat);
      }
    }
  }

  /** Every discovered entry is a directory whose relative path is no header or footer file. */
  predicate OnlyUnlistedDirectories(index: map<string, bool>, posixRoot: string, discovered: seq<string>) {
    forall i :: 0 <= i < |discovered| ==>
      !InIndex(index, Relative(discovered[i], posixRoot)) && IsDirectory(discovered[i])
  }

  lemma NothingMatchesOnlyIfUnlistedDirectories(e: ConcatWithMaps, listed: seq<string>, inputPath: string, pathSep: char)
    requires e.NothingMatches(listed, inputPath, pathSep)
    ensures !e.allowNone
    ensures OnlyUnlistedDirectories(e.headerFooterFilesIndex, EnsurePosix(inputPath, pathSep), PosixAll(listed, pathSep))
  {
    var discovered := PosixAll(listed, pathSep);
    var candidates := Uniq(discovered);
    var posixRoot := EnsurePosix(inputPath, pathSep);
    var index := e.headerFooterFilesIndex;
    KeptSelects(index, posixRoot, candidates);
    forall i | 0 <= i < |discovered|
      ensures !InIndex(index, Relative(discovered[i], posixRoot)) && IsDirectory(discovered[i])
    {
      var f := discovered[i];
      assert f in candidates;
      var k :| 0 <= k < |candidates| && candidates[k] == f;
      assert !InIndex(index, Relative(candidates[k], posixRoot));
      assert f !in Kept(index, posixRoot, candidates);
    }
  }

  /** A filter that keeps no candidate returns nothing. */
  lemma {:induction false} KeptNone(index: map<string, bool>, posixRoot: string, files: seq<string>)
    requires forall k :: 0 <= k < |files| ==> !KeepsEntry(index, posixRoot, files[k])
    ensures Kept(index, posixRoot, files) == []
    decreases |files|
  {
    if files != [] {
      var init, last := files[..|files| - 1], files[|files| - 1];
      assert forall k :: 0 <= k < |init| ==> init[k] == files[k];
      KeptNone(index, posixRoot, init);
      SnocLast(files);
    }
  }

  lemma UnlistedDirectoriesNothingMatches(e: ConcatWithMaps, listed: seq<string>, inputPath: string, pathSep: char)
    requires !e.allowNone
    requires OnlyUnlistedDirectories(e.headerFooterFilesIndex, EnsurePosix(inputPath, pathSep), PosixAll(listed, pathSep))
    ensures e.NothingMatches(listed, inputPath, pathSep)
  {
    var discovered := PosixAll(listed, pathSep);
    var candidates := Uniq(discovered);
    var posixRoot := EnsurePosix(inputPath, pathSep);
    var index := e.headerFooterFilesIndex;
    forall k | 0 <= k < |candidates| ensures !InIndex(index, Relative(candidates[k], posixRoot)) {
      var i :| 0 <= i < |discovered| && discovered[i] == candidates[k];
    }
    forall k | 0 <= k < |candidates| ensures IsDirectory(candidates[k]) {
      var i :| 0 <= i < |discovered| && discovered[i] == candidates[k];
    }
    KeptNone(index, posixRoot, candidates);
  }

  /**
   * The empty-result error fires exactly when `allowNone` is off and every
   * discovered entry is a directory whose relative path is no header or
   * footer file: nothing was selected and no overlap explains it.
   */
  lemma NothingMatchesIff(e: ConcatWithMaps, listed: seq<string>, inputPath: string, pathSep: char)
    ensures e.NothingMatches(listed, inputPath, pathSep) <==>
      !e.allowNone && OnlyUnlistedDirectories(e.headerFooterFilesIndex, EnsurePosix(inputPath, pathSep), PosixAll(listed, pathSep))
  {
    if e.NothingMatches(listed, inputPath, pathSep) {
      NothingMatchesOnlyIfUnlistedDirectories(e, listed, inputPath, pathSep);
    }
    if !e.allowNone && OnlyUnlistedDirectories(e.headerFooterFilesIndex, EnsurePosix(inputPath, pathSep), PosixAll(listed, pathSep)) {
      UnlistedDirectoriesNothingMatches(e, listed, inputPath, pathSep);
    }
  }

  lemma {:induction false} PathsOfFileSections(paths: seq<string>)
    ensures PathsOf(FileSections(paths)) == paths
    decreases |paths|
  {
    if paths != [] {
      PathsOfFileSections(paths[1..]);
      PathsOfAppend([FileSection(paths[0])], FileSections(paths[1..]));
    }
  }

  /** Helper for `HeadPaths` and `TailPaths`. A literal block holds no file. */
  lemma PathsOfText(t: string)
    ensures PathsOf([TextSection(t)]) == []
  {
    assert [TextSection(t)][1..] == [];
  }

  /** The head of a run holds the header files and nothing else. */
  lemma HeadPaths(e: ConcatWithMaps)
    ensures PathsOf(e.HeadSections()) == OrEmpty(e.headerFiles)
  {
    var literal := if Truthy(e.header) then [TextSection(e.header.value)] else [];
    if Truthy(e.header) {
      PathsOfText(e.header.value);
    }
    PathsOfFileSections(OrEmpty(e.headerFiles));
    PathsOfAppend(literal, FileSections(OrEmpty(e.headerFiles)));
  }

  /** The tail of a run holds the footer files and nothing else. */
  lemma TailPaths(e: ConcatWithMaps)
    ensures PathsOf(e.TailSections()) == OrEmpty(e.footerFiles)
  {
    var literal := if Truthy(e.footer) then [TextSection(e.footer.value + "\n")] else [];
    if Truthy(e.footer) {
      PathsOfText(e.footer.value + "\n");
    }
    PathsOfFileSections(OrEmpty(e.footerFiles));
    PathsOfAppend(FileSections(OrEmpty(e.footerFiles)), literal);
    assert PathsOf(e.TailSections()) == OrEmpty(e.footerFiles) + PathsOf(literal);
  }

  /**
   * Section order as far as files go: a run writes each header file in list
   * order, then the body files, then each footer file in list order; a run
   * whose body selection raised has written only the header files.
   */
  lemma BuildFileOrder(e: ConcatWithMaps, listed: seq<string>, inputPath: string, pathSep: char)
    ensures FilesOf(Render(e.Sections(listed, inputPath, pathSep), e.separator))
         == OrEmpty(e.headerFiles) + e.BodyPaths(listed, inputPath, pathSep) + OrEmpty(e.footerFiles)
    ensures FilesOf(Render(e.HeadSections(), e.separator)) == OrEmpty(e.headerFiles)
  {
    var head, tail := e.HeadSections(), e.TailSections();
    var paths := e.BodyPaths(listed, inputPath, pathSep);
    var body := FileSections(paths);
    HeadPaths(e);
    TailPaths(e);
    PathsOfFileSections(paths);
    PathsOfAppend(head, body);
    PathsOfAppend(head + body, tail);
    EmitFiles(true, e.separator, head + body + tail);
    EmitFiles(true, e.separator, head);
  }

  /**
   * Literal placement: a truthy literal header is the run's very first call,
   * and a truthy literal footer, with its newline, is the very last.
   */
  lemma LiteralsAtTheEnds(e: ConcatWithMaps, listed: seq<string>, inputPath: string, pathSep: char)
    ensures Truthy(e.header) ==> Render(e.Sections(listed, inputPath, pathSep), e.separator)[0] == Space(e.header.value)
    ensures Truthy(e.footer) ==>
      var r := Render(e.Sections(listed, inputPath, pathSep), e.separator);
      |r| > 0 && r[|r| - 1] == Space(e.footer.value + "\n")
  {
    var ss := e.Sections(listed, inputPath, pathSep);
    SeparatorPlacement(ss, e.separator);
    if Truthy(e.header) {
      assert ss[0] == TextSection(e.header.value);
    }
    if Truthy(e.footer) {
      assert ss[|ss| - 1] == TextSection(e.footer.value + "\n");
    }
  }

  // ---------------------------------------------------------------------------
  // Worked scenarios. The lemmas marked "Scenario helper" each state one small
  // step of them, for one configuration; the scenarios are the results.

  /** Scenario helper. With `/` as the platform separator every path is already in forward-slash form. */
  lemma PosixAllSlash(listed: seq<string>)
    ensures PosixAll(listed, '/') == listed
  {
  }

  /** A filter that keeps every candidate returns them all. */
  lemma {:induction false} KeptAll(index: map<string, bool>, posixRoot: string, files: seq<string>)
    requires forall k :: 0 <= k < |files| ==> KeepsEntry(index, posixRoot, files[k])
    ensures Kept(index, posixRoot, files) == files
    decreases |files|
  {
    if files != [] {
      var init, last := files[..|files| - 1], files[|files| - 1];
      assert forall k :: 0 <= k < |init| ==> init[k] == files[k];
      KeptAll(index, posixRoot, init);
      SnocLast(files);
    }
  }

  /**
   * Distinct regular files, discovered under the root and named in no header
   * or footer list, are all added, in discovery order.
   */
  lemma PlainInputsAllAdded(e: ConcatWithMaps, listed: seq<string>, inputPath: string, pathSep: char)
    requires NoDuplicates(PosixAll(listed, pathSep))
    requires forall i :: 0 <= i < |listed| ==>
      KeepsEntry(e.headerFooterFilesIndex, EnsurePosix(inputPath, pathSep), EnsurePosix(listed[i], pathSep))
    ensures e.BodyFiles(listed, inputPath, pathSep) == PosixAll(listed, pathSep)
  {
    UniqDistinct(PosixAll(listed, pathSep));
    KeptAll(e.headerFooterFilesIndex, EnsurePosix(inputPath, pathSep), PosixAll(listed, pathSep));
  }

  /** Scenario helper. Two sections joined by the separator. */
  lemma RenderTwo(a: Section, b: Section, sep: string)
    ensures Render([a, b], sep) == [Content(a), Space(sep), Content(b)]
  {
    SeparatorPlacement([a, b], sep);
  }

  /** Scenario helper. Three sections joined by the separator. */
  lemma RenderThree(a: Section, b: Section, c: Section, sep: string)
    ensures Render([a, b, c], sep) == [Content(a), Space(sep), Content(b), Space(sep), Content(c)]
  {
    SeparatorPlacement([a, b, c], sep);
  }

  /** Scenario helper. One file section per path, for one and for two paths. */
  lemma FileSectionsSmall(p: string, q: string)
    ensures FileSections([p]) == [FileSection(p)]
    ensures FileSections([p, q]) == [FileSection(p), FileSection(q)]
  {
    assert [p, q][1..] == [q];
    assert [p][1..] == [];
  }

  /** Scenario helper. A path under the root, relative to it, is its name below the root. */
  lemma RelativeUnderRoot(posixRoot: string, name: string)
    ensures Relative(posixRoot + "/" + name, posixRoot) == name
  {
    var file := posixRoot + "/" + name;
    assert file[..|posixRoot + "/"|] == posixRoot + "/";
    assert OccursAt(file, posixRoot + "/", 0);
    assert file[|posixRoot + "/"|..] == name;
  }

  /** Scenario helper. Without a literal header or header files, the head of a run is empty. */
  lemma NoHead(e: ConcatWithMaps)
    requires !Truthy(e.header) && e.headerFiles == None
    ensures e.HeadSections() == []
  {
    assert FileSections([]) == [];
  }

  /** Scenario helper. Without footer files or a literal footer, the tail of a run is empty. */
  lemma NoTail(e: ConcatWithMaps)
    requires !Truthy(e.footer) && e.footerFiles == None
    ensures e.TailSections() == []
  {
    assert FileSections([]) == [];
  }

  /** Scenario helper. Without literals or header and footer files, a run is its body alone. */
  lemma BodyOnlySections(e: ConcatWithMaps, listed: seq<string>, inputPath: string, pathSep: char)
    requires !Truthy(e.header) && !Truthy(e.footer) && e.headerFiles == None && e.footerFiles == None
    ensures e.Sections(listed, inputPath, pathSep) == FileSections(e.BodyPaths(listed, inputPath, pathSep))
  {
    NoHead(e);
    NoTail(e);
    var body := FileSections(e.BodyPaths(listed, inputPath, pathSep));
    assert [] + body + [] == body;
  }

  /** Scenario helper. With a literal header and no header files, the head of a run is that literal. */
  lemma OnlyLiteralHead(e: ConcatWithMaps)
    requires Truthy(e.header) && e.headerFiles == None
    ensures e.HeadSections() == [TextSection(e.header.value)]
  {
    assert FileSections([]) == [];
  }

  /** Scenario helper. With a literal footer and no footer files, the tail of a run is that literal and its newline. */
  lemma OnlyLiteralTail(e: ConcatWithMaps)
    requires Truthy(e.footer) && e.footerFiles == None
    ensures e.TailSections() == [TextSection(e.footer.value + "\n")]
  {
    assert FileSections([]) == [];
  }

  /** Scenario helper. With literals but no header and footer files, a run is the body between the two literals. */
  lemma LiteralSections(e: ConcatWithMaps, listed: seq<string>, inputPath: string, pathSep: char)
    requires Truthy(e.header) && Truthy(e.footer) && e.headerFiles == None && e.footerFiles == None
    ensures e.Sections(listed, inputPath, pathSep)
         == [TextSection(e.header.value)] + FileSections(e.BodyPaths(listed, inputPath, pathSep)) + [TextSection(e.footer.value + "\n")]
  {
    OnlyLiteralHead(e);
    OnlyLiteralTail(e);
  }

  /** A file directly under the root that is not a directory. */
  predicate PlainFileUnder(posixRoot: string, name: string) {
    !IsDirectory(posixRoot + "/" + name)
  }

  /** Scenario helper. A plain file under the root whose name is in no list passes the filter. */
  lemma PlainFileKept(index: map<string, bool>, posixRoot: string, name: string)
    requires PlainFileUnder(posixRoot, name) && !InIndex(index, name)
    ensures KeepsEntry(index, posixRoot, posixRoot + "/" + name)
    ensures Relative(posixRoot + "/" + name, posixRoot) == name
  {
    RelativeUnderRoot(posixRoot, name);
  }

  /** Scenario helper. Two names below the root are two distinct paths exactly when the names differ. */
  lemma DistinctUnderRoot(posixRoot: string, a: string, b: string)
    requires a != b
    ensures posixRoot + "/" + a != posixRoot + "/" + b
  {
    assert (posixRoot + "/" + a)[|posixRoot| + 1..] == a;
    assert (posixRoot + "/" + b)[|posixRoot| + 1..] == b;
  }

  /** The full paths of files named `names` directly under the root. */
  function UnderRoot(posixRoot: string, names: seq<string>): (r: seq<string>)
    ensures |r| == |names|
  {
    seq(|names|, i requires 0 <= i < |names| => posixRoot + "/" + names[i])
  }

  /**
   * Distinct plain files found directly under the root, with no header or
   * footer files configured, are the whole body, added under their names in
   * the order found.
   */
  lemma PlainInputsBody(e: ConcatWithMaps, root: string, names: seq<string>)
    requires e.Valid() && e.headerFiles == None && e.footerFiles == None
    requires NoDuplicates(names)
    requires forall k :: 0 <= k < |names| ==> PlainFileUnder(root, names[k])
    ensures e.BodyPaths(UnderRoot(root, names), root, '/') == names
  {
    var listed := UnderRoot(root, names);
    var index := e.headerFooterFilesIndex;
    PosixAllSlash(listed);
    assert EnsurePosix(root, '/') == root;
    forall k | 0 <= k < |names|
      ensures KeepsEntry(index, root, listed[k]) && Relative(listed[k], root) == names[k]
    {
      assert !InIndex(index, names[k]);
      PlainFileKept(index, root, names[k]);
    }
    forall i, j | 0 <= i < j < |listed| ensures listed[i] != listed[j] {
      DistinctUnderRoot(root, names[i], names[j]);
    }
    PlainInputsAllAdded(e, listed, root, '/');
  }

  /** Scenario helper. No literals, no header and footer files, and a two-file body: the two files joined by the separator. */
  lemma BodyOfTwoFiles(e: ConcatWithMaps, listed: seq<string>, inputPath: string, pathSep: char, a: string, b: string)
    requires !Truthy(e.header) && !Truthy(e.footer) && e.headerFiles == None && e.footerFiles == None
    requires e.BodyPaths(listed, inputPath, pathSep) == [a, b]
    ensures !e.NothingMatches(listed, inputPath, pathSep)
    ensures Render(e.Sections(listed, inputPath, pathSep), e.separator) == [File(a), Space(e.separator), File(b)]
  {
    assert |e.BodyFiles(listed, inputPath, pathSep)| == 2;
    BodyOnlySections(e, listed, inputPath, pathSep);
    FileSectionsSmall(a, b);
    RenderTwo(FileSection(a), FileSection(b), e.separator);
  }

  /**
   * Scenario: two input files `a` and `b` found under `root`, no header or
   * footer of either kind: the run writes `a`, the separator, `b`.
   */
  lemma ScenarioTwoInputs(e: ConcatWithMaps, root: string, a: string, b: string)
    requires e.Valid() && e.headerFiles == None && e.footerFiles == None
    requires !Truthy(e.header) && !Truthy(e.footer)
    requires a != b && PlainFileUnder(root, a) && PlainFileUnder(root, b)
    ensures !e.NothingMatches(UnderRoot(root, [a, b]), root, '/')
    ensures Render(e.Sections(UnderRoot(root, [a, b]), root, '/'), e.separator)
         == [File(a), Space(e.separator), File(b)]
  {
    PlainInputsBody(e, root, [a, b]);
    BodyOfTwoFiles(e, UnderRoot(root, [a, b]), root, '/', a, b);
  }

  /**
   * Scenario: `h` is both the header file and the footer file and is the
   * one file found: it is written as header and as footer but not as body,
   * and the empty body raises no error because of the overlap.
   */
  lemma ScenarioHeaderIsFooter(e: ConcatWithMaps, root: string, h: string)
    requires e.Valid() && e.headerFiles == Some([h]) && e.footerFiles == Some([h])
    requires !Truthy(e.header) && !Truthy(e.footer)
    ensures !e.NothingMatches(UnderRoot(root, [h]), root, '/')
    ensures Render(e.Sections(UnderRoot(root, [h]), root, '/'), e.separator)
         == [File(h), Space(e.separator), File(h)]
  {
    var listed := UnderRoot(root, [h]);
    var index := e.headerFooterFilesIndex;
    PosixAllSlash(listed);
    UniqDistinct(listed);
    RelativeUnderRoot(root, h);
    assert InIndex(index, h) by {
      assert h in OrEmpty(e.headerFiles) + OrEmpty(e.footerFiles);
    }
    assert InIndex(index, Relative(listed[0], root));
    assert Overlaps(index, root, e.Candidates(listed, '/'));
    KeptNone(index, root, listed);
    assert e.BodyPaths(listed, root, '/') == [];
    FileSectionsSmall(h, h);
    assert FileSections([]) == [];
    assert e.Sections(listed, root, '/') == [FileSection(h), FileSection(h)];
    RenderTwo(FileSection(h), FileSection(h), e.separator);
  }

  /**
   * Scenario: literal header `hd`, literal footer `ft`, one input file `a`
   * found under `root`: header, separator, `a`, separator, footer with its
   * own newline.
   */
  lemma ScenarioLiterals(e: ConcatWithMaps, root: string, a: string, hd: string, ft: string)
    requires e.Valid() && e.headerFiles == None && e.footerFiles == None
    requires e.header == Some(hd) && hd != "" && e.footer == Some(ft) && ft != ""
    requires PlainFileUnder(root, a)
    ensures !e.NothingMatches(UnderRoot(root, [a]), root, '/')
    ensures Render(e.Sections(UnderRoot(root, [a]), root, '/'), e.separator)
         == [Space(hd), Space(e.separator), File(a), Space(e.separator), Space(ft + "\n")]
  {
    PlainInputsBody(e, root, [a]);
    LiteralsAroundOneFile(e, UnderRoot(root, [a]), root, '/', a);
  }

  /** Scenario helper. Literals, no header and footer files, and a one-file body: literal, file, literal. */
  lemma LiteralsAroundOneFile(e: ConcatWithMaps, listed: seq<string>, inputPath: string, pathSep: char, a: string)
    requires Truthy(e.header) && Truthy(e.footer) && e.headerFiles == None && e.footerFiles == None
    requires e.BodyPaths(listed, inputPath, pathSep) == [a]
    ensures !e.NothingMatches(listed, inputPath, pathSep)
    ensures Render(e.Sections(listed, inputPath, pathSep), e.separator)
         == [Space(e.header.value), Space(e.separator), File(a), Space(e.separator), Space(e.footer.value + "\n")]
  {
    assert |e.BodyFiles(listed, inputPath, pathSep)| == 1;
    FileSectionsSmall(a, a);
    LiteralSections(e, listed, inputPath, pathSep);
    var ss := [TextSection(e.header.value), FileSection(a), TextSection(e.footer.value + "\n")];
    assert e.Sections(listed, inputPath, pathSep) == ss;
    RenderThree(ss[0], ss[1], ss[2], e.separator);
  }

  /**
   * Running twice on the same discovered files writes the same calls in the
   * same order and ends the same way.
   */
  method RebuildIsIdempotent(e: ConcatWithMaps, listed: seq<string>, inputPath: string, pathSep: char)
    returns (first: Outcome<ConcatError>, second: Outcome<ConcatError>, firstEvents: seq<Event>)
    modifies e
    ensures e.concat != null
    ensures first == second && firstEvents == e.concat.events
  {
    first := e.Build(listed, inputPath, pathSep);
    firstEvents := e.concat.events;
    second := e.Build(listed, inputPath, pathSep);
  }
}
