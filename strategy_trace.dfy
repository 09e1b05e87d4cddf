/**
 * The concatenation strategy as the engine sees it: an object that receives
 * `addSpace(text)` and `addFile(relativePath)` calls in order. The model keeps
 * those calls as an append-only trace of events, and describes what the
 * engine writes as a sequence of sections joined by the separator.
 */
module StrategyTrace {

  /** One call the engine makes on the strategy. */
  datatype Event = Space(text: string) | File(path: string)

  /** One unit of output: a literal block or one file. */
  datatype Section = TextSection(text: string) | FileSection(path: string)

  /** The call that writes a section's content. */
  function Content(s: Section): Event {
    match s
    case TextSection(t) => Space(t)
    case FileSection(p) => File(p)
  }

  /** The section a content call writes. */
  function SectionOf(e: Event): Section {
    match e
    case Space(t) => TextSection(t)
    case File(p) => FileSection(p)
  }

  /**
   * The calls made for sections `ss` when each is opened by the begin-section
   * rule: the separator goes before a section unless it is the first one of
   * the run, which is the case for the head of `ss` exactly when `first` holds.
   */
  function Emit(first: bool, sep: string, ss: seq<Section>): (r: seq<Event>)
    ensures |r| == if ss == [] then 0 else 2 * |ss| - (if first then 1 else 0)
    decreases |ss|
  {
    if ss == [] then []
    else (if first then [] else [Space(sep)]) + [Content(ss[0])] + Emit(false, sep, ss[1..])
  }

  /** The whole run: sections joined by the separator. */
  function Render(ss: seq<Section>, sep: string): seq<Event> {
    Emit(true, sep, ss)
  }

  /** Emitting two groups of sections one after the other is emitting their concatenation. */
  lemma {:induction false} EmitAppend(first: bool, sep: string, a: seq<Section>, b: seq<Section>)
    ensures Emit(first, sep, a + b) == Emit(first, sep, a) + Emit(first && a == [], sep, b)
    decreases |a|
  {
    if a == [] {
      assert a + b == b;
    } else {
      assert (a + b)[1..] == a[1..] + b;
      EmitAppend(false, sep, a[1..], b);
    }
  }

  /** A trace extended by emitting `a` and then `b` has been extended by emitting `a + b`. */
  lemma EmitThen(first: bool, sep: string, a: seq<Section>, b: seq<Section>, t0: seq<Event>, t1: seq<Event>, t2: seq<Event>)
    requires t1 == t0 + Emit(first, sep, a)
    requires t2 == t1 + Emit(first && a == [], sep, b)
    ensures t2 == t0 + Emit(first, sep, a + b)
  {
    EmitAppend(first, sep, a, b);
  }

  /** A trace extended by emitting `a` and then one more section `s` has been extended by emitting `a + [s]`. */
  lemma EmitThenOne(first: bool, sep: string, a: seq<Section>, s: Section, t0: seq<Event>, t1: seq<Event>, t2: seq<Event>)
    requires t1 == t0 + Emit(first, sep, a)
    requires t2 == t1 + (if first && a == [] then [] else [Space(sep)]) + [Content(s)]
    ensures t2 == t0 + Emit(first, sep, a + [s])
  {
    EmitSnoc(first, sep, a, s);
  }

  /** Opening one more section and writing its content extends the trace by the separator (unless first) and the content. */
  lemma EmitSnoc(first: bool, sep: string, a: seq<Section>, s: Section)
    ensures Emit(first, sep, a + [s])
         == Emit(first, sep, a) + (if first && a == [] then [] else [Space(sep)]) + [Content(s)]
  {
    EmitAppend(first, sep, a, [s]);
    assert Emit(first && a == [], sep, [s]) == (if first && a == [] then [] else [Space(sep)]) + [Content(s)] by {
      assert [s][1..] == [];
    }
  }

  /** After the first section, every section is preceded by exactly one separator. */
  lemma {:induction false} EmitAfterFirstShape(sep: string, ss: seq<Section>)
    ensures |Emit(false, sep, ss)| == 2 * |ss|
    ensures forall i :: 0 <= i < 2 * |ss| ==>
      Emit(false, sep, ss)[i] == if i % 2 == 0 then Space(sep) else Content(ss[i / 2])
    decreases |ss|
  {
    if ss != [] {
      EmitAfterFirstShape(sep, ss[1..]);
      var r := Emit(false, sep, ss);
      assert r == [Space(sep), Content(ss[0])] + Emit(false, sep, ss[1..]);
      forall i | 2 <= i < 2 * |ss| ensures r[i] == if i % 2 == 0 then Space(sep) else Content(ss[i / 2]) {
        assert r[i] == Emit(false, sep, ss[1..])[i - 2];
        assert ss[1..][(i - 2) / 2] == ss[i / 2];
      }
    }
  }

  /**
   * Separator placement: the trace alternates content and separator, starts
   * and ends with content, and holds exactly one separator between each two
   * consecutive sections, so |ss| - 1 separators in all.
   */
  lemma SeparatorPlacement(ss: seq<Section>, sep: string)
    ensures |Render(ss, sep)| == if ss == [] then 0 else 2 * |ss| - 1
    ensures forall i :: 0 <= i < |Render(ss, sep)| ==>
      Render(ss, sep)[i] == if i % 2 == 0 then Content(ss[i / 2]) else Space(sep)
    ensures ss != [] ==> Render(ss, sep)[0] == Content(ss[0])
    ensures ss != [] ==> Render(ss, sep)[|Render(ss, sep)| - 1] == Content(ss[|ss| - 1])
  {
    if ss != [] {
      var r := Render(ss, sep);
      EmitAfterFirstShape(sep, ss[1..]);
      assert r == [Content(ss[0])] + Emit(false, sep, ss[1..]);
      forall i | 1 <= i < |r| ensures r[i] == if i % 2 == 0 then Content(ss[i / 2]) else Space(sep) {
        assert r[i] == Emit(false, sep, ss[1..])[i - 1];
        if i % 2 == 0 {
          assert ss[1..][(i - 1) / 2] == ss[i / 2];
        }
      }
    }
  }

  /** Recovers the sections from a trace by reading every other call. */
  function Unrender(es: seq<Event>): seq<Section>
    decreases |es|
  {
    if es == [] then []
    else [SectionOf(es[0])] + Unrender(if |es| >= 2 then es[2..] else [])
  }

  /** The trace determines the sections: reading every other call gives them back. */
  lemma {:induction false} RenderRoundTrip(ss: seq<Section>, sep: string)
    ensures Unrender(Render(ss, sep)) == ss
    decreases |ss|
  {
    if ss != [] {
      var r := Render(ss, sep);
      RenderRoundTrip(ss[1..], sep);
      assert SectionOf(Content(ss[0])) == ss[0] by {
        match ss[0]
        case TextSection(_) =>
        case FileSection(_) =>
      }
      if |ss| == 1 {
        assert r == [Content(ss[0])];
      } else {
        var rest := ss[1..];
        assert Emit(false, sep, rest) == [Space(sep)] + Render(rest, sep);
        assert r[2..] == Render(rest, sep);
      }
    }
  }

  /** The paths of the `File` calls of a trace, in order. */
  function FilesOf(es: seq<Event>): seq<string>
    decreases |es|
  {
    if es == [] then []
    else (if es[0].File? then [es[0].path] else []) + FilesOf(es[1..])
  }

  /** The paths of the file sections, in order. */
  function PathsOf(ss: seq<Section>): seq<string>
    decreases |ss|
  {
    if ss == [] then []
    else (if ss[0].FileSection? then [ss[0].path] else []) + PathsOf(ss[1..])
  }

  lemma {:induction false} FilesOfAppend(a: seq<Event>, b: seq<Event>)
    ensures FilesOf(a + b) == FilesOf(a) + FilesOf(b)
    decreases |a|
  {
    if a == [] {
      assert a + b == b;
    } else {
      assert (a + b)[1..] == a[1..] + b;
      FilesOfAppend(a[1..], b);
    }
  }

  lemma {:induction false} PathsOfAppend(a: seq<Section>, b: seq<Section>)
    ensures PathsOf(a + b) == PathsOf(a) + PathsOf(b)
    decreases |a|
  {
    if a == [] {
      assert a + b == b;
    } else {
      assert (a + b)[1..] == a[1..] + b;
      PathsOfAppend(a[1..], b);
    }
  }

  /** Separators add no files: the files written are exactly the file sections, in order. */
  lemma {:induction false} EmitFiles(first: bool, sep: string, ss: seq<Section>)
    ensures FilesOf(Emit(first, sep, ss)) == PathsOf(ss)
    decreases |ss|
  {
    if ss != [] {
      EmitFiles(false, sep, ss[1..]);
      var head := (if first then [] else [Space(sep)]) + [Content(ss[0])];
      FilesOfAppend(head, Emit(false, sep, ss[1..]));
      assert FilesOf(head) == (if ss[0].FileSection? then [ss[0].path] else []) by {
        if !first {
          assert head[1..] == [Content(ss[0])];
        }
        assert [Content(ss[0])][1..] == [];
      }
    }
  }

  /**
   * The concatenation strategy. Its real counterpart accumulates file
   * contents and source-map data; here it records each call.
   */
  class Strategy {
    const outputFile: string
    const baseDir: string
    var events: seq<Event>

    constructor (outputFile: string, baseDir: string)
      ensures this.outputFile == outputFile && this.baseDir == baseDir
      ensures events == []
    {
      this.outputFile := outputFile;
      this.baseDir := baseDir;
      events := [];
    }

    /** Appends literal text. */
    method AddSpace(text: string)
      modifies this
      ensures events == old(events) + [Space(text)]
    {
      events := events + [Space(text)];
    }

    /** Appends the file at `path`, relative to `baseDir`. */
    method AddFile(path: string)
      modifies this
      ensures events == old(events) + [File(path)]
    {
      events := events + [File(path)];
    }
  }
}
