/**
 * The JavaScript and lodash built-ins the concatenation engine relies on,
 * each specified by its effect: `String.prototype.replace` with a string
 * pattern (with `IndexOf`, the search for the occurrence it removes),
 * `split`/`join` with a one-character separator, and lodash `uniq`.
 */
module JsBuiltins {
  import opened Wrappers

  /** `pat` occurs in `s` starting at position `i`. */
  predicate OccursAt(s: string, pat: string, i: nat) {
    i + |pat| <= |s| && s[i..i + |pat|] == pat
  }

  /** The first position at or after `from` where `pat` occurs in `s`. */
  function IndexOfFrom(s: string, pat: string, from: nat): (r: Option<nat>)
    ensures r.Some? ==> from <= r.value && OccursAt(s, pat, r.value)
    ensures r.Some? ==> forall j: nat :: from <= j < r.value ==> !OccursAt(s, pat, j)
    ensures r.None? ==> forall j: nat :: from <= j ==> !OccursAt(s, pat, j)
    decreases |s| - from
  {
    if from + |pat| > |s| then None
    else if s[from..from + |pat|] == pat then Some(from)
    else IndexOfFrom(s, pat, from + 1)
  }

  /** `s.indexOf(pat)`, with `None` for JavaScript's -1. */
  function IndexOf(s: string, pat: string): (r: Option<nat>)
    ensures r.Some? ==> OccursAt(s, pat, r.value)
    ensures r.Some? ==> forall j: nat :: j < r.value ==> !OccursAt(s, pat, j)
    ensures r.None? ==> forall j: nat :: !OccursAt(s, pat, j)
  {
    IndexOfFrom(s, pat, 0)
  }

  /**
   * `s.replace(pat, '')` with a string pattern: only the FIRST occurrence of
   * `pat` is removed, wherever it stands; without one, `s` is unchanged.
   */
  function RemoveFirst(s: string, pat: string): (r: string)
    ensures (forall j: nat :: !OccursAt(s, pat, j)) ==> r == s
    ensures forall i: nat :: OccursAt(s, pat, i) && (forall j: nat :: j < i ==> !OccursAt(s, pat, j)) ==>
      r == s[..i] + s[i + |pat|..]
    ensures OccursAt(s, pat, 0) ==> r == s[|pat|..]
    ensures forall j: nat :: OccursAt(s, pat, j) ==> |r| == |s| - |pat|
  {
    match IndexOf(s, pat)
    case None => s
    case Some(i) => s[..i] + s[i + |pat|..]
  }

  /** The pattern is removed where it first occurs, even inside the string: `"a/r/x".replace("r/", "")` is `"a/x"`. */
  lemma RemoveFirstInside()
    ensures RemoveFirst("a/r/x", "r/") == "a/x"
  {
    var s := "a/r/x";
    assert s[0..2] != "r/" by { assert s[0..2][0] == 'a'; }
    assert s[1..3] != "r/" by { assert s[1..3][0] == '/'; }
    assert forall j: nat :: j < 2 ==> !OccursAt(s, "r/", j);
    assert OccursAt(s, "r/", 2);
    assert s[..2] == "a/" && s[4..] == "x";
    assert s[..2] + s[4..] == "a/x";
  }

  /** Removing a common prefix loses nothing: two strings that both start with `pat` and agree after removal are equal. */
  lemma RemoveFirstPrefixInjective(a: string, b: string, pat: string)
    requires OccursAt(a, pat, 0) && OccursAt(b, pat, 0)
    requires RemoveFirst(a, pat) == RemoveFirst(b, pat)
    ensures a == b
  {
    assert a == a[..|pat|] + a[|pat|..];
    assert b == b[..|pat|] + b[|pat|..];
  }

  /** `s.split(c)`: the pieces between the occurrences of `c`; never empty (`"".split(c)` is `[""]`). */
  function Split(s: string, c: char): (parts: seq<string>)
    ensures |parts| >= 1
    ensures forall k :: 0 <= k < |parts| ==> c !in parts[k]
    decreases |s|
  {
    if s == [] then [[]]
    else
      var rest := Split(s[1..], c);
      if s[0] == c then [[]] + rest else [[s[0]] + rest[0]] + rest[1..]
  }

  /** `parts.join(d)`. */
  function Join(parts: seq<string>, d: string): string
    decreases |parts|
  {
    if |parts| == 0 then []
    else if |parts| == 1 then parts[0]
    else parts[0] + d + Join(parts[1..], d)
  }

  lemma JoinExtendHead(x: char, parts: seq<string>, d: string)
    requires |parts| >= 1
    ensures Join([[x] + parts[0]] + parts[1..], d) == [x] + Join(parts, d)
  {
    var p := [[x] + parts[0]] + parts[1..];
    assert p[1..] == parts[1..];
  }

  /** `s.split(c).join(d)` replaces every `c` in `s` by `d` and keeps every other character in place. */
  lemma {:induction false} JoinSplitReplaces(s: string, c: char, d: char)
    ensures |Join(Split(s, c), [d])| == |s|
    ensures forall i :: 0 <= i < |s| ==> Join(Split(s, c), [d])[i] == if s[i] == c then d else s[i]
    decreases |s|
  {
    if s != [] {
      JoinSplitReplaces(s[1..], c, d);
      var rest := Split(s[1..], c);
      var r := Join(Split(s, c), [d]);
      if s[0] == c {
        assert ([[]] + rest)[1..] == rest;
        assert r == [d] + Join(rest, [d]);
      } else {
        JoinExtendHead(s[0], rest, [d]);
        assert r == [s[0]] + Join(rest, [d]);
      }
      forall i | 0 <= i < |s| ensures r[i] == if s[i] == c then d else s[i] {
        if i > 0 {
          assert s[1..][i - 1] == s[i];
        }
      }
    }
  }

  /** No element of `s` appears twice. */
  predicate NoDuplicates<T(==)>(s: seq<T>) {
    forall i, j :: 0 <= i < j < |s| ==> s[i] != s[j]
  }

  /** The position of the first occurrence of `x` in `s`. */
  function FirstIndex<T(==)>(s: seq<T>, x: T): (k: nat)
    requires x in s
    ensures k < |s| && s[k] == x
    ensures forall j :: 0 <= j < k ==> s[j] != x
  {
    if s[0] == x then 0 else 1 + FirstIndex(s[1..], x)
  }

  /**
   * Every element of `r` occurs in `s`, and `r` lists them in the order of
   * their first occurrences in `s` (so `r` is a subsequence of `s` when it
   * has no duplicates).
   */
  ghost predicate InFirstOccurrenceOrder<T>(r: seq<T>, s: seq<T>) {
    && (forall i :: 0 <= i < |r| ==> r[i] in s)
    && forall i, j :: 0 <= i < j < |r| ==> FirstIndex(s, r[i]) < FirstIndex(s, r[j])
  }

  /** lodash `uniq`: the distinct elements of `s`, each kept at its first occurrence. */
  function Uniq<T(==)>(s: seq<T>): (r: seq<T>)
    ensures forall i :: 0 <= i < |r| ==> r[i] in s
    ensures forall i :: 0 <= i < |s| ==> s[i] in r
    ensures NoDuplicates(r)
    decreases |s|
  {
    if s == [] then []
    else
      assert s == s[..|s| - 1] + [s[|s| - 1]];
      var u := Uniq(s[..|s| - 1]);
      if s[|s| - 1] in u then u else u + [s[|s| - 1]]
  }

  /** A non-empty sequence is its prefix followed by its last element. */
  lemma SnocLast<T>(s: seq<T>)
    requires s != []
    ensures s == s[..|s| - 1] + [s[|s| - 1]]
  {
  }

  /** A list without repeats is its own deduplication. */
  lemma {:induction false} UniqDistinct<T>(s: seq<T>)
    requires NoDuplicates(s)
    ensures Uniq(s) == s
    decreases |s|
  {
    if s != [] {
      var init := s[..|s| - 1];
      UniqDistinct(init);
      assert s[|s| - 1] !in init;
      assert s == init + [s[|s| - 1]];
    }
  }

  /** Extending `s` does not move the first occurrence of anything already in it. */
  lemma FirstIndexExtend<T>(s: seq<T>, y: T, x: T)
    requires x in s
    ensures FirstIndex(s + [y], x) == FirstIndex(s, x)
  {
    var a, b := FirstIndex(s + [y], x), FirstIndex(s, x);
    assert (s + [y])[b] == x;
  }

  /** An order established against `s` survives appending to `s`. */
  lemma OrderExtend<T>(r: seq<T>, s: seq<T>, y: T)
    requires InFirstOccurrenceOrder(r, s)
    ensures InFirstOccurrenceOrder(r, s + [y])
  {
    forall x | x in s ensures FirstIndex(s + [y], x) == FirstIndex(s, x) {
      FirstIndexExtend(s, y, x);
    }
  }

  /** A new element appended to both sequences keeps the order. */
  lemma OrderAppendNew<T>(r: seq<T>, s: seq<T>, y: T)
    requires InFirstOccurrenceOrder(r, s)
    requires y !in s
    ensures InFirstOccurrenceOrder(r + [y], s + [y])
  {
    OrderExtend(r, s, y);
    var r', s' := r + [y], s + [y];
    assert FirstIndex(s', y) == |s| by {
      assert s'[|s|] == y;
    }
    forall i, j | 0 <= i < j < |r'| ensures FirstIndex(s', r'[i]) < FirstIndex(s', r'[j]) {
      if j == |r| {
        assert r'[i] == r[i];
        assert r[i] in s;
        FirstIndexExtend(s, y, r[i]);
      } else {
        assert r'[i] == r[i] && r'[j] == r[j];
      }
    }
  }

  /** Order is transitive: if `a` follows the first occurrences in `b`, and `b` those in `c`, then `a` follows those in `c`. */
  lemma OrderTransitive<T>(a: seq<T>, b: seq<T>, c: seq<T>)
    requires InFirstOccurrenceOrder(a, b)
    requires InFirstOccurrenceOrder(b, c)
    ensures InFirstOccurrenceOrder(a, c)
  {
    forall i | 0 <= i < |a| ensures a[i] in c {
      assert b[FirstIndex(b, a[i])] == a[i];
    }
    forall i, j | 0 <= i < j < |a| ensures FirstIndex(c, a[i]) < FirstIndex(c, a[j]) {
      var p, q := FirstIndex(b, a[i]), FirstIndex(b, a[j]);
      assert b[p] == a[i] && b[q] == a[j];
    }
  }

  /** `uniq` keeps the first-occurrence order of its input and never re-sorts. */
  lemma {:induction false} UniqFirstOccurrenceOrder<T>(s: seq<T>)
    ensures InFirstOccurrenceOrder(Uniq(s), s)
    decreases |s|
  {
    if s != [] {
      var p, y := s[..|s| - 1], s[|s| - 1];
      assert s == p + [y];
      UniqFirstOccurrenceOrder(p);
      if y in Uniq(p) {
        OrderExtend(Uniq(p), p, y);
      } else {
        OrderAppendNew(Uniq(p), p, y);
      }
    }
  }
}
