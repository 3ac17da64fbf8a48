/** The parts of Python's `str` that the text tools share. */
module PythonText {
  import opened Wrappers

  /** `str.isspace` on one character; also what `\s` matches and `strip` removes. */
  predicate IsSpace(c: char) {
    || '\U{0009}' <= c <= '\U{000D}'
    || '\U{001C}' <= c <= '\U{0020}'
    || c == '\U{0085}' || c == '\U{00A0}' || c == '\U{1680}'
    || '\U{2000}' <= c <= '\U{200A}'
    || c == '\U{2028}' || c == '\U{2029}' || c == '\U{202F}'
    || c == '\U{205F}' || c == '\U{3000}'
  }

  predicate AreSpaces(s: string) {
    forall i :: 0 <= i < |s| ==> IsSpace(s[i])
  }

  // ----- `startswith`, `endswith`, `find` -----

  predicate StartsWith(s: string, p: string) {
    |p| <= |s| && s[..|p|] == p
  }

  predicate EndsWith(s: string, p: string) {
    |p| <= |s| && s[|s| - |p|..] == p
  }

  lemma AppendStarts(p: string, r: string)
    ensures StartsWith(p + r, p) && (p + r)[|p|..] == r
  {
  }

  lemma AppendEnds(r: string, p: string)
    ensures EndsWith(r + p, p) && (r + p)[..|r|] == r
  {
  }

  lemma Glue(a: string, b: string, c: string)
    ensures a + (b + c) == (a + b) + c
  {
  }

  lemma PrefixAt(e: string, p: string, i: nat)
    requires StartsWith(e, p) && i < |p|
    ensures e[i] == p[i]
  {
    assert e[..|p|][i] == e[i];
  }

  lemma OtherHead(e: string, p: string, i: nat)
    requires i < |p| && i < |e| && e[i] != p[i]
    ensures !StartsWith(e, p)
  {
    if StartsWith(e, p) {
      PrefixAt(e, p, i);
    }
  }

  /** The first place at which `p` starts. */
  function Find(s: string, p: string): (r: Option<nat>)
    ensures r.Some? ==> r.value + |p| <= |s|
  {
    if StartsWith(s, p) then Some(0)
    else if s == [] then None
    else
      var rest := Find(s[1..], p);
      if rest.None? then None else Some(rest.value + 1)
  }

  // ----- `in` and `replace` -----

  /** `p in s` */
  predicate Has(s: string, p: string) {
    Find(s, p).Some?
  }

  lemma {:induction false} FirstFound(s: string, p: string)
    ensures var at := Find(s, p);
            && (at.Some? ==> StartsWith(s[at.value..], p))
            && forall j :: 0 <= j <= |s| && (at.Some? ==> j < at.value) ==> !StartsWith(s[j..], p)
  {
    assert s[0..] == s;
    if !StartsWith(s, p) && s != [] {
      FirstFound(s[1..], p);
      forall j | 1 <= j <= |s| ensures s[j..] == s[1..][j - 1..] {
      }
    }
  }

  lemma OccursAt(s: string, p: string, j: nat)
    requires j <= |s| && StartsWith(s[j..], p)
    ensures Has(s, p)
  {
    FirstFound(s, p);
  }

  lemma HasInPart(a: string, b: string, c: string, p: string)
    requires Has(b, p)
    ensures Has(a + b + c, p)
  {
    FirstFound(b, p);
    var at, s := Find(b, p).value, a + b + c;
    assert s[|a| + at..][..|p|] == b[at..][..|p|];
    OccursAt(s, p, |a| + at);
  }

  /** An occurrence in two texts put together lies in one of them or across the border. */
  lemma Crossing(a: string, b: string, p: string)
    requires Has(a + b, p)
    ensures Has(a, p) || Has(b, p) || (a != [] && b != [] && a[|a| - 1] in p && b[0] in p)
  {
    FirstFound(a + b, p);
    var at, s := Find(a + b, p).value, a + b;
    assert s[at..][..|p|] == p;
    if at + |p| <= |a| {
      assert a[at..][..|p|] == s[at..][..|p|];
      OccursAt(a, p, at);
    } else if at >= |a| {
      assert b[at - |a|..][..|p|] == s[at..][..|p|];
      OccursAt(b, p, at - |a|);
    } else {
      assert p[|a| - 1 - at] == s[|a| - 1] == a[|a| - 1];
      assert p[|a| - at] == s[|a|] == b[0];
    }
  }

  /** The replacement shares no character with what it replaces. */
  predicate SharesNothing(p: string, r: string) {
    forall i :: 0 <= i < |r| ==> r[i] !in p
  }

  /** What occurs in a beginning occurs at most that far into the text. */
  lemma FoundEarly(s: string, n: nat, p: string)
    requires n <= |s| && Has(s[..n], p)
    ensures Has(s, p) && Find(s, p).value + |p| <= n
  {
    FirstFound(s[..n], p);
    var j := Find(s[..n], p).value;
    assert s[j..][..|p|] == s[..n][j..][..|p|];
    FirstFound(s, p);
  }

  lemma BeforeFirst(s: string, p: string)
    requires p != [] && Has(s, p)
    ensures !Has(s[..Find(s, p).value], p)
  {
    if Has(s[..Find(s, p).value], p) {
      FoundEarly(s, Find(s, p).value, p);
    }
  }

  lemma ApartIsNotFound(p: string, r: string)
    requires p != [] && SharesNothing(p, r)
    ensures !Has(r, p)
  {
    FirstFound(r, p);
    forall at | 0 <= at < |r| ensures !StartsWith(r[at..], p) {
      assert r[at..][0] == r[at];
      assert |r[at..]| >= |p| ==> r[at..][..|p|][0] == r[at] != p[0];
    }
  }

  lemma Between(a: string, r: string, b: string, p: string)
    requires p != [] && r != [] && SharesNothing(p, r) && !Has(a, p) && !Has(b, p)
    ensures !Has(a + r + b, p)
  {
    ApartIsNotFound(p, r);
    assert (a + r)[|a + r| - 1] == r[|r| - 1];
    assert r[|r| - 1] !in p && r[0] !in p;
    if Has(a + r + b, p) {
      Crossing(a + r, b, p);
      Crossing(a, r, p);
    }
  }

  lemma PartsHaveNone(s: string, n: nat, p: string)
    requires n <= |s| && !Has(s, p)
    ensures !Has(s[..n], p) && !Has(s[n..], p)
  {
    assert s[..n] + s[n..] + [] == s;
    if Has(s[..n], p) {
      FoundEarly(s, n, p);
    }
    if Has(s[n..], p) {
      HasInPart(s[..n], s[n..], [], p);
    }
  }

  /** `s.replace(p, r)` */
  function Replace(s: string, p: string, r: string): string
    requires p != []
    decreases |s|
  {
    var at := Find(s, p);
    if at.None? then s else s[..at.value] + r + Replace(s[at.value + |p|..], p, r)
  }

  // ----- `strip` -----

  /** Length of the longest prefix of whitespace. */
  function SpaceRun(s: string): (n: nat)
    ensures n <= |s|
  {
    if s == [] || !IsSpace(s[0]) then 0 else 1 + SpaceRun(s[1..])
  }

  /** `s.lstrip()` */
  function StripLeft(s: string): (r: string)
    ensures |r| <= |s|
    ensures s != [] && IsSpace(s[0]) ==> |r| < |s|
  {
    s[SpaceRun(s)..]
  }

  function StripRight(s: string): (r: string)
    ensures |r| <= |s|
  {
    if s != [] && IsSpace(s[|s| - 1]) then StripRight(s[..|s| - 1]) else s
  }

  /** `s.strip()` */
  function Strip(s: string): (r: string)
    ensures |r| <= |s|
  {
    StripRight(StripLeft(s))
  }

  // ----- `splitlines` -----

  /** What `str.splitlines` breaks at besides the line feed. */
  predicate IsOtherBreak(c: char) {
    || c == '\r' || c == '\U{0B}' || c == '\U{0C}' || '\U{1C}' <= c <= '\U{1E}'
    || c == '\U{85}' || c == '\U{2028}' || c == '\U{2029}'
  }

  /** A break that is not the first half of a carriage return and line feed. */
  predicate IsStrayAt(s: string, i: nat)
    requires i < |s|
  {
    IsOtherBreak(s[i]) && !(s[i] == '\r' && i + 1 < |s| && s[i + 1] == '\n')
  }

  /** A line ends behind index `i`: at line feeds only, or wherever `splitlines` breaks. */
  predicate EndsAt(s: string, feedsOnly: bool, i: nat)
    requires i < |s|
  {
    s[i] == '\n' || (!feedsOnly && IsStrayAt(s, i))
  }

  /** The length of the first line from index `i` on, its end included. */
  function LineEnd(s: string, feedsOnly: bool, i: nat): (n: nat)
    requires i < |s|
    ensures i < n <= |s|
    decreases |s| - i
  {
    if EndsAt(s, feedsOnly, i) || i + 1 == |s| then i + 1 else LineEnd(s, feedsOnly, i + 1)
  }

  /** The lines with their ends kept: `splitlines(keepends=True)`, or what `readline` returns. */
  function Lines(s: string, feedsOnly: bool): seq<string> {
    if s == [] then []
    else
      var n := LineEnd(s, feedsOnly, 0);
      [s[..n]] + Lines(s[n..], feedsOnly)
  }

  function Concat(lines: seq<string>): string {
    if lines == [] then [] else lines[0] + Concat(lines[1..])
  }

  lemma {:induction false} LinesMakeText(s: string, feedsOnly: bool)
    ensures Concat(Lines(s, feedsOnly)) == s
  {
    if s != [] {
      LinesMakeText(s[LineEnd(s, feedsOnly, 0)..], feedsOnly);
    }
  }
}
