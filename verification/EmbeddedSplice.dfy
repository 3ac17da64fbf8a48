/** Replacing string literals in a Python file: offsets of lines and columns
    (`line_offsets`, `absolute_offset`) and the splice from right to left. */
module EmbeddedSplice {
  import opened PythonText

  // ----- lines -----

  function OffsetsFrom(lines: seq<string>, base: nat): (r: seq<nat>)
    ensures |r| == |lines| + 1 && r[0] == base
  {
    if lines == [] then [base] else [base] + OffsetsFrom(lines[1..], base + |lines[0]|)
  }

  method LineOffsets(source: string) returns (offsets: seq<nat>)
    ensures offsets == OffsetsFrom(Lines(source, false), 0)
  {
    var lines := Lines(source, false);
    offsets := [0];
    var i := 0;
    while i < |lines|
      invariant 0 <= i <= |lines| && |offsets| == i + 1
      invariant offsets[..i] + OffsetsFrom(lines[i..], offsets[i]) == OffsetsFrom(lines, 0)
    {
      assert lines[i..][1..] == lines[i + 1..];
      OneMoreOffset(offsets, OffsetsFrom(lines[i + 1..], offsets[i] + |lines[i]|));
      offsets := offsets + [offsets[i] + |lines[i]|];
      i := i + 1;
    }
    assert offsets[..i] + [offsets[i]] == offsets;
  }

  lemma OneMoreOffset(offsets: seq<nat>, rest: seq<nat>)
    requires offsets != [] && rest != []
    ensures var n := |offsets| - 1;
            offsets[..n] + ([offsets[n]] + rest) == (offsets + [rest[0]])[..n + 1] + rest
  {
  }

  /** Line `k` of a list of lines stands in their text at offset `k`. */
  lemma {:induction false} OffsetIsPlace(lines: seq<string>, base: nat, k: nat, column: nat)
    requires k < |lines| && column < |lines[k]|
    ensures var at := OffsetsFrom(lines, base)[k] + column - base;
            0 <= at < |Concat(lines)| && Concat(lines)[at] == lines[k][column]
  {
    if k > 0 {
      OffsetIsPlace(lines[1..], base + |lines[0]|, k - 1, column);
      BaseIsLeast(lines[1..], base + |lines[0]|, k - 1);
    }
  }

  lemma {:induction false} BaseIsLeast(lines: seq<string>, base: nat, k: nat)
    requires k <= |lines|
    ensures OffsetsFrom(lines, base)[k] >= base
  {
    if k > 0 {
      BaseIsLeast(lines[1..], base + |lines[0]|, k - 1);
    }
  }

  // ----- when both ways of counting lines agree -----

  /** A stray break with text behind it. */
  predicate HasStray(s: string) {
    HasStrayBefore(s, |s| - 1)
  }

  predicate HasStrayBefore(s: string, n: int)
    requires n <= |s|
  {
    exists i :: 0 <= i < n && IsStrayAt(s, i)
  }

  lemma {:induction false} SameEnd(s: string, i: nat)
    requires i < |s| && !HasStrayBefore(s, LineEnd(s, true, i) - 1)
    ensures LineEnd(s, false, i) == LineEnd(s, true, i)
    decreases |s| - i
  {
    if s[i] != '\n' && i + 1 < |s| {
      assert !IsStrayAt(s, i);
      SameEnd(s, i + 1);
    }
  }

  lemma {:induction false} EarlierEnd(s: string, i: nat, j: nat)
    requires i <= j < |s| - 1 && j < LineEnd(s, true, i) - 1 && IsStrayAt(s, j)
    ensures LineEnd(s, false, i) <= j + 1
    decreases |s| - i
  {
    if i < j && !EndsAt(s, false, i) {
      EarlierEnd(s, i + 1, j);
    }
  }

  lemma {:induction false} FeedEnds(s: string, i: nat)
    requires i < |s| && LineEnd(s, true, i) < |s|
    ensures s[LineEnd(s, true, i) - 1] == '\n'
    decreases |s| - i
  {
    if s[i] != '\n' && i + 1 < |s| {
      FeedEnds(s, i + 1);
    }
  }

  /** Stray breaks of a text are those within its first line and those of the rest. */
  lemma StrayInParts(s: string, n: nat)
    requires 0 < n <= |s| && (n < |s| ==> s[n - 1] == '\n')
    ensures HasStray(s) <==> HasStrayBefore(s, n - 1) || HasStray(s[n..])
  {
    if HasStray(s) {
      var i :| 0 <= i < |s| - 1 && IsStrayAt(s, i);
      if i >= n {
        assert IsStrayAt(s[n..], i - n);
      }
    }
    if HasStray(s[n..]) {
      var i :| 0 <= i < |s[n..]| - 1 && IsStrayAt(s[n..], i);
      assert IsStrayAt(s, n + i);
    }
  }

  /** The offsets used for tokens are those of the lines the tokenizer counts exactly when no
      other line break has text behind it. */
  lemma {:induction false} OffsetsAgree(s: string, base: nat)
    ensures OffsetsFrom(Lines(s, false), base) == OffsetsFrom(Lines(s, true), base) <==> !HasStray(s)
    decreases |s|
  {
    if s != [] {
      var n := LineEnd(s, true, 0);
      if n < |s| {
        FeedEnds(s, 0);
      }
      StrayInParts(s, n);
      if HasStrayBefore(s, n - 1) {
        OffsetsDiffer(s, base);
      } else {
        OffsetsStep(s, base);
        OffsetsAgree(s[n..], base + n);
      }
    }
  }

  lemma OffsetsDiffer(s: string, base: nat)
    requires s != [] && HasStrayBefore(s, LineEnd(s, true, 0) - 1)
    ensures OffsetsFrom(Lines(s, false), base) != OffsetsFrom(Lines(s, true), base)
  {
    var j :| 0 <= j < LineEnd(s, true, 0) - 1 && IsStrayAt(s, j);
    EarlierEnd(s, 0, j);
    FirstLine(s, false);
    FirstLine(s, true);
    DifferentOffsets(Lines(s, false), Lines(s, true), base);
  }

  lemma OffsetsStep(s: string, base: nat)
    requires s != [] && !HasStrayBefore(s, LineEnd(s, true, 0) - 1)
    ensures var n := LineEnd(s, true, 0);
            OffsetsFrom(Lines(s, false), base) == OffsetsFrom(Lines(s, true), base)
            <==> OffsetsFrom(Lines(s[n..], false), base + n) == OffsetsFrom(Lines(s[n..], true), base + n)
  {
    SameEnd(s, 0);
    FirstLine(s, false);
    FirstLine(s, true);
    SameOffsets(Lines(s, false), Lines(s, true), base);
  }

  lemma FirstLine(s: string, feedsOnly: bool)
    requires s != []
    ensures var n, lines := LineEnd(s, feedsOnly, 0), Lines(s, feedsOnly);
            lines != [] && lines[0] == s[..n] && lines[1..] == Lines(s[n..], feedsOnly)
  {
  }

  lemma DifferentOffsets(a: seq<string>, b: seq<string>, base: nat)
    requires a != [] && b != [] && |a[0]| != |b[0]|
    ensures OffsetsFrom(a, base) != OffsetsFrom(b, base)
  {
    assert OffsetsFrom(a, base)[1] == base + |a[0]| && OffsetsFrom(b, base)[1] == base + |b[0]|;
  }

  lemma SameOffsets(a: seq<string>, b: seq<string>, base: nat)
    requires a != [] && b != [] && |a[0]| == |b[0]|
    ensures OffsetsFrom(a, base) == OffsetsFrom(b, base)
       <==> OffsetsFrom(a[1..], base + |a[0]|) == OffsetsFrom(b[1..], base + |a[0]|)
  {
    assert OffsetsFrom(a, base)[1..] == OffsetsFrom(a[1..], base + |a[0]|);
    assert OffsetsFrom(b, base)[1..] == OffsetsFrom(b[1..], base + |a[0]|);
  }

  // ----- positions -----

  /** `absolute_offset` */
  function AbsoluteOffset(offsets: seq<nat>, line: nat, column: nat): nat
    requires 0 < line <= |offsets|
  {
    offsets[line - 1] + column
  }

  /** Where the tokenizer's line starts, and the column behind it. */
  function PlaceOf(s: string, line: nat, column: nat): nat
    requires 0 < line <= |Lines(s, true)|
  {
    OffsetsFrom(Lines(s, true), 0)[line - 1] + column
  }

  /** The place of a position holds the character the tokenizer sees there. */
  lemma PlaceHoldsCharacter(s: string, line: nat, column: nat)
    requires 0 < line <= |Lines(s, true)| && column < |Lines(s, true)[line - 1]|
    ensures PlaceOf(s, line, column) < |s| && s[PlaceOf(s, line, column)] == Lines(s, true)[line - 1][column]
  {
    LinesMakeText(s, true);
    OffsetIsPlace(Lines(s, true), 0, line - 1, column);
  }

  /** A stray break before a line feed that has text behind it. */
  predicate MovesLines(s: string) {
    exists i, j :: 0 <= i < j < |s| - 1 && IsStrayAt(s, i) && s[j] == '\n'
  }

  /** Every line of `b` starts where the line of `a` with the same number does. */
  predicate StartAlike(a: seq<string>, b: seq<string>) {
    if |b| <= 1 then |b| <= |a|
    else a != [] && |a[0]| == |b[0]| && StartAlike(a[1..], b[1..])
  }

  lemma {:induction false} StartsAreOffsets(a: seq<string>, b: seq<string>, base: nat)
    requires |b| <= |a|
    ensures StartAlike(a, b) <==> AgreeBelow(OffsetsFrom(a, base), OffsetsFrom(b, base), |b|)
  {
    if |b| > 1 {
      var x, y := OffsetsFrom(a, base), OffsetsFrom(b, base);
      assert x[1] == base + |a[0]| && y[1] == base + |b[0]|;
      if |a[0]| == |b[0]| {
        StartsAreOffsets(a[1..], b[1..], base + |a[0]|);
        StartsBehind(x, y, OffsetsFrom(a[1..], base + |a[0]|), OffsetsFrom(b[1..], base + |a[0]|), |b|);
      }
    }
  }

  lemma {:induction false} LinesStartAlike(s: string)
    ensures StartAlike(Lines(s, false), Lines(s, true)) <==> !MovesLines(s)
    decreases |s|
  {
    if s != [] {
      var n := LineEnd(s, true, 0);
      if n == |s| {
        OneLineOnly(s);
      } else if HasStrayBefore(s, n - 1) {
        SecondStartsDiffer(s);
      } else {
        FeedEnds(s, 0);
        StrayBehindFirst(s, n);
        FirstIsAlike(s);
        LinesStartAlike(s[n..]);
      }
    }
  }

  lemma OneLineOnly(s: string)
    requires s != [] && LineEnd(s, true, 0) == |s|
    ensures StartAlike(Lines(s, false), Lines(s, true)) && !MovesLines(s)
  {
    FirstLine(s, false);
    FirstLine(s, true);
    FeedIsLast(s, 0);
    assert Lines(s[|s|..], true) == [];
  }

  lemma FirstIsAlike(s: string)
    requires s != [] && LineEnd(s, true, 0) < |s| && !HasStrayBefore(s, LineEnd(s, true, 0) - 1)
    ensures var n := LineEnd(s, true, 0);
            StartAlike(Lines(s, false), Lines(s, true))
            <==> StartAlike(Lines(s[n..], false), Lines(s[n..], true))
  {
    var n := LineEnd(s, true, 0);
    SameEnd(s, 0);
    FirstLine(s, false);
    FirstLine(s, true);
    FirstLine(s[n..], true);
  }

  lemma {:induction false} FeedIsLast(s: string, i: nat)
    requires i < |s| && LineEnd(s, true, i) == |s|
    ensures forall j :: i <= j < |s| - 1 ==> s[j] != '\n'
    decreases |s| - i
  {
    if s[i] != '\n' && i + 1 < |s| {
      FeedIsLast(s, i + 1);
    }
  }

  lemma SecondStartsDiffer(s: string)
    requires s != [] && LineEnd(s, true, 0) < |s| && HasStrayBefore(s, LineEnd(s, true, 0) - 1)
    ensures !StartAlike(Lines(s, false), Lines(s, true)) && MovesLines(s)
  {
    var n := LineEnd(s, true, 0);
    var j :| 0 <= j < n - 1 && IsStrayAt(s, j);
    FeedEnds(s, 0);
    StrayThenFeed(s, j, n - 1);
    EarlierEnd(s, 0, j);
    TwoLines(s);
    FirstLine(s, false);
    OtherSecondStart(Lines(s, false), Lines(s, true));
  }

  lemma StrayThenFeed(s: string, i: nat, j: nat)
    requires i < j < |s| - 1 && IsStrayAt(s, i) && s[j] == '\n'
    ensures MovesLines(s)
  {
  }

  lemma TwoLines(s: string)
    requires s != [] && LineEnd(s, true, 0) < |s|
    ensures |Lines(s, true)| > 1 && |Lines(s, true)[0]| == LineEnd(s, true, 0)
  {
    FirstLine(s, true);
    FirstLine(s[LineEnd(s, true, 0)..], true);
  }

  lemma OtherSecondStart(a: seq<string>, b: seq<string>)
    requires a != [] && |b| > 1 && |a[0]| != |b[0]|
    ensures !StartAlike(a, b)
  {
  }

  lemma StrayBehindFirst(s: string, n: nat)
    requires 0 < n < |s| && s[n - 1] == '\n' && !HasStrayBefore(s, n - 1)
    ensures MovesLines(s) <==> MovesLines(s[n..])
  {
    var rest := s[n..];
    if MovesLines(s) {
      var i, j :| 0 <= i < j < |s| - 1 && IsStrayAt(s, i) && s[j] == '\n';
      assert i >= n;
      assert IsStrayAt(rest, i - n) && rest[j - n] == '\n';
    }
    if MovesLines(rest) {
      var i, j :| 0 <= i < j < |rest| - 1 && IsStrayAt(rest, i) && rest[j] == '\n';
      assert IsStrayAt(s, n + i) && s[n + j] == '\n';
    }
  }

  predicate AgreeBelow(x: seq<nat>, y: seq<nat>, n: nat)
    requires n <= |x| && n <= |y|
  {
    forall k :: 0 <= k < n ==> x[k] == y[k]
  }

  lemma StartsBehind(x: seq<nat>, y: seq<nat>, x': seq<nat>, y': seq<nat>, n: nat)
    requires 0 < n <= |x| && n <= |y| && n - 1 <= |x'| && n - 1 <= |y'| && x[0] == y[0]
    requires forall k :: 0 < k < n ==> x[k] == x'[k - 1] && y[k] == y'[k - 1]
    ensures AgreeBelow(x, y, n) <==> AgreeBelow(x', y', n - 1)
  {
    if AgreeBelow(x, y, n) {
      forall k | 0 <= k < n - 1 ensures x'[k] == y'[k] {
        assert x[k + 1] == x'[k + 1 - 1] && y[k + 1] == y'[k + 1 - 1];
      }
    }
  }

  /** The map from line and column agrees with the tokenizer's positions, line ends included,
      exactly when no stray break stands before a line feed with text behind it. */
  lemma PositionsAreFound(s: string)
    ensures (forall line, column :: 0 < line <= |Lines(s, true)| && 0 <= column <= |Lines(s, true)[line - 1]| ==>
               FoundAt(s, line, column))
       <==> !MovesLines(s)
  {
    LinesStartAlike(s);
    MoreLines(s);
    StartsAreOffsets(Lines(s, false), Lines(s, true), 0);
    if StartAlike(Lines(s, false), Lines(s, true)) {
      forall line, column | 0 < line <= |Lines(s, true)| && 0 <= column <= |Lines(s, true)[line - 1]|
        ensures FoundAt(s, line, column)
      {
      }
    } else {
      var k :| 0 <= k < |Lines(s, true)|
               && OffsetsFrom(Lines(s, false), 0)[k] != OffsetsFrom(Lines(s, true), 0)[k];
      assert !FoundAt(s, k + 1, 0);
    }
  }

  predicate FoundAt(s: string, line: nat, column: nat)
    requires 0 < line <= |Lines(s, true)|
  {
    var offsets := OffsetsFrom(Lines(s, false), 0);
    line <= |offsets| && AbsoluteOffset(offsets, line, column) == PlaceOf(s, line, column)
  }

  /** `splitlines` never finds fewer lines. */
  lemma {:induction false} MoreLines(s: string)
    ensures |Lines(s, true)| <= |Lines(s, false)|
    decreases |s|
  {
    if s != [] {
      var n, k := LineEnd(s, true, 0), LineEnd(s, false, 0);
      NoLaterEnd(s, 0);
      FirstLine(s, false);
      FirstLine(s, true);
      MoreLines(s[k..]);
      if k < n {
        EndFrom(s, 0, k);
        EndOfSuffix(s, k, k);
        FirstLine(s[k..], false);
        FirstLine(s[k..], true);
        assert s[k..][n - k..] == s[n..];
      }
    }
  }

  lemma {:induction false} NoLaterEnd(s: string, i: nat)
    requires i < |s|
    ensures LineEnd(s, false, i) <= LineEnd(s, true, i)
    decreases |s| - i
  {
    if !EndsAt(s, false, i) && i + 1 < |s| {
      NoLaterEnd(s, i + 1);
    }
  }

  lemma {:induction false} EndFrom(s: string, i: nat, k: nat)
    requires i < |s| && i <= k < LineEnd(s, true, i)
    ensures LineEnd(s, true, k) == LineEnd(s, true, i)
    decreases |s| - i
  {
    if i < k {
      EndFrom(s, i + 1, k);
    }
  }

  lemma {:induction false} EndOfSuffix(s: string, k: nat, i: nat)
    requires k <= i < |s|
    ensures LineEnd(s[k..], true, i - k) == LineEnd(s, true, i) - k
    decreases |s| - i
  {
    if s[i] != '\n' && i + 1 < |s| {
      EndOfSuffix(s, k, i + 1);
    }
  }

  /** A form feed in the first line: the start of the second one is mapped to the wrong index. */
  lemma FormFeedMovesPositions()
    ensures var s := "x\U{0C}y\nz";
            |Lines(s, true)| == 2 && PlaceOf(s, 2, 0) == 4
            && AbsoluteOffset(OffsetsFrom(Lines(s, false), 0), 2, 0) == 2
  {
    var s := "x\U{0C}y\nz";
    FirstLine(s, false);
    FirstLine(s, true);
    ExampleEnds(s);
    assert s[4..] == "z";
    FirstLine("z", false);
    FirstLine("z", true);
    assert Lines("z"[1..], true) == [];
  }

  lemma ExampleEnds(s: string)
    requires s == "x\U{0C}y\nz"
    ensures LineEnd(s, true, 0) == 4 && LineEnd(s, false, 0) == 2
  {
    assert IsStrayAt(s, 1) && !EndsAt(s, false, 0);
    assert LineEnd(s, true, 3) == 4;
    assert LineEnd(s, true, 2) == 4;
    assert LineEnd(s, true, 1) == 4;
    assert LineEnd(s, false, 1) == 2;
  }

  /** The characters that end a line for `str.splitlines`. */
  lemma BreaksAre(c: char)
    ensures var s := ['a', c, 'b'];
            Lines(s, false)
            == if c in {'\n', '\r', '\U{0B}', '\U{0C}', '\U{1C}', '\U{1D}', '\U{1E}', '\U{85}', '\U{2028}', '\U{2029}'}
               then [s[..2], "b"] else [s]
    ensures Lines("a\r\nb", false) == ["a\r\n", "b"]
  {
    var s := ['a', c, 'b'];
    EndOfThree(s);
    if EndsAt(s, false, 1) {
      TwoPieces(s, 2);
    } else {
      assert s[3..] == [] && s[..3] == s;
      FirstLine(s, false);
    }
    EndOfPair("a\r\nb");
    TwoPieces("a\r\nb", 3);
    assert "a\r\nb"[..3] == "a\r\n";
  }

  lemma TwoPieces(s: string, n: nat)
    requires n < |s| && LineEnd(s, false, 0) == n && s[n..] == "b"
    ensures Lines(s, false) == [s[..n], "b"]
  {
    FirstLine(s, false);
    FirstLine("b", false);
    assert LineEnd("b", false, 0) == 1 && "b"[1..] == [] && "b"[..1] == "b";
    assert Lines(s, false) == [s[..n]] + Lines(s[n..], false);
  }

  lemma EndOfThree(s: string)
    requires |s| == 3 && s[0] == 'a' && s[2] == 'b'
    ensures LineEnd(s, false, 0) == if EndsAt(s, false, 1) then 2 else 3
  {
    assert LineEnd(s, false, 1) == if EndsAt(s, false, 1) then 2 else LineEnd(s, false, 2);
  }

  lemma EndOfPair(s: string)
    requires s == "a\r\nb"
    ensures LineEnd(s, false, 0) == 3
  {
    assert LineEnd(s, false, 2) == 3;
    assert LineEnd(s, false, 1) == 3;
  }

  // ----- splicing -----

  datatype Replacement = Replacement(start: nat, end: nat, text: string)

  /** Sorted stretches of the text from `low` on that do not overlap. */
  predicate AreApart(reps: seq<Replacement>, low: nat, length: nat) {
    if reps == [] then low <= length
    else low <= reps[0].start <= reps[0].end && AreApart(reps[1..], reps[0].end, length)
  }

  /** All replacements at once: the text from `from` on, each stretch exchanged for its text. */
  function Replaced(source: string, reps: seq<Replacement>, from: nat): string
    requires AreApart(reps, from, |source|)
    decreases |reps|
  {
    ApartBounds(reps, from, |source|);
    if reps == [] then source[from..]
    else source[from..reps[0].start] + reps[0].text + Replaced(source, reps[1..], reps[0].end)
  }

  lemma {:induction false} ApartBounds(reps: seq<Replacement>, low: nat, length: nat)
    requires AreApart(reps, low, length)
    ensures low <= length && (reps != [] ==> reps[0].end <= length)
    decreases |reps|
  {
    if reps != [] {
      ApartBounds(reps[1..], reps[0].end, length);
    }
  }

  /** Exchanging stretches for their own text changes nothing. */
  lemma {:induction false} OwnTexts(source: string, reps: seq<Replacement>, from: nat)
    requires AreApart(reps, from, |source|)
    requires forall r :: r in reps ==> r.start <= r.end <= |source| && r.text == source[r.start..r.end]
    ensures from <= |source| && Replaced(source, reps, from) == source[from..]
    decreases |reps|
  {
    ApartBounds(reps, from, |source|);
    if reps != [] {
      var r := reps[0];
      assert r in reps;
      OwnTexts(source, reps[1..], r.end);
      assert source[from..] == source[from..r.start] + source[r.start..r.end] + source[r.end..];
    }
  }

  function EndBefore(reps: seq<Replacement>, i: nat): nat
    requires i <= |reps|
  {
    if i == 0 then 0 else reps[i - 1].end
  }

  lemma {:induction false} ApartFrom(reps: seq<Replacement>, low: nat, length: nat, i: nat)
    requires AreApart(reps, low, length) && i <= |reps|
    ensures AreApart(reps[i..], if i == 0 then low else reps[i - 1].end, length)
    decreases |reps|
  {
    if i == 0 {
      assert reps[0..] == reps;
    } else {
      ApartFrom(reps[1..], reps[0].end, length, i - 1);
      assert reps[1..][i - 1..] == reps[i..];
    }
  }

  /** The text behind the replacements from `i` on have been made, and no others. */
  function Spliced(source: string, reps: seq<Replacement>, i: nat): string
    requires AreApart(reps, 0, |source|) && i <= |reps|
  {
    ApartFrom(reps, 0, |source|, i);
    ApartBounds(reps[i..], EndBefore(reps, i), |source|);
    source[..EndBefore(reps, i)] + Replaced(source, reps[i..], EndBefore(reps, i))
  }

  lemma SpliceOne(source: string, reps: seq<Replacement>, i: nat)
    requires AreApart(reps, 0, |source|) && i < |reps|
    ensures var text, r := Spliced(source, reps, i + 1), reps[i];
            && r.start <= r.end <= |text|
            && text[..r.start] + r.text + text[r.end..] == Spliced(source, reps, i)
  {
    var r, low := reps[i], EndBefore(reps, i);
    ApartFrom(reps, 0, |source|, i);
    ApartFrom(reps, 0, |source|, i + 1);
    ApartBounds(reps[i..], low, |source|);
    assert reps[i..][1..] == reps[i + 1..];
    var rest := Replaced(source, reps[i + 1..], r.end);
    var text := source[..r.end] + rest;
    assert text[..r.start] == source[..r.start] && text[r.end..] == rest;
    assert source[..r.start] == source[..low] + source[low..r.start];
    Regrouped(source[..low], source[low..r.start], r.text, rest);
  }

  lemma Regrouped(a: string, b: string, c: string, d: string)
    ensures (a + b) + c + d == a + (b + c + d)
  {
  }

  lemma NothingSpliced(source: string, reps: seq<Replacement>)
    requires AreApart(reps, 0, |source|)
    ensures Spliced(source, reps, |reps|) == source && Spliced(source, reps, 0) == Replaced(source, reps, 0)
  {
    var n := |reps|;
    ApartFrom(reps, 0, |source|, n);
    ApartBounds(reps[n..], EndBefore(reps, n), |source|);
    assert reps[n..] == [] && reps[0..] == reps;
    assert source[..EndBefore(reps, n)] + source[EndBefore(reps, n)..] == source;
    assert source[..0] + Replaced(source, reps, 0) == Replaced(source, reps, 0);
  }

  /** Splicing sorted, disjoint replacements from the last to the first makes all of them. */
  method ApplyReplacements(source: string, reps: seq<Replacement>) returns (migrated: string)
    requires AreApart(reps, 0, |source|)
    ensures migrated == Replaced(source, reps, 0)
  {
    migrated := source;
    var i := |reps|;
    NothingSpliced(source, reps);
    while i > 0
      invariant 0 <= i <= |reps|
      invariant migrated == Spliced(source, reps, i)
    {
      i := i - 1;
      SpliceOne(source, reps, i);
      migrated := migrated[..reps[i].start] + reps[i].text + migrated[reps[i].end..];
    }
  }
}
