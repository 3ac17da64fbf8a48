/** The arrow pass line by line: what becomes stale is a legacy word that a marker was glued to,
    where the pass puts a blank or a colon behind it. */
module SurfaceArms {
  import opened PythonText
  import opened SurfaceLexer
  import opened SurfaceRewriter
  import opened SurfaceCuts
  import opened SurfaceStale
  import opened SurfaceArrows
  import opened SurfaceEdits

  /** An arm that keeps the word in front of its marker glued to `then`. */
  predicate Glues(before: string) {
    StartsWith(Strip(before), "when ") || StartsWith(Strip(before), "otherwise ")
  }

  /** The text in front of a marker ends in a legacy word, and the arm sets it free. */
  predicate FreesLegacy(before: string) {
    IsLegacyWord(LastWord(before)) && !Glues(before)
  }

  // ----- a text and its parts -----

  lemma {:induction false} StripRightParts(s: string)
    ensures var r := StripRight(s);
            r == s[..|r|] && (forall i :: |r| <= i < |s| ==> IsSpace(s[i])) && (r != [] ==> !IsSpace(r[|r| - 1]))
  {
    if s != [] && IsSpace(s[|s| - 1]) {
      StripRightParts(s[..|s| - 1]);
    }
  }

  lemma {:induction false} SpaceRunParts(s: string)
    ensures forall i :: 0 <= i < SpaceRun(s) ==> IsSpace(s[i])
  {
    if s != [] && IsSpace(s[0]) {
      SpaceRunParts(s[1..]);
    }
  }

  /** Indentation, the stripped text and whitespace behind it. */
  lemma StripParts(before: string) returns (trail: string)
    requires '\n' !in before
    ensures before == before[..SpaceRun(before)] + (Strip(before) + trail)
    ensures IsGap(before[..SpaceRun(before)]) && IsGap(trail) && '\n' !in Strip(before)
  {
    var n, m := SpaceRun(before), |Strip(before)|;
    SpaceRunParts(before);
    StripRightParts(before[n..]);
    trail := before[n + m..];
    ThreeParts(before, n, m);
    ShiftSpaces(before, n, m);
    GapPart(before, 0, n);
    GapPart(before, n + m, |before|);
    NoFeedInPart(before, n, n + m);
  }

  lemma ThreeParts(s: string, n: nat, m: nat)
    requires n + m <= |s|
    ensures s == s[..n] + (s[n..][..m] + s[n + m..])
    ensures s[0..n] == s[..n] && s[n + m..|s|] == s[n + m..] && s[n..n + m] == s[n..][..m]
  {
  }

  lemma ShiftSpaces(s: string, n: nat, m: nat)
    requires n + m <= |s| && forall i :: m <= i < |s[n..]| ==> IsSpace(s[n..][i])
    ensures forall k :: n + m <= k < |s| ==> IsSpace(s[k])
  {
    forall k | n + m <= k < |s| ensures IsSpace(s[k]) {
      assert s[n..][k - n] == s[k];
    }
  }

  lemma GapPart(s: string, i: nat, j: nat)
    requires '\n' !in s && i <= j <= |s| && forall k :: i <= k < j ==> IsSpace(s[k])
    ensures IsGap(s[i..j])
  {
    forall k | 0 <= k < j - i ensures IsSpace(s[i..j][k]) && s[i..j][k] != '\n' {
      assert s[i..j][k] == s[i + k] && s[i + k] in s;
    }
  }

  lemma NoFeedInPart(s: string, i: nat, j: nat)
    requires '\n' !in s && i <= j <= |s|
    ensures '\n' !in s[i..j]
  {
  }

  lemma GapEnds(d: string, ws: string)
    requires (d == [] || EndsInSpace(d)) && IsGap(ws)
    ensures d + ws == [] || EndsInSpace(d + ws)
  {
    if ws != [] {
      assert (d + ws)[|d + ws| - 1] == ws[|ws| - 1];
    } else {
      assert d + ws == d;
    }
  }

  lemma SpaceEndsNoWord(a: string)
    requires a == [] || EndsInSpace(a)
    ensures a == [] || !IsWordChar(a[|a| - 1])
  {
    if a != [] {
      SpaceStandsAlone(a[|a| - 1]);
    }
  }

  lemma LastWordOfGap(x: string, ws: string)
    requires IsGap(ws) && ws != []
    ensures LastWord(x + ws) == []
  {
    var a := x + ws;
    assert a[|a| - 1] == ws[|ws| - 1];
    SpaceStandsAlone(a[|a| - 1]);
  }

  // ----- the end of an arm -----

  /** The marker and the whitespace in front of it become ` then`. */
  lemma ArmEnds(x: string, trail: string, b: string, mark: string)
    requires IsMark(mark) && IsGap(trail) && Fits(x + ((trail + mark) + b), mark)
    ensures IsJudged(x + (" then" + b), mark,
                     IsStaleText(x + ((trail + mark) + b)) || (trail == [] && IsLegacyWord(LastWord(x))))
  {
    if trail == [] {
      assert trail + mark == mark;
      MarkBecomesSpaceThen(x, b, mark);
      OpenIsLastWord(x);
    } else {
      GapBecomesThen(x, trail, b, mark);
    }
  }

  lemma MarkWithGap(core: string, trail: string, mark: string)
    requires IsMark(mark) && IsGap(trail) && '\n' !in core
    ensures Has(core + (trail + mark), mark) && '\n' !in core + (trail + mark)
  {
    MarkIsWord(mark);
    OccursAt(core + (trail + mark), mark, |core| + |trail|);
  }

  lemma MarkInLine(x: string, b: string, mark: string)
    requires Has(x, mark) && '\n' !in x
    ensures Has((x + b)[..LineLength(x + b)], mark)
  {
    LineThrough(x, b);
    var n := LineLength(b);
    assert (x + b)[..|x| + n] == x + b[..n];
    HasInTwo(x, b[..n], mark);
  }

  // ----- the four kinds of arms -----

  predicate IsSwitchArm(before: string) {
    StartsWith(Strip(before), "case ") || StartsWith(Strip(before), "else ")
  }

  lemma SwitchArmGluesNot(before: string)
    requires IsSwitchArm(before)
    ensures !Glues(before)
  {
    var s := Strip(before);
    if StartsWith(s, "case ") {
      PrefixAt(s, "case ", 0);
    } else {
      PrefixAt(s, "else ", 0);
    }
    OtherHead(s, "when ", 0);
    OtherHead(s, "otherwise ", 0);
  }

  lemma SwitchArm(d: string, before: string, b: string, mark: string)
    requires IsMark(mark) && (d == [] || EndsInSpace(d)) && Fits(d + (before + (mark + b)), mark)
    requires IsSwitchArm(before) && !IsLegacyWord(LeadWord(b))
    ensures IsJudged(d + (Arm(before) + b), mark, IsStaleText(d + (before + (mark + b))) || FreesLegacy(before))
  {
    Glue(d, before, mark + b);
    MarkBecomesColon(d + before, b, mark);
    OpenIsLastWord(d + before);
    SpaceEndsNoWord(d);
    LastWordBehind(d, before);
    SwitchArmGluesNot(before);
    Regroup4(d, before, ":", b);
  }

  lemma Regroup4(a: string, b: string, c: string, d: string)
    ensures (a + b) + (c + d) == a + ((b + c) + d)
  {
  }

  lemma GluedArm(d: string, before: string, b: string, mark: string)
    requires IsMark(mark) && Fits(d + (before + (mark + b)), mark) && Glues(before) && !IsSwitchArm(before)
    ensures IsJudged(d + (Arm(before) + b), mark, IsStaleText(d + (before + (mark + b))) || FreesLegacy(before))
  {
    Glue(d, before, mark + b);
    MarkBecomesThen(d + before, b, mark);
    Regroup4(d, before, "then", b);
  }

  /** What stands in front of the word does not matter. */
  lemma FreesByCore(before: string, indent: string, core: string, trail: string, front: string)
    requires before == indent + (core + trail) && IsGap(indent) && IsGap(trail) && EndsInSpace(front)
    ensures LastWord(before) == if trail == [] then LastWord(front + core) else []
  {
    if trail == [] {
      assert core + trail == core;
      GapEnds([], indent);
      assert [] + indent == indent;
      SpaceEndsNoWord(indent);
      SpaceEndsNoWord(front);
      LastWordBehind(indent, core);
      LastWordBehind(front, core);
    } else {
      LastWordOfGap(indent + core, trail);
      Glue(indent, core, trail);
    }
  }

  lemma WhenArm(d: string, before: string, b: string, mark: string)
    requires IsMark(mark) && (d == [] || EndsInSpace(d)) && Fits(d + (before + (mark + b)), mark) && '\n' !in before
    requires !IsSwitchArm(before) && !Glues(before) && !IsDefault(Strip(before))
    ensures IsJudged(d + (Arm(before) + b), mark, IsStaleText(d + (before + (mark + b))) || FreesLegacy(before))
  {
    var indent, core := before[..SpaceRun(before)], Strip(before);
    var trail := StripParts(before);
    WhenJudged(d, before, indent, core, trail, b, mark);
    WhenBehind(d, indent, core, b);
  }

  lemma WhenJudged(d: string, before: string, indent: string, core: string, trail: string, b: string, mark: string)
    requires IsMark(mark) && (d == [] || EndsInSpace(d)) && Fits(d + (before + (mark + b)), mark) && '\n' !in core
    requires before == indent + (core + trail) && IsGap(indent) && IsGap(trail)
    ensures IsJudged((((d + indent) + "when ") + core) + (" then" + b), mark,
                     IsStaleText(d + (before + (mark + b))) || IsLegacyWord(LastWord(before)))
  {
    WhenBefore(d, indent, core, trail, mark, b);
    GapEnds(d, indent);
    WhenParts(d + indent, core, trail, b, mark);
    var front := (d + indent) + "when ";
    assert front[|front| - 1] == ' ';
    FreesByCore(before, indent, core, trail, front);
  }

  lemma WhenParts(a: string, core: string, trail: string, b: string, mark: string)
    requires IsMark(mark) && (a == [] || EndsInSpace(a)) && IsGap(trail) && '\n' !in core
    requires Fits(a + ((core + (trail + mark)) + b), mark)
    ensures var front := a + "when ";
            IsJudged((front + core) + (" then" + b), mark,
                     IsStaleText(a + ((core + (trail + mark)) + b))
                     || (trail == [] && IsLegacyWord(LastWord(front + core))))
  {
    var x := core + (trail + mark);
    MarkWithGap(core, trail, mark);
    MarkInLine(x, b, mark);
    PutWhen(a, x + b, mark);
    WhenBetween(a, core, trail + mark, b);
    ArmEnds((a + "when ") + core, trail, b, mark);
  }

  lemma WhenBefore(d: string, indent: string, core: string, trail: string, mark: string, b: string)
    ensures d + ((indent + (core + trail)) + (mark + b)) == (d + indent) + ((core + (trail + mark)) + b)
  {
  }

  lemma WhenBetween(a: string, core: string, x: string, b: string)
    ensures a + ("when " + ((core + x) + b)) == ((a + "when ") + core) + (x + b)
  {
  }

  lemma WhenBehind(d: string, indent: string, core: string, b: string)
    ensures (((d + indent) + "when ") + core) + (" then" + b) == d + ((indent + "when " + core + " then") + b)
  {
  }

  lemma DefaultArm(d: string, before: string, b: string, mark: string)
    requires IsMark(mark) && (d == [] || EndsInSpace(d)) && Fits(d + (before + (mark + b)), mark) && '\n' !in before
    requires !IsSwitchArm(before) && !Glues(before) && IsDefault(Strip(before))
    ensures IsJudged(d + (Arm(before) + b), mark, IsStaleText(d + (before + (mark + b))) || FreesLegacy(before))
  {
    var indent, core := before[..SpaceRun(before)], Strip(before);
    var trail := StripParts(before);
    var a := d + indent;
    GapEnds(d, indent);
    DefaultBefore(d, indent, core, trail, mark, b);
    MarkInGap(trail, mark);
    PutOtherwise(a, core, trail + mark, b, mark);
    Glue(a, "otherwise", (trail + mark) + b);
    ArmEnds(a + "otherwise", trail, b, mark);
    OtherwiseIsLast(a, "otherwise");
    DefaultFreesNothing(before, indent, core, trail);
    DefaultBehind(d, indent, b);
  }

  lemma DefaultBefore(d: string, indent: string, core: string, trail: string, mark: string, b: string)
    ensures d + ((indent + (core + trail)) + (mark + b)) == (d + indent) + (core + ((trail + mark) + b))
  {
  }

  lemma DefaultBehind(d: string, indent: string, b: string)
    ensures ((d + indent) + "otherwise") + (" then" + b) == d + ((indent + "otherwise then") + b)
  {
    assert "otherwise then" == "otherwise" + " then";
  }

  lemma OtherwiseIsLast(a: string, core: string)
    requires (a == [] || EndsInSpace(a)) && IsDefault(core)
    ensures !IsLegacyWord(LastWord(a + core))
  {
    SpaceEndsNoWord(a);
    LastWordBehind(a, core);
    DefaultIsWord(core);
    TrailIsAll(core);
    assert core + [] == core;
    DefaultIsModern(core, []);
  }

  lemma DefaultFreesNothing(before: string, indent: string, core: string, trail: string)
    requires before == indent + (core + trail) && IsGap(indent) && IsGap(trail) && IsDefault(core)
    ensures !FreesLegacy(before)
  {
    if trail == [] {
      assert before == indent + core;
      GapEnds([], indent);
      assert [] + indent == indent;
      OtherwiseIsLast(indent, core);
    } else {
      LastWordOfGap(indent + core, trail);
      Glue(indent, core, trail);
    }
  }

  /** One arm: nothing but the word in front of its marker can become stale. */
  lemma ArmIsJudged(d: string, before: string, b: string, mark: string)
    requires IsMark(mark) && (d == [] || EndsInSpace(d)) && Fits(d + (before + (mark + b)), mark)
    requires '\n' !in before && !IsLegacyWord(LeadWord(b))
    ensures IsJudged(d + (Arm(before) + b), mark, IsStaleText(d + (before + (mark + b))) || FreesLegacy(before))
  {
    if IsSwitchArm(before) {
      SwitchArm(d, before, b, mark);
    } else if Glues(before) {
      GluedArm(d, before, b, mark);
    } else if IsDefault(Strip(before)) {
      DefaultArm(d, before, b, mark);
    } else {
      WhenArm(d, before, b, mark);
    }
  }

  // ----- one line -----

  /** A line without line feeds but at its end. */
  predicate IsLine(raw: string) {
    '\n' !in Body(raw)
  }

  /** The text behind the first marker of a line, its line feed included. */
  function AfterMark(raw: string, mark: string): string
    requires Has(Body(raw), mark)
  {
    Body(raw)[Find(Body(raw), mark).value + |mark|..] + Feed(raw)
  }

  function BeforeMark(raw: string, mark: string): string
    requires Has(Body(raw), mark)
  {
    Body(raw)[..Find(Body(raw), mark).value]
  }

  lemma LineParts(raw: string, mark: string)
    requires Has(Body(raw), mark)
    ensures raw == BeforeMark(raw, mark) + (mark + AfterMark(raw, mark))
    ensures NormalizeLine(raw, mark) == Arm(BeforeMark(raw, mark)) + AfterMark(raw, mark)
  {
    var line, feed := Body(raw), Feed(raw);
    var n := Find(line, mark).value;
    BodyAndFeed(raw);
    FirstFound(line, mark);
    MarkAt(line, n, mark);
    LineRegroup(line, n, |mark|, feed);
    Glue(Arm(line[..n]), line[n + |mark|..], feed);
  }

  lemma MarkAt(line: string, n: nat, mark: string)
    requires n <= |line| && StartsWith(line[n..], mark)
    ensures n + |mark| <= |line| && line[n..][..|mark|] == mark
  {
  }

  lemma BodyAndFeed(raw: string)
    ensures raw == Body(raw) + Feed(raw)
  {
    if EndsWith(raw, "\n") {
      assert raw[|raw| - 1..] == "\n";
    }
  }

  lemma LineRegroup(line: string, n: nat, m: nat, feed: string)
    requires n + m <= |line|
    ensures line + feed == line[..n] + (line[n..][..m] + (line[n + m..] + feed))
  {
  }

  /** The line has a marker and frees the legacy word in front of the first. */
  predicate LineFrees(raw: string, mark: string) {
    Has(Body(raw), mark) && FreesLegacy(BeforeMark(raw, mark))
  }

  /** No legacy word stands directly behind the first marker of the line. */
  predicate LeadsModern(raw: string, rest: string, mark: string) {
    Has(Body(raw), mark) ==> !IsLegacyWord(LeadWord(AfterMark(raw, mark) + rest))
  }

  lemma LineIsJudged(d: string, raw: string, rest: string, mark: string)
    requires IsMark(mark) && (d == [] || EndsInSpace(d)) && Fits(d + (raw + rest), mark)
    requires IsLine(raw) && LeadsModern(raw, rest, mark)
    ensures IsJudged(d + (NormalizeLine(raw, mark) + rest), mark, IsStaleText(d + (raw + rest)) || LineFrees(raw, mark))
  {
    if Has(Body(raw), mark) {
      var before, after := BeforeMark(raw, mark), AfterMark(raw, mark);
      LineParts(raw, mark);
      PartHasNoFeed(Body(raw), Find(Body(raw), mark).value);
      MarkRegroup(before, mark, after, rest);
      ArmIsJudged(d, before, after + rest, mark);
      Glue(Arm(before), after, rest);
    } else {
      BodyAndFeed(raw);
    }
  }

  lemma PartHasNoFeed(s: string, n: nat)
    requires '\n' !in s && n <= |s|
    ensures '\n' !in s[..n]
  {
  }

  lemma MarkRegroup(before: string, mark: string, after: string, rest: string)
    ensures (before + (mark + after)) + rest == before + (mark + (after + rest))
  {
  }

  lemma LineKeepsEnd(d: string, raw: string, mark: string)
    requires IsMark(mark) && EndsInSpace(raw)
    ensures EndsInSpace(d + NormalizeLine(raw, mark))
  {
    if Has(Body(raw), mark) {
      LineParts(raw, mark);
      MarkIsWord(mark);
      AfterEnds(BeforeMark(raw, mark), mark, AfterMark(raw, mark), raw);
      EndOfThree(d, Arm(BeforeMark(raw, mark)), AfterMark(raw, mark));
    } else {
      BodyAndFeed(raw);
      EndOfThree(d, [], raw);
      assert [] + raw == raw;
    }
  }

  lemma AfterEnds(before: string, mark: string, after: string, raw: string)
    requires raw == before + (mark + after) && EndsInSpace(raw) && mark != [] && IsMark(mark)
    ensures EndsInSpace(after)
  {
    MarkIsWord(mark);
    SpaceStandsAlone(raw[|raw| - 1]);
    var tail := mark + after;
    assert raw[|raw| - 1] == tail[|tail| - 1];
  }

  lemma EndOfThree(a: string, b: string, c: string)
    requires EndsInSpace(c)
    ensures EndsInSpace(a + (b + c))
  {
    assert (a + (b + c))[|a + (b + c)| - 1] == c[|c| - 1];
  }

  // ----- every line -----

  /** Lines, each but the last with its end. */
  predicate AreLines(lines: seq<string>) {
    lines == [] || (IsLine(lines[0]) && (|lines| > 1 ==> EndsInSpace(lines[0])) && AreLines(lines[1..]))
  }

  predicate LeadModern(lines: seq<string>, mark: string) {
    lines == [] || (LeadsModern(lines[0], Concat(lines[1..]), mark) && LeadModern(lines[1..], mark))
  }

  predicate LinesFree(lines: seq<string>, mark: string) {
    exists i :: 0 <= i < |lines| && LineFrees(lines[i], mark)
  }

  lemma FirstFrees(lines: seq<string>, mark: string)
    requires lines != []
    ensures LinesFree(lines, mark) <==> LineFrees(lines[0], mark) || LinesFree(lines[1..], mark)
  {
    if i :| 0 <= i < |lines[1..]| && LineFrees(lines[1..][i], mark) {
      assert LineFrees(lines[i + 1], mark);
    }
    if i :| 0 <= i < |lines| && LineFrees(lines[i], mark) {
      assert i > 0 ==> LineFrees(lines[1..][i - 1], mark);
    }
  }

  lemma {:induction false} LinesAreJudged(d: string, lines: seq<string>, mark: string)
    requires IsMark(mark) && (d == [] || EndsInSpace(d)) && Fits(d + Concat(lines), mark)
    requires AreLines(lines) && LeadModern(lines, mark)
    ensures IsJudged(d + Concat(NormalizeLines(lines, mark)), mark,
                     IsStaleText(d + Concat(lines)) || LinesFree(lines, mark))
    decreases |lines|
  {
    if lines != [] {
      var rest := lines[1..];
      var line := NormalizeLine(lines[0], mark);
      LineIsJudged(d, lines[0], Concat(rest), mark);
      Glue(d, line, Concat(rest));
      FirstNormalized(lines, mark);
      FirstFrees(lines, mark);
      if rest == [] {
        LastLine(d, line, rest, mark);
      } else {
        LineKeepsEnd(d, lines[0], mark);
        LinesAreJudged(d + line, rest, mark);
        Glue(d, line, Concat(NormalizeLines(rest, mark)));
      }
    }
  }

  lemma FirstNormalized(lines: seq<string>, mark: string)
    requires lines != []
    ensures Concat(NormalizeLines(lines, mark))
         == NormalizeLine(lines[0], mark) + Concat(NormalizeLines(lines[1..], mark))
  {
    assert NormalizeLines(lines, mark)[1..] == NormalizeLines(lines[1..], mark);
  }

  lemma LastLine(d: string, line: string, rest: seq<string>, mark: string)
    requires rest == []
    ensures d + (line + Concat(NormalizeLines(rest, mark))) == d + (line + Concat(rest)) && !LinesFree(rest, mark)
  {
    assert NormalizeLines(rest, mark) == [];
  }

  // ----- the lines of a text -----

  lemma {:induction false} NoFeedBeforeEnd(s: string, i: nat, k: nat)
    requires i < |s| && i <= k < LineEnd(s, false, i) - 1
    ensures !EndsAt(s, false, k)
    decreases |s| - i
  {
    if k > i {
      NoFeedBeforeEnd(s, i + 1, k);
    }
  }

  lemma {:induction false} LineEndsAt(s: string, i: nat)
    requires i < |s|
    ensures var n := LineEnd(s, false, i); n == |s| || EndsAt(s, false, n - 1)
    decreases |s| - i
  {
    if !EndsAt(s, false, i) && i + 1 < |s| {
      LineEndsAt(s, i + 1);
    }
  }

  lemma FirstIsLine(s: string)
    requires s != []
    ensures var n := LineEnd(s, false, 0); IsLine(s[..n]) && (n < |s| ==> EndsInSpace(s[..n]))
  {
    var n := LineEnd(s, false, 0);
    LineEndsAt(s, 0);
    forall k | 0 <= k < n - 1 ensures s[..n][k] != '\n' {
      NoFeedBeforeEnd(s, 0, k);
    }
    BodyHasNoFeed(s[..n]);
    if n < |s| {
      BreakIsSpace(s[n - 1]);
    }
  }

  lemma BodyHasNoFeed(raw: string)
    requires raw != [] && forall k :: 0 <= k < |raw| - 1 ==> raw[k] != '\n'
    ensures IsLine(raw)
  {
    assert raw[|raw| - 1..] == [raw[|raw| - 1]];
  }

  lemma BreakIsSpace(c: char)
    requires c == '\n' || IsOtherBreak(c)
    ensures IsSpace(c)
  {
  }

  lemma {:induction false} TextHasLines(s: string)
    ensures AreLines(Lines(s, false))
  {
    if s != [] {
      var n := LineEnd(s, false, 0);
      FirstIsLine(s);
      TextHasLines(s[n..]);
      LinesUnfold(s);
    }
  }

  lemma LinesUnfold(s: string)
    requires s != []
    ensures var n, lines := LineEnd(s, false, 0), Lines(s, false);
            lines != [] && lines[0] == s[..n] && lines[1..] == Lines(s[n..], false) && (|lines| > 1 <==> n < |s|)
  {
  }

  // ----- the markers that are left -----

  lemma {:induction false} ReplaceIsJudged(a: string, s: string, mark: string)
    requires IsMark(mark) && mark != [] && Fits(a + s, mark)
    ensures IsJudged(a + Replace(s, mark, "then"), mark, IsStaleText(a + s))
    decreases |s|
  {
    var at := Find(s, mark);
    if at.Some? {
      var before, after := s[..at.value], s[at.value + |mark|..];
      FirstReplaced(a, s, mark, "then");
      MarkBecomesThen(a + before, after, mark);
      ThenRegroup(a, before, after);
      ReplaceIsJudged(a + before + "then", after, mark);
    }
  }

  lemma FirstReplaced(a: string, s: string, mark: string, r: string)
    requires mark != [] && Has(s, mark)
    ensures var n := Find(s, mark).value;
            && a + s == (a + s[..n]) + (mark + s[n + |mark|..])
            && a + Replace(s, mark, r) == (a + s[..n] + r) + Replace(s[n + |mark|..], mark, r)
  {
    var n := Find(s, mark).value;
    FirstFound(s, mark);
    CutAtMark(a, s, n, mark);
    PutRegroup(a, s[..n], r, Replace(s[n + |mark|..], mark, r));
  }

  lemma PutRegroup(a: string, x: string, r: string, y: string)
    ensures a + (x + r + y) == (a + x + r) + y
  {
  }

  lemma CutAtMark(a: string, s: string, n: nat, mark: string)
    requires n + |mark| <= |s| && s[n..][..|mark|] == mark
    ensures a + s == (a + s[..n]) + (mark + s[n + |mark|..])
  {
    assert s == s[..n] + (s[n..][..|mark|] + s[n + |mark|..]);
  }

  lemma ThenRegroup(a: string, before: string, after: string)
    ensures (a + before) + ("then" + after) == (a + before + "then") + after
  {
  }

  /** The whole pass: what is stale behind it was stale or is a word that a line has freed. */
  lemma PassIsJudged(z: string, mark: string)
    requires IsMark(mark) && mark != [] && Fits(z, mark) && LeadModern(Lines(z, false), mark)
    ensures IsJudged(Normalize(z, mark), mark, IsStaleText(z) || LinesFree(Lines(z, false), mark))
  {
    var lines := Lines(z, false);
    LinesMakeText(z, false);
    TextHasLines(z);
    assert [] + Concat(lines) == z;
    LinesAreJudged([], lines, mark);
    var edited := Concat(NormalizeLines(lines, mark));
    assert [] + edited == edited;
    ReplaceIsJudged([], edited, mark);
    assert [] + Replace(edited, mark, "then") == Replace(edited, mark, "then");
  }
}
