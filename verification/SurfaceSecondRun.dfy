/** Running both passes of the migration again: exactly when it changes nothing. */
module SurfaceSecondRun {
  import opened Wrappers
  import opened PythonText
  import opened SurfaceLexer
  import opened SurfaceRewriter
  import opened SurfaceRelexing
  import opened SurfaceCuts
  import opened SurfaceTheorems
  import opened SurfaceStale
  import opened SurfaceArrows
  import opened SurfaceEdits
  import opened SurfaceArms
  import opened SurfaceMarkers

  /** Some line of a rewritten text has a legacy word directly in front of its first marker, and
      is not an arm that already starts with `when` or `otherwise`. */
  predicate FreesWord(rewritten: string) {
    LinesFree(Lines(rewritten, false), MATCH_ARROW)
  }

  lemma RewrittenFits(source: string, mark: string)
    requires IsMark(mark) && !Has(source, mark)
    ensures Fits(RewriteTokens(source), mark) && (IsStaleText(RewriteTokens(source)) <==> HasStrandedBang(source))
  {
    MarkIsWord(mark);
    assert '/' !in mark;
    StaleIsStranded(source);
    RewriteIsClean(source, mark);
  }

  /** What both passes leave stale. */
  lemma ResultIsJudged(source: string, mark: string)
    requires IsMark(mark) && mark != [] && !Has(source, mark)
    ensures var z := RewriteTokens(source);
            IsJudged(Normalize(z, mark), mark, HasStrandedBang(source) || LinesFree(Lines(z, false), mark))
  {
    var z := RewriteTokens(source);
    RewrittenFits(source, mark);
    LinesMakeText(z, false);
    TextHasLines(z);
    NothingBefore(z);
    LinesLeadModern(source, [], Lines(z, false), mark);
    PassIsJudged(z, mark);
  }

  /** For every text without a marker of its own: a second run of both passes changes nothing
      exactly when no bang stands directly before an arrow and no line frees a legacy word. */
  lemma SecondRun(source: string)
    requires !Has(source, MATCH_ARROW)
    ensures BothPasses(BothPasses(source)) == BothPasses(source)
       <==> !HasStrandedBang(source) && !FreesWord(RewriteTokens(source))
  {
    ResultIsJudged(source, MATCH_ARROW);
    SecondRunIsClean(source);
    CanonicalIsSound(Lex(BothPasses(source)), 0);
  }

  // ----- texts without the beginning of a marker -----

  const MARK_STEM := "__SPECTRA_MATCH_ARROW"

  lemma StemOfMark(mark: string)
    requires IsMark(mark)
    ensures |mark| == 23 && Stem(mark) == MARK_STEM
  {
  }

  lemma NothingIsFreed(source: string, mark: string)
    requires IsMark(mark) && |mark| == 23 && !Has(source, Stem(mark))
    ensures !LinesFree(Lines(RewriteTokens(source), false), mark)
  {
    var z := RewriteTokens(source);
    LinesMakeText(z, false);
    TextHasLines(z);
    NothingBefore(z);
    LinesFreeNothing(source, [], Lines(z, false), mark);
  }

  /** In texts without the stem of a marker, stranded bangs are all that a second run changes. */
  lemma SecondRunChangesBangs(source: string)
    requires !Has(source, MARK_STEM)
    ensures BothPasses(BothPasses(source)) == BothPasses(source) <==> !HasStrandedBang(source)
  {
    StemOfMark(MATCH_ARROW);
    StemIsInMark(source, MATCH_ARROW);
    NothingIsFreed(source, MATCH_ARROW);
    SecondRun(source);
  }

  /** Texts with neither `!=>` nor the stem are migrated once and for all. */
  lemma MigratedOnce(source: string)
    requires !Has(source, MARK_STEM) && forall i :: !BangArrowAt(source, i)
    ensures BothPasses(BothPasses(source)) == BothPasses(source)
  {
    NoBangArrowNoStrandedBang(source);
    SecondRunChangesBangs(source);
  }

  // ----- texts that a second run changes -----

  lemma {:induction false} OneLineEnd(s: string, i: nat)
    requires i < |s| && forall j :: 0 <= j < |s| ==> s[j] != '\n' && !IsOtherBreak(s[j])
    ensures LineEnd(s, false, i) == |s|
    decreases |s| - i
  {
    if i + 1 < |s| {
      OneLineEnd(s, i + 1);
    }
  }

  lemma WholeIsLine(s: string)
    requires s != [] && forall j :: 0 <= j < |s| ==> s[j] != '\n' && !IsOtherBreak(s[j])
    ensures Lines(s, false) == [s]
  {
    OneLineEnd(s, 0);
    assert s[..|s|] == s && s[|s|..] == [];
  }

  lemma StrandedBangIsWritten(s: string, mark: string)
    requires s == "!=>" && IsMark(mark)
    ensures RewriteTokens(s) == "!" + mark && HasStrandedBang(s)
  {
    var arrow := s[1..];
    assert Next(s) == Plain('!') && Rest(s) == arrow;
    assert Next(arrow) == FatArrow && Rest(arrow) == [];
    assert Rewrite(arrow, "!", 0) == mark + [] == mark;
  }

  lemma BangIsWhen()
    ensures Arm("!") == "when ! then"
  {
    assert Strip("!") == "!";
    assert [] + "when " + "!" + " then" == "when ! then";
  }

  lemma BangArmIsWritten(written: string, mark: string)
    requires IsMark(mark) && written == "!" + mark
    ensures NormalizeLine(written, mark) == "when ! then"
  {
    assert written[|written| - 1..] == "_";
    assert !EndsWith(written, "\n");
    assert written[1..] == mark && StartsWith(mark, mark);
    assert !StartsWith(written, mark) by {
      assert written[..|mark|][0] == '!';
    }
    assert Find(written, mark) == Some(1);
    assert written[..1] == "!" && written[1 + |mark|..] == "";
    BangIsWhen();
    assert "when ! then" + "" + "" == "when ! then";
  }

  lemma BangArmIsTheText(written: string, arm: string, mark: string)
    requires IsMark(mark) && written == "!" + mark && arm == "when ! then"
    ensures mark != [] && Normalize(written, mark) == arm
  {
    assert forall j :: 0 <= j < |written| ==> written[j] != '\n' && !IsOtherBreak(written[j]);
    WholeIsLine(written);
    BangArmIsWritten(written, mark);
    assert NormalizeLines([written], mark) == [arm];
    assert [arm][1..] == [] && Concat([arm]) == arm + [] == arm;
    FirstFound(arm, mark);
  }

  /** A bang in front of an arrow: the first run leaves a bang that the second run changes. */
  lemma BangArrowExample()
    ensures var source := "!=>";
            && BothPasses(source) == "when ! then"
            && BothPasses(BothPasses(source)) != BothPasses(source)
  {
    var source := "!=>";
    StrandedBangIsWritten(source, MATCH_ARROW);
    BangArmIsTheText("!" + MATCH_ARROW, "when ! then", MATCH_ARROW);
    FirstFound(source, MATCH_ARROW);
    SecondRun(source);
  }

  /** A half marker behind a legacy word, completed by the marker of the arrow. */
  predicate IsHalfMarked(source: string, name: string, mark: string) {
    |mark| == 23 && name == "fn" + Stem(mark) && source == name + "=>"
  }

  lemma HalfMarkerIsNoMarker(source: string, name: string, mark: string)
    requires IsMark(mark) && IsHalfMarked(source, name, mark)
    ensures !Has(source, mark)
  {
    assert !StartsWith(source, mark) by {
      assert source[..|mark|][0] == 'f';
    }
    assert !StartsWith(source[1..], mark) by {
      assert source[1..][..|mark|][0] == 'n';
    }
    assert !StartsWith(source[2..], mark) by {
      assert source[2..][..|mark|][21] == '=';
    }
    FirstFound(source, mark);
    assert source[0..] == source;
  }

  lemma HalfMarkerIsWritten(source: string, name: string, mark: string)
    requires IsMark(mark) && IsHalfMarked(source, name, mark)
    ensures RewriteTokens(source) == name + mark && !HasStrandedBang(source)
  {
    NameIsModern(name, mark);
    NameAndArrow(name, "=>");
  }

  lemma NameIsModern(name: string, mark: string)
    requires IsMark(mark) && |mark| == 23 && name == "fn" + Stem(mark)
    ensures IsWord(name) && !IsLegacyWord(name)
  {
    MarkIsWord(mark);
  }

  lemma NextIsName(source: string, name: string, arrow: string)
    requires IsWord(name) && arrow == "=>" && source == name + arrow
    ensures source != [] && Next(source) == Word(name) && Rest(source) == arrow
  {
    WordAlone(name, arrow);
    assert Lex(source)[0] == Next(source);
  }

  lemma NameAndArrow(name: string, arrow: string)
    requires IsWord(name) && !IsLegacyWord(name) && arrow == "=>"
    ensures RewriteTokens(name + arrow) == name + MATCH_ARROW && !HasStrandedBang(name + arrow)
  {
    NextIsName(name + arrow, name, arrow);
    ArrowAlone(arrow, LastOf(name), DepthAfter(Word(name), 0));
  }

  lemma ArrowAlone(arrow: string, previous: string, depth: nat)
    requires arrow == "=>"
    ensures Rewrite(arrow, previous, depth) == MATCH_ARROW && !HasStrandedBang(arrow)
  {
    assert Next(arrow) == FatArrow && Rest(arrow) == [];
    assert MATCH_ARROW + [] == MATCH_ARROW;
  }

  lemma MarkRepeats(written: string, mark: string)
    requires IsMark(mark) && |mark| == 23 && written == "fn" + Stem(mark) + mark
    ensures StartsWith(written[2..], mark)
  {
    var s := written[2..];
    assert s[..21] == mark[..21];
    assert s[21] == mark[0] == mark[21] && s[22] == mark[1] == mark[22];
    assert s[..23] == s[..21] + [s[21], s[22]] && mark == mark[..21] + [mark[21], mark[22]];
  }

  lemma HalfMarkerFrees(written: string, name: string, mark: string)
    requires IsMark(mark) && |mark| == 23 && name == "fn" + Stem(mark) && written == name + mark
    ensures LineFrees(written, mark)
  {
    assert written[|written| - 1..] == "_";
    assert !EndsWith(written, "\n");
    MarkRepeats(written, mark);
    assert !StartsWith(written, mark) by {
      assert written[..|mark|][0] == 'f';
    }
    assert !StartsWith(written[1..], mark) by {
      assert written[1..][..|mark|][0] == 'n';
    }
    assert written[1..][1..] == written[2..];
    assert Find(written[2..], mark) == Some(0);
    assert Find(written[1..], mark) == Some(1);
    assert written[..2] == "fn";
    FnIsLast("fn");
  }

  lemma FnIsLast(s: string)
    requires s == "fn"
    ensures FreesLegacy(s)
  {
    assert s[..1] == "f" && s[..1][..0] == [];
    assert Trail(s[..1]) == Trail([]) + ['f'];
    assert Trail(s) == s;
    assert Strip(s) == s;
  }

  lemma HalfMarkerSplits(written: string, name: string, mark: string)
    requires IsMark(mark) && |mark| == 23 && name == "fn" + Stem(mark) && written == name + mark
    ensures FreesWord(written)
  {
    HalfMarkerFrees(written, name, mark);
    NameIsModern(name, mark);
    MarkIsWord(mark);
    RunIsLine(written, name, mark);
    assert LineFrees(Lines(written, false)[0], mark);
  }

  lemma RunIsLine(written: string, name: string, mark: string)
    requires IsWord(name) && IsWord(mark) && written == name + mark
    ensures Lines(written, false) == [written]
  {
    assert forall j :: 0 <= j < |written| ==> IsWordChar(written[j]);
    WholeIsLine(written);
  }

  /** Half a marker behind `fn`: no marker and no stranded bang, but the pass splits the word. */
  lemma HalfMarkerExample()
    ensures var source := "fn__SPECTRA_MATCH_ARROW=>";
            && !Has(source, MATCH_ARROW) && !HasStrandedBang(source)
            && BothPasses(BothPasses(source)) != BothPasses(source)
  {
    var source, name, mark := "fn__SPECTRA_MATCH_ARROW=>", "fn__SPECTRA_MATCH_ARROW", MATCH_ARROW;
    StemOfMark(mark);
    assert name == "fn" + MARK_STEM && source == name + "=>";
    HalfMarkerChanges(source, name, mark);
  }

  lemma HalfMarkerChanges(source: string, name: string, mark: string)
    requires IsMark(mark) && IsHalfMarked(source, name, mark)
    ensures !Has(source, mark) && !HasStrandedBang(source)
    ensures BothPasses(BothPasses(source)) != BothPasses(source)
  {
    HalfMarkerIsNoMarker(source, name, mark);
    HalfMarkerIsWritten(source, name, mark);
    HalfMarkerSplits(name + mark, name, mark);
    SecondRun(source);
  }
}
