/** Where markers stand in a rewritten text: at the arrows of the source, or half in a word that
    ends like a marker and half in the arrow behind it. */
module SurfaceMarkers {
  import opened PythonText
  import opened SurfaceLexer
  import opened SurfaceRewriter
  import opened SurfaceRelexing
  import opened SurfaceEcho
  import opened SurfaceCuts
  import opened SurfaceArrows
  import opened SurfaceEdits
  import opened SurfaceArms

  // ----- the word at the beginning of a rewritten text -----

  lemma LegacyStarts(w: string)
    requires IsLegacyWord(w)
    ensures w != [] && w[0] in {'f', 's', 'p', 'e', 'o', 'u'}
  {
  }

  lemma LeadStarts(out: string)
    ensures out == [] || !IsWordChar(out[0]) ==> LeadWord(out) == []
    ensures out != [] && IsWordStart(out[0]) ==>
              LeadWord(out) == out[..Run(out)] && LeadWord(out) != [] && LeadWord(out)[0] == out[0]
  {
  }

  lemma LeadByLetter(out: string)
    requires out != [] && !IsDigit(out[0]) && out[0] !in {'f', 's', 'p', 'e', 'o', 'u'}
    ensures !IsLegacyWord(LeadWord(out))
  {
    LeadStarts(out);
    if IsLegacyWord(LeadWord(out)) {
      LegacyStarts(LeadWord(out));
    }
  }

  lemma LeadOfWord(w: string, tail: string)
    requires IsModern(w) && GluesSafely(tail)
    ensures !IsLegacyWord(LeadWord(w + tail))
  {
    var out := w + tail;
    RunOfAppend(w, tail);
    LeadStarts(out);
    assert out[..Run(out)] == w + tail[..Run(tail)];
    GluedIsFresh(w, tail);
  }

  lemma LeadOfTwoWords(v: string, w: string, tail: string)
    requires IsModern(v)
    ensures !IsLegacyWord(LeadWord(v + [' '] + w + tail))
  {
    var rest := [' '] + (w + tail);
    assert v + [' '] + w + tail == v + rest;
    assert Run(rest) == 0;
    LeadOfWord(v, rest);
  }

  lemma LeadOfWordPiece(s: string, previous: string, depth: nat)
    requires s != [] && Next(s).Word?
    ensures !IsLegacyWord(LeadWord(Rewrite(s, previous, depth)))
  {
    NextWord(s);
    var w, tail := Next(s).text, Tail(s, previous, depth);
    LastOfReplacement(w);
    RunBehindWord(Rest(s), LastOf(Replacement(w)), depth);
    if w in {"elif", "elseif", "unless"} {
      var first, second := ReplacementIsTwoWords(w);
      LeadOfTwoWords(first, second, tail);
    } else {
      ReplacementIsModern(w);
      LeadOfWord(Replacement(w), tail);
    }
  }

  lemma LeadOfOther(s: string, previous: string, depth: nat)
    requires s != [] && !IsWordChar(s[0])
    ensures !IsLegacyWord(LeadWord(Rewrite(s, previous, depth)))
  {
    var out, piece := Rewrite(s, previous, depth), Piece(Next(s), Rest(s), previous, depth);
    FirstOfPiece(s, previous, depth);
    RewriteUnfolds(s, previous, depth, piece);
    if piece == [] {
      SemicolonIsNext(s);
      if Rest(s) != [] {
        DroppedFront(Rest(s), depth);
      }
      assert out == Tail(s, previous, depth);
      LeadStarts(out);
    } else {
      assert out[0] == piece[0];
      OtherPieceStarts(s, previous, depth);
      LeadByLetter(out);
    }
  }

  lemma OtherPieceStarts(s: string, previous: string, depth: nat)
    requires s != [] && !IsWordChar(s[0])
    ensures var piece := Piece(Next(s), Rest(s), previous, depth);
            piece != [] ==> !IsDigit(piece[0]) && piece[0] !in {'f', 's', 'p', 'e', 'o', 'u'}
  {
  }

  /** No legacy word stands at the beginning of a rewritten text, whatever it was rewritten from. */
  lemma {:induction false} LeadIsModern(s: string, previous: string, depth: nat)
    ensures !IsLegacyWord(LeadWord(Rewrite(s, previous, depth)))
    decreases |s|
  {
    if s == [] {
      LeadStarts(Rewrite(s, previous, depth));
    } else if IsWordStart(s[0]) {
      LeadOfWordPiece(s, previous, depth);
    } else if IsDigit(s[0]) {
      DigitIsNext(s, previous, depth);
      LeadIsModern(s[1..], [s[0]], depth);
      RunBehindDigit(Rewrite(s, previous, depth));
    } else {
      LeadOfOther(s, previous, depth);
    }
  }

  lemma DigitIsNext(s: string, previous: string, depth: nat)
    requires s != [] && IsDigit(s[0])
    ensures var out := Rewrite(s, previous, depth);
            out != [] && out[0] == s[0] && out[1..] == Rewrite(s[1..], [s[0]], depth)
  {
    AloneIsCopied(s, previous, depth);
    PlainRest(s);
    RewriteUnfolds(s, previous, depth, [s[0]]);
    var tail := Rewrite(s[1..], [s[0]], depth);
    assert ([s[0]] + tail)[1..] == tail;
  }

  lemma PlainRest(s: string)
    requires s != [] && Next(s) == Plain(s[0])
    ensures Rest(s) == s[1..]
  {
  }

  // ----- occurrences that straddle a piece -----

  predicate MarkedAt(s: string, i: nat, mark: string) {
    i <= |s| && StartsWith(s[i..], mark)
  }

  /** No marker begins in front of `i` and reaches behind it. */
  predicate IsFirstAt(s: string, i: nat, mark: string) {
    forall j :: 0 <= j < i && i < j + |mark| ==> !MarkedAt(s, j, mark)
  }

  /** A marker overlaps another one by its last underscores only. */
  lemma Overlap(mark: string, k: nat)
    requires IsMark(mark) && 0 < k < |mark| && mark[k..] == mark[..|mark| - k]
    ensures k == 21 || k == 22
  {
    assert mark[k..][0] == mark[0];
    if k < 22 {
      assert mark[k..][1] == mark[1];
    }
  }

  lemma MarkedParts(a: string, b: string, i: nat, mark: string)
    requires MarkedAt(a + b, i, mark)
    ensures i >= |a| ==> MarkedAt(b, i - |a|, mark)
    ensures i + |mark| <= |a| ==> Has(a, mark)
    ensures i < |a| < i + |mark| ==> a[i..] == mark[..|a| - i] && StartsWith(b, mark[|a| - i..])
  {
    var s := a + b;
    assert s[i..][..|mark|] == mark;
    if i >= |a| {
      assert s[i..] == b[i - |a|..];
    } else if i + |mark| <= |a| {
      assert a[i..][..|mark|] == mark;
      OccursAt(a, mark, i);
    } else {
      Straddles(a, b, i, mark);
    }
  }

  lemma Straddles(a: string, b: string, i: nat, mark: string)
    requires i < |a| < i + |mark| && |a + b| >= i + |mark| && (a + b)[i..][..|mark|] == mark
    ensures a[i..] == mark[..|a| - i] && StartsWith(b, mark[|a| - i..])
  {
    var k := |a| - i;
    assert (a + b)[i..] == a[i..] + b;
    assert (a[i..] + b)[..|mark|] == a[i..] + b[..|mark| - k];
    assert (a[i..] + b[..|mark| - k])[..k] == a[i..] && (a[i..] + b[..|mark| - k])[k..] == b[..|mark| - k];
  }

  /** A marker that begins inside the piece of a token other than an arrow begins in a word in
      front of an arrow, and that word ends in 21 or 22 characters of the marker. */
  lemma Straddling(s: string, previous: string, depth: nat, i: nat, mark: string)
    requires IsMark(mark) && s != [] && !Has(s, mark) && !Next(s).FatArrow?
    requires var piece := Piece(Next(s), Rest(s), previous, depth);
             i < |piece| && MarkedAt(Rewrite(s, previous, depth), i, mark)
    ensures var piece := Piece(Next(s), Rest(s), previous, depth);
            && Next(s) == Word(piece) && Rest(s) != [] && Next(Rest(s)).FatArrow?
            && (|piece| - i == 21 || |piece| - i == 22) && piece[i..] == mark[..|piece| - i]
  {
    var piece, tail := Piece(Next(s), Rest(s), previous, depth), Tail(s, previous, depth);
    RewriteUnfolds(s, previous, depth, piece);
    MarkedParts(piece, tail, i, mark);
    MarkIsWord(mark);
    if Has(piece, mark) {
      PieceMarker(s, previous, depth, mark);
    }
    var k := |piece| - i;
    BorderChars(piece, tail, k, mark);
    BeforeArrow(s, previous, depth);
    ArrowIsWritten(Rest(s), LastOf(piece), DepthAfter(Next(s), depth), mark);
    SameStart(tail, mark, k);
    Overlap(mark, k);
  }

  lemma BorderChars(piece: string, tail: string, k: nat, mark: string)
    requires IsMark(mark) && 0 < k < |mark| && k <= |piece|
    requires piece[|piece| - k..] == mark[..k] && StartsWith(tail, mark[k..])
    ensures tail != [] && IsMarkerChar(piece[|piece| - 1]) && IsMarkerChar(tail[0])
  {
    assert piece[|piece| - k..][k - 1] == mark[k - 1] == piece[|piece| - 1];
    PrefixAt(tail, mark[k..], 0);
    assert mark[k..][0] == mark[k];
    MarkerChars(mark, mark[k - 1]);
    MarkerChars(mark, mark[k]);
  }

  /** Marker characters on both sides of a border: a word in front of an arrow. */
  lemma BeforeArrow(s: string, previous: string, depth: nat)
    requires s != [] && !Next(s).FatArrow?
    requires var piece, tail := Piece(Next(s), Rest(s), previous, depth), Tail(s, previous, depth);
             piece != [] && tail != [] && IsMarkerChar(piece[|piece| - 1]) && IsMarkerChar(tail[0])
    ensures Next(s) == Word(Piece(Next(s), Rest(s), previous, depth)) && Rest(s) != [] && Next(Rest(s)).FatArrow?
  {
    var t, rest := Next(s), Rest(s);
    var piece := Piece(t, rest, previous, depth);
    assert rest != [];
    if IsWordChar(rest[0]) {
      LastIsNoMarker(s, previous, depth);
    } else if !Next(rest).FatArrow? {
      FirstIsNoMarker(rest, LastOf(piece), DepthAfter(t, depth));
    }
    LastIsWord(s, previous, depth);
  }

  lemma LastIsWord(s: string, previous: string, depth: nat)
    requires s != [] && Rest(s) != [] && Next(Rest(s)).FatArrow? && !Next(s).FatArrow?
    requires var piece := Piece(Next(s), Rest(s), previous, depth); piece != [] && IsMarkerChar(piece[|piece| - 1])
    ensures Next(s) == Word(Piece(Next(s), Rest(s), previous, depth))
  {
    var t := Next(s);
    if t.Comment? {
      CommentEnds(s);
    } else if t.Literal? {
      LiteralEnds(s);
    } else if t.Word? {
      ReplacedEnds(t.text);
    }
  }

  lemma LiteralEnds(s: string)
    requires s != [] && Next(s).Literal? && Rest(s) != []
    ensures var text := Next(s).text; text != [] && IsQuote(text[|text| - 1])
  {
    ClosedLiteral(s[1..], s[0], false);
    var n, text := LiteralLength(s[1..], s[0], false), Next(s).text;
    assert text[|text| - 1] == s[n] == s[1..][n - 1];
  }

  lemma ReplacedEnds(w: string)
    ensures Replacement(w) == w || !IsMarkerChar(Replacement(w)[|Replacement(w)| - 1])
  {
  }

  lemma ArrowIsWritten(rest: string, previous: string, depth: nat, mark: string)
    requires IsMark(mark) && rest != [] && Next(rest).FatArrow?
    ensures StartsWith(Rewrite(rest, previous, depth), mark)
    ensures Rewrite(rest, previous, depth) == mark + Rewrite(Rest(rest), LastOf(mark), depth)
  {
    RewriteUnfolds(rest, previous, depth, mark);
    AppendStarts(mark, Rewrite(Rest(rest), LastOf(mark), depth));
  }

  lemma SameStart(tail: string, mark: string, k: nat)
    requires k < |mark| && StartsWith(tail, mark[k..]) && StartsWith(tail, mark)
    ensures mark[k..] == mark[..|mark| - k]
  {
    assert tail[..|mark|][..|mark| - k] == tail[..|mark| - k];
  }

  // ----- the word behind a marker -----

  lemma FirstInTail(a: string, b: string, i: nat, mark: string)
    requires |a| <= i && IsFirstAt(a + b, i, mark)
    ensures IsFirstAt(b, i - |a|, mark)
  {
    forall j | 0 <= j < i - |a| && i - |a| < j + |mark| ensures !MarkedAt(b, j, mark) {
      assert !MarkedAt(a + b, |a| + j, mark);
      assert j <= |b| ==> (a + b)[|a| + j..] == b[j..];
    }
  }

  lemma BehindPiece(piece: string, tail: string, i: nat, n: nat)
    requires |piece| <= i && i + n <= |piece + tail|
    ensures (piece + tail)[i + n..] == tail[i - |piece| + n..]
  {
  }

  lemma NotInsideArrow(tail: string, i: nat, mark: string)
    requires i < |mark| && IsFirstAt(mark + tail, i, mark)
    ensures i == 0
  {
    AppendStarts(mark, tail);
    assert (mark + tail)[0..] == mark + tail;
    assert MarkedAt(mark + tail, 0, mark);
  }

  lemma BehindHalf(piece: string, tail: string, i: nat, mark: string)
    requires IsMark(mark) && i < |piece| && (|piece| - i == 21 || |piece| - i == 22) && StartsWith(tail, mark)
    ensures i + |mark| <= |piece + tail| && !IsLegacyWord(LeadWord((piece + tail)[i + |mark|..]))
  {
    MarkIsWord(mark);
    var m := |mark| - (|piece| - i);
    var out := (piece + tail)[i + |mark|..];
    assert out == tail[m..] && tail[..|mark|][m] == tail[m];
    LeadByLetter(out);
  }

  lemma {:induction false} TailIsModern(s: string, previous: string, depth: nat, i: nat, mark: string)
    requires IsMark(mark) && !Has(s, mark)
    requires MarkedAt(Rewrite(s, previous, depth), i, mark) && IsFirstAt(Rewrite(s, previous, depth), i, mark)
    ensures i + |mark| <= |Rewrite(s, previous, depth)|
    ensures !IsLegacyWord(LeadWord(Rewrite(s, previous, depth)[i + |mark|..]))
    decreases |s|
  {
    MarkIsWord(mark);
    if s != [] {
      var piece, tail := Piece(Next(s), Rest(s), previous, depth), Tail(s, previous, depth);
      RewriteUnfolds(s, previous, depth, piece);
      if i >= |piece| {
        MarkedParts(piece, tail, i, mark);
        FirstInTail(piece, tail, i, mark);
        RestHasNone(s, mark);
        TailIsModern(Rest(s), LastOf(piece), DepthAfter(Next(s), depth), i - |piece|, mark);
        BehindPiece(piece, tail, i, |mark|);
      } else if Next(s).FatArrow? {
        NotInsideArrow(tail, i, mark);
        assert (mark + tail)[|mark|..] == tail;
        LeadIsModern(Rest(s), LastOf(piece), DepthAfter(Next(s), depth));
      } else {
        Straddling(s, previous, depth, i, mark);
        ArrowIsWritten(Rest(s), LastOf(piece), DepthAfter(Next(s), depth), mark);
        BehindHalf(piece, tail, i, mark);
      }
    }
  }

  lemma RestHasNone(s: string, mark: string)
    requires s != [] && !Has(s, mark)
    ensures !Has(Rest(s), mark)
  {
    PartsHaveNone(s, |Spelling(Next(s))|, mark);
  }

  // ----- the first marker of every line -----

  lemma NoneBeforeLine(p: string, raw: string, rest: string, j: nat, mark: string)
    requires IsMark(mark) && EndsInSpace(p) && j < |p| < j + |mark|
    ensures !MarkedAt(p + (raw + rest), j, mark)
  {
    var z, k := p + (raw + rest), |p| - 1 - j;
    MarkIsWord(mark);
    if |z| >= j + |mark| {
      assert z[j..][k] == p[|p| - 1];
      SpaceStandsAlone(p[|p| - 1]);
      assert mark[k] in mark;
      MarkerChars(mark, mark[k]);
      OtherHead(z[j..], mark, k);
    }
  }

  lemma NoneInLine(p: string, raw: string, rest: string, j: nat, mark: string)
    requires Has(Body(raw), mark) && |p| <= j < |p| + |BeforeMark(raw, mark)|
    ensures !MarkedAt(p + (raw + rest), j, mark)
  {
    var z, line := p + (raw + rest), Body(raw);
    FirstFound(line, mark);
    BodyAndFeed(raw);
    assert !StartsWith(line[j - |p|..], mark);
    assert |line[j - |p|..]| >= |mark|;
    assert z[j..] == line[j - |p|..] + (Feed(raw) + rest);
    assert z[j..][..|mark|] == line[j - |p|..][..|mark|];
  }

  lemma FirstOfLine(z: string, p: string, raw: string, rest: string, mark: string)
    requires IsMark(mark) && (p == [] || EndsInSpace(p)) && Has(Body(raw), mark) && z == p + (raw + rest)
    ensures var i := |p| + |BeforeMark(raw, mark)|;
            && MarkedAt(z, i, mark) && IsFirstAt(z, i, mark)
            && z[..i] == p + BeforeMark(raw, mark)
            && i + |mark| <= |z| && z[i + |mark|..] == AfterMark(raw, mark) + rest
  {
    var before, after := BeforeMark(raw, mark), AfterMark(raw, mark);
    var i := |p| + |before|;
    LineParts(raw, mark);
    PlaceOfMark(p, before, mark, after, rest);
    forall j | 0 <= j < i && i < j + |mark| ensures !MarkedAt(z, j, mark) {
      if j < |p| {
        NoneBeforeLine(p, raw, rest, j, mark);
      } else {
        NoneInLine(p, raw, rest, j, mark);
      }
    }
  }

  lemma PlaceOfMark(p: string, before: string, mark: string, after: string, rest: string)
    ensures var z, i := p + ((before + (mark + after)) + rest), |p| + |before|;
            && i + |mark| <= |z| && StartsWith(z[i..], mark) && z[..i] == p + before && z[i + |mark|..] == after + rest
  {
    var z, i := p + ((before + (mark + after)) + rest), |p| + |before|;
    assert z == (p + before) + (mark + (after + rest));
    assert z[i..] == mark + (after + rest);
    AppendStarts(mark, after + rest);
  }

  lemma LineLeadsModern(source: string, p: string, raw: string, rest: string, mark: string)
    requires IsMark(mark) && !Has(source, mark) && (p == [] || EndsInSpace(p))
    requires RewriteTokens(source) == p + (raw + rest)
    ensures LeadsModern(raw, rest, mark)
  {
    if Has(Body(raw), mark) {
      var z := RewriteTokens(source);
      var i := PlaceInText(z, p, raw, rest, mark);
      TextTailIsModern(source, z, i, mark);
    }
  }

  lemma PlaceInText(z: string, p: string, raw: string, rest: string, mark: string) returns (i: nat)
    requires IsMark(mark) && (p == [] || EndsInSpace(p)) && Has(Body(raw), mark) && z == p + (raw + rest)
    ensures MarkedAt(z, i, mark) && IsFirstAt(z, i, mark) && i + |mark| <= |z|
    ensures z[..i] == p + BeforeMark(raw, mark) && z[i + |mark|..] == AfterMark(raw, mark) + rest
  {
    FirstOfLine(z, p, raw, rest, mark);
    i := |p| + |BeforeMark(raw, mark)|;
  }

  lemma TextTailIsModern(source: string, z: string, i: nat, mark: string)
    requires IsMark(mark) && !Has(source, mark) && z == RewriteTokens(source)
    requires MarkedAt(z, i, mark) && IsFirstAt(z, i, mark) && i + |mark| <= |z|
    ensures !IsLegacyWord(LeadWord(z[i + |mark|..]))
  {
    TailIsModern(source, "", 0, i, mark);
  }

  lemma {:induction false} LinesLeadModern(source: string, p: string, lines: seq<string>, mark: string)
    requires IsMark(mark) && !Has(source, mark) && (p == [] || EndsInSpace(p)) && AreLines(lines)
    requires RewriteTokens(source) == p + Concat(lines)
    ensures LeadModern(lines, mark)
    decreases |lines|
  {
    if lines != [] {
      var raw, rest := lines[0], lines[1..];
      LineLeadsModern(source, p, raw, Concat(rest), mark);
      if rest != [] {
        NextLine(p, raw, Concat(rest));
        LinesLeadModern(source, p + raw, rest, mark);
      }
    }
  }

  lemma NextLine(p: string, raw: string, rest: string)
    requires EndsInSpace(raw)
    ensures p + (raw + rest) == (p + raw) + rest && EndsInSpace(p + raw)
  {
    assert (p + raw)[|p + raw| - 1] == raw[|raw| - 1];
  }

  // ----- the word in front of a marker -----

  /** The marker without its last underscores. */
  function Stem(mark: string): string
    requires |mark| >= 2
  {
    mark[..|mark| - 2]
  }

  lemma StemIsInMark(s: string, mark: string)
    requires |mark| >= 2 && !Has(s, Stem(mark))
    ensures !Has(s, mark)
  {
    FirstFound(s, mark);
    FirstFound(s, Stem(mark));
    if Has(s, mark) {
      StemStarts(s[Find(s, mark).value..], mark);
    }
  }

  lemma StemStarts(s: string, mark: string)
    requires |mark| >= 2 && StartsWith(s, mark)
    ensures StartsWith(s, Stem(mark))
  {
    assert s[..|mark|][..|mark| - 2] == s[..|mark| - 2];
  }

  predicate HoldsUnderscore(s: string) {
    '_' in s
  }

  /** What is written so far can stand in front of the next token. */
  predicate IsReady(ctx: string, s: string) {
    s == [] || (
      && (Next(s).FatArrow? ==> !IsLegacyWord(LastWord(ctx)))
      && (IsWordChar(s[0]) ==> LastWord(ctx) == [] || HoldsUnderscore(LastWord(ctx))))
  }

  lemma {:induction false} UnderscoreStays(s: string)
    requires HoldsUnderscore(s)
    ensures HoldsUnderscore(WithoutDigits(s)) && !IsLegacyWord(WithoutDigits(s))
  {
    if IsDigit(s[0]) {
      assert '_' in s[1..];
      UnderscoreStays(s[1..]);
    } else {
      NoLegacyWith(s, '_');
    }
  }

  lemma {:induction false} NothingButDigits(s: string)
    requires WithoutDigits(s) == []
    ensures AllDigits(s)
  {
    if s != [] {
      NothingButDigits(s[1..]);
    }
  }

  lemma {:induction false} UnderscoreWasThere(s: string)
    requires HoldsUnderscore(WithoutDigits(s))
    ensures HoldsUnderscore(s)
  {
    if s != [] && IsDigit(s[0]) {
      UnderscoreWasThere(s[1..]);
    }
  }

  /** A run of word characters behind what is ready for one. */
  lemma RunIsReady(ctx: string, r: string)
    requires IsRun(r) && (LastWord(ctx) == [] || HoldsUnderscore(LastWord(ctx)))
    ensures || LastWord(ctx + r) == WithoutDigits(r)
            || (HoldsUnderscore(LastWord(ctx + r)) && !IsLegacyWord(LastWord(ctx + r)))
  {
    TrailTwo(ctx, r);
    if LastWord(ctx) == [] {
      NothingButDigits(Trail(ctx));
      DigitsAreLeft(Trail(ctx), r);
    } else {
      UnderscoreWasThere(Trail(ctx));
      UnderscoreStays(Trail(ctx) + r);
    }
  }

  lemma ArrowIsReady(ctx: string, rest: string, mark: string)
    requires IsMark(mark)
    ensures IsReady(ctx + mark, rest)
  {
    MarkIsWord(mark);
    TrailTwo(ctx, mark);
    assert mark[0] in mark && HoldsUnderscore(Trail(ctx) + mark);
    UnderscoreStays(Trail(ctx) + mark);
  }

  lemma ModernIsReady(ctx: string, w: string)
    requires IsModern(w) && (LastWord(ctx) == [] || HoldsUnderscore(LastWord(ctx)))
    ensures !IsLegacyWord(LastWord(ctx + w))
  {
    RunIsReady(ctx, w);
    assert WithoutDigits(w) == w;
  }

  lemma TwoWordsAreReady(ctx: string, v: string, w: string)
    requires IsModern(w)
    ensures !IsLegacyWord(LastWord(ctx + (v + [' '] + w)))
  {
    var x := ctx + v + [' '];
    assert ctx + (v + [' '] + w) == x + w && x[|x| - 1] == ' ';
    LastWordBehind(x, w);
    TrailIsAll(w);
    assert WithoutDigits(w) == w;
  }

  lemma WordIsReady(ctx: string, s: string)
    requires s != [] && Next(s).Word? && IsReady(ctx, s)
    ensures IsReady(ctx + Replacement(Next(s).text), Rest(s))
  {
    NextWord(s);
    var w := Next(s).text;
    if w in {"elif", "elseif", "unless"} {
      var first, second := ReplacementIsTwoWords(w);
      TwoWordsAreReady(ctx, first, second);
    } else {
      ReplacementIsModern(w);
      ModernIsReady(ctx, Replacement(w));
    }
  }

  lemma DigitIsReady(ctx: string, s: string)
    requires s != [] && IsDigit(s[0]) && IsReady(ctx, s)
    ensures IsReady(ctx + [s[0]], s[1..])
  {
    RunIsReady(ctx, [s[0]]);
    assert [s[0]][1..] == [] && WithoutDigits([s[0]]) == [];
  }

  /** Behind a character that belongs to no word everything is ready. */
  lemma OtherIsReady(ctx: string, piece: string, rest: string)
    requires piece != [] && !IsWordChar(piece[|piece| - 1])
    ensures IsReady(ctx + piece, rest)
  {
    var a := ctx + piece;
    assert a[|a| - 1] == piece[|piece| - 1];
    assert LastWord(a) == [];
  }

  /** In front of such a character that starts no arrow as well. */
  lemma ReadyForOther(ctx: string, rest: string)
    requires rest == [] || (!IsWordChar(rest[0]) && rest[0] != '=')
    ensures IsReady(ctx, rest)
  {
  }

  lemma PieceIsReady(ctx: string, s: string, previous: string, depth: nat, mark: string)
    requires IsMark(mark) && s != [] && IsReady(ctx, s)
    ensures IsReady(ctx + Piece(Next(s), Rest(s), previous, depth), Rest(s))
  {
    var t, rest := Next(s), Rest(s);
    var piece := Piece(t, rest, previous, depth);
    match t
    case FatArrow => ArrowIsReady(ctx, rest, mark);
    case Word(w) => WordIsReady(ctx, s);
    case Comment(_) => CommentEnds(s); ReadyForOther(ctx + piece, rest);
    case Literal(_) =>
      if rest != [] {
        LiteralEnds(s);
        OtherIsReady(ctx, piece, rest);
      }
    case Arrow => ReturnsIsReady(ctx, piece, rest, previous, depth);
    case Semicolon =>
      if piece == [] {
        DroppedIsReady(ctx, rest);
        assert ctx + piece == ctx;
      } else {
        OtherIsReady(ctx, piece, rest);
      }
    case Plain(c) =>
      if IsDigit(c) {
        DigitIsReady(ctx, s);
      } else {
        OtherIsReady(ctx, piece, rest);
      }
    case _ => OtherIsReady(ctx, piece, rest);
  }

  lemma DroppedIsReady(ctx: string, rest: string)
    requires DropsSemicolon(rest)
    ensures IsReady(ctx, rest)
  {
    if rest != [] {
      AfterDroppedSemicolon(rest);
    }
    ReadyForOther(ctx, rest);
  }

  lemma ReturnsIsReady(ctx: string, piece: string, rest: string, previous: string, depth: nat)
    requires piece == Piece(Arrow, rest, previous, depth)
    ensures IsReady(ctx + piece, rest)
  {
    if StartsWithSpace(rest) {
      SpaceStandsAlone(rest[0]);
      ReadyForOther(ctx + piece, rest);
    } else {
      assert piece[|piece| - 1] == ' ';
      OtherIsReady(ctx, piece, rest);
    }
  }

  lemma HalfHasStem(s: string, w: string, i: nat, mark: string)
    requires IsMark(mark) && |mark| == 23 && s != [] && Next(s) == Word(w) && i < |w|
    requires (|w| - i == 21 || |w| - i == 22) && w[i..] == mark[..|w| - i]
    ensures Has(s, Stem(mark))
  {
    assert w[i..][..21] == mark[..21];
    OccursAt(w, Stem(mark), i);
    HasInPart([], w, Rest(s), Stem(mark));
    assert [] + w + Rest(s) == s;
  }

  /** Without the stem of a marker in the source, no legacy word touches a marker from the left. */
  lemma {:induction false} PreIsModern(ctx: string, s: string, previous: string, depth: nat, i: nat, mark: string)
    requires IsMark(mark) && |mark| == 23 && !Has(s, Stem(mark)) && IsReady(ctx, s)
    requires MarkedAt(Rewrite(s, previous, depth), i, mark) && IsFirstAt(Rewrite(s, previous, depth), i, mark)
    ensures !IsLegacyWord(LastWord(ctx + Rewrite(s, previous, depth)[..i]))
    decreases |s|
  {
    if s != [] {
      var piece, tail := Piece(Next(s), Rest(s), previous, depth), Tail(s, previous, depth);
      RewriteUnfolds(s, previous, depth, piece);
      StemIsInMark(s, mark);
      if i >= |piece| {
        MarkedParts(piece, tail, i, mark);
        FirstInTail(piece, tail, i, mark);
        RestHasNone(s, Stem(mark));
        PieceIsReady(ctx, s, previous, depth, mark);
        PreIsModern(ctx + piece, Rest(s), LastOf(piece), DepthAfter(Next(s), depth), i - |piece|, mark);
        UpToMark(ctx, piece, tail, i);
      } else if Next(s).FatArrow? {
        NotInsideArrow(tail, i, mark);
        assert ctx + (piece + tail)[..0] == ctx;
      } else {
        Straddling(s, previous, depth, i, mark);
        HalfHasStem(s, piece, i, mark);
      }
    }
  }

  lemma UpToMark(ctx: string, piece: string, tail: string, i: nat)
    requires |piece| <= i <= |piece + tail|
    ensures (ctx + piece) + tail[..i - |piece|] == ctx + (piece + tail)[..i]
  {
  }

  lemma PreInText(source: string, i: nat, mark: string)
    requires IsMark(mark) && |mark| == 23 && !Has(source, Stem(mark))
    requires MarkedAt(RewriteTokens(source), i, mark) && IsFirstAt(RewriteTokens(source), i, mark)
    ensures !IsLegacyWord(LastWord(RewriteTokens(source)[..i]))
  {
    StartIsReady(source);
    PreIsModern([], source, "", 0, i, mark);
    NothingBefore(RewriteTokens(source)[..i]);
  }

  lemma NothingBefore(s: string)
    ensures [] + s == s
  {
  }

  lemma LineFreesNothing(source: string, p: string, raw: string, rest: string, mark: string)
    requires IsMark(mark) && |mark| == 23 && !Has(source, Stem(mark)) && (p == [] || EndsInSpace(p))
    requires RewriteTokens(source) == p + (raw + rest)
    ensures !LineFrees(raw, mark)
  {
    if Has(Body(raw), mark) {
      var i := PlaceInText(RewriteTokens(source), p, raw, rest, mark);
      PreInText(source, i, mark);
      FreesNothing(p, BeforeMark(raw, mark));
    }
  }

  lemma {:induction false} LinesFreeNothing(source: string, p: string, lines: seq<string>, mark: string)
    requires IsMark(mark) && |mark| == 23 && !Has(source, Stem(mark)) && (p == [] || EndsInSpace(p)) && AreLines(lines)
    requires RewriteTokens(source) == p + Concat(lines)
    ensures !LinesFree(lines, mark)
    decreases |lines|
  {
    if lines != [] {
      var raw, rest := lines[0], lines[1..];
      LineFreesNothing(source, p, raw, Concat(rest), mark);
      FirstFrees(lines, mark);
      if rest != [] {
        NextLine(p, raw, Concat(rest));
        LinesFreeNothing(source, p + raw, rest, mark);
      }
    }
  }

  lemma StartIsReady(s: string)
    ensures IsReady([], s)
  {
  }

  lemma FreesNothing(p: string, before: string)
    requires (p == [] || EndsInSpace(p)) && !IsLegacyWord(LastWord(p + before))
    ensures !FreesLegacy(before)
  {
    SpaceEndsNoWord(p);
    LastWordBehind(p, before);
  }
}
