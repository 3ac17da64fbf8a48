/** The migration's second pass over a text: the markers that token rewriting leaves for old
    match arrows become `then` or a colon (`normalize_match_arrows`). */
module SurfaceArrows {
  import opened PythonText
  import opened SurfaceLexer
  import opened SurfaceRewriter
  import opened SurfaceRelexing
  import opened SurfaceTheorems

  // ----- the pass -----

  /** The line up to its arrow, rewritten: `switch` arms take a colon, match arms `then`. */
  function Arm(before: string): string {
    var stripped, indent := Strip(before), before[..SpaceRun(before)];
    if StartsWith(stripped, "case ") || StartsWith(stripped, "else ") then before + ":"
    else if StartsWith(stripped, "when ") || StartsWith(stripped, "otherwise ") then before + "then"
    else if stripped == "_" || stripped == "default" || stripped == "otherwise" then indent + "otherwise then"
    else indent + "when " + stripped + " then"
  }

  /** The line without its line feed, and the line feed. */
  function Body(raw: string): string {
    if EndsWith(raw, "\n") then raw[..|raw| - 1] else raw
  }

  function Feed(raw: string): string {
    if EndsWith(raw, "\n") then "\n" else ""
  }

  function NormalizeLine(raw: string, mark: string): string {
    var line := Body(raw);
    var at := Find(line, mark);
    if at.None? then line + Feed(raw)
    else Arm(line[..at.value]) + line[at.value + |mark|..] + Feed(raw)
  }

  function NormalizeLines(lines: seq<string>, mark: string): (r: seq<string>)
    ensures |r| == |lines|
  {
    seq(|lines|, i requires 0 <= i < |lines| => NormalizeLine(lines[i], mark))
  }

  function Normalize(source: string, mark: string): string
    requires mark != []
  {
    Replace(Concat(NormalizeLines(Lines(source, false), mark)), mark, "then")
  }

  method NormalizeMatchArrows(source: string) returns (r: string)
    ensures r == Normalize(source, MATCH_ARROW)
  {
    var raw := Lines(source, false);
    var lines: seq<string> := [];
    var i := 0;
    while i < |raw|
      invariant 0 <= i <= |raw|
      invariant lines == NormalizeLines(raw, MATCH_ARROW)[..i]
    {
      lines := lines + [NormalizeLine(raw[i], MATCH_ARROW)];
      i := i + 1;
    }
    assert lines == NormalizeLines(raw, MATCH_ARROW);
    r := Replace(Concat(lines), MATCH_ARROW, "then");
  }

  // ----- no marker is left -----

  lemma {:induction false} ReplaceRemoves(s: string, p: string, r: string)
    requires p != [] && r != [] && SharesNothing(p, r)
    ensures !Has(Replace(s, p, r), p)
    decreases |s|
  {
    var at := Find(s, p);
    if at.Some? {
      var a, tail := s[..at.value], Replace(s[at.value + |p|..], p, r);
      ReplaceRemoves(s[at.value + |p|..], p, r);
      BeforeFirst(s, p);
      Between(a, r, tail, p);
    }
  }

  /** Whatever the marker, if it shares no letter with `then`: the pass leaves none. */
  lemma NormalizeRemoves(source: string, mark: string)
    requires mark != [] && SharesNothing(mark, "then")
    ensures !Has(Normalize(source, mark), mark)
  {
    ReplaceRemoves(Concat(NormalizeLines(Lines(source, false), mark)), mark, "then");
  }

  // ----- texts without markers -----

  lemma {:induction false} LinesHaveNone(s: string, p: string)
    requires p != [] && !Has(s, p)
    ensures forall i :: 0 <= i < |Lines(s, false)| ==> !Has(Lines(s, false)[i], p)
  {
    if s != [] {
      var n := LineEnd(s, false, 0);
      PartsHaveNone(s, n, p);
      LinesHaveNone(s[n..], p);
    }
  }

  lemma LineIsKept(raw: string, p: string)
    requires !Has(raw, p)
    ensures NormalizeLine(raw, p) == raw
  {
    if EndsWith(raw, "\n") {
      PartsHaveNone(raw, |raw| - 1, p);
      assert raw[|raw| - 1..] == "\n";
      assert raw == raw[..|raw| - 1] + raw[|raw| - 1..];
    }
  }

  /** The pass leaves a text alone exactly when it holds no marker. */
  lemma NormalizeFixedPoints(source: string, mark: string)
    requires mark != [] && SharesNothing(mark, "then")
    ensures Normalize(source, mark) == source <==> !Has(source, mark)
  {
    NormalizeRemoves(source, mark);
    if !Has(source, mark) {
      LinesHaveNone(source, mark);
      var lines := Lines(source, false);
      forall i | 0 <= i < |lines| ensures NormalizeLines(lines, mark)[i] == lines[i] {
        LineIsKept(lines[i], mark);
      }
      assert NormalizeLines(lines, mark) == lines;
      LinesMakeText(source, false);
    }
  }

  lemma NormalizeIsIdempotent(source: string, mark: string)
    requires mark != [] && SharesNothing(mark, "then")
    ensures Normalize(Normalize(source, mark), mark) == Normalize(source, mark)
  {
    NormalizeRemoves(source, mark);
    NormalizeFixedPoints(Normalize(source, mark), mark);
  }

  // ----- the marker -----

  /** The marker that the source uses. */
  predicate IsMark(p: string) {
    p == MATCH_ARROW
  }

  lemma MarkIsApart(p: string)
    requires IsMark(p)
    ensures p != [] && SharesNothing(p, "then")
  {
  }

  // ----- the pass adds no `>` -----

  /** How often `>` occurs. */
  function Heads(s: string): nat {
    if s == [] then 0 else (if s[0] == '>' then 1 else 0) + Heads(s[1..])
  }

  lemma {:induction false} HeadsTwo(a: string, b: string)
    ensures Heads(a + b) == Heads(a) + Heads(b)
  {
    if a == [] {
      assert a + b == b;
    } else {
      assert (a + b)[1..] == a[1..] + b;
      HeadsTwo(a[1..], b);
    }
  }

  lemma {:induction false} HeadsNone(s: string)
    requires '>' !in s
    ensures Heads(s) == 0
  {
    if s != [] {
      assert s[0] in s;
      HeadsNone(s[1..]);
    }
  }

  lemma HeadsCut(s: string, n: nat)
    requires n <= |s|
    ensures Heads(s) == Heads(s[..n]) + Heads(s[n..])
  {
    assert s == s[..n] + s[n..];
    HeadsTwo(s[..n], s[n..]);
  }

  lemma {:induction false} HeadsStripRight(s: string)
    ensures Heads(StripRight(s)) <= Heads(s)
  {
    if s != [] && IsSpace(s[|s| - 1]) {
      HeadsCut(s, |s| - 1);
      HeadsStripRight(s[..|s| - 1]);
    }
  }

  lemma HeadsAppend(a: string, b: string)
    requires '>' !in b
    ensures Heads(a + b) == Heads(a)
  {
    HeadsTwo(a, b);
    HeadsNone(b);
  }

  lemma HeadsArm(before: string)
    ensures Heads(Arm(before)) <= Heads(before)
  {
    var n := SpaceRun(before);
    HeadsCut(before, n);
    HeadsStripRight(before[n..]);
    HeadsAppend(before, ":");
    HeadsAppend(before, "then");
    HeadsAppend(before[..n], "otherwise then");
    HeadsWhen(before[..n], Strip(before));
  }

  lemma HeadsWhen(indent: string, pattern: string)
    ensures Heads(indent + "when " + pattern + " then") == Heads(indent) + Heads(pattern)
  {
    HeadsAppend(indent, "when ");
    HeadsTwo(indent + "when ", pattern);
    HeadsAppend(indent + "when " + pattern, " then");
  }

  lemma HeadsLine(raw: string, mark: string)
    ensures Heads(NormalizeLine(raw, mark)) <= Heads(raw)
  {
    var line, at := Body(raw), Find(Body(raw), mark);
    assert raw == line + Feed(raw);
    HeadsTwo(line, Feed(raw));
    if at.Some? {
      var n := at.value;
      HeadsCut(line, n);
      HeadsCut(line[n..], |mark|);
      assert line[n..][|mark|..] == line[n + |mark|..];
      HeadsArm(line[..n]);
      HeadsTwo(Arm(line[..n]), line[n + |mark|..]);
      HeadsTwo(Arm(line[..n]) + line[n + |mark|..], Feed(raw));
    }
  }

  lemma {:induction false} HeadsLines(lines: seq<string>, mark: string)
    ensures Heads(Concat(NormalizeLines(lines, mark))) <= Heads(Concat(lines))
  {
    if lines != [] {
      var done := NormalizeLines(lines, mark);
      HeadsLines(lines[1..], mark);
      HeadsLine(lines[0], mark);
      assert done[1..] == NormalizeLines(lines[1..], mark);
      HeadsTwo(lines[0], Concat(lines[1..]));
      HeadsTwo(done[0], Concat(done[1..]));
    }
  }

  lemma {:induction false} HeadsReplace(s: string, p: string, r: string)
    requires p != [] && '>' !in r
    ensures Heads(Replace(s, p, r)) <= Heads(s)
    decreases |s|
  {
    var at := Find(s, p);
    if at.Some? {
      var n := at.value;
      var rest := s[n + |p|..];
      HeadsReplace(rest, p, r);
      HeadsNone(r);
      HeadsCut(s, n);
      HeadsCut(s[n..], |p|);
      assert s[n..][|p|..] == rest;
      HeadsTwo(s[..n], r);
      HeadsTwo(s[..n] + r, Replace(rest, p, r));
    }
  }

  lemma NormalizeAddsNone(source: string, mark: string)
    requires mark != []
    ensures Heads(Normalize(source, mark)) <= Heads(source)
  {
    HeadsLines(Lines(source, false), mark);
    LinesMakeText(source, false);
    HeadsReplace(Concat(NormalizeLines(Lines(source, false), mark)), mark, "then");
  }

  // ----- rewriting tokens: arrows become markers and lose their `>` -----

  /** Somewhere in the code (not in a literal or comment) stands `=>`. */
  predicate HasFatArrow(s: string)
    decreases |s|
  {
    s != [] && (Next(s).FatArrow? || HasFatArrow(Rest(s)))
  }

  lemma ReplacementHasNone(w: string)
    requires Replacement(w) != w
    ensures '>' !in Replacement(w)
  {
  }

  lemma HeadsPiece(t: Token, rest: string, previous: string, depth: nat)
    ensures Heads(Piece(t, rest, previous, depth)) <= Heads(Spelling(t))
    ensures t.FatArrow? ==> Heads(Piece(t, rest, previous, depth)) < Heads(Spelling(t))
  {
    if t.FatArrow? {
      MarkerHasNone();
      FatArrowHasOne();
    } else if Piece(t, rest, previous, depth) != Spelling(t) {
      ChangedHasNone(t, rest, previous, depth);
      HeadsNone(Piece(t, rest, previous, depth));
    }
  }

  lemma ChangedHasNone(t: Token, rest: string, previous: string, depth: nat)
    requires !t.FatArrow? && Piece(t, rest, previous, depth) != Spelling(t)
    ensures '>' !in Piece(t, rest, previous, depth)
  {
    if t.Word? {
      ReplacementHasNone(t.text);
    }
  }

  lemma FatArrowHasOne()
    ensures Heads("=>") == 1
  {
    assert "=>" == "=" + ">";
    HeadsTwo("=", ">");
  }

  lemma MarkerHasNone()
    ensures Heads(MATCH_ARROW) == 0
  {
    assert '>' !in MATCH_ARROW;
    HeadsNone(MATCH_ARROW);
  }

  lemma {:induction false} RewriteCounts(s: string, previous: string, depth: nat)
    ensures Heads(Rewrite(s, previous, depth)) <= Heads(s)
    ensures HasFatArrow(s) ==> Heads(Rewrite(s, previous, depth)) < Heads(s)
    decreases |s|
  {
    if s != [] {
      var piece := Piece(Next(s), Rest(s), previous, depth);
      RewriteCounts(Rest(s), LastOf(piece), DepthAfter(Next(s), depth));
      HeadsPiece(Next(s), Rest(s), previous, depth);
      HeadsTwo(piece, Rewrite(Rest(s), LastOf(piece), DepthAfter(Next(s), depth)));
      HeadsTwo(Spelling(Next(s)), Rest(s));
    }
  }

  predicate IsMarkerChar(c: char) {
    'A' <= c <= 'Z' || c == '_'
  }

  lemma MarkerChars(p: string, c: char)
    requires IsMark(p) && c in p
    ensures IsMarkerChar(c)
  {
    var i :| 0 <= i < |p| && p[i] == c;
  }

  lemma {:induction false} ClosedLiteral(s: string, delimiter: char, escaped: bool)
    ensures var n := LiteralLength(s, delimiter, escaped); n < |s| ==> n > 0 && s[n - 1] == delimiter
  {
    if s != [] {
      ClosedLiteral(s[1..], delimiter, if escaped then false else s[0] == '\\');
    }
  }

  /** Behind a text that is not a word, rewriting does not start like a marker. */
  lemma FirstIsNoMarker(s: string, previous: string, depth: nat)
    requires s != [] && !IsWordChar(s[0]) && !Next(s).FatArrow?
    ensures var out := Rewrite(s, previous, depth); out == [] || !IsMarkerChar(out[0])
  {
    var piece := Piece(Next(s), Rest(s), previous, depth);
    FirstOfPiece(s, previous, depth);
    if piece == [] {
      EmptyPiece(s, previous, depth);
    } else {
      assert Rewrite(s, previous, depth)[0] == piece[0];
      PieceIsNoMarker(s, previous, depth);
    }
  }

  lemma EmptyPiece(s: string, previous: string, depth: nat)
    requires s != [] && Next(s).Semicolon? && Piece(Next(s), Rest(s), previous, depth) == []
    ensures var out := Rewrite(s, previous, depth); out == [] || !IsMarkerChar(out[0])
  {
    assert Rewrite(s, previous, depth) == Rewrite(Rest(s), "", depth);
    if Rest(s) != [] {
      DroppedFront(Rest(s), depth);
    }
  }

  lemma PieceIsNoMarker(s: string, previous: string, depth: nat)
    requires s != [] && !IsWordChar(s[0]) && !Next(s).FatArrow?
    ensures var piece := Piece(Next(s), Rest(s), previous, depth); piece == [] || !IsMarkerChar(piece[0])
  {
  }

  /** No marker starts in a token's piece and ends behind it. */
  lemma NoMarkerAcross(s: string, previous: string, depth: nat)
    requires s != [] && !HasFatArrow(s)
    ensures var piece := Piece(Next(s), Rest(s), previous, depth);
            var out := Rewrite(Rest(s), LastOf(piece), DepthAfter(Next(s), depth));
            piece == [] || out == [] || !IsMarkerChar(piece[|piece| - 1]) || !IsMarkerChar(out[0])
  {
    var t, rest := Next(s), Rest(s);
    var piece := Piece(t, rest, previous, depth);
    if rest != [] && !IsWordChar(rest[0]) {
      FirstIsNoMarker(rest, LastOf(piece), DepthAfter(t, depth));
    } else if rest != [] {
      LastIsNoMarker(s, previous, depth);
    }
  }

  lemma LastIsNoMarker(s: string, previous: string, depth: nat)
    requires s != [] && !Next(s).FatArrow? && Rest(s) != [] && IsWordChar(Rest(s)[0])
    ensures var piece := Piece(Next(s), Rest(s), previous, depth); piece == [] || !IsMarkerChar(piece[|piece| - 1])
  {
    var t, rest := Next(s), Rest(s);
    if t.Word? {
      NextWord(s);
    } else if t.Comment? {
      LineChars(s);
    } else if t.Literal? {
      ClosedLiteral(s[1..], s[0], false);
      var n := LiteralLength(s[1..], s[0], false);
      assert t.text[|t.text| - 1] == s[n] == s[1..][n - 1];
    }
  }

  lemma PieceIsShortOrKept(t: Token, rest: string, previous: string, depth: nat)
    requires !t.FatArrow?
    ensures var piece := Piece(t, rest, previous, depth); piece == Spelling(t) || |piece| < 10
  {
  }

  lemma PieceMarker(s: string, previous: string, depth: nat, p: string)
    requires IsMark(p) && s != [] && !Next(s).FatArrow? && Has(Piece(Next(s), Rest(s), previous, depth), p)
    ensures Has(s, p)
  {
    PieceIsShortOrKept(Next(s), Rest(s), previous, depth);
    HasInPart([], Spelling(Next(s)), Rest(s), p);
    assert [] + Spelling(Next(s)) + Rest(s) == s;
  }

  /** Without arrows rewriting makes no marker. */
  lemma {:induction false} NoArrowNoMarker(s: string, previous: string, depth: nat, p: string)
    requires IsMark(p) && !HasFatArrow(s) && Has(Rewrite(s, previous, depth), p)
    ensures Has(s, p)
    decreases |s|
  {
    if s != [] {
      var t, rest := Next(s), Rest(s);
      var piece := Piece(t, rest, previous, depth);
      var out := Rewrite(rest, LastOf(piece), DepthAfter(t, depth));
      Crossing(piece, out, p);
      if Has(piece, p) {
        PieceMarker(s, previous, depth, p);
      } else if Has(out, p) {
        NoArrowNoMarker(rest, LastOf(piece), DepthAfter(t, depth), p);
        HasInPart(Spelling(t), rest, [], p);
        assert Spelling(t) + rest + [] == s;
      } else {
        NoMarkerAcross(s, previous, depth);
        MarkerChars(p, piece[|piece| - 1]);
        MarkerChars(p, out[0]);
      }
    }
  }

  lemma {:induction false} ArrowMakesMarker(s: string, previous: string, depth: nat, p: string)
    requires IsMark(p) && HasFatArrow(s)
    ensures Has(Rewrite(s, previous, depth), p)
    decreases |s|
  {
    var t, rest := Next(s), Rest(s);
    var piece := Piece(t, rest, previous, depth);
    var out := Rewrite(rest, LastOf(piece), DepthAfter(t, depth));
    if t.FatArrow? {
      assert p[0..] == p && StartsWith(p, p);
      OccursAt(p, p, 0);
      HasInPart([], piece, out, p);
      assert [] + piece + out == piece + out;
    } else {
      ArrowMakesMarker(rest, LastOf(piece), DepthAfter(t, depth), p);
      HasInPart(piece, out, [], p);
      assert piece + out + [] == piece + out;
    }
  }

  /** In a text without markers, the markers after token rewriting are its arrows. */
  lemma MarkersAreArrows(source: string)
    requires !Has(source, MATCH_ARROW)
    ensures Has(RewriteTokens(source), MATCH_ARROW) <==> HasFatArrow(source)
  {
    if HasFatArrow(source) {
      ArrowMakesMarker(source, "", 0, MATCH_ARROW);
    } else if Has(RewriteTokens(source), MATCH_ARROW) {
      NoArrowNoMarker(source, "", 0, MATCH_ARROW);
    }
  }

  // ----- both passes -----

  function BothPasses(source: string): string {
    Normalize(RewriteTokens(source), MATCH_ARROW)
  }

  /** Both passes together leave a text alone exactly when its tokens hold no legacy syntax and
      it holds no marker. */
  lemma BothFixedPoints(source: string)
    ensures BothPasses(source) == source <==> IsCanonical(Lex(source), 0) && !Has(source, MATCH_ARROW)
  {
    MarkIsApart(MATCH_ARROW);
    FixedPointsAreCanonicalTexts(source);
    NormalizeRemoves(RewriteTokens(source), MATCH_ARROW);
    NormalizeFixedPoints(RewriteTokens(source), MATCH_ARROW);
    if !Has(source, MATCH_ARROW) && Has(RewriteTokens(source), MATCH_ARROW) {
      MarkersAreArrows(source);
      RewriteCounts(source, "", 0);
      NormalizeAddsNone(RewriteTokens(source), MATCH_ARROW);
    }
  }

  /** For every text, also one with markers of its own: a second run changes nothing exactly when
      the first run's result holds no legacy syntax. */
  lemma SecondRunIsClean(source: string)
    ensures BothPasses(BothPasses(source)) == BothPasses(source) <==> IsCanonical(Lex(BothPasses(source)), 0)
  {
    MarkIsApart(MATCH_ARROW);
    NormalizeRemoves(RewriteTokens(source), MATCH_ARROW);
    BothFixedPoints(BothPasses(source));
  }
}
