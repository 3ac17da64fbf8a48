/** The places at which the arrow pass edits a text, one at a time: a marker becomes `then` or a
    colon, `when` is put in front of a pattern, and a default pattern becomes `otherwise`. */
module SurfaceEdits {
  import opened Wrappers
  import opened PythonText
  import opened SurfaceLexer
  import opened SurfaceRewriter
  import opened SurfaceRelexing
  import opened SurfaceCuts
  import opened SurfaceStale
  import opened SurfaceArrows

  predicate Fits(s: string, mark: string) {
    IsFit(Lex(s), mark)
  }

  predicate IsStaleText(s: string) {
    HasStale(Lex(s))
  }

  // ----- the marker -----

  lemma MarkIsWord(mark: string)
    requires IsMark(mark)
    ensures IsWord(mark) && IsBland(mark) && mark[0] == '_' && |mark| == 23
  {
  }

  lemma NoLegacyWith(w: string, c: char)
    requires c in w && (c == '_' || c == 'h')
    ensures !IsLegacyWord(w)
  {
  }

  lemma MarkedIsModern(a: string, mark: string, b: string)
    requires IsMark(mark)
    ensures !IsLegacyWord(a + mark + b)
  {
    var w := a + mark + b;
    MarkIsWord(mark);
    assert w[|a|] == '_';
    NoLegacyWith(w, '_');
  }

  lemma ThenIsModern(a: string, b: string)
    ensures !IsLegacyWord(a + "then" + b)
  {
    var w := a + "then" + b;
    assert w[|a| + 1] == 'h';
    NoLegacyWith(w, 'h');
  }

  // ----- whitespace and words in front of a text -----

  /** Whitespace inside a line. */
  predicate IsGap(ws: string) {
    forall i :: 0 <= i < |ws| ==> IsSpace(ws[i]) && ws[i] != '\n'
  }

  function Plains(ws: string): (r: seq<Token>)
    ensures |r| == |ws| && forall i :: 0 <= i < |ws| ==> r[i] == Plain(ws[i])
  {
    seq(|ws|, i requires 0 <= i < |ws| => Plain(ws[i]))
  }

  lemma SpaceStandsAlone(c: char)
    requires IsSpace(c)
    ensures StandsAlone(c) && !IsWordChar(c)
  {
  }

  lemma {:induction false} GapInFront(ws: string, r: string)
    requires IsGap(ws)
    ensures Lex(ws + r) == Plains(ws) + Lex(r)
  {
    if ws == [] {
      NothingInFront(ws, r);
    } else {
      GapInFront(ws[1..], r);
      FirstOff(ws, r);
      SpaceInFront(ws + r, ws[0], ws[1..] + r);
      OneMorePlain(ws, Lex(r));
    }
  }

  lemma FirstOff(ws: string, r: string)
    requires ws != []
    ensures ws + r == [ws[0]] + (ws[1..] + r)
  {
  }

  lemma SpaceInFront(s: string, c: char, r: string)
    requires s == [c] + r && IsSpace(c)
    ensures Lex(s) == [Plain(c)] + Lex(r)
  {
    SpaceStandsAlone(c);
    AloneInFront(c, r);
  }

  lemma NothingInFront(ws: string, r: string)
    requires ws == []
    ensures Lex(ws + r) == Plains(ws) + Lex(r)
  {
    assert ws + r == r;
  }

  lemma OneMorePlain(ws: string, tokens: seq<Token>)
    requires ws != []
    ensures [Plain(ws[0])] + (Plains(ws[1..]) + tokens) == Plains(ws) + tokens
  {
    assert Plains(ws) == [Plain(ws[0])] + Plains(ws[1..]);
  }

  lemma GapIsNeutral(ws: string, mark: string)
    requires IsGap(ws)
    ensures IsNeutral(Plains(ws)) && IsClean(Plains(ws), mark) && !HasStale(Plains(ws))
  {
    forall i | 0 <= i < |ws| ensures IsNeutralToken(Plains(ws)[i]) {
      SpaceStandsAlone(ws[i]);
    }
  }

  /** The tokens of a word, or of nothing. */
  function Words(q: string): seq<Token> {
    if q == [] then [] else [Word(q)]
  }

  predicate IsWordOrNothing(q: string) {
    q == [] || IsWord(q)
  }

  lemma WordsAreNeutral(q: string, mark: string)
    ensures IsNeutral(Words(q)) && IsClean(Words(q), mark) && (HasStale(Words(q)) <==> IsLegacyWord(q))
  {
    if q != [] {
      StaleOne(Word(q));
    }
  }

  lemma NeutralTwo(a: seq<Token>, b: seq<Token>)
    requires IsNeutral(a) && IsNeutral(b)
    ensures IsNeutral(a + b)
  {
  }

  /** A word, and what stands in front of it. */
  lemma WordBehind(q: string, w: string, b: string)
    requires IsWordOrNothing(q) && IsWord(w)
    ensures Lex(q + (w + b)) == Words(q + w + b[..Run(b)]) + Lex(b[Run(b)..])
  {
    assert q + (w + b) == (q + w) + b;
    WordInFront(q + w, b);
  }

  lemma WordBeforeOther(q: string, r: string)
    requires IsWordOrNothing(q) && r != [] && !IsWordChar(r[0])
    ensures Lex(q + r) == Words(q) + Lex(r)
  {
    if q == [] {
      assert q + r == r && [] + Lex(r) == Lex(r);
    } else {
      WordAlone(q, r);
    }
  }

  // ----- the marker stands in code -----

  lemma SoftByGap(ws: string, c: char, r: string)
    requires IsGap(ws) && c !in {'/', '>', '=', '.', '\n', ' ', '\t'}
    ensures IsSoft(ws + ([c] + r))
  {
    SoftEquals(ws, c, r);
    if ws != [] {
      SpaceStandsAlone(ws[0]);
      assert (ws + ([c] + r))[0] == ws[0];
    } else {
      assert (ws + ([c] + r))[0] == c;
    }
  }

  lemma {:induction false} SoftEquals(ws: string, c: char, r: string)
    requires IsGap(ws) && c !in {'=', ' ', '\t'}
    ensures !BlankThenEquals(ws + ([c] + r))
  {
    if ws == [] {
      assert ws + ([c] + r) == [c] + r;
      BlankStep(c, r);
    } else {
      SoftEquals(ws[1..], c, r);
      assert ws + ([c] + r) == [ws[0]] + (ws[1..] + ([c] + r));
      BlankStep(ws[0], ws[1..] + ([c] + r));
      SpaceStandsAlone(ws[0]);
    }
  }

  lemma MarkIsSoft(ws: string, mark: string, b: string)
    requires IsGap(ws) && IsMark(mark)
    ensures IsSoft(ws + (mark + b))
  {
    MarkIsWord(mark);
    SoftByGap(ws, '_', mark[1..] + b);
    assert mark + b == ['_'] + (mark[1..] + b);
  }

  /** The first token of an open comment goes on to the end of the line. */
  lemma CommentGoesOn(q: string, r: string)
    requires IsOpenComment(q)
    ensures Lex(q + r) == [Comment(q + r[..LineLength(r)])] + Lex(r[LineLength(r)..])
  {
    LineThrough(q, r);
    var s, n := q + r, |q| + LineLength(r);
    assert s[..n] == q + r[..LineLength(r)] && s[n..] == r[LineLength(r)..];
    CommentIsNext(s, s[..n]);
    FirstAndRest(s, Comment(s[..n]), n);
  }

  lemma FirstAndRest(s: string, t: Token, n: nat)
    requires s != [] && Next(s) == t && |Spelling(t)| == n
    ensures n <= |s| && Lex(s) == [t] + Lex(s[n..])
  {
  }

  lemma CommentIsNext(s: string, text: string)
    requires StartsWith2(s, '/', '/') && text == s[..LineLength(s)]
    ensures Next(s) == Comment(text)
  {
  }

  lemma {:induction false} LineThrough(q: string, r: string)
    requires '\n' !in q
    ensures LineLength(q + r) == |q| + LineLength(r)
  {
    if q == [] {
      assert q + r == r;
    } else {
      assert q[0] in q && (q + r)[1..] == q[1..] + r;
      LineThrough(q[1..], r);
    }
  }

  /** The first token of an open literal goes on. */
  lemma LiteralGoesOn(q: string, r: string)
    requires IsOpenLiteral(q)
    ensures var n := LiteralLength(r, q[0], Pending(q[1..], q[0], false).value);
            Lex(q + r) == [Literal(q + r[..n])] + Lex(r[n..])
  {
    LiteralThrough(q, r, LiteralLength(r, q[0], Pending(q[1..], q[0], false).value));
  }

  lemma LiteralThrough(q: string, r: string, m: nat)
    requires IsOpenLiteral(q) && m == LiteralLength(r, q[0], Pending(q[1..], q[0], false).value)
    ensures m <= |r| && Lex(q + r) == [Literal(q + r[..m])] + Lex(r[m..])
  {
    var s, n := q + r, |q| + m;
    LiteralReaches(q, r, m);
    assert s[..n] == q + r[..m] && s[n..] == r[m..];
    LiteralIsNext(s, s[..n]);
    FirstAndRest(s, Literal(s[..n]), n);
  }

  lemma LiteralReaches(q: string, r: string, m: nat)
    requires IsOpenLiteral(q) && m == LiteralLength(r, q[0], Pending(q[1..], q[0], false).value)
    ensures var s := q + r; s[0] == q[0] && 1 + LiteralLength(s[1..], s[0], false) == |q| + m
  {
    PendingLength(q[1..], r, q[0], false);
    assert (q + r)[1..] == q[1..] + r;
  }

  lemma LiteralIsNext(s: string, text: string)
    requires s != [] && IsQuote(s[0]) && text == s[..1 + LiteralLength(s[1..], s[0], false)]
    ensures Next(s) == Literal(text)
  {
  }

  lemma FirstIsClean(t: Token, tokens: seq<Token>, mark: string)
    requires IsClean([t] + tokens, mark)
    ensures IsCleanToken(t, mark)
  {
    assert ([t] + tokens)[0] == t;
  }

  lemma {:induction false} LineOfBland(x: string, r: string)
    requires IsBland(x)
    ensures LineLength(x + r) >= |x|
  {
    if x == [] {
      assert x + r == r;
    } else {
      assert (x + r)[1..] == x[1..] + r;
      LineOfBland(x[1..], r);
    }
  }

  /** What a bland text behind an open comment or literal holds, the token holds. */
  lemma BlandIsInToken(q: string, x: string, r: string, mark: string)
    requires IsOpenComment(q) || IsOpenLiteral(q)
    requires IsBland(x) && x != [] && Has(x, mark)
    ensures !IsClean(Lex(q + (x + r)), mark)
  {
    if IsOpenComment(q) {
      CommentGoesOn(q, x + r);
      LineOfBland(x, r);
      TokenHolds(q, x, r, LineLength(x + r), mark);
      if IsClean(Lex(q + (x + r)), mark) {
        FirstIsClean(Comment(q + (x + r)[..LineLength(x + r)]), Lex((x + r)[LineLength(x + r)..]), mark);
      }
    } else {
      var e := Pending(q[1..], q[0], false).value;
      LiteralGoesOn(q, x + r);
      PendingBland(x, q[0], e);
      PendingLength(x, r, q[0], e);
      TokenHolds(q, x, r, LiteralLength(x + r, q[0], e), mark);
      if IsClean(Lex(q + (x + r)), mark) {
        FirstIsClean(Literal(q + (x + r)[..LiteralLength(x + r, q[0], e)]),
                     Lex((x + r)[LiteralLength(x + r, q[0], e)..]), mark);
      }
    }
  }

  lemma TokenHolds(q: string, x: string, r: string, n: nat, mark: string)
    requires |x| <= n <= |x + r| && Has(x, mark)
    ensures Has(q + (x + r)[..n], mark)
  {
    assert (x + r)[..n] == x + r[..n - |x|];
    HasInPart(q, x, r[..n - |x|], mark);
    assert q + x + r[..n - |x|] == q + (x + r[..n - |x|]);
  }

  lemma GapIsBland(ws: string)
    requires IsGap(ws)
    ensures IsBland(ws)
  {
    forall i | 0 <= i < |ws| ensures ws[i] !in {'"', '\'', '\\', '\n'} {
      SpaceStandsAlone(ws[i]);
    }
  }

  lemma MarkInGap(ws: string, mark: string)
    requires IsGap(ws) && IsMark(mark)
    ensures IsBland(ws + mark) && Has(ws + mark, mark)
  {
    MarkIsWord(mark);
    GapIsBland(ws);
    OccursAt(ws + mark, mark, |ws|);
  }

  /** The lexer is in code where a marker, or bland text in front of one, begins. */
  lemma MarkIsInCode(a: string, x: string, b: string, mark: string)
    requires IsBland(x) && x != [] && Has(x, mark) && IsSoft(x + b) && IsClean(Lex(a + (x + b)), mark)
    ensures IsWordOrNothing(Open(a))
    ensures Lex(a + (x + b)) == Closed(a) + Lex(Open(a) + (x + b))
  {
    SoftCut(a, x + b);
    BehindIsClean(Lex(a + (x + b)), Closed(a), Lex(Open(a) + (x + b)), mark);
    OpenInCode(Open(a), a, x, b, mark);
  }

  lemma BehindIsClean(all: seq<Token>, a: seq<Token>, b: seq<Token>, mark: string)
    requires all == a + b && IsClean(all, mark)
    ensures IsClean(b, mark)
  {
    CleanTwo(a, b, mark);
  }

  lemma OpenInCode(q: string, a: string, x: string, b: string, mark: string)
    requires q == Open(a) && IsBland(x) && x != [] && Has(x, mark) && IsClean(Lex(q + (x + b)), mark)
    ensures IsWordOrNothing(q)
  {
    OpenIsOpen(a);
    if !IsWordOrNothing(q) {
      BlandIsInToken(q, x, b, mark);
    }
  }

  // ----- a marker becomes `then` -----

  lemma ThenIsSoft(b: string)
    ensures IsSoft("then" + b) && IsSoft(" then" + b) && IsSoft(":" + b)
  {
    SoftByGap([], 't', "hen" + b);
    assert [] + (['t'] + ("hen" + b)) == "then" + b;
    SoftByGap(" ", 't', "hen" + b);
    assert " " + (['t'] + ("hen" + b)) == " then" + b;
    SoftByGap([], ':', b);
    assert [] + ([':'] + b) == ":" + b;
  }

  /** The tokens of a text are fit, and stale or not. */
  predicate IsJudged(s: string, mark: string, stale: bool) {
    Fits(s, mark) && (IsStaleText(s) <==> stale)
  }

  /** Exchanging the first tokens behind a cut. */
  lemma Edited(s: string, t: string, a: seq<Token>, before: seq<Token>, after: seq<Token>, b: seq<Token>, mark: string)
    requires Lex(s) == a + (before + b) && Lex(t) == a + (after + b) && Fits(s, mark)
    requires IsNeutral(before) && IsNeutral(after) && IsClean(after, mark)
    requires HasStale(before) ==> HasStale(after)
    ensures IsJudged(t, mark, IsStaleText(s) || HasStale(after))
    ensures HasStale(before) ==> IsStaleText(s)
  {
    Exchange(a, before, after, b, mark);
  }

  lemma OneWord(w: string, mark: string)
    requires w != []
    ensures IsNeutral(Words(w)) && IsClean(Words(w), mark) && (HasStale(Words(w)) <==> IsLegacyWord(w))
  {
    WordsAreNeutral(w, mark);
  }

  lemma ThenIsWord()
    ensures IsWord("then")
  {
  }

  /** Cutting in front of a marker. */
  lemma AtMark(a: string, b: string, mark: string)
    requires IsMark(mark) && Fits(a + (mark + b), mark)
    ensures IsWordOrNothing(Open(a))
    ensures Lex(a + (mark + b)) == Closed(a) + (Words(Open(a) + mark + b[..Run(b)]) + Lex(b[Run(b)..]))
  {
    MarkIsWord(mark);
    MarkIsSoft([], mark, b);
    assert [] + (mark + b) == mark + b;
    MarkInGap([], mark);
    assert [] + mark == mark;
    MarkIsInCode(a, mark, b, mark);
    WordBehind(Open(a), mark, b);
  }

  /** Cutting in front of other words. */
  lemma AtWord(a: string, w: string, b: string)
    requires IsWordOrNothing(Open(a)) && IsWord(w) && IsSoft(w + b)
    ensures Lex(a + (w + b)) == Closed(a) + (Words(Open(a) + w + b[..Run(b)]) + Lex(b[Run(b)..]))
  {
    SoftCut(a, w + b);
    WordBehind(Open(a), w, b);
  }

  lemma MarkBecomesThen(a: string, b: string, mark: string)
    requires IsMark(mark) && Fits(a + (mark + b), mark)
    ensures IsJudged(a + ("then" + b), mark, IsStaleText(a + (mark + b)))
  {
    var q, g := Open(a), b[..Run(b)];
    AtMark(a, b, mark);
    ThenIsSoft(b);
    ThenIsWord();
    AtWord(a, "then", b);
    MarkedIsModern(q, mark, g);
    ThenIsModern(q, g);
    MarkIsWord(mark);
    OneWord(q + mark + g, mark);
    OneWord(q + "then" + g, mark);
    Edited(a + (mark + b), a + ("then" + b), Closed(a),
           Words(q + mark + g), Words(q + "then" + g), Lex(b[Run(b)..]), mark);
  }

  // ----- a marker, with the whitespace in front of it, becomes ` then` -----

  /** Cutting in front of whitespace and a marker. */
  lemma AtGap(a: string, ws: string, b: string, mark: string)
    requires IsMark(mark) && IsGap(ws) && ws != [] && Fits(a + ((ws + mark) + b), mark)
    ensures IsWordOrNothing(Open(a))
    ensures Lex(a + ((ws + mark) + b))
         == Closed(a) + ((Words(Open(a)) + Plains(ws) + Words(mark + b[..Run(b)])) + Lex(b[Run(b)..]))
  {
    MarkIsWord(mark);
    MarkIsSoft(ws, mark, b);
    GapRegroup(ws, mark, b);
    MarkInGap(ws, mark);
    MarkIsInCode(a, ws + mark, b, mark);
    GapBehind(Open(a), ws, mark, b);
  }

  lemma GapRegroup(ws: string, mark: string, b: string)
    ensures ws + (mark + b) == (ws + mark) + b
  {
  }

  lemma GapBehind(q: string, ws: string, w: string, b: string)
    requires IsWordOrNothing(q) && IsGap(ws) && ws != [] && IsWord(w)
    ensures Lex(q + ((ws + w) + b)) == (Words(q) + Plains(ws) + Words(w + b[..Run(b)])) + Lex(b[Run(b)..])
  {
    GapRegroup(ws, w, b);
    SpaceStandsAlone(ws[0]);
    assert (ws + (w + b))[0] == ws[0];
    WordBeforeOther(q, ws + (w + b));
    GapInFront(ws, w + b);
    WordInFront(w, b);
    FourParts(Words(q), Plains(ws), Words(w + b[..Run(b)]), Lex(b[Run(b)..]));
  }

  lemma FourParts(a: seq<Token>, b: seq<Token>, c: seq<Token>, d: seq<Token>)
    ensures a + (b + (c + d)) == (a + b + c) + d
  {
  }

  /** Three runs of tokens without literals, comments and brackets. */
  lemma ThreeRuns(q: string, ws: string, w: string, mark: string)
    requires IsGap(ws)
    ensures var tokens := Words(q) + Plains(ws) + Words(w);
            IsNeutral(tokens) && IsClean(tokens, mark) && (HasStale(tokens) <==> IsLegacyWord(q) || IsLegacyWord(w))
  {
    WordsAreNeutral(q, mark);
    WordsAreNeutral(w, mark);
    GapIsNeutral(ws, mark);
    NeutralTwo(Words(q), Plains(ws));
    NeutralTwo(Words(q) + Plains(ws), Words(w));
    CleanTwo(Words(q), Plains(ws), mark);
    CleanTwo(Words(q) + Plains(ws), Words(w), mark);
    StaleTwo(Words(q), Plains(ws));
    StaleTwo(Words(q) + Plains(ws), Words(w));
  }

  lemma FrontIsModern(mark: string, g: string)
    requires IsMark(mark)
    ensures !IsLegacyWord(mark + g) && !IsLegacyWord("then" + g)
  {
    MarkedIsModern([], mark, g);
    ThenIsModern([], g);
    assert [] + mark + g == mark + g && [] + "then" + g == "then" + g;
  }

  /** Cutting in front of a blank and `then`. */
  lemma AtSpaceThen(a: string, b: string)
    requires IsWordOrNothing(Open(a))
    ensures Lex(a + (" then" + b))
         == Closed(a) + ((Words(Open(a)) + Plains(" ") + Words("then" + b[..Run(b)])) + Lex(b[Run(b)..]))
  {
    ThenIsSoft(b);
    ThenIsWord();
    SpaceThenRegroup(b);
    SpaceWord(a, " then" + b, " ", "then", b);
  }

  lemma SpaceThenRegroup(b: string)
    ensures " then" + b == (" " + "then") + b
  {
    assert " then" == " " + "then";
  }

  lemma SpaceWord(a: string, s: string, ws: string, w: string, b: string)
    requires IsWordOrNothing(Open(a)) && IsGap(ws) && ws != [] && IsWord(w) && s == (ws + w) + b && IsSoft(s)
    ensures Lex(a + s) == Closed(a) + ((Words(Open(a)) + Plains(ws) + Words(w + b[..Run(b)])) + Lex(b[Run(b)..]))
  {
    SoftCut(a, s);
    GapBehind(Open(a), ws, w, b);
  }

  /** With whitespace in front of the marker nothing becomes stale. */
  lemma GapBecomesThen(a: string, ws: string, b: string, mark: string)
    requires IsMark(mark) && IsGap(ws) && ws != [] && Fits(a + ((ws + mark) + b), mark)
    ensures IsJudged(a + (" then" + b), mark, IsStaleText(a + ((ws + mark) + b)))
  {
    var q, g := Open(a), b[..Run(b)];
    AtGap(a, ws, b, mark);
    AtSpaceThen(a, b);
    FrontIsModern(mark, g);
    ThreeRuns(q, ws, mark + g, mark);
    ThreeRuns(q, " ", "then" + g, mark);
    Edited(a + ((ws + mark) + b), a + (" then" + b), Closed(a), Words(q) + Plains(ws) + Words(mark + g),
           Words(q) + Plains(" ") + Words("then" + g), Lex(b[Run(b)..]), mark);
  }

  /** Without, the word that the marker was glued to stands alone. */
  lemma MarkBecomesSpaceThen(a: string, b: string, mark: string)
    requires IsMark(mark) && Fits(a + (mark + b), mark)
    ensures IsWordOrNothing(Open(a))
    ensures IsJudged(a + (" then" + b), mark, IsStaleText(a + (mark + b)) || IsLegacyWord(Open(a)))
  {
    var q, g := Open(a), b[..Run(b)];
    AtMark(a, b, mark);
    AtSpaceThen(a, b);
    MarkedIsModern(q, mark, g);
    MarkIsWord(mark);
    OneWord(q + mark + g, mark);
    FrontIsModern(mark, g);
    ThreeRuns(q, " ", "then" + g, mark);
    Edited(a + (mark + b), a + (" then" + b), Closed(a), Words(q + mark + g),
           Words(q) + Plains(" ") + Words("then" + g), Lex(b[Run(b)..]), mark);
  }

  // ----- a marker becomes a colon -----

  /** The tokens of leading word characters: digits, and a word. */
  lemma {:induction false} LeadingTokens(r: string)
    ensures exists d :: AllDigits(d) && Lex(r) == (Plains(d) + Words(LeadWord(r))) + Lex(r[Run(r)..])
    decreases |r|
  {
    if r == [] || !IsWordChar(r[0]) {
      NothingLeads(r);
    } else if IsWordStart(r[0]) {
      WordLeads(r);
    } else {
      LeadingTokens(r[1..]);
      var d :| AllDigits(d) && Lex(r[1..]) == (Plains(d) + Words(LeadWord(r[1..]))) + Lex(r[1..][Run(r[1..])..]);
      DigitLeads(r, d);
    }
  }

  lemma NothingLeads(r: string)
    requires r == [] || !IsWordChar(r[0])
    ensures AllDigits("") && Lex(r) == (Plains("") + Words(LeadWord(r))) + Lex(r[Run(r)..])
  {
    NothingRuns(r);
    NoLeadingTokens(Lex(r));
  }

  lemma NothingRuns(r: string)
    requires r == [] || !IsWordChar(r[0])
    ensures r[Run(r)..] == r && LeadWord(r) == ""
  {
  }

  lemma NoLeadingTokens(tokens: seq<Token>)
    ensures tokens == (Plains("") + Words("")) + tokens
  {
  }

  lemma WordLeads(r: string)
    requires r != [] && IsWordStart(r[0])
    ensures AllDigits("") && Lex(r) == (Plains("") + Words(LeadWord(r))) + Lex(r[Run(r)..])
  {
    var w := r[..Run(r)];
    assert LeadWord(r) == w;
    NextIsWord(r, w);
    FirstAndRest(r, Word(w), |w|);
    assert Plains("") + Words(w) == [Word(w)];
  }

  lemma DigitLeads(r: string, d: string)
    requires r != [] && IsDigit(r[0]) && AllDigits(d)
    requires Lex(r[1..]) == (Plains(d) + Words(LeadWord(r[1..]))) + Lex(r[1..][Run(r[1..])..])
    ensures AllDigits([r[0]] + d) && Lex(r) == (Plains([r[0]] + d) + Words(LeadWord(r))) + Lex(r[Run(r)..])
  {
    DigitInFront(r);
    RunBehindDigit(r);
    DigitRegroup(r[0], d, Words(LeadWord(r)), Lex(r[Run(r)..]));
  }

  lemma DigitInFront(r: string)
    requires r != [] && IsDigit(r[0])
    ensures Lex(r) == [Plain(r[0])] + Lex(r[1..])
  {
    AloneInFront(r[0], r[1..]);
    assert r == [r[0]] + r[1..];
  }

  lemma RunBehindDigit(r: string)
    requires r != [] && IsDigit(r[0])
    ensures r[1..][Run(r[1..])..] == r[Run(r)..] && LeadWord(r) == LeadWord(r[1..])
  {
    assert r[..Run(r)] == [r[0]] + r[1..][..Run(r[1..])];
    assert r[..Run(r)][1..] == r[1..][..Run(r[1..])];
  }

  lemma DigitRegroup(c: char, d: string, w: seq<Token>, k: seq<Token>)
    ensures [Plain(c)] + ((Plains(d) + w) + k) == (Plains([c] + d) + w) + k
  {
    assert Plains([c] + d) == [Plain(c)] + Plains(d);
  }

  lemma ColonTokens(q: string, d: string, w: string, mark: string)
    requires AllDigits(d)
    ensures var tokens := (Words(q) + [Plain(':')]) + (Plains(d) + Words(w));
            IsNeutral(tokens) && IsClean(tokens, mark) && (HasStale(tokens) <==> IsLegacyWord(q) || IsLegacyWord(w))
  {
    WordsAreNeutral(q, mark);
    WordsAreNeutral(w, mark);
    DigitsAreNeutral(d, mark);
    StaleOne(Plain(':'));
    NeutralTwo(Words(q), [Plain(':')]);
    NeutralTwo(Plains(d), Words(w));
    NeutralTwo(Words(q) + [Plain(':')], Plains(d) + Words(w));
    CleanTwo(Words(q), [Plain(':')], mark);
    CleanTwo(Plains(d), Words(w), mark);
    CleanTwo(Words(q) + [Plain(':')], Plains(d) + Words(w), mark);
    StaleTwo(Words(q), [Plain(':')]);
    StaleTwo(Plains(d), Words(w));
    StaleTwo(Words(q) + [Plain(':')], Plains(d) + Words(w));
  }

  lemma DigitsAreNeutral(d: string, mark: string)
    requires AllDigits(d)
    ensures IsNeutral(Plains(d)) && IsClean(Plains(d), mark) && !HasStale(Plains(d))
  {
  }

  /** Cutting in front of a colon. */
  lemma AtColon(a: string, b: string) returns (d: string)
    requires IsWordOrNothing(Open(a))
    ensures AllDigits(d)
    ensures Lex(a + (":" + b))
         == Closed(a) + (((Words(Open(a)) + [Plain(':')]) + (Plains(d) + Words(LeadWord(b)))) + Lex(b[Run(b)..]))
  {
    ThenIsSoft(b);
    SoftCut(a, ":" + b);
    WordBeforeOther(Open(a), ":" + b);
    AloneInFront(':', b);
    LeadingTokens(b);
    d :| AllDigits(d) && Lex(b) == (Plains(d) + Words(LeadWord(b))) + Lex(b[Run(b)..]);
    ColonRegroup(Words(Open(a)), Plains(d) + Words(LeadWord(b)), Lex(b[Run(b)..]));
  }

  lemma ColonRegroup(a: seq<Token>, b: seq<Token>, c: seq<Token>)
    ensures a + ([Plain(':')] + (b + c)) == ((a + [Plain(':')]) + b) + c
  {
  }

  lemma MarkBecomesColon(a: string, b: string, mark: string)
    requires IsMark(mark) && Fits(a + (mark + b), mark) && !IsLegacyWord(LeadWord(b))
    ensures IsWordOrNothing(Open(a))
    ensures IsJudged(a + (":" + b), mark, IsStaleText(a + (mark + b)) || IsLegacyWord(Open(a)))
  {
    var q, g := Open(a), b[..Run(b)];
    AtMark(a, b, mark);
    var d := AtColon(a, b);
    MarkedIsModern(q, mark, g);
    MarkIsWord(mark);
    OneWord(q + mark + g, mark);
    ColonTokens(q, d, LeadWord(b), mark);
    Edited(a + (mark + b), a + (":" + b), Closed(a), Words(q + mark + g),
           (Words(q) + [Plain(':')]) + (Plains(d) + Words(LeadWord(b))), Lex(b[Run(b)..]), mark);
  }

  // ----- `when` in front of a pattern -----

  lemma SoundHasNoGap(tokens: seq<Token>)
    requires IsSound(tokens, 0)
    ensures !HasGap(tokens)
  {
    forall t | t in tokens ensures !(t.RangeEquals? && t.gap != []) {
      SoundToken(tokens, 0, t);
    }
  }

  /** Behind whitespace no word is open. */
  lemma OpenBehindSpace(a: string)
    requires a == [] || EndsInSpace(a)
    ensures var q := Open(a); q == [] || ((IsOpenComment(q) || IsOpenLiteral(q)) && EndsInSpace(q))
  {
    var q := Open(a);
    OpenIsOpen(a);
    if q != [] {
      assert q[|q| - 1] == a[|a| - 1];
      SpaceStandsAlone(a[|a| - 1]);
    }
  }

  lemma CommentHolds(q: string, b: string, mark: string)
    requires IsOpenComment(q) && Has(b[..LineLength(b)], mark)
    ensures !IsClean(Lex(q + b), mark)
  {
    CommentGoesOn(q, b);
    HasInTwo(q, b[..LineLength(b)], mark);
    if IsClean(Lex(q + b), mark) {
      FirstIsClean(Comment(q + b[..LineLength(b)]), Lex(b[LineLength(b)..]), mark);
    }
  }

  lemma WhenIsSoft(b: string)
    ensures IsSoft("when " + b)
  {
    SoftByGap([], 'w', "hen " + b);
    assert [] + (['w'] + ("hen " + b)) == "when " + b;
  }

  lemma WhenInFront(b: string)
    ensures Lex("when " + b) == [Word("when"), Plain(' ')] + Lex(b)
  {
    WhenAndSpace(b);
    WordThenSpace("when", "when " + b, b);
  }

  lemma WhenAndSpace(b: string)
    ensures "when " + b == "when" + ([' '] + b)
  {
  }

  lemma WordThenSpace(w: string, s: string, b: string)
    requires IsWord(w) && s == w + ([' '] + b)
    ensures Lex(s) == [Word(w), Plain(' ')] + Lex(b)
  {
    WordAndSpaceInFront(w, b);
  }

  lemma WhenIsNeutral(mark: string)
    ensures var tokens := [Word("when"), Plain(' ')]; IsNeutral(tokens) && IsClean(tokens, mark) && !HasStale(tokens)
  {
    assert !IsStale(Word("when")) && !IsStale(Plain(' '));
  }

  lemma WhenInCode(a: string, b: string, mark: string)
    requires Open(a) == [] && Fits(a + b, mark) && Lex(a + b) == Closed(a) + Lex(Open(a) + b)
    ensures IsJudged(a + ("when " + b), mark, IsStaleText(a + b))
  {
    WhenIsSoft(b);
    SoftCut(a, "when " + b);
    WhenInFront(b);
    assert [] + b == b && [] + ("when " + b) == "when " + b;
    WhenIsNeutral(mark);
    NoTokens(Lex(b));
    Edited(a + b, a + ("when " + b), Closed(a), [], [Word("when"), Plain(' ')], Lex(b), mark);
  }

  lemma NoTokens(tokens: seq<Token>)
    ensures [] + tokens == tokens
  {
  }

  lemma PendingEnd(s: string, delimiter: char)
    requires EndsInSpace(s) && Pending(s, delimiter, false).Some?
    requires IsQuote(delimiter)
    ensures Pending(s, delimiter, false) == Some(false)
  {
    var n := |s| - 1;
    var c := s[n];
    assert s == s[..n] + [c];
    SpaceStandsAlone(c);
    PendingPrefix(s[..n], [c], delimiter, false);
    PendingTwo(s[..n], [c], delimiter, false);
    assert [c][1..] == [];
  }

  lemma {:induction false} PendingPrefix(s: string, r: string, delimiter: char, escaped: bool)
    requires Pending(s + r, delimiter, escaped).Some?
    ensures Pending(s, delimiter, escaped).Some?
  {
    if s != [] {
      assert (s + r)[1..] == s[1..] + r && (s + r)[0] == s[0];
      PendingPrefix(s[1..], r, delimiter, if escaped then false else s[0] == '\\');
    }
  }

  lemma OpenLiteralBehindSpace(q: string)
    requires IsOpenLiteral(q) && EndsInSpace(q)
    ensures Pending(q[1..], q[0], false) == Some(false)
  {
    SpaceStandsAlone(q[|q| - 1]);
    assert q[1..][|q[1..]| - 1] == q[|q| - 1];
    PendingEnd(q[1..], q[0]);
  }

  /** The literal that `when` is put into. */
  lemma WhenInText(q: string, b: string, n: nat)
    requires IsOpenLiteral(q) && EndsInSpace(q) && n == LiteralLength(b, q[0], false)
    ensures n <= |b|
    ensures Lex(q + b) == [Literal(q + b[..n])] + Lex(b[n..])
    ensures Lex(q + ("when " + b)) == [Literal(q + "when " + b[..n])] + Lex(b[n..])
  {
    OpenLiteralBehindSpace(q);
    LiteralThrough(q, b, n);
    PendingBland("when ", q[0], false);
    PendingLength("when ", b, q[0], false);
    LiteralThrough(q, "when " + b, n + 5);
    WhenRegroup(q, b, n);
  }

  lemma WhenRegroup(q: string, b: string, n: nat)
    requires n <= |b|
    ensures q + ("when " + b)[..n + 5] == q + "when " + b[..n] && ("when " + b)[n + 5..] == b[n..]
  {
  }

  lemma WhenIsClean(q: string, r: string, mark: string)
    requires IsMark(mark) && !Has(q + r, mark)
    ensures !Has(q + "when " + r, mark)
  {
    WhenIsApart(mark);
    BetweenParts(q, "when ", r, mark);
  }

  lemma WhenIsApart(mark: string)
    requires IsMark(mark)
    ensures mark != [] && SharesNothing(mark, "when ")
  {
  }

  lemma BetweenParts(q: string, w: string, r: string, mark: string)
    requires mark != [] && w != [] && SharesNothing(mark, w) && !Has(q + r, mark)
    ensures !Has(q + w + r, mark)
  {
    PartsHaveNone(q + r, |q|, mark);
    assert (q + r)[..|q|] == q && (q + r)[|q|..] == r;
    Between(q, w, r, mark);
  }

  lemma LiteralIsNeutral(text: string, mark: string)
    requires !Has(text, mark)
    ensures IsNeutral([Literal(text)]) && IsClean([Literal(text)], mark) && !HasStale([Literal(text)])
  {
    StaleOne(Literal(text));
  }

  lemma WhenInLiteral(a: string, b: string, mark: string)
    requires IsMark(mark) && IsOpenLiteral(Open(a)) && EndsInSpace(Open(a)) && Fits(a + b, mark)
    requires Lex(a + b) == Closed(a) + Lex(Open(a) + b)
    ensures IsJudged(a + ("when " + b), mark, IsStaleText(a + b))
  {
    var q := Open(a);
    var n := LiteralLength(b, q[0], false);
    WhenIsSoft(b);
    SoftCut(a, "when " + b);
    WhenInText(q, b, n);
    BehindIsClean(Lex(a + b), Closed(a), Lex(q + b), mark);
    FirstIsClean(Literal(q + b[..n]), Lex(b[n..]), mark);
    WhenIsClean(q, b[..n], mark);
    LiteralIsNeutral(q + b[..n], mark);
    LiteralIsNeutral(q + "when " + b[..n], mark);
    Edited(a + b, a + ("when " + b), Closed(a),
           [Literal(q + b[..n])], [Literal(q + "when " + b[..n])], Lex(b[n..]), mark);
  }

  /** `when` behind whitespace, in front of a line's marker. */
  lemma PutWhen(a: string, b: string, mark: string)
    requires IsMark(mark) && (a == [] || EndsInSpace(a)) && Fits(a + b, mark) && Has(b[..LineLength(b)], mark)
    ensures IsJudged(a + ("when " + b), mark, IsStaleText(a + b))
  {
    SoundHasNoGap(Lex(a + b));
    SpaceCut(a, b);
    OpenBehindSpace(a);
    BehindIsClean(Lex(a + b), Closed(a), Lex(Open(a) + b), mark);
    if Open(a) == [] {
      WhenInCode(a, b, mark);
    } else if IsOpenLiteral(Open(a)) {
      WhenInLiteral(a, b, mark);
    } else {
      CommentHolds(Open(a), b, mark);
    }
  }

  // ----- a default pattern becomes `otherwise` -----

  predicate IsDefault(core: string) {
    core == "_" || core == "default" || core == "otherwise"
  }

  lemma DefaultIsWord(core: string)
    requires IsDefault(core)
    ensures IsWord(core) && IsBland(core)
  {
  }

  lemma DefaultIsModern(core: string, g: string)
    requires IsDefault(core)
    ensures !IsLegacyWord(core + g)
  {
    var w := core + g;
    assert w[0] == core[0];
    if core == "otherwise" {
      assert w[2] == 'h';
      NoLegacyWith(w, 'h');
    }
  }

  lemma DefaultIsSoft(core: string, b: string)
    requires IsDefault(core)
    ensures IsSoft(core + b)
  {
    SoftByGap([], core[0], core[1..] + b);
    assert [] + ([core[0]] + (core[1..] + b)) == core + b;
  }

  lemma DefaultInCode(a: string, core: string, x: string, b: string, mark: string)
    requires IsDefault(core) && IsBland(x) && Has(x, mark) && (a == [] || EndsInSpace(a))
    requires Fits(a + (core + (x + b)), mark)
    ensures Open(a) == []
  {
    DefaultIsWord(core);
    DefaultIsSoft(core, x + b);
    Glue(core, x, b);
    HasInTwo(core, x, mark);
    MarkIsInCode(a, core + x, b, mark);
    OpenBehindSpace(a);
  }

  lemma AtDefault(a: string, core: string, b: string)
    requires IsDefault(core) && Open(a) == []
    ensures Lex(a + (core + b)) == Closed(a) + (Words(core + b[..Run(b)]) + Lex(b[Run(b)..]))
  {
    DefaultIsSoft(core, b);
    DefaultIsWord(core);
    SoftCut(a, core + b);
    assert [] + (core + b) == core + b;
    WordInFront(core, b);
  }

  lemma PutOtherwise(a: string, core: string, x: string, b: string, mark: string)
    requires IsDefault(core) && IsBland(x) && Has(x, mark) && (a == [] || EndsInSpace(a))
    requires Fits(a + (core + (x + b)), mark)
    ensures IsJudged(a + ("otherwise" + (x + b)), mark, IsStaleText(a + (core + (x + b))))
  {
    var r := x + b;
    var g := r[..Run(r)];
    DefaultInCode(a, core, x, b, mark);
    AtDefault(a, core, r);
    AtDefault(a, "otherwise", r);
    DefaultIsModern(core, g);
    DefaultIsModern("otherwise", g);
    WordsAreNeutral(core + g, mark);
    WordsAreNeutral("otherwise" + g, mark);
    Edited(a + (core + r), a + ("otherwise" + r), Closed(a),
           Words(core + g), Words("otherwise" + g), Lex(r[Run(r)..]), mark);
  }
}
