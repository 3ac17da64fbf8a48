/** Token lists in which nothing is left to rewrite but bangs and legacy words, and how they fare
    when some tokens are exchanged for others. */
module SurfaceStale {
  import opened PythonText
  import opened SurfaceLexer
  import opened SurfaceRewriter
  import opened SurfaceRelexing
  import opened SurfaceEcho
  import opened SurfaceTheorems

  /** No legacy syntax, bangs and words aside. */
  predicate IsSoundToken(t: Token, depth: nat) {
    match t
    case Arrow => false
    case FatArrow => false
    case RangeEquals(gap) => gap == []
    case Semicolon => depth > 0
    case _ => true
  }

  predicate IsSound(tokens: seq<Token>, depth: nat) {
    tokens == [] || (IsSoundToken(tokens[0], depth) && IsSound(tokens[1..], DepthAfter(tokens[0], depth)))
  }

  predicate IsStale(t: Token) {
    t == Bang || (t.Word? && IsLegacyWord(t.text))
  }

  predicate HasStale(tokens: seq<Token>) {
    exists i :: 0 <= i < |tokens| && IsStale(tokens[i])
  }

  lemma StaleTwo(a: seq<Token>, b: seq<Token>)
    ensures HasStale(a + b) <==> HasStale(a) || HasStale(b)
  {
    if i :| 0 <= i < |a| && IsStale(a[i]) {
      assert IsStale((a + b)[i]);
    }
    if i :| 0 <= i < |b| && IsStale(b[i]) {
      assert IsStale((a + b)[|a| + i]);
    }
  }

  lemma StaleOne(t: Token)
    ensures HasStale([t]) <==> IsStale(t)
  {
    assert [t][0] == t;
  }

  lemma StaleFirst(t: Token, tokens: seq<Token>)
    ensures HasStale([t] + tokens) <==> IsStale(t) || HasStale(tokens)
  {
    StaleOne(t);
    StaleTwo([t], tokens);
  }

  lemma {:induction false} CanonicalIsSound(tokens: seq<Token>, depth: nat)
    ensures IsCanonical(tokens, depth) <==> IsSound(tokens, depth) && !HasStale(tokens)
  {
    if tokens != [] {
      CanonicalIsSound(tokens[1..], DepthAfter(tokens[0], depth));
      StaleFirst(tokens[0], tokens[1..]);
      assert tokens == [tokens[0]] + tokens[1..];
    }
  }

  function DepthBehind(tokens: seq<Token>, depth: nat): nat {
    if tokens == [] then depth else DepthBehind(tokens[1..], DepthAfter(tokens[0], depth))
  }

  lemma {:induction false} SoundTwo(a: seq<Token>, b: seq<Token>, depth: nat)
    ensures IsSound(a + b, depth) <==> IsSound(a, depth) && IsSound(b, DepthBehind(a, depth))
  {
    if a == [] {
      assert a + b == b;
    } else {
      assert (a + b)[1..] == a[1..] + b;
      SoundTwo(a[1..], b, DepthAfter(a[0], depth));
    }
  }

  /** No range with a gap is sound. */
  lemma {:induction false} SoundToken(tokens: seq<Token>, depth: nat, t: Token)
    requires IsSound(tokens, depth) && t in tokens
    ensures t.RangeEquals? ==> t.gap == []
  {
    if t != tokens[0] {
      SoundToken(tokens[1..], DepthAfter(tokens[0], depth), t);
    }
  }

  // ----- markers in literals and comments -----

  predicate IsCleanToken(t: Token, mark: string) {
    t.Comment? || t.Literal? ==> !Has(t.text, mark)
  }

  predicate IsClean(tokens: seq<Token>, mark: string) {
    forall i :: 0 <= i < |tokens| ==> IsCleanToken(tokens[i], mark)
  }

  lemma CleanTwo(a: seq<Token>, b: seq<Token>, mark: string)
    ensures IsClean(a + b, mark) <==> IsClean(a, mark) && IsClean(b, mark)
  {
    if IsClean(a + b, mark) {
      forall i | 0 <= i < |a| ensures IsCleanToken(a[i], mark) {
        assert (a + b)[i] == a[i];
      }
      forall i | 0 <= i < |b| ensures IsCleanToken(b[i], mark) {
        assert (a + b)[|a| + i] == b[i];
      }
    }
  }

  // ----- exchanging tokens -----

  /** Tokens that are sound at every depth and leave the depth alone. */
  predicate IsNeutralToken(t: Token) {
    t.Word? || t.Comment? || t.Literal? || (t.Plain? && t.c != '[' && t.c != ']')
  }

  predicate IsNeutral(tokens: seq<Token>) {
    forall i :: 0 <= i < |tokens| ==> IsNeutralToken(tokens[i])
  }

  lemma {:induction false} NeutralIsSound(tokens: seq<Token>, depth: nat)
    requires IsNeutral(tokens)
    ensures IsSound(tokens, depth) && DepthBehind(tokens, depth) == depth
  {
    if tokens != [] {
      assert IsNeutralToken(tokens[0]);
      NeutralIsSound(tokens[1..], DepthAfter(tokens[0], depth));
    }
  }

  /** A sound and clean list stays so when neutral, clean tokens replace neutral ones. */
  predicate IsFit(tokens: seq<Token>, mark: string) {
    IsSound(tokens, 0) && IsClean(tokens, mark)
  }

  lemma Exchange(a: seq<Token>, before: seq<Token>, after: seq<Token>, b: seq<Token>, mark: string)
    requires IsNeutral(before) && IsNeutral(after) && IsClean(after, mark)
    requires IsFit(a + (before + b), mark)
    ensures IsFit(a + (after + b), mark)
    ensures HasStale(a + (before + b)) <==> HasStale(a) || HasStale(before) || HasStale(b)
    ensures HasStale(a + (after + b)) <==> HasStale(a) || HasStale(after) || HasStale(b)
  {
    ExchangeSound(a, before, after, b);
    CleanTwo(a, before + b, mark);
    CleanTwo(before, b, mark);
    CleanTwo(after, b, mark);
    CleanTwo(a, after + b, mark);
    StaleTwo(a, before + b);
    StaleTwo(before, b);
    StaleTwo(after, b);
    StaleTwo(a, after + b);
  }

  lemma ExchangeSound(a: seq<Token>, before: seq<Token>, after: seq<Token>, b: seq<Token>)
    requires IsNeutral(before) && IsNeutral(after) && IsSound(a + (before + b), 0)
    ensures IsSound(a + (after + b), 0)
  {
    var depth := DepthBehind(a, 0);
    SoundTwo(a, before + b, 0);
    SoundTwo(before, b, depth);
    NeutralIsSound(before, depth);
    NeutralIsSound(after, depth);
    SoundTwo(after, b, depth);
    SoundTwo(a, after + b, 0);
  }

  // ----- the rewritten text -----

  lemma {:induction false} SoundBehindInert(a: seq<Token>, b: seq<Token>, depth: nat)
    requires IsInert(a) && IsSound(a + b, depth)
    ensures IsSound(b, depth)
  {
    if a == [] {
      assert a + b == b;
    } else {
      assert (a + b)[1..] == a[1..] + b;
      assert a[0] in a;
      SoundBehindInert(a[1..], b, depth);
    }
  }

  lemma FreshIsNeutral(tokens: seq<Token>)
    requires AllFresh(tokens)
    ensures IsNeutral(tokens)
  {
    forall i | 0 <= i < |tokens| ensures IsNeutralToken(tokens[i]) {
      assert IsFresh(tokens[i]);
    }
  }

  lemma SoundEcho(echo: seq<Token>, s: string, depth: nat, after: seq<Token>)
    requires s != [] && Echoes(echo, s, depth) && IsSound(after, DepthAfter(Next(s), depth))
    ensures IsSound(echo + after, depth)
  {
    if |echo| == 1 && IsSoundToken(echo[0], depth) && DepthAfter(echo[0], depth) == DepthAfter(Next(s), depth) {
      assert (echo + after)[1..] == after;
    } else if echo == [] {
      assert echo + after == after;
    } else {
      FreshIsNeutral(echo);
      NeutralIsSound(echo, depth);
      SoundTwo(echo, after, depth);
    }
  }

  /** Of legacy syntax, rewriting leaves at most bangs. */
  lemma {:induction false} RewriteIsSound(s: string, previous: string, depth: nat)
    ensures IsSound(Lex(Rewrite(s, previous, depth)), depth)
    decreases |s|
  {
    if s != [] {
      var piece := Piece(Next(s), Rest(s), previous, depth);
      var tail, depth' := Tail(s, previous, depth), DepthAfter(Next(s), depth);
      RewriteIsSound(Rest(s), LastOf(piece), depth');
      if JoinsComment(s, depth) {
        var text, after := JoinedEcho(s, previous, depth);
        assert ([Comment(text)] + after)[1..] == after;
        assert ([Comment(['/'] + text)] + after)[1..] == after;
      } else {
        var echo, absorbed := Echo(s, previous, depth);
        var after := Lex(tail)[|absorbed|..];
        assert Lex(tail) == absorbed + after;
        SoundBehindInert(absorbed, after, depth');
        SoundEcho(echo, s, depth, after);
      }
    }
  }

  /** What is stale in the rewritten text are the stranded bangs of the source. */
  lemma StaleIsStranded(source: string)
    ensures IsSound(Lex(RewriteTokens(source)), 0)
    ensures HasStale(Lex(RewriteTokens(source))) <==> HasStrandedBang(source)
  {
    var tokens := Lex(RewriteTokens(source));
    RewriteIsSound(source, "", 0);
    CanonicalIsSound(tokens, 0);
    FixedPointsAreCanonicalTexts(RewriteTokens(source));
    RewritingIsIdempotent(source);
  }

  // ----- literals and comments of the rewritten text -----

  lemma {:induction false} TokenIsInText(s: string, i: nat, mark: string)
    requires i < |Lex(s)| && Has(Spelling(Lex(s)[i]), mark)
    ensures Has(s, mark)
    decreases |s|
  {
    LexFirst(s, i);
    if i > 0 {
      TokenIsInText(Rest(s), i - 1, mark);
    }
    HasInTwo(Spelling(Next(s)), Rest(s), mark);
  }

  lemma LexFirst(s: string, i: nat)
    requires i < |Lex(s)|
    ensures s != []
    ensures if i == 0 then Lex(s)[i] == Next(s) else i - 1 < |Lex(Rest(s))| && Lex(s)[i] == Lex(Rest(s))[i - 1]
  {
  }

  lemma HasInTwo(a: string, b: string, mark: string)
    requires Has(a, mark) || Has(b, mark)
    ensures Has(a + b, mark)
  {
    if Has(a, mark) {
      HasInPart([], a, b, mark);
      assert [] + a + b == a + b;
    } else {
      HasInPart(a, b, [], mark);
      assert a + b + [] == a + b;
    }
  }

  lemma {:induction false} LiteralIsListed(tokens: seq<Token>, i: nat) returns (k: nat)
    requires i < |tokens| && tokens[i].Literal?
    ensures k < |Literals(tokens)| && Literals(tokens)[k] == tokens[i].text
  {
    if i == 0 {
      k := 0;
    } else {
      k := LiteralIsListed(tokens[1..], i - 1);
      k := k + |if tokens[0].Literal? then [tokens[0].text] else []|;
    }
  }

  lemma {:induction false} ListedIsLiteral(tokens: seq<Token>, k: nat) returns (i: nat)
    requires k < |Literals(tokens)|
    ensures i < |tokens| && tokens[i].Literal? && Literals(tokens)[k] == tokens[i].text
  {
    if tokens[0].Literal? && k == 0 {
      i := 0;
    } else {
      i := ListedIsLiteral(tokens[1..], if tokens[0].Literal? then k - 1 else k);
      i := i + 1;
    }
  }

  lemma {:induction false} CommentIsListed(tokens: seq<Token>, i: nat) returns (k: nat)
    requires i < |tokens| && tokens[i].Comment?
    ensures k < |Comments(tokens)| && Comments(tokens)[k] == tokens[i].text
  {
    if i == 0 {
      k := 0;
    } else {
      k := CommentIsListed(tokens[1..], i - 1);
      k := k + |if tokens[0].Comment? then [tokens[0].text] else []|;
    }
  }

  lemma {:induction false} ListedIsComment(tokens: seq<Token>, k: nat) returns (i: nat)
    requires k < |Comments(tokens)|
    ensures i < |tokens| && tokens[i].Comment? && Comments(tokens)[k] == tokens[i].text
  {
    if tokens[0].Comment? && k == 0 {
      i := 0;
    } else {
      i := ListedIsComment(tokens[1..], if tokens[0].Comment? then k - 1 else k);
      i := i + 1;
    }
  }

  lemma LiteralIsClean(source: string, i: nat, mark: string)
    requires !Has(source, mark) && i < |Lex(RewriteTokens(source))| && Lex(RewriteTokens(source))[i].Literal?
    ensures !Has(Lex(RewriteTokens(source))[i].text, mark)
  {
    LiteralsSurvive(source, "", 0);
    var k := LiteralIsListed(Lex(RewriteTokens(source)), i);
    var j := ListedIsLiteral(Lex(source), k);
    if Has(Lex(source)[j].text, mark) {
      TokenIsInText(source, j, mark);
    }
  }

  lemma CommentIsClean(source: string, i: nat, mark: string)
    requires mark != [] && '/' !in mark && !Has(source, mark)
    requires i < |Lex(RewriteTokens(source))| && Lex(RewriteTokens(source))[i].Comment?
    ensures !Has(Lex(RewriteTokens(source))[i].text, mark)
  {
    CommentsSurvive(source, "", 0);
    var k := CommentIsListed(Lex(RewriteTokens(source)), i);
    var before, after := Comments(Lex(source)), Comments(Lex(RewriteTokens(source)));
    var j := ListedIsComment(Lex(source), k);
    if Has(before[k], mark) {
      TokenIsInText(source, j, mark);
    }
    Between([], "/", before[k], mark);
    assert [] + "/" + before[k] == "/" + before[k];
  }

  /** Markers never end up in literals and comments. */
  lemma RewriteIsClean(source: string, mark: string)
    requires mark != [] && '/' !in mark && !Has(source, mark)
    ensures IsClean(Lex(RewriteTokens(source)), mark)
  {
    var tokens := Lex(RewriteTokens(source));
    forall i | 0 <= i < |tokens| ensures IsCleanToken(tokens[i], mark) {
      if tokens[i].Literal? {
        LiteralIsClean(source, i, mark);
      } else if tokens[i].Comment? {
        CommentIsClean(source, i, mark);
      }
    }
  }
}
