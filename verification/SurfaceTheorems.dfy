/** The first pass of the migration, token rewriting, on every text: when it leaves a text alone,
    when a second rewriting would change the first one's result, and that literals and comments
    come through untouched. */
module SurfaceTheorems {
  import opened SurfaceLexer
  import opened SurfaceRewriter
  import opened SurfaceRelexing
  import opened SurfaceEcho

  // ----- legacy syntax -----

  /** A token that belongs to the legacy surface at the given bracket depth. */
  predicate IsLegacy(t: Token, depth: nat) {
    match t
    case Arrow => true
    case FatArrow => true
    case Bang => true
    case RangeEquals(gap) => gap != []
    case Semicolon => depth == 0
    case Word(w) => IsLegacyWord(w)
    case _ => false
  }

  predicate IsCanonical(tokens: seq<Token>, depth: nat) {
    tokens == [] || (!IsLegacy(tokens[0], depth) && IsCanonical(tokens[1..], DepthAfter(tokens[0], depth)))
  }

  /** Somewhere in the code (not in a literal or comment) `!` stands before `=>`. */
  predicate HasStrandedBang(s: string)
    decreases |s|
  {
    s != [] && (StrandsBang(s) || HasStrandedBang(Rest(s)))
  }

  /** For each comment, whether a slash stands before a dropped semicolon before it. */
  function Joined(s: string, depth: nat): seq<bool>
    decreases |s|
  {
    if s == [] then []
    else
      var rest := Joined(Rest(s), DepthAfter(Next(s), depth));
      if Next(s).Comment? then [false] + rest
      else if JoinsComment(s, depth) && rest != [] then [true] + rest[1..]
      else rest
  }

  // ----- the fixed points of rewriting -----

  lemma KeptPiece(s: string, previous: string, depth: nat)
    requires s != [] && !IsLegacy(Next(s), depth)
    ensures Piece(Next(s), Rest(s), previous, depth) == Spelling(Next(s))
  {
  }

  lemma ReplacementShows(s: string, tail: string)
    requires s != [] && Next(s).Word? && IsLegacyWord(Next(s).text)
    ensures Replacement(Next(s).text) + tail != s
  {
    NextWord(s);
    var w := Next(s).text;
    var out := Replacement(w) + tail;
    assert forall i :: 0 <= i < |w| ==> s[i] == w[i];
    if w == "pub" {
      assert out[3] == 'l';
      if |s| > 3 {
        assert Rest(s)[0] == s[3];
      }
    } else {
      ReplacementDiffers(w);
      var i :| 0 <= i < |w| && i < |Replacement(w)| && w[i] != Replacement(w)[i];
      assert out[i] == Replacement(w)[i];
    }
  }

  lemma ReplacementDiffers(w: string)
    requires IsLegacyWord(w) && w != "pub"
    ensures exists i :: 0 <= i < |w| && i < |Replacement(w)| && w[i] != Replacement(w)[i]
  {
    var r := Replacement(w);
    if w == "fn" {
      assert w[1] != r[1];
    } else if w == "elif" {
      assert w[2] != r[2];
    } else if w == "elseif" {
      assert w[4] != r[4];
    } else {
      assert w[0] != r[0];
    }
  }

  lemma DroppedShows(s: string, previous: string)
    requires s != [] && Next(s).Semicolon? && DropsSemicolon(Rest(s))
    ensures Rewrite(s, previous, 0) != s
  {
    var rest := Rest(s);
    assert Rewrite(s, previous, 0) == Rewrite(rest, "", 0);
    if rest != [] {
      DroppedFront(rest, 0);
    }
  }

  lemma LegacyShows(s: string, previous: string, depth: nat)
    requires s != [] && IsLegacy(Next(s), depth)
    ensures Rewrite(s, previous, depth) != s
  {
    var piece, tail := Piece(Next(s), Rest(s), previous, depth), Tail(s, previous, depth);
    assert Rewrite(s, previous, depth) == piece + tail;
    if Next(s).Word? {
      ReplacementShows(s, tail);
    } else if Next(s).RangeEquals? {
      GapShows(s, tail);
    } else if Next(s).Semicolon? {
      SemicolonShows(s, previous, depth);
    } else {
      assert (piece + tail)[0] == piece[0] != s[0];
    }
  }

  lemma GapShows(s: string, tail: string)
    requires s != [] && Next(s).RangeEquals? && IsLegacy(Next(s), 0)
    ensures Piece(Next(s), Rest(s), "", 0) + tail != s
  {
    BlankChars(s[2..]);
    assert s[2] == s[2..][0] == Next(s).gap[0];
    assert (Piece(Next(s), Rest(s), "", 0) + tail)[2] == '=';
  }

  lemma SemicolonShows(s: string, previous: string, depth: nat)
    requires s != [] && Next(s).Semicolon? && IsLegacy(Next(s), depth)
    ensures Rewrite(s, previous, depth) != s
  {
    if DropsSemicolon(Rest(s)) {
      DroppedShows(s, previous);
    } else {
      assert Piece(Next(s), Rest(s), previous, depth)[0] == '\n';
    }
  }

  /** Rewriting leaves a text as it is exactly when its tokens hold no legacy syntax. */
  lemma {:induction false} FixedPoint(s: string, previous: string, depth: nat)
    ensures Rewrite(s, previous, depth) == s <==> IsCanonical(Lex(s), depth)
    decreases |s|
  {
    if s != [] {
      var t, rest := Next(s), Rest(s);
      assert Lex(s)[1..] == Lex(rest);
      if IsLegacy(t, depth) {
        LegacyShows(s, previous, depth);
      } else {
        KeptPiece(s, previous, depth);
        var piece := Spelling(t);
        FixedPoint(rest, LastOf(piece), DepthAfter(t, depth));
        SamePrefix(piece, Rewrite(rest, LastOf(piece), DepthAfter(t, depth)), rest);
      }
    }
  }

  lemma SamePrefix(a: string, b: string, c: string)
    ensures a + b == a + c <==> b == c
  {
    assert (a + b)[|a|..] == b && (a + c)[|a|..] == c;
  }

  /** The fixed points of `rewrite_tokens`. */
  lemma FixedPointsAreCanonicalTexts(source: string)
    ensures RewriteTokens(source) == source <==> IsCanonical(Lex(source), 0)
  {
    FixedPoint(source, "", 0);
  }

  // ----- one token again -----

  lemma Echo(s: string, previous: string, depth: nat) returns (echo: seq<Token>, absorbed: seq<Token>)
    requires s != [] && !JoinsComment(s, depth)
    ensures Echoes(echo, s, depth)
    ensures LexesAs(Rewrite(s, previous, depth), echo, Tail(s, previous, depth), absorbed)
  {
    absorbed := [];
    match Next(s)
    case Comment(_) => EchoComment(s, previous, depth); echo := [Next(s)];
    case Literal(_) => EchoLiteral(s, previous, depth); echo := [Next(s)];
    case Arrow => echo := EchoArrow(s, previous, depth);
    case FatArrow => echo, absorbed := EchoFatArrow(s, previous, depth);
    case RangeEquals(_) => EchoRange(s, previous, depth); echo := [RangeEquals("")];
    case Bang => echo := EchoBang(s, previous, depth);
    case Semicolon => echo := EchoSemicolon(s, previous, depth);
    case Word(_) => echo, absorbed := EchoWord(s, previous, depth);
    case Plain(_) => echo := EchoPlain(s, previous, depth);
  }

  predicate IsCommentText(text: string) {
    StartsWith2(text, '/', '/') && forall i :: 0 <= i < |text| ==> text[i] != '\n'
  }

  lemma CommentTail(s: string, previous: string, depth: nat)
    requires s != [] && Next(s).Comment?
    ensures IsCommentText(Next(s).text)
    ensures Rewrite(s, previous, depth) == Next(s).text + Tail(s, previous, depth)
    ensures var tail := Tail(s, previous, depth); tail == [] || tail[0] == '\n'
  {
    LineChars(s);
    if Rest(s) != [] {
      AloneIsCopied(Rest(s), LastOf(Next(s).text), depth);
    }
  }

  lemma LongerComment(text: string, tail: string)
    requires IsCommentText(text)
    ensures IsCommentText(['/'] + text)
    ensures ['/'] + (text + tail) == (['/'] + text) + tail
  {
  }

  lemma JoinedTail(s: string, previous: string, depth: nat)
    requires JoinsComment(s, depth)
    ensures Next(s[2..]).Comment?
    ensures Tail(s, previous, depth) == Rewrite(s[2..], "", 0)
  {
    var semi, behind := s[1..], s[2..];
    assert Rest(s) == semi && Next(semi) == Semicolon && Rest(semi) == behind;
    assert behind[Blanks(behind)..] == behind;
    assert DropsSemicolon(behind);
  }

  /** The comment behind a dropped semicolon grows by the slash in front of it. */
  lemma JoinedEcho(s: string, previous: string, depth: nat) returns (text: string, after: seq<Token>)
    requires JoinsComment(s, depth)
    ensures Lex(Tail(s, previous, depth)) == [Comment(text)] + after
    ensures Lex(Rewrite(s, previous, depth)) == [Comment(['/'] + text)] + after
  {
    var behind := s[2..];
    JoinedTail(s, previous, depth);
    CommentTail(behind, "", 0);
    text := Next(behind).text;
    var tail := Tail(behind, "", 0);
    CommentInFront(text, tail);
    LongerComment(text, tail);
    CommentInFront(['/'] + text, tail);
    after := Lex(tail);
    assert Rewrite(s, previous, depth) == ['/'] + Tail(s, previous, depth);
  }

  // ----- rewriting twice -----

  lemma {:induction false} CanonicalBehindInert(a: seq<Token>, b: seq<Token>, depth: nat)
    requires IsInert(a) && IsCanonical(a + b, depth)
    ensures IsCanonical(b, depth)
  {
    if a == [] {
      assert a + b == b;
    } else {
      assert (a + b)[1..] == a[1..] + b;
      assert a[0] in a;
      assert DepthAfter(a[0], depth) == depth;
      CanonicalBehindInert(a[1..], b, depth);
    }
  }

  lemma {:induction false} CanonicalBehindFresh(a: seq<Token>, b: seq<Token>, depth: nat)
    requires AllFresh(a) && IsCanonical(b, depth)
    ensures IsCanonical(a + b, depth)
  {
    if a == [] {
      assert a + b == b;
    } else {
      assert (a + b)[1..] == a[1..] + b;
      assert a[0] in a;
      CanonicalBehindFresh(a[1..], b, depth);
    }
  }

  lemma CanonicalBehindOne(t: Token, b: seq<Token>, depth: nat)
    requires !IsLegacy(t, depth) && IsCanonical(b, DepthAfter(t, depth))
    ensures IsCanonical([t] + b, depth)
  {
    assert ([t] + b)[1..] == b;
  }

  lemma CanonicalEcho(echo: seq<Token>, s: string, depth: nat, after: seq<Token>)
    requires s != [] && Echoes(echo, s, depth) && !StrandsBang(s)
    requires IsCanonical(after, DepthAfter(Next(s), depth))
    ensures IsCanonical(echo + after, depth)
  {
    if |echo| == 1 && !IsLegacy(echo[0], depth) && DepthAfter(echo[0], depth) == DepthAfter(Next(s), depth) {
      CanonicalBehindOne(echo[0], after, depth);
    } else if echo == [] {
      assert echo + after == after;
    } else {
      CanonicalBehindFresh(echo, after, depth);
    }
  }

  /** Without a stranded `!`, nothing legacy is left in the rewritten text. */
  lemma {:induction false} RewriteIsCanonical(s: string, previous: string, depth: nat)
    requires !HasStrandedBang(s)
    ensures IsCanonical(Lex(Rewrite(s, previous, depth)), depth)
    decreases |s|
  {
    if s != [] {
      var piece := Piece(Next(s), Rest(s), previous, depth);
      var tail, depth' := Tail(s, previous, depth), DepthAfter(Next(s), depth);
      RewriteIsCanonical(Rest(s), LastOf(piece), depth');
      if JoinsComment(s, depth) {
        var text, after := JoinedEcho(s, previous, depth);
        assert ([Comment(text)] + after)[1..] == after;
        CanonicalBehindOne(Comment(['/'] + text), after, depth);
      } else {
        var echo, absorbed := Echo(s, previous, depth);
        var after := Lex(tail)[|absorbed|..];
        assert Lex(tail) == absorbed + after;
        CanonicalBehindInert(absorbed, after, depth');
        CanonicalEcho(echo, s, depth, after);
      }
    }
  }

  /** A stranded `!` is a lone `!` of the rewritten text. */
  lemma {:induction false} StrandedBangStays(s: string, previous: string, depth: nat)
    requires HasStrandedBang(s)
    ensures Bang in Lex(Rewrite(s, previous, depth))
    decreases |s|
  {
    var piece := Piece(Next(s), Rest(s), previous, depth);
    var tail, depth' := Tail(s, previous, depth), DepthAfter(Next(s), depth);
    if JoinsComment(s, depth) {
      StrandedBangStays(Rest(s), LastOf(piece), depth');
      var text, after := JoinedEcho(s, previous, depth);
      assert Bang in after;
    } else {
      var echo, absorbed := Echo(s, previous, depth);
      var after := Lex(tail)[|absorbed|..];
      if StrandsBang(s) {
        assert Bang in echo;
      } else {
        StrandedBangStays(Rest(s), LastOf(piece), depth');
        assert Lex(tail) == absorbed + after;
        assert Bang in after;
      }
    }
  }

  lemma {:induction false} BangIsNotCanonical(tokens: seq<Token>, depth: nat)
    requires Bang in tokens
    ensures !IsCanonical(tokens, depth)
  {
    if tokens[0] != Bang {
      assert Bang in tokens[1..];
      BangIsNotCanonical(tokens[1..], DepthAfter(tokens[0], depth));
    }
  }

  /** Running the rewriter on its own output changes nothing exactly when the code of
      the source nowhere has `!` directly before `=>`. */
  lemma RewritingIsIdempotent(source: string)
    ensures RewriteTokens(RewriteTokens(source)) == RewriteTokens(source) <==> !HasStrandedBang(source)
  {
    var once := RewriteTokens(source);
    FixedPointsAreCanonicalTexts(once);
    if HasStrandedBang(source) {
      StrandedBangStays(source, "", 0);
      BangIsNotCanonical(Lex(once), 0);
    } else {
      RewriteIsCanonical(source, "", 0);
    }
  }

  predicate BangArrowAt(s: string, i: int) {
    0 <= i && i + 2 < |s| && s[i] == '!' && s[i + 1] == '=' && s[i + 2] == '>'
  }

  /** A text without the characters `!=>` in a row is migrated once and for all. */
  lemma {:induction false} NoBangArrowNoStrandedBang(s: string)
    requires forall i :: !BangArrowAt(s, i)
    ensures !HasStrandedBang(s)
    decreases |s|
  {
    if s != [] {
      var n, rest := |Spelling(Next(s))|, Rest(s);
      forall i ensures !BangArrowAt(rest, i) {
        assert !BangArrowAt(s, n + i);
      }
      NoBangArrowNoStrandedBang(rest);
      assert !BangArrowAt(s, 0);
    }
  }

  /** The failing family is not empty: one more run turns the kept `!` into `not`. */
  lemma StrandedBangExample()
    ensures HasStrandedBang("!=>")
    ensures RewriteTokens(RewriteTokens("!=>")) != RewriteTokens("!=>")
  {
    assert Next("!=>") == Plain('!');
    RewritingIsIdempotent("!=>");
  }

  // ----- literals and comments -----

  lemma {:induction false} LiteralsOfAppend(a: seq<Token>, b: seq<Token>)
    ensures Literals(a + b) == Literals(a) + Literals(b)
  {
    if a == [] {
      assert a + b == b;
    } else {
      assert (a + b)[1..] == a[1..] + b;
      LiteralsOfAppend(a[1..], b);
    }
  }

  lemma {:induction false} CommentsOfAppend(a: seq<Token>, b: seq<Token>)
    ensures Comments(a + b) == Comments(a) + Comments(b)
  {
    if a == [] {
      assert a + b == b;
    } else {
      assert (a + b)[1..] == a[1..] + b;
      CommentsOfAppend(a[1..], b);
    }
  }

  lemma {:induction false} BareTokens(tokens: seq<Token>)
    requires forall t :: t in tokens ==> !t.Literal? && !t.Comment?
    ensures Literals(tokens) == [] && Comments(tokens) == []
  {
    if tokens != [] {
      assert tokens[0] in tokens;
      BareTokens(tokens[1..]);
    }
  }

  /** The echo of a token carries that token's literal and comment and no other. */
  lemma EchoKeeps(echo: seq<Token>, s: string, depth: nat)
    requires s != [] && Echoes(echo, s, depth)
    ensures Literals(echo) == Literals([Next(s)]) && Comments(echo) == Comments([Next(s)])
  {
    if !Next(s).Literal? && !Next(s).Comment? {
      BareTokens(echo);
      BareTokens([Next(s)]);
    }
  }

  /** The literals of the rewritten text are those of the source, verbatim and in order. */
  lemma {:induction false} LiteralsSurvive(s: string, previous: string, depth: nat)
    ensures Literals(Lex(Rewrite(s, previous, depth))) == Literals(Lex(s))
    decreases |s|
  {
    if s != [] {
      var piece := Piece(Next(s), Rest(s), previous, depth);
      var tail := Tail(s, previous, depth);
      LiteralsSurvive(Rest(s), LastOf(piece), DepthAfter(Next(s), depth));
      LiteralsOfAppend([Next(s)], Lex(Rest(s)));
      if JoinsComment(s, depth) {
        var text, after := JoinedEcho(s, previous, depth);
        LiteralsOfAppend([Comment(text)], after);
        LiteralsOfAppend([Comment(['/'] + text)], after);
      } else {
        var echo, absorbed := Echo(s, previous, depth);
        var after := Lex(tail)[|absorbed|..];
        assert Lex(tail) == absorbed + after;
        LiteralsOfAppend(absorbed, after);
        BareTokens(absorbed);
        LiteralsOfAppend(echo, after);
        EchoKeeps(echo, s, depth);
      }
    }
  }

  /** Each text of `after` is that of `before`, with a slash in front where it was joined. */
  predicate ArePrefixed(before: seq<string>, after: seq<string>, joined: seq<bool>) {
    && |before| == |after| == |joined|
    && forall i :: 0 <= i < |before| ==> after[i] == if joined[i] then ['/'] + before[i] else before[i]
  }

  /** A joined comment is the next one, and it is joined once. */
  lemma JoinedIsFirst(s: string, depth: nat)
    requires JoinsComment(s, depth)
    ensures var rest := Joined(Rest(s), DepthAfter(Next(s), depth)); rest != [] && !rest[0]
  {
    var semicolon, comment := s[1..], s[2..];
    assert Rest(s) == semicolon && DepthAfter(Next(s), depth) == depth;
    SemicolonIsNext(semicolon);
    assert semicolon[1..] == comment && Next(comment).Comment?;
  }

  lemma CommentsStep(s: string, previous: string, depth: nat) returns (text: string, after: seq<string>)
    requires s != []
    ensures var tail := Comments(Lex(Tail(s, previous, depth)));
            var out := Comments(Lex(Rewrite(s, previous, depth)));
            if JoinsComment(s, depth)
            then tail == [text] + after && out == [['/'] + text] + after
            else out == Comments([Next(s)]) + tail
  {
    text, after := "", [];
    if JoinsComment(s, depth) {
      var tokens;
      text, tokens := JoinedEcho(s, previous, depth);
      CommentsOfAppend([Comment(text)], tokens);
      CommentsOfAppend([Comment(['/'] + text)], tokens);
      after := Comments(tokens);
    } else {
      var echo, absorbed := Echo(s, previous, depth);
      var tokens := Lex(Tail(s, previous, depth));
      CommentsOfEcho(echo, s, depth, absorbed, tokens[|absorbed|..]);
      assert tokens == absorbed + tokens[|absorbed|..];
    }
  }

  /** Comments survive verbatim and in order, except that each joined one gains a slash. */
  lemma {:induction false} CommentsSurvive(s: string, previous: string, depth: nat)
    ensures ArePrefixed(Comments(Lex(s)), Comments(Lex(Rewrite(s, previous, depth))), Joined(s, depth))
    decreases |s|
  {
    if s != [] {
      var piece := Piece(Next(s), Rest(s), previous, depth);
      var depth' := DepthAfter(Next(s), depth);
      CommentsSurvive(Rest(s), LastOf(piece), depth');
      CommentsOfAppend([Next(s)], Lex(Rest(s)));
      var text, after := CommentsStep(s, previous, depth);
      if JoinsComment(s, depth) {
        JoinedIsFirst(s, depth);
      }
      PrefixedStep(s, depth, Comments(Lex(Rest(s))), Comments(Lex(Tail(s, previous, depth))),
                   Comments(Lex(Rewrite(s, previous, depth))), text, after);
    }
  }

  lemma PrefixedStep(s: string, depth: nat, before: seq<string>, tail: seq<string>, out: seq<string>,
                     text: string, after: seq<string>)
    requires s != []
    requires var rest := Joined(Rest(s), DepthAfter(Next(s), depth));
             ArePrefixed(before, tail, rest) && (JoinsComment(s, depth) ==> rest != [] && !rest[0])
    requires if JoinsComment(s, depth)
             then tail == [text] + after && out == [['/'] + text] + after
             else out == Comments([Next(s)]) + tail
    ensures ArePrefixed(Comments([Next(s)]) + before, out, Joined(s, depth))
  {
    var rest := Joined(Rest(s), DepthAfter(Next(s), depth));
    OneComment(Next(s));
    if JoinsComment(s, depth) {
      assert [] + before == before && Joined(s, depth) == [true] + rest[1..];
      OneJoined(before, text, after, rest);
    } else if Next(s).Comment? {
      OneCopied(Next(s).text, before, tail, rest);
    } else {
      assert [] + before == before && [] + tail == tail;
    }
  }

  lemma OneJoined(before: seq<string>, text: string, after: seq<string>, rest: seq<bool>)
    requires ArePrefixed(before, [text] + after, rest) && !rest[0]
    ensures ArePrefixed(before, [['/'] + text] + after, [true] + rest[1..])
  {
    var tail := [text] + after;
    assert tail[0] == before[0];
    forall i | 0 < i < |before| ensures after[i - 1] == if rest[i] then ['/'] + before[i] else before[i] {
      assert tail[i] == after[i - 1];
    }
  }

  lemma OneCopied(text: string, before: seq<string>, tail: seq<string>, rest: seq<bool>)
    requires ArePrefixed(before, tail, rest)
    ensures ArePrefixed([text] + before, [text] + tail, [false] + rest)
  {
  }

  lemma OneComment(t: Token)
    ensures Comments([t]) == if t.Comment? then [t.text] else []
  {
    assert [t][1..] == [];
  }

  lemma CommentsOfEcho(echo: seq<Token>, s: string, depth: nat, absorbed: seq<Token>, after: seq<Token>)
    requires s != [] && Echoes(echo, s, depth) && IsInert(absorbed)
    ensures Comments(echo + after) == Comments([Next(s)]) + Comments(absorbed + after)
  {
    CommentsOfAppend(absorbed, after);
    BareTokens(absorbed);
    CommentsOfAppend(echo, after);
    EchoKeeps(echo, s, depth);
  }

  /** `rewrite_tokens` copies literals and comments: literals always, comments exactly
      when no slash stands directly before a dropped semicolon before a comment. */
  lemma LiteralsAndCommentsAreCopied(source: string)
    ensures Literals(Lex(RewriteTokens(source))) == Literals(Lex(source))
    ensures Comments(Lex(RewriteTokens(source))) == Comments(Lex(source)) <==> true !in Joined(source, 0)
  {
    LiteralsSurvive(source, "", 0);
    CommentsSurvive(source, "", 0);
    SameWhenNotJoined(Comments(Lex(source)), Comments(Lex(RewriteTokens(source))), Joined(source, 0));
  }

  lemma SameWhenNotJoined(before: seq<string>, after: seq<string>, joined: seq<bool>)
    requires ArePrefixed(before, after, joined)
    ensures after == before <==> true !in joined
  {
    if i :| 0 <= i < |joined| && joined[i] {
      assert |after[i]| == |before[i]| + 1;
    }
  }

  lemma JoinedShows(s: string)
    requires JoinsComment(s, 0)
    ensures Comments(Lex(RewriteTokens(s))) != Comments(Lex(s))
  {
    JoinedIsFirst(s, 0);
    assert Joined(s, 0)[0];
    LiteralsAndCommentsAreCopied(s);
  }

  /** A text whose comment grows: the slash in front of the dropped semicolon runs into it. */
  lemma JoinedCommentExample()
    ensures Comments(Lex(RewriteTokens("/;//x"))) != Comments(Lex("/;//x"))
  {
    assert Next("/;//x") == Plain('/');
    JoinedShows("/;//x");
  }
}
