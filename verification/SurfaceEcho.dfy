/** What each token of a text turns into when the rewritten text is lexed again. */
module SurfaceEcho {
  import opened SurfaceLexer
  import opened SurfaceRewriter
  import opened SurfaceRelexing

  /** `/` directly before a dropped `;` directly before `//`: one longer comment. */
  predicate JoinsComment(s: string, depth: nat) {
    s != [] && Next(s) == Plain('/') && depth == 0 && 3 <= |s| && s[1] == ';' && StartsWith2(s[2..], '/', '/')
  }

  /** `!` directly before `=>`: kept because of the `=`, which is then replaced. */
  predicate StrandsBang(s: string) {
    s != [] && Next(s) == Plain('!') && StartsWith2(s[1..], '=', '>')
  }

  /** Tokens that rewriting may introduce and that it never touches again. */
  predicate IsFresh(t: Token) {
    t == Plain(' ') || (t.Word? && !IsLegacyWord(t.text))
  }

  predicate AllFresh(tokens: seq<Token>) {
    forall t :: t in tokens ==> IsFresh(t)
  }

  /** The tokens that the piece written for the first token of `s` is lexed into. */
  predicate Echoes(echo: seq<Token>, s: string, depth: nat)
    requires s != []
  {
    match Next(s)
    case Comment(_) => echo == [Next(s)]
    case Literal(_) => echo == [Next(s)]
    case RangeEquals(_) => echo == [RangeEquals("")]
    case Plain(c) => echo == (if StrandsBang(s) then [Bang] else [Plain(c)])
    case Semicolon =>
      echo == (if depth > 0 then [Semicolon] else if DropsSemicolon(Rest(s)) then [] else [Plain('\n')])
    case _ => AllFresh(echo)
  }

  /** `out` lexes as `echo` and then what `tail` lexes as, up to words and digits of
      `tail` that became part of the last word of `echo`. */
  predicate LexesAs(out: string, echo: seq<Token>, tail: string, absorbed: seq<Token>) {
    IsInert(absorbed) && |absorbed| <= |Lex(tail)|
    && Lex(tail)[..|absorbed|] == absorbed
    && Lex(out) == echo + Lex(tail)[|absorbed|..]
  }

  lemma LexesPlainly(out: string, echo: seq<Token>, tail: string)
    requires Lex(out) == echo + Lex(tail)
    ensures LexesAs(out, echo, tail, [])
  {
    assert Lex(tail)[0..] == Lex(tail);
  }

  lemma LegacyIsShort(w: string)
    requires IsLegacyWord(w)
    ensures |w| <= 6
  {
  }

  lemma CommentEnds(s: string)
    requires s != [] && Next(s).Comment?
    ensures var c := Spelling(Next(s)); StartsWith2(c, '/', '/') && forall i :: 0 <= i < |c| ==> c[i] != '\n'
    ensures Rest(s) == [] || Rest(s)[0] == '\n'
  {
    LineChars(s);
  }

  lemma EchoComment(s: string, previous: string, depth: nat)
    requires s != [] && Next(s).Comment?
    ensures LexesAs(Rewrite(s, previous, depth), [Next(s)], Tail(s, previous, depth), [])
  {
    var tail := Tail(s, previous, depth);
    CommentEnds(s);
    if Rest(s) != [] {
      AloneIsCopied(Rest(s), LastOf(Spelling(Next(s))), depth);
    }
    RewriteUnfolds(s, previous, depth, Spelling(Next(s)));
    CommentInFront(Spelling(Next(s)), tail);
    LexesPlainly(Spelling(Next(s)) + tail, [Next(s)], tail);
  }

  lemma EchoLiteral(s: string, previous: string, depth: nat)
    requires s != [] && Next(s).Literal?
    ensures LexesAs(Rewrite(s, previous, depth), [Next(s)], Tail(s, previous, depth), [])
  {
    var tail := Tail(s, previous, depth);
    LiteralInFront(s, tail);
    LexesPlainly(Spelling(Next(s)) + tail, [Next(s)], tail);
  }

  lemma EchoRange(s: string, previous: string, depth: nat)
    requires s != [] && Next(s).RangeEquals?
    ensures LexesAs(Rewrite(s, previous, depth), [RangeEquals("")], Tail(s, previous, depth), [])
  {
    var tail := Tail(s, previous, depth);
    RewriteUnfolds(s, previous, depth, "..=");
    RangeInFront(tail);
    LexesPlainly("..=" + tail, [RangeEquals("")], tail);
  }

  lemma RangeInFront(tail: string)
    ensures Lex("..=" + tail) == [RangeEquals("")] + Lex(tail)
  {
    var out := "..=" + tail;
    assert out[2..] == ['='] + tail;
    BlankStep('=', tail);
    assert Blanks(out[2..]) == 0;
    assert Next(out) == RangeEquals("");
    assert Rest(out) == out[3..] == tail;
  }

  lemma EchoSemicolon(s: string, previous: string, depth: nat) returns (echo: seq<Token>)
    requires s != [] && Next(s).Semicolon?
    ensures Echoes(echo, s, depth)
    ensures LexesAs(Rewrite(s, previous, depth), echo, Tail(s, previous, depth), [])
  {
    var tail := Tail(s, previous, depth);
    var out := Rewrite(s, previous, depth);
    if depth > 0 {
      echo := [Semicolon];
      assert out == ";" + tail && Next(out) == Semicolon && Rest(out) == tail;
    } else if DropsSemicolon(Rest(s)) {
      echo := [];
      assert out == tail;
    } else {
      echo := [Plain('\n')];
      AloneInFront('\n', tail);
    }
    LexesPlainly(out, echo, tail);
  }

  lemma EchoBang(s: string, previous: string, depth: nat) returns (echo: seq<Token>)
    requires s != [] && Next(s).Bang?
    ensures AllFresh(echo)
    ensures LexesAs(Rewrite(s, previous, depth), echo, Tail(s, previous, depth), [])
  {
    var tail := Tail(s, previous, depth);
    echo := [Word("not"), Plain(' ')];
    assert "not " + tail == "not" + ([' '] + tail);
    WordAndSpaceInFront("not", tail);
    LexesPlainly("not " + tail, echo, tail);
  }

  lemma EchoReturns(s: string, tail: string) returns (echo: seq<Token>)
    requires StartsWithSpace(s) ==> tail != [] && tail[0] == s[0]
    ensures AllFresh(echo)
    ensures Lex("returns" + (if StartsWithSpace(s) then "" else " ") + tail) == echo + Lex(tail)
  {
    if StartsWithSpace(s) {
      echo := [Word("returns")];
      WordAlone("returns", tail);
      assert "returns" + "" == "returns";
    } else {
      echo := [Word("returns"), Plain(' ')];
      assert "returns" + " " + tail == "returns" + ([' '] + tail);
      WordAndSpaceInFront("returns", tail);
    }
  }

  function RightOf(rest: string): string {
    if StartsWithSpace(rest) then "" else " "
  }

  lemma EchoArrow(s: string, previous: string, depth: nat) returns (echo: seq<Token>)
    requires s != [] && Next(s).Arrow?
    ensures AllFresh(echo)
    ensures LexesAs(Rewrite(s, previous, depth), echo, Tail(s, previous, depth), [])
  {
    var tail, rest := Tail(s, previous, depth), Rest(s);
    var piece := Piece(Arrow, rest, previous, depth);
    if StartsWithSpace(rest) {
      AloneIsCopied(rest, LastOf(piece), depth);
    }
    echo := EchoArrowPiece(piece, rest, previous, depth, tail);
    LexesPlainly(piece + tail, echo, tail);
  }

  lemma EchoArrowPiece(piece: string, rest: string, previous: string, depth: nat, tail: string)
    returns (echo: seq<Token>)
    requires piece == Piece(Arrow, rest, previous, depth)
    requires StartsWithSpace(rest) ==> tail != [] && tail[0] == rest[0]
    ensures AllFresh(echo) && Lex(piece + tail) == echo + Lex(tail)
  {
    echo := EchoReturns(rest, tail);
    if !StartsWithSpace(previous) {
      var bare := "returns" + RightOf(rest);
      assert piece == [' '] + bare;
      SpaceInFrontOf(bare + tail, bare, piece, tail);
      echo := EchoSpace(bare + tail, echo, tail);
    }
  }

  lemma SpaceInFrontOf(out: string, piece: string, piece': string, tail: string)
    requires out == piece + tail && piece' == [' '] + piece
    ensures [' '] + out == piece' + tail
  {
  }

  lemma EchoSpace(out: string, echo: seq<Token>, tail: string) returns (echo': seq<Token>)
    requires Lex(out) == echo + Lex(tail) && AllFresh(echo)
    ensures Lex([' '] + out) == echo' + Lex(tail) && AllFresh(echo')
  {
    AloneInFront(' ', out);
    echo' := [Plain(' ')] + echo;
    assert [Plain(' ')] + (echo + Lex(tail)) == echo' + Lex(tail);
  }

  lemma EchoFatArrow(s: string, previous: string, depth: nat) returns (echo: seq<Token>, absorbed: seq<Token>)
    requires s != [] && Next(s).FatArrow?
    ensures AllFresh(echo)
    ensures LexesAs(Rewrite(s, previous, depth), echo, Tail(s, previous, depth), absorbed)
  {
    var tail := Tail(s, previous, depth);
    var w := MATCH_ARROW + tail[..Run(tail)];
    echo := [Word(w)];
    if IsLegacyWord(w) {
      LegacyIsShort(w);
    }
    WordInFront(MATCH_ARROW, tail);
    absorbed := LeadingRun(tail);
  }

  // ----- words -----

  predicate IsModern(w: string) {
    IsWord(w) && !IsLegacyWord(w)
  }

  /** The word characters a rewritten text can put directly behind a word. */
  predicate GluesSafely(r: string) {
    Run(r) == 0 || Run(r) > 6 || r[..Run(r)] == "not"
  }

  lemma RunBehindWord(rest: string, previous: string, depth: nat)
    requires rest != [] ==> !IsWordChar(rest[0])
    requires !StartsWithSpace(previous)
    ensures GluesSafely(Rewrite(rest, previous, depth))
  {
    if rest != [] {
      var piece, tail := Piece(Next(rest), Rest(rest), previous, depth), Tail(rest, previous, depth);
      var r := piece + tail;
      if Next(rest).FatArrow? {
        RunOfMarker(tail);
      } else if Next(rest).Bang? {
        RunOfNot(tail);
      } else if piece == [] {
        FirstOfPiece(rest, previous, depth);
        RunBehindDropped(Rest(rest), depth);
      } else {
        NonWordPiece(rest, previous, depth);
        assert r[0] == piece[0];
      }
    }
  }

  lemma NonWordPiece(s: string, previous: string, depth: nat)
    requires s != [] && !IsWordChar(s[0]) && !Next(s).FatArrow? && !Next(s).Bang?
    requires !StartsWithSpace(previous)
    ensures var piece := Piece(Next(s), Rest(s), previous, depth); piece != [] ==> !IsWordChar(piece[0])
  {
    if Next(s).Word? {
      NextWord(s);
    }
  }

  lemma RunOfMarker(tail: string)
    ensures Run(MATCH_ARROW + tail) > 6
  {
    RunOfAppend(MATCH_ARROW, tail);
  }

  lemma RunOfNot(tail: string)
    ensures Run("not " + tail) == 3 && ("not " + tail)[..3] == "not"
  {
    assert "not " + tail == "not" + ([' '] + tail);
    RunOfAppend("not", [' '] + tail);
  }

  lemma RunBehindDropped(rest: string, depth: nat)
    requires DropsSemicolon(rest)
    ensures Run(Rewrite(rest, "", depth)) == 0
  {
    if rest != [] {
      DroppedFront(rest, depth);
    }
  }

  /** A word that is written, with what glues to it, is never a legacy word. */
  lemma GluedIsFresh(w: string, r: string)
    requires IsModern(w)
    requires GluesSafely(r)
    ensures !IsLegacyWord(w + r[..Run(r)])
  {
    var g := r[..Run(r)];
    if Run(r) == 0 {
      assert w + g == w;
    } else if Run(r) > 6 {
      if IsLegacyWord(w + g) {
        LegacyIsShort(w + g);
      }
    } else {
      NotIsNoEnding(w);
    }
  }

  lemma NotIsNoEnding(w: string)
    requires w != []
    ensures !IsLegacyWord(w + "not")
  {
    var g := w + "not";
    assert g[|g| - 1] == 't' && g[|g| - 2] == 'o';
  }

  /** One word written, then `tail`. */
  lemma EchoOneWord(w: string, tail: string) returns (echo: seq<Token>, absorbed: seq<Token>)
    requires IsModern(w)
    requires GluesSafely(tail)
    ensures AllFresh(echo) && LexesAs(w + tail, echo, tail, absorbed)
  {
    GluedIsFresh(w, tail);
    echo := [Word(w + tail[..Run(tail)])];
    WordInFront(w, tail);
    absorbed := LeadingRun(tail);
  }

  /** Two words written: the first stands alone, the second as above. */
  lemma EchoTwoWords(v: string, w: string, tail: string) returns (echo: seq<Token>, absorbed: seq<Token>)
    requires IsModern(v) && IsModern(w)
    requires GluesSafely(tail)
    ensures AllFresh(echo) && LexesAs(v + [' '] + w + tail, echo, tail, absorbed)
  {
    var one;
    one, absorbed := EchoOneWord(w, tail);
    WordAndSpaceInFront(v, w + tail);
    EchoRegroup(v, w, tail);
    var two := [Word(v), Plain(' ')];
    AllFreshAppend(two, one);
    echo := two + one;
    TokensRegroup(two, one, Lex(tail)[|absorbed|..]);
  }

  lemma TokensRegroup(a: seq<Token>, b: seq<Token>, c: seq<Token>)
    ensures a + (b + c) == (a + b) + c
  {
  }

  lemma EchoRegroup(v: string, w: string, tail: string)
    ensures v + [' '] + w + tail == v + ([' '] + (w + tail))
  {
  }

  lemma AllFreshAppend(a: seq<Token>, b: seq<Token>)
    requires AllFresh(a) && AllFresh(b)
    ensures AllFresh(a + b)
  {
  }

  lemma EchoWord(s: string, previous: string, depth: nat) returns (echo: seq<Token>, absorbed: seq<Token>)
    requires s != [] && Next(s).Word?
    ensures AllFresh(echo)
    ensures LexesAs(Rewrite(s, previous, depth), echo, Tail(s, previous, depth), absorbed)
  {
    NextWord(s);
    var w, tail := Next(s).text, Tail(s, previous, depth);
    LastOfReplacement(w);
    RunBehindWord(Rest(s), LastOf(Replacement(w)), depth);
    if w in {"elif", "elseif", "unless"} {
      var first, second := ReplacementIsTwoWords(w);
      echo, absorbed := EchoTwoWords(first, second, tail);
    } else {
      ReplacementIsModern(w);
      echo, absorbed := EchoOneWord(Replacement(w), tail);
    }
  }

  lemma ReplacementIsTwoWords(w: string) returns (first: string, second: string)
    requires w in {"elif", "elseif", "unless"}
    ensures IsModern(first) && IsModern(second) && Replacement(w) == first + [' '] + second
  {
    if w == "unless" {
      first, second := "if", "not";
    } else {
      first, second := "else", "if";
    }
  }

  lemma ReplacementIsModern(w: string)
    requires IsWord(w) && w !in {"elif", "elseif", "unless"}
    ensures IsModern(Replacement(w))
  {
  }

  lemma LastOfReplacement(w: string)
    requires IsWord(w)
    ensures !StartsWithSpace(LastOf(Replacement(w)))
  {
    if !IsLegacyWord(w) {
      assert IsWordChar(w[|w| - 1]);
    }
  }

  // ----- single characters -----

  lemma EchoPlain(s: string, previous: string, depth: nat) returns (echo: seq<Token>)
    requires s != [] && Next(s).Plain? && !JoinsComment(s, depth)
    ensures Echoes(echo, s, depth)
    ensures LexesAs(Rewrite(s, previous, depth), echo, Tail(s, previous, depth), [])
  {
    var c, tail := s[0], Tail(s, previous, depth);
    var out := [c] + tail;
    assert Rest(s) == s[1..] && out[1..] == tail;
    if StrandsBang(s) {
      echo := [Bang];
      assert Next(s[1..]) == FatArrow;
      assert tail[0] == '_';
      assert Next(out) == Bang && Rest(out) == tail;
    } else {
      echo := [Plain(c)];
      PlainAgain(s, previous, depth);
      PlainFrom(out);
    }
    LexesPlainly(out, echo, tail);
  }

  lemma PlainAgain(s: string, previous: string, depth: nat)
    requires s != [] && Next(s).Plain? && !JoinsComment(s, depth) && !StrandsBang(s)
    ensures Next([s[0]] + Tail(s, previous, depth)) == Plain(s[0])
  {
    var c, tail := s[0], Tail(s, previous, depth);
    if StandsAlone(c) {
      AloneInFront(c, tail);
      AloneIsCopied([c] + tail, "", 0);
    } else {
      TailAfterOperator(s, previous, depth);
      if c == '.' {
        DotsAgain(s, previous, depth);
      }
      PlainByTail(c, tail);
    }
  }

  /** Characters that begin an operator are plain when the operator does not follow. */
  lemma PlainByTail(c: char, tail: string)
    requires c in {'/', '-', '=', '.', '!'}
    requires c == '/' ==> tail == [] || tail[0] != '/'
    requires c == '-' || c == '=' ==> tail == [] || tail[0] != '>'
    requires c == '!' ==> tail != [] && tail[0] == '='
    requires c == '.' ==> !(tail != [] && tail[0] == '.' && BlankThenEquals(tail[1..]))
    ensures Next([c] + tail) == Plain(c)
  {
    var out := [c] + tail;
    assert out[0] == c && out[1..] == tail;
    assert 1 < |out| ==> out[1] == tail[0] && out[2..] == tail[1..];
  }

  lemma TailAfterOperator(s: string, previous: string, depth: nat)
    requires s != [] && Next(s).Plain? && !StandsAlone(s[0]) && !JoinsComment(s, depth) && !StrandsBang(s)
    ensures var c, tail := s[0], Tail(s, previous, depth);
            && c in {'/', '-', '=', '.', '!'}
            && (c == '/' ==> tail == [] || tail[0] != '/')
            && (c == '-' || c == '=' ==> tail == [] || tail[0] != '>')
            && (c == '!' ==> tail != [] && tail[0] == '=')
  {
    var c, rest := s[0], s[1..];
    assert Rest(s) == rest;
    assert Tail(s, previous, depth) == Rewrite(rest, [c], depth);
    if rest != [] {
      assert rest[0] == s[1];
      FirstWritten(rest, [c], depth);
      assert rest[1..] == s[2..];
    }
  }

  lemma DotsAgain(s: string, previous: string, depth: nat)
    requires s != [] && Next(s) == Plain('.')
    ensures var tail := Tail(s, previous, depth); !(tail != [] && tail[0] == '.' && BlankThenEquals(tail[1..]))
  {
    var rest, tail := s[1..], Tail(s, previous, depth);
    assert Rest(s) == rest && tail == Rewrite(rest, ".", depth);
    if rest != [] && tail != [] && tail[0] == '.' {
      FirstWritten(rest, ".", depth);
      DotAfterDot(s);
      if Next(rest).RangeEquals? {
        DotThenRange(rest, depth);
      } else {
        DotThenDot(rest, depth);
      }
    }
  }

  lemma DotAfterDot(s: string)
    requires |s| > 1 && Next(s) == Plain('.') && s[1] == '.'
    ensures Next(s[1..]).RangeEquals? || (Next(s[1..]) == Plain('.') && !BlankThenEquals(s[1..][1..]))
  {
    assert s[1..][1..] == s[2..];
  }

  lemma DotThenRange(rest: string, depth: nat)
    requires rest != [] && Next(rest).RangeEquals?
    ensures var tail := Rewrite(rest, ".", depth); tail != [] && !BlankThenEquals(tail[1..])
  {
    var tail := "..=" + Tail(rest, ".", depth);
    assert tail[1..] == ['.'] + tail[2..];
    BlankStep('.', tail[2..]);
  }

  lemma DotThenDot(rest: string, depth: nat)
    requires rest != [] && Next(rest) == Plain('.') && !BlankThenEquals(rest[1..])
    ensures var tail := Rewrite(rest, ".", depth); tail != [] && !BlankThenEquals(tail[1..])
  {
    var after := Tail(rest, ".", depth);
    var tail := Rewrite(rest, ".", depth);
    assert Rest(rest) == rest[1..];
    assert tail == "." + after && tail[1..] == after;
    if BlankThenEquals(after) {
      BlankEqualsKept(rest[1..], ".", depth);
    }
  }
}
