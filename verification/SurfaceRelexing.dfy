/** How the rewritten text lexes again.  A rewritten piece can sit directly against
    text that was not rewritten, so the token stream of the output is not the input's
    stream with tokens replaced one by one: an inserted arrow marker swallows the word
    or digits after it, an inserted `not` glues to the word before it, and a slash
    before a dropped semicolon joins the comment behind it. */
module SurfaceRelexing {
  import opened SurfaceLexer
  import opened SurfaceRewriter

  // ----- words -----

  predicate IsWord(w: string) {
    w != [] && IsWordStart(w[0]) && forall i :: 0 <= i < |w| ==> IsWordChar(w[i])
  }

  lemma {:induction false} RunOfAppend(w: string, r: string)
    requires forall i :: 0 <= i < |w| ==> IsWordChar(w[i])
    ensures Run(w + r) == |w| + Run(r)
  {
    if w == [] {
      assert w + r == r;
    } else {
      assert (w + r)[1..] == w[1..] + r;
      RunOfAppend(w[1..], r);
    }
  }

  /** A word in front of `r` takes the leading word characters of `r` with it. */
  lemma WordInFront(w: string, r: string)
    requires IsWord(w)
    ensures Lex(w + r) == [Word(w + r[..Run(r)])] + Lex(r[Run(r)..])
  {
    RunOfAppend(w, r);
    var s, n := w + r, |w| + Run(r);
    assert s[0] == w[0];
    assert Next(s) == Word(s[..n]);
    assert s[..n] == w + r[..Run(r)];
    assert Rest(s) == s[n..] == r[Run(r)..];
  }

  /** Words and digits: tokens that carry neither a literal nor a comment nor a bracket. */
  predicate IsInert(tokens: seq<Token>) {
    forall t :: t in tokens ==> t.Word? || (t.Plain? && IsDigit(t.c))
  }

  /** The leading word characters of a text are a block of inert tokens. */
  lemma {:induction false} LeadingRun(r: string) returns (inert: seq<Token>)
    ensures IsInert(inert)
    ensures Lex(r) == inert + Lex(r[Run(r)..])
    decreases |r|
  {
    if r == [] || !IsWordChar(r[0]) {
      inert := [];
      assert r[0..] == r;
    } else if IsWordStart(r[0]) {
      inert := [Next(r)];
      assert Rest(r) == r[Run(r)..];
    } else {
      assert Next(r) == Plain(r[0]) && Rest(r) == r[1..];
      var more := LeadingRun(r[1..]);
      inert := [Next(r)] + more;
      assert r[1..][Run(r[1..])..] == r[Run(r)..];
      assert inert + Lex(r[Run(r)..]) == [Next(r)] + (more + Lex(r[Run(r)..]));
    }
  }

  lemma WordAlone(w: string, r: string)
    requires IsWord(w)
    requires r == [] || !IsWordChar(r[0])
    ensures Lex(w + r) == [Word(w)] + Lex(r)
  {
    WordInFront(w, r);
    assert r[..0] == [] && r[0..] == r && w + [] == w;
  }

  /** A token boundary after `c` whatever follows it. */
  predicate StandsAlone(c: char) {
    c !in {'/', '"', '\'', '-', '=', '.', '!', ';'} && !IsWordStart(c)
  }

  lemma PlainFrom(s: string)
    requires s != [] && Next(s) == Plain(s[0])
    ensures Lex(s) == [Plain(s[0])] + Lex(s[1..])
  {
    assert Rest(s) == s[1..];
  }

  lemma AloneInFront(c: char, r: string)
    requires StandsAlone(c)
    ensures Lex([c] + r) == [Plain(c)] + Lex(r)
  {
    var s := [c] + r;
    assert s[0] == c && s[1..] == r;
    assert Next(s) == Plain(c);
    PlainFrom(s);
  }

  // ----- comments and literals -----

  lemma {:induction false} LineOfAppend(c: string, r: string)
    requires forall i :: 0 <= i < |c| ==> c[i] != '\n'
    requires r == [] || r[0] == '\n'
    ensures LineLength(c + r) == |c|
  {
    if c == [] {
      assert c + r == r;
    } else {
      assert (c + r)[1..] == c[1..] + r;
      LineOfAppend(c[1..], r);
    }
  }

  lemma CommentInFront(c: string, r: string)
    requires StartsWith2(c, '/', '/')
    requires forall i :: 0 <= i < |c| ==> c[i] != '\n'
    requires r == [] || r[0] == '\n'
    ensures Lex(c + r) == [Comment(c)] + Lex(r)
  {
    LineOfAppend(c, r);
    var s := c + r;
    assert s[..|c|] == c && s[|c|..] == r;
    assert s[0] == '/' && s[1] == '/';
  }

  /** A literal that closes is the same literal in front of any other text. */
  lemma {:induction false} LiteralOfAppend(s: string, r: string, delimiter: char, escaped: bool)
    requires LiteralLength(s, delimiter, escaped) < |s| || r == []
    ensures LiteralLength(s[..LiteralLength(s, delimiter, escaped)] + r, delimiter, escaped)
         == LiteralLength(s, delimiter, escaped)
    decreases |s|
  {
    var n := LiteralLength(s, delimiter, escaped);
    if s == [] {
    } else if !escaped && s[0] == delimiter && s[0] != '\\' {
      assert (s[..n] + r)[0] == s[0];
    } else {
      var escaped' := !escaped && s[0] == '\\';
      LiteralOfAppend(s[1..], r, delimiter, escaped');
      assert (s[..n] + r)[1..] == s[1..][..n - 1] + r;
    }
  }

  lemma LiteralInFront(s: string, r: string)
    requires s != [] && (s[0] == '"' || s[0] == '\'')
    requires Rest(s) != [] || r == []
    ensures Lex(Spelling(Next(s)) + r) == [Next(s)] + Lex(r)
  {
    var n := LiteralLength(s[1..], s[0], false);
    LiteralOfAppend(s[1..], r, s[0], false);
    var text := s[..1 + n];
    var u := text + r;
    assert Next(s) == Literal(text);
    assert u[0] == s[0] && u[1..] == s[1..][..n] + r;
    assert Next(u) == Literal(u[..1 + n]);
    assert u[..1 + n] == text && u[1 + n..] == r;
  }

  // ----- the front of a rewritten text -----

  /** What is written after the piece of the first token. */
  function Tail(s: string, previous: string, depth: nat): string
    requires s != []
  {
    Rewrite(Rest(s), LastOf(Piece(Next(s), Rest(s), previous, depth)), DepthAfter(Next(s), depth))
  }

  /** A line ending, a blank or a comment follows every semicolon that is dropped. */
  lemma AfterDroppedSemicolon(rest: string)
    requires DropsSemicolon(rest) && rest != []
    ensures rest[0] in {'\r', '\n', ' ', '\t'} || StartsWith2(rest, '/', '/')
  {
    BlankChars(rest);
    if Blanks(rest) == 0 {
      assert rest[0..] == rest;
    }
  }

  /** Words that are written: every word of a replacement is a word, and none is legacy. */
  lemma ReplacementIsWord(w: string)
    requires IsWord(w)
    ensures Replacement(w) != [] && IsWordStart(Replacement(w)[0])
  {
  }

  lemma NextWord(s: string)
    requires s != [] && Next(s).Word?
    ensures IsWord(Next(s).text) && Next(s).text == s[..Run(s)]
    ensures Rest(s) == [] || !IsWordChar(Rest(s)[0])
  {
    RunChars(s);
  }

  lemma FirstOfPiece(s: string, previous: string, depth: nat)
    requires s != []
    ensures var piece := Piece(Next(s), Rest(s), previous, depth);
            && (piece == [] ==> s[0] == ';' && depth == 0 && DropsSemicolon(Rest(s)))
            && (piece != [] && piece[0] in {'>', '=', '.', '/'} ==> piece[0] == s[0])
            && (s[0] == '=' && !StartsWith2(s, '=', '>') ==> piece == "=")
  {
    if Next(s).Word? {
      NextWord(s);
      ReplacementIsWord(Next(s).text);
    }
  }

  /** The first character written, for the characters that could complete an operator. */
  lemma FirstWritten(s: string, previous: string, depth: nat)
    requires s != []
    ensures var out := Rewrite(s, previous, depth);
            && (out != [] && out[0] in {'>', '=', '.'} ==> s[0] == out[0])
            && (out != [] && out[0] == '/' && s[0] != '/' ==>
                  s[0] == ';' && depth == 0 && StartsWith2(s[1..], '/', '/'))
            && (s[0] == '=' && !StartsWith2(s, '=', '>') ==> out != [] && out[0] == '=')
  {
    var rest := Rest(s);
    FirstOfPiece(s, previous, depth);
    if Piece(Next(s), rest, previous, depth) == [] && rest != [] {
      assert rest == s[1..];
      AfterDroppedSemicolon(rest);
      FirstOfPiece(rest, "", depth);
    }
  }

  lemma BlankStep(c: char, r: string)
    ensures BlankThenEquals([c] + r) == (if IsBlank(c) then BlankThenEquals(r) else c == '=')
  {
    var s := [c] + r;
    assert s[1..] == r;
    if IsBlank(c) {
      assert Blanks(s) == 1 + Blanks(r);
    }
  }

  lemma NotBlankEquals(out: string)
    requires out != []
    requires !(IsBlank(out[0]) || out[0] == '=') || (|out| > 1 && out[0] == ' ' && out[1] == 'r')
    ensures !BlankThenEquals(out)
  {
    assert out == [out[0]] + out[1..];
    BlankStep(out[0], out[1..]);
    if out[0] == ' ' {
      BlankStep(out[1], out[2..]);
      assert out[1..] == [out[1]] + out[2..];
    }
  }

  /** Rewriting never brings an equals sign closer to the dots in front of it. */
  lemma {:induction false} BlankEqualsKept(s: string, previous: string, depth: nat)
    ensures BlankThenEquals(Rewrite(s, previous, depth)) ==> BlankThenEquals(s)
    decreases |s|
  {
    if s != [] {
      var piece := Piece(Next(s), Rest(s), previous, depth);
      if Next(s).Plain? && IsBlank(s[0]) {
        BlankEqualsKept(s[1..], LastOf([s[0]]), DepthAfter(Next(s), depth));
        BlankInFront(s, previous, depth);
      } else if piece == [] {
        BlankEqualsKept(s[1..], "", depth);
        DroppedInFront(s, previous, depth);
      } else if s[0] != '=' {
        WrittenHasNoEquals(s, previous, depth);
      } else {
        assert s == [s[0]] + s[1..];
        BlankStep(s[0], s[1..]);
      }
    }
  }

  lemma BlankInFront(s: string, previous: string, depth: nat)
    requires s != [] && Next(s).Plain? && IsBlank(s[0])
    ensures BlankThenEquals(s) == BlankThenEquals(s[1..])
    ensures BlankThenEquals(Rewrite(s, previous, depth))
         == BlankThenEquals(Rewrite(s[1..], LastOf([s[0]]), DepthAfter(Next(s), depth)))
  {
    FirstOfPiece(s, previous, depth);
    assert Rest(s) == s[1..] && s == [s[0]] + s[1..];
    BlankStep(s[0], s[1..]);
    var tail := Rewrite(s[1..], LastOf([s[0]]), DepthAfter(Next(s), depth));
    assert Piece(Next(s), Rest(s), previous, depth) == [s[0]];
    BlankStep(s[0], tail);
  }

  lemma DroppedInFront(s: string, previous: string, depth: nat)
    requires s != [] && Piece(Next(s), Rest(s), previous, depth) == []
    ensures Rewrite(s, previous, depth) == Rewrite(s[1..], "", depth) && !BlankThenEquals(s[1..])
  {
    FirstOfPiece(s, previous, depth);
    SemicolonIsNext(s);
    RewriteUnfolds(s, previous, depth, []);
    assert [] + Rewrite(s[1..], "", depth) == Rewrite(s[1..], "", depth);
    DroppedHasNoEquals(s[1..]);
  }

  lemma SemicolonIsNext(s: string)
    requires s != [] && s[0] == ';'
    ensures Next(s) == Semicolon && Rest(s) == s[1..]
  {
  }

  lemma RewriteUnfolds(s: string, previous: string, depth: nat, piece: string)
    requires s != [] && piece == Piece(Next(s), Rest(s), previous, depth)
    ensures Rewrite(s, previous, depth) == piece + Rewrite(Rest(s), LastOf(piece), DepthAfter(Next(s), depth))
  {
  }

  lemma DroppedHasNoEquals(rest: string)
    requires DropsSemicolon(rest)
    ensures !BlankThenEquals(rest)
  {
    BlankChars(rest);
  }

  lemma WrittenHasNoEquals(s: string, previous: string, depth: nat)
    requires s != [] && s[0] != '=' && !(Next(s).Plain? && IsBlank(s[0]))
    requires Piece(Next(s), Rest(s), previous, depth) != []
    ensures !BlankThenEquals(Rewrite(s, previous, depth))
  {
    var piece := Piece(Next(s), Rest(s), previous, depth);
    FirstOfPiece(s, previous, depth);
    if Next(s).Word? {
      NextWord(s);
      ReplacementIsWord(Next(s).text);
    }
    assert IsBlank(piece[0]) ==> Next(s).Arrow? && piece[0] == ' ' && piece[1] == 'r';
    NotBlankEquals(Rewrite(s, previous, depth));
  }

  lemma AloneIsCopied(s: string, previous: string, depth: nat)
    requires s != [] && StandsAlone(s[0])
    ensures Next(s) == Plain(s[0])
    ensures Rewrite(s, previous, depth) != [] && Rewrite(s, previous, depth)[0] == s[0]
  {
  }

  lemma WordAndSpaceInFront(w: string, r: string)
    requires IsWord(w)
    ensures Lex(w + ([' '] + r)) == [Word(w), Plain(' ')] + Lex(r)
  {
    WordAlone(w, [' '] + r);
    AloneInFront(' ', r);
    assert [Word(w)] + ([Plain(' ')] + Lex(r)) == [Word(w), Plain(' ')] + Lex(r);
  }

  /** What follows a dropped semicolon starts the same way when written. */
  lemma DroppedFront(rest: string, depth: nat)
    requires DropsSemicolon(rest) && rest != []
    ensures !IsWordChar(rest[0]) && rest[0] != ';'
    ensures Rewrite(rest, "", depth) != [] && Rewrite(rest, "", depth)[0] == rest[0]
  {
    AfterDroppedSemicolon(rest);
    if StandsAlone(rest[0]) {
      AloneIsCopied(rest, "", depth);
    } else {
      assert Next(rest).Comment?;
    }
  }
}
