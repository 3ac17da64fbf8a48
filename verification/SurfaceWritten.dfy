/** What token rewriting writes for each kind of text, spelled out.  Whatever was written before and
    however many brackets are open, the first token of a text decides which of these rules applies. */
module SurfaceWritten {
  import opened PythonText
  import opened SurfaceLexer
  import opened SurfaceRewriter
  import opened SurfaceRelexing

  /** One token: its piece, then the rest. */
  lemma Unfold(s: string, t: Token, piece: string, rest: string, previous: string, depth: nat)
    requires s != [] && Next(s) == t && Rest(s) == rest && piece != []
    requires Piece(t, rest, previous, depth) == piece
    ensures Rewrite(s, previous, depth) == piece + Rewrite(rest, [piece[|piece| - 1]], DepthAfter(t, depth))
  {
  }

  // ----- words -----

  predicate IsBoundary(rest: string) {
    rest == [] || !IsWordChar(rest[0])
  }

  lemma NextIsTheWord(s: string, word: string, rest: string)
    requires IsWord(word) && IsBoundary(rest) && s == word + rest
    ensures s != [] && Next(s) == Word(word) && Rest(s) == rest
  {
    WordAlone(word, rest);
    assert Lex(s)[0] == Next(s);
  }

  /** The legacy and the modern spelling of a word. */
  predicate AreSpellings(word: string, modern: string) {
    || (word == "fn" && modern == "func") || (word == "struct" && modern == "record")
    || (word == "pub" && modern == "public") || (word == "elif" && modern == "else if")
    || (word == "elseif" && modern == "else if") || (word == "of" && modern == "in")
    || (word == "unless" && modern == "if not")
  }

  lemma LegacyAreWords(word: string, modern: string)
    requires AreSpellings(word, modern)
    ensures IsWord(word) && modern != [] && Piece(Word(word), "", "", 0) == modern
  {
  }

  /** A legacy word becomes its modern spelling. */
  lemma LegacyWord(word: string, modern: string, rest: string, previous: string, depth: nat)
    requires AreSpellings(word, modern)
    requires rest == [] || !IsWordChar(rest[0])
    ensures modern != []
    ensures Rewrite(word + rest, previous, depth) == modern + Rewrite(rest, [modern[|modern| - 1]], depth)
  {
    LegacyAreWords(word, modern);
    WordIsWritten(word, modern, rest, previous, depth);
  }

  lemma WordIsWritten(word: string, modern: string, rest: string, previous: string, depth: nat)
    requires IsWord(word) && modern != [] && Piece(Word(word), "", "", 0) == modern && IsBoundary(rest)
    ensures Rewrite(word + rest, previous, depth) == modern + Rewrite(rest, [modern[|modern| - 1]], depth)
  {
    NextIsTheWord(word + rest, word, rest);
    Unfold(word + rest, Word(word), modern, rest, previous, depth);
  }

  /** So a text that starts with a legacy word is rewritten to one that starts with the modern one. */
  lemma LegacyWordInFront(word: string, modern: string, rest: string)
    requires AreSpellings(word, modern)
    requires rest == [] || !IsWordChar(rest[0])
    ensures modern <= RewriteTokens(word + rest)
  {
    LegacyWord(word, modern, rest, "", 0);
  }

  /** Every other word is kept. */
  lemma OtherWord(word: string, rest: string, previous: string, depth: nat)
    requires IsWord(word) && (rest == [] || !IsWordChar(rest[0]))
    requires word !in {"fn", "struct", "pub", "elif", "elseif", "of", "unless"}
    ensures Rewrite(word + rest, previous, depth) == word + Rewrite(rest, [word[|word| - 1]], depth)
  {
    NextIsTheWord(word + rest, word, rest);
    Unfold(word + rest, Word(word), word, rest, previous, depth);
  }

  // ----- operators -----

  lemma NextIsOperator(s: string, op: string, rest: string)
    requires s == op + rest && (op == "->" || op == "=>")
    ensures s != [] && Next(s) == (if op == "->" then Arrow else FatArrow) && Rest(s) == rest
  {
    assert s[0] == op[0] && s[1] == op[1];
  }

  /** `->` becomes `returns`, with a blank on each side that has no whitespace yet. */
  lemma ReturnArrow(rest: string, previous: string, depth: nat)
    requires |previous| <= 1
    ensures var left := if previous != "" && IsSpace(previous[0]) then "" else " ";
            var right := if rest != "" && IsSpace(rest[0]) then "" else " ";
            Rewrite("->" + rest, previous, depth)
            == left + "returns" + right + Rewrite(rest, if right == "" then "s" else " ", depth)
  {
    var left := if previous != "" && IsSpace(previous[0]) then "" else " ";
    var right := if rest != "" && IsSpace(rest[0]) then "" else " ";
    var piece := left + "returns" + right;
    NextIsOperator("->" + rest, "->", rest);
    ArrowPiece(rest, previous, depth);
    ArrowEnd(left, right, piece);
    ArrowIsWritten("->" + rest, piece, rest, previous, depth, if right == "" then "s" else " ");
  }

  lemma ArrowIsWritten(s: string, piece: string, rest: string, previous: string, depth: nat, last: string)
    requires s != [] && Next(s) == Arrow && Rest(s) == rest && Piece(Arrow, rest, previous, depth) == piece
    requires piece != [] && [piece[|piece| - 1]] == last
    ensures Rewrite(s, previous, depth) == piece + Rewrite(rest, last, depth)
  {
    Unfold(s, Arrow, piece, rest, previous, depth);
  }

  lemma ArrowEnd(left: string, right: string, piece: string)
    requires piece == left + "returns" + right && (right == "" || right == " ")
    ensures piece != [] && [piece[|piece| - 1]] == if right == "" then "s" else " "
  {
  }

  lemma ArrowPiece(rest: string, previous: string, depth: nat)
    requires |previous| <= 1
    ensures var left := if previous != "" && IsSpace(previous[0]) then "" else " ";
            var right := if rest != "" && IsSpace(rest[0]) then "" else " ";
            Piece(Arrow, rest, previous, depth) == left + "returns" + right
  {
    assert "" + "returns" == "returns" && " " + "returns" == " returns";
  }

  /** `=>` leaves the marker for the second pass. */
  lemma MatchArrow(rest: string, previous: string, depth: nat)
    ensures Rewrite("=>" + rest, previous, depth) == "__SPECTRA_MATCH_ARROW__" + Rewrite(rest, "_", depth)
  {
    NextIsOperator("=>" + rest, "=>", rest);
    Unfold("=>" + rest, FatArrow, MATCH_ARROW, rest, previous, depth);
    assert [MATCH_ARROW[|MATCH_ARROW| - 1]] == "_";
  }

  lemma {:induction false} BlanksBefore(gap: string, rest: string)
    requires forall i :: 0 <= i < |gap| ==> gap[i] == ' ' || gap[i] == '\t'
    requires rest == [] || (rest[0] != ' ' && rest[0] != '\t')
    ensures Blanks(gap + rest) == |gap|
  {
    if gap == [] {
      assert gap + rest == rest;
    } else {
      assert (gap + rest)[1..] == gap[1..] + rest;
      BlanksBefore(gap[1..], rest);
    }
  }

  /** Blanks inside `..=` disappear. */
  lemma ClosedRange(gap: string, rest: string, previous: string, depth: nat)
    requires forall i :: 0 <= i < |gap| ==> gap[i] == ' ' || gap[i] == '\t'
    ensures Rewrite(".." + (gap + ("=" + rest)), previous, depth) == "..=" + Rewrite(rest, "=", depth)
  {
    var s := ".." + (gap + ("=" + rest));
    BlanksBefore(gap, "=" + rest);
    assert s[2..] == gap + ("=" + rest);
    assert s[2 + |gap|] == '=';
    assert s[2..2 + |gap|] == gap;
    assert Next(s) == RangeEquals(gap);
    assert s[3 + |gap|..] == rest;
    Unfold(s, RangeEquals(gap), "..=", rest, previous, depth);
  }

  lemma NextIsBang(s: string, rest: string)
    requires s == "!" + rest && (rest == [] || rest[0] != '=')
    ensures s != [] && Next(s) == Bang && Rest(s) == rest
  {
    assert s[1..] == rest;
  }

  /** A bang that is not part of `!=` becomes `not`. */
  lemma Negation(rest: string, previous: string, depth: nat)
    requires rest == [] || rest[0] != '='
    ensures Rewrite("!" + rest, previous, depth) == "not " + Rewrite(rest, " ", depth)
  {
    NextIsBang("!" + rest, rest);
    Unfold("!" + rest, Bang, "not ", rest, previous, depth);
  }

  lemma NextIsSemicolon(s: string, rest: string)
    requires s == ";" + rest
    ensures s != [] && Next(s) == Semicolon && Rest(s) == rest
  {
    assert s[1..] == rest;
  }

  /** A semicolon stays inside square brackets. */
  lemma SemicolonInBrackets(rest: string, previous: string, depth: nat)
    requires depth > 0
    ensures Rewrite(";" + rest, previous, depth) == ";" + Rewrite(rest, ";", depth)
  {
    NextIsSemicolon(";" + rest, rest);
    Unfold(";" + rest, Semicolon, ";", rest, previous, depth);
  }

  /** Outside brackets it disappears at the end of a line or in front of a comment, and becomes a
      line break elsewhere. */
  lemma SemicolonOutside(rest: string, gap: string, previous: string)
    requires forall i :: 0 <= i < |gap| ==> gap[i] == ' ' || gap[i] == '\t'
    ensures rest == [] || rest[0] == '\r' || rest[0] == '\n' ==>
              Rewrite(";" + rest, previous, 0) == Rewrite(rest, "", 0)
    ensures Rewrite(";" + (gap + ("//" + rest)), previous, 0) == Rewrite(gap + ("//" + rest), "", 0)
  {
    if rest == [] || rest[0] == '\r' || rest[0] == '\n' {
      Dropped(";" + rest, rest, previous);
    }
    CommentDrops(gap, rest);
    Dropped(";" + (gap + ("//" + rest)), gap + ("//" + rest), previous);
  }

  lemma Dropped(s: string, rest: string, previous: string)
    requires s == ";" + rest && DropsSemicolon(rest)
    ensures Rewrite(s, previous, 0) == Rewrite(rest, "", 0)
  {
    NextIsSemicolon(s, rest);
  }

  lemma CommentDrops(gap: string, rest: string)
    requires forall i :: 0 <= i < |gap| ==> gap[i] == ' ' || gap[i] == '\t'
    ensures DropsSemicolon(gap + ("//" + rest))
  {
    BlanksBefore(gap, "//" + rest);
    assert (gap + ("//" + rest))[|gap|..] == "//" + rest;
  }

  lemma SemicolonBreaks(gap: string, rest: string, previous: string)
    requires forall i :: 0 <= i < |gap| ==> gap[i] == ' ' || gap[i] == '\t'
    requires gap + rest != [] && (rest == [] || (rest[0] != ' ' && rest[0] != '\t'))
    requires !(|rest| > 1 && rest[0] == '/' && rest[1] == '/')
    requires gap == [] ==> rest[0] != '\r' && rest[0] != '\n'
    ensures Rewrite(";" + (gap + rest), previous, 0) == "\n" + Rewrite(gap + rest, "\n", 0)
  {
    var behind := gap + rest;
    BlanksBefore(gap, rest);
    assert behind[|gap|..] == rest;
    assert gap != [] ==> behind[0] == gap[0];
    NextIsSemicolon(";" + behind, behind);
    Unfold(";" + behind, Semicolon, "\n", behind, previous, 0);
  }

  // ----- comments and literals -----

  /** A comment is copied up to the end of its line. */
  lemma CommentIsCopied(text: string, rest: string, previous: string, depth: nat)
    requires (forall i :: 0 <= i < |text| ==> text[i] != '\n') && (rest == [] || rest[0] == '\n')
    ensures var comment := "//" + text;
            Rewrite(comment + rest, previous, depth) == comment + Rewrite(rest, [comment[|comment| - 1]], depth)
  {
    var comment := "//" + text;
    CommentInFront(comment, rest);
    var s := comment + rest;
    assert Lex(s)[0] == Next(s);
    assert s[|comment|..] == rest;
    Unfold(s, Comment(comment), comment, rest, previous, depth);
  }

  /** The inside of a literal: characters other than the delimiter, and backslashes that take the
      next character with them. */
  predicate IsInside(body: string, delimiter: char)
    decreases |body|
  {
    || body == []
    || (body[0] == '\\' && |body| > 1 && IsInside(body[2..], delimiter))
    || (body[0] != '\\' && body[0] != delimiter && IsInside(body[1..], delimiter))
  }

  lemma {:induction false} InsideLength(body: string, delimiter: char, rest: string)
    requires IsInside(body, delimiter) && delimiter != '\\'
    ensures LiteralLength(body + ([delimiter] + rest), delimiter, false) == |body| + 1
    decreases |body|
  {
    var s := body + ([delimiter] + rest);
    if body == [] {
      assert s[0] == delimiter;
    } else if body[0] == '\\' {
      assert s[0] == '\\' && s[1..][1..] == body[2..] + ([delimiter] + rest);
      InsideLength(body[2..], delimiter, rest);
      assert LiteralLength(s[1..], delimiter, true) == 1 + LiteralLength(s[1..][1..], delimiter, false);
    } else {
      assert s[0] == body[0] && s[1..] == body[1..] + ([delimiter] + rest);
      InsideLength(body[1..], delimiter, rest);
    }
  }

  /** A literal is copied up to its closing delimiter. */
  lemma LiteralIsCopied(delimiter: char, body: string, rest: string, previous: string, depth: nat)
    requires (delimiter == '"' || delimiter == '\'') && IsInside(body, delimiter)
    ensures var literal := [delimiter] + body + [delimiter];
            Rewrite(literal + rest, previous, depth) == literal + Rewrite(rest, [delimiter], depth)
  {
    var literal := [delimiter] + body + [delimiter];
    var s := literal + rest;
    assert s[0] == delimiter && s[1..] == body + ([delimiter] + rest);
    InsideLength(body, delimiter, rest);
    assert s[..|literal|] == literal && s[|literal|..] == rest;
    assert Next(s) == Literal(literal);
    Unfold(s, Literal(literal), literal, rest, previous, depth);
  }

  /** A literal without closing delimiter is copied up to the end of the text. */
  lemma OpenLiteralIsCopied(delimiter: char, body: string, previous: string, depth: nat)
    requires (delimiter == '"' || delimiter == '\'') && IsInside(body, delimiter)
    ensures Rewrite([delimiter] + body, previous, depth) == [delimiter] + body
  {
    var s := [delimiter] + body;
    assert s[0] == delimiter && s[1..] == body;
    OpenLength(body, delimiter);
    assert s[..|s|] == s && s[|s|..] == [];
    assert Next(s) == Literal(s);
    Unfold(s, Literal(s), s, [], previous, depth);
    assert s + [] == s;
  }

  lemma {:induction false} OpenLength(body: string, delimiter: char)
    requires IsInside(body, delimiter) && delimiter != '\\'
    ensures LiteralLength(body, delimiter, false) == |body|
    decreases |body|
  {
    if body != [] && body[0] == '\\' {
      OpenLength(body[2..], delimiter);
      assert body[1..][1..] == body[2..];
      assert LiteralLength(body[1..], delimiter, true) == 1 + LiteralLength(body[1..][1..], delimiter, false);
    } else if body != [] {
      OpenLength(body[1..], delimiter);
    }
  }

  // ----- brackets and other characters -----

  /** A square bracket is copied and counted, everything else that stands for itself is copied. */
  lemma CharacterIsCopied(c: char, rest: string, previous: string, depth: nat)
    requires c !in {'/', '"', '\'', '-', '=', '.', '!', ';'} && !IsWordStart(c)
    ensures Rewrite([c] + rest, previous, depth)
         == [c] + Rewrite(rest, [c], if c == '[' then depth + 1
                                    else if c == ']' && depth > 0 then depth - 1 else depth)
  {
    var s := [c] + rest;
    assert s[0] == c && s[1..] == rest;
    assert Next(s) == Plain(c);
    Unfold(s, Plain(c), [c], rest, previous, depth);
  }

  lemma NextIsLone(s: string, c: char, rest: string)
    requires c in {'/', '-', '=', '.', '!'} && s == [c] + rest
    requires c == '/' ==> rest == [] || rest[0] != '/'
    requires c == '-' || c == '=' ==> rest == [] || rest[0] != '>'
    requires c == '.' ==> rest == [] || rest[0] != '.'
    requires c == '!' ==> rest != [] && rest[0] == '='
    ensures s != [] && Next(s) == Plain(c) && Rest(s) == rest
  {
    assert s[0] == c && s[1..] == rest && (rest != [] ==> s[1] == rest[0]);
  }

  /** The first character of an operator that is none of those above is copied. */
  lemma LoneCharacter(c: char, rest: string, previous: string, depth: nat)
    requires c in {'/', '-', '=', '.', '!'}
    requires c == '/' ==> rest == [] || rest[0] != '/'
    requires c == '-' || c == '=' ==> rest == [] || rest[0] != '>'
    requires c == '.' ==> rest == [] || rest[0] != '.'
    requires c == '!' ==> rest != [] && rest[0] == '='
    ensures Rewrite([c] + rest, previous, depth) == [c] + Rewrite(rest, [c], depth)
  {
    NextIsLone([c] + rest, c, rest);
    Unfold([c] + rest, Plain(c), [c], rest, previous, depth);
  }

  lemma NextIsDot(s: string, gap: string, rest: string)
    requires forall i :: 0 <= i < |gap| ==> gap[i] == ' ' || gap[i] == '\t'
    requires rest == [] || (rest[0] != ' ' && rest[0] != '\t' && rest[0] != '=')
    requires s == "." + ("." + (gap + rest))
    ensures s != [] && Next(s) == Plain('.') && Rest(s) == "." + (gap + rest)
  {
    BlanksBefore(gap, rest);
    assert s[1..] == "." + (gap + rest) && s[2..] == gap + rest;
  }

  /** So is the first of two dots without an equals sign behind them. */
  lemma LoneDots(gap: string, rest: string, previous: string, depth: nat)
    requires forall i :: 0 <= i < |gap| ==> gap[i] == ' ' || gap[i] == '\t'
    requires rest == [] || (rest[0] != ' ' && rest[0] != '\t' && rest[0] != '=')
    ensures Rewrite("." + ("." + (gap + rest)), previous, depth)
         == "." + Rewrite("." + (gap + rest), ".", depth)
  {
    var behind := "." + (gap + rest);
    NextIsDot("." + behind, gap, rest);
    Unfold("." + behind, Plain('.'), ".", behind, previous, depth);
  }
}
