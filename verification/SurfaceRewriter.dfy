/** `rewrite_tokens` as a function of the token stream, and the scanner itself
    as a loop proved to compute that function. */
module SurfaceRewriter {
  import opened PythonText
  import opened SurfaceLexer

  const MATCH_ARROW := "__SPECTRA_MATCH_ARROW__"

  predicate IsLegacyWord(w: string) {
    w in {"fn", "struct", "pub", "elif", "elseif", "of", "unless"}
  }

  function Replacement(w: string): string {
    if w == "fn" then "func"
    else if w == "struct" then "record"
    else if w == "pub" then "public"
    else if w == "elif" then "else if"
    else if w == "elseif" then "else if"
    else if w == "of" then "in"
    else if w == "unless" then "if not"
    else w
  }

  /** The last character of a piece, as a string of length at most one. */
  function LastOf(piece: string): string {
    if piece == [] then [] else [piece[|piece| - 1]]
  }

  predicate StartsWithSpace(s: string) {
    s != [] && IsSpace(s[0])
  }

  predicate CommentFollows(s: string) {
    StartsWith2(s[Blanks(s)..], '/', '/')
  }

  /** Whether a semicolon outside brackets is dropped rather than turned into a line break. */
  predicate DropsSemicolon(rest: string) {
    CommentFollows(rest) || rest == [] || rest[0] == '\r' || rest[0] == '\n'
  }

  /** What is appended to the output for token `t` with `rest` after it, `previous`
      the last character of the last piece and `depth` open square brackets. */
  function Piece(t: Token, rest: string, previous: string, depth: nat): string {
    match t
    case Arrow =>
      (if StartsWithSpace(previous) then "returns" else " returns")
      + (if StartsWithSpace(rest) then "" else " ")
    case FatArrow => MATCH_ARROW
    case RangeEquals(_) => "..="
    case Bang => "not "
    case Semicolon =>
      if depth > 0 then ";" else if DropsSemicolon(rest) then "" else "\n"
    case Word(w) => Replacement(w)
    case _ => Spelling(t)
  }

  function DepthAfter(t: Token, depth: nat): nat {
    if t == Plain('[') then depth + 1
    else if t == Plain(']') && depth > 0 then depth - 1
    else depth
  }

  function Rewrite(s: string, previous: string, depth: nat): string
    decreases |s|
  {
    if s == [] then []
    else
      var piece := Piece(Next(s), Rest(s), previous, depth);
      piece + Rewrite(Rest(s), LastOf(piece), DepthAfter(Next(s), depth))
  }

  /** `rewrite_tokens`: nothing written yet, no bracket open. */
  function RewriteTokens(source: string): string {
    Rewrite(source, "", 0)
  }

  // ----- the scanner -----

  function Join(pieces: seq<string>): string {
    if pieces == [] then [] else Join(pieces[..|pieces| - 1]) + pieces[|pieces| - 1]
  }

  /** `output[-1][-1:] if output else ""` */
  function PreviousOf(pieces: seq<string>): string {
    if pieces == [] then [] else LastOf(pieces[|pieces| - 1])
  }

  lemma JoinSnoc(pieces: seq<string>, piece: string)
    ensures Join(pieces + [piece]) == Join(pieces) + piece
    ensures PreviousOf(pieces + [piece]) == LastOf(piece)
  {
    assert (pieces + [piece])[..|pieces|] == pieces;
  }

  /** What the loop still has to produce from `index` on. */
  ghost predicate Remaining(source: string, output: seq<string>, index: nat, depth: nat)
  {
    index <= |source| &&
    RewriteTokens(source) == Join(output) + Rewrite(source[index..], PreviousOf(output), depth)
  }

  lemma JoinStep(output: seq<string>, piece: string, after: string)
    ensures Join(output) + (piece + after) == Join(output + [piece]) + after
    ensures PreviousOf(output + [piece]) == LastOf(piece)
  {
    JoinSnoc(output, piece);
    Glue(Join(output), piece, after);
  }

  /** From `start`, with the given previous character and depth, the scanner appends
      `piece`, moves to `next` and leaves `depth'`. */
  ghost predicate IsTurn(source: string, start: nat, previous: string, depth: nat,
                         piece: string, next: nat, depth': nat)
    requires start < |source|
  {
    var t := Next(source[start..]);
    && next == start + |Spelling(t)| <= |source|
    && piece == Piece(t, source[next..], previous, depth)
    && depth' == DepthAfter(t, depth)
  }

  lemma Advance(source: string, output: seq<string>, index: nat, depth: nat,
                piece: string, next: nat, depth': nat)
    requires Remaining(source, output, index, depth) && index < |source|
    requires IsTurn(source, index, PreviousOf(output), depth, piece, next, depth')
    ensures index < next && Remaining(source, output + [piece], next, depth')
  {
    TurnRewrites(source, index, PreviousOf(output), depth, piece, next, depth');
    JoinStep(output, piece, Rewrite(source[next..], LastOf(piece), depth'));
  }

  lemma TurnRewrites(source: string, index: nat, previous: string, depth: nat, piece: string, next: nat, depth': nat)
    requires index < |source| && IsTurn(source, index, previous, depth, piece, next, depth')
    ensures index < next
    ensures Rewrite(source[index..], previous, depth) == piece + Rewrite(source[next..], LastOf(piece), depth')
  {
    assert Rest(source[index..]) == source[next..];
  }

  /** The inner loop over a literal: from the opening delimiter to past the closing one. */
  method LiteralEnd(source: string, start: nat) returns (end: nat)
    requires start < |source|
    ensures end == start + 1 + LiteralLength(source[start + 1..], source[start], false)
  {
    var delimiter := source[start];
    var escaped := false;
    end := start + 1;
    ghost var total := LiteralLength(source[start + 1..], delimiter, false);
    while end < |source|
      invariant start + 1 <= end <= |source|
      invariant total == end - start - 1 + LiteralLength(source[end..], delimiter, escaped)
    {
      var current := source[end];
      assert source[end..][1..] == source[end + 1..];
      end := end + 1;
      if escaped {
        escaped := false;
      } else if current == '\\' {
        escaped := true;
      } else if current == delimiter {
        return;
      }
    }
  }

  method SkipBlanks(source: string, start: nat) returns (cursor: nat)
    requires start <= |source|
    ensures cursor == start + Blanks(source[start..])
  {
    cursor := start;
    while cursor < |source| && IsBlank(source[cursor])
      invariant start <= cursor <= |source|
      invariant start + Blanks(source[start..]) == cursor + Blanks(source[cursor..])
    {
      assert source[cursor..][1..] == source[cursor + 1..];
      cursor := cursor + 1;
    }
  }

  /** `WORD_RE.match(source, index)` where a word starts. */
  method WordEnd(source: string, start: nat) returns (end: nat)
    requires start <= |source|
    ensures end == start + Run(source[start..])
  {
    end := start;
    while end < |source| && IsWordChar(source[end])
      invariant start <= end <= |source|
      invariant start + Run(source[start..]) == end + Run(source[end..])
    {
      assert source[end..][1..] == source[end + 1..];
      end := end + 1;
    }
  }

  /** `source.find("\n", index)`, with the end of the text for "not found". */
  method FindLineFeed(source: string, start: nat) returns (end: nat)
    requires start <= |source|
    ensures end == start + LineLength(source[start..])
  {
    end := start;
    while end < |source| && source[end] != '\n'
      invariant start <= end <= |source|
      invariant start + LineLength(source[start..]) == end + LineLength(source[end..])
    {
      assert source[end..][1..] == source[end + 1..];
      end := end + 1;
    }
  }

  /** The body of the scanner's loop: the piece it appends, the index it moves to and
      the bracket depth it leaves. */
  method ScanOne(source: string, start: nat, previous: string, squareDepth: nat)
    returns (piece: string, index: nat, depth: nat)
    requires start < |source|
    ensures IsTurn(source, start, previous, squareDepth, piece, index, depth)
  {
    var current := source[start];
    var next := if start + 1 < |source| then [source[start + 1]] else "";
    depth := squareDepth;
    ghost var s := source[start..];
    if current == '"' || current == '\'' || (current == '/' && next == "/") {
      piece, index := ScanVerbatim(source, start, previous, squareDepth);
    } else if current == '-' && next == ">" {
      assert Next(s) == Arrow;
      var left := if previous != [] && IsSpace(previous[0]) then "returns" else " returns";
      var right := if start + 2 < |source| && IsSpace(source[start + 2]) then "" else " ";
      piece, index := left + right, start + 2;
    } else if current == '=' && next == ">" {
      assert Next(s) == FatArrow;
      piece, index := MATCH_ARROW, start + 2;
    } else if current == '.' && next == "." {
      piece, index := ScanDots(source, start, previous, squareDepth);
    } else {
      piece, index, depth := ScanSingle(source, start, previous, squareDepth);
    }
  }

  /** The branches of the loop for line comments and for literals, which are copied. */
  method ScanVerbatim(source: string, start: nat, ghost previous: string, ghost squareDepth: nat)
    returns (piece: string, index: nat)
    requires start < |source|
    requires Next(source[start..]).Comment? || Next(source[start..]).Literal?
    ensures IsTurn(source, start, previous, squareDepth, piece, index, squareDepth)
  {
    ghost var s := source[start..];
    assert s[1..] == source[start + 1..];
    if source[start] == '/' {
      index := FindLineFeed(source, start);
      piece := source[start..index];
      assert piece == s[..LineLength(s)] && Next(s) == Comment(piece);
    } else {
      index := LiteralEnd(source, start);
      piece := source[start..index];
      assert piece == s[..1 + LiteralLength(s[1..], s[0], false)] && Next(s) == Literal(piece);
    }
  }

  lemma NextOfDots(s: string)
    requires StartsWith2(s, '.', '.')
    ensures var n := Blanks(s[2..]);
            Next(s) == if 2 + n < |s| && s[2 + n] == '=' then RangeEquals(s[2..2 + n]) else Plain('.')
  {
  }

  lemma DotsTurn(source: string, start: nat, previous: string, depth: nat, cursor: nat)
    requires start + 1 < |source| && source[start] == source[start + 1] == '.'
    requires cursor == start + 2 + Blanks(source[start + 2..])
    ensures if cursor < |source| && source[cursor] == '='
            then IsTurn(source, start, previous, depth, "..=", cursor + 1, depth)
            else IsTurn(source, start, previous, depth, ".", start + 1, depth)
  {
    var s := source[start..];
    assert s[2..] == source[start + 2..];
    NextOfDots(s);
  }

  /** The branch for `..`: tightened to `..=` when an equals sign follows. */
  method ScanDots(source: string, start: nat, ghost previous: string, ghost squareDepth: nat)
    returns (piece: string, index: nat)
    requires start + 1 < |source| && source[start] == source[start + 1] == '.'
    ensures IsTurn(source, start, previous, squareDepth, piece, index, squareDepth)
  {
    var cursor := SkipBlanks(source, start + 2);
    DotsTurn(source, start, previous, squareDepth, cursor);
    if cursor < |source| && source[cursor] == '=' {
      piece, index := "..=", cursor + 1;
    } else {
      piece, index := ".", start + 1;
    }
  }

  /** The branches of the loop for `!`, `;`, words and single characters. */
  method ScanSingle(source: string, start: nat, previous: string, squareDepth: nat)
    returns (piece: string, index: nat, depth: nat)
    requires start < |source|
    requires var t := Next(source[start..]); t.Bang? || t.Semicolon? || t.Word? || t.Plain?
    ensures IsTurn(source, start, previous, squareDepth, piece, index, depth)
  {
    var current := source[start];
    index, depth := start + 1, squareDepth;
    ghost var s := source[start..];
    if current == '!' && !(start + 1 < |source| && source[start + 1] == '=') {
      piece := "not ";
    } else if current == ';' {
      if squareDepth > 0 {
        piece := [current];
      } else {
        var drops := SemicolonDrops(source, index);
        piece := if drops then "" else "\n";
      }
    } else if IsWordStart(current) {
      index := WordEnd(source, start);
      assert source[start..index] == s[..Run(s)];
      piece := Replacement(source[start..index]);
    } else {
      if current == '[' {
        depth := squareDepth + 1;
      } else if current == ']' && squareDepth > 0 {
        depth := squareDepth - 1;
      }
      piece := [current];
    }
  }

  /** A comment follows after spaces and tabs, or the text or the line ends at `start`. */
  method SemicolonDrops(source: string, start: nat) returns (drops: bool)
    requires start <= |source|
    ensures drops == DropsSemicolon(source[start..])
  {
    var cursor := SkipBlanks(source, start);
    assert source[start..][Blanks(source[start..])..] == source[cursor..];
    drops := || (cursor + 1 < |source| && source[cursor] == '/' && source[cursor + 1] == '/')
             || start == |source| || source[start] == '\r' || source[start] == '\n';
  }

  /** The scanner of the source: an index, a bracket depth and a growing list of pieces. */
  method ScanAndRewrite(source: string) returns (result: string)
    ensures result == RewriteTokens(source)
  {
    var output: seq<string> := [];
    var index := 0;
    var squareDepth := 0;
    assert source[0..] == source;
    while index < |source|
      invariant Remaining(source, output, index, squareDepth)
      decreases |source| - index
    {
      var piece, next, depth := ScanOne(source, index, PreviousOf(output), squareDepth);
      Advance(source, output, index, squareDepth, piece, next, depth);
      output, index, squareDepth := output + [piece], next, depth;
    }
    result := Join(output);
  }
}
