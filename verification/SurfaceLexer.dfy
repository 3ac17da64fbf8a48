/** The token structure that `rewrite_tokens` walks through: line comments,
    string and character literals, the legacy operators, words, and single
    characters for everything else. */
module SurfaceLexer {

  predicate IsWordStart(c: char) {
    'A' <= c <= 'Z' || 'a' <= c <= 'z' || c == '_'
  }

  predicate IsDigit(c: char) {
    '0' <= c <= '9'
  }

  predicate IsWordChar(c: char) {
    IsWordStart(c) || IsDigit(c)
  }

  predicate IsBlank(c: char) {
    c == ' ' || c == '\t'
  }

  /** `s.startswith` for the two-character operators. */
  predicate StartsWith2(s: string, a: char, b: char) {
    2 <= |s| && s[0] == a && s[1] == b
  }

  /** Length of the longest prefix of word characters. */
  function Run(s: string): (n: nat)
    ensures n <= |s|
  {
    if s == [] || !IsWordChar(s[0]) then 0 else 1 + Run(s[1..])
  }

  /** Length of the longest prefix of spaces and tabs. */
  function Blanks(s: string): (n: nat)
    ensures n <= |s|
  {
    if s == [] || !IsBlank(s[0]) then 0 else 1 + Blanks(s[1..])
  }

  /** Distance to the next line feed, or to the end of the text. */
  function LineLength(s: string): (n: nat)
    ensures n <= |s|
  {
    if s == [] || s[0] == '\n' then 0 else 1 + LineLength(s[1..])
  }

  lemma RunChars(s: string)
    ensures forall i :: 0 <= i < Run(s) ==> IsWordChar(s[i])
    ensures Run(s) < |s| ==> !IsWordChar(s[Run(s)])
  {
  }

  lemma BlankChars(s: string)
    ensures forall i :: 0 <= i < Blanks(s) ==> IsBlank(s[i])
    ensures Blanks(s) < |s| ==> !IsBlank(s[Blanks(s)])
  {
  }

  lemma LineChars(s: string)
    ensures forall i :: 0 <= i < LineLength(s) ==> s[i] != '\n'
    ensures LineLength(s) < |s| ==> s[LineLength(s)] == '\n'
  {
  }

  /** Characters consumed after an opening delimiter, closing delimiter included. */
  function LiteralLength(s: string, delimiter: char, escaped: bool): (n: nat)
    ensures n <= |s|
  {
    if s == [] then 0
    else if escaped then 1 + LiteralLength(s[1..], delimiter, false)
    else if s[0] == '\\' then 1 + LiteralLength(s[1..], delimiter, true)
    else if s[0] == delimiter then 1
    else 1 + LiteralLength(s[1..], delimiter, false)
  }

  /** `s`, after spaces and tabs, continues with an equals sign. */
  predicate BlankThenEquals(s: string) {
    Blanks(s) < |s| && s[Blanks(s)] == '='
  }

  datatype Token =
    | Comment(text: string)
    | Literal(text: string)
    | Arrow                    // ->
    | FatArrow                 // =>
    | RangeEquals(gap: string) // .. then spaces and tabs then =
    | Bang                     // ! not followed by =
    | Semicolon
    | Word(text: string)
    | Plain(c: char)

  function Spelling(t: Token): string {
    match t
    case Comment(text) => text
    case Literal(text) => text
    case Arrow => "->"
    case FatArrow => "=>"
    case RangeEquals(gap) => ".." + gap + "="
    case Bang => "!"
    case Semicolon => ";"
    case Word(text) => text
    case Plain(c) => [c]
  }

  /** The token at the front of `s`, tried in the order of the scanner's branches. */
  function Next(s: string): (t: Token)
    requires s != []
    ensures 1 <= |Spelling(t)| <= |s|
    ensures Spelling(t) == s[..|Spelling(t)|]
  {
    if StartsWith2(s, '/', '/') then Comment(s[..LineLength(s)])
    else if s[0] == '"' || s[0] == '\'' then Literal(s[..1 + LiteralLength(s[1..], s[0], false)])
    else if StartsWith2(s, '-', '>') then Arrow
    else if StartsWith2(s, '=', '>') then FatArrow
    else if StartsWith2(s, '.', '.') && BlankThenEquals(s[2..]) then
      var n := Blanks(s[2..]);
      assert s[2..][n] == s[2 + n];
      assert s[..n + 3] == ".." + s[2..2 + n] + "=";
      RangeEquals(s[2..2 + n])
    else if s[0] == '!' && !StartsWith2(s, '!', '=') then Bang
    else if s[0] == ';' then Semicolon
    else if IsWordStart(s[0]) then Word(s[..Run(s)])
    else Plain(s[0])
  }

  function Rest(s: string): (r: string)
    requires s != []
    ensures |r| < |s|
    ensures Spelling(Next(s)) + r == s
  {
    s[|Spelling(Next(s))|..]
  }

  function Lex(s: string): seq<Token>
  {
    if s == [] then [] else [Next(s)] + Lex(Rest(s))
  }

  function Spellings(tokens: seq<Token>): string {
    if tokens == [] then [] else Spelling(tokens[0]) + Spellings(tokens[1..])
  }

  /** Lexing loses nothing: the spellings concatenate back to the text. */
  lemma {:induction false} LexIsLossless(s: string)
    ensures Spellings(Lex(s)) == s
    decreases |s|
  {
    if s != [] {
      LexIsLossless(Rest(s));
    }
  }

  function Literals(tokens: seq<Token>): seq<string> {
    if tokens == [] then []
    else (if tokens[0].Literal? then [tokens[0].text] else []) + Literals(tokens[1..])
  }

  function Comments(tokens: seq<Token>): seq<string> {
    if tokens == [] then []
    else (if tokens[0].Comment? then [tokens[0].text] else []) + Comments(tokens[1..])
  }
}
