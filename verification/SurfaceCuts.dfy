/** Lexing a text whose beginning is kept while the rest is exchanged: the tokens that end inside
    the beginning stay the same, and at most one token reaches the place of the cut. */
module SurfaceCuts {
  import opened Wrappers
  import opened PythonText
  import opened SurfaceLexer
  import opened SurfaceRelexing

  // ----- literals that are still open -----

  /** Whether the next character is escaped, if the literal is still open behind `s`. */
  function Pending(s: string, delimiter: char, escaped: bool): Option<bool> {
    if s == [] then Some(escaped)
    else if escaped then Pending(s[1..], delimiter, false)
    else if s[0] == '\\' then Pending(s[1..], delimiter, true)
    else if s[0] == delimiter then None
    else Pending(s[1..], delimiter, false)
  }

  lemma {:induction false} PendingLength(s: string, r: string, delimiter: char, escaped: bool)
    ensures var p := Pending(s, delimiter, escaped);
            LiteralLength(s + r, delimiter, escaped)
            == if p.None? then LiteralLength(s, delimiter, escaped) else |s| + LiteralLength(r, delimiter, p.value)
  {
    if s == [] {
      assert s + r == r;
    } else {
      assert (s + r)[1..] == s[1..] + r && (s + r)[0] == s[0];
      PendingLength(s[1..], r, delimiter, if escaped then false else s[0] == '\\');
    }
  }

  /** Characters that neither close a literal nor escape anything. */
  predicate IsBland(s: string) {
    forall i :: 0 <= i < |s| ==> s[i] !in {'"', '\'', '\\', '\n'}
  }

  lemma {:induction false} PendingBland(s: string, delimiter: char, escaped: bool)
    requires IsBland(s) && (delimiter == '"' || delimiter == '\'')
    ensures Pending(s, delimiter, escaped) == Some(escaped && s == [])
  {
    if s != [] {
      PendingBland(s[1..], delimiter, false);
    }
  }

  lemma {:induction false} PendingTwo(s: string, r: string, delimiter: char, escaped: bool)
    requires Pending(s, delimiter, escaped).Some?
    ensures Pending(s + r, delimiter, escaped) == Pending(r, delimiter, Pending(s, delimiter, escaped).value)
  {
    if s == [] {
      assert s + r == r;
    } else {
      assert (s + r)[1..] == s[1..] + r && (s + r)[0] == s[0];
      PendingTwo(s[1..], r, delimiter, if escaped then false else s[0] == '\\');
    }
  }

  // ----- the token at the place of the cut -----

  predicate IsOpenComment(a: string) {
    StartsWith2(a, '/', '/') && '\n' !in a
  }

  predicate IsQuote(c: char) {
    c == '"' || c == '\''
  }

  predicate IsOpenLiteral(a: string) {
    a != [] && IsQuote(a[0]) && Pending(a[1..], a[0], false).Some?
  }

  /** A text that the next characters may continue: nothing, a word, a comment or a literal. */
  predicate IsOpen(a: string) {
    a == [] || IsWord(a) || IsOpenComment(a) || IsOpenLiteral(a)
  }

  /** The first token of a text behind which a colon stands. */
  function First(a: string): Token
    requires a != []
  {
    Next(a + ":")
  }

  /** What the lexer has not yet finished behind `a`. */
  function Open(a: string): string
    decreases |a|
  {
    if IsOpen(a) || |Spelling(First(a))| > |a| then a else Open(a[|Spelling(First(a))|..])
  }

  /** The tokens in front of it. */
  function Closed(a: string): seq<Token>
    decreases |a|
  {
    if IsOpen(a) || |Spelling(First(a))| > |a| then [] else [First(a)] + Closed(a[|Spelling(First(a))|..])
  }

  // ----- continuations that complete no operator -----

  /** A text that neither completes an operator nor ends a comment. */
  predicate IsSoft(v: string) {
    v != [] && v[0] !in {'/', '>', '=', '.', '\n'} && !BlankThenEquals(v)
  }

  lemma ColonIsSoft()
    ensures IsSoft(":")
  {
  }

  predicate EndsInSpace(a: string) {
    a != [] && IsSpace(a[|a| - 1])
  }

  lemma {:induction false} LineInside(a: string, v: string)
    requires '\n' in a
    ensures LineLength(a + v) == LineLength(a) < |a|
  {
    if a[0] != '\n' {
      assert '\n' in a[1..];
      assert (a + v)[1..] == a[1..] + v;
      LineInside(a[1..], v);
    }
  }

  lemma CommentInside(a: string, v: string)
    requires StartsWith2(a, '/', '/') && '\n' in a
    ensures Next(a + v) == Comment(a[..LineLength(a)])
  {
    LineInside(a, v);
    assert (a + v)[..LineLength(a)] == a[..LineLength(a)];
  }

  lemma LiteralInside(a: string, v: string)
    requires a != [] && IsQuote(a[0]) && Pending(a[1..], a[0], false).None?
    ensures Next(a + v) == Literal(a[..1 + LiteralLength(a[1..], a[0], false)])
  {
    var n := LiteralLength(a[1..], a[0], false);
    PendingLength(a[1..], v, a[0], false);
    assert (a + v)[1..] == a[1..] + v && (a + v)[0] == a[0];
    assert (a + v)[..1 + n] == a[..1 + n];
  }

  lemma {:induction false} RunInside(a: string, v: string)
    requires Run(a) < |a|
    ensures Run(a + v) == Run(a)
  {
    if IsWordChar(a[0]) {
      assert (a + v)[1..] == a[1..] + v;
      RunInside(a[1..], v);
    }
  }

  lemma WordInside(a: string, v: string)
    requires a != [] && IsWordStart(a[0]) && !IsWord(a)
    ensures Run(a) < |a| && Next(a + v) == Word(a[..Run(a)])
  {
    WordStops(a);
    RunInside(a, v);
    RunOfPrefix(a, v, Run(a));
    NextIsWord(a + v, a[..Run(a)]);
  }

  lemma RunOfPrefix(a: string, v: string, n: nat)
    requires n <= |a| && Run(a + v) == n
    ensures (a + v)[..Run(a + v)] == a[..n]
  {
  }

  lemma WordStops(a: string)
    requires a != [] && IsWordStart(a[0]) && !IsWord(a)
    ensures Run(a) < |a|
  {
    RunChars(a);
  }

  lemma NextIsWord(s: string, w: string)
    requires s != [] && IsWordStart(s[0]) && w == s[..Run(s)]
    ensures Next(s) == Word(w)
  {
  }

  // ----- dots -----

  lemma {:induction false} BlanksInside(x: string, v: string)
    requires Blanks(x) < |x|
    ensures Blanks(x + v) == Blanks(x)
  {
    if IsBlank(x[0]) {
      assert (x + v)[1..] == x[1..] + v;
      BlanksInside(x[1..], v);
    }
  }

  lemma {:induction false} BlanksThrough(x: string, v: string)
    requires Blanks(x) == |x|
    ensures Blanks(x + v) == |x| + Blanks(v)
  {
    if x == [] {
      assert x + v == v;
    } else {
      assert (x + v)[1..] == x[1..] + v;
      BlanksThrough(x[1..], v);
    }
  }

  /** Whether blanks and an equals sign follow is decided inside `x`, or by what follows it. */
  lemma EqualsInside(x: string, v: string)
    ensures BlankThenEquals(x + v) == if Blanks(x) < |x| then BlankThenEquals(x) else BlankThenEquals(v)
  {
    if Blanks(x) < |x| {
      BlanksInside(x, v);
      assert (x + v)[Blanks(x)] == x[Blanks(x)];
    } else {
      BlanksThrough(x, v);
      assert Blanks(v) < |v| ==> (x + v)[|x| + Blanks(v)] == v[Blanks(v)];
    }
  }

  /** Two dots: a range if an equals sign follows the blanks, and then it ends inside `a` unless
      the equals sign does not. */
  lemma DotsInside(a: string, v: string)
    requires StartsWith2(a, '.', '.')
    ensures Next(a + v) == if BlankThenEquals(a[2..] + v)
                           then RangeEquals((a[2..] + v)[..Blanks(a[2..] + v)]) else Plain('.')
    ensures BlankThenEquals(a[2..]) ==>
              Next(a + v) == RangeEquals(a[2..][..Blanks(a[2..])]) && |Spelling(Next(a + v))| <= |a|
  {
    var x := a[2..];
    assert (a + v)[2..] == x + v;
    NextIsDots(a + v);
    EqualsInside(x, v);
    if BlankThenEquals(x) {
      BlanksInside(x, v);
      SameGap(x, v, Blanks(x));
    }
  }

  lemma SameGap(x: string, v: string, n: nat)
    requires n < |x|
    ensures (x + v)[..n] == x[..n] && |Spelling(RangeEquals(x[..n]))| <= |x| + 2
  {
  }

  lemma NextIsDots(s: string)
    requires StartsWith2(s, '.', '.')
    ensures Next(s) == if BlankThenEquals(s[2..]) then RangeEquals(s[2..][..Blanks(s[2..])]) else Plain('.')
  {
    if BlankThenEquals(s[2..]) {
      assert s[2..2 + Blanks(s[2..])] == s[2..][..Blanks(s[2..])];
    }
  }

  // ----- the first token does not depend on a soft continuation -----

  /** Texts that start with neither a comment, a literal, two dots nor a word. */
  predicate StartsWithOperator(a: string) {
    a != [] && !IsQuote(a[0]) && !IsWordStart(a[0]) && !StartsWith2(a, '/', '/') && !StartsWith2(a, '.', '.')
  }

  lemma OperatorInside(a: string, v: string)
    requires StartsWithOperator(a) && (|a| > 1 || IsSoft(v))
    ensures Next(a + v) == First(a) && |Spelling(First(a))| <= |a|
  {
    var s, r := a + v, a + ":";
    assert s[0] == a[0] == r[0];
    if |a| > 1 {
      assert s[1] == a[1] == r[1];
    } else {
      assert s[1] == v[0] && r[1] == ':';
    }
  }

  lemma SoftDots(a: string, v: string)
    requires StartsWith2(a, '.', '.') && IsSoft(v)
    ensures Next(a + v) == First(a) && |Spelling(First(a))| <= |a|
  {
    ColonIsSoft();
    DotsInside(a, v);
    DotsInside(a, ":");
    EqualsInside(a[2..], v);
    EqualsInside(a[2..], ":");
  }

  lemma SameFirst(a: string, v: string)
    requires !IsOpen(a) && IsSoft(v)
    ensures Next(a + v) == First(a) && |Spelling(First(a))| <= |a|
  {
    if StartsWith2(a, '/', '/') {
      CommentInside(a, v);
      CommentInside(a, ":");
      LineInside(a, v);
    } else if IsQuote(a[0]) {
      LiteralInside(a, v);
      LiteralInside(a, ":");
    } else if StartsWith2(a, '.', '.') {
      SoftDots(a, v);
    } else if IsWordStart(a[0]) {
      WordInside(a, v);
      WordInside(a, ":");
    } else {
      OperatorInside(a, v);
    }
  }

  lemma OneToken(a: string, v: string)
    requires a != [] && Next(a + v) == First(a) && |Spelling(First(a))| <= |a|
    ensures Lex(a + v) == [First(a)] + Lex(a[|Spelling(First(a))|..] + v)
  {
    var n := |Spelling(First(a))|;
    assert Rest(a + v) == (a + v)[n..] == a[n..] + v;
  }

  lemma OneMoreToken(a: string, v: string)
    requires !IsOpen(a) && Next(a + v) == First(a) && |Spelling(First(a))| <= |a|
    requires var rest := a[|Spelling(First(a))|..]; Lex(rest + v) == Closed(rest) + Lex(Open(rest) + v)
    ensures Lex(a + v) == Closed(a) + Lex(Open(a) + v)
  {
    var rest := a[|Spelling(First(a))|..];
    OneToken(a, v);
    Unfolded(a);
    Prepended(First(a), Closed(rest), Lex(Open(rest) + v));
  }

  lemma Unfolded(a: string)
    requires !IsOpen(a) && |Spelling(First(a))| <= |a|
    ensures var rest := a[|Spelling(First(a))|..]; Closed(a) == [First(a)] + Closed(rest) && Open(a) == Open(rest)
  {
  }

  lemma Prepended(t: Token, a: seq<Token>, b: seq<Token>)
    ensures [t] + (a + b) == ([t] + a) + b
  {
  }

  /** Lexing in front of a soft continuation. */
  lemma {:induction false} SoftCut(a: string, v: string)
    requires IsSoft(v)
    ensures Lex(a + v) == Closed(a) + Lex(Open(a) + v)
    decreases |a|
  {
    if IsOpen(a) {
      assert Closed(a) == [];
    } else {
      SameFirst(a, v);
      SoftCut(a[|Spelling(First(a))|..], v);
      OneMoreToken(a, v);
    }
  }

  lemma SuffixOfSuffix(a: string, n: nat, m: nat)
    requires n <= |a| && m <= |a| - n
    ensures a[n..][|a[n..]| - m..] == a[|a| - m..]
  {
  }

  lemma {:induction false} OpenIsOpen(a: string)
    ensures IsOpen(Open(a))
    ensures |Open(a)| <= |a| && a[|a| - |Open(a)|..] == Open(a)
    decreases |a|
  {
    if !IsOpen(a) {
      ColonIsSoft();
      SameFirst(a, ":");
      var n := |Spelling(First(a))|;
      OpenIsOpen(a[n..]);
      Unfolded(a);
      SuffixOfSuffix(a, n, |Open(a)|);
    }
  }

  // ----- behind whitespace any continuation will do -----

  /** A range with blanks before its equals sign. */
  predicate HasGap(tokens: seq<Token>) {
    exists t :: t in tokens && t.RangeEquals? && t.gap != []
  }

  lemma SpaceDots(a: string, v: string)
    requires StartsWith2(a, '.', '.') && EndsInSpace(a)
    ensures || (Next(a + v) == First(a) && |Spelling(First(a))| <= |a|)
            || (Next(a + v).RangeEquals? && Next(a + v).gap != [])
  {
    ColonIsSoft();
    DotsInside(a, v);
    DotsInside(a, ":");
    EqualsInside(a[2..], v);
    EqualsInside(a[2..], ":");
    if Blanks(a[2..]) == |a[2..]| && BlankThenEquals(v) {
      BlanksThrough(a[2..], v);
    }
  }

  lemma SameFirstBehindSpace(a: string, v: string)
    requires !IsOpen(a) && EndsInSpace(a)
    ensures || (Next(a + v) == First(a) && |Spelling(First(a))| <= |a|)
            || (Next(a + v).RangeEquals? && Next(a + v).gap != [])
  {
    if StartsWith2(a, '/', '/') {
      CommentInside(a, v);
      CommentInside(a, ":");
      LineInside(a, v);
    } else if IsQuote(a[0]) {
      LiteralInside(a, v);
      LiteralInside(a, ":");
    } else if StartsWith2(a, '.', '.') {
      SpaceDots(a, v);
    } else if IsWordStart(a[0]) {
      WordInside(a, v);
      WordInside(a, ":");
    } else {
      SpaceOperator(a, v);
    }
  }

  lemma SpaceOperator(a: string, v: string)
    requires StartsWithOperator(a) && EndsInSpace(a)
    ensures Next(a + v) == First(a) && |Spelling(First(a))| <= |a|
  {
    if |a| > 1 {
      OperatorInside(a, v);
    } else {
      assert StandsAlone(a[0]);
      AloneInFront(a[0], v);
      AloneInFront(a[0], ":");
      assert a == [a[0]];
    }
  }

  lemma FirstHasNoGap(s: string)
    requires s != [] && !HasGap(Lex(s))
    ensures !(Next(s).RangeEquals? && Next(s).gap != [])
  {
    assert Lex(s)[0] == Next(s);
  }

  lemma RestHasNoGap(t: Token, tokens: seq<Token>)
    requires !HasGap([t] + tokens)
    ensures !HasGap(tokens)
  {
    forall u | u in tokens ensures !(u.RangeEquals? && u.gap != []) {
      assert u in [t] + tokens;
    }
  }

  /** Lexing in front of any continuation, behind whitespace. */
  lemma {:induction false} SpaceCut(a: string, v: string)
    requires a == [] || EndsInSpace(a)
    requires !HasGap(Lex(a + v))
    ensures Lex(a + v) == Closed(a) + Lex(Open(a) + v)
    decreases |a|
  {
    if IsOpen(a) {
      assert Closed(a) == [];
    } else {
      SameFirstBehindSpace(a, v);
      FirstHasNoGap(a + v);
      OneToken(a, v);
      var rest := a[|Spelling(First(a))|..];
      RestHasNoGap(First(a), Lex(rest + v));
      SpaceCut(rest, v);
      OneMoreToken(a, v);
    }
  }

  // ----- words at the ends of a text -----

  /** The longest suffix of word characters. */
  function Trail(a: string): string {
    if a == [] || !IsWordChar(a[|a| - 1]) then [] else Trail(a[..|a| - 1]) + [a[|a| - 1]]
  }

  predicate IsRun(s: string) {
    forall i :: 0 <= i < |s| ==> IsWordChar(s[i])
  }

  function WithoutDigits(s: string): string {
    if s == [] || !IsDigit(s[0]) then s else WithoutDigits(s[1..])
  }

  /** The word at the end of a text, the digits in front of it left aside. */
  function LastWord(a: string): string {
    WithoutDigits(Trail(a))
  }

  /** The word at the beginning of a text, the digits in front of it left aside. */
  function LeadWord(b: string): string {
    WithoutDigits(b[..Run(b)])
  }

  lemma {:induction false} TrailTwo(x: string, y: string)
    ensures Trail(x + y) == if IsRun(y) then Trail(x) + y else Trail(y)
  {
    if y == [] {
      assert x + y == x && Trail(x) + y == Trail(x);
    } else {
      var z, c := y[..|y| - 1], y[|y| - 1];
      assert x + y == (x + z) + [c] && y == z + [c];
      TrailSnoc(x + z, c);
      TrailSnoc(z, c);
      if IsWordChar(c) {
        TrailTwo(x, z);
        RunSnoc(y);
        assert (Trail(x) + z) + [c] == Trail(x) + y;
      }
    }
  }

  lemma TrailSnoc(a: string, c: char)
    ensures Trail(a + [c]) == if IsWordChar(c) then Trail(a) + [c] else []
  {
    assert (a + [c])[..|a|] == a;
  }

  lemma RunSnoc(y: string)
    requires y != [] && IsWordChar(y[|y| - 1])
    ensures IsRun(y) <==> IsRun(y[..|y| - 1])
    ensures y == y[..|y| - 1] + [y[|y| - 1]]
  {
  }

  lemma TrailIsAll(w: string)
    requires IsRun(w)
    ensures Trail(w) == w
  {
    TrailTwo([], w);
    assert [] + w == w && Trail([]) == [];
  }

  /** What stands in front of a character that belongs to no word does not matter. */
  lemma LastWordBehind(x: string, y: string)
    requires x == [] || !IsWordChar(x[|x| - 1])
    ensures LastWord(x + y) == LastWord(y)
  {
    TrailTwo(x, y);
    assert Trail(x) == [] && [] + y == y;
    if IsRun(y) {
      TrailIsAll(y);
    }
  }

  lemma {:induction false} DigitsAreLeft(d: string, r: string)
    requires forall i :: 0 <= i < |d| ==> IsDigit(d[i])
    ensures WithoutDigits(d + r) == WithoutDigits(r)
  {
    if d == [] {
      assert d + r == r;
    } else {
      assert (d + r)[1..] == d[1..] + r;
      DigitsAreLeft(d[1..], r);
    }
  }

  predicate AllDigits(s: string) {
    forall i :: 0 <= i < |s| ==> IsDigit(s[i])
  }

  /** Behind the first token, word characters continue at most digits. */
  lemma BehindFirst(a: string)
    requires !IsOpen(a)
    ensures var x := Spelling(First(a));
            |x| <= |a| && (IsRun(a[|x|..]) ==> AllDigits(Trail(x)))
  {
    ColonIsSoft();
    SameFirst(a, ":");
    var t := First(a);
    var rest := a[|Spelling(t)|..];
    if StartsWith2(a, '/', '/') {
      CommentInside(a, ":");
      LineInside(a, ":");
      LineChars(a);
      NoRun(rest);
    } else if IsQuote(a[0]) {
      LiteralInside(a, ":");
      QuoteIsLast(a);
    } else if IsWordStart(a[0]) {
      WordInside(a, ":");
      RunChars(a);
      NoRun(rest);
    } else {
      OtherTrail(a);
    }
  }

  lemma NoRun(s: string)
    requires s != [] && !IsWordChar(s[0])
    ensures !IsRun(s)
  {
  }

  lemma QuoteIsLast(a: string)
    requires a != [] && IsQuote(a[0]) && Pending(a[1..], a[0], false).None?
    ensures Trail(a[..1 + LiteralLength(a[1..], a[0], false)]) == []
  {
    var n := LiteralLength(a[1..], a[0], false);
    ClosingQuote(a[1..], a[0], false);
    assert a[..1 + n][n] == a[1..][n - 1];
  }

  lemma {:induction false} ClosingQuote(s: string, delimiter: char, escaped: bool)
    requires Pending(s, delimiter, escaped).None?
    ensures var n := LiteralLength(s, delimiter, escaped); n > 0 && s[n - 1] == delimiter
  {
    if escaped || s[0] == '\\' || s[0] != delimiter {
      ClosingQuote(s[1..], delimiter, if escaped then false else s[0] == '\\');
    }
  }

  lemma OtherTrail(a: string)
    requires a != [] && !IsQuote(a[0]) && !IsWordStart(a[0]) && !StartsWith2(a, '/', '/')
    ensures AllDigits(Trail(Spelling(First(a))))
  {
    var x := Spelling(First(a));
    if IsWordChar(x[|x| - 1]) {
      assert First(a).Plain? && x == [a[0]];
      TrailIsAll(x);
    }
  }

  /** In code, the lexer is in the middle of the last word. */
  lemma {:induction false} OpenIsLastWord(a: string)
    requires Open(a) == [] || IsWord(Open(a))
    ensures LastWord(a) == Open(a)
    decreases |a|
  {
    if IsWord(a) {
      TrailIsAll(a);
    } else if a != [] {
      NotOpenThere(a);
      BehindFirst(a);
      var x := Spelling(First(a));
      var rest := a[|x|..];
      Unfolded(a);
      OpenIsLastWord(rest);
      assert a == x + rest by {
        ColonIsSoft();
        SameFirst(a, ":");
        assert x == (a + ":")[..|x|];
      }
      TrailTwo(x, rest);
      if IsRun(rest) {
        DigitsAreLeft(Trail(x), rest);
        TrailIsAll(rest);
      }
    }
  }

  lemma NotOpenThere(a: string)
    requires a != [] && !IsWord(a) && (Open(a) == [] || IsWord(Open(a)))
    ensures !IsOpen(a)
  {
  }
}
