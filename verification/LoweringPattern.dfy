/** Every way to write the head of an arm that the catalog reader's pattern takes. */
module LoweringPattern {
  import opened PythonText
  import opened LoweringArmScan
  import opened LoweringTableText

  /** Whitespace and a character. */
  lemma WhiteMark(ws: string, c: char, next: Pattern, s: string)
    requires AreSpaces(ws) && !IsSpace(c)
    ensures Try(White(Mark(c, next)), ws + ([c] + s)) == Shift(|ws| + 1, [], Try(next, s))
  {
    SpacesRun(ws, [c] + s);
    assert (ws + ([c] + s))[|ws|..] == [c] + s;
    MarkStep(c, next, s);
    ShiftTwice(|ws|, 1, Try(next, s));
  }

  /** A character, whitespace and a character. */
  lemma MarkWhite(p: Pattern, a: char, ws: string, c: char, next: Pattern, s: string, t: string)
    requires AreSpaces(ws) && !IsSpace(c) && p == Mark(a, White(Mark(c, next))) && t == ws + ([c] + s)
    ensures Try(p, [a] + t) == Shift(|ws| + 2, [], Try(next, s))
  {
    MarkStep(a, White(Mark(c, next)), t);
    WhiteMark(ws, c, next, s);
    ShiftTwice(1, |ws| + 1, Try(next, s));
  }

  /** A shift by `m` and one by `n`. */
  lemma Shifted(m: nat, n: nat, a: Attempt, b: Attempt, c: Attempt)
    requires a == Shift(m, [], b) && b == Shift(n, [], c)
    ensures a == Shift(m + n, [], c)
  {
    ShiftTwice(m, n, c);
  }

  /** `)`, whitespace and the arrow, behind the closing quote of the function's name. */
  lemma ArrowAccepts(w4: string, w5: string, rest: string)
    requires AreSpaces(w4) && AreSpaces(w5)
    ensures Try(BehindName(), ['"'] + (w4 + ([')'] + (w5 + (['='] + (['>'] + rest)))))) == Matches(|w4| + |w5| + 4, [])
  {
    ArrowIn(BehindName(), White(Mark('=', Mark('>', End))), w4, w5, rest);
  }

  lemma ArrowIn(p: Pattern, next: Pattern, w4: string, w5: string, rest: string)
    requires AreSpaces(w4) && AreSpaces(w5)
    requires p == Mark('"', White(Mark(')', next))) && next == White(Mark('=', Mark('>', End)))
    ensures Try(p, ['"'] + (w4 + ([')'] + (w5 + (['='] + (['>'] + rest)))))) == Matches(|w4| + |w5| + 4, [])
  {
    var arrow := w5 + (['='] + (['>'] + rest));
    ArrowBehind(next, w5, rest, arrow);
    QuoteAccepts(p, next, w4, arrow, |w5| + 2);
  }

  lemma QuoteAccepts(p: Pattern, next: Pattern, w4: string, arrow: string, n: nat)
    requires AreSpaces(w4) && p == Mark('"', White(Mark(')', next))) && Try(next, arrow) == Matches(n, [])
    ensures Try(p, ['"'] + (w4 + ([')'] + arrow))) == Matches(|w4| + 2 + n, [])
  {
    MarkWhite(p, '"', w4, ')', next, arrow, w4 + ([')'] + arrow));
  }

  lemma ArrowBehind(p: Pattern, w5: string, rest: string, arrow: string)
    requires AreSpaces(w5) && p == White(Mark('=', Mark('>', End))) && arrow == w5 + (['='] + (['>'] + rest))
    ensures Try(p, arrow) == Matches(|w5| + 2, [])
  {
    MarkStep('>', End, rest);
    WhiteMark(w5, '=', Mark('>', End), ['>'] + rest);
  }

  lemma CommaAccepts(p: Pattern, w2: string, w3: string, word: Pattern, s: string, t: string)
    requires AreSpaces(w2) && AreSpaces(w3) && p == Mark('"', White(Mark(',', White(Mark('"', word)))))
    requires t == w3 + (['"'] + s)
    ensures Try(p, ['"'] + (w2 + ([','] + t))) == Shift(|w2| + |w3| + 3, [], Try(word, s))
  {
    CommaIn(p, White(Mark('"', word)), w2, w3, word, s, t, w2 + ([','] + t));
  }

  lemma CommaIn(p: Pattern, next: Pattern, w2: string, w3: string, word: Pattern, s: string, t: string, u: string)
    requires AreSpaces(w2) && AreSpaces(w3) && next == White(Mark('"', word)) && p == Mark('"', White(Mark(',', next)))
    requires t == w3 + (['"'] + s) && u == w2 + ([','] + t)
    ensures Try(p, ['"'] + u) == Shift(|w2| + |w3| + 3, [], Try(word, s))
  {
    WhiteMark(w3, '"', word, s);
    CommaThen(p, next, w2, t, u, |w3| + 1, Try(word, s));
  }

  lemma CommaThen(p: Pattern, next: Pattern, w2: string, t: string, u: string, n: nat, a: Attempt)
    requires AreSpaces(w2) && p == Mark('"', White(Mark(',', next))) && u == w2 + ([','] + t)
    requires Try(next, t) == Shift(n, [], a)
    ensures Try(p, ['"'] + u) == Shift(|w2| + 2 + n, [], a)
  {
    MarkWhite(p, '"', w2, ',', next, t, u);
    Shifted(|w2| + 2, n, Try(p, ['"'] + u), Try(next, t), a);
  }

  lemma BracketAccepts(p: Pattern, w1: string, word: Pattern, s: string)
    requires AreSpaces(w1) && p == Mark('(', White(Mark('"', word)))
    ensures Try(p, ['('] + (w1 + (['"'] + s))) == Shift(|w1| + 2, [], Try(word, s))
  {
    MarkWhite(p, '(', w1, '"', word, s, w1 + (['"'] + s));
  }

  /** A word in front of what matches the rest of the pattern. */
  lemma WordAccepts(dots: bool, next: Pattern, w: string, behind: string, n: nat, words: seq<string>)
    requires w != [] && AllWord(w, dots) && behind != [] && behind[0] == '"' && Try(next, behind) == Matches(n, words)
    ensures Try(Word(dots, next), w + behind) == Matches(|w| + n, [w] + words)
  {
    WordStep(dots, next, w, behind);
  }

  lemma FunctionAccepts(p: Pattern, next: Pattern, w2: string, w3: string, f: string, behind: string, n: nat)
    requires AreSpaces(w2) && AreSpaces(w3) && f != [] && AllWord(f, false)
    requires p == Mark('"', White(Mark(',', White(Mark('"', Word(false, next))))))
    requires behind != [] && behind[0] == '"' && Try(next, behind) == Matches(n, [])
    ensures Try(p, ['"'] + (w2 + ([','] + (w3 + (['"'] + (f + behind)))))) == Matches(|w2| + |w3| + 3 + |f| + n, [f])
  {
    WordAccepts(false, next, f, behind, n, []);
    CommaAccepts(p, w2, w3, Word(false, next), f + behind, w3 + (['"'] + (f + behind)));
    assert [] + ([f] + []) == [f];
  }

  lemma ModuleAccepts(p: Pattern, next: Pattern, w1: string, m: string, behind: string, n: nat, f: string)
    requires AreSpaces(w1) && m != [] && AllWord(m, true) && p == Mark('(', White(Mark('"', Word(true, next))))
    requires behind != [] && behind[0] == '"' && Try(next, behind) == Matches(n, [f])
    ensures Try(p, ['('] + (w1 + (['"'] + (m + behind)))) == Matches(|w1| + 2 + |m| + n, [m, f])
  {
    WordAccepts(true, next, m, behind, n, [f]);
    BracketAccepts(p, w1, Word(true, next), m + behind);
    assert [] + ([m] + [f]) == [m, f];
  }

  /** `("module", "function") =>` with any whitespace between its parts, in front of any text. */
  lemma HeadAccepts(w1: string, m: string, w2: string, w3: string, f: string, w4: string, w5: string, rest: string)
    requires AreSpaces(w1) && AreSpaces(w2) && AreSpaces(w3) && AreSpaces(w4) && AreSpaces(w5)
    requires m != [] && AllWord(m, true) && f != [] && AllWord(f, false)
    ensures var head := "(" + w1 + "\"" + m + "\"" + w2 + "," + w3 + "\"" + f + "\"" + w4 + ")" + w5 + "=>";
            Try(ArmPattern(), head + rest) == Matches(|head|, [m, f])
  {
    var arrow := ['"'] + (w4 + ([')'] + (w5 + (['='] + (['>'] + rest)))));
    ArrowAccepts(w4, w5, rest);
    HeadParts(w1, m, w2, w3, f, w4, w5, rest);
    var head := "(" + w1 + "\"" + m + "\"" + w2 + "," + w3 + "\"" + f + "\"" + w4 + ")" + w5 + "=>";
    HeadIn(ArmPattern(), BehindModule(), BehindName(), w1, m, w2, w3, f, arrow, |w4| + |w5| + 4, head + rest);
  }

  /** The names the pattern takes: `[a-z0-9_.]+` and `[a-z0-9_]+`. */
  lemma LowerNamesAre(name: (string, string))
    ensures IsLowerName(name) <==>
              && (forall i :: 0 <= i < |name.0| ==>
                    'a' <= name.0[i] <= 'z' || '0' <= name.0[i] <= '9' || name.0[i] == '_' || name.0[i] == '.')
              && (forall i :: 0 <= i < |name.1| ==>
                    'a' <= name.1[i] <= 'z' || '0' <= name.1[i] <= '9' || name.1[i] == '_')
  {
    if IsLowerName(name) {
      assert AllWord(name.0, true) && AllWord(name.1, false);
    }
  }

  lemma HeadIn(p: Pattern, q: Pattern, r: Pattern, w1: string, m: string, w2: string, w3: string, f: string,
               arrow: string, n: nat, text: string)
    requires AreSpaces(w1) && AreSpaces(w2) && AreSpaces(w3)
    requires m != [] && AllWord(m, true) && f != [] && AllWord(f, false)
    requires p == Mark('(', White(Mark('"', Word(true, q))))
    requires q == Mark('"', White(Mark(',', White(Mark('"', Word(false, r))))))
    requires arrow != [] && arrow[0] == '"' && Try(r, arrow) == Matches(n, [])
    requires text == ['('] + (w1 + (['"'] + (m + (['"'] + (w2 + ([','] + (w3 + (['"'] + (f + arrow)))))))))
    ensures Try(p, text) == Matches(|w1| + |m| + |w2| + |w3| + |f| + 5 + n, [m, f])
  {
    var comma := ['"'] + (w2 + ([','] + (w3 + (['"'] + (f + arrow)))));
    FunctionAccepts(q, r, w2, w3, f, arrow, n);
    ModuleAccepts(p, q, w1, m, comma, |w2| + |w3| + 3 + |f| + n, f);
  }

  lemma HeadParts(w1: string, m: string, w2: string, w3: string, f: string, w4: string, w5: string, rest: string)
    ensures var head := "(" + w1 + "\"" + m + "\"" + w2 + "," + w3 + "\"" + f + "\"" + w4 + ")" + w5 + "=>";
            && |head| == |w1| + |m| + |w2| + |w3| + |f| + |w4| + |w5| + 9
            && head + rest
               == ['('] + (w1 + (['"'] + (m + (['"'] + (w2 + ([','] + (w3 + (['"'] + (f
                  + (['"'] + (w4 + ([')'] + (w5 + (['='] + (['>'] + rest)))))))))))))))
  {
    var tail := "\"" + w4 + ")" + w5 + "=>";
    assert "=>" == ['='] + ['>'];
    TailParts(w4, w5, rest);
    var middle := "\"" + w2 + "," + w3 + "\"";
    FrontParts(w1, m, middle, f, tail, rest);
    MiddleParts(w2, w3, f + (tail + rest));
  }

  lemma TailParts(w4: string, w5: string, rest: string)
    ensures ("\"" + w4 + ")" + w5 + "=>") + rest == ['"'] + (w4 + ([')'] + (w5 + (['='] + (['>'] + rest)))))
  {
    assert "=>" == ['='] + ['>'];
  }

  lemma MiddleParts(w2: string, w3: string, rest: string)
    ensures ("\"" + w2 + "," + w3 + "\"") + rest == ['"'] + (w2 + ([','] + (w3 + (['"'] + rest))))
  {
  }

  lemma FrontParts(w1: string, m: string, middle: string, f: string, tail: string, rest: string)
    ensures "(" + w1 + "\"" + m + middle + f + tail + rest
         == ['('] + (w1 + (['"'] + (m + (middle + (f + (tail + rest))))))
  {
  }
}
