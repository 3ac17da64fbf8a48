/** The printed arms as the catalog generator's scan sees them: their heads match, and nothing
    behind a head does. */
module LoweringTableText {
  import opened Wrappers
  import opened PythonText
  import opened LoweringText
  import opened LoweringTypes
  import opened LoweringExpressions
  import opened LoweringArms
  import opened LoweringRawText
  import opened LoweringBrackets
  import opened LoweringArmRoundTrip
  import opened LoweringHelperArms
  import opened LoweringArmScan

  // ----- stages of the pattern -----

  lemma MarkStep(c: char, next: Pattern, s: string)
    ensures Try(Mark(c, next), [c] + s) == Shift(1, [], Try(next, s))
  {
    assert ([c] + s)[1..] == s;
  }

  lemma NoWhiteStep(next: Pattern, s: string)
    requires s != [] && !IsSpace(s[0])
    ensures Try(White(next), s) == Shift(0, [], Try(next, s))
  {
    assert s[0..] == s;
  }

  lemma OneWhiteStep(next: Pattern, s: string)
    requires s != [] && !IsSpace(s[0])
    ensures Try(White(next), " " + s) == Shift(1, [], Try(next, s))
  {
    assert (" " + s)[1..] == s;
    assert SpaceRun(" " + s) == 1;
  }

  lemma {:induction false} WordRunOfAppend(w: string, dots: bool, s: string)
    requires AllWord(w, dots) && s != [] && !IsLowerChar(s[0], dots)
    ensures WordRun(w + s, dots) == |w|
  {
    if w == [] {
      assert w + s == s;
    } else {
      assert (w + s)[1..] == w[1..] + s;
      WordRunOfAppend(w[1..], dots, s);
    }
  }

  lemma WordStep(dots: bool, next: Pattern, w: string, s: string)
    requires w != [] && AllWord(w, dots) && s != [] && !IsLowerChar(s[0], dots)
    ensures Try(Word(dots, next), w + s) == Shift(|w|, [w], Try(next, s))
  {
    WordRunOfAppend(w, dots, s);
    assert (w + s)[..|w|] == w && (w + s)[|w|..] == s;
  }

  lemma {:induction false} OddWordRun(w: string, dots: bool, s: string)
    requires !AllWord(w, dots)
    ensures var n := WordRun(w + s, dots); n < |w| && !IsLowerChar(w[n], dots)
  {
    if IsLowerChar(w[0], dots) {
      assert (w + s)[1..] == w[1..] + s;
      OddWordRun(w[1..], dots, s);
    }
  }

  /** A word with another character in it, but without quotes, is not followed by a quote. */
  lemma OddWordFails(dots: bool, next: Pattern, w: string, s: string)
    requires !AllWord(w, dots) && '"' !in w
    ensures Try(Word(dots, Mark('"', next)), w + s) == Fails
  {
    OddWordRun(w, dots, s);
    var n := WordRun(w + s, dots);
    assert (w + s)[n] == w[n] && w[n] in w;
    if n > 0 {
      assert (w + s)[n..][0] == w[n];
    }
  }

  // ----- heads -----

  predicate IsLowerName(name: (string, string)) {
    AllWord(name.0, true) && AllWord(name.1, false)
  }

  function ArrowText(): string { "\")" + " =>" }

  lemma ArrowMatches(s: string)
    requires s == ArrowText()
    ensures Try(BehindName(), s) == Matches(5, [])
  {
    ArrowStep(End, s[5..]);
    assert s == ['"'] + ([')'] + (" " + (['='] + (['>'] + s[5..]))));
  }

  lemma ArrowStep(next: Pattern, s: string)
    ensures Try(Mark('"', White(Mark(')', White(Mark('=', Mark('>', next)))))),
                ['"'] + ([')'] + (" " + (['='] + (['>'] + s))))) == Shift(5, [], Try(next, s))
  {
    var arrow, rest := White(Mark('=', Mark('>', next))), " " + (['='] + (['>'] + s));
    TwoMarks('"', ')', arrow, rest);
    SpacedMark('=', Mark('>', next), ['>'] + s);
    MarkStep('>', next, s);
    ShiftTwice(2, 1, Try(next, s));
    ShiftTwice(2, 3, Try(next, s));
  }

  lemma SpacedMark(c: char, next: Pattern, s: string)
    requires !IsSpace(c)
    ensures Try(White(Mark(c, next)), " " + ([c] + s)) == Shift(2, [], Try(next, s))
  {
    OneWhiteStep(Mark(c, next), [c] + s);
    MarkStep(c, next, s);
    ShiftTwice(1, 1, Try(next, s));
  }

  lemma TwoMarks(c: char, d: char, next: Pattern, s: string)
    requires !IsSpace(d)
    ensures Try(Mark(c, White(Mark(d, next))), [c] + ([d] + s)) == Shift(2, [], Try(next, s))
  {
    MarkStep(c, White(Mark(d, next)), [d] + s);
    NoWhiteStep(Mark(d, next), [d] + s);
    MarkStep(d, next, s);
    ShiftTwice(0, 1, Try(next, s));
    ShiftTwice(1, 1, Try(next, s));
  }

  lemma ShiftTwice(m: nat, n: nat, r: Attempt)
    ensures Shift(m, [], Shift(n, [], r)) == Shift(m + n, [], r)
  {
    if r.Matches? {
      assert [] + r.words == r.words;
    }
  }

  /** From the quote behind the module on. */
  lemma FunctionMatches(f: string)
    requires f != [] && '"' !in f
    ensures Try(BehindModule(), "\", \"" + (f + ArrowText()))
         == if AllWord(f, false) then Matches(|f| + 9, [f]) else Fails
  {
    var word := Word(false, BehindName());
    var s := f + ArrowText();
    assert ArrowText()[0] == '"';
    if AllWord(f, false) {
      WordStep(false, BehindName(), f, ArrowText());
      ArrowMatches(ArrowText());
      assert [f] + [] == [f];
    } else {
      OddWordFails(false, BehindName().next, f, ArrowText());
    }
    CommaStep(word, s);
  }

  lemma CommaStep(word: Pattern, s: string)
    ensures Try(Mark('"', White(Mark(',', White(Mark('"', word))))), "\", \"" + s) == Shift(4, [], Try(word, s))
  {
    var rest := " " + (['"'] + s);
    assert "\", \"" + s == ['"'] + ([','] + rest);
    TwoMarks('"', ',', White(Mark('"', word)), rest);
    SpacedMark('"', word, s);
    ShiftTwice(2, 2, Try(word, s));
  }

  lemma HeadText(name: (string, string))
    ensures Head(name) + " =>" == ['('] + (['"'] + (name.0 + ("\", \"" + (name.1 + ArrowText()))))
    ensures |Head(name) + " =>"| == |name.0| + |name.1| + 11
  {
    assert "(\"" == ['('] + ['"'];
  }

  /** The head of an arm matches exactly when its names are lower-case, and the rest of the
      text does not matter. */
  lemma HeadMatches(name: (string, string))
    requires IsName(name)
    ensures Try(ArmPattern(), Head(name) + " =>")
         == if IsLowerName(name) then Matches(|Head(name) + " =>"|, [name.0, name.1]) else Fails
  {
    var behind := "\", \"" + (name.1 + ArrowText());
    HeadText(name);
    FunctionMatches(name.1);
    TwoMarks('(', '"', Word(true, BehindModule()), name.0 + behind);
    assert behind[0] == '"';
    if AllWord(name.0, true) {
      WordStep(true, BehindModule(), name.0, behind);
      ModuleShift(name, Try(BehindModule(), behind));
    } else {
      OddWordFails(true, BehindModule().next, name.0, behind);
    }
  }

  lemma ModuleShift(name: (string, string), r: Attempt)
    ensures r == Matches(|name.1| + 9, [name.1])
        ==> Shift(2, [], Shift(|name.0|, [name.0], r)) == Matches(|name.0| + |name.1| + 11, [name.0, name.1])
    ensures r == Fails ==> Shift(2, [], Shift(|name.0|, [name.0], r)) == Fails
  {
    assert [] + ([name.0] + [name.1]) == [name.0, name.1];
  }

  // ----- texts in which no arm starts -----

  predicate IsPlainChar(c: char) {
    !IsSpace(c) && c != '"'
  }

  /** An opening bracket is followed by a plain character, or by a quote and a character that
      no module's name starts with. */
  predicate IsMildAt(s: string, i: nat)
    requires i < |s|
  {
    s[i] == '(' ==>
      && i + 1 < |s|
      && (IsPlainChar(s[i + 1]) || (s[i + 1] == '"' && i + 2 < |s| && !IsLowerChar(s[i + 2], true)))
  }

  predicate IsMild(s: string) {
    forall i :: 0 <= i < |s| ==> IsMildAt(s, i)
  }

  lemma OtherFails(p: Pattern, s: string)
    requires IsArmPattern(p) && s != [] && s[0] != '('
    ensures Try(p, s) == Fails
  {
  }

  /** A bracket in front of a quoted capital. */
  lemma CapitalFails(p: Pattern, s: string)
    requires IsArmPattern(p) && s != [] && !IsLowerChar(s[0], true)
    ensures Try(p, ['('] + (['"'] + s)) == Fails
  {
    TwoMarks('(', '"', Word(true, BehindModule()), s);
  }

  lemma {:induction false} MildSkips(p: Pattern, s: string)
    requires IsArmPattern(p) && IsMild(s)
    ensures Skips(p, s)
  {
    if s != [] {
      forall i | 0 <= i < |s[1..]| ensures IsMildAt(s[1..], i) {
        assert IsMildAt(s, i + 1);
      }
      MildSkips(p, s[1..]);
      assert IsMildAt(s, 0);
      if s[0] != '(' {
        OtherFails(p, s);
      } else if IsPlainChar(s[1]) {
        BracketFails(p, s[1..]);
        assert s == "(" + s[1..];
      } else {
        CapitalFails(p, s[2..]);
        assert s == ['('] + (['"'] + s[2..]);
      }
    }
  }

  lemma MildTwo(a: string, b: string)
    requires IsMild(a) && IsMild(b)
    ensures IsMild(a + b)
  {
    forall i | 0 <= i < |a + b| ensures IsMildAt(a + b, i) {
      if i < |a| {
        assert IsMildAt(a, i);
      } else {
        assert IsMildAt(b, i - |a|);
      }
    }
  }

  lemma NoBracketIsMild(s: string)
    requires '(' !in s
    ensures IsMild(s)
  {
  }

  /** A text that ends in a bracket, and a text that starts with a plain character. */
  lemma MildCall(call: string, s: string)
    requires '(' !in call && IsMild(s) && s != [] && IsPlainChar(s[0])
    ensures IsMild(call + "(" + s)
  {
    var all := call + "(" + s;
    forall i | 0 <= i < |all| ensures IsMildAt(all, i) {
      if i < |call| {
        assert all[i] in call;
      } else if i > |call| {
        assert IsMildAt(s, i - |call| - 1);
      }
    }
  }

  // ----- printed types -----

  predicate AreMild(lines: seq<Line>) {
    forall i :: 0 <= i < |lines| ==> IsMild(lines[i].text)
  }

  lemma {:induction false} RawIsMild(lines: seq<Line>)
    requires lines != [] && AreMild(lines)
    ensures IsMild(Raw(lines))
  {
    if |lines| > 1 {
      RawIsMild(lines[1..]);
      NoBracketIsMild(Gap(lines[1].indent));
      MildTwo(lines[0].text, Gap(lines[1].indent));
      MildTwo(lines[0].text + Gap(lines[1].indent), Raw(lines[1..]));
    }
  }

  lemma StructPiecesAreMild()
    ensures IsMild(StructOpen()) && IsMild(EnumOpen()) && IsMild(TensorOpen()) && IsMild("}")
    ensures IsMild(NameHead()) && IsMild(NameTail())
  {
  }

  lemma FieldsAreMild()
    ensures IsMild(Fields()) && IsMild(" " + FieldsTight() + " " + "}") && IsMild(ErrorExpr())
  {
  }

  lemma VariantPiecesAreMild()
    ensures IsMild(Variants() + "vec![") && IsMild("],")
    ensures IsMild("(\"Some\".to_string(),") && IsMild(" " + "Some(vec![IRType::String])),")
  {
  }

  lemma SomeIsMild()
    ensures IsMild(SomeVariant())
  {
    VariantPiecesAreMild();
    MildTwo("(\"Some\".to_string(),", " " + "Some(vec![IRType::String])),");
    Glue("(\"Some\".to_string(),", " ", "Some(vec![IRType::String])),");
  }

  lemma NoneIsMild()
    ensures IsMild(NoneVariant())
  {
    assert IsMild("(\"None\".to_string(),") && IsMild(" " + "None),");
    MildTwo("(\"None\".to_string(),", " " + "None),");
    Glue("(\"None\".to_string(),", " ", "None),");
  }

  lemma NoneFieldsAreMild()
    ensures IsMild("dims: None,") && IsMild("layout: None,") && IsMild("device: None,")
  {
  }

  lemma NameIsMild(name: string)
    requires '(' !in name
    ensures IsMild(NameHead() + name + NameTail())
  {
    StructPiecesAreMild();
    NoBracketIsMild(name);
    MildTwo(NameHead(), name);
    MildTwo(NameHead() + name, NameTail());
  }

  lemma MildThree(a: Line, b: Line, c: Line)
    requires IsMild(a.text) && IsMild(b.text) && IsMild(c.text)
    ensures AreMild([a, b, c])
  {
  }

  lemma MildFour(a: Line, b: Line, c: Line, d: Line)
    requires IsMild(a.text) && IsMild(b.text) && IsMild(c.text) && IsMild(d.text)
    ensures AreMild([a, b, c, d])
  {
  }

  lemma MildLists(a: seq<Line>, b: seq<Line>)
    requires AreMild(a) && AreMild(b)
    ensures AreMild(a + b)
  {
  }

  lemma CollectionIsMild(kind: string, args: string, indent: nat)
    requires IsRenderable(Collection(kind, args)) && '(' !in StructName(kind, args)
    ensures AreMild(RenderType(Collection(kind, args), indent))
  {
    var name := StructName(kind, args);
    StructPiecesAreMild();
    FieldsAreMild();
    NameIsMild(name);
    MildFour(Line(indent, StructOpen()), Line(indent + 4, NameHead() + name + NameTail()),
             Line(indent + 4, Fields()), Line(indent, "}"));
  }

  lemma OptionIsMild(indent: nat)
    ensures AreMild(RenderType(OptionString, indent))
  {
    var open, name := Line(indent, EnumOpen()), Line(indent + 4, NameHead() + "Option_string" + NameTail());
    var variants, some := Line(indent + 4, Variants() + "vec!["), Line(indent + 8, SomeVariant());
    var none, end, close := Line(indent + 8, NoneVariant()), Line(indent + 4, "],"), Line(indent, "}");
    StructPiecesAreMild();
    NameIsMild("Option_string");
    VariantPiecesAreMild();
    SomeIsMild();
    NoneIsMild();
    MildFour(open, name, variants, some);
    MildThree(none, end, close);
    MildLists([open, name, variants, some], [none, end, close]);
    assert [open, name, variants, some] + [none, end, close] == RenderType(OptionString, indent);
  }

  lemma DtypeIsMild(dtype: string)
    ensures IsMild(DtypeHead() + DtypeExpr(dtype) + DtypeTail())
  {
    var rest := DtypeExpr(dtype) + DtypeTail();
    assert rest[0] == 'I' && '(' !in rest;
    NoBracketIsMild(rest);
    MildCall("dtype: Box::new", rest);
    assert DtypeHead() == "dtype: Box::new" + "(";
    Glue(DtypeHead(), DtypeExpr(dtype), DtypeTail());
  }

  lemma RankIsMild(rank: Option<string>)
    requires rank.Some? ==> IsDigits(rank.value)
    ensures IsMild(RankHead() + RankExpr(rank) + ",")
  {
    if rank.Some? {
      var d := rank.value + "),";
      NoBracketIsMild(d);
      MildCall("rank: Some", d);
      RankCut(rank.value);
    } else {
      NoBracketIsMild(RankHead() + RankExpr(rank) + ",");
    }
  }

  lemma RankCut(d: string)
    ensures "rank: Some" + "(" + (d + "),") == RankHead() + ("Some(" + d + ")") + ","
  {
    assert "rank: Some" + "(" == RankHead() + "Some(" && ")," == ")" + ",";
  }

  lemma TensorIsMild(dtype: string, rank: Option<string>, indent: nat)
    requires IsRenderable(Tensor(dtype, rank))
    ensures AreMild(RenderType(Tensor(dtype, rank), indent))
  {
    var open, box := Line(indent, TensorOpen()), Line(indent + 4, DtypeHead() + DtypeExpr(dtype) + DtypeTail());
    var ranked := Line(indent + 4, RankHead() + RankExpr(rank) + ",");
    StructPiecesAreMild();
    NoneFieldsAreMild();
    DtypeIsMild(dtype);
    RankIsMild(rank);
    MildThree(open, box, ranked);
    MildFour(Line(indent + 4, "dims: None,"), Line(indent + 4, "layout: None,"), Line(indent + 4, "device: None,"),
             Line(indent, "}"));
    MildLists([open, box, ranked], NoneLines(indent));
    assert [open, box, ranked] + NoneLines(indent) == RenderType(Tensor(dtype, rank), indent);
  }

  lemma SimpleIsMild(name: string)
    requires SimpleIr(name).Some?
    ensures IsMild(SimpleIr(name).value)
  {
    if name == "BitSet" || name == "DisjointSet" {
      FlatStructIsMild(name);
      StructTextRegroup(StructOpen(), NameHead(), name, NameTail(), FieldsTight());
    } else {
      NoBracketIsMild(SimpleIr(name).value);
    }
  }

  lemma FlatStructIsMild(name: string)
    requires '(' !in name
    ensures IsMild(StructOpen() + " " + (NameHead() + name + NameTail()) + (" " + FieldsTight() + " " + "}"))
  {
    var front := StructOpen() + " ";
    StructPiecesAreMild();
    NameIsMild(name);
    FieldsAreMild();
    MildTwo(StructOpen(), " ");
    MildTwo(front, NameHead() + name + NameTail());
    MildTwo(front + (NameHead() + name + NameTail()), " " + FieldsTight() + " " + "}");
  }

  lemma StructTextRegroup(a: string, b: string, name: string, c: string, d: string)
    ensures a + " " + (b + name + c) + (" " + d + " " + "}") == a + " " + b + name + c + " " + d + " " + "}"
  {
  }

  /** A printed type starts with a letter. */
  lemma {:induction false} TypeStarts(t: IrType, indent: nat)
    requires IsRenderable(t)
    ensures var raw := Raw(RenderType(t, indent)); raw != [] && IsPlainChar(raw[0])
  {
    var lines := RenderType(t, indent);
    if t.ResultOf? {
      RawOfWrap(ResultCall(), RenderType(t.inner, indent), ")");
      assert Raw(lines)[0] == ResultCall()[0];
    } else {
      FirstTextStarts(t, indent);
      RawStarts(lines);
    }
  }

  lemma FirstTextStarts(t: IrType, indent: nat)
    requires IsRenderable(t) && !t.ResultOf?
    ensures var s := RenderType(t, indent)[0].text; s != [] && IsPlainChar(s[0])
  {
    if t.Simple? {
      SimpleStartsPlain(t.name);
    }
  }

  lemma SimpleStartsPlain(name: string)
    requires SimpleIr(name).Some?
    ensures var s := SimpleIr(name).value; s != [] && IsPlainChar(s[0])
  {
    assert SimpleIr(name).value[0] == 'I';
  }

  lemma RawStarts(lines: seq<Line>)
    requires lines != [] && lines[0].text != []
    ensures Raw(lines) != [] && Raw(lines)[0] == lines[0].text[0]
  {
  }

  lemma ResultIsMild(inner: string)
    requires inner != [] && IsPlainChar(inner[0]) && IsMild(inner)
    ensures IsMild(ResultCall() + inner + ")")
  {
    NoBracketIsMild(")");
    MildTwo(inner, ")");
    MildCall("builtin_result_ir_type", inner + ")");
    assert ResultCall() == "builtin_result_ir_type" + "(";
    Glue(ResultCall(), inner, ")");
  }

  lemma {:induction false} TypeIsMild(t: IrType, indent: nat)
    requires IsRenderable(t) && HasPlainNames(t)
    ensures IsMild(Raw(RenderType(t, indent)))
  {
    var lines := RenderType(t, indent);
    match t
    case Simple(name) => SimpleIsMild(name);
    case ErrorType => FieldsAreMild();
    case ResultOf(inner) =>
      TypeIsMild(inner, indent);
      TypeStarts(inner, indent);
      RawOfWrap(ResultCall(), RenderType(inner, indent), ")");
      ResultIsMild(Raw(RenderType(inner, indent)));
    case OptionString => OptionIsMild(indent); RawIsMild(lines);
    case Collection(kind, args) =>
      QuietHasNoBracket(StructName(kind, args));
      CollectionIsMild(kind, args, indent);
      RawIsMild(lines);
    case Tensor(dtype, rank) => TensorIsMild(dtype, rank, indent); RawIsMild(lines);
  }

  lemma QuietHasNoBracket(s: string)
    requires IsQuiet(s)
    ensures '(' !in s
  {
    forall i | 0 <= i < |s| ensures s[i] != '(' {
      assert IsQuietChar(s[i]);
    }
  }

  // ----- the text behind an arm's head -----

  /** The text of an arm behind its arrow. */
  function BodyText(name: (string, string), lines: seq<Line>): string
    requires lines != [] && |Raw(lines)| >= |Head(name)| + 3
  {
    Raw(lines)[|Head(name)| + 3..]
  }

  /** A quoted path in brackets of its own is no head. */
  lemma QuotedFails(p: Pattern, path: string, c: char, rest: string)
    requires IsArmPattern(p) && IsPath(path) && !IsSpace(c) && c != ','
    ensures Try(p, ['('] + (['"'] + (path + (['"'] + ([c] + rest))))) == Fails
  {
    var behind := ['"'] + ([c] + rest);
    TwoMarks('(', '"', Word(true, BehindModule()), path + behind);
    MarkStep('"', BehindModule().next, [c] + rest);
    NoWhiteStep(BehindModule().next.next, [c] + rest);
    PathFails(path, behind);
  }

  lemma {:induction false} SpacesRun(ws: string, s: string)
    requires AreSpaces(ws) && s != [] && !IsSpace(s[0])
    ensures SpaceRun(ws + s) == |ws|
  {
    if ws == [] {
      assert ws + s == s;
    } else {
      assert (ws + s)[1..] == ws[1..] + s;
      SpacesRun(ws[1..], s);
    }
  }

  lemma WhiteStep(next: Pattern, ws: string, s: string)
    requires AreSpaces(ws) && s != [] && !IsSpace(s[0])
    ensures Try(White(next), ws + s) == Shift(|ws|, [], Try(next, s))
  {
    SpacesRun(ws, s);
    assert (ws + s)[|ws|..] == s;
  }

  /** A quoted path, a comma and a closing bracket on lines of their own are no head. */
  lemma TallQuotedFails(p: Pattern, m: nat, path: string, n: nat, rest: string)
    requires IsArmPattern(p) && IsPath(path)
    ensures Try(p, ['('] + (Gap(m) + (['"'] + (path + (['"'] + ([','] + (Gap(n) + ([')'] + rest)))))))) == Fails
  {
    var behind := ['"'] + ([','] + (Gap(n) + ([')'] + rest)));
    TallBehindFails(n, rest);
    PathFails(path, behind);
    OnNextLine(m, Word(true, BehindModule()), path + behind);
  }

  lemma OnNextLine(m: nat, word: Pattern, s: string)
    ensures Try(Mark('(', White(Mark('"', word))), ['('] + (Gap(m) + (['"'] + s)))
         == Shift(|Gap(m)| + 2, [], Try(word, s))
  {
    var quoted := ['"'] + s;
    MarkStep('(', White(Mark('"', word)), Gap(m) + quoted);
    GapIsSpace(m);
    WhiteStep(Mark('"', word), Gap(m), quoted);
    MarkStep('"', word, s);
    ShiftTwice(|Gap(m)|, 1, Try(word, s));
    ShiftTwice(1, |Gap(m)| + 1, Try(word, s));
  }

  lemma PathFails(path: string, behind: string)
    requires IsPath(path) && behind != [] && behind[0] == '"' && Try(BehindModule(), behind) == Fails
    ensures Try(Word(true, BehindModule()), path + behind) == Fails
  {
    if AllWord(path, true) {
      WordStep(true, BehindModule(), path, behind);
    } else {
      OddWordFails(true, BehindModule().next, path, behind);
    }
  }

  lemma TallBehindFails(n: nat, rest: string)
    ensures Try(BehindModule(), ['"'] + ([','] + (Gap(n) + ([')'] + rest)))) == Fails
  {
    var quote, close := Mark('"', Word(false, BehindName())), [')'] + rest;
    TwoMarks('"', ',', White(quote), Gap(n) + close);
    GapIsSpace(n);
    WhiteStep(quote, Gap(n), close);
  }

  lemma HelperSkips(p: Pattern, pre: string, style: string, post: string)
    requires IsArmPattern(p) && IsAround(pre) && IsAround(post) && style != [] && AllIdent(style)
    requires Try(p, ['('] + post) == Fails
    ensures Skips(p, HelperText(pre, style, post))
  {
    var front := pre + "Some" + "(" + style;
    NoBracketIsMild(style);
    assert IsIdent(style[0]);
    MildCall(pre + "Some", style);
    MildSkips(p, front);
    NoBracketIsMild(post);
    MildSkips(p, post);
    assert (['('] + post)[1..] == post;
    ArmIsFirmPair();
    SkipsTwo(p, front, ['('] + post);
    HelperRegroup(pre, style, post);
  }

  lemma HelperRegroup(pre: string, style: string, post: string)
    ensures pre + "Some" + "(" + style + (['('] + post) == HelperText(pre, style, post)
  {
    assert "Some" + "(" == "Some(" && ['('] == "(";
  }

  /** No arm starts behind the head of these lines. */
  predicate BodySkips(p: Pattern, name: (string, string), lines: seq<Line>) {
    lines != [] && |Raw(lines)| >= |Head(name)| + 3 && Skips(p, BodyText(name, lines) + "\n")
  }

  lemma BreakSkips(p: Pattern, s: string)
    requires IsArmPattern(p) && Skips(p, s)
    ensures Skips(p, s + "\n")
  {
    ArmIsFirmPair();
    MildSkips(p, "\n");
    SkipsTwo(p, s, "\n");
  }

  lemma BodyOf(p: Pattern, name: (string, string), lines: seq<Line>, text: string)
    requires lines != [] && |Raw(lines)| >= |Head(name)| + 3 && ArmBody(name, lines, "") == text + "\n" + ""
    requires IsArmPattern(p) && Skips(p, text)
    ensures BodySkips(p, name, lines)
  {
    assert text + "\n" + "" == text + "\n";
    assert ArmBody(name, lines, "") == BodyText(name, lines) + "\n";
    BreakSkips(p, text);
  }

  lemma WideSkips(p: Pattern, name: (string, string), style: string, path: string)
    requires IsArmPattern(p) && IsPath(path) && IsHelperName(style)
    ensures BodySkips(p, name, [Line(8, Head(name) + " => Some(" + Call(style, Quoted(path)) + "),")])
  {
    var post := Quoted(path) + ")" + "),";
    QuotedFails(p, path, ')', "),");
    WideTextRegroup(path);
    PathIsAround(path);
    AroundPieces(Quoted(path));
    HelperSkips(p, " ", style, post);
    WideArm(name, style, Quoted(path), "");
    BodyOf(p, name, [Line(8, Head(name) + " => Some(" + Call(style, Quoted(path)) + "),")],
           HelperText(" ", style, post));
  }

  lemma WideTextRegroup(path: string)
    ensures ['('] + (['"'] + (path + (['"'] + ([')'] + "),")))) == ['('] + (Quoted(path) + ")" + "),")
  {
  }

  lemma BracedSkips(p: Pattern, name: (string, string), style: string, path: string)
    requires IsArmPattern(p) && IsPath(path) && IsHelperName(style)
    ensures BodySkips(p, name, [Line(8, Head(name) + " => {"), Line(12, "Some(" + Call(style, Quoted(path)) + ")"),
                                Line(8, "}")])
  {
    var post := Quoted(path) + ")" + ")" + Gap(8) + "}";
    QuotedFails(p, path, ')', ")" + Gap(8) + "}");
    BracedRegroup(path, Gap(8));
    PathIsAround(path);
    AroundPieces(Quoted(path));
    HelperSkips(p, " {" + Gap(12), style, post);
    BracedArm(name, style, Quoted(path), "");
    BodyOf(p, name, [Line(8, Head(name) + " => {"), Line(12, "Some(" + Call(style, Quoted(path)) + ")"), Line(8, "}")],
           HelperText(" {" + Gap(12), style, post));
  }

  lemma BracedRegroup(path: string, g: string)
    ensures ['('] + (['"'] + (path + (['"'] + ([')'] + (")" + g + "}")))))
         == ['('] + (Quoted(path) + ")" + ")" + g + "}")
  {
  }

  lemma TallSkips(p: Pattern, name: (string, string), style: string, path: string)
    requires IsArmPattern(p) && IsPath(path) && IsHelperName(style)
    ensures BodySkips(p, name, [Line(8, Head(name) + " => Some(" + style + "("), Line(12, Quoted(path) + ","),
                                Line(8, ")),")])
  {
    var post := Gap(12) + Quoted(path) + "," + Gap(8) + ")),";
    TallQuotedFails(p, 12, path, 8, "),");
    TallRegroup(Gap(12), path, Gap(8));
    PathIsAround(path);
    AroundPieces(Quoted(path));
    HelperSkips(p, " ", style, post);
    TallArm(name, style, Quoted(path), "");
    BodyOf(p, name, [Line(8, Head(name) + " => Some(" + style + "("), Line(12, Quoted(path) + ","), Line(8, ")),")],
           HelperText(" ", style, post));
  }

  lemma TallRegroup(g: string, path: string, h: string)
    ensures ['('] + (g + (['"'] + (path + (['"'] + ([','] + (h + ([')'] + "),")))))))
         == ['('] + (g + Quoted(path) + "," + h + ")),")
  {
    assert "))," == [')'] + "),";
  }

  lemma HelperBodySkips(p: Pattern, name: (string, string), style: string, path: string)
    requires IsArmPattern(p) && IsPath(path) && IsHelperName(style)
    ensures BodySkips(p, name, HelperArm(name, style, Quoted(path)))
  {
    WideSkips(p, name, style, path);
    BracedSkips(p, name, style, path);
    TallSkips(p, name, style, path);
  }

  // ----- struct arms -----

  lemma BeforeKeyIsMild(runtime: string)
    requires IsRuntime(runtime)
    ensures IsMild(BeforeKey(runtime) + TypeKey() + " ")
  {
    var rest := "HostFunctionDescriptor {" + Gap(12) + ("runtime_name: " + runtime + ",") + Gap(12) + TypeKey() + " ";
    assert '(' !in runtime;
    assert '(' !in "HostFunctionDescriptor {" && '(' !in TypeKey();
    assert rest[0] == 'H';
    NoBracketIsMild(rest);
    MildCall(" Some", rest);
    KeyRegroup(Gap(12), "runtime_name: " + runtime + ",");
  }

  lemma KeyRegroup(g: string, r: string)
    ensures " Some" + "(" + ("HostFunctionDescriptor {" + g + r + g + TypeKey() + " ")
         == Opening() + g + r + g + TypeKey() + " "
  {
    assert Opening() == " Some" + "(" + "HostFunctionDescriptor {";
  }

  lemma AfterTypeIsMild(flag: bool)
    ensures IsMild("," + AfterType(flag, ""))
  {
    assert '(' !in FlagKey() && '(' !in FlagText(flag) && '(' !in ("," + Gap(8) + "})," + "\n" + "");
    assert '(' !in (" " + FlagText(flag) + ("," + Gap(8) + "})," + "\n" + ""));
    NoBracketIsMild("," + AfterType(flag, ""));
  }

  lemma StructBodySkips(p: Pattern, name: (string, string), runtime: string, t: IrType, flag: bool)
    requires IsArmPattern(p) && IsRuntime(runtime) && IsRenderable(t) && HasPlainNames(t)
    ensures BodySkips(p, name, StructArm(name, runtime, RenderType(t, 12), flag))
  {
    var raw := Raw(RenderType(t, 12));
    var front, back := BeforeKey(runtime) + TypeKey() + " ", "," + AfterType(flag, "");
    StartsAtIndent(t, 12);
    StructBody(name, runtime, RenderType(t, 12), flag, "");
    BeforeKeyIsMild(runtime);
    AfterTypeIsMild(flag);
    TypeIsMild(t, 12);
    MildTwo(front, raw);
    MildTwo(front + raw, back);
    MildSkips(p, front + raw + back);
    StructCut(BeforeKey(runtime) + TypeKey(), raw, back);
    WithoutRest(name, StructArm(name, runtime, RenderType(t, 12), flag));
  }

  lemma WithoutRest(name: (string, string), lines: seq<Line>)
    requires lines != [] && |Raw(lines)| >= |Head(name)| + 3
    ensures ArmBody(name, lines, "") == BodyText(name, lines) + "\n"
  {
  }

  lemma StructCut(a: string, raw: string, back: string)
    ensures a + " " + raw + back == a + (" " + (raw + back))
  {
  }

  /** No arm starts behind the head of an emitted arm. */
  lemma EmittedBodySkips(p: Pattern, e: Entry, style: string, names: Names)
    requires IsArmPattern(p) && IsEntry(e, names) && EmitArm(e, style, names).Some?
    requires style == STRUCT ==> HasPlainNames(Classify(e.irReturn).value)
    ensures BodySkips(p, e.name, EmitArm(e, style, names).value)
  {
    RuntimeIsPlain(e, style, names);
    if style == STRUCT {
      ClassifiedText(e.irReturn);
      StructBodySkips(p, e.name, RuntimeExpression(e, style, names), Classify(e.irReturn).value, e.returnsValue);
    } else {
      var h := FindHelper(style, HELPERS).value;
      SameTables(h);
      HelperNames(h);
      HelperBodySkips(p, e.name, style, if e.name in names.aliases then names.aliases[e.name] else e.binding);
    }
  }

  lemma HeadAndArrow(h: string, s: string)
    ensures StartsWith(h + (" =>" + s), h + " =>")
  {
    Glue(h, " =>", s);
    AppendStarts(h + " =>", s);
  }

  lemma HelperHead(name: (string, string), style: string, runtime: string)
    ensures var lines := HelperArm(name, style, runtime);
            lines != [] && lines[0].indent == 8 && StartsWith(lines[0].text, Head(name) + " =>")
  {
    HeadAndArrow(Head(name), " Some(" + Call(style, runtime) + "),");
    HeadAndArrow(Head(name), " Some(" + style + "(");
    HeadAndArrow(Head(name), " {");
    ArrowRegroup(Head(name), Call(style, runtime), "),");
    ArrowRegroup(Head(name), style, "(");
    assert " => {" == " =>" + " {";
  }

  lemma ArrowRegroup(h: string, s: string, t: string)
    ensures h + " => Some(" + s + t == h + (" =>" + (" Some(" + s + t))
  {
    assert " => Some(" == " =>" + " Some(";
  }

  /** An emitted arm starts with its head and the arrow. */
  lemma EmittedHead(e: Entry, style: string, names: Names)
    requires EmitArm(e, style, names).Some?
    ensures var lines := EmitArm(e, style, names).value;
            lines != [] && lines[0].indent == 8 && StartsWith(lines[0].text, Head(e.name) + " =>")
  {
    if style == STRUCT {
      HeadAndArrow(Head(e.name), Opening());
    } else {
      HelperHead(e.name, style, RuntimeExpression(e, style, names));
    }
  }
}
