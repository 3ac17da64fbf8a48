/** The layout reader tells the style of every emitted arm and takes exactly its lines. */
module LoweringArmStyles {
  import opened Wrappers
  import opened PythonText
  import opened LoweringText
  import opened LoweringTypes
  import opened LoweringExpressions
  import opened LoweringArms
  import opened LoweringBrackets
  import opened LoweringHelperArms
  import opened LoweringLayout
  import opened LoweringBlocks
  import opened LoweringArmBlocks

  // ----- searching a line -----

  /** No brace stands two characters behind an `r`. */
  predicate HasNoLiteral(s: string) {
    forall j :: 2 <= j < |s| && s[j] == '{' ==> s[j - 2] != 'r'
  }

  lemma LiteralShape()
    ensures |Literal()| == 24 && Literal()[23] == '{' && Literal()[21] == 'r'
  {
  }

  lemma {:induction false} NoLiteralOccurs(s: string)
    requires HasNoLiteral(s)
    ensures !Has(s, Literal())
  {
    LiteralShape();
    if |s| > 23 {
      if s[23] != '{' {
        OtherHead(s, Literal(), 23);
      } else {
        OtherHead(s, Literal(), 21);
      }
    }
    if s != [] {
      NoLiteralOccurs(s[1..]);
    }
  }

  /** No bracket stands behind an `e`. */
  predicate HasNoCall(s: string) {
    forall j :: 1 <= j < |s| && s[j] == '(' ==> s[j - 1] != 'e'
  }

  function CallKey(): string { "Some(host_" }

  lemma KeyShape()
    ensures |CallKey()| == 10 && CallKey()[4] == '(' && CallKey()[3] == 'e'
  {
  }

  lemma {:induction false} NoHelperIn(s: string)
    requires HasNoCall(s)
    ensures HelperIn(s) == None
  {
    KeyShape();
    if |s| > 4 {
      if s[4] != '(' {
        OtherHead(s, CallKey(), 4);
      } else {
        OtherHead(s, CallKey(), 3);
      }
    }
    if s != [] {
      NoHelperIn(s[1..]);
    }
  }

  /** A helper call as it stands on the line. */
  function Shown(style: string, post: string): string {
    "Some(" + (style + ("(" + post))
  }

  predicate IsStyle(style: string) {
    AllIdent(style) && |style| > 5 && StartsWith(style, "host_")
  }

  lemma ShownIsHere(style: string, post: string)
    requires IsStyle(style)
    ensures HelperHere(Shown(style, post)) == Some(style)
  {
    var s := Shown(style, post);
    assert style == "host_" + style[5..];
    assert s == CallKey() + (style[5..] + ("(" + post));
    AppendStarts(CallKey(), style[5..] + ("(" + post));
    IdentRunOfAppend(style, "(" + post);
    assert s[5..] == style + ("(" + post);
    assert s[5..5 + |style|] == style;
  }

  lemma {:induction false} ShownIsFound(pre: string, style: string, post: string)
    requires HasNoCall(pre) && IsStyle(style)
    ensures HelperIn(pre + Shown(style, post)) == Some(style)
  {
    var s := pre + Shown(style, post);
    if pre == [] {
      assert s == Shown(style, post);
      ShownIsHere(style, post);
    } else {
      NotYetShown(pre, style, post);
      assert s[1..] == pre[1..] + Shown(style, post);
      ShownIsFound(pre[1..], style, post);
    }
  }

  lemma NotYetShown(pre: string, style: string, post: string)
    requires HasNoCall(pre) && pre != []
    ensures HelperHere(pre + Shown(style, post)) == None
  {
    var s := pre + Shown(style, post);
    KeyShape();
    if |pre| <= 4 {
      assert s[4] == Shown(style, post)[4 - |pre|] == "Some("[4 - |pre|];
      OtherHead(s, CallKey(), 4);
    } else if pre[4] != '(' {
      OtherHead(s, CallKey(), 4);
    } else {
      OtherHead(s, CallKey(), 3);
    }
  }

  // ----- the styles of helper arms -----

  lemma HelperIsStyle(h: Helper)
    requires h in HELPERS
    ensures IsStyle(h.name)
  {
    ShortStyles();
    TaskStyles();
    TensorStyles();
  }

  lemma ShortStyles()
    ensures IsStyle("host_int") && IsStyle("host_float") && IsStyle("host_bool")
    ensures IsStyle("host_string") && IsStyle("host_void")
  {
    assert "host_int"[..5] == "host_" && "host_float"[..5] == "host_" && "host_bool"[..5] == "host_";
    assert "host_string"[..5] == "host_" && "host_void"[..5] == "host_";
  }

  lemma TaskStyles()
    ensures IsStyle("host_task_int") && IsStyle("host_task_bool") && IsStyle("host_task_string")
  {
    assert "host_task_int"[..5] == "host_" && "host_task_bool"[..5] == "host_" && "host_task_string"[..5] == "host_";
  }

  lemma TensorStyles()
    ensures IsStyle("host_tensor_rank0") && IsStyle("host_tensor_dynamic")
  {
    assert "host_tensor_rank0"[..5] == "host_" && "host_tensor_dynamic"[..5] == "host_";
  }

  /** Indentation and head hold no helper and no literal. */
  lemma FrontIsClean(indent: nat, name: (string, string), rest: string)
    requires IsName(name) && HasNoCall(rest) && HasNoLiteral(rest) && rest != [] && rest[0] == ' '
    requires |rest| > 1 ==> rest[1] != '{'
    ensures HasNoCall(Spaces(indent) + (Head(name) + rest)) && HasNoLiteral(Spaces(indent) + (Head(name) + rest))
  {
    HeadChars(name);
    var a, h := Spaces(indent), Head(name);
    var s := a + (h + rest);
    forall j | 1 <= j < |s| && s[j] == '(' ensures s[j - 1] != 'e' {
      if j >= |a| + |h| {
        assert s[j] == rest[j - |a| - |h|];
      } else if j >= |a| {
        assert s[j] == h[j - |a|];
      }
    }
    forall j | 2 <= j < |s| ensures s[j] == '{' ==> s[j - 2] != 'r' {
      if j >= |a| + |h| + 2 {
        assert s[j] == rest[j - |a| - |h|];
        assert s[j - 2] == rest[j - 2 - |a| - |h|];
      } else if j >= |a| + |h| {
        assert s[j] == rest[j - |a| - |h|];
      } else if j >= |a| {
        assert s[j] == h[j - |a|];
      }
    }
  }

  /** A head opens one bracket, at its start. */
  lemma HeadChars(name: (string, string))
    requires IsName(name)
    ensures Head(name)[0] == '(' && forall j :: 0 < j < |Head(name)| ==> Head(name)[j] != '(' && Head(name)[j] != '{'
  {
    forall j | 0 < j < |Head(name)| ensures Head(name)[j] != '(' && Head(name)[j] != '{' {
      HeadChar(name.0, name.1, j);
    }
  }

  lemma HeadChar(a: string, b: string, j: nat)
    requires IsPath(a) && AllIdent(b) && 0 < j < |"(\"" + a + "\", \"" + b + "\")"|
    ensures var h := "(\"" + a + "\", \"" + b + "\")"; h[j] != '(' && h[j] != '{'
  {
    var h := "(\"" + a + "\", \"" + b + "\")";
    if 2 <= j < |a| + 2 {
      assert h[j] == a[j - 2];
    } else if |a| + 6 <= j < |a| + 6 + |b| {
      assert h[j] == b[j - |a| - 6];
    }
  }

  lemma NoBraceGlue(a: string, b: string)
    requires HasNoLiteral(a) && '{' !in b
    ensures HasNoLiteral(a + b)
  {
  }

  lemma ShownHasNoBrace(style: string, post: string)
    requires AllIdent(style) && '{' !in post
    ensures '{' !in Shown(style, post)
  {
  }

  lemma ArrowIsClean()
    ensures HasNoCall(" => ") && HasNoLiteral(" => ") && HasNoCall(" => {") && HasNoLiteral(" => {")
  {
  }

  /** A first line that shows the helper. */
  lemma ShowingLine(name: (string, string), style: string, post: string)
    requires IsName(name) && IsStyle(style) && '{' !in post
    ensures var line := LineText(Line(8, Head(name) + (" => " + Shown(style, post))));
            HelperIn(line) == Some(style) && HasNoLiteral(line)
  {
    var pre := Spaces(8) + (Head(name) + " => ");
    ArrowIsClean();
    FrontIsClean(8, name, " => ");
    ShownIsFound(pre, style, post);
    ShownHasNoBrace(style, post);
    NoBraceGlue(pre, Shown(style, post));
    assert LineText(Line(8, Head(name) + (" => " + Shown(style, post)))) == pre + Shown(style, post);
  }

  lemma NoLiteralInOne(line: string)
    requires HasNoLiteral(line)
    ensures !OccursIn([line], Literal())
  {
    NoLiteralOccurs(line);
  }

  lemma NoLiteralInThree(a: string, b: string, c: string)
    requires HasNoLiteral(a) && HasNoLiteral(b) && HasNoLiteral(c)
    ensures !OccursIn([a, b, c], Literal())
  {
    NoLiteralOccurs(a);
    NoLiteralOccurs(b);
    NoLiteralOccurs(c);
    NotInOneMore([], c, Literal());
    NotInOneMore([c], b, Literal());
    NotInOneMore([b, c], a, Literal());
    assert [a, b, c] == [a] + [b, c] && [b, c] == [b] + [c] && [c] == [c] + [];
  }

  lemma NotInOneMore(lines: seq<string>, line: string, p: string)
    requires !Has(line, p) && !OccursIn(lines, p)
    ensures !OccursIn([line] + lines, p)
  {
    assert ([line] + lines)[1..] == lines;
  }

  lemma WideStyle(name: (string, string), style: string, runtime: string)
    requires IsName(name) && IsStyle(style) && '{' !in runtime
    ensures BlockStyle(LineTexts([Line(8, Head(name) + " => Some(" + Call(style, runtime) + "),")])) == Some(style)
  {
    var line := Line(8, Head(name) + " => Some(" + Call(style, runtime) + "),");
    ShowingLine(name, style, runtime + ")" + "),");
    WideShown(Head(name), style, runtime);
    NoLiteralInOne(LineText(line));
    assert LineTexts([line]) == [LineText(line)];
  }

  lemma WideShown(h: string, style: string, runtime: string)
    ensures h + " => Some(" + Call(style, runtime) + ")," == h + (" => " + Shown(style, runtime + ")" + "),"))
  {
    assert " => Some(" == " => " + "Some(";
  }

  lemma TallStyle(name: (string, string), style: string, runtime: string)
    requires IsName(name) && IsStyle(style) && '{' !in runtime
    ensures BlockStyle(LineTexts([Line(8, Head(name) + " => Some(" + style + "("), Line(12, runtime + ","),
                                  Line(8, ")),")]))
         == Some(style)
  {
    var a, b, c := Line(8, Head(name) + " => Some(" + style + "("), Line(12, runtime + ","), Line(8, ")),");
    ShowingLine(name, style, "");
    TallShown(Head(name), style);
    NoLiteralInThree(LineText(a), LineText(b), LineText(c));
    assert LineTexts([a, b, c]) == [LineText(a), LineText(b), LineText(c)];
  }

  lemma TallShown(h: string, style: string)
    ensures h + " => Some(" + style + "(" == h + (" => " + Shown(style, ""))
  {
    assert " => Some(" == " => " + "Some(";
  }

  lemma BracedStyle(name: (string, string), style: string, runtime: string)
    requires IsName(name) && IsStyle(style) && '{' !in runtime
    ensures BlockStyle(LineTexts([Line(8, Head(name) + " => {"), Line(12, "Some(" + Call(style, runtime) + ")"),
                                  Line(8, "}")]))
         == Some(style)
  {
    var a, b, c := Line(8, Head(name) + " => {"), Line(12, "Some(" + Call(style, runtime) + ")"), Line(8, "}");
    ArrowIsClean();
    FrontIsClean(8, name, " => {");
    NoHelperIn(LineText(a));
    BracedShown(style, runtime);
    ShownIsFound(Spaces(12), style, runtime + "))");
    ShownHasNoBrace(style, runtime + "))");
    NoBraceGlue(Spaces(12), Shown(style, runtime + "))"));
    NoLiteralInThree(LineText(a), LineText(b), LineText(c));
    SecondShows(LineText(a), LineText(b), LineText(c));
    assert LineTexts([a, b, c]) == [LineText(a), LineText(b), LineText(c)];
  }

  lemma BracedShown(style: string, runtime: string)
    ensures "Some(" + Call(style, runtime) + ")" == Shown(style, runtime + "))")
  {
    assert "))" == ")" + ")";
  }

  lemma SecondShows(a: string, b: string, c: string)
    requires HelperIn(a).None? && HelperIn(b).Some?
    ensures FirstHelper([a, b, c]) == HelperIn(b)
  {
    assert [a, b, c][1..] == [b, c];
  }

  // ----- the style of struct arms -----

  lemma StructStyle(name: (string, string), rest: seq<Line>)
    ensures BlockStyle(LineTexts([Line(8, Head(name) + (" =>" + Opening()))] + rest)) == Some(STRUCT)
  {
    var first := Line(8, Head(name) + (" =>" + Opening()));
    var texts := LineTexts([first] + rest);
    var pre := Spaces(8) + (Head(name) + " => Some(");
    assert Opening() == " Some(" + Literal();
    assert " =>" + " Some(" == " => Some(";
    assert texts[0] == pre + Literal();
    OccursBehind(pre, Literal());
  }

  lemma {:induction false} OccursBehind(pre: string, p: string)
    ensures Has(pre + p, p)
  {
    if pre == [] {
      assert pre + p == p && p[..|p|] == p;
    } else {
      assert (pre + p)[1..] == pre[1..] + p;
      OccursBehind(pre[1..], p);
    }
  }

  // ----- one arm -----

  /** An arm as the reader takes it: a block of code lines that starts with the head and shows
      the style. */
  predicate IsArm(lines: seq<Line>, name: (string, string), style: string) {
    && IsBlock(lines) && AreCode(lines)
    && ParseHead(lines[0].text) == Some(name)
    && lines[0].text[0] == '('
    && BlockStyle(LineTexts(lines)) == Some(style)
  }

  lemma WideIsArm(name: (string, string), style: string, runtime: string)
    requires IsName(name) && IsStyle(style) && HasNoBrackets(runtime)
    ensures IsArm([Line(8, Head(name) + " => Some(" + Call(style, runtime) + "),")], name, style)
  {
    PlainIdent(style);
    NoBraceInPlain(runtime);
    WideIsBlock(name, style, runtime);
    WideStyle(name, style, runtime);
    WideRegroup(Head(name), Call(style, runtime));
    var rest := " => Some" + "(" + Call(style, runtime) + ")" + ",";
    HeadIsParsed(name, rest);
    assert rest[|rest| - 1] == ',';
    FirstLineIsCode(name, rest);
  }

  lemma NoBraceInPlain(s: string)
    requires HasNoBrackets(s)
    ensures '{' !in s
  {
    forall i | 0 <= i < |s| ensures s[i] != '{' {
      assert Nest(s[i]) == 0;
    }
  }

  lemma BracedIsArm(name: (string, string), style: string, runtime: string)
    requires IsName(name) && IsStyle(style) && HasNoBrackets(runtime)
    ensures IsArm([Line(8, Head(name) + " => {"), Line(12, "Some(" + Call(style, runtime) + ")"), Line(8, "}")], name,
                  style)
  {
    PlainIdent(style);
    NoBraceInPlain(runtime);
    BracedIsBlock(name, style, runtime);
    BracedStyle(name, style, runtime);
    HeadIsParsed(name, " => {");
    FirstLineIsCode(name, " => {");
    ThreeAreCode(Line(8, Head(name) + " => {"), Line(12, "Some(" + Call(style, runtime) + ")"), Line(8, "}"));
  }

  lemma ThreeAreCode(a: Line, b: Line, c: Line)
    requires IsCode(a) && IsCode(b) && IsCode(c)
    ensures AreCode([a, b, c])
  {
  }

  lemma TallIsArm(name: (string, string), style: string, runtime: string)
    requires IsName(name) && IsStyle(style) && HasNoBrackets(runtime) && runtime != [] && runtime[0] == '"'
    ensures IsArm([Line(8, Head(name) + " => Some(" + style + "("), Line(12, runtime + ","), Line(8, ")),")], name,
                  style)
  {
    var rest := " => Some(" + (style + "(");
    PlainIdent(style);
    NoBraceInPlain(runtime);
    TallIsBlock(name, style, runtime);
    TallStyle(name, style, runtime);
    Glue(Head(name), " => Some(", style + "(");
    Glue(Head(name) + " => Some(", style, "(");
    HeadIsParsed(name, rest);
    TallIsCode(Line(8, Head(name) + rest), name, rest, runtime);
  }

  lemma TallIsCode(first: Line, name: (string, string), rest: string, runtime: string)
    requires first == Line(8, Head(name) + rest) && rest != [] && rest[|rest| - 1] == '('
    requires runtime != [] && runtime[0] == '"'
    ensures AreCode([first, Line(12, runtime + ","), Line(8, ")),")])
  {
    FirstLineIsCode(name, rest);
    CommaIsCode(Line(12, runtime + ","));
    CommaIsCode(Line(8, ")),"));
    ThreeAreCode(first, Line(12, runtime + ","), Line(8, ")),"));
  }

  lemma HelperIsArm(name: (string, string), h: Helper, runtime: string)
    requires IsName(name) && h in HELPERS && IsQuotedPath(runtime) && HasNoBrackets(runtime)
    ensures IsArm(HelperArm(name, h.name, runtime), name, h.name)
  {
    HelperIsStyle(h);
    HelperShapes(name, h.name, runtime);
    if |HelperArm(name, h.name, runtime)| == 1 {
      WideIsArm(name, h.name, runtime);
    } else if HelperArm(name, h.name, runtime)[2] == Line(8, "}") {
      BracedIsArm(name, h.name, runtime);
    } else {
      TallIsArm(name, h.name, runtime);
    }
  }

  lemma HelperShapes(name: (string, string), style: string, runtime: string)
    ensures var lines := HelperArm(name, style, runtime);
            || lines == [Line(8, Head(name) + " => Some(" + Call(style, runtime) + "),")]
            || (lines == [Line(8, Head(name) + " => {"), Line(12, "Some(" + Call(style, runtime) + ")"), Line(8, "}")]
                && |lines| == 3 && lines[2] == Line(8, "}"))
            || (lines == [Line(8, Head(name) + " => Some(" + style + "("), Line(12, runtime + ","), Line(8, ")),")]
                && |lines| == 3 && lines[2] != Line(8, "}"))
  {
  }

  lemma StructIsCode(name: (string, string), runtime: string, t: IrType, flag: bool)
    requires IsRenderable(t)
    ensures AreCode(StructArm(name, runtime, RenderType(t, 12), flag))
  {
    assert Opening()[|Opening()| - 1] == '{';
    FirstLineIsCode(name, " =>" + Opening());
    TypeBlockIsCode(t);
    CommaIsCode(Line(12, "runtime_name: " + runtime + ","));
    CommaIsCode(Line(12, FlagKey() + " " + FlagText(flag) + ","));
    CommaIsCode(Line(8, "}),"));
  }

  lemma StructIsArm(name: (string, string), runtime: string, t: IrType, flag: bool)
    requires IsName(name) && HasNoBrackets(runtime) && IsRenderable(t) && HasPlainNames(t)
    ensures IsArm(StructArm(name, runtime, RenderType(t, 12), flag), name, STRUCT)
  {
    var lines := StructArm(name, runtime, RenderType(t, 12), flag);
    StructIsBlock(name, runtime, t, flag);
    StructIsCode(name, runtime, t, flag);
    HeadIsParsed(name, " =>" + Opening());
    StructStyle(name, lines[1..]);
    assert lines == [lines[0]] + lines[1..];
  }

  /** Types whose names hold no brackets, for the styles that print the type. */
  predicate PrintsPlainly(e: Entry, style: string) {
    style == STRUCT && Classify(e.irReturn).Some? ==> HasPlainNames(Classify(e.irReturn).value)
  }

  /** Every emitted arm is a block whose head and style are those it was printed with. */
  lemma EmittedIsArm(e: Entry, style: string, names: Names)
    requires IsEntry(e, names) && EmitArm(e, style, names).Some? && PrintsPlainly(e, style)
    ensures IsArm(EmitArm(e, style, names).value, e.name, style)
  {
    var runtime := RuntimeExpression(e, style, names);
    RuntimeIsPlain(e, style, names);
    PlainRuntime(runtime);
    if style == STRUCT {
      ClassifiedText(e.irReturn);
      StructIsArm(e.name, runtime, Classify(e.irReturn).value, e.returnsValue);
    } else {
      HelperRuntime(e, style, names);
      HelperIsArm(e.name, FindHelper(style, HELPERS).value, runtime);
    }
  }

  // ----- one turn of the scan -----

  /** The scan takes an arm as a whole and adds its name and style. */
  lemma ArmIsTaken(lines: seq<Line>, name: (string, string), style: string, rest: seq<string>, found: Found)
    requires IsArm(lines, name, style)
    ensures ScanTurn(LineTexts(lines) + rest, found) == Some(Turn(AddArm(found, name, style), |lines|))
  {
    var all := LineTexts(lines) + rest;
    assert all[0] == LineText(lines[0]);
    assert IsCode(lines[0]);
    CodeIsStripped(lines[0]);
    BlockIsTaken(lines, rest);
    assert all[..|lines|] == LineTexts(lines);
    OtherHead(lines[0].text, "//", 0);
  }
}
