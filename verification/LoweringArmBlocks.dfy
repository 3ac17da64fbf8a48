/** Every emitted arm is one block to the layout reader, with its own name and style. */
module LoweringArmBlocks {
  import opened Wrappers
  import opened PythonText
  import opened LoweringText
  import opened LoweringTypes
  import opened LoweringExpressions
  import opened LoweringTypeTheorems
  import opened LoweringTypeRoundTrip
  import opened LoweringArms
  import opened LoweringRawText
  import opened LoweringBrackets
  import opened LoweringLayout
  import opened LoweringBlocks

  // ----- bracket counts of the arm's own lines -----

  lemma PlainPath(s: string)
    requires IsPath(s)
    ensures HasNoBrackets(s)
  {
  }

  lemma PlainRuntime(s: string)
    requires IsRuntime(s)
    ensures HasNoBrackets(s)
  {
    forall i | 0 <= i < |s| ensures Nest(s[i]) == 0 {
      assert IsRuntimeChar(s[i]);
    }
  }

  lemma HeadDepth(name: (string, string), d: int)
    requires IsName(name)
    ensures Depth(Head(name), d) == d
  {
    PlainPath(name.0);
    PlainIdent(name.1);
    var inner := "\"" + name.0 + "\", \"" + name.1 + "\"";
    HeadPieces(name);
    assert HasNoBrackets(inner);
    PlainDepth(inner, d + 1);
    PairDepth("", inner, "", d);
  }

  lemma HeadPieces(name: (string, string))
    ensures Head(name) == "" + "(" + ("\"" + name.0 + "\", \"" + name.1 + "\"") + ")" + ""
  {
    assert "(\"" == "(" + "\"" && "\")" == "\"" + ")";
  }

  /** What follows the head decides the counter behind the first line. */
  lemma FirstLineDepth(name: (string, string), rest: string, d: int)
    requires IsName(name)
    ensures Depth(Head(name) + rest, d) == Depth(rest, d)
  {
    HeadDepth(name, d);
    DepthGlue(Head(name), rest, d);
  }

  lemma PlainArrow()
    ensures HasNoBrackets(" => Some") && HasNoBrackets("Some") && HasNoBrackets(" => ") && HasNoBrackets(",")
    ensures HasNoBrackets("HostFunctionDescriptor ")
  {
  }

  lemma CallDepth(style: string, runtime: string, d: int)
    requires HasNoBrackets(style) && HasNoBrackets(runtime)
    ensures Depth(Call(style, runtime), d) == d
  {
    PlainDepth(runtime, d + 1);
    PairDepth(style, runtime, "", d);
    assert style + "(" + runtime + ")" + "" == Call(style, runtime);
  }

  lemma WideIsBlock(name: (string, string), style: string, runtime: string)
    requires IsName(name) && HasNoBrackets(style) && HasNoBrackets(runtime)
    ensures IsBlock([Line(8, Head(name) + " => Some(" + Call(style, runtime) + "),")])
  {
    PlainArrow();
    CallDepth(style, runtime, 0 + 1);
    PairDepth(" => Some", Call(style, runtime), ",", 0);
    var rest := " => Some" + "(" + Call(style, runtime) + ")" + ",";
    FirstLineDepth(name, rest, 0);
    WideRegroup(Head(name), Call(style, runtime));
  }

  lemma WideRegroup(h: string, call: string)
    ensures h + " => Some(" + call + ")," == h + (" => Some" + "(" + call + ")" + ",")
  {
    assert " => Some(" == " => Some" + "(" && ")," == ")" + ",";
  }

  /** Three lines: one opens, one keeps, one closes. */
  lemma ThreeLines(a: Line, b: Line, c: Line, d: int)
    requires d > 0 && Depth(a.text, 0) == d && Depth(b.text, d) == d && Depth(c.text, d) == 0
    ensures IsBlock([a, b, c])
  {
    assert [a, b, c][1..2] == [b];
    OneAhead(b, d);
  }

  lemma BracedIsBlock(name: (string, string), style: string, runtime: string)
    requires IsName(name) && HasNoBrackets(style) && HasNoBrackets(runtime)
    ensures IsBlock([Line(8, Head(name) + " => {"), Line(12, "Some(" + Call(style, runtime) + ")"), Line(8, "}")])
  {
    PlainArrow();
    BracketDepth(" => ", '{', 0);
    assert " => {" == " => " + ['{'];
    FirstLineDepth(name, " => {", 0);
    CallDepth(style, runtime, 1 + 1);
    PairDepth("Some", Call(style, runtime), "", 1);
    assert "Some" + "(" + Call(style, runtime) + ")" + "" == "Some(" + Call(style, runtime) + ")";
    CloseDepth(1);
    ThreeLines(Line(8, Head(name) + " => {"), Line(12, "Some(" + Call(style, runtime) + ")"), Line(8, "}"), 1);
  }

  lemma TallIsBlock(name: (string, string), style: string, runtime: string)
    requires IsName(name) && HasNoBrackets(style) && HasNoBrackets(runtime)
    ensures IsBlock([Line(8, Head(name) + " => Some(" + style + "("), Line(12, runtime + ","), Line(8, ")),")])
  {
    TallOpens(name, style);
    PlainArrow();
    PlainGlue(runtime, ",");
    PlainDepth(runtime + ",", 2);
    TallCloses();
    ThreeLines(Line(8, Head(name) + " => Some(" + style + "("), Line(12, runtime + ","), Line(8, ")),"), 2);
  }

  lemma TallOpens(name: (string, string), style: string)
    requires IsName(name) && HasNoBrackets(style)
    ensures Depth(Head(name) + " => Some(" + style + "(", 0) == 2
  {
    PlainArrow();
    BracketDepth(" => Some", '(', 0);
    assert " => Some(" == " => Some" + ['('];
    BracketDepth(style, '(', 1);
    DepthGlue(" => Some(", style + "(", 0);
    FirstLineDepth(name, " => Some(" + (style + "("), 0);
    assert Head(name) + " => Some(" + style + "(" == Head(name) + (" => Some(" + (style + "("));
  }

  lemma TallCloses()
    ensures Depth(")),", 2) == 0
  {
    CloseDepth(2);
    CloseDepth(1);
    DepthGlue(")", ")", 2);
    PlainDepth(",", 0);
    DepthGlue("))", ",", 2);
    assert ")" + ")" == "))" && "))" + "," == ")),";
  }

  lemma StructOpens(name: (string, string))
    requires IsName(name)
    ensures Depth(Head(name) + (" =>" + Opening()), 0) == 2
  {
    PlainArrow();
    BracketDepth(" => Some", '(', 0);
    BracketDepth("HostFunctionDescriptor ", '{', 1);
    DepthGlue(" => Some" + ['('], "HostFunctionDescriptor " + ['{'], 0);
    FirstLineDepth(name, " =>" + Opening(), 0);
    OpeningPieces();
  }

  lemma OpeningPieces()
    ensures " =>" + Opening() == " => Some" + ['('] + ("HostFunctionDescriptor " + ['{'])
  {
  }

  lemma StructCloses()
    ensures Depth("}),", 2) == 0
  {
    CloseDepth(2);
    CloseDepth(1);
    DepthGlue("}", ")", 2);
    PlainDepth(",", 0);
    DepthGlue("})", ",", 2);
    assert "}" + ")" == "})" && "})" + "," == "}),";
  }

  lemma KeyShifts()
    ensures Shifts(TypeKey() + " ", 0) && Shifts(",", 0)
  {
    PlainKeys();
    forall d: int ensures Depth(TypeKey() + " ", d) == d && Depth(",", d) == d {
      PlainDepth(TypeKey() + " ", d);
      PlainDepth(",", d);
    }
  }

  lemma PlainKeys()
    ensures HasNoBrackets(TypeKey() + " ") && HasNoBrackets(",") && HasNoBrackets("runtime_name: ")
    ensures HasNoBrackets(FlagKey() + " " + "true" + ",") && HasNoBrackets(FlagKey() + " " + "false" + ",")
  {
  }

  lemma StructIsBlock(name: (string, string), runtime: string, t: IrType, flag: bool)
    requires IsName(name) && HasNoBrackets(runtime) && IsRenderable(t) && HasPlainNames(t)
    ensures IsBlock(StructArm(name, runtime, RenderType(t, 12), flag))
  {
    var first, second := Line(8, Head(name) + (" =>" + Opening())), Line(12, "runtime_name: " + runtime + ",");
    var block := Wrap(TypeKey() + " ", RenderType(t, 12), ",");
    var third, last := Line(12, FlagKey() + " " + FlagText(flag) + ","), Line(8, "}),");
    StructOpens(name);
    PlainKeys();
    PlainGlue("runtime_name: ", runtime);
    PlainGlue("runtime_name: " + runtime, ",");
    PlainDepth(second.text, 2);
    OneAhead(second, 2);
    TypeAhead(t, 12, 2);
    KeyShifts();
    WrapAhead(TypeKey() + " ", RenderType(t, 12), ",", 0, 2);
    PlainDepth(third.text, 2);
    OneAhead(third, 2);
    AheadSplits([second], block, 2);
    AheadSplits([second] + block, [third], 2);
    StructCloses();
    FiveParts(first, second, block, third, last);
  }

  lemma FiveParts(first: Line, second: Line, block: seq<Line>, third: Line, last: Line)
    requires Depth(first.text, 0) == 2 && Ahead([second] + block + [third], 2) == Some(2) && Depth(last.text, 2) == 0
    ensures IsBlock([first, second] + block + [third, last])
  {
    var lines := [first, second] + block + [third, last];
    assert lines[1..|lines| - 1] == [second] + block + [third];
  }

  // ----- heads -----

  lemma {:induction false} PathRunOfAppend(a: string, r: string)
    requires forall i :: 0 <= i < |a| ==> IsPathChar(a[i])
    requires r != [] && !IsPathChar(r[0])
    ensures PathRun(a + r) == |a|
  {
    if a == [] {
      assert a + r == r;
    } else {
      assert (a + r)[1..] == a[1..] + r;
      PathRunOfAppend(a[1..], r);
    }
  }

  lemma HeadIsParsed(name: (string, string), rest: string)
    requires IsName(name)
    ensures ParseHead(Head(name) + rest) == Some(name)
  {
    var tail := name.1 + ("\")" + rest);
    var s := "(\"" + (name.0 + ("\", \"" + tail));
    HeadRegroup(name.0, name.1, rest);
    AppendStarts("(\"", name.0 + ("\", \"" + tail));
    PathRunOfAppend(name.0, "\", \"" + tail);
    AppendStarts("\", \"", tail);
    IdentRunOfAppend(name.1, "\")" + rest);
    AppendStarts("\")", rest);
    HeadCuts(name.0, tail);
    assert tail[..|name.1|] == name.1 && tail[|name.1|..] == "\")" + rest;
  }

  lemma HeadRegroup(a: string, b: string, rest: string)
    ensures "(\"" + a + "\", \"" + b + "\")" + rest == "(\"" + (a + ("\", \"" + (b + ("\")" + rest))))
  {
  }

  lemma HeadCuts(a: string, tail: string)
    ensures (a + ("\", \"" + tail))[..|a|] == a && (a + ("\", \"" + tail))[|a|..] == "\", \"" + tail
    ensures (a + ("\", \"" + tail))[|a| + 4..] == tail
  {
  }

  // ----- lines of code -----

  predicate IsCode(l: Line) {
    IsSolid(l.text) && l.text[0] != '_'
  }

  predicate AreCode(lines: seq<Line>) {
    forall i :: 0 <= i < |lines| ==> IsCode(lines[i])
  }

  lemma CodeIsStripped(l: Line)
    requires IsSolid(l.text)
    ensures Strip(LineText(l)) == l.text
  {
    StripLeftOfAppend(Spaces(l.indent), l.text);
    StripLeftOfSpaces(Spaces(l.indent));
    assert [] + l.text == l.text;
    StripSolid(l.text);
  }

  predicate StartPlain(lines: seq<Line>) {
    forall i :: 0 <= i < |lines| ==> lines[i].text != [] && lines[i].text[0] != '_'
  }

  lemma WrapStarts(open: string, inner: seq<Line>, close: string)
    requires inner != [] && StartPlain(inner) && open != [] && open[0] != '_'
    ensures StartPlain(Wrap(open, inner, close))
  {
  }

  lemma CallStartsPlain()
    ensures ResultCall() != [] && ResultCall()[0] != '_' && ErrorExpr() != [] && ErrorExpr()[0] != '_'
  {
  }

  lemma {:induction false} TypeStartsPlain(t: IrType, indent: nat)
    requires IsRenderable(t)
    ensures StartPlain(RenderType(t, indent))
  {
    match t
    case Simple(name) => SimpleStarts(name);
    case ErrorType => CallStartsPlain();
    case ResultOf(inner) =>
      TypeStartsPlain(inner, indent);
      CallStartsPlain();
      WrapStarts(ResultCall(), RenderType(inner, indent), ")");
    case OptionString => OptionStarts(indent);
    case Collection(kind, args) =>
      PieceStarts(StructName(kind, args));
    case Tensor(dtype, rank) => TensorStarts(dtype, rank, indent);
  }

  lemma SimpleStarts(name: string)
    requires SimpleIr(name).Some?
    ensures SimpleIr(name).value != [] && SimpleIr(name).value[0] == 'I'
  {
    if name == "BitSet" || name == "DisjointSet" {
      SimpleIsStruct(name);
      assert StructHead()[0] == 'I';
    }
  }

  lemma PieceStarts(name: string)
    ensures (NameHead() + name + NameTail())[0] == 'n' && StructOpen()[0] == 'I' && Fields()[0] == 'f'
    ensures EnumOpen()[0] == 'I' && Variants()[0] == 'v' && SomeVariant()[0] == '(' && NoneVariant()[0] == '('
  {
  }

  lemma OptionStarts(indent: nat)
    ensures StartPlain(RenderType(OptionString, indent))
  {
    PieceStarts("Option_string");
  }

  lemma TensorStarts(dtype: string, rank: Option<string>, indent: nat)
    requires IsRenderable(Tensor(dtype, rank))
    ensures StartPlain(RenderType(Tensor(dtype, rank), indent))
  {
    TensorPieceStarts();
  }

  lemma TensorPieceStarts()
    ensures TensorOpen()[0] == 'I' && DtypeHead()[0] == 'd' && RankHead()[0] == 'r'
  {
  }

  lemma FirstLineIsCode(name: (string, string), rest: string)
    requires IsSolid(rest) || (rest != [] && !IsSpace(rest[|rest| - 1]))
    ensures IsCode(Line(8, Head(name) + rest))
  {
    var s := Head(name) + rest;
    assert s[0] == '(' && s[|s| - 1] == rest[|rest| - 1];
  }

  lemma CommaIsCode(l: Line)
    requires l.text != [] && !IsSpace(l.text[0]) && l.text[0] != '_' && l.text[|l.text| - 1] == ','
    ensures IsCode(l)
  {
  }

  lemma TypeBlockIsCode(t: IrType)
    requires IsRenderable(t)
    ensures AreCode(Wrap(TypeKey() + " ", RenderType(t, 12), ","))
  {
    var inner := RenderType(t, 12);
    var lines := Wrap(TypeKey() + " ", inner, ",");
    TypeLinesAreSolid(t, 12);
    TypeStartsPlain(t, 12);
    forall i | 0 <= i < |lines| ensures IsCode(lines[i]) {
      WrapLineIsCode(TypeKey() + " ", inner, i);
    }
  }

  lemma WrapLineIsCode(key: string, inner: seq<Line>, i: nat)
    requires i < |inner| && IsCode(inner[i]) && key != [] && !IsSpace(key[0]) && key[0] != '_'
    ensures IsCode(Wrap(key, inner, ",")[i])
  {
    var l := Wrap(key, inner, ",")[i];
    var begun := if i == 0 then key + inner[i].text else inner[i].text;
    assert l.text == if i == |inner| - 1 then begun + "," else begun;
    assert l.text[0] == begun[0];
  }
}
