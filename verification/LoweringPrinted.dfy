/** What the table generator prints, spelled out line by line. */
module LoweringPrinted {
  import opened Wrappers
  import opened LoweringText
  import opened LoweringTypes
  import opened LoweringExpressions
  import opened LoweringArms
  import opened LoweringLayout
  import opened LoweringArmRoundTrip
  import opened LoweringHelperArms
  import opened LoweringSymbols

  // ----- types -----

  /** The lines of an expression, printed behind `indent` blanks. */
  predicate Prints(t: IrType, indent: nat, texts: seq<string>)
    requires IsRenderable(t)
  {
    |RenderType(t, indent)| == |texts|
    && forall i :: 0 <= i < |texts| ==> LineText(RenderType(t, indent)[i]) == Spaces(indent) + texts[i]
  }

  lemma DeeperIndent(n: nat, k: nat, s: string)
    ensures Spaces(n + k) + s == Spaces(n) + (Spaces(k) + s)
  {
  }

  lemma ScalarTypes(indent: nat)
    ensures Prints(Simple("int"), indent, ["IRType::Int"]) && Prints(Simple("bool"), indent, ["IRType::Bool"])
    ensures Prints(Simple("string"), indent, ["IRType::String"]) && Prints(Simple("float"), indent, ["IRType::Float"])
    ensures Prints(Simple("void"), indent, ["IRType::Void"])
    ensures Prints(Simple("unknown"), indent, ["IRType::Unknown"]) && Prints(Simple("range"), indent, ["IRType::Range"])
    ensures Prints(ErrorType, indent, ["builtin_error_ir_type()"])
  {
  }

  lemma FlatStructs(indent: nat, name: string)
    requires name == "BitSet" || name == "DisjointSet"
    ensures Prints(Simple(name), indent,
                   ["IRType::Struct { name: \"" + name + "\".to_string(), fields: Vec::new() }"])
  {
    FlatHead();
    FlatTail();
    FlatText(StructOpen(), NameHead(), name, NameTail(), FieldsTight());
  }

  lemma FlatHead()
    ensures StructOpen() + " " + NameHead() == "IRType::Struct { name: \""
  {
  }

  lemma FlatTail()
    ensures NameTail() + " " + FieldsTight() + " " + "}" == "\".to_string(), fields: Vec::new() }"
  {
  }

  lemma FlatText(a: string, b: string, name: string, c: string, d: string)
    ensures a + " " + b + name + c + " " + d + " " + "}" == (a + " " + b) + name + (c + " " + d + " " + "}")
  {
  }

  lemma CollectionType(kind: string, args: string, indent: nat)
    requires IsRenderable(Collection(kind, args))
    ensures Prints(Collection(kind, args), indent,
                   ["IRType::Struct {",
                    "    name: \"" + StructName(kind, args) + "\".to_string(),",
                    "    fields: Vec::new(),",
                    "}"])
  {
    DeeperIndent(indent, 4, NameHead() + StructName(kind, args) + NameTail());
    DeeperIndent(indent, 4, Fields());
    NameText(StructName(kind, args));
    FieldsText();
  }

  lemma NameText(name: string)
    ensures Spaces(4) + (NameHead() + name + NameTail()) == "    name: \"" + name + "\".to_string(),"
  {
    FourSpaces();
    assert "    " + NameHead() == "    name: \"";
    NameParts("    ", NameHead(), name, NameTail());
  }

  lemma NameParts(a: string, b: string, name: string, c: string)
    ensures a + (b + name + c) == (a + b) + name + c
  {
  }

  lemma FieldsText()
    ensures Spaces(4) + Fields() == "    fields: Vec::new(),"
  {
    FourSpaces();
  }

  lemma OptionType(indent: nat)
    ensures Prints(OptionString, indent,
                   ["IRType::Enum {",
                    "    name: \"Option_string\".to_string(),",
                    "    variants: vec![",
                    "        " + ("(\"Some\".to_string()," + " " + "Some(vec![IRType::String])),"),
                    "        " + ("(\"None\".to_string()," + " " + "None),"),
                    "    ],",
                    "}"])
  {
    var name := NameHead() + "Option_string" + NameTail();
    DeeperIndent(indent, 4, name);
    DeeperIndent(indent, 4, Variants() + "vec![");
    DeeperIndent(indent, 8, SomeVariant());
    DeeperIndent(indent, 8, NoneVariant());
    DeeperIndent(indent, 4, "],");
    OptionTexts();
  }

  lemma OptionTexts()
    ensures Spaces(4) + (NameHead() + "Option_string" + NameTail()) == "    name: \"Option_string\".to_string(),"
    ensures Spaces(4) + (Variants() + "vec![") == "    variants: vec![" && Spaces(4) + "]," == "    ],"
    ensures Spaces(8) + SomeVariant() == "        " + ("(\"Some\".to_string()," + " " + "Some(vec![IRType::String])),")
    ensures Spaces(8) + NoneVariant() == "        " + ("(\"None\".to_string()," + " " + "None),")
  {
    FourSpaces();
    OptionName();
  }

  lemma FourSpaces()
    ensures Spaces(4) == "    " && Spaces(8) == "        "
  {
  }

  lemma OptionName()
    ensures Spaces(4) + (NameHead() + "Option_string" + NameTail()) == "    name: \"Option_string\".to_string(),"
    ensures Spaces(4) + (Variants() + "vec![") == "    variants: vec!["
    ensures Spaces(4) + "]," == "    ],"
  {
    FourSpaces();
  }

  lemma TensorType(dtype: string, rank: Option<string>, indent: nat)
    requires IsRenderable(Tensor(dtype, rank))
    ensures Prints(Tensor(dtype, rank), indent,
                   ["IRType::Tensor {",
                    "    dtype: Box::new(" + (if dtype == "float" then "IRType::Float" else "IRType::Int") + "),",
                    "    rank: " + (if rank.None? then "None" else "Some(" + rank.value + ")") + ",",
                    "    dims: None,",
                    "    layout: None,",
                    "    device: None,",
                    "}"])
  {
    TensorTexts(dtype, rank);
    TensorLines(dtype, rank, indent,
                "    dtype: Box::new(" + (if dtype == "float" then "IRType::Float" else "IRType::Int") + "),",
                "    rank: " + (if rank.None? then "None" else "Some(" + rank.value + ")") + ",",
                "    dims: None,", "    layout: None,", "    device: None,");
  }

  lemma TensorLines(dtype: string, rank: Option<string>, indent: nat, b: string, r: string, x: string, y: string,
                    z: string)
    requires IsRenderable(Tensor(dtype, rank)) && b == Spaces(4) + (DtypeHead() + DtypeExpr(dtype) + DtypeTail())
    requires r == Spaces(4) + (RankHead() + RankExpr(rank) + ",") && x == Spaces(4) + "dims: None,"
    requires y == Spaces(4) + "layout: None," && z == Spaces(4) + "device: None,"
    ensures Prints(Tensor(dtype, rank), indent, ["IRType::Tensor {", b, r, x, y, z, "}"])
  {
    DeeperIndent(indent, 4, DtypeHead() + DtypeExpr(dtype) + DtypeTail());
    DeeperIndent(indent, 4, RankHead() + RankExpr(rank) + ",");
    DeeperIndent(indent, 4, "dims: None,");
    DeeperIndent(indent, 4, "layout: None,");
    DeeperIndent(indent, 4, "device: None,");
  }

  lemma TensorTexts(dtype: string, rank: Option<string>)
    requires IsRenderable(Tensor(dtype, rank))
    ensures Spaces(4) + (DtypeHead() + DtypeExpr(dtype) + DtypeTail())
         == "    dtype: Box::new(" + (if dtype == "float" then "IRType::Float" else "IRType::Int") + "),"
    ensures Spaces(4) + (RankHead() + RankExpr(rank) + ",")
         == "    rank: " + (if rank.None? then "None" else "Some(" + rank.value + ")") + ","
    ensures Spaces(4) + "dims: None," == "    dims: None," && Spaces(4) + "layout: None," == "    layout: None,"
    ensures Spaces(4) + "device: None," == "    device: None,"
  {
    DtypeText(dtype);
    RankText(rank);
    NoneTexts();
  }

  lemma DtypeText(dtype: string)
    requires dtype == "float" || dtype == "int"
    ensures Spaces(4) + (DtypeHead() + DtypeExpr(dtype) + DtypeTail())
         == "    dtype: Box::new(" + (if dtype == "float" then "IRType::Float" else "IRType::Int") + "),"
  {
    FourSpaces();
    assert "    " + DtypeHead() == "    dtype: Box::new(";
    NameParts("    ", DtypeHead(), DtypeExpr(dtype), DtypeTail());
    assert "IRType::" + "Float" == "IRType::Float" && "IRType::" + "Int" == "IRType::Int";
  }

  lemma RankText(rank: Option<string>)
    ensures Spaces(4) + (RankHead() + RankExpr(rank) + ",")
         == "    rank: " + (if rank.None? then "None" else "Some(" + rank.value + ")") + ","
  {
    FourSpaces();
    assert "    " + RankHead() == "    rank: ";
    NameParts("    ", RankHead(), RankExpr(rank), ",");
  }

  lemma NoneTexts()
    ensures Spaces(4) + "dims: None," == "    dims: None," && Spaces(4) + "layout: None," == "    layout: None,"
    ensures Spaces(4) + "device: None," == "    device: None,"
  {
    FourSpaces();
  }

  /** `open` in front of the first line and `close` behind the last one. */
  function Enclosed(open: string, texts: seq<string>, close: string): seq<string>
    requires texts != []
  {
    if |texts| == 1 then [open + texts[0] + close]
    else [open + texts[0]] + texts[1..|texts| - 1] + [texts[|texts| - 1] + close]
  }

  lemma ResultType(inner: IrType, indent: nat, texts: seq<string>)
    requires IsRenderable(inner) && texts != [] && Prints(inner, indent, texts)
    ensures Prints(ResultOf(inner), indent, Enclosed("builtin_result_ir_type(", texts, ")"))
  {
    StartsAtIndent(inner, indent);
    WrappedLines("builtin_result_ir_type(", RenderType(inner, indent), ")", indent, texts);
  }

  lemma WrappedLines(open: string, lines: seq<Line>, close: string, indent: nat, texts: seq<string>)
    requires lines != [] && |lines| == |texts| && lines[0].indent == indent
    requires forall i :: 0 <= i < |texts| ==> LineText(lines[i]) == Spaces(indent) + texts[i]
    ensures var wrapped, all := Wrap(open, lines, close), Enclosed(open, texts, close);
            |wrapped| == |all| && forall i :: 0 <= i < |all| ==> LineText(wrapped[i]) == Spaces(indent) + all[i]
  {
    var n := |lines| - 1;
    SameText(lines[0], indent, texts[0]);
    ClosedLine(lines[n], indent, texts[n], close);
    if n == 0 {
      assert LineText(Line(indent, open + texts[0] + close)) == Spaces(indent) + (open + texts[0] + close);
    } else {
      var wrapped, all := Wrap(open, lines, close), Enclosed(open, texts, close);
      forall i | 0 <= i < |all| ensures LineText(wrapped[i]) == Spaces(indent) + all[i] {
        if 0 < i < n {
          assert wrapped[i] == lines[i] && all[i] == texts[i];
        }
      }
    }
  }

  lemma SameText(l: Line, indent: nat, text: string)
    requires l.indent == indent && LineText(l) == Spaces(indent) + text
    ensures l.text == text
  {
    assert LineText(l)[indent..] == l.text && (Spaces(indent) + text)[indent..] == text;
  }

  lemma ClosedLine(l: Line, indent: nat, text: string, close: string)
    requires LineText(l) == Spaces(indent) + text
    ensures LineText(l.(text := l.text + close)) == Spaces(indent) + (text + close)
  {
    assert LineText(l.(text := l.text + close)) == LineText(l) + close;
  }

  // ----- arms -----

  /** `("module", "function")` */
  function ArmHead(name: (string, string)): string {
    "(\"" + name.0 + "\", \"" + name.1 + "\")"
  }

  /** A helper arm takes one line if that has at most 100 columns; else three lines with the call in
      braces, if the call has at most 60 and its line at most 100 columns; else three lines with the
      argument on its own. */
  lemma HelperLines(e: Entry, style: string, names: Names)
    requires style != STRUCT && EmitArm(e, style, names).Some?
    ensures var call := style + "(\"" + HostSymbol(e, style, names) + "\")";
            var single := Spaces(8) + ArmHead(e.name) + " => Some(" + call + "),";
            var inner := Spaces(12) + "Some(" + call + ")";
            LineTexts(EmitArm(e, style, names).value)
            == if |single| <= 100 then [single]
               else if |inner| <= 100 && |call| <= 60 then
                 [Spaces(8) + ArmHead(e.name) + " => {", inner, Spaces(8) + "}"]
               else
                 [Spaces(8) + ArmHead(e.name) + " => Some(" + style + "(",
                  Spaces(12) + "\"" + HostSymbol(e, style, names) + "\",",
                  Spaces(8) + ")),"]
  {
    var symbol := HostSymbol(e, style, names);
    assert RuntimeExpression(e, style, names) == Quoted(symbol);
    CallText(style, symbol);
    ArmLines(e.name, style, symbol, style + "(\"" + symbol + "\")");
  }

  lemma ArmLines(name: (string, string), style: string, symbol: string, call: string)
    requires call == Call(style, Quoted(symbol))
    ensures var single := Spaces(8) + ArmHead(name) + " => Some(" + call + "),";
            var inner := Spaces(12) + "Some(" + call + ")";
            LineTexts(HelperArm(name, style, Quoted(symbol)))
            == if |single| <= 100 then [single]
               else if |inner| <= 100 && |call| <= 60 then
                 [Spaces(8) + ArmHead(name) + " => {", inner, Spaces(8) + "}"]
               else
                 [Spaces(8) + ArmHead(name) + " => Some(" + style + "(",
                  Spaces(12) + "\"" + symbol + "\",",
                  Spaces(8) + ")),"]
  {
    var h, single := ArmHead(name), Head(name) + " => Some(" + call + "),";
    Pieces3(Spaces(8), h, " => Some(", call);
    Pieces1(Spaces(12), "Some(", call);
    Pieces2(Spaces(8), h, " => {");
    Pieces3(Spaces(8), h, " => Some(", style);
    ArgumentText(symbol);
    var inner := "Some(" + call + ")";
    if 8 + |single| <= 100 {
      assert LineTexts([Line(8, single)]) == [Spaces(8) + single];
    } else if 12 + |inner| <= 100 && |call| <= 60 {
      assert LineTexts([Line(8, h + " => {"), Line(12, inner), Line(8, "}")])
          == [Spaces(8) + (h + " => {"), Spaces(12) + inner, Spaces(8) + "}"];
    } else {
      assert LineTexts([Line(8, h + " => Some(" + style + "("), Line(12, Quoted(symbol) + ","), Line(8, ")),")])
          == [Spaces(8) + (h + " => Some(" + style + "("), Spaces(12) + (Quoted(symbol) + ","), Spaces(8) + ")),"];
    }
  }

  lemma Pieces3(a: string, h: string, b: string, c: string)
    ensures a + h + b + c + ")," == a + (h + b + c + "),") && a + h + b + c + "(" == a + (h + b + c + "(")
  {
  }

  lemma Pieces2(a: string, h: string, b: string)
    ensures a + h + b == a + (h + b)
  {
  }

  lemma Pieces1(a: string, b: string, c: string)
    ensures a + b + c + ")" == a + (b + c + ")")
  {
  }

  lemma ArgumentText(symbol: string)
    ensures Spaces(12) + "\"" + symbol + "\"," == Spaces(12) + (Quoted(symbol) + ",")
  {
    assert "\"," == "\"" + ",";
  }

  lemma CallText(style: string, symbol: string)
    ensures Call(style, Quoted(symbol)) == style + "(\"" + symbol + "\")"
  {
    assert "(\"" == "(" + "\"" && "\")" == "\"" + ")";
  }

  /** Which helper stands for which return type and flag. */
  lemma HelperAccepts(e: Entry, style: string, names: Names)
    requires style != STRUCT
    ensures EmitArm(e, style, names).Some? <==>
              Helper(style, e.irReturn, e.returnsValue) in {
                Helper("host_int", "int", true), Helper("host_bool", "bool", true),
                Helper("host_string", "string", true), Helper("host_float", "float", true),
                Helper("host_void", "void", false), Helper("host_task_int", "Task<int>", true),
                Helper("host_task_bool", "Task<bool>", true), Helper("host_task_string", "Task<string>", true),
                Helper("host_tensor_dynamic", "Tensor<float>", true),
                Helper("host_tensor_rank0", "Tensor<float,rank=0>", true)}
  {
    var h := Helper(style, e.irReturn, e.returnsValue);
    ListedHelpers(h);
    AcceptsListed(e, style, names, h);
  }

  lemma AcceptsListed(e: Entry, style: string, names: Names, h: Helper)
    requires style != STRUCT && h == Helper(style, e.irReturn, e.returnsValue)
    ensures EmitArm(e, style, names).Some? <==> h in HELPERS
  {
    if h in HELPERS {
      FindsHelper(style, HELPERS, h);
      OneOfEach(FindHelper(style, HELPERS).value, h);
    }
  }

  lemma ListedHelpers(h: Helper)
    ensures h in HELPERS <==>
              h in {
                Helper("host_int", "int", true), Helper("host_bool", "bool", true),
                Helper("host_string", "string", true), Helper("host_float", "float", true),
                Helper("host_void", "void", false), Helper("host_task_int", "Task<int>", true),
                Helper("host_task_bool", "Task<bool>", true), Helper("host_task_string", "Task<string>", true),
                Helper("host_tensor_dynamic", "Tensor<float>", true),
                Helper("host_tensor_rank0", "Tensor<float,rank=0>", true)}
  {
  }

  lemma {:induction false} FindsHelper(style: string, helpers: seq<Helper>, h: Helper)
    requires h in helpers && h.name == style
    ensures FindHelper(style, helpers).Some?
  {
    if helpers[0].name != style {
      FindsHelper(style, helpers[1..], h);
    }
  }

  lemma OneOfEach(g: Helper, h: Helper)
    requires g in HELPERS && h in HELPERS && g.name == h.name
    ensures g == h
  {
    SameTables(g);
    SameTables(h);
    NameDetermines(g, h);
  }

  /** A function's own style: that of its marker; else, in files of struct arms, a struct arm; else the
      helper of its return type if it has a default one. */
  lemma DefaultStyleIs(fileStyle: string, e: Entry)
    ensures DefaultStyle(STRUCT, e) == "struct"
    ensures fileStyle != "struct" ==>
              DefaultStyle(fileStyle, e)
              == if e.irReturn in {"int", "bool", "string", "float", "void"} then "host_" + e.irReturn
                 else if e.irReturn == "Task<int>" then "host_task_int"
                 else if e.irReturn == "Task<bool>" then "host_task_bool"
                 else if e.irReturn == "Task<string>" then "host_task_string"
                 else "struct"
  {
    assert "host_" + "int" == "host_int" && "host_" + "bool" == "host_bool" && "host_" + "string" == "host_string";
    assert "host_" + "float" == "host_float" && "host_" + "void" == "host_void";
  }

  /** The text behind `runtime_name:`. */
  function RuntimeText(e: Entry, names: Names): string {
    if UsesConstant(e, STRUCT, names) then "spectra_contract::" + ConstantName(e.name)
    else "\"" + HostSymbol(e, STRUCT, names) + "\""
  }

  /** A struct arm: name, return type and flag, each behind twelve blanks. */
  lemma StructLines(e: Entry, names: Names, texts: seq<string>)
    requires Classify(e.irReturn).Some? && IsRenderable(Classify(e.irReturn).value) && texts != []
    requires Prints(Classify(e.irReturn).value, 12, texts)
    ensures EmitArm(e, STRUCT, names).Some?
    ensures var lines := LineTexts(EmitArm(e, STRUCT, names).value);
            var fields := Enclosed("return_type: ", texts, ",");
            && |lines| == |fields| + 4
            && lines[0] == Spaces(8) + ArmHead(e.name) + " => Some(HostFunctionDescriptor {"
            && lines[1] == Spaces(12) + "runtime_name: " + RuntimeText(e, names) + ","
            && (forall i :: 0 <= i < |fields| ==> lines[i + 2] == Spaces(12) + fields[i])
            && lines[|lines| - 2] == Spaces(12) + "returns_value: " + (if e.returnsValue then "true" else "false") + ","
            && lines[|lines| - 1] == Spaces(8) + "}),"
  {
    var t := Classify(e.irReturn).value;
    var typeLines := RenderType(t, 12);
    StartsAtIndent(t, 12);
    assert TypeKey() + " " == "return_type: ";
    WrappedLines("return_type: ", typeLines, ",", 12, texts);
    FieldTexts(e, names);
    StructParts(e.name, RuntimeExpression(e, STRUCT, names), typeLines, e.returnsValue,
                Wrap("return_type: ", typeLines, ","));
  }

  lemma StructParts(name: (string, string), runtime: string, typeLines: seq<Line>, flag: bool, block: seq<Line>)
    requires typeLines != [] && block == Wrap(TypeKey() + " ", typeLines, ",")
    ensures var lines := StructArm(name, runtime, typeLines, flag);
            && |lines| == |block| + 4
            && lines[0] == Line(8, Head(name) + (" =>" + Opening()))
            && lines[1] == Line(12, "runtime_name: " + runtime + ",")
            && (forall i :: 0 <= i < |block| ==> lines[i + 2] == block[i])
            && lines[|lines| - 2] == Line(12, FlagKey() + " " + FlagText(flag) + ",")
            && lines[|lines| - 1] == Line(8, "}),")
  {
  }

  lemma FieldTexts(e: Entry, names: Names)
    ensures LineText(Line(8, Head(e.name) + (" =>" + Opening())))
         == Spaces(8) + ArmHead(e.name) + " => Some(HostFunctionDescriptor {"
    ensures LineText(Line(12, "runtime_name: " + RuntimeExpression(e, STRUCT, names) + ","))
         == Spaces(12) + "runtime_name: " + RuntimeText(e, names) + ","
    ensures LineText(Line(12, FlagKey() + " " + FlagText(e.returnsValue) + ","))
         == Spaces(12) + "returns_value: " + (if e.returnsValue then "true" else "false") + ","
  {
    OpeningText();
    Pieces2(Spaces(8), Head(e.name), " => Some(HostFunctionDescriptor {");
    Pieces2(Spaces(12), "runtime_name: ", RuntimeText(e, names));
    Pieces4(Spaces(12), "runtime_name: ", RuntimeText(e, names));
    Pieces4(Spaces(12), "returns_value: ", FlagText(e.returnsValue));
  }

  lemma OpeningText()
    ensures " =>" + Opening() == " => Some(HostFunctionDescriptor {" && FlagKey() + " " == "returns_value: "
  {
  }

  lemma Pieces4(a: string, b: string, c: string)
    ensures a + b + c + "," == a + (b + c + ",")
  {
  }

  // ----- files -----

  /** The lines in front of the first arm: the header as comments, the import and the function. */
  lemma FileFront(t: Tables, tail: seq<string>)
    requires RenderFile(t, tail).Some?
    ensures var lines, n := RenderFile(t, tail).value, |t.layout.header|;
            && |lines| >= n + 8 + |tail|
            && (forall i :: 0 <= i < n ==> lines[i] == "//" + t.layout.header[i])
            && lines[n..n + 8] == ["", "use super::*;", "", "pub(crate) fn " + t.layout.lookup + "(",
                                   "    module: &str,", "    function: &str,",
                                   ") -> Option<HostFunctionDescriptor> {", "    match (module, function) {"]
            && lines[|lines| - |tail|..] == tail
  {
    var body := RenderGroups(t, t.layout.groups).value;
    var header := Commented(t.layout.header);
    FrontTexts();
    var front := ["", "use super::*;", "", "pub(crate) fn " + t.layout.lookup + "(", "    module: &str,",
                  "    function: &str,", ") -> Option<HostFunctionDescriptor> {", "    match (module, function) {"];
    assert Front(t.layout) + [MatchLine()] == header + front;
    FileParts(header, front, body, tail);
  }

  lemma FrontTexts()
    ensures Spaces(4) + "module: &str," == "    module: &str," && Spaces(4) + "function: &str," == "    function: &str,"
    ensures MatchLine() == "    match (module, function) {"
  {
    FourSpaces();
    MatchLineText();
  }

  lemma MatchLineText()
    ensures MatchLine() == "    match (module, function) {"
  {
    FourSpaces();
  }

  lemma FileParts(header: seq<string>, front: seq<string>, body: seq<string>, tail: seq<string>)
    ensures var lines, n := header + front + body + tail, |header|;
            && lines[n..n + |front|] == front && lines[|lines| - |tail|..] == tail
            && forall i :: 0 <= i < n ==> lines[i] == header[i]
  {
  }

  // ----- styles -----

  predicate Lists(g: Group, name: (string, string)) {
    g.namespace == Some(name.0) && exists i :: 0 <= i < |g.items| && g.items[i].name == name.1
  }

  lemma {:induction false} FindsFirst(name: string, a: seq<Item>, item: Item, b: seq<Item>)
    requires item.name == name && forall i :: 0 <= i < |a| ==> a[i].name != name
    ensures FindItem(name, a + [item] + b) == Some(item)
  {
    if a == [] {
      assert a + [item] + b == [item] + b;
    } else {
      assert (a + [item] + b)[1..] == a[1..] + [item] + b;
      FindsFirst(name, a[1..], item, b);
    }
  }

  lemma {:induction false} NoItem(name: string, items: seq<Item>)
    requires forall i :: 0 <= i < |items| ==> items[i].name != name
    ensures FindItem(name, items).None?
  {
    if items != [] {
      NoItem(name, items[1..]);
    }
  }

  /** The first listing of a function decides: its marker if it has one, else the default of the file. */
  lemma {:induction false} FirstListingDecides(before: seq<Group>, g: Group, after: seq<Group>, a: seq<Item>,
                                               item: Item, b: seq<Item>, fileStyle: string, catalog: Catalog,
                                               name: (string, string))
    requires forall i :: 0 <= i < |before| ==> !Lists(before[i], name)
    requires g.namespace == Some(name.0) && g.items == a + [item] + b && item.name == name.1
    requires forall i :: 0 <= i < |a| ==> a[i].name != name.1
    ensures ArmStyle(before + [g] + after, fileStyle, catalog, name)
         == if item.marker.Some? then item.marker
            else if name in catalog then Some(DefaultStyle(fileStyle, catalog[name])) else None
    decreases |before|
  {
    var groups := before + [g] + after;
    if before == [] {
      assert groups == [g] + after;
      FindsFirst(name.1, a, item, b);
    } else {
      assert groups[0] == before[0] && groups[1..] == before[1..] + [g] + after;
      assert !Lists(before[0], name);
      if before[0].namespace == Some(name.0) {
        NoItem(name.1, before[0].items);
      }
      FirstListingDecides(before[1..], g, after, a, item, b, fileStyle, catalog, name);
    }
  }

  /** A function that no group lists has no style. */
  lemma {:induction false} UnlistedHasNoStyle(groups: seq<Group>, fileStyle: string, catalog: Catalog,
                                              name: (string, string))
    requires forall i :: 0 <= i < |groups| ==> !Lists(groups[i], name)
    ensures ArmStyle(groups, fileStyle, catalog, name) == None
  {
    if groups != [] {
      assert !Lists(groups[0], name);
      if groups[0].namespace == Some(name.0) {
        NoItem(name.1, groups[0].items);
      }
      UnlistedHasNoStyle(groups[1..], fileStyle, catalog, name);
    }
  }
}
