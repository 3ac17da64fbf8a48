/** Brackets and commas of printed type expressions: the reader's scan passes over a whole
    expression and stops at the comma behind it. */
module LoweringBrackets {
  import opened Wrappers
  import opened LoweringText
  import opened LoweringTypes
  import opened LoweringExpressions
  import opened LoweringTypeRoundTrip
  import opened LoweringDescriptors
  import opened LoweringRawText

  /** Struct names hold no brackets; commas they never hold. */
  predicate HasPlainNames(t: IrType) {
    match t
    case ResultOf(inner) => HasPlainNames(inner)
    case Collection(kind, args) => IsQuiet(StructName(kind, args))
    case _ => true
  }

  lemma QuietIdent(s: string)
    requires AllIdent(s)
    ensures IsQuiet(s)
  {
  }

  lemma QuietGlue(a: string, b: string)
    requires IsQuiet(a) && IsQuiet(b)
    ensures IsQuiet(a + b)
  {
  }

  lemma Opens(s: string, c: char, depth: int)
    requires IsQuiet(s) && Step(c) == 1
    ensures Runs(s + [c], depth) == Some(depth + 1)
  {
    QuietRuns(s, depth);
    Bracket(s, c, depth);
  }

  lemma Closes(c: char, depth: int)
    requires Step(c) == -1
    ensures Runs([c], depth) == Some(depth - 1)
  {
    Bracket("", c, depth);
    assert "" + [c] == [c];
  }

  /** A text between an opening and a closing bracket. */
  lemma Encloses(head: string, open: char, inner: string, close: char, depth: int)
    requires IsQuiet(head) && Step(open) == 1 && Step(close) == -1
    requires Runs(inner, depth + 1) == Some(depth + 1)
    ensures Runs(head + [open] + inner + [close], depth) == Some(depth)
  {
    Opens(head, open, depth);
    RunsOn(head + [open], inner, depth);
    Bracket(head + [open] + inner, close, depth);
  }

  lemma Follows(a: string, b: string, depth: int)
    requires Runs(a, depth) == Some(depth) && Runs(b, depth) == Some(depth)
    ensures Runs(a + b, depth) == Some(depth)
  {
    RunsOn(a, b, depth);
  }

  // ----- the lines of each kind of expression -----

  lemma NameLineRuns(name: string, depth: int)
    requires depth > 0 && IsQuiet(name)
    ensures Runs(NameHead() + name + NameTail(), depth) == Some(depth)
  {
    QuietGlue(NameHead(), name);
    QuietGlue(NameHead() + name, "\".to_string");
    var s := NameHead() + name + "\".to_string";
    EmptyCall(s, depth);
    Listed(s + "()", depth);
    assert NameTail() == "\".to_string" + ("()" + ",");
    assert s + "()" + "," == NameHead() + name + ("\".to_string" + ("()" + ","));
  }

  lemma FieldsRun(depth: int)
    ensures Runs(FieldsTight(), depth) == Some(depth)
    ensures depth > 0 ==> Runs(Fields(), depth) == Some(depth)
  {
    EmptyCall("fields: Vec::new", depth);
    assert FieldsTight() == "fields: Vec::new" + "()";
    if depth > 0 {
      Listed(FieldsTight(), depth);
      assert Fields() == FieldsTight() + ",";
    }
  }

  lemma OpeningsRun(depth: int)
    ensures Runs(StructOpen(), depth) == Some(depth + 1)
    ensures Runs(EnumOpen(), depth) == Some(depth + 1)
    ensures Runs(TensorOpen(), depth) == Some(depth + 1)
  {
    Opens("IRType::Struct ", '{', depth);
    Opens("IRType::Enum ", '{', depth);
    Opens("IRType::Tensor ", '{', depth);
    assert StructOpen() == "IRType::Struct " + ['{'];
    assert EnumOpen() == "IRType::Enum " + ['{'];
    assert TensorOpen() == "IRType::Tensor " + ['{'];
  }

  lemma LinesRun4(a: Line, b: Line, c: Line, d: Line, x: int)
    requires Runs(a.text, x) == Some(x + 1) && Runs(b.text, x + 1) == Some(x + 1)
    requires Runs(c.text, x + 1) == Some(x + 1) && Runs(d.text, x + 1) == Some(x)
    ensures LinesRun([a, b, c, d], x) == Some(x)
  {
    assert [a, b, c, d][1..] == [b, c, d] && [b, c, d][1..] == [c, d] && [c, d][1..] == [d] && [d][1..] == [];
    assert LinesRun([d], x + 1) == LinesRun([], x);
    assert LinesRun([c, d], x + 1) == LinesRun([d], x + 1);
    assert LinesRun([b, c, d], x + 1) == LinesRun([c, d], x + 1);
  }

  lemma FirstTwo(a: Line, b: Line, rest: seq<Line>, x: int)
    requires Runs(a.text, x) == Some(x + 1) && Runs(b.text, x + 1) == Some(x + 1)
    ensures LinesRun([a, b] + rest, x) == LinesRun(rest, x + 1)
  {
    assert ([a, b] + rest)[1..] == [b] + rest && ([b] + rest)[1..] == rest;
    assert LinesRun([b] + rest, x + 1) == LinesRun(rest, x + 1);
  }

  lemma CollectionRuns(kind: string, args: string, indent: nat, depth: int)
    requires IsRenderable(Collection(kind, args)) && depth >= 0 && IsQuiet(StructName(kind, args))
    ensures Runs(Raw(RenderType(Collection(kind, args), indent)), depth) == Some(depth)
  {
    var name := StructName(kind, args);
    OpeningsRun(depth);
    NameLineRuns(name, depth + 1);
    FieldsRun(depth + 1);
    Closes('}', depth + 1);
    LinesRun4(Line(indent, StructOpen()), Line(indent + 4, NameHead() + name + NameTail()),
              Line(indent + 4, Fields()), Line(indent, "}"), depth);
    RawRuns(RenderType(Collection(kind, args), indent), depth);
  }

  lemma VariantsRun(depth: int)
    requires depth > 0
    ensures Runs(Variants() + "vec![", depth) == Some(depth + 1)
    ensures Runs("],", depth + 1) == Some(depth)
  {
    assert Variants() + "vec![" == "variants: vec!" + "[";
    Opens("variants: vec!", '[', depth);
    Closes(']', depth + 1);
    RunsOn("]", ",", depth + 1);
    assert "]" + "," == "],";
  }

  lemma VariantStart(word: string, depth: int)
    requires depth > 0 && IsQuiet(word)
    ensures Runs("(" + word + "()" + ",", depth) == Some(depth + 1)
  {
    Opens("", '(', depth);
    assert "" + ['('] == "(";
    EmptyCall(word, depth + 1);
    RunsOn("(", word + "()", depth);
    RunsOn("(" + (word + "()"), ",", depth);
    assert "(" + (word + "()") + "," == "(" + word + "()" + ",";
  }

  lemma VariantEnd(payload: string, depth: int)
    requires depth > 0 && Runs(payload, depth + 1) == Some(depth + 1)
    ensures Runs(" " + payload + "),", depth + 1) == Some(depth)
  {
    QuietRuns(" ", depth + 1);
    RunsOn(" ", payload, depth + 1);
    Bracket(" " + payload, ')', depth + 1);
    RunsOn(" " + payload + ")", ",", depth + 1);
    assert " " + payload + ")" + "," == " " + payload + "),";
  }

  lemma PayloadRuns(a: string, b: string, c: string, depth: int)
    requires IsQuiet(a) && IsQuiet(b) && IsQuiet(c)
    ensures Runs(a + "(" + (b + "[" + c + "]") + ")", depth) == Some(depth)
  {
    QuietRuns(c, depth + 2);
    Encloses(b, '[', c, ']', depth + 1);
    Encloses(a, '(', b + "[" + c + "]", ')', depth);
  }

  lemma VariantRuns(word: string, payload: string, depth: int)
    requires depth > 0 && IsQuiet(word) && Runs(payload, depth + 1) == Some(depth + 1)
    ensures Runs("(" + word + "()" + "," + (" " + payload + "),"), depth) == Some(depth)
  {
    VariantStart(word, depth);
    VariantEnd(payload, depth);
    RunsOn("(" + word + "()" + ",", " " + payload + "),", depth);
  }

  lemma QuietVariants()
    ensures IsQuiet("\"Some\".to_string") && IsQuiet("\"None\".to_string") && IsQuiet("None")
    ensures IsQuiet("Some") && IsQuiet("vec!") && IsQuiet("IRType::String")
  {
  }

  lemma SomeVariantPieces()
    ensures SomeVariant() == "(" + "\"Some\".to_string" + "()" + ","
                             + (" " + ("Some" + "(" + ("vec!" + "[" + "IRType::String" + "]") + ")") + "),")
  {
    assert "(" + "\"Some\".to_string" + "()" + "," == "(\"Some\".to_string(),";
    assert "Some" + "(" + ("vec!" + "[" + "IRType::String" + "]") + ")" + ")," == "Some(vec![IRType::String])),";
    AssembleVariant("(\"Some\".to_string(),", "Some" + "(" + ("vec!" + "[" + "IRType::String" + "]") + ")", "),");
  }

  lemma AssembleVariant(a: string, b: string, c: string)
    ensures a + " " + (b + c) == a + (" " + b + c)
  {
  }

  lemma SomeVariantRuns(depth: int)
    requires depth > 0
    ensures Runs(SomeVariant(), depth) == Some(depth)
  {
    QuietVariants();
    PayloadRuns("Some", "vec!", "IRType::String", depth + 1);
    VariantRuns("\"Some\".to_string", "Some" + "(" + ("vec!" + "[" + "IRType::String" + "]") + ")", depth);
    SomeVariantPieces();
  }

  lemma NoneVariantPieces()
    ensures NoneVariant() == "(" + "\"None\".to_string" + "()" + "," + (" " + "None" + "),")
  {
    assert "(" + "\"None\".to_string" + "()" + "," == "(\"None\".to_string(),";
    assert "None" + ")," == "None),";
    AssembleVariant("(\"None\".to_string(),", "None", "),");
  }

  lemma NoneVariantRuns(depth: int)
    requires depth > 0
    ensures Runs(NoneVariant(), depth) == Some(depth)
  {
    QuietVariants();
    QuietRuns("None", depth + 1);
    VariantRuns("\"None\".to_string", "None", depth);
    NoneVariantPieces();
  }

  lemma OptionRuns(indent: nat, depth: int)
    requires depth >= 0
    ensures Runs(Raw(RenderType(OptionString, indent)), depth) == Some(depth)
  {
    var open, name := Line(indent, EnumOpen()), Line(indent + 4, NameHead() + "Option_string" + NameTail());
    OpeningsRun(depth);
    QuietIdent("Option_string");
    NameLineRuns("Option_string", depth + 1);
    VariantLinesRun(indent, depth);
    FirstTwo(open, name, VariantLines(indent), depth);
    assert RenderType(OptionString, indent) == [open, name] + VariantLines(indent);
    RawRuns(RenderType(OptionString, indent), depth);
  }

  function VariantLines(indent: nat): seq<Line> {
    [Line(indent + 4, Variants() + "vec!["), Line(indent + 8, SomeVariant()), Line(indent + 8, NoneVariant()),
     Line(indent + 4, "],"), Line(indent, "}")]
  }

  lemma VariantLinesRun(indent: nat, depth: int)
    requires depth >= 0
    ensures LinesRun(VariantLines(indent), depth + 1) == Some(depth)
  {
    VariantsRun(depth + 1);
    SomeVariantRuns(depth + 2);
    NoneVariantRuns(depth + 2);
    Closes('}', depth + 1);
    NestedLines(Line(indent + 4, Variants() + "vec!["), Line(indent + 8, SomeVariant()),
                Line(indent + 8, NoneVariant()),
                Line(indent + 4, "],"), Line(indent, "}"), depth);
  }

  lemma NestedLines(a: Line, b: Line, c: Line, d: Line, e: Line, x: int)
    requires Runs(a.text, x + 1) == Some(x + 2) && Runs(b.text, x + 2) == Some(x + 2)
    requires Runs(c.text, x + 2) == Some(x + 2)
    requires Runs(d.text, x + 2) == Some(x + 1) && Runs(e.text, x + 1) == Some(x)
    ensures LinesRun([a, b, c, d, e], x + 1) == Some(x)
  {
    assert [e][1..] == [] && LinesRun([e], x + 1) == LinesRun([], x);
    assert [d, e][1..] == [e] && LinesRun([d, e], x + 2) == LinesRun([e], x + 1);
    assert [c, d, e][1..] == [d, e] && LinesRun([c, d, e], x + 2) == LinesRun([d, e], x + 2);
    assert [b, c, d, e][1..] == [c, d, e] && LinesRun([b, c, d, e], x + 2) == LinesRun([c, d, e], x + 2);
    assert [a, b, c, d, e][1..] == [b, c, d, e];
  }

  lemma QuietDtypes(dtype: string)
    ensures IsQuiet(DtypeExpr(dtype)) && IsQuiet("dtype: Box::new")
  {
    QuietGlue("IRType::", DtypeName(dtype));
  }

  lemma DtypeRuns(dtype: string, depth: int)
    requires depth > 0
    ensures Runs(DtypeHead() + DtypeExpr(dtype) + DtypeTail(), depth) == Some(depth)
  {
    QuietDtypes(dtype);
    QuietRuns(DtypeExpr(dtype), depth + 1);
    Encloses("dtype: Box::new", '(', DtypeExpr(dtype), ')', depth);
    Listed("dtype: Box::new" + ['('] + DtypeExpr(dtype) + [')'], depth);
    assert DtypeHead() == "dtype: Box::new" + ['('];
    assert DtypeHead() + DtypeExpr(dtype) + [')'] + "," == DtypeHead() + DtypeExpr(dtype) + DtypeTail();
  }

  lemma RankRuns(rank: Option<string>, depth: int)
    requires depth > 0 && (rank.Some? ==> IsDigits(rank.value))
    ensures Runs(RankHead() + RankExpr(rank) + ",", depth) == Some(depth)
  {
    QuietRuns(RankHead(), depth);
    if rank.Some? {
      QuietIdent(rank.value);
      QuietRuns(rank.value, depth + 1);
      Encloses("Some", '(', rank.value, ')', depth);
      assert RankExpr(rank) == "Some" + ['('] + rank.value + [')'];
    } else {
      QuietRuns("None", depth);
    }
    Follows(RankHead(), RankExpr(rank), depth);
    Listed(RankHead() + RankExpr(rank), depth);
  }

  lemma NoneFieldRuns(word: string, depth: int)
    requires depth > 0 && IsQuiet(word)
    ensures Runs(word + ",", depth) == Some(depth)
  {
    QuietRuns(word, depth);
    Listed(word, depth);
  }

  lemma QuietFields()
    ensures IsQuiet("dims: None") && IsQuiet("layout: None") && IsQuiet("device: None")
  {
  }

  lemma NoneFieldsRun(depth: int)
    requires depth > 0
    ensures Runs("dims: None,", depth) == Some(depth) && Runs("layout: None,", depth) == Some(depth)
    ensures Runs("device: None,", depth) == Some(depth)
  {
    QuietFields();
    NoneFieldRuns("dims: None", depth);
    NoneFieldRuns("layout: None", depth);
    NoneFieldRuns("device: None", depth);
    assert "dims: None" + "," == "dims: None,";
    assert "layout: None" + "," == "layout: None,";
    assert "device: None" + "," == "device: None,";
  }

  lemma TensorRuns(dtype: string, rank: Option<string>, indent: nat, depth: int)
    requires IsRenderable(Tensor(dtype, rank)) && depth >= 0
    ensures Runs(Raw(RenderType(Tensor(dtype, rank), indent)), depth) == Some(depth)
  {
    DtypeRuns(dtype, depth + 1);
    RankRuns(rank, depth + 1);
    TensorLinesRun(Line(indent + 4, DtypeHead() + DtypeExpr(dtype) + DtypeTail()),
                   Line(indent + 4, RankHead() + RankExpr(rank) + ","), indent, depth);
    assert RenderType(Tensor(dtype, rank), indent)
        == [Line(indent, TensorOpen()), Line(indent + 4, DtypeHead() + DtypeExpr(dtype) + DtypeTail()),
            Line(indent + 4, RankHead() + RankExpr(rank) + ",")] + NoneLines(indent);
    RawRuns(RenderType(Tensor(dtype, rank), indent), depth);
  }

  lemma TensorLinesRun(dtype: Line, rank: Line, indent: nat, depth: int)
    requires depth >= 0
    requires Runs(dtype.text, depth + 1) == Some(depth + 1) && Runs(rank.text, depth + 1) == Some(depth + 1)
    ensures LinesRun([Line(indent, TensorOpen()), dtype, rank] + NoneLines(indent), depth) == Some(depth)
  {
    var open, rest := Line(indent, TensorOpen()), NoneLines(indent);
    OpeningsRun(depth);
    NoneLinesRun(indent, depth);
    FirstTwo(open, dtype, [rank] + rest, depth);
    assert ([rank] + rest)[1..] == rest;
    assert [open, dtype] + ([rank] + rest) == [open, dtype, rank] + rest;
  }

  function NoneLines(indent: nat): seq<Line> {
    [Line(indent + 4, "dims: None,"), Line(indent + 4, "layout: None,"), Line(indent + 4, "device: None,"),
     Line(indent, "}")]
  }

  lemma NoneLinesRun(indent: nat, depth: int)
    requires depth >= 0
    ensures LinesRun(NoneLines(indent), depth + 1) == Some(depth)
  {
    NoneFieldsRun(depth + 1);
    Closes('}', depth + 1);
    ThenCloses(Line(indent + 4, "dims: None,"), Line(indent + 4, "layout: None,"), Line(indent + 4, "device: None,"),
               Line(indent, "}"), depth);
  }

  lemma ThenCloses(a: Line, b: Line, c: Line, d: Line, x: int)
    requires Runs(a.text, x + 1) == Some(x + 1) && Runs(b.text, x + 1) == Some(x + 1)
    requires Runs(c.text, x + 1) == Some(x + 1) && Runs(d.text, x + 1) == Some(x)
    ensures LinesRun([a, b, c, d], x + 1) == Some(x)
  {
    assert [d][1..] == [] && LinesRun([d], x + 1) == LinesRun([], x);
    assert [c, d][1..] == [d] && LinesRun([c, d], x + 1) == LinesRun([d], x + 1);
    assert [b, c, d][1..] == [c, d] && LinesRun([b, c, d], x + 1) == LinesRun([c, d], x + 1);
    assert [a, b, c, d][1..] == [b, c, d];
  }

  lemma SimpleRuns(name: string, depth: int)
    requires SimpleIr(name).Some? && depth >= 0
    ensures Runs(SimpleIr(name).value, depth) == Some(depth)
  {
    if name == "BitSet" || name == "DisjointSet" {
      SimpleIsStruct(name);
      PlainName(name);
      StructRuns(name, depth);
    } else {
      SimpleIsQuiet(name);
      QuietRuns(SimpleIr(name).value, depth);
    }
  }

  lemma SimpleIsQuiet(name: string)
    requires SimpleIr(name).Some? && name != "BitSet" && name != "DisjointSet"
    ensures IsQuiet(SimpleIr(name).value)
  {
    QuietScalars();
  }

  lemma QuietScalars()
    ensures IsQuiet("IRType::Int") && IsQuiet("IRType::Bool") && IsQuiet("IRType::String") && IsQuiet("IRType::Float")
    ensures IsQuiet("IRType::Void") && IsQuiet("IRType::Unknown") && IsQuiet("IRType::Range")
  {
  }

  /** A struct expression written on one line. */
  lemma StructRuns(name: string, depth: int)
    requires AllIdent(name) && depth >= 0
    ensures Runs(StructHead() + name + StructTailTight(), depth) == Some(depth)
  {
    QuietIdent(name);
    NameLineRuns(name, depth + 1);
    FieldsRun(depth + 1);
    QuietRuns(" ", depth + 1);
    var line := NameHead() + name + NameTail();
    Follows(" ", line, depth + 1);
    Follows(" " + line, " ", depth + 1);
    Follows(" " + line + " ", FieldsTight(), depth + 1);
    Follows(" " + line + " " + FieldsTight(), " ", depth + 1);
    Encloses("IRType::Struct ", '{', " " + line + " " + FieldsTight() + " ", '}', depth);
    assert StructOpen() == "IRType::Struct " + ['{'];
    Nested(StructOpen(), NameHead(), name, NameTail(), FieldsTight());
  }

  lemma Nested(a: string, b: string, name: string, c: string, d: string)
    ensures a + (" " + (b + name + c) + " " + d + " ") + "}" == (a + " " + b) + name + (c + " " + d + " " + "}")
  {
  }

  lemma QuietCalls()
    ensures IsQuiet("builtin_error_ir_type") && IsQuiet("builtin_result_ir_type")
  {
  }

  lemma ErrorRuns(depth: int)
    ensures Runs(ErrorExpr(), depth) == Some(depth)
  {
    QuietCalls();
    EmptyCall("builtin_error_ir_type", depth);
    assert ErrorExpr() == "builtin_error_ir_type" + "()";
  }

  lemma ResultRuns(inner: string, depth: int)
    requires Runs(inner, depth + 1) == Some(depth + 1)
    ensures Runs(ResultCall() + inner + ")", depth) == Some(depth)
  {
    QuietCalls();
    Encloses("builtin_result_ir_type", '(', inner, ')', depth);
    assert ResultCall() == "builtin_result_ir_type" + ['('];
  }

  /** A printed type leaves the reader's depth as it was and shows it no comma outside brackets. */
  lemma {:induction false} TypeRuns(t: IrType, indent: nat, depth: int)
    requires IsRenderable(t) && HasPlainNames(t) && depth >= 0
    ensures Runs(Raw(RenderType(t, indent)), depth) == Some(depth)
  {
    match t
    case Simple(name) => SimpleRuns(name, depth);
    case ErrorType => ErrorRuns(depth);
    case ResultOf(inner) =>
      TypeRuns(inner, indent, depth + 1);
      RawOfWrap(ResultCall(), RenderType(inner, indent), ")");
      ResultRuns(Raw(RenderType(inner, indent)), depth);
    case OptionString => OptionRuns(indent, depth);
    case Collection(kind, args) => CollectionRuns(kind, args, indent, depth);
    case Tensor(dtype, rank) => TensorRuns(dtype, rank, indent, depth);
  }
}
