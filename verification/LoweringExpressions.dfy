/** Printing an IR type as a Rust expression (`render_ir`, `wrap_call`) and reading such an
    expression back (`ir_type_text`). */
module LoweringExpressions {
  import opened Wrappers
  import opened PythonText
  import opened LoweringText
  import opened LoweringTypes

  // ----- pieces of the printed expressions -----

  function ErrorExpr(): string { "builtin_error_ir_type()" }

  function ResultCall(): string { "builtin_result_ir_type(" }

  function NameHead(): string { "name: \"" }

  function NameTail(): string { "\".to_string()," }

  function StructOpen(): string { "IRType::Struct {" }

  function EnumOpen(): string { "IRType::Enum {" }

  function TensorOpen(): string { "IRType::Tensor {" }

  function Fields(): string { "fields: Vec::new()," }

  function FieldsTight(): string { "fields: Vec::new()" }

  function Variants(): string { "variants: " }

  function SomeVariant(): string { "(\"Some\".to_string()," + " " + "Some(vec![IRType::String]))," }

  function NoneVariant(): string { "(\"None\".to_string()," + " " + "None)," }

  function DtypeHead(): string { "dtype: Box::new(" }

  function DtypeTail(): string { ")," }

  function RankHead(): string { "rank: " }

  // ----- printing -----

  /** The one-line types of `SIMPLE_IR`; `None` for any other text. */
  function SimpleIr(name: string): Option<string> {
    if name == "int" then Some("IRType::Int")
    else if name == "bool" then Some("IRType::Bool")
    else if name == "string" then Some("IRType::String")
    else if name == "float" then Some("IRType::Float")
    else if name == "void" then Some("IRType::Void")
    else if name == "unknown" then Some("IRType::Unknown")
    else if name == "range" then Some("IRType::Range")
    else if name == "BitSet" || name == "DisjointSet" then
      Some(StructOpen() + " " + NameHead() + name + NameTail() + " " + FieldsTight() + " " + "}")
    else None
  }

  predicate IsDigits(s: string) {
    s != [] && forall i :: 0 <= i < |s| ==> '0' <= s[i] <= '9'
  }

  /** The types `render_ir` has an expression for. */
  predicate IsRenderable(t: IrType) {
    match t
    case Simple(name) => SimpleIr(name).Some?
    case ResultOf(inner) => IsRenderable(inner)
    case Collection(kind, args) => IsKind(kind) && '\n' !in args
    case Tensor(dtype, rank) => (dtype == "float" || dtype == "int") && (rank.Some? ==> IsDigits(rank.value))
    case _ => true
  }

  function DtypeName(dtype: string): string {
    if dtype == "float" then "Float" else "Int"
  }

  function DtypeExpr(dtype: string): string {
    "IRType::" + DtypeName(dtype)
  }

  function RankExpr(rank: Option<string>): string {
    if rank.None? then "None" else "Some(" + rank.value + ")"
  }

  function RenderType(t: IrType, indent: nat): (lines: seq<Line>)
    requires IsRenderable(t)
    ensures lines != []
  {
    match t
    case Simple(name) => [Line(indent, SimpleIr(name).value)]
    case ErrorType => [Line(indent, ErrorExpr())]
    case ResultOf(inner) => WrapCall(ResultCall(), RenderType(inner, indent))
    case OptionString =>
      [Line(indent, EnumOpen()),
       Line(indent + 4, NameHead() + "Option_string" + NameTail()),
       Line(indent + 4, Variants() + "vec!["),
       Line(indent + 8, SomeVariant()),
       Line(indent + 8, NoneVariant()),
       Line(indent + 4, "],"),
       Line(indent, "}")]
    case Collection(kind, args) =>
      [Line(indent, StructOpen()),
       Line(indent + 4, NameHead() + StructName(kind, args) + NameTail()),
       Line(indent + 4, Fields()),
       Line(indent, "}")]
    case Tensor(dtype, rank) =>
      [Line(indent, TensorOpen()),
       Line(indent + 4, DtypeHead() + DtypeExpr(dtype) + DtypeTail()),
       Line(indent + 4, RankHead() + RankExpr(rank) + ","),
       Line(indent + 4, "dims: None,"),
       Line(indent + 4, "layout: None,"),
       Line(indent + 4, "device: None,"),
       Line(indent, "}")]
  }

  /** `wrap_call`: the call opens on the expression's first line and closes on its last. */
  function WrapCall(call: string, inner: seq<Line>): (lines: seq<Line>)
    requires inner != []
    ensures |lines| == |inner|
  {
    Wrap(call, inner, ")")
  }

  /** A text in front of the first line's text and one behind the last line's. */
  function Wrap(open: string, inner: seq<Line>, close: string): (lines: seq<Line>)
    requires inner != []
    ensures |lines| == |inner|
  {
    var n := |inner| - 1;
    var begun := inner[0 := inner[0].(text := open + inner[0].text)];
    begun[n := begun[n].(text := begun[n].text + close)]
  }

  /** The lines of an expression joined by single spaces. */
  function OneLine(lines: seq<Line>): string
    requires lines != []
  {
    if |lines| == 1 then lines[0].text else lines[0].text + " " + OneLine(lines[1..])
  }

  // ----- catalog texts -----

  /** What stands between a head and a closing bracket at the end. */
  function Inside(s: string, head: string): Option<string> {
    if |s| > |head| && StartsWith(s, head) && s[|s| - 1] == '>' then Some(s[|head|..|s| - 1]) else None
  }

  /** A tensor of the given element type, with or without a rank. */
  function ClassifyTensor(s: string, dtype: string): Option<IrType> {
    var rest := Inside(s, "Tensor<" + dtype);
    if rest.None? then None
    else if rest.value == "" then Some(Tensor(dtype, None))
    else if StartsWith(rest.value, ",rank=") && IsDigits(rest.value[6..]) then
      Some(Tensor(dtype, Some(rest.value[6..])))
    else None
  }

  /** The case distinction `render_ir` makes on a catalog text; `None` where it raises. */
  function Classify(s: string): Option<IrType> {
    if SimpleIr(s).Some? then Some(Simple(s))
    else if s == "Error" then Some(ErrorType)
    else if Inside(s, "Result<").Some? then
      var inner := Classify(Inside(s, "Result<").value);
      if inner.None? then None else Some(ResultOf(inner.value))
    else if s == "Option<string>" then Some(OptionString)
    else
      var kind := KindWith(s, "<", UNARY + BINARY);
      if kind.Some? && Inside(s, kind.value + "<").Some? && '\n' !in s then
        Some(Collection(kind.value, Inside(s, kind.value + "<").value))
      else if ClassifyTensor(s, "float").Some? then ClassifyTensor(s, "float")
      else ClassifyTensor(s, "int")
  }

  /** `render_ir`; `None` where it raises. */
  function RenderIr(irReturn: string, indent: nat): Option<seq<Line>> {
    var t := Classify(irReturn);
    if t.None? then None
    else
      ClassifiedText(irReturn);
      Some(RenderType(t.value, indent))
  }

  lemma InsideText(s: string, head: string)
    requires Inside(s, head).Some?
    ensures s == head + Inside(s, head).value + ">"
  {
    assert s == s[..|head|] + s[|head|..|s| - 1] + s[|s| - 1..];
  }

  /** A classified text is the catalog text of its class. */
  lemma {:induction false} ClassifiedText(s: string)
    ensures Classify(s).Some? ==> IsRenderable(Classify(s).value) && TypeText(Classify(s).value) == s
  {
    if SimpleIr(s).Some? || s == "Error" {
    } else if Inside(s, "Result<").Some? {
      ClassifiedText(Inside(s, "Result<").value);
      InsideText(s, "Result<");
    } else if s != "Option<string>" {
      ClassifiedCollection(s);
      ClassifiedTensors(s);
    }
  }

  lemma ClassifiedTensors(s: string)
    ensures forall dtype :: (dtype == "float" || dtype == "int") && ClassifyTensor(s, dtype).Some? ==>
              IsRenderable(ClassifyTensor(s, dtype).value) && TypeText(ClassifyTensor(s, dtype).value) == s
  {
    ClassifiedTensor(s, "float");
    ClassifiedTensor(s, "int");
  }

  lemma ClassifiedCollection(s: string)
    ensures var kind := KindWith(s, "<", UNARY + BINARY);
            kind.Some? && Inside(s, kind.value + "<").Some? && '\n' !in s
            ==> IsKind(kind.value) && '\n' !in Inside(s, kind.value + "<").value
                && s == kind.value + "<" + Inside(s, kind.value + "<").value + ">"
  {
    var kind := KindWith(s, "<", UNARY + BINARY);
    if kind.Some? && Inside(s, kind.value + "<").Some? {
      InsideText(s, kind.value + "<");
    }
  }

  lemma ClassifiedTensor(s: string, dtype: string)
    requires dtype == "float" || dtype == "int"
    ensures ClassifyTensor(s, dtype).Some?
        ==> IsRenderable(ClassifyTensor(s, dtype).value) && TypeText(ClassifyTensor(s, dtype).value) == s
  {
    var rest := Inside(s, "Tensor<" + dtype);
    if rest.Some? {
      InsideText(s, "Tensor<" + dtype);
      if rest.value != "" && StartsWith(rest.value, ",rank=") {
        assert rest.value == ",rank=" + rest.value[6..];
      }
    }
  }

  // ----- fixed parts of the reader's patterns -----

  function StructHead(): string { StructOpen() + " " + NameHead() }

  function StructTail(): string { NameTail() + " " + Fields() + " " + "}" }

  function StructTailTight(): string { NameTail() + " " + FieldsTight() + " " + "}" }

  function EnumHead(): string { EnumOpen() + " " + NameHead() }

  function EnumRest(): string { NameTail() + " " + Variants() }

  function TensorHead(): string { TensorOpen() + " " + DtypeHead() }

  function TensorMiddle(): string { DtypeTail() + " " + RankHead() }

  function TensorTail(): string {
    "," + " " + "dims: None," + " " + "layout: None," + " " + "device: None," + " " + "}"
  }

  // ----- reading -----

  /** The scalar expressions; `None` for any other text. */
  function Scalar(e: string): Option<string> {
    if e == "IRType::Int" then Some("int")
    else if e == "IRType::Float" then Some("float")
    else if e == "IRType::Bool" then Some("bool")
    else if e == "IRType::String" then Some("string")
    else if e == "IRType::Void" then Some("void")
    else if e == "IRType::Unknown" then Some("unknown")
    else if e == "IRType::Range" then Some("range")
    else if e == "IRType::Char" then Some("char")
    else None
  }

  /** `re.sub(r"\s+", " ", s)` */
  function Squeeze(s: string): (r: string)
    ensures |r| <= |s|
    decreases |s|
  {
    if s == [] then []
    else if IsSpace(s[0]) then [' '] + Squeeze(StripLeft(s))
    else [s[0]] + Squeeze(s[1..])
  }

  datatype Named = Named(name: string, rest: string)

  /** A head, then `[A-Za-z0-9_]+`, then the rest. */
  function MatchNamed(e: string, head: string): Option<Named> {
    if !StartsWith(e, head) then None
    else
      var r := e[|head|..];
      var n := IdentRun(r);
      if n == 0 then None else Some(Named(r[..n], r[n..]))
  }

  datatype TensorExpr = TensorExpr(dtype: string, rank: Option<string>)

  function DigitRun(s: string): (n: nat)
    ensures n <= |s|
  {
    if s == [] || !('0' <= s[0] <= '9') then 0 else 1 + DigitRun(s[1..])
  }

  /** The rank, `Some(digits)` or `None`, in front of the fixed tail. */
  function MatchRank(s: string): Option<Option<string>> {
    if s == "None" + TensorTail() then Some(None)
    else if StartsWith(s, "Some(") then
      var r := s[5..];
      var n := DigitRun(r);
      if n > 0 && r[n..] == ")" + TensorTail() then Some(Some(r[..n])) else None
    else None
  }

  function LetterRun(s: string): (n: nat)
    ensures n <= |s|
  {
    if s == [] || !('A' <= s[0] <= 'Z' || 'a' <= s[0] <= 'z') then 0 else 1 + LetterRun(s[1..])
  }

  function MatchTensor(e: string): Option<TensorExpr> {
    if !StartsWith(e, TensorHead() + "IRType::") then None
    else
      var r := e[|TensorHead()| + 8..];
      var n := LetterRun(r);
      if n == 0 || !StartsWith(r[n..], TensorMiddle()) then None
      else
        match MatchRank(r[n + |TensorMiddle()|..])
        case None => None
        case Some(rank) => Some(TensorExpr("IRType::" + r[..n], rank))
  }

  /** `ir_type_text`; `None` where it raises. */
  function IrTypeText(expression: string): Option<string>
    decreases |expression|, 1
  {
    Recognized(Strip(Squeeze(expression)))
  }

  function Recognized(e: string): Option<string>
    decreases |e|, 0
  {
    if Scalar(e).Some? then Scalar(e)
    else if e == ErrorExpr() then Some("Error")
    else if StartsWith(e, ResultCall()) && EndsWith(e, ")") && |e| >= |ResultCall()| + 2 then
      Bracketed("Result", IrTypeText(e[|ResultCall()|..|e| - 1]))
    else if IsStructExpr(e) then StructIrName(MatchNamed(e, StructHead()).value.name)
    else if IsEnumExpr(e) then EnumText(MatchNamed(e, EnumHead()).value.name)
    else if MatchTensor(e).Some? then TensorText(MatchTensor(e).value)
    else if e == "IRType::ExactFloat { width: IRFloatWidth::F32, }" then Some("ExactFloat<f32>")
    else if e == "IRType::ExactFloat { width: IRFloatWidth::F64, }" then Some("ExactFloat<f64>")
    else if e == "IRType::ExactInt { signed, width }" then Some("ExactInt<var>")
    else None
  }

  predicate IsStructExpr(e: string) {
    var m := MatchNamed(e, StructHead());
    m.Some? && (m.value.rest == StructTail() || m.value.rest == StructTailTight())
  }

  predicate IsEnumExpr(e: string) {
    var m := MatchNamed(e, EnumHead());
    m.Some? && StartsWith(m.value.rest, EnumRest()) && EndsWith(m.value.rest, "}")
    && |m.value.rest| > |EnumRest()|
  }

  function EnumText(name: string): Option<string> {
    if StartsWith(name, "Option_") then Bracketed("Option", StructIrName(name[7..]))
    else if StartsWith(name, "Result_") then Bracketed("Result", StructIrName(name[7..]))
    else StructIrName(name)
  }

  function Bracketed(head: string, inner: Option<string>): Option<string> {
    if inner.None? then None else Some(head + "<" + inner.value + ">")
  }

  function TensorText(t: TensorExpr): Option<string> {
    if Scalar(t.dtype).None? then None
    else
      Some("Tensor<" + Scalar(t.dtype).value + (if t.rank.None? then "" else ",rank=" + t.rank.value) + ">")
  }
}
