/** Printing one match arm of a lowering table (`runtime_expression`, `default_style`,
    `emit_arm`). */
module LoweringArms {
  import opened Wrappers
  import opened LoweringText
  import opened LoweringExpressions

  datatype Entry = Entry(name: (string, string), binding: string, returnsValue: bool, irReturn: string)

  const MAX_WIDTH := 100
  const FN_CALL_WIDTH := 60

  const STRUCT := "struct"

  /** A helper constructor with the IR return type and the flag it stands for. */
  datatype Helper = Helper(name: string, irReturn: string, returnsValue: bool)

  /** The printer's own table of helpers. */
  const HELPERS: seq<Helper> := [
    Helper("host_int", "int", true),
    Helper("host_bool", "bool", true),
    Helper("host_string", "string", true),
    Helper("host_float", "float", true),
    Helper("host_void", "void", false),
    Helper("host_task_int", "Task<int>", true),
    Helper("host_task_bool", "Task<bool>", true),
    Helper("host_task_string", "Task<string>", true),
    Helper("host_tensor_dynamic", "Tensor<float>", true),
    Helper("host_tensor_rank0", "Tensor<float,rank=0>", true)]

  /** The table entry of a helper's name. */
  function FindHelper(name: string, helpers: seq<Helper>): (r: Option<Helper>)
    ensures r.Some? ==> r.value in helpers && r.value.name == name
  {
    if helpers == [] then None
    else if helpers[0].name == name then Some(helpers[0])
    else FindHelper(name, helpers[1..])
  }

  /** Host symbols that are not the binding, and the functions that use a shared constant. */
  datatype Names = Names(aliases: map<(string, string), string>, shared: set<(string, string)>)

  function Quoted(s: string): string { "\"" + s + "\"" }

  function Upper(c: char): char {
    if 'a' <= c <= 'z' then c - 32 as char else if IsAlnum(c) then c else '_'
  }

  /** The name of the shared constant of a function. */
  function ConstantName(name: (string, string)): string {
    var path := "std." + name.0 + "." + name.1;
    seq(|path|, i requires 0 <= i < |path| => Upper(path[i])) + "_BINDING"
  }

  function RuntimeExpression(e: Entry, style: string, names: Names): string {
    if e.name in names.aliases then Quoted(names.aliases[e.name])
    else if style == STRUCT && e.name in names.shared then "spectra_contract::" + ConstantName(e.name)
    else Quoted(e.binding)
  }

  function Head(name: (string, string)): string {
    "(\"" + name.0 + "\", \"" + name.1 + "\")"
  }

  function Call(style: string, runtime: string): string {
    style + "(" + runtime + ")"
  }

  /** The three widths of a helper arm. */
  function HelperArm(name: (string, string), style: string, runtime: string): seq<Line> {
    var single := Head(name) + " => Some(" + Call(style, runtime) + "),";
    var body := "Some(" + Call(style, runtime) + ")";
    if 8 + |single| <= MAX_WIDTH then
      [Line(8, single)]
    else if 12 + |body| <= MAX_WIDTH && |Call(style, runtime)| <= FN_CALL_WIDTH then
      [Line(8, Head(name) + " => {"), Line(12, body), Line(8, "}")]
    else
      [Line(8, Head(name) + " => Some(" + style + "("), Line(12, runtime + ","), Line(8, ")),")]
  }

  function FlagText(b: bool): string { if b then "true" else "false" }

  function Opening(): string { " Some(HostFunctionDescriptor {" }

  function TypeKey(): string { "return_type:" }

  function FlagKey(): string { "returns_value:" }

  function StructArm(name: (string, string), runtime: string, typeLines: seq<Line>, returnsValue: bool): seq<Line>
    requires typeLines != []
  {
    [Line(8, Head(name) + (" =>" + Opening())), Line(12, "runtime_name: " + runtime + ",")]
    + Wrap(TypeKey() + " ", typeLines, ",")
    + [Line(12, FlagKey() + " " + FlagText(returnsValue) + ","), Line(8, "}),")]
  }

  /** `emit_arm`; `None` where it raises. */
  function EmitArm(e: Entry, style: string, names: Names): Option<seq<Line>> {
    var runtime := RuntimeExpression(e, style, names);
    if style == STRUCT then
      var typeLines := RenderIr(e.irReturn, 12);
      if typeLines.None? then None
      else Some(StructArm(e.name, runtime, typeLines.value, e.returnsValue))
    else
      var helper := FindHelper(style, HELPERS);
      if helper.None? || helper.value.irReturn != e.irReturn || helper.value.returnsValue != e.returnsValue then None
      else Some(HelperArm(e.name, style, runtime))
  }

  /** The helper a plain return type defaults to; `STRUCT` for the other types. */
  function DefaultHelper(irReturn: string): string {
    if irReturn == "int" then "host_int"
    else if irReturn == "bool" then "host_bool"
    else if irReturn == "string" then "host_string"
    else if irReturn == "float" then "host_float"
    else if irReturn == "void" then "host_void"
    else if irReturn == "Task<int>" then "host_task_int"
    else if irReturn == "Task<bool>" then "host_task_bool"
    else if irReturn == "Task<string>" then "host_task_string"
    else STRUCT
  }

  function DefaultStyle(fileStyle: string, e: Entry): string {
    if fileStyle == STRUCT then STRUCT else DefaultHelper(e.irReturn)
  }

  // ----- what the printer is given -----

  predicate IsPathChar(c: char) {
    IsIdent(c) || c == '.'
  }

  /** A dotted name, `[A-Za-z0-9_.]+`. */
  predicate IsPath(s: string) {
    s != [] && forall i :: 0 <= i < |s| ==> IsPathChar(s[i])
  }

  /** Module and function names as both readers expect them. */
  predicate IsName(name: (string, string)) {
    IsPath(name.0) && name.1 != [] && AllIdent(name.1)
  }

  predicate IsEntry(e: Entry, names: Names) {
    IsName(e.name) && IsPath(e.binding) && (e.name in names.aliases ==> IsPath(names.aliases[e.name]))
  }

  /** Runtime texts hold neither brackets nor commas nor line breaks. */
  predicate IsRuntimeChar(c: char) {
    IsPathChar(c) || c == '"' || c == ':'
  }

  predicate IsRuntime(s: string) {
    |s| > 1 && forall i :: 0 <= i < |s| ==> IsRuntimeChar(s[i])
  }

  lemma RuntimeIsPlain(e: Entry, style: string, names: Names)
    requires IsEntry(e, names)
    ensures IsRuntime(RuntimeExpression(e, style, names))
  {
    if e.name in names.aliases {
    } else if style == STRUCT && e.name in names.shared {
      ConstantIsPlain(e.name);
      assert IsRuntime("spectra_contract::");
    }
  }

  lemma ConstantIsPlain(name: (string, string))
    ensures forall i :: 0 <= i < |ConstantName(name)| ==> IsIdent(ConstantName(name)[i])
  {
    var path := "std." + name.0 + "." + name.1;
    var upper := seq(|path|, i requires 0 <= i < |path| => Upper(path[i]));
    forall i | 0 <= i < |upper| ensures IsIdent(upper[i]) {
      UpperIsIdent(path[i]);
    }
    assert AllIdent("_BINDING");
  }

  lemma UpperIsIdent(c: char)
    ensures IsIdent(Upper(c))
  {
  }
}
