/** The catalog generator's reader of one match arm (`read_expression`, `parse_descriptor`). */
module LoweringDescriptors {
  import opened Wrappers
  import opened PythonText
  import opened LoweringText
  import opened LoweringExpressions
  import opened LoweringArms

  // ----- the end of an expression -----

  predicate IsOpening(c: char) { c == '{' || c == '(' || c == '<' || c == '[' }

  predicate IsClosing(c: char) { c == '}' || c == ')' || c == '>' || c == ']' }

  function Step(c: char): int {
    if IsOpening(c) then 1 else if IsClosing(c) then -1 else 0
  }

  /** Length of the text in front of the first comma outside brackets. */
  function ExpressionEnd(s: string, depth: int): (n: nat)
    ensures n <= |s|
    decreases |s|
  {
    if s == [] || (s[0] == ',' && depth == 0) then 0 else 1 + ExpressionEnd(s[1..], depth + Step(s[0]))
  }

  method ReadExpression(text: string, index: nat) returns (r: string)
    requires index <= |text|
    ensures r == text[index..][..ExpressionEnd(text[index..], 0)]
  {
    var depth := 0;
    var cursor := index;
    while cursor < |text|
      invariant index <= cursor <= |text|
      invariant ExpressionEnd(text[index..], 0) == cursor - index + ExpressionEnd(text[cursor..], depth)
    {
      var c := text[cursor];
      assert text[cursor..][1..] == text[cursor + 1..];
      if IsOpening(c) {
        depth := depth + 1;
      } else if IsClosing(c) {
        depth := depth - 1;
      } else if c == ',' && depth == 0 {
        break;
      }
      cursor := cursor + 1;
    }
    r := text[index..cursor];
    assert r == text[index..][..cursor - index];
  }

  function Among(s: string, chars: string): nat {
    if s == [] then 0 else (if s[0] in chars then 1 else 0) + Among(s[1..], chars)
  }

  /** A comma with as many closing as opening brackets in front of it, `depth` of them earlier on. */
  predicate IsEnd(s: string, k: nat, depth: int) {
    k < |s| && s[k] == ',' && depth + Among(s[..k], "{(<[") == Among(s[..k], "})>]")
  }

  lemma EndOneLater(s: string, k: nat, depth: int)
    requires s != []
    ensures IsEnd(s, k + 1, depth) <==> IsEnd(s[1..], k, depth + Step(s[0]))
  {
    if k + 1 < |s| {
      assert s[..k + 1][1..] == s[1..][..k];
    }
  }

  /** An expression goes up to the first comma outside brackets, or to the end of the text. */
  lemma {:induction false} EndsAtFirstComma(s: string, k: nat, depth: int)
    ensures var n := ExpressionEnd(s, depth);
            && (k < n ==> !IsEnd(s, k, depth))
            && (n < |s| ==> IsEnd(s, n, depth))
  {
    if s != [] && !IsEnd(s, 0, depth) {
      var next := depth + Step(s[0]);
      EndsAtFirstComma(s[1..], if k == 0 then 0 else k - 1, next);
      if k != 0 {
        EndOneLater(s, k - 1, depth);
      }
      EndOneLater(s, ExpressionEnd(s[1..], next), depth);
    }
  }

  // ----- searching -----

  /** `returns_value:\s*(true|false)` at the start of the text. */
  function FlagHere(s: string): Option<bool> {
    if !StartsWith(s, FlagKey()) then None
    else
      var rest := StripLeft(s[|FlagKey()|..]);
      if StartsWith(rest, "true") then Some(true)
      else if StartsWith(rest, "false") then Some(false)
      else None
  }

  /** The flag at the first place that has one. */
  function FindFlag(s: string): Option<bool> {
    if FlagHere(s).Some? || s == [] then FlagHere(s) else FindFlag(s[1..])
  }

  /** The call of a helper, at a word boundary. */
  predicate IsCallAt(s: string, helper: string, i: nat) {
    i <= |s| && StartsWith(s[i..], helper + "(") && (i == 0 || !IsIdent(s[i - 1]))
  }

  predicate HasCall(s: string, helper: string) {
    exists i :: 0 <= i <= |s| && IsCallAt(s, helper, i)
  }

  /** The reader's own table of helpers, in the order in which they are tried. */
  const DESCRIPTORS: seq<Helper> := [
    Helper("host_int", "int", true),
    Helper("host_float", "float", true),
    Helper("host_bool", "bool", true),
    Helper("host_string", "string", true),
    Helper("host_void", "void", false),
    Helper("host_task_int", "Task<int>", true),
    Helper("host_task_bool", "Task<bool>", true),
    Helper("host_task_string", "Task<string>", true),
    Helper("host_tensor_rank0", "Tensor<float,rank=0>", true),
    Helper("host_tensor_dynamic", "Tensor<float>", true)]

  function FirstCalled(s: string, helpers: seq<Helper>): Option<Helper> {
    if helpers == [] then None
    else if HasCall(s, helpers[0].name) then Some(helpers[0])
    else FirstCalled(s, helpers[1..])
  }

  // ----- one arm -----

  /** What an arm returns. */
  datatype Return = Return(irReturn: string, returnsValue: bool)

  function Described(ir: Option<string>, flag: Option<bool>): Option<Return> {
    if ir.None? || flag.None? then None else Some(Return(ir.value, flag.value))
  }

  /** The return type and flag that `parse_descriptor` reads; `None` where it raises. */
  function ParseReturn(body: string): Option<Return> {
    var key := Find(body, TypeKey());
    if key.Some? then
      var rest := StripLeft(body[key.value + |TypeKey()|..]);
      Described(IrTypeText(rest[..ExpressionEnd(rest, 0)]), FindFlag(rest))
    else
      var helper := FirstCalled(body, DESCRIPTORS);
      if helper.None? then None else Some(Return(helper.value.irReturn, helper.value.returnsValue))
  }

  // ----- the runtime name -----

  function NameKey(): string { "runtime_name:" }

  /** Length of the text in front of the next quote. */
  function UpToQuote(s: string): (n: nat)
    ensures n <= |s|
  {
    if s == [] || s[0] == '"' then 0 else 1 + UpToQuote(s[1..])
  }

  /** `key\s*"([^"]+)"` at the start of the text. */
  function QuotedHere(s: string, key: string): Option<string> {
    if !StartsWith(s, key) then None
    else
      var rest := StripLeft(s[|key|..]);
      if rest == [] || rest[0] != '"' then None
      else
        var n := UpToQuote(rest[1..]);
        if 0 < n < |rest[1..]| then Some(rest[1..][..n]) else None
  }

  /** The quoted text at the first place that has one. */
  function FindQuoted(s: string, key: string): Option<string> {
    if QuotedHere(s, key).Some? || s == [] then QuotedHere(s, key) else FindQuoted(s[1..], key)
  }

  /** The same at a word boundary. */
  function FindArgument(s: string, helper: string, inWord: bool): Option<string> {
    var here := if inWord then None else QuotedHere(s, helper + "(");
    if here.Some? || s == [] then here else FindArgument(s[1..], helper, IsIdent(s[0]))
  }

  function OrEmpty(s: Option<string>): string {
    if s.Some? then s.value else ""
  }

  /** The name that is read: that of the field, or the argument of the helper; empty if none is quoted. */
  function RuntimeName(body: string): string {
    if Has(body, TypeKey()) then OrEmpty(FindQuoted(body, NameKey()))
    else
      var helper := FirstCalled(body, DESCRIPTORS);
      if helper.None? then "" else OrEmpty(FindArgument(body, helper.value.name, false))
  }

  datatype Descriptor = Descriptor(irReturn: string, returnsValue: bool, runtime: string)

  /** `parse_descriptor`; `None` where it raises. */
  function ParseDescriptor(body: string): Option<Descriptor> {
    var r := ParseReturn(body);
    if r.None? then None else Some(Descriptor(r.value.irReturn, r.value.returnsValue, RuntimeName(body)))
  }
}
