/** Expressions that hand-written tables hold and the generator never prints. */
module LoweringForms {
  import opened Wrappers
  import opened PythonText
  import opened LoweringExpressions
  import opened LoweringTypeRoundTrip

  function Float32(): string { "IRType::ExactFloat { width: IRFloatWidth::F32, }" }

  function Float64(): string { "IRType::ExactFloat { width: IRFloatWidth::F64, }" }

  function VarInt(): string { "IRType::ExactInt { signed, width }" }

  lemma HeadsDiffer(e: string)
    requires |e| > 15 && e[..13] == "IRType::Exact"
    ensures Scalar(e).None? && e != ErrorExpr() && !StartsWith(e, ResultCall())
    ensures !StartsWith(e, StructHead()) && !StartsWith(e, EnumHead()) && !StartsWith(e, TensorHead() + "IRType::")
  {
    assert e[8] == 'E' && e[9] == 'x' && e[0] == 'I';
    if Scalar(e).Some? {
      ScalarIsShort(e);
    }
    OtherStarts(e);
  }

  lemma OtherStarts(e: string)
    requires |e| > 15 && e[0] == 'I' && e[8] == 'E' && e[9] == 'x'
    ensures e != ErrorExpr() && !StartsWith(e, ResultCall())
    ensures !StartsWith(e, StructHead()) && !StartsWith(e, EnumHead()) && !StartsWith(e, TensorHead() + "IRType::")
  {
    OtherHead(e, ResultCall(), 0);
    OtherHead(e, StructHead(), 8);
    OtherHead(e, EnumHead(), 9);
    OtherHead(e, TensorHead() + "IRType::", 8);
  }

  /** Past the other cases. */
  lemma LastCases(e: string)
    requires |e| > 15 && e[..13] == "IRType::Exact"
    ensures Recognized(e)
         == if e == Float32() then Some("ExactFloat<f32>") else if e == Float64() then Some("ExactFloat<f64>")
            else if e == VarInt() then Some("ExactInt<var>") else None
  {
    HeadsDiffer(e);
  }

  lemma Starts()
    ensures |Float32()| > 43 && Float32()[..13] == "IRType::Exact" && Float32()[43] == '3'
    ensures |Float64()| > 43 && Float64()[..13] == "IRType::Exact" && Float64()[43] == '6'
    ensures 43 > |VarInt()| > 15 && VarInt()[..13] == "IRType::Exact"
  {
    FirstThirteen(Float32());
    FirstThirteen(Float64());
    FirstThirteen(VarInt());
  }

  lemma FirstThirteen(e: string)
    requires e == Float32() || e == Float64() || e == VarInt()
    ensures e[..13] == "IRType::Exact"
  {
    var t := "IRType::Exact";
    assert forall i :: 0 <= i < 13 ==> e[i] == t[i];
  }

  /** Characters, floats of fixed width and integers of a computed width. */
  lemma OtherFormsAreRead()
    ensures Recognized("IRType::Char") == Some("char")
    ensures Recognized("IRType::ExactFloat { width: IRFloatWidth::F32, }") == Some("ExactFloat<f32>")
    ensures Recognized("IRType::ExactFloat { width: IRFloatWidth::F64, }") == Some("ExactFloat<f64>")
    ensures Recognized("IRType::ExactInt { signed, width }") == Some("ExactInt<var>")
  {
    Starts();
    LastCases(Float32());
    LastCases(Float64());
    LastCases(VarInt());
  }
}
