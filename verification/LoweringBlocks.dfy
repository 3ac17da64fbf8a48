/** Emitted arms as the layout reader's bracket counter sees them. */
module LoweringBlocks {
  import opened Wrappers
  import opened LoweringText
  import opened LoweringTypes
  import opened LoweringExpressions
  import opened LoweringTypeRoundTrip
  import opened LoweringRawText
  import opened LoweringBrackets
  import opened LoweringLayout

  // ----- the counter over parts of a line -----

  lemma {:induction false} DepthGlue(a: string, b: string, d: int)
    ensures Depth(a + b, d) == Depth(b, Depth(a, d))
  {
    if a == [] {
      assert a + b == b;
    } else {
      assert (a + b)[1..] == a[1..] + b;
      DepthGlue(a[1..], b, d + Nest(a[0]));
    }
  }

  lemma {:induction false} DepthShifts(s: string, d: int, k: int)
    ensures Depth(s, d + k) == Depth(s, d) + k
  {
    if s != [] {
      DepthShifts(s[1..], d + Nest(s[0]), k);
    }
  }

  predicate HasNoBrackets(s: string) {
    forall i :: 0 <= i < |s| ==> Nest(s[i]) == 0
  }

  lemma {:induction false} PlainDepth(s: string, d: int)
    requires HasNoBrackets(s)
    ensures Depth(s, d) == d
  {
    if s != [] {
      assert forall i :: 0 <= i < |s[1..]| ==> s[1..][i] == s[i + 1];
      PlainDepth(s[1..], d);
    }
  }

  lemma PlainGlue(a: string, b: string)
    requires HasNoBrackets(a) && HasNoBrackets(b)
    ensures HasNoBrackets(a + b)
  {
  }

  lemma PlainIdent(s: string)
    requires AllIdent(s)
    ensures HasNoBrackets(s)
  {
  }

  lemma LineDepth(l: Line, d: int)
    ensures Depth(LineText(l), d) == Depth(l.text, d)
  {
    PlainDepth(Spaces(l.indent), d);
    DepthGlue(Spaces(l.indent), l.text, d);
  }

  /** A plain text and a bracket. */
  lemma BracketDepth(s: string, c: char, d: int)
    requires HasNoBrackets(s)
    ensures Depth(s + [c], d) == d + Nest(c)
  {
    PlainDepth(s, d);
    DepthGlue(s, [c], d);
  }

  /** A plain text, a balanced text in brackets, and a plain text. */
  lemma PairDepth(head: string, inner: string, tail: string, d: int)
    requires HasNoBrackets(head) && HasNoBrackets(tail) && Depth(inner, d + 1) == d + 1
    ensures Depth(head + "(" + inner + ")" + tail, d) == d
  {
    BracketDepth(head, '(', d);
    DepthGlue(head + "(", inner, d);
    DepthGlue(head + "(" + inner, ")", d);
    DepthGlue(head + "(" + inner + ")", tail, d);
    PlainDepth(tail, d);
    BracketDepth("", ')', d + 1);
    assert "" + ")" == ")";
  }

  // ----- the counter over lines -----

  /** The counter behind the lines, `None` if it stops being positive on one of them. */
  function Ahead(lines: seq<Line>, d: int): Option<int> {
    if lines == [] then Some(d)
    else if Depth(lines[0].text, d) <= 0 then None
    else Ahead(lines[1..], Depth(lines[0].text, d))
  }

  lemma {:induction false} AheadSplits(a: seq<Line>, b: seq<Line>, d: int)
    requires Ahead(a, d).Some?
    ensures Ahead(a + b, d) == Ahead(b, Ahead(a, d).value)
  {
    if a == [] {
      assert a + b == b;
    } else {
      assert (a + b)[1..] == a[1..] + b;
      AheadSplits(a[1..], b, Depth(a[0].text, d));
    }
  }

  /** Lines that keep the counter positive are passed over. */
  lemma {:induction false} PassesOver(lines: seq<Line>, rest: seq<string>, d: int)
    requires d > 0 && Ahead(lines, d).Some?
    ensures var more := MoreLines(rest, Ahead(lines, d).value);
            MoreLines(LineTexts(lines) + rest, d) == if more.None? then None else Some(|lines| + more.value)
  {
    if lines == [] {
      assert LineTexts(lines) + rest == rest;
    } else {
      TextsSplit(lines, rest);
      LineDepth(lines[0], d);
      PassesOver(lines[1..], rest, Depth(lines[0].text, d));
    }
  }

  lemma TextsSplit(lines: seq<Line>, rest: seq<string>)
    requires lines != []
    ensures (LineTexts(lines) + rest)[0] == LineText(lines[0])
    ensures (LineTexts(lines) + rest)[1..] == LineTexts(lines[1..]) + rest
  {
  }

  ghost predicate Shifts(s: string, k: int) {
    forall d: int :: Depth(s, d) == d + k
  }

  /** What the last line closes had been open from the start. */
  lemma {:induction false} LastCloses(lines: seq<Line>, close: string, k: int, d: int)
    requires k >= 0 && lines != [] && Ahead(lines, d).Some? && Shifts(close, -k)
    ensures var n := |lines| - 1;
            Ahead(lines[n := lines[n].(text := lines[n].text + close)], d + k) == Ahead(lines, d)
  {
    var n := |lines| - 1;
    var closed := lines[n := lines[n].(text := lines[n].text + close)];
    DepthShifts(lines[0].text, d, k);
    if n > 0 {
      assert closed[1..] == lines[1..][n - 1 := lines[n].(text := lines[n].text + close)];
      LastCloses(lines[1..], close, k, Depth(lines[0].text, d));
    } else {
      DepthGlue(lines[0].text, close, d + k);
      assert closed[1..] == lines[1..] == [];
    }
  }

  lemma WrapAhead(open: string, inner: seq<Line>, close: string, k: int, d: int)
    requires k >= 0 && inner != [] && Ahead(inner, d).Some? && Shifts(open, k) && Shifts(close, -k)
    ensures Ahead(Wrap(open, inner, close), d) == Ahead(inner, d)
  {
    var n := |inner| - 1;
    var closed := inner[n := inner[n].(text := inner[n].text + close)];
    var wrapped := Wrap(open, inner, close);
    LastCloses(inner, close, k, d);
    DepthGlue(open, closed[0].text, d);
    if n == 0 {
      assert (open + inner[0].text) + close == open + (inner[0].text + close);
    }
    assert wrapped[0].text == open + closed[0].text;
    assert wrapped[1..] == closed[1..];
  }

  // ----- the lines of a type -----

  lemma QuietIsPlain(s: string)
    requires IsQuiet(s)
    ensures HasNoBrackets(s)
  {
    forall i | 0 <= i < |s| ensures Nest(s[i]) == 0 {
      assert IsQuietChar(s[i]);
    }
  }

  lemma NameLineDepth(name: string, d: int)
    requires HasNoBrackets(name)
    ensures Depth(NameHead() + name + NameTail(), d) == d
  {
    PlainNames();
    PlainGlue(NameHead(), name);
    PlainGlue(NameHead() + name, "\".to_string");
    PairDepth(NameHead() + name + "\".to_string", "", ",", d);
    NameTailPieces(NameHead() + name);
  }

  lemma PlainNames()
    ensures HasNoBrackets(NameHead()) && HasNoBrackets("\".to_string") && HasNoBrackets(",")
  {
  }

  lemma NameTailPieces(s: string)
    ensures s + NameTail() == s + "\".to_string" + "(" + "" + ")" + ","
  {
    assert NameTail() == "\".to_string" + ("(" + (")" + ","));
  }

  lemma OpeningDepths(d: int)
    ensures Depth(StructOpen(), d) == d + 1 && Depth(EnumOpen(), d) == d + 1 && Depth(TensorOpen(), d) == d + 1
  {
    BracketDepth("IRType::Struct ", '{', d);
    BracketDepth("IRType::Enum ", '{', d);
    BracketDepth("IRType::Tensor ", '{', d);
    assert StructOpen() == "IRType::Struct " + ['{'];
    assert EnumOpen() == "IRType::Enum " + ['{'];
    assert TensorOpen() == "IRType::Tensor " + ['{'];
  }

  lemma FieldsDepth(d: int)
    ensures Depth(Fields(), d) == d && Depth(FieldsTight(), d) == d
  {
    PairDepth("fields: Vec::new", "", ",", d);
    PairDepth("fields: Vec::new", "", "", d);
    assert Fields() == "fields: Vec::new" + "(" + "" + ")" + ",";
    assert FieldsTight() == "fields: Vec::new" + "(" + "" + ")" + "";
  }

  lemma CloseDepth(d: int)
    ensures Depth("}", d) == d - 1 && Depth(")", d) == d - 1
  {
    BracketDepth("", '}', d);
    BracketDepth("", ')', d);
    assert "" + "}" == "}" && "" + ")" == ")";
  }

  lemma Ahead4(a: Line, b: Line, c: Line, e: Line, d: int)
    requires d > 0 && Depth(a.text, d) == d + 1 && Depth(b.text, d + 1) == d + 1
    requires Depth(c.text, d + 1) == d + 1 && Depth(e.text, d + 1) == d
    ensures Ahead([a, b, c, e], d) == Some(d)
  {
    assert [e][1..] == [] && Ahead([e], d + 1) == Ahead([], d);
    assert [c, e][1..] == [e] && Ahead([c, e], d + 1) == Ahead([e], d + 1);
    assert [b, c, e][1..] == [c, e] && Ahead([b, c, e], d + 1) == Ahead([c, e], d + 1);
    assert [a, b, c, e][1..] == [b, c, e];
  }

  /** Lines that leave a positive counter as it is. */
  lemma {:induction false} LevelAhead(lines: seq<Line>, d: int)
    requires d > 0 && forall i :: 0 <= i < |lines| ==> Depth(lines[i].text, d) == d
    ensures Ahead(lines, d) == Some(d)
  {
    if lines != [] {
      assert forall i :: 0 <= i < |lines[1..]| ==> lines[1..][i] == lines[i + 1];
      LevelAhead(lines[1..], d);
    }
  }

  /** An opening line, level lines and a closing line. */
  lemma BlockAhead(open: Line, level: seq<Line>, close: Line, d: int)
    requires d > 0 && Depth(open.text, d) == d + 1 && Depth(close.text, d + 1) == d
    requires forall i :: 0 <= i < |level| ==> Depth(level[i].text, d + 1) == d + 1
    ensures Ahead([open] + level + [close], d) == Some(d)
  {
    var lines := [open] + level + [close];
    LevelAhead(level, d + 1);
    AheadSplits(level, [close], d + 1);
    assert [close][1..] == [] && Ahead([close], d + 1) == Ahead([], d);
    assert lines[1..] == level + [close];
  }

  lemma CollectionAhead(kind: string, args: string, indent: nat, d: int)
    requires IsRenderable(Collection(kind, args)) && IsQuiet(StructName(kind, args)) && d > 0
    ensures Ahead(RenderType(Collection(kind, args), indent), d) == Some(d)
  {
    var name := StructName(kind, args);
    QuietIsPlain(name);
    OpeningDepths(d);
    NameLineDepth(name, d + 1);
    FieldsDepth(d + 1);
    CloseDepth(d + 1);
    Ahead4(Line(indent, StructOpen()), Line(indent + 4, NameHead() + name + NameTail()),
           Line(indent + 4, Fields()), Line(indent, "}"), d);
  }

  lemma VariantDepths(d: int)
    ensures Depth(Variants() + "vec![", d) == d && Depth("],", d) == d
  {
    PlainVariants();
    PlainDepth(Variants() + "vec![", d);
    PlainDepth("],", d);
  }

  lemma PlainVariants()
    ensures HasNoBrackets(Variants() + "vec![") && HasNoBrackets("],")
    ensures HasNoBrackets("\"Some\".to_string") && HasNoBrackets("\"None\".to_string")
    ensures HasNoBrackets(", None") && HasNoBrackets(", Some") && HasNoBrackets("vec![IRType::String]")
  {
  }

  /** `(word(), payload),` */
  lemma VariantDepth(word: string, payload: string, d: int)
    requires HasNoBrackets(word) && forall x: int :: Depth(payload, x) == x
    ensures Depth("(" + (word + "(" + "" + ")" + payload) + ")" + ",", d) == d
  {
    PairDepth(word, "", "", d + 1);
    DepthGlue(word + "(" + "" + ")" + "", payload, d + 1);
    assert word + "(" + "" + ")" + "" + payload == word + "(" + "" + ")" + payload;
    PairDepth("", word + "(" + "" + ")" + payload, ",", d);
    assert "" + "(" == "(";
  }

  lemma NoneVariantDepth(d: int)
    ensures Depth(NoneVariant(), d) == d
  {
    PlainVariants();
    forall x: int ensures Depth(", None", x) == x {
      PlainDepth(", None", x);
    }
    VariantDepth("\"None\".to_string", ", None", d);
    NonePieces();
  }

  lemma NonePieces()
    ensures NoneVariant() == "(" + ("\"None\".to_string" + "(" + "" + ")" + ", None") + ")" + ","
  {
    assert "(\"None\".to_string()," == "(" + ("\"None\".to_string" + "(" + "" + ")") + ",";
    assert ", None" == "," + " " + "None" && "None)," == "None" + ")" + ",";
  }

  lemma SomeVariantDepth(d: int)
    ensures Depth(SomeVariant(), d) == d
  {
    PlainVariants();
    var payload := ", Some" + "(" + "vec![IRType::String]" + ")" + "";
    forall x: int ensures Depth(payload, x) == x {
      PlainDepth("vec![IRType::String]", x + 1);
      PairDepth(", Some", "vec![IRType::String]", "", x);
    }
    VariantDepth("\"Some\".to_string", payload, d);
    SomePieces();
  }

  lemma SomePieces()
    ensures SomeVariant()
         == "(" + ("\"Some\".to_string" + "(" + "" + ")" + (", Some" + "(" + "vec![IRType::String]" + ")" + "")) + ")"
           + ","
  {
    assert "(\"Some\".to_string()," == "(" + ("\"Some\".to_string" + "()") + ",";
    assert ", Some" == "," + " " + "Some" && "()" == "(" + ")";
    assert "Some(vec![IRType::String]))," == "Some" + "(" + "vec![IRType::String]" + ")" + ")" + ",";
    SomeRegroup("\"Some\".to_string", "Some", "vec![IRType::String]");
  }

  lemma SomeRegroup(word: string, some: string, inner: string)
    ensures "(" + (word + ("(" + ")")) + "," + " " + (some + "(" + inner + ")" + ")" + ",")
         == "(" + (word + "(" + "" + ")" + (("," + " " + some) + "(" + inner + ")" + "")) + ")" + ","
  {
  }

  lemma OptionAhead(indent: nat, d: int)
    requires d > 0
    ensures Ahead(RenderType(OptionString, indent), d) == Some(d)
  {
    OpeningDepths(d);
    CloseDepth(d + 1);
    PlainIdent("Option_string");
    NameLineDepth("Option_string", d + 1);
    VariantDepths(d + 1);
    SomeVariantDepth(d + 1);
    NoneVariantDepth(d + 1);
    var level := [Line(indent + 4, NameHead() + "Option_string" + NameTail()), Line(indent + 4, Variants() + "vec!["),
                  Line(indent + 8, SomeVariant()), Line(indent + 8, NoneVariant()), Line(indent + 4, "],")];
    BlockAhead(Line(indent, EnumOpen()), level, Line(indent, "}"), d);
    assert RenderType(OptionString, indent) == [Line(indent, EnumOpen())] + level + [Line(indent, "}")];
  }

  lemma DtypeDepth(dtype: string, d: int)
    ensures Depth(DtypeHead() + DtypeExpr(dtype) + DtypeTail(), d) == d
  {
    PlainDtypes(dtype);
    PlainDepth(DtypeExpr(dtype), d + 1);
    PairDepth("dtype: Box::new", DtypeExpr(dtype), ",", d);
    assert DtypeHead() == "dtype: Box::new" + "(" && DtypeTail() == ")" + ",";
    assert "dtype: Box::new" + "(" + DtypeExpr(dtype) + (")" + ",")
        == "dtype: Box::new" + "(" + DtypeExpr(dtype) + ")" + ",";
  }

  lemma PlainDtypes(dtype: string)
    ensures HasNoBrackets(DtypeExpr(dtype)) && HasNoBrackets("dtype: Box::new") && HasNoBrackets("rank: Some")
    ensures HasNoBrackets("rank: None,") && HasNoBrackets(",")
  {
    PlainGlue("IRType::", DtypeName(dtype));
  }

  lemma RankDepth(rank: Option<string>, d: int)
    requires rank.Some? ==> IsDigits(rank.value)
    ensures Depth(RankHead() + RankExpr(rank) + ",", d) == d
  {
    PlainDtypes("float");
    if rank.Some? {
      PlainIdent(rank.value);
      PlainDepth(rank.value, d + 1);
      PairDepth("rank: Some", rank.value, ",", d);
      assert RankHead() + ("Some(" + rank.value + ")") + "," == "rank: Some" + "(" + rank.value + ")" + ",";
    } else {
      PlainDepth("rank: None,", d);
      assert RankHead() + "None" + "," == "rank: None,";
    }
  }

  lemma NoneLineDepths(d: int)
    ensures Depth("dims: None,", d) == d && Depth("layout: None,", d) == d && Depth("device: None,", d) == d
  {
    PlainNoneLines();
    PlainDepth("dims: None,", d);
    PlainDepth("layout: None,", d);
    PlainDepth("device: None,", d);
  }

  lemma PlainNoneLines()
    ensures HasNoBrackets("dims: None,") && HasNoBrackets("layout: None,") && HasNoBrackets("device: None,")
  {
  }

  lemma TensorAhead(dtype: string, rank: Option<string>, indent: nat, d: int)
    requires IsRenderable(Tensor(dtype, rank)) && d > 0
    ensures Ahead(RenderType(Tensor(dtype, rank), indent), d) == Some(d)
  {
    OpeningDepths(d);
    CloseDepth(d + 1);
    DtypeDepth(dtype, d + 1);
    RankDepth(rank, d + 1);
    NoneLineDepths(d + 1);
    var level := [Line(indent + 4, DtypeHead() + DtypeExpr(dtype) + DtypeTail()),
                  Line(indent + 4, RankHead() + RankExpr(rank) + ","), Line(indent + 4, "dims: None,"),
                  Line(indent + 4, "layout: None,"), Line(indent + 4, "device: None,")];
    BlockAhead(Line(indent, TensorOpen()), level, Line(indent, "}"), d);
    assert RenderType(Tensor(dtype, rank), indent) == [Line(indent, TensorOpen())] + level + [Line(indent, "}")];
  }

  lemma SimpleDepth(name: string, d: int)
    requires SimpleIr(name).Some?
    ensures Depth(SimpleIr(name).value, d) == d
  {
    if name == "BitSet" || name == "DisjointSet" {
      SimpleIsStruct(name);
      PlainName(name);
      StructDepth(name, d);
    } else {
      PlainScalars();
      PlainDepth(SimpleIr(name).value, d);
    }
  }

  lemma PlainScalars()
    ensures HasNoBrackets("IRType::Int") && HasNoBrackets("IRType::Bool") && HasNoBrackets("IRType::String")
    ensures HasNoBrackets("IRType::Float") && HasNoBrackets("IRType::Void")
    ensures HasNoBrackets("IRType::Unknown") && HasNoBrackets("IRType::Range")
  {
  }

  lemma StructDepth(name: string, d: int)
    requires AllIdent(name)
    ensures Depth(StructHead() + name + StructTailTight(), d) == d
  {
    var line := NameHead() + name + NameTail();
    PlainIdent(name);
    OpeningDepths(d);
    NameLineDepth(name, d + 1);
    FieldsDepth(d + 1);
    CloseDepth(d + 1);
    PlainDepth(" ", d + 1);
    DepthGlue(StructOpen(), " ", d);
    DepthGlue(StructOpen() + " ", line, d);
    DepthGlue(StructOpen() + " " + line, " ", d);
    DepthGlue(StructOpen() + " " + line + " ", FieldsTight(), d);
    DepthGlue(StructOpen() + " " + line + " " + FieldsTight(), " ", d);
    DepthGlue(StructOpen() + " " + line + " " + FieldsTight() + " ", "}", d);
    StructRegroup(StructOpen(), NameHead(), name, NameTail(), FieldsTight());
  }

  lemma StructRegroup(a: string, b: string, name: string, c: string, e: string)
    ensures a + " " + (b + name + c) + " " + e + " " + "}" == (a + " " + b) + name + (c + " " + e + " " + "}")
  {
  }

  lemma OneAhead(l: Line, d: int)
    requires d > 0 && Depth(l.text, d) == d
    ensures Ahead([l], d) == Some(d)
  {
    assert [l][1..] == [];
  }

  lemma CallShifts()
    ensures Shifts(ResultCall(), 1) && Shifts(")", -1)
  {
    PlainCalls();
    forall d: int ensures Depth(ResultCall(), d) == d + 1 && Depth(")", d) == d - 1 {
      BracketDepth("builtin_result_ir_type", '(', d);
      assert ResultCall() == "builtin_result_ir_type" + ['('];
      CloseDepth(d);
    }
  }

  lemma PlainCalls()
    ensures HasNoBrackets("builtin_result_ir_type") && HasNoBrackets("builtin_error_ir_type")
  {
  }

  lemma ErrorDepth(d: int)
    ensures Depth(ErrorExpr(), d) == d
  {
    PlainCalls();
    PairDepth("builtin_error_ir_type", "", "", d);
    assert ErrorExpr() == "builtin_error_ir_type" + "(" + "" + ")" + "";
  }

  /** A printed type keeps a positive counter positive on each line and leaves it as it was. */
  lemma {:induction false} TypeAhead(t: IrType, indent: nat, d: int)
    requires IsRenderable(t) && HasPlainNames(t) && d > 0
    ensures Ahead(RenderType(t, indent), d) == Some(d)
  {
    match t
    case Simple(name) => SimpleDepth(name, d); OneAhead(Line(indent, SimpleIr(name).value), d);
    case ErrorType => ErrorDepth(d); OneAhead(Line(indent, ErrorExpr()), d);
    case ResultOf(inner) =>
      TypeAhead(inner, indent, d);
      CallShifts();
      WrapAhead(ResultCall(), RenderType(inner, indent), ")", 1, d);
    case OptionString => OptionAhead(indent, d);
    case Collection(kind, args) => CollectionAhead(kind, args, indent, d);
    case Tensor(dtype, rank) => TensorAhead(dtype, rank, indent, d);
  }

  // ----- the lines of an arm -----

  /** The counter reaches zero on the last of the lines and not before. */
  predicate IsBlock(lines: seq<Line>) {
    && lines != []
    && var n := |lines| - 1;
       && (n > 0 ==> Depth(lines[0].text, 0) > 0)
       && (n > 0 ==> var ahead := Ahead(lines[1..n], Depth(lines[0].text, 0));
                     ahead.Some? && Depth(lines[n].text, ahead.value) == 0)
       && (n == 0 ==> Depth(lines[0].text, 0) == 0)
  }

  /** The reader takes exactly the lines of a block. */
  lemma BlockIsTaken(lines: seq<Line>, rest: seq<string>)
    requires IsBlock(lines)
    ensures var all := LineTexts(lines) + rest;
            MoreLines(all[1..], Depth(all[0], 0)) == Some(|lines| - 1)
  {
    var all, n := LineTexts(lines) + rest, |lines| - 1;
    LineDepth(lines[0], 0);
    if n > 0 {
      var middle, d := lines[1..n], Depth(lines[0].text, 0);
      var e := Ahead(middle, d).value;
      AheadIsPositive(middle, d);
      assert all[1..] == LineTexts(middle) + ([LineText(lines[n])] + rest);
      PassesOver(middle, [LineText(lines[n])] + rest, d);
      LineDepth(lines[n], e);
      assert ([LineText(lines[n])] + rest)[1..] == rest;
      assert MoreLines(rest, 0) == Some(0);
      assert MoreLines([LineText(lines[n])] + rest, e) == Some(1);
    }
  }

  lemma {:induction false} AheadIsPositive(lines: seq<Line>, d: int)
    requires d > 0 && Ahead(lines, d).Some?
    ensures Ahead(lines, d).value > 0
  {
    if lines != [] {
      AheadIsPositive(lines[1..], Depth(lines[0].text, d));
    }
  }
}
