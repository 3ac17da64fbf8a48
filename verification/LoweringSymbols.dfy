/** The host symbol of an arm: what the generator prints is what the catalog reader reads. */
module LoweringSymbols {
  import opened Wrappers
  import opened PythonText
  import opened LoweringText
  import opened LoweringTypes
  import opened LoweringExpressions
  import opened LoweringTypeTheorems
  import opened LoweringTypeRoundTrip
  import opened LoweringArms
  import opened LoweringDescriptors
  import opened LoweringRawText
  import opened LoweringBrackets
  import opened LoweringArmRoundTrip
  import opened LoweringOddNames
  import opened LoweringHelperArms

  // ----- quoted texts -----

  lemma {:induction false} QuoteEnds(path: string, post: string)
    requires '"' !in path
    ensures UpToQuote(path + ("\"" + post)) == |path|
  {
    var s := path + ("\"" + post);
    if path == [] {
      assert s[0] == '"';
    } else {
      assert s[0] == path[0] && s[1..] == path[1..] + ("\"" + post);
      QuoteEnds(path[1..], post);
    }
  }

  lemma PathHasNoQuote(path: string)
    requires IsPath(path)
    ensures '"' !in path
  {
  }

  /** Key, whitespace and a quoted name. */
  lemma QuotedIsHere(key: string, gap: string, path: string, post: string)
    requires AreSpaces(gap) && IsPath(path)
    ensures QuotedHere(key + (gap + (Quoted(path) + post)), key) == Some(path)
  {
    var rest := Quoted(path) + post;
    AppendStarts(key, gap + rest);
    assert (key + (gap + rest))[|key|..] == gap + rest;
    StripLeftOfAppend(gap, rest);
    StripLeftOfSpaces(gap);
    assert [] + rest == rest;
    QuotedInFront(path, post);
    QuotedBy(key + (gap + rest), key, rest, path);
  }

  lemma QuotedInFront(path: string, post: string)
    requires IsPath(path)
    ensures var rest := Quoted(path) + post;
            && rest != [] && rest[0] == '"' && 0 < UpToQuote(rest[1..]) < |rest[1..]|
            && rest[1..][..UpToQuote(rest[1..])] == path
  {
    var rest := Quoted(path) + post;
    assert rest[1..] == path + ("\"" + post);
    PathHasNoQuote(path);
    QuoteEnds(path, post);
    assert (path + ("\"" + post))[..|path|] == path;
  }

  lemma QuotedBy(s: string, key: string, rest: string, path: string)
    requires StartsWith(s, key) && StripLeft(s[|key|..]) == rest && rest != [] && rest[0] == '"'
    requires 0 < UpToQuote(rest[1..]) < |rest[1..]| && rest[1..][..UpToQuote(rest[1..])] == path
    ensures QuotedHere(s, key) == Some(path)
  {
  }

  // ----- struct arms with a quoted name -----

  lemma NameKeyIsKey()
    ensures IsKey(NameKey(), 'm', 'e')
  {
  }

  lemma {:induction false} FindsName(pre: string, path: string, post: string)
    requires HasNoKeyEnd(pre, 'm', 'e') && IsPath(path)
    ensures FindQuoted(pre + NameKey() + (" " + (Quoted(path) + post)), NameKey()) == Some(path)
  {
    var rest := " " + (Quoted(path) + post);
    var s := pre + NameKey() + rest;
    if pre == [] {
      assert s == NameKey() + rest;
      QuotedIsHere(NameKey(), " ", path, post);
    } else {
      NameKeyIsKey();
      KeyDoesNotStartHere(pre, NameKey(), rest, 'm', 'e');
      assert s[1..] == pre[1..] + NameKey() + rest;
      FindsName(pre[1..], path, post);
    }
  }

  function NameFront(): string { Opening() + Gap(12) }

  lemma NameFrontIsCalm()
    ensures ':' !in NameFront() && HasNoKeyEnd(NameFront(), 'm', 'e')
  {
    OpeningIsCalm();
  }

  /** The body of a struct arm, taken apart at the key of the name. */
  lemma BodyAtName(runtime: string, behind: string)
    ensures BeforeKey(runtime) + TypeKey() + behind
         == NameFront() + NameKey() + (" " + (runtime + ("," + Gap(12) + TypeKey() + behind)))
  {
    assert "runtime_name: " == NameKey() + " ";
  }

  lemma QuotedStructSymbol(path: string, behind: string)
    requires IsPath(path)
    ensures RuntimeName(BeforeKey(Quoted(path)) + TypeKey() + behind) == path
  {
    var runtime := Quoted(path);
    NoColonInPath(path);
    TypeKeyIsFound(runtime, BeforeKey(runtime) + TypeKey() + behind, behind);
    BodyAtName(runtime, behind);
    NameFrontIsCalm();
    FindsName(NameFront(), path, "," + Gap(12) + TypeKey() + behind);
  }

  // ----- struct arms with a shared constant -----

  /** No colon has `_n` five characters before it, as the one of the name's key has. */
  predicate HasNoName(s: string) {
    forall j :: 5 <= j < |s| && s[j] == ':' ==> !(s[j - 5] == '_' && s[j - 4] == 'n')
  }

  /** And none is among the first five characters. */
  predicate IsTame(s: string) {
    (forall j :: 0 <= j < |s| && j < 5 ==> s[j] != ':') && HasNoName(s)
  }

  lemma TameGlue(a: string, b: string)
    requires HasNoName(a) && IsTame(b)
    ensures HasNoName(a + b)
  {
    var s := a + b;
    forall j | 5 <= j < |s| && s[j] == ':' ensures !(s[j - 5] == '_' && s[j - 4] == 'n') {
      if j >= |a| {
        assert s[j] == b[j - |a|];
        assert j - |a| >= 5;
        assert s[j - 5] == b[j - |a| - 5] && s[j - 4] == b[j - |a| - 4];
      }
    }
  }

  /** Behind whitespace nothing needs to be looked at. */
  lemma GapGlue(a: string, indent: nat, b: string)
    requires HasNoName(a) && HasNoName(b) && indent >= 4
    ensures HasNoName(a + Gap(indent) + b)
  {
    var g := Gap(indent);
    var s, n := a + g + b, |a + g|;
    forall j | 5 <= j < |s| && s[j] == ':' ensures !(s[j - 5] == '_' && s[j - 4] == 'n') {
      if j >= n {
        assert s[j] == b[j - n];
        if j - n >= 5 {
          assert s[j - 5] == b[j - n - 5] && s[j - 4] == b[j - n - 4];
        } else {
          assert s[j - 5] == g[j - 5 - |a|];
        }
      }
    }
  }

  lemma NameNotHere(s: string, rest: string)
    requires HasNoName(s)
    ensures s != [] ==> !StartsWith(s + "\n" + rest, NameKey())
  {
    var t := s + "\n" + rest;
    if 0 < |s| <= 12 {
      assert t[|s|] == '\n';
      OtherHead(t, NameKey(), |s|);
    } else if |s| > 12 {
      if s[12] != ':' {
        OtherHead(t, NameKey(), 12);
      } else if s[7] != '_' {
        OtherHead(t, NameKey(), 7);
      } else {
        OtherHead(t, NameKey(), 8);
      }
    }
  }

  lemma {:induction false} NoNameInText(s: string, rest: string)
    requires HasNoName(s) && !Has(rest, NameKey())
    ensures FindQuoted(s + "\n" + rest, NameKey()).None?
  {
    var t := s + "\n" + rest;
    if s == [] {
      assert t[1..] == rest;
      OtherHead(t, NameKey(), 0);
      NoKeyNoName(rest);
    } else {
      NameNotHere(s, rest);
      assert t[1..] == s[1..] + "\n" + rest;
      NoNameInText(s[1..], rest);
    }
  }

  lemma {:induction false} NoKeyNoName(rest: string)
    requires !Has(rest, NameKey())
    ensures FindQuoted(rest, NameKey()).None?
  {
    if rest != [] {
      NoKeyNoName(rest[1..]);
    }
  }

  // ----- a printed type is tame -----

  predicate HaveNoName(lines: seq<Line>) {
    forall i :: 0 <= i < |lines| ==> HasNoName(lines[i].text) && lines[i].indent >= 4
  }

  lemma {:induction false} RawHasNoName(lines: seq<Line>)
    requires lines != [] && HaveNoName(lines)
    ensures HasNoName(Raw(lines))
  {
    if |lines| > 1 {
      RawHasNoName(lines[1..]);
      GapGlue(lines[0].text, lines[1].indent, Raw(lines[1..]));
    }
  }

  lemma EarlyColon(s: string)
    requires forall j :: 5 <= j < |s| ==> s[j] != ':'
    ensures HasNoName(s)
  {
  }

  lemma NameLineHasNoName(name: string)
    requires AllIdent(name)
    ensures HasNoName(NameHead() + name + NameTail())
  {
    var s := NameHead() + name + NameTail();
    forall j | 5 <= j < |s| ensures s[j] != ':' {
      if 7 <= j < 7 + |name| {
        assert s[j] == name[j - 7];
      } else if j >= 7 + |name| {
        assert s[j] == NameTail()[j - 7 - |name|];
      }
    }
    EarlyColon(s);
  }

  lemma StructPiecesHaveNoName()
    ensures HasNoName(StructOpen()) && HasNoName(EnumOpen()) && HasNoName(TensorOpen()) && HasNoName(Fields())
    ensures HasNoName("}") && HasNoName("],")
  {
  }

  lemma VariantPiecesHaveNoName()
    ensures HasNoName(Variants() + "vec![") && HasNoName(SomeVariant()) && HasNoName(NoneVariant())
  {
    assert HasNoName("(\"Some\".to_string()," + " ") && IsTame("Some(vec![IRType::String])),");
    TameGlue("(\"Some\".to_string()," + " ", "Some(vec![IRType::String])),");
    assert ':' !in NoneVariant();
  }

  lemma TensorPiecesHaveNoName()
    ensures HasNoName(DtypeHead()) && HasNoName("dims: None,") && HasNoName("layout: None,")
    ensures HasNoName("device: None,") && IsTame("IRType::Float") && IsTame("IRType::Int") && IsTame(DtypeTail())
  {
  }

  lemma DtypeHasNoName(dtype: string)
    ensures HasNoName(DtypeHead() + DtypeExpr(dtype) + DtypeTail())
  {
    TensorPiecesHaveNoName();
    assert DtypeExpr(dtype) == "IRType::Float" || DtypeExpr(dtype) == "IRType::Int";
    TameGlue(DtypeHead(), DtypeExpr(dtype));
    TameGlue(DtypeHead() + DtypeExpr(dtype), DtypeTail());
  }

  lemma RankHasNoName(rank: Option<string>)
    requires rank.Some? ==> IsDigits(rank.value)
    ensures HasNoName(RankHead() + RankExpr(rank) + ",")
  {
    assert ':' !in RankExpr(rank) + ",";
    TameGlue(RankHead(), RankExpr(rank) + ",");
    Glue(RankHead(), RankExpr(rank), ",");
  }

  lemma Lines4(a: Line, b: Line, c: Line, d: Line)
    requires HasNoName(a.text) && HasNoName(b.text) && HasNoName(c.text) && HasNoName(d.text)
    requires a.indent >= 4 && b.indent >= 4 && c.indent >= 4 && d.indent >= 4
    ensures HaveNoName([a, b, c, d]) && HaveNoName([a, b, c])
  {
  }

  lemma LinesTwo(a: seq<Line>, b: seq<Line>)
    requires HaveNoName(a) && HaveNoName(b)
    ensures HaveNoName(a + b)
  {
  }

  lemma CollectionHasNoName(kind: string, args: string)
    requires IsRenderable(Collection(kind, args)) && AllIdent(StructName(kind, args))
    ensures HaveNoName(RenderType(Collection(kind, args), 12))
  {
    var name := StructName(kind, args);
    StructPiecesHaveNoName();
    NameLineHasNoName(name);
    Lines4(Line(12, StructOpen()), Line(16, NameHead() + name + NameTail()), Line(16, Fields()), Line(12, "}"));
  }

  lemma OptionHasNoName()
    ensures HaveNoName(RenderType(OptionString, 12))
  {
    var open, name := Line(12, EnumOpen()), Line(16, NameHead() + "Option_string" + NameTail());
    var variants, some := Line(16, Variants() + "vec!["), Line(20, SomeVariant());
    var none, end, close := Line(20, NoneVariant()), Line(16, "],"), Line(12, "}");
    StructPiecesHaveNoName();
    VariantPiecesHaveNoName();
    NameLineHasNoName("Option_string");
    Lines4(open, name, variants, some);
    Lines4(none, end, close, close);
    LinesTwo([open, name, variants, some], [none, end, close]);
    assert [open, name, variants, some] + [none, end, close] == RenderType(OptionString, 12);
  }

  lemma TensorHasNoName(dtype: string, rank: Option<string>)
    requires IsRenderable(Tensor(dtype, rank))
    ensures HaveNoName(RenderType(Tensor(dtype, rank), 12))
  {
    var open, box := Line(12, TensorOpen()), Line(16, DtypeHead() + DtypeExpr(dtype) + DtypeTail());
    var ranked := Line(16, RankHead() + RankExpr(rank) + ",");
    StructPiecesHaveNoName();
    TensorPiecesHaveNoName();
    DtypeHasNoName(dtype);
    RankHasNoName(rank);
    Lines4(open, box, ranked, ranked);
    Lines4(Line(16, "dims: None,"), Line(16, "layout: None,"), Line(16, "device: None,"), Line(12, "}"));
    LinesTwo([open, box, ranked], NoneLines(12));
    assert [open, box, ranked] + NoneLines(12) == RenderType(Tensor(dtype, rank), 12);
  }

  lemma ScalarsHaveNoName()
    ensures HasNoName("IRType::Int") && HasNoName("IRType::Bool") && HasNoName("IRType::String")
    ensures HasNoName("IRType::Float") && HasNoName("IRType::Void") && HasNoName("IRType::Unknown")
    ensures HasNoName("IRType::Range")
  {
  }

  lemma FlatParts(name: string)
    ensures HasNoName(StructOpen() + " ") && IsTame(" " + FieldsTight() + " " + "}")
    ensures StructOpen() + " " + NameHead() + name + NameTail() + " " + FieldsTight() + " " + "}"
         == (StructOpen() + " ") + (NameHead() + name + NameTail()) + (" " + FieldsTight() + " " + "}")
  {
  }

  lemma NameLineShape(name: string)
    ensures var line := NameHead() + name + NameTail();
            |line| > 5 && line[4] == ':' && forall j :: 0 <= j < 4 ==> line[j] != ':'
  {
    var line := NameHead() + name + NameTail();
    assert forall j :: 0 <= j < 5 ==> line[j] == NameHead()[j];
  }

  lemma FlatStructHasNoName(name: string)
    requires AllIdent(name)
    ensures HasNoName(StructOpen() + " " + NameHead() + name + NameTail() + " " + FieldsTight() + " " + "}")
  {
    FlatParts(name);
    NameLineHasNoName(name);
    NameLineShape(name);
    FlatGlue(StructOpen() + " ", NameHead() + name + NameTail(), " " + FieldsTight() + " " + "}");
  }

  lemma FlatGlue(open: string, line: string, back: string)
    requires |open| >= 2 && open[|open| - 1] == ' ' && HasNoName(open) && HasNoName(line) && IsTame(back)
    requires |line| > 5 && line[4] == ':' && forall j :: 0 <= j < 4 ==> line[j] != ':'
    ensures HasNoName(open + line + back)
  {
    SpacedName(open, line);
    TameGlue(open + line, back);
  }

  /** The name's colon has a bracket and a blank before it. */
  lemma SpacedName(open: string, line: string)
    requires |open| >= 2 && open[|open| - 1] == ' ' && HasNoName(open) && HasNoName(line)
    requires |line| > 5 && line[4] == ':' && forall j :: 0 <= j < 4 ==> line[j] != ':'
    ensures HasNoName(open + line)
  {
    var s, n := open + line, |open|;
    forall j | 5 <= j < |s| && s[j] == ':' ensures !(s[j - 5] == '_' && s[j - 4] == 'n') {
      if j >= n {
        assert s[j] == line[j - n];
        if j - n >= 5 {
          assert s[j - 5] == line[j - n - 5] && s[j - 4] == line[j - n - 4];
        } else {
          assert s[j - 5] == open[n - 1];
        }
      }
    }
  }

  lemma SimpleHasNoName(name: string)
    requires SimpleIr(name).Some?
    ensures IsTame(SimpleIr(name).value)
  {
    if name == "BitSet" || name == "DisjointSet" {
      PlainName(name);
      FlatStructHasNoName(name);
      FlatStarts(name);
    } else {
      ScalarsHaveNoName();
    }
  }

  lemma FlatStarts(name: string)
    ensures var s := StructOpen() + " " + NameHead() + name + NameTail() + " " + FieldsTight() + " " + "}";
            forall j :: 0 <= j < 5 ==> j < |s| && s[j] != ':'
  {
    var s := StructOpen() + " " + NameHead() + name + NameTail() + " " + FieldsTight() + " " + "}";
    assert forall j :: 0 <= j < 5 ==> s[j] == StructOpen()[j];
  }

  /** The expression of a type starts with a word of at least five letters. */
  lemma TypeStartsTame(lines: seq<Line>, first: string)
    requires lines != [] && lines[0].text == first && HasNoName(Raw(lines))
    requires |first| >= 5 && forall j :: 0 <= j < 5 ==> first[j] != ':'
    ensures IsTame(Raw(lines))
  {
    assert |lines| > 1 ==> Raw(lines) == first + (Gap(lines[1].indent) + Raw(lines[1..]));
  }

  lemma LinesAreTame(t: IrType)
    requires IsRenderable(t) && HasIdentNames(t) && (t.OptionString? || t.Collection? || t.Tensor?)
    ensures IsTame(Raw(RenderType(t, 12)))
  {
    match t
    case OptionString => OptionIsTame();
    case Collection(kind, args) => CollectionIsTame(kind, args);
    case Tensor(dtype, rank) => TensorIsTame(dtype, rank);
  }

  lemma OptionIsTame()
    ensures IsTame(Raw(RenderType(OptionString, 12)))
  {
    var lines := RenderType(OptionString, 12);
    OptionHasNoName();
    RawHasNoName(lines);
    TypeStartsTame(lines, EnumOpen());
  }

  lemma CollectionIsTame(kind: string, args: string)
    requires IsRenderable(Collection(kind, args)) && HasIdentNames(Collection(kind, args))
    ensures IsTame(Raw(RenderType(Collection(kind, args), 12)))
  {
    var lines := RenderType(Collection(kind, args), 12);
    CollectionHasNoName(kind, args);
    RawHasNoName(lines);
    TypeStartsTame(lines, StructOpen());
  }

  lemma TensorIsTame(dtype: string, rank: Option<string>)
    requires IsRenderable(Tensor(dtype, rank)) && HasIdentNames(Tensor(dtype, rank))
    ensures IsTame(Raw(RenderType(Tensor(dtype, rank), 12)))
  {
    var lines := RenderType(Tensor(dtype, rank), 12);
    TensorHasNoName(dtype, rank);
    RawHasNoName(lines);
    TypeStartsTame(lines, TensorOpen());
  }

  lemma ErrorIsTame()
    ensures IsTame(ErrorExpr())
  {
    assert ':' !in ErrorExpr();
  }

  lemma {:induction false} TypeIsTame(t: IrType)
    requires IsRenderable(t) && HasIdentNames(t)
    ensures IsTame(Raw(RenderType(t, 12)))
  {
    match t
    case Simple(name) => SimpleHasNoName(name);
    case ErrorType => ErrorIsTame();
    case ResultOf(inner) =>
      TypeIsTame(inner);
      RawOfWrap(ResultCall(), RenderType(inner, 12), ")");
      ResultIsTame(Raw(RenderType(inner, 12)));
    case _ => LinesAreTame(t);
  }

  lemma ResultIsTame(inner: string)
    requires IsTame(inner)
    ensures IsTame(ResultCall() + inner + ")")
  {
    TameGlue(ResultCall(), inner);
    TameGlue(ResultCall() + inner, ")");
    var s := ResultCall() + inner + ")";
    assert s == ResultCall() + (inner + ")");
    assert forall j :: 0 <= j < 5 ==> s[j] == ResultCall()[j];
  }

  // ----- the body behind a shared constant -----

  function SharedText(name: (string, string)): string {
    "spectra_contract::" + ConstantName(name)
  }

  lemma SharedPrefix()
    ensures HasNoName(" spectra_contract::")
    ensures forall j :: 0 <= j < 12 ==> " spectra_contract::"[j] != ':'
  {
  }

  lemma SharedHasNoName(name: (string, string))
    ensures HasNoName(" " + SharedText(name)) && |SharedText(name)| > 12
    ensures forall j :: 0 <= j < 12 ==> (" " + SharedText(name))[j] != ':'
  {
    SharedPrefix();
    ConstantIsPlain(name);
    assert ':' !in ConstantName(name);
    TameGlue(" spectra_contract::", ConstantName(name));
    assert " " + SharedText(name) == " spectra_contract::" + ConstantName(name);
  }

  /** From the constant to the end of the arm. */
  function BehindConstant(shared: string, raw: string, flag: bool): string {
    " " + shared + "," + Gap(12) + (TypeKey() + " " + raw + ",") + Gap(12) + (FlagKey() + " " + FlagText(flag) + ",")
    + Gap(8) + "}),"
  }

  lemma TypeFieldHasNoName(raw: string)
    requires IsTame(raw)
    ensures HasNoName(TypeKey() + " " + raw + ",")
  {
    TameGlue(TypeKey() + " ", raw);
    TameGlue(TypeKey() + " " + raw, ",");
  }

  lemma FlagFieldHasNoName(flag: bool)
    ensures HasNoName(FlagKey() + " " + FlagText(flag) + ",")
  {
    assert ':' !in FlagText(flag) + ",";
    TameGlue(FlagKey() + " ", FlagText(flag) + ",");
    Glue(FlagKey() + " ", FlagText(flag), ",");
  }

  lemma BehindConstantHasNoName(shared: string, raw: string, flag: bool)
    requires HasNoName(" " + shared) && IsTame(raw)
    ensures HasNoName(BehindConstant(shared, raw, flag))
  {
    TypeFieldHasNoName(raw);
    FlagFieldHasNoName(flag);
    TameGlue(" " + shared, ",");
    GapGlue(" " + shared + ",", 12, TypeKey() + " " + raw + ",");
    var front := " " + shared + "," + Gap(12) + (TypeKey() + " " + raw + ",");
    GapGlue(front, 12, FlagKey() + " " + FlagText(flag) + ",");
    GapGlue(front + Gap(12) + (FlagKey() + " " + FlagText(flag) + ","), 8, "}),");
  }

  /** The key itself and nothing in it is followed by a quote. */
  lemma NotQuoted(behind: string)
    requires |behind| > 12 && behind[0] == ' ' && !IsSpace(behind[1]) && behind[1] != '"'
    ensures QuotedHere(NameKey() + behind, NameKey()).None?
  {
    AppendStarts(NameKey(), behind);
    OneSpace(behind[1], behind[2..]);
    assert behind == " " + ([behind[1]] + behind[2..]);
  }

  lemma {:induction false} InsideKey(k: nat, behind: string)
    requires 0 < k <= 13 && |behind| > 12 && forall j :: 0 <= j < 12 ==> behind[j] != ':'
    ensures FindQuoted(NameKey()[k..] + behind, NameKey()) == FindQuoted(behind, NameKey())
    decreases 13 - k
  {
    var s := NameKey()[k..] + behind;
    if k == 13 {
      assert s == behind;
    } else {
      assert s[12] == behind[k - 1];
      OtherHead(s, NameKey(), 12);
      assert s[1..] == NameKey()[k + 1..] + behind;
      InsideKey(k + 1, behind);
    }
  }

  lemma {:induction false} FrontHasNoName(pre: string, behind: string)
    requires HasNoKeyEnd(pre, 'm', 'e')
    ensures FindQuoted(pre + NameKey() + behind, NameKey()) == FindQuoted(NameKey() + behind, NameKey())
  {
    var s := pre + NameKey() + behind;
    if pre == [] {
      assert s == NameKey() + behind;
    } else {
      NameKeyIsKey();
      KeyDoesNotStartHere(pre, NameKey(), behind, 'm', 'e');
      assert s[1..] == pre[1..] + NameKey() + behind;
      FrontHasNoName(pre[1..], behind);
    }
  }

  /** A constant behind the key: no name is read, here or further on. */
  lemma SharedIsNotRead(shared: string, more: string, rest: string)
    requires HasNoName(" " + shared + more) && |shared| > 12 && !IsSpace(shared[0]) && shared[0] != '"'
    requires (forall j :: 0 <= j < 12 ==> (" " + shared)[j] != ':') && !Has(rest, NameKey())
    ensures FindQuoted(NameFront() + NameKey() + ((" " + shared + more) + "\n" + rest), NameKey()).None?
  {
    var behind := (" " + shared + more) + "\n" + rest;
    assert behind[1] == shared[0];
    assert forall j :: 0 <= j < 12 ==> behind[j] == (" " + shared)[j];
    NameFrontIsCalm();
    FrontHasNoName(NameFront(), behind);
    NotQuoted(behind);
    assert (NameKey() + behind)[1..] == NameKey()[1..] + behind;
    InsideKey(1, behind);
    NoNameInText(" " + shared + more, rest);
  }

  lemma SharedBody(shared: string, raw: string, flag: bool, rest: string)
    ensures BeforeKey(shared) + TypeKey() + (" " + (raw + ("," + AfterType(flag, rest))))
         == NameFront() + NameKey() + (BehindConstant(shared, raw, flag) + "\n" + rest)
  {
    BodyAtName(shared, " " + (raw + ("," + AfterType(flag, rest))));
    SharedRegroup(shared, Gap(12), TypeKey(), raw, FlagKey(), FlagText(flag), Gap(8), rest);
  }

  lemma SharedRegroup(c: string, g: string, k: string, raw: string, f: string, v: string, e: string, rest: string)
    ensures " " + (c + ("," + g + k + (" " + (raw + ("," + (g + f + (" " + v + ("," + e + "})," + "\n" + rest))))))))
         == (" " + c + "," + g + (k + " " + raw + ",") + g + (f + " " + v + ",") + e + "}),") + "\n" + rest
  {
  }

  lemma BehindIsCut(shared: string, raw: string, flag: bool) returns (more: string)
    ensures BehindConstant(shared, raw, flag) == " " + shared + more
  {
    more := "," + Gap(12) + (TypeKey() + " " + raw + ",") + Gap(12) + (FlagKey() + " " + FlagText(flag) + ",")
            + Gap(8) + "}),";
  }

  lemma SharedStructSymbol(name: (string, string), raw: string, flag: bool, rest: string)
    requires IsTame(raw) && !Has(rest, NameKey()) && IsCalm(SharedText(name), 'p', 'e')
    ensures RuntimeName(BeforeKey(SharedText(name)) + TypeKey() + (" " + (raw + ("," + AfterType(flag, rest))))) == ""
  {
    var shared, behind := SharedText(name), " " + (raw + ("," + AfterType(flag, rest)));
    SharedHasNoName(name);
    TypeKeyIsFound(shared, BeforeKey(shared) + TypeKey() + behind, behind);
    SharedBody(shared, raw, flag, rest);
    BehindConstantHasNoName(shared, raw, flag);
    var more := BehindIsCut(shared, raw, flag);
    SharedIsNotRead(shared, more, rest);
  }

  // ----- helper arms -----

  lemma {:induction false} ArgumentAt(s: string, helper: string, inWord: bool, i: nat, path: string)
    requires i <= |s| && (forall k :: 0 <= k < i ==> !StartsWith(s[k..], helper + "("))
    requires if i == 0 then !inWord else !IsIdent(s[i - 1])
    requires QuotedHere(s[i..], helper + "(") == Some(path)
    ensures FindArgument(s, helper, inWord) == Some(path)
    decreases i
  {
    assert s[0..] == s;
    if i > 0 {
      forall k | 0 <= k < i - 1 ensures !StartsWith(s[1..][k..], helper + "(") {
        assert s[1..][k..] == s[k + 1..];
      }
      assert s[1..][i - 1..] == s[i..];
      assert i > 1 ==> s[1..][i - 2] == s[i - 1];
      ArgumentAt(s[1..], helper, IsIdent(s[0]), i - 1, path);
    }
  }

  /** Before the printed call no other one starts. */
  lemma NotBefore(pre: string, style: string, post: string, rest: string, k: nat)
    requires IsAround(pre) && IsAround(post) && IsHelperName(style) && k < |pre| + 5
    ensures !StartsWith((HelperText(pre, style, post) + "\n" + rest)[k..], style + "(")
  {
    var a := HelperText(pre, style, post);
    var s, j := a + "\n" + rest, k + |style|;
    assert s[j] == a[j];
    if a[j] != '(' {
      assert s[k..][|style|] == s[j];
      OtherHead(s[k..], style + "(", |style|);
    } else {
      BracketsOfArm(pre, style, post, j);
      assert s[k..][|style| - 1] == s[j - 1];
      OtherHead(s[k..], style + "(", |style| - 1);
    }
  }

  lemma CallAt(pre: string, style: string, post: string, rest: string)
    requires IsAround(pre) && IsAround(post) && IsHelperName(style)
    ensures var s, i := HelperText(pre, style, post) + "\n" + rest, |pre| + 5;
            && |s| >= i && s[i..] == (style + "(") + (post + "\n" + rest) && s[i - 1] == '('
            && forall k :: 0 <= k < i ==> !StartsWith(s[k..], style + "(")
  {
    var s, i := HelperText(pre, style, post) + "\n" + rest, |pre| + 5;
    CallRegroup(pre, style, post, rest);
    forall k | 0 <= k < i ensures !StartsWith(s[k..], style + "(") {
      NotBefore(pre, style, post, rest, k);
    }
  }

  lemma ArgumentIsFound(pre: string, style: string, post: string, gap: string, path: string, more: string,
                        rest: string)
    requires IsAround(pre) && IsAround(post) && IsHelperName(style) && post == gap + (Quoted(path) + more)
    requires AreSpaces(gap) && IsPath(path)
    ensures FindArgument(HelperText(pre, style, post) + "\n" + rest, style, false) == Some(path)
  {
    ArgumentRegroup(gap, Quoted(path), more, rest);
    QuotedIsHere(style + "(", gap, path, more + "\n" + rest);
    CallAt(pre, style, post, rest);
    ArgumentAt(HelperText(pre, style, post) + "\n" + rest, style, false, |pre| + 5, path);
  }

  lemma HelperSymbol(pre: string, h: Helper, gap: string, path: string, more: string, rest: string)
    requires IsAround(pre) && IsAround(gap + (Quoted(path) + more)) && h in DESCRIPTORS && IsSilent(rest)
    requires AreSpaces(gap) && IsPath(path)
    ensures RuntimeName(HelperText(pre, h.name, gap + (Quoted(path) + more)) + "\n" + rest) == path
  {
    var post := gap + (Quoted(path) + more);
    HelperNames(h);
    HelperIsFirst(pre, h, post, rest);
    ArgumentIsFound(pre, h.name, post, gap, path, more, rest);
  }

  lemma ArgumentRegroup(gap: string, q: string, more: string, rest: string)
    ensures (gap + (q + more)) + "\n" + rest == gap + (q + (more + "\n" + rest))
  {
  }

  /** The printed helper is the one the reader finds. */
  lemma HelperIsFirst(pre: string, h: Helper, post: string, rest: string)
    requires IsAround(pre) && IsAround(post) && h in DESCRIPTORS && IsSilent(rest)
    ensures var s := HelperText(pre, h.name, post) + "\n" + rest;
            !Has(s, TypeKey()) && FirstCalled(s, DESCRIPTORS) == Some(h)
  {
    var s := HelperText(pre, h.name, post) + "\n" + rest;
    HelperNames(h);
    ArmHasNoColon(pre, h.name, post);
    NoKeyInArm(HelperText(pre, h.name, post), rest);
    OnlyThePrinted(pre, h, post, rest);
    FirstCalledIs(s, DESCRIPTORS, h);
  }

  lemma OnlyThePrinted(pre: string, h: Helper, post: string, rest: string)
    requires IsAround(pre) && IsAround(post) && h in DESCRIPTORS && IsSilent(rest)
    ensures var s := HelperText(pre, h.name, post) + "\n" + rest;
            HasCall(s, h.name) && forall g :: g in DESCRIPTORS && g != h ==> !HasCall(s, g.name)
  {
    var s := HelperText(pre, h.name, post) + "\n" + rest;
    HelperNames(h);
    PrintedCallIsFound(pre, h.name, post, rest);
    forall g | g in DESCRIPTORS && g != h ensures !HasCall(s, g.name) {
      HelperNames(g);
      if g.name == h.name {
        NameDetermines(g, h);
      }
      NoOtherCall(pre, h.name, post, rest, g.name);
    }
  }

  /** In each of its three widths. */
  predicate NamedAs(name: (string, string), lines: seq<Line>, rest: string, path: string) {
    lines != [] && |Raw(lines)| >= |Head(name)| + 3 && RuntimeName(ArmBody(name, lines, rest)) == path
  }

  lemma WideNamed(name: (string, string), h: Helper, path: string, rest: string)
    requires h in DESCRIPTORS && IsPath(path) && IsSilent(rest)
    ensures NamedAs(name, [Line(8, Head(name) + " => Some(" + Call(h.name, Quoted(path)) + "),")], rest, path)
  {
    var runtime := Quoted(path);
    WideArm(name, h.name, runtime, rest);
    PathIsAround(path);
    AroundPieces(runtime);
    assert runtime + ")" + ")," == "" + (runtime + (")" + "),"));
    HelperSymbol(" ", h, "", path, ")" + "),", rest);
  }

  lemma BracedNamed(name: (string, string), h: Helper, path: string, rest: string)
    requires h in DESCRIPTORS && IsPath(path) && IsSilent(rest)
    ensures NamedAs(name, [Line(8, Head(name) + " => {"), Line(12, "Some(" + Call(h.name, Quoted(path)) + ")"),
                           Line(8, "}")], rest, path)
  {
    var runtime := Quoted(path);
    BracedArm(name, h.name, runtime, rest);
    PathIsAround(path);
    AroundPieces(runtime);
    assert runtime + ")" + ")" + Gap(8) + "}" == "" + (runtime + (")" + ")" + Gap(8) + "}"));
    HelperSymbol(" {" + Gap(12), h, "", path, ")" + ")" + Gap(8) + "}", rest);
  }

  lemma TallNamed(name: (string, string), h: Helper, path: string, rest: string)
    requires h in DESCRIPTORS && IsPath(path) && IsSilent(rest)
    ensures NamedAs(name, [Line(8, Head(name) + " => Some(" + h.name + "("), Line(12, Quoted(path) + ","),
                           Line(8, ")),")], rest, path)
  {
    var runtime := Quoted(path);
    TallArm(name, h.name, runtime, rest);
    PathIsAround(path);
    AroundPieces(runtime);
    TallRegroup(Gap(12), runtime, "," + Gap(8) + ")),");
    HelperSymbol(" ", h, Gap(12), path, "," + Gap(8) + ")),", rest);
  }

  lemma TallRegroup(gap: string, q: string, more: string)
    requires more == "," + Gap(8) + ")),"
    ensures gap + q + "," + Gap(8) + "))," == gap + (q + more)
  {
  }

  lemma HelperArmNamed(name: (string, string), h: Helper, path: string, rest: string)
    requires h in DESCRIPTORS && IsPath(path) && IsSilent(rest)
    ensures NamedAs(name, HelperArm(name, h.name, Quoted(path)), rest, path)
  {
    WideNamed(name, h, path, rest);
    BracedNamed(name, h, path, rest);
    TallNamed(name, h, path, rest);
  }

  // ----- every arm -----

  predicate UsesConstant(e: Entry, style: string, names: Names) {
    style == STRUCT && e.name in names.shared && e.name !in names.aliases
  }

  /** The host symbol that is read back: the alias if the function has one, nothing if its struct arm
      names a shared constant, and its binding otherwise. */
  function HostSymbol(e: Entry, style: string, names: Names): string {
    if e.name in names.aliases then names.aliases[e.name]
    else if style == STRUCT && e.name in names.shared then ""
    else e.binding
  }

  lemma StructSymbol(e: Entry, names: Names, t: IrType, rest: string)
    requires IsEntry(e, names) && IsRenderable(t)
    requires UsesConstant(e, STRUCT, names) ==> IsSilent(rest) && HasIdentNames(t)
    ensures var lines := StructArm(e.name, RuntimeExpression(e, STRUCT, names), RenderType(t, 12), e.returnsValue);
            NamedAs(e.name, lines, rest, HostSymbol(e, STRUCT, names))
  {
    var runtime := RuntimeExpression(e, STRUCT, names);
    StartsAtIndent(t, 12);
    StructBody(e.name, runtime, RenderType(t, 12), e.returnsValue, rest);
    StructRuntime(e, names);
    if UsesConstant(e, STRUCT, names) {
      TypeIsTame(t);
      SharedStructSymbol(e.name, Raw(RenderType(t, 12)), e.returnsValue, rest);
    } else {
      QuotedStructSymbol(HostSymbol(e, STRUCT, names),
                         " " + (Raw(RenderType(t, 12)) + ("," + AfterType(e.returnsValue, rest))));
    }
  }

  /** The symbol is read back from every arm that can be read. */
  lemma SymbolIsRead(e: Entry, style: string, names: Names, rest: string)
    requires IsEntry(e, names) && EmitArm(e, style, names).Some?
    requires style != STRUCT || UsesConstant(e, style, names) ==> IsSilent(rest)
    requires UsesConstant(e, style, names) ==> HasIdentNames(Classify(e.irReturn).value)
    ensures NamedAs(e.name, EmitArm(e, style, names).value, rest, HostSymbol(e, style, names))
  {
    if style == STRUCT {
      ClassifiedText(e.irReturn);
      StructSymbol(e, names, Classify(e.irReturn).value, rest);
    } else {
      var h := FindHelper(style, HELPERS).value;
      SameTables(h);
      HelperArmNamed(e.name, h, HostSymbol(e, style, names), rest);
    }
  }

  /** Reading an emitted arm gives the entry's return type, flag and host symbol exactly when the type
      is readable; helper arms always do.  Whatever is read has the entry's flag and symbol. */
  lemma ArmReadsBack(e: Entry, style: string, names: Names, rest: string)
    requires IsEntry(e, names) && EmitArm(e, style, names).Some?
    requires style != STRUCT || UsesConstant(e, style, names) ==> IsSilent(rest)
    ensures var lines := EmitArm(e, style, names).value;
            && lines != [] && |Raw(lines)| >= |Head(e.name)| + 3
            && var d := ParseDescriptor(ArmBody(e.name, lines, rest));
               && (d == Some(Descriptor(e.irReturn, e.returnsValue, HostSymbol(e, style, names)))
                   <==> style != STRUCT || IsReadableType(Classify(e.irReturn).value))
               && (d.Some? ==> d.value.returnsValue == e.returnsValue && d.value.runtime == HostSymbol(e, style, names))
  {
    ReturnReadsBack(e, style, names, rest);
    if UsesConstant(e, style, names) && !HasIdentNames(Classify(e.irReturn).value) {
      OddReadsNothing(e, names, rest);
    } else {
      SymbolIsRead(e, style, names, rest);
    }
  }

  lemma OddReadsNothing(e: Entry, names: Names, rest: string)
    requires IsEntry(e, names) && EmitArm(e, STRUCT, names).Some? && !HasIdentNames(Classify(e.irReturn).value)
    ensures !IsReadableType(Classify(e.irReturn).value)
    ensures var lines := EmitArm(e, STRUCT, names).value;
            lines != [] && |Raw(lines)| >= |Head(e.name)| + 3 && ParseReturn(ArmBody(e.name, lines, rest)).None?
  {
    var t := Classify(e.irReturn).value;
    ClassifiedText(e.irReturn);
    StructRuntime(e, names);
    OddArmIsRefused(e.name, RuntimeExpression(e, STRUCT, names), t, e.returnsValue, rest);
    if IsReadableType(t) {
      ReadableHasIdentNames(t);
    }
  }

  /** The symbol the runtime resolves: the alias of a function, else its binding. */
  function Symbol(e: Entry, names: Names): string {
    if e.name in names.aliases then names.aliases[e.name] else e.binding
  }

  /** A descriptor that is read holds the function's symbol exactly when its arm does not name a
      shared constant; else it holds none. */
  lemma SymbolComesBack(e: Entry, style: string, names: Names, rest: string)
    requires IsEntry(e, names) && EmitArm(e, style, names).Some?
    requires style != STRUCT || UsesConstant(e, style, names) ==> IsSilent(rest)
    ensures var lines := EmitArm(e, style, names).value;
            && lines != [] && |Raw(lines)| >= |Head(e.name)| + 3
            && var d := ParseDescriptor(ArmBody(e.name, lines, rest));
               && (d.Some? ==>
                     && (d.value.runtime == Symbol(e, names)
                         <==> !(style == STRUCT && e.name in names.shared && e.name !in names.aliases))
                     && (d.value.runtime != Symbol(e, names) ==> d.value.runtime == ""))
  {
    ArmReadsBack(e, style, names, rest);
  }

  /** A function whose symbol does not come back. */
  lemma SharedSymbolExample(e: Entry, names: Names)
    requires e == Entry(("error", "code"), "spectra.std.error.code", true, "int")
    requires names == Names(map[], {("error", "code")})
    ensures EmitArm(e, STRUCT, names).Some?
    ensures var lines := EmitArm(e, STRUCT, names).value;
            && lines != [] && |Raw(lines)| >= |Head(e.name)| + 3
            && ParseDescriptor(ArmBody(e.name, lines, "")) == Some(Descriptor("int", true, ""))
  {
    assert Classify("int") == Some(Simple("int"));
    ExampleIsEntry(e, names);
    NothingIsSilent();
    ArmReadsBack(e, STRUCT, names, "");
  }

  lemma ExampleIsEntry(e: Entry, names: Names)
    requires e == Entry(("error", "code"), "spectra.std.error.code", true, "int")
    requires names == Names(map[], {("error", "code")})
    ensures IsEntry(e, names)
  {
  }

  lemma NothingIsSilent()
    ensures IsSilent("")
  {
    forall h | h in DESCRIPTORS ensures !HasCall("", h.name) {
      HelperNames(h);
    }
  }

  /** A struct arm with a shared constant names it on its second line. */
  lemma SharedArmNamesConstant(e: Entry, names: Names)
    requires e.name in names.shared && e.name !in names.aliases && EmitArm(e, STRUCT, names).Some?
    ensures var lines := EmitArm(e, STRUCT, names).value;
            |lines| > 1 && lines[1].text == "runtime_name: " + ("spectra_contract::" + ConstantName(e.name)) + ","
  {
  }

  lemma ConstantExample()
    ensures ConstantName(("fs", "fs_read")) == "STD_FS_FS_READ_BINDING"
  {
    var path := "std." + "fs" + "." + "fs_read";
    assert path == "std.fs.fs_read";
    assert seq(|path|, i requires 0 <= i < |path| => Upper(path[i])) == "STD_FS_FS_READ";
  }
}
