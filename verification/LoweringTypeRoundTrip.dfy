/** A printed IR type reads back as the catalog text it was printed from exactly when its
    collection arguments are readable. */
module LoweringTypeRoundTrip {
  import opened Wrappers
  import opened PythonText
  import opened LoweringText
  import opened LoweringTypes
  import opened LoweringExpressions
  import opened LoweringTypeTheorems

  // ----- tidy texts: collapsing leaves them alone -----

  /** A printable character, and a space only if a non-space follows. */
  predicate IsTidyAt(s: string, i: nat)
    requires i < |s|
  {
    ' ' <= s[i] <= '~' && (s[i] == ' ' ==> i + 1 < |s| && s[i + 1] != ' ')
  }

  predicate HasSingleSpaces(s: string) {
    forall i :: 0 <= i < |s| ==> IsTidyAt(s, i)
  }

  predicate IsTidy(s: string) {
    s != [] && s[0] != ' ' && HasSingleSpaces(s)
  }

  lemma PrintableSpace(c: char)
    requires ' ' <= c <= '~'
    ensures IsSpace(c) <==> c == ' '
  {
  }

  lemma {:induction false} SingleSpacesStay(s: string)
    requires HasSingleSpaces(s)
    ensures Squeeze(s) == s
  {
    if s != [] {
      assert IsTidyAt(s, 0);
      PrintableSpace(s[0]);
      forall i | 0 <= i < |s[1..]| ensures IsTidyAt(s[1..], i) {
        assert IsTidyAt(s, i + 1);
      }
      SingleSpacesStay(s[1..]);
      assert s == [s[0]] + s[1..];
      if s[0] == ' ' {
        assert IsTidyAt(s, 1);
        PrintableSpace(s[1]);
        SpaceAgain(s[1..]);
      } else {
        SqueezeOne(s[0], s[1..]);
      }
    }
  }

  lemma TidyIsCollapsed(s: string)
    requires IsTidy(s)
    ensures IsSolid(s) && Squeeze(s) == s
  {
    assert IsTidyAt(s, 0) && IsTidyAt(s, |s| - 1);
    PrintableSpace(s[0]);
    PrintableSpace(s[|s| - 1]);
    SingleSpacesStay(s);
  }

  lemma TidyPair(a: string, b: string)
    requires IsTidy(a) && IsTidy(b)
    ensures IsTidy(a + " " + b)
  {
    var s := a + " " + b;
    forall i | 0 <= i < |s| ensures IsTidyAt(s, i) {
      if i < |a| {
        assert IsTidyAt(a, i);
      } else if i > |a| {
        assert IsTidyAt(b, i - |a| - 1);
      }
    }
  }

  lemma TidyGlue(a: string, b: string)
    requires IsTidy(a) && IsTidy(b)
    ensures IsTidy(a + b)
  {
    var s := a + b;
    forall i | 0 <= i < |s| ensures IsTidyAt(s, i) {
      if i < |a| {
        assert IsTidyAt(a, i);
      } else {
        assert IsTidyAt(b, i - |a|);
      }
    }
  }

  lemma TidyName(name: string)
    requires AllIdent(name) && name != []
    ensures IsTidy(name)
  {
  }

  /** What stands behind a non-space is collapsed on its own. */
  lemma SqueezeBehind(p: string, s: string)
    requires IsTidy(p)
    ensures Squeeze(p + s) == p + Squeeze(s)
  {
    TidyIsCollapsed(p);
    var x, c := p[..|p| - 1], p[|p| - 1];
    SqueezeBehindOne(x, c, s);
    assert p == x + [c];
    Glue(x, [c], s);
  }

  lemma SqueezeBehindOne(x: string, c: char, s: string)
    requires !IsSpace(c)
    ensures Squeeze(x + ([c] + s)) == Squeeze(x + [c]) + Squeeze(s)
  {
    SqueezeSplit(x, [c] + s);
    SqueezeOne(c, s);
    SqueezeSplit(x, [c]);
    SqueezeOne(c, []);
    assert [c] + [] == [c];
    Glue(Squeeze(x), [c], Squeeze(s));
  }

  lemma TidyOpenings()
    ensures IsTidy(StructOpen()) && IsTidy(EnumOpen()) && IsTidy(TensorOpen())
  {
  }

  lemma TidyNames()
    ensures IsTidy(NameHead()) && IsTidy(NameTail()) && IsTidy("}")
  {
  }

  lemma TidyFields()
    ensures IsTidy(Fields()) && IsTidy(FieldsTight())
  {
  }

  lemma TidyStruct()
    ensures IsTidy(StructHead()) && IsTidy(StructTail()) && IsTidy(StructTailTight())
  {
    TidyOpenings();
    TidyNames();
    TidyFields();
    TidyPair(StructOpen(), NameHead());
    TidyPair(NameTail(), Fields());
    TidyPair(NameTail() + " " + Fields(), "}");
    TidyPair(NameTail(), FieldsTight());
    TidyPair(NameTail() + " " + FieldsTight(), "}");
  }

  lemma TidyCalls()
    ensures IsTidy(ResultCall()) && IsTidy(ErrorExpr()) && IsTidy(")")
  {
  }

  // ----- struct expressions -----

  lemma ScalarIsShort(e: string)
    requires Scalar(e).Some?
    ensures |e| <= 15 && e[0] == 'I'
  {
  }

  /** Texts with the head of a struct expression are nothing else. */
  lemma OnlyAStruct(e: string)
    requires StartsWith(e, StructHead())
    ensures Scalar(e).None? && e != ErrorExpr() && !StartsWith(e, ResultCall())
    ensures MatchNamed(e, EnumHead()).None? && MatchTensor(e).None?
    ensures e[8] == 'S' && |e| >= 24
  {
    assert |StructHead()| == 24;
    PrefixAt(e, StructHead(), 0);
    PrefixAt(e, StructHead(), 8);
    if Scalar(e).Some? {
      ScalarIsShort(e);
    }
    OtherHead(e, ResultCall(), 0);
    OtherHead(e, EnumHead(), 8);
    OtherHead(e, TensorHead() + "IRType::", 8);
  }

  lemma MatchesName(head: string, name: string, rest: string)
    requires AllIdent(name) && name != [] && rest != [] && !IsIdent(rest[0])
    ensures MatchNamed(head + name + rest, head) == Some(Named(name, rest))
  {
    var e := head + name + rest;
    assert e == head + (name + rest);
    AppendStarts(head, name + rest);
    IdentRunOfAppend(name, rest);
    assert (name + rest)[..|name|] == name && (name + rest)[|name|..] == rest;
  }

  lemma StructIsRead(name: string, tail: string)
    requires AllIdent(name) && name != []
    requires tail == StructTail() || tail == StructTailTight()
    ensures Recognized(StructHead() + name + tail) == StructIrName(name)
  {
    var e := StructHead() + name + tail;
    assert e == StructHead() + (name + tail);
    AppendStarts(StructHead(), name + tail);
    OnlyAStruct(e);
    assert tail[0] == '"';
    MatchesName(StructHead(), name, tail);
  }

  lemma StructIsNotRead(name: string, rest: string)
    requires AllIdent(name) && name != [] && rest != [] && !IsIdent(rest[0])
    requires rest != StructTail() && rest != StructTailTight()
    ensures Recognized(StructHead() + name + rest) == None
  {
    var e := StructHead() + name + rest;
    assert e == StructHead() + (name + rest);
    AppendStarts(StructHead(), name + rest);
    OnlyAStruct(e);
    MatchesName(StructHead(), name, rest);
    NotExact(e);
  }

  lemma NotExact(e: string)
    requires |e| > 8 && e[8] != 'E'
    ensures e != "IRType::ExactFloat { width: IRFloatWidth::F32, }"
    ensures e != "IRType::ExactFloat { width: IRFloatWidth::F64, }"
    ensures e != "IRType::ExactInt { signed, width }"
  {
  }

  // ----- each kind of type -----

  /** The types whose printed expression reads back as the catalog text. */
  predicate IsReadableType(t: IrType) {
    match t
    case ResultOf(inner) => IsReadableType(inner)
    case Collection(kind, args) => IsReadable(kind, args) && AllIdent(StructName(kind, args))
    case _ => true
  }

  lemma TidyReads(s: string)
    requires IsTidy(s)
    ensures IrTypeText(s) == Recognized(s)
  {
    TidyIsCollapsed(s);
    ReadsCollapsed(s);
  }

  lemma NamedStructReads(name: string, tail: string)
    requires AllIdent(name) && name != []
    requires tail == StructTail() || tail == StructTailTight()
    ensures IrTypeText(StructHead() + name + tail) == StructIrName(name)
  {
    TidyStruct();
    TidyName(name);
    TidyGlue(StructHead(), name);
    TidyGlue(StructHead() + name, tail);
    TidyReads(StructHead() + name + tail);
    StructIsRead(name, tail);
  }

  /** A name with a character outside `[A-Za-z0-9_]` is not read at all. */
  lemma OddStructIsNotRead(name: string)
    requires name != [] && IsIdent(name[0]) && !AllIdent(name)
    ensures IrTypeText(StructHead() + name + StructTail()) == None
  {
    var n := IdentRun(name);
    IdentRunFacts(name);
    var a, odd := name[..n], name[n..];
    assert name == a + odd;
    SqueezeOdd(a, odd);
    OddRest(odd);
    SolidStruct(name);
    ReadsCollapsed(StructHead() + name + StructTail());
    StructIsNotRead(a, Squeeze(odd + StructTail()));
  }

  lemma SqueezeOdd(a: string, odd: string)
    requires AllIdent(a) && a != []
    ensures Squeeze(StructHead() + (a + odd) + StructTail()) == StructHead() + a + Squeeze(odd + StructTail())
  {
    TidyStruct();
    TidyName(a);
    TidyGlue(StructHead(), a);
    assert StructHead() + (a + odd) + StructTail() == (StructHead() + a) + (odd + StructTail());
    SqueezeBehind(StructHead() + a, odd + StructTail());
  }

  lemma {:induction false} IdentRunFacts(s: string)
    ensures AllIdent(s[..IdentRun(s)])
    ensures IdentRun(s) < |s| ==> !IsIdent(s[IdentRun(s)])
    ensures IdentRun(s) == |s| ==> AllIdent(s)
    ensures s != [] && IsIdent(s[0]) ==> IdentRun(s) > 0
  {
    if s != [] && IsIdent(s[0]) {
      IdentRunFacts(s[1..]);
      var n := IdentRun(s);
      assert s[..n] == [s[0]] + s[1..][..n - 1];
    }
  }

  lemma SolidStruct(name: string)
    ensures IsSolid(StructHead() + name + StructTail())
  {
    var e := StructHead() + name + StructTail();
    assert e[0] == 'I' && e[|e| - 1] == '}';
    PrintableSpace('I');
    PrintableSpace('}');
  }

  lemma OddRest(odd: string)
    requires odd != [] && !IsIdent(odd[0])
    ensures var z := Squeeze(odd + StructTail());
            z != [] && !IsIdent(z[0]) && |z| > |StructTail()| && z != StructTailTight()
  {
    TidyStruct();
    TidyIsCollapsed(StructTail());
    SqueezeSplit(odd, StructTail());
    assert Squeeze(odd) != [] && (Squeeze(odd)[0] == ' ' || Squeeze(odd)[0] == odd[0]);
    TailsByLength();
  }

  lemma TailsByLength()
    ensures |StructTailTight()| < |StructTail()|
  {
  }

  lemma NameStartsWithKind(kind: string, args: string)
    requires IsKind(kind)
    ensures var name := StructName(kind, args); name != [] && IsIdent(name[0])
  {
    NameOfCollection(kind, args);
    KindsHaveNoUnderscore(kind);
    KindStartsWithLetter(kind);
  }

  lemma KindStartsWithLetter(kind: string)
    requires IsKind(kind)
    ensures kind != [] && IsIdent(kind[0])
  {
  }

  lemma CollectionReads(kind: string, args: string)
    requires IsRenderable(Collection(kind, args))
    ensures var t := Collection(kind, args);
            IrTypeText(Flat(t)) == Some(TypeText(t)) <==> IsReadableType(t)
  {
    var name := StructName(kind, args);
    NameStartsWithKind(kind, args);
    if AllIdent(name) {
      NamedStructReads(name, StructTail());
      CollectionSurvives(kind, args);
    } else {
      OddStructIsNotRead(name);
    }
  }

  lemma ResultIsRecognized(inner: string)
    requires inner != []
    ensures Recognized(ResultCall() + inner + ")") == Bracketed("Result", IrTypeText(inner))
  {
    var e := ResultCall() + inner + ")";
    assert e == ResultCall() + (inner + ")");
    AppendStarts(ResultCall(), inner + ")");
    AppendEnds(ResultCall() + inner, ")");
    PrefixAt(e, ResultCall(), 0);
    PrefixAt(e, ResultCall(), 8);
    if Scalar(e).Some? {
      ScalarIsShort(e);
    }
    NotError(e);
    assert e[|ResultCall()|..|e| - 1] == inner;
  }

  lemma NotError(e: string)
    requires |e| > 8 && e[8] == 'r'
    ensures e != ErrorExpr()
  {
  }

  lemma SqueezeResult(flat: string)
    ensures Squeeze(ResultCall() + flat + ")") == ResultCall() + Squeeze(flat) + ")"
  {
    TidyCalls();
    Glue(ResultCall(), flat, ")");
    SqueezeBehind(ResultCall(), flat + ")");
    TidyIsCollapsed(")");
    SqueezeSplit(flat, ")");
    Glue(ResultCall(), Squeeze(flat), ")");
  }

  lemma ResultReads(flat: string)
    requires IsSolid(flat)
    ensures IrTypeText(ResultCall() + flat + ")") == Bracketed("Result", IrTypeText(flat))
  {
    SqueezeResult(flat);
    SqueezeStaysOpen(flat);
    SolidResult(flat);
    ReadsCollapsed(ResultCall() + flat + ")");
    ReadsCollapsed(flat);
    ResultIsRecognized(Squeeze(flat));
  }

  lemma SolidResult(flat: string)
    ensures IsSolid(ResultCall() + flat + ")")
  {
    var e := ResultCall() + flat + ")";
    assert e[0] == 'b' && e[|e| - 1] == ')';
    PrintableSpace('b');
    PrintableSpace(')');
  }

  // ----- options -----

  lemma TidyEnum()
    ensures IsTidy(EnumHead()) && IsTidy("],") && IsTidy("vec![")
  {
    TidyOpenings();
    TidyNames();
    TidyPair(EnumOpen(), NameHead());
  }

  lemma TidyVariants()
    ensures IsTidy(SomeVariant()) && IsTidy(NoneVariant()) && IsTidy(Variants() + "vec![")
  {
    TidyVariantWords();
    TidyPair("(\"Some\".to_string(),", "Some(vec![IRType::String])),");
    TidyPair("(\"None\".to_string(),", "None),");
    TidyPair("variants:", "vec![");
    assert Variants() + "vec![" == "variants:" + " " + "vec![";
  }

  lemma TidyVariantWords()
    ensures IsTidy("(\"Some\".to_string(),") && IsTidy("Some(vec![IRType::String])),")
    ensures IsTidy("(\"None\".to_string(),") && IsTidy("None),")
    ensures IsTidy("variants:") && IsTidy("vec![")
  {
  }

  lemma TidyOptionRest()
    ensures IsTidy(OptionRest())
  {
    TidyNames();
    TidyEnum();
    TidyVariants();
    TidyPair("],", "}");
    TidyPair(NoneVariant(), "]," + " " + "}");
    TidyPair(SomeVariant(), NoneVariant() + " " + ("]," + " " + "}"));
    TidyPair(NameTail(), Variants() + "vec![");
    TidyPair(NameTail() + " " + (Variants() + "vec!["),
             SomeVariant() + " " + (NoneVariant() + " " + ("]," + " " + "}")));
    RegroupRest(NameTail(), Variants(), "vec![", SomeVariant() + " " + (NoneVariant() + " " + ("]," + " " + "}")));
  }

  lemma RegroupRest(a: string, b: string, c: string, d: string)
    ensures a + " " + (b + c) + " " + d == a + " " + b + c + " " + d
  {
  }

  /** Texts with the head of an enum expression are nothing else. */
  lemma OnlyAnEnum(e: string)
    requires StartsWith(e, EnumHead())
    ensures Scalar(e).None? && e != ErrorExpr() && !StartsWith(e, ResultCall())
    ensures MatchNamed(e, StructHead()).None?
  {
    assert |EnumHead()| == 22;
    PrefixAt(e, EnumHead(), 0);
    PrefixAt(e, EnumHead(), 8);
    if Scalar(e).Some? {
      ScalarIsShort(e);
    }
    OtherHead(e, ResultCall(), 0);
    OtherHead(e, StructHead(), 8);
  }

  lemma EnumIsRead(name: string, rest: string)
    requires AllIdent(name) && name != []
    requires rest != [] && !IsIdent(rest[0]) && StartsWith(rest, EnumRest()) && EndsWith(rest, "}")
    requires |rest| > |EnumRest()|
    ensures Recognized(EnumHead() + name + rest) == EnumText(name)
  {
    var e := EnumHead() + name + rest;
    assert e == EnumHead() + (name + rest);
    AppendStarts(EnumHead(), name + rest);
    OnlyAnEnum(e);
    MatchesName(EnumHead(), name, rest);
  }

  lemma OptionRestMatches()
    ensures var rest := OptionRest();
            && rest != [] && !IsIdent(rest[0]) && StartsWith(rest, EnumRest()) && EndsWith(rest, "}")
            && |rest| > |EnumRest()|
  {
    var x := "vec![" + " " + (SomeVariant() + " " + (NoneVariant() + " " + ("]," + " " + "}")));
    AssembleRest(EnumRest(), "vec![", " ", SomeVariant() + " " + (NoneVariant() + " " + ("]," + " " + "}")));
    assert OptionRest() == EnumRest() + x;
    AppendStarts(EnumRest(), x);
    assert x[|x| - 1] == '}';
    assert NameTail()[0] == '"';
  }

  lemma AssembleRest(a: string, b: string, c: string, d: string)
    ensures a + b + c + d == a + (b + c + d)
  {
  }

  lemma StringIsBare(name: string, element: string)
    requires name == "Option_string" && element == "string"
    ensures EnumText(name) == Some("Option<string>")
  {
    assert name[..7] == "Option_" && name[7..] == element;
    BareKindIsNotFound(element, UNARY);
    BareKindIsNotFound(element, BINARY);
    assert "Option" + "<" + element + ">" == "Option<string>";
  }

  lemma EnumReads(name: string, rest: string)
    requires AllIdent(name) && name != []
    requires rest != [] && !IsIdent(rest[0]) && StartsWith(rest, EnumRest()) && EndsWith(rest, "}")
    requires |rest| > |EnumRest()| && IsTidy(rest)
    ensures IsTidy(EnumHead() + name + rest)
    ensures IrTypeText(EnumHead() + name + rest) == EnumText(name)
  {
    TidyEnum();
    TidyName(name);
    TidyGlue(EnumHead(), name);
    TidyGlue(EnumHead() + name, rest);
    TidyReads(EnumHead() + name + rest);
    EnumIsRead(name, rest);
  }

  lemma OptionReads(t: IrType, name: string)
    requires t.OptionString? && name == "Option_string"
    ensures IsTidy(Flat(t)) && IrTypeText(Flat(t)) == Some(TypeText(t))
  {
    TidyOptionRest();
    OptionRestMatches();
    EnumReads(name, OptionRest());
    StringIsBare(name, "string");
  }

  // ----- tensors -----

  lemma TidyTensorPieces()
    ensures IsTidy(DtypeHead()) && IsTidy(DtypeTail()) && IsTidy("rank:") && IsTidy("IRType::")
    ensures IsTidy("Float") && IsTidy("Int") && IsTidy("None")
  {
  }

  lemma TidyTensorTail()
    ensures IsTidy(TensorTail())
  {
    TidyDims();
    TidyPair(",", "dims: None,");
    TidyPair("," + " " + "dims: None,", "layout: None,");
    TidyPair("," + " " + "dims: None," + " " + "layout: None,", "device: None,");
    TidyPair("," + " " + "dims: None," + " " + "layout: None," + " " + "device: None,", "}");
  }

  lemma TidyDims()
    ensures IsTidy(",") && IsTidy("dims: None,") && IsTidy("layout: None,") && IsTidy("device: None,") && IsTidy("}")
  {
  }

  lemma TidyRank(rank: Option<string>)
    requires rank.Some? ==> IsDigits(rank.value)
    ensures IsTidy(RankExpr(rank))
  {
    if rank.Some? {
      TidySome();
      TidyName(rank.value);
      TidyGlue("Some(", rank.value);
      TidyGlue("Some(" + rank.value, ")");
    } else {
      TidyTensorPieces();
    }
  }

  lemma TidySome()
    ensures IsTidy("Some(") && IsTidy(")")
  {
  }

  /** The rank's label and the rank; the label ends in a space, so it is taken with the rank. */
  lemma TidyRankField(rank: Option<string>)
    requires rank.Some? ==> IsDigits(rank.value)
    ensures IsTidy(RankHead() + RankExpr(rank))
  {
    TidyRank(rank);
    TidyTensorPieces();
    TidyPair("rank:", RankExpr(rank));
    assert RankHead() == "rank:" + " ";
  }

  lemma TidyTensor(dtype: string, rank: Option<string>)
    requires IsRenderable(Tensor(dtype, rank))
    ensures IsTidy(Flat(Tensor(dtype, rank)))
  {
    var y := RankExpr(rank);
    TidyTensorFront(dtype);
    TidyTensorPieces();
    TidyRankField(rank);
    TidyTensorTail();
    TidyPair(DtypeTail(), RankHead() + y);
    TidyGlue(TensorHead() + DtypeExpr(dtype), DtypeTail() + " " + (RankHead() + y));
    TidyGlue(TensorHead() + DtypeExpr(dtype) + (DtypeTail() + " " + (RankHead() + y)), TensorTail());
    RegroupRank(TensorHead() + DtypeExpr(dtype), DtypeTail(), RankHead(), y);
  }

  lemma RegroupRank(a: string, b: string, c: string, d: string)
    ensures a + (b + " " + (c + d)) == a + (b + " " + c) + d
  {
  }

  lemma TidyTensorFront(dtype: string)
    ensures IsTidy(TensorHead() + DtypeExpr(dtype))
  {
    TidyOpenings();
    TidyTensorPieces();
    TidyPair(TensorOpen(), DtypeHead());
    TidyGlue("IRType::", DtypeName(dtype));
    TidyGlue(TensorHead(), DtypeExpr(dtype));
  }

  lemma {:induction false} DigitRunOfAppend(a: string, r: string)
    requires forall i :: 0 <= i < |a| ==> '0' <= a[i] <= '9'
    requires r != [] && !('0' <= r[0] <= '9')
    ensures DigitRun(a + r) == |a|
  {
    if a == [] {
      assert a + r == r;
    } else {
      assert (a + r)[1..] == a[1..] + r;
      DigitRunOfAppend(a[1..], r);
    }
  }

  lemma {:induction false} LetterRunOfAppend(a: string, r: string)
    requires forall i :: 0 <= i < |a| ==> 'A' <= a[i] <= 'Z' || 'a' <= a[i] <= 'z'
    requires r != [] && r[0] == ')'
    ensures LetterRun(a + r) == |a|
  {
    if a == [] {
      assert a + r == r;
    } else {
      assert (a + r)[1..] == a[1..] + r;
      LetterRunOfAppend(a[1..], r);
    }
  }

  lemma RankIsMatched(rank: Option<string>)
    requires rank.Some? ==> IsDigits(rank.value)
    ensures MatchRank(RankExpr(rank) + TensorTail()) == Some(rank)
  {
    if rank.Some? {
      SomeRankIsMatched(rank.value, TensorTail());
    }
  }

  lemma SomeRankIsMatched(d: string, tail: string)
    requires IsDigits(d) && tail == TensorTail()
    ensures MatchRank("Some(" + d + ")" + tail) == Some(Some(d))
  {
    var s, r := "Some(" + d + ")" + tail, d + (")" + tail);
    assert s == "Some(" + r;
    AppendStarts("Some(", r);
    DigitRunOfAppend(d, ")" + tail);
    assert r[..|d|] == d && r[|d|..] == ")" + tail;
    assert s[0] == 'S' && ("None" + tail)[0] == 'N';
  }

  lemma TensorIsMatched(name: string, rank: Option<string>)
    requires name == "Float" || name == "Int"
    requires rank.Some? ==> IsDigits(rank.value)
    ensures MatchTensor(TensorHead() + ("IRType::" + name) + TensorMiddle() + RankExpr(rank) + TensorTail())
         == Some(TensorExpr("IRType::" + name, rank))
  {
    var e := TensorHead() + ("IRType::" + name) + TensorMiddle() + RankExpr(rank) + TensorTail();
    var back := RankExpr(rank) + TensorTail();
    AssembleBack(TensorHead(), "IRType::", name, TensorMiddle(), RankExpr(rank), TensorTail());
    AppendStarts(TensorHead() + "IRType::", name + (TensorMiddle() + back));
    assert TensorMiddle()[0] == ')';
    LetterRunOfAppend(name, TensorMiddle() + back);
    AppendStarts(TensorMiddle(), back);
    AfterMiddle(name, TensorMiddle(), back);
    RankIsMatched(rank);
  }

  lemma AssembleBack(a: string, b: string, n: string, m: string, r: string, t: string)
    ensures a + (b + n) + m + r + t == (a + b) + (n + (m + (r + t)))
  {
  }

  lemma AfterMiddle(n: string, m: string, back: string)
    ensures (n + (m + back))[..|n|] == n && (n + (m + back))[|n|..] == m + back
    ensures (n + (m + back))[|n| + |m|..] == back
  {
  }

  /** Texts with the head of a tensor expression are nothing else. */
  lemma OnlyATensor(e: string)
    requires StartsWith(e, TensorHead())
    ensures Scalar(e).None? && e != ErrorExpr() && !StartsWith(e, ResultCall())
    ensures MatchNamed(e, StructHead()).None? && MatchNamed(e, EnumHead()).None?
  {
    assert |TensorHead()| > 20;
    PrefixAt(e, TensorHead(), 0);
    PrefixAt(e, TensorHead(), 8);
    if Scalar(e).Some? {
      ScalarIsShort(e);
    }
    OtherHead(e, ResultCall(), 0);
    OtherHead(e, StructHead(), 8);
    OtherHead(e, EnumHead(), 8);
  }

  lemma DtypeIsScalar(dtype: string)
    requires dtype == "float" || dtype == "int"
    ensures Scalar("IRType::" + DtypeName(dtype)) == Some(dtype)
  {
    assert "IRType::" + "Float" == "IRType::Float" && "IRType::" + "Int" == "IRType::Int";
  }

  lemma TensorReads(dtype: string, rank: Option<string>)
    requires IsRenderable(Tensor(dtype, rank))
    ensures IrTypeText(Flat(Tensor(dtype, rank))) == Some(TypeText(Tensor(dtype, rank)))
  {
    var e := Flat(Tensor(dtype, rank));
    TidyTensor(dtype, rank);
    TidyReads(e);
    TensorHeadStarts(DtypeExpr(dtype), TensorMiddle(), RankExpr(rank), TensorTail());
    OnlyATensor(e);
    TensorIsMatched(DtypeName(dtype), rank);
    DtypeIsScalar(dtype);
  }

  lemma TensorHeadStarts(a: string, b: string, c: string, d: string)
    ensures StartsWith(TensorHead() + a + b + c + d, TensorHead())
  {
    assert TensorHead() + a + b + c + d == TensorHead() + (a + b + c + d);
    AppendStarts(TensorHead(), a + b + c + d);
  }

  // ----- simple types -----

  lemma ScalarReads(e: string)
    requires Scalar(e).Some? && IsTidy(e)
    ensures IrTypeText(e) == Scalar(e)
  {
    TidyReads(e);
  }

  lemma SimpleIsScalar(name: string)
    requires SimpleIr(name).Some? && name != "BitSet" && name != "DisjointSet"
    ensures IsTidy(SimpleIr(name).value) && Scalar(SimpleIr(name).value) == Some(name)
  {
  }

  lemma NamedSimpleReads(name: string)
    requires name == "BitSet" || name == "DisjointSet"
    ensures IrTypeText(SimpleIr(name).value) == Some(name)
  {
    PlainName(name);
    SimpleIsStruct(name);
    BareStructReads(name);
  }

  lemma SimpleIsStruct(name: string)
    requires name == "BitSet" || name == "DisjointSet"
    ensures SimpleIr(name) == Some(StructHead() + name + StructTailTight())
  {
    AssembleSimple(StructOpen(), NameHead(), name, NameTail(), FieldsTight());
  }

  lemma PlainName(name: string)
    requires name == "BitSet" || name == "DisjointSet"
    ensures AllIdent(name) && name != [] && !HasUnderscore(name)
  {
  }

  lemma BareStructReads(name: string)
    requires AllIdent(name) && name != [] && !HasUnderscore(name)
    ensures IrTypeText(StructHead() + name + StructTailTight()) == Some(name)
  {
    NamedStructReads(name, StructTailTight());
    BareKindIsNotFound(name, UNARY);
    BareKindIsNotFound(name, BINARY);
  }

  lemma AssembleSimple(a: string, b: string, name: string, c: string, d: string)
    ensures a + " " + b + name + c + " " + d + " " + "}" == (a + " " + b) + name + (c + " " + d + " " + "}")
  {
  }

  lemma ErrorReads()
    ensures IrTypeText(ErrorExpr()) == Some("Error")
  {
    TidyCalls();
    TidyReads(ErrorExpr());
    assert ErrorExpr()[0] == 'b';
    if Scalar(ErrorExpr()).Some? {
      ScalarIsShort(ErrorExpr());
    }
  }

  // ----- every type -----

  lemma SimpleIsSolid(name: string)
    requires SimpleIr(name).Some?
    ensures IsSolid(SimpleIr(name).value)
  {
    if name == "BitSet" || name == "DisjointSet" {
      AssembleSimple(StructOpen(), NameHead(), name, NameTail(), FieldsTight());
    } else {
      SimpleIsScalar(name);
      TidyIsCollapsed(SimpleIr(name).value);
    }
  }

  lemma {:induction false} FlatIsSolid(t: IrType)
    requires IsRenderable(t)
    ensures IsSolid(Flat(t))
  {
    match t
    case Simple(name) =>
      SimpleIsSolid(name);
    case ResultOf(inner) => FlatIsSolid(inner); SolidResult(Flat(inner));
    case OptionString => OptionReads(t, "Option_string"); TidyIsCollapsed(Flat(t));
    case Tensor(dtype, rank) => TidyTensor(dtype, rank); TidyIsCollapsed(Flat(t));
    case Collection(kind, args) => SolidStruct(StructName(kind, args));
    case ErrorType =>
  }

  /** Printing a type on one line and reading it gives the catalog text exactly for readable types. */
  lemma {:induction false} TypeSurvives(t: IrType)
    requires IsRenderable(t)
    ensures IrTypeText(Flat(t)) == Some(TypeText(t)) <==> IsReadableType(t)
  {
    match t
    case Simple(name) =>
      if name == "BitSet" || name == "DisjointSet" {
        NamedSimpleReads(name);
      } else {
        SimpleIsScalar(name);
        ScalarReads(SimpleIr(name).value);
      }
    case ErrorType => ErrorReads();
    case ResultOf(inner) =>
      TypeSurvives(inner);
      FlatIsSolid(inner);
      ResultReads(Flat(inner));
      if IrTypeText(Flat(inner)).Some? {
        SameBrackets("Result", IrTypeText(Flat(inner)).value, TypeText(inner));
      }
    case OptionString => OptionReads(t, "Option_string");
    case Collection(kind, args) => CollectionReads(kind, args);
    case Tensor(dtype, rank) => TensorReads(dtype, rank);
  }
}
