/** Reading an emitted arm gives back the catalog entry's return type and flag. */
module LoweringArmRoundTrip {
  import opened Wrappers
  import opened PythonText
  import opened LoweringText
  import opened LoweringTypes
  import opened LoweringExpressions
  import opened LoweringTypeTheorems
  import opened LoweringTypeRoundTrip
  import opened LoweringArms
  import opened LoweringDescriptors
  import opened LoweringRawText
  import opened LoweringBrackets

  // ----- keys: a word that ends in `x`, `y` and a colon -----

  /** No colon stands behind `x` and `y`, and none among the first two characters. */
  predicate IsCalm(s: string, x: char, y: char) {
    && (|s| > 0 ==> s[0] != ':')
    && (|s| > 1 ==> s[1] != ':')
    && forall j :: 2 <= j < |s| && s[j] == ':' ==> !(s[j - 2] == x && s[j - 1] == y)
  }

  lemma CalmGlue(a: string, b: string, x: char, y: char)
    requires IsCalm(a, x, y) && IsCalm(b, x, y)
    ensures |a| != 1 ==> IsCalm(a + b, x, y)
  {
  }

  lemma NoColonIsCalm(s: string, x: char, y: char)
    requires ':' !in s
    ensures IsCalm(s, x, y)
  {
  }

  predicate IsKey(p: string, x: char, y: char) {
    |p| >= 3 && p[|p| - 3] == x && p[|p| - 2] == y && p[|p| - 1] == ':'
    && forall i :: 0 <= i < |p| - 1 ==> p[i] != ':'
  }

  /** A colon behind `x` and `y` nowhere: what remains of a calm text when its head is cut. */
  predicate HasNoKeyEnd(s: string, x: char, y: char) {
    forall j :: 2 <= j < |s| && s[j] == ':' ==> !(s[j - 2] == x && s[j - 1] == y)
  }

  lemma KeyDoesNotStartHere(pre: string, p: string, post: string, x: char, y: char)
    requires pre != [] && HasNoKeyEnd(pre, x, y) && IsKey(p, x, y)
    ensures !StartsWith(pre + p + post, p)
  {
    var s, n := pre + p + post, |p| - 1;
    if n >= |pre| {
      assert s[n] == p[n - |pre|];
      OtherHead(s, p, n);
    } else if pre[n] != ':' {
      OtherHead(s, p, n);
    } else if pre[n - 1] != y {
      OtherHead(s, p, n - 1);
    } else {
      OtherHead(s, p, n - 2);
    }
  }

  /** A key is first found behind a text without its ending. */
  lemma {:induction false} FindsKey(pre: string, p: string, post: string, x: char, y: char)
    requires HasNoKeyEnd(pre, x, y) && IsKey(p, x, y)
    ensures Find(pre + p + post, p) == Some(|pre|)
  {
    var s := pre + p + post;
    if pre == [] {
      assert s == p + post;
      AppendStarts(p, post);
    } else {
      KeyDoesNotStartHere(pre, p, post, x, y);
      assert s[1..] == pre[1..] + p + post;
      FindsKey(pre[1..], p, post, x, y);
    }
  }

  lemma {:induction false} FindsFlag(pre: string, value: bool, post: string)
    requires HasNoKeyEnd(pre, 'u', 'e')
    ensures FindFlag(pre + FlagKey() + (" " + FlagText(value) + post)) == Some(value)
  {
    var rest := " " + FlagText(value) + post;
    var s := pre + FlagKey() + rest;
    if pre == [] {
      assert s == FlagKey() + rest;
      FlagIsHere(value, post);
    } else {
      FlagKeyIsKey();
      KeyDoesNotStartHere(pre, FlagKey(), rest, 'u', 'e');
      assert s[1..] == pre[1..] + FlagKey() + rest;
      FindsFlag(pre[1..], value, post);
    }
  }

  lemma FlagKeyIsKey()
    ensures IsKey(FlagKey(), 'u', 'e') && IsKey(TypeKey(), 'p', 'e')
  {
  }

  lemma OneSpace(c: char, rest: string)
    requires !IsSpace(c)
    ensures StripLeft(" " + ([c] + rest)) == [c] + rest
  {
    StripLeftOfAppend(" ", [c] + rest);
    StripLeftOfSpaces(" ");
    assert [] + ([c] + rest) == [c] + rest;
  }

  lemma FlagIsHere(value: bool, post: string)
    ensures FlagHere(FlagKey() + (" " + FlagText(value) + post)) == Some(value)
  {
    var rest := " " + FlagText(value) + post;
    AppendStarts(FlagKey(), rest);
    if value {
      WordBehindSpace("true", post);
    } else {
      WordBehindSpace("false", post);
      OtherHead("false" + post, "true", 0);
    }
  }

  lemma WordBehindSpace(word: string, post: string)
    requires word != [] && !IsSpace(word[0])
    ensures StripLeft(" " + word + post) == word + post && StartsWith(word + post, word)
  {
    assert " " + word + post == " " + ([word[0]] + (word[1..] + post));
    OneSpace(word[0], word[1..] + post);
    assert [word[0]] + (word[1..] + post) == word + post;
    AppendStarts(word, post);
  }

  // ----- a printed type is calm -----

  /** Struct names are identifiers, as the type reader expects them. */
  predicate HasIdentNames(t: IrType) {
    match t
    case ResultOf(inner) => HasIdentNames(inner)
    case Collection(kind, args) => AllIdent(StructName(kind, args))
    case _ => true
  }

  lemma {:induction false} IdentNamesArePlain(t: IrType)
    requires HasIdentNames(t)
    ensures HasPlainNames(t)
  {
    match t
    case ResultOf(inner) => IdentNamesArePlain(inner);
    case Collection(kind, args) => QuietIdent(StructName(kind, args));
    case _ =>
  }

  predicate AreCalm(lines: seq<Line>) {
    forall i :: 0 <= i < |lines| ==> |lines[i].text| > 0 && IsCalm(lines[i].text, 'u', 'e')
  }

  lemma GapIsCalm(text: string, indent: nat)
    requires IsCalm(text, 'u', 'e') && text != []
    ensures IsCalm(text + Gap(indent), 'u', 'e') && |text + Gap(indent)| > 1
  {
  }

  lemma {:induction false} RawIsCalm(lines: seq<Line>)
    requires lines != [] && AreCalm(lines)
    ensures IsCalm(Raw(lines), 'u', 'e') && Raw(lines) != []
  {
    if |lines| > 1 {
      RawIsCalm(lines[1..]);
      GapIsCalm(lines[0].text, lines[1].indent);
      CalmGlue(lines[0].text + Gap(lines[1].indent), Raw(lines[1..]), 'u', 'e');
    }
  }

  lemma NameLineIsCalm(name: string)
    requires AllIdent(name)
    ensures IsCalm(NameHead() + name + NameTail(), 'u', 'e')
  {
    NoColonIsCalm(name, 'u', 'e');
    CalmGlue(NameHead(), name, 'u', 'e');
    CalmGlue(NameHead() + name, NameTail(), 'u', 'e');
  }

  lemma StructPiecesAreCalm()
    ensures IsCalm(StructOpen(), 'u', 'e') && IsCalm(EnumOpen(), 'u', 'e') && IsCalm(TensorOpen(), 'u', 'e')
    ensures IsCalm(Fields(), 'u', 'e') && IsCalm(FieldsTight(), 'u', 'e') && IsCalm("}", 'u', 'e')
  {
  }

  lemma VariantPiecesAreCalm()
    ensures IsCalm(Variants() + "vec![", 'u', 'e') && IsCalm(SomeVariant(), 'u', 'e')
    ensures IsCalm(NoneVariant(), 'u', 'e') && IsCalm("],", 'u', 'e')
  {
    assert IsCalm("(\"Some\".to_string(),", 'u', 'e') && IsCalm("Some(vec![IRType::String])),", 'u', 'e');
    NoColonIsCalm("(\"Some\".to_string()," + " ", 'u', 'e');
    CalmGlue("(\"Some\".to_string()," + " ", "Some(vec![IRType::String])),", 'u', 'e');
    NoColonIsCalm(NoneVariant(), 'u', 'e');
  }

  lemma TensorPiecesAreCalm()
    ensures IsCalm(DtypeHead(), 'u', 'e') && IsCalm(DtypeTail(), 'u', 'e') && IsCalm(RankHead(), 'u', 'e')
    ensures IsCalm("dims: None,", 'u', 'e') && IsCalm("layout: None,", 'u', 'e') && IsCalm("device: None,", 'u', 'e')
    ensures IsCalm("IRType::Float", 'u', 'e') && IsCalm("IRType::Int", 'u', 'e')
  {
  }

  lemma Calm4(a: Line, b: Line, c: Line, d: Line)
    requires a.text != [] && b.text != [] && c.text != [] && d.text != []
    requires IsCalm(a.text, 'u', 'e') && IsCalm(b.text, 'u', 'e')
    requires IsCalm(c.text, 'u', 'e') && IsCalm(d.text, 'u', 'e')
    ensures AreCalm([a, b, c, d])
  {
  }

  lemma CollectionIsCalm(kind: string, args: string, indent: nat)
    requires IsRenderable(Collection(kind, args)) && AllIdent(StructName(kind, args))
    ensures AreCalm(RenderType(Collection(kind, args), indent))
  {
    var name := StructName(kind, args);
    StructPiecesAreCalm();
    NameLineIsCalm(name);
    Calm4(Line(indent, StructOpen()), Line(indent + 4, NameHead() + name + NameTail()),
          Line(indent + 4, Fields()), Line(indent, "}"));
  }

  lemma Calm3(a: Line, b: Line, c: Line)
    requires a.text != [] && b.text != [] && c.text != []
    requires IsCalm(a.text, 'u', 'e') && IsCalm(b.text, 'u', 'e') && IsCalm(c.text, 'u', 'e')
    ensures AreCalm([a, b, c])
  {
  }

  lemma CalmLists(a: seq<Line>, b: seq<Line>)
    requires AreCalm(a) && AreCalm(b)
    ensures AreCalm(a + b)
  {
  }

  lemma OptionIsCalm(indent: nat)
    ensures AreCalm(RenderType(OptionString, indent))
  {
    var open, name := Line(indent, EnumOpen()), Line(indent + 4, NameHead() + "Option_string" + NameTail());
    var variants, some := Line(indent + 4, Variants() + "vec!["), Line(indent + 8, SomeVariant());
    var none, end, close := Line(indent + 8, NoneVariant()), Line(indent + 4, "],"), Line(indent, "}");
    StructPiecesAreCalm();
    VariantPiecesAreCalm();
    NameLineIsCalm("Option_string");
    Calm4(open, name, variants, some);
    Calm3(none, end, close);
    CalmLists([open, name, variants, some], [none, end, close]);
    assert [open, name, variants, some] + [none, end, close] == RenderType(OptionString, indent);
  }

  lemma RankIsCalm(rank: Option<string>)
    requires rank.Some? ==> IsDigits(rank.value)
    ensures IsCalm(RankHead() + RankExpr(rank) + ",", 'u', 'e')
  {
    TensorPiecesAreCalm();
    assert ':' !in RankExpr(rank) + ",";
    NoColonIsCalm(RankExpr(rank) + ",", 'u', 'e');
    CalmGlue(RankHead(), RankExpr(rank) + ",", 'u', 'e');
    Glue(RankHead(), RankExpr(rank), ",");
  }

  lemma DtypeIsCalm(dtype: string)
    ensures IsCalm(DtypeHead() + DtypeExpr(dtype) + DtypeTail(), 'u', 'e')
  {
    TensorPiecesAreCalm();
    assert DtypeExpr(dtype) == "IRType::Float" || DtypeExpr(dtype) == "IRType::Int";
    CalmGlue(DtypeHead(), DtypeExpr(dtype), 'u', 'e');
    CalmGlue(DtypeHead() + DtypeExpr(dtype), DtypeTail(), 'u', 'e');
  }

  lemma TensorIsCalm(dtype: string, rank: Option<string>, indent: nat)
    requires IsRenderable(Tensor(dtype, rank))
    ensures AreCalm(RenderType(Tensor(dtype, rank), indent))
  {
    var open, box := Line(indent, TensorOpen()), Line(indent + 4, DtypeHead() + DtypeExpr(dtype) + DtypeTail());
    var ranked := Line(indent + 4, RankHead() + RankExpr(rank) + ",");
    StructPiecesAreCalm();
    TensorPiecesAreCalm();
    DtypeIsCalm(dtype);
    RankIsCalm(rank);
    Calm3(open, box, ranked);
    Calm4(Line(indent + 4, "dims: None,"), Line(indent + 4, "layout: None,"), Line(indent + 4, "device: None,"),
          Line(indent, "}"));
    CalmLists([open, box, ranked], NoneLines(indent));
    assert [open, box, ranked] + NoneLines(indent) == RenderType(Tensor(dtype, rank), indent);
  }

  lemma SimpleIsCalm(name: string)
    requires SimpleIr(name).Some?
    ensures IsCalm(SimpleIr(name).value, 'u', 'e')
  {
    if name == "BitSet" || name == "DisjointSet" {
      SimpleIsStruct(name);
      PlainName(name);
      FlatStructIsCalm(name);
    } else {
      ScalarsAreCalm();
    }
  }

  lemma ScalarsAreCalm()
    ensures IsCalm("IRType::Int", 'u', 'e') && IsCalm("IRType::Bool", 'u', 'e') && IsCalm("IRType::String", 'u', 'e')
    ensures IsCalm("IRType::Float", 'u', 'e') && IsCalm("IRType::Void", 'u', 'e')
    ensures IsCalm("IRType::Unknown", 'u', 'e') && IsCalm("IRType::Range", 'u', 'e')
  {
  }

  lemma FlatStructIsCalm(name: string)
    requires AllIdent(name)
    ensures IsCalm(StructHead() + name + StructTailTight(), 'u', 'e')
  {
    var line := NameHead() + name + NameTail();
    NameLineIsCalm(name);
    StructPiecesAreCalm();
    var open := StructOpen() + " ";
    CalmGlue(StructOpen(), " ", 'u', 'e');
    CalmGlue(open, line, 'u', 'e');
    CalmGlue(open + line, " ", 'u', 'e');
    CalmGlue(open + line + " ", FieldsTight(), 'u', 'e');
    CalmGlue(open + line + " " + FieldsTight(), " }", 'u', 'e');
    AssembleStruct(StructOpen(), NameHead(), name, NameTail(), FieldsTight());
  }

  lemma AssembleStruct(a: string, b: string, name: string, c: string, d: string)
    ensures a + " " + (b + name + c) + " " + d + " }" == (a + " " + b) + name + (c + " " + d + " " + "}")
  {
    assert " " + "}" == " }";
  }

  lemma {:induction false} TypeIsCalm(t: IrType, indent: nat)
    requires IsRenderable(t) && HasIdentNames(t)
    ensures var raw := Raw(RenderType(t, indent)); raw != [] && IsCalm(raw, 'u', 'e')
  {
    var lines := RenderType(t, indent);
    match t
    case Simple(name) => SimpleIsSolid(name); SimpleIsCalm(name);
    case ErrorType => NoColonIsCalm(ErrorExpr(), 'u', 'e');
    case ResultOf(inner) =>
      TypeIsCalm(inner, indent);
      RawOfWrap(ResultCall(), RenderType(inner, indent), ")");
      ResultIsCalm(Raw(RenderType(inner, indent)));
    case OptionString => OptionIsCalm(indent); RawIsCalm(lines);
    case Collection(kind, args) => CollectionIsCalm(kind, args, indent); RawIsCalm(lines);
    case Tensor(dtype, rank) => TensorIsCalm(dtype, rank, indent); RawIsCalm(lines);
  }

  lemma ResultIsCalm(inner: string)
    requires IsCalm(inner, 'u', 'e') && inner != []
    ensures IsCalm(ResultCall() + inner + ")", 'u', 'e')
  {
    NoColonIsCalm(ResultCall(), 'u', 'e');
    NoColonIsCalm(")", 'u', 'e');
    CalmGlue(ResultCall(), inner, 'u', 'e');
    CalmGlue(ResultCall() + inner, ")", 'u', 'e');
  }

  // ----- struct arms -----

  /** What the catalog reader is given of an arm: the text behind the arrow, a line break and
      whatever follows up to the next arm. */
  function ArmBody(name: (string, string), lines: seq<Line>, rest: string): string
    requires lines != [] && |Raw(lines)| >= |Head(name)| + 3
  {
    Raw(lines)[|Head(name)| + 3..] + "\n" + rest
  }

  /** The text in front of the return type's key. */
  function BeforeKey(runtime: string): string {
    Opening() + Gap(12) + ("runtime_name: " + runtime + ",") + Gap(12)
  }

  /** The text behind the type. */
  function AfterType(flag: bool, rest: string): string {
    Gap(12) + FlagKey() + (" " + FlagText(flag) + ("," + Gap(8) + "})," + "\n" + rest))
  }

  lemma StructText(name: (string, string), runtime: string, typeLines: seq<Line>, flag: bool)
    requires typeLines != [] && typeLines[0].indent == 12
    ensures Raw(StructArm(name, runtime, typeLines, flag))
         == (Head(name) + (" =>" + Opening())) + Gap(12) + ("runtime_name: " + runtime + ",") + Gap(12)
            + ((TypeKey() + " ") + Raw(typeLines) + ",") + Gap(12)
            + ((FlagKey() + " ") + FlagText(flag) + ",") + Gap(8) + "}),"
  {
    var first, second := Line(8, Head(name) + (" =>" + Opening())), Line(12, "runtime_name: " + runtime + ",");
    var block := Wrap(TypeKey() + " ", typeLines, ",");
    var third, last := Line(12, FlagKey() + " " + FlagText(flag) + ","), Line(8, "}),");
    RawOfTwo(first, second);
    RawOfTwo(third, last);
    RawOfWrap(TypeKey() + " ", typeLines, ",");
    RawOfAppend([first, second], block);
    RawOfAppend([first, second] + block, [third, last]);
    Regrouped(Raw([first, second]) + Gap(12) + Raw(block), Gap(12), third.text, Gap(8), last.text);
  }

  lemma RawOfTwo(a: Line, b: Line)
    ensures Raw([a, b]) == a.text + Gap(b.indent) + b.text
  {
    assert [a, b][1..] == [b];
  }

  /** The body of a struct arm, taken apart at its keys. */
  lemma StructBody(name: (string, string), runtime: string, typeLines: seq<Line>, flag: bool, rest: string)
    requires typeLines != [] && typeLines[0].indent == 12
    ensures var lines := StructArm(name, runtime, typeLines, flag);
            && |Raw(lines)| >= |Head(name)| + 3
            && ArmBody(name, lines, rest)
               == BeforeKey(runtime) + TypeKey() + (" " + (Raw(typeLines) + ("," + AfterType(flag, rest))))
  {
    StructText(name, runtime, typeLines, flag);
    TakenApart(name, StructArm(name, runtime, typeLines, flag), runtime, Raw(typeLines), flag, rest);
  }

  lemma TakenApart(name: (string, string), lines: seq<Line>, runtime: string, raw: string, flag: bool, rest: string)
    requires lines != []
    requires Raw(lines)
          == (Head(name) + (" =>" + Opening())) + Gap(12) + ("runtime_name: " + runtime + ",") + Gap(12)
             + ((TypeKey() + " ") + raw + ",") + Gap(12)
             + ((FlagKey() + " ") + FlagText(flag) + ",") + Gap(8) + "}),"
    ensures |Raw(lines)| >= |Head(name)| + 3
    ensures ArmBody(name, lines, rest)
         == BeforeKey(runtime) + TypeKey() + (" " + (raw + ("," + AfterType(flag, rest))))
  {
    Rearranged(Head(name), Opening(), "runtime_name: " + runtime + ",", TypeKey(), raw, FlagKey(), FlagText(flag),
               rest);
  }

  lemma Rearranged(h: string, o: string, r: string, k: string, raw: string, f: string, v: string, rest: string)
    ensures var text := (h + (" =>" + o)) + Gap(12) + r + Gap(12) + ((k + " ") + raw + ",") + Gap(12)
                        + ((f + " ") + v + ",") + Gap(8) + "}),";
            && |text| >= |h| + 3
            && text[|h| + 3..] + "\n" + rest
               == (o + Gap(12) + r + Gap(12)) + k
                  + (" " + (raw + ("," + (Gap(12) + f + (" " + v + ("," + Gap(8) + "})," + "\n" + rest))))))
  {
    var front := (o + Gap(12) + r + Gap(12)) + k + (" " + raw);
    var back := "," + Gap(12) + (f + " " + v + ",") + Gap(8) + "}),";
    Behind(h, " =>", o, Gap(12), r, k, raw);
    Tail(h + " =>", front, Gap(12), f, v, Gap(8));
    assert (h + " =>" + (front + back))[|h| + 3..] == front + back;
    AfterBack(front, (o + Gap(12) + r + Gap(12)) + k, raw, f, v, rest);
  }

  lemma Behind(h: string, arrow: string, o: string, g: string, r: string, k: string, raw: string)
    ensures (h + (arrow + o)) + g + r + g + ((k + " ") + raw + ",")
         == h + arrow + ((o + g + r + g) + k + (" " + raw)) + ","
  {
  }

  lemma Tail(h: string, front: string, g: string, k: string, v: string, g8: string)
    ensures h + front + "," + g + ((k + " ") + v + ",") + g8 + "}),"
         == h + (front + ("," + g + (k + " " + v + ",") + g8 + "}),"))
  {
  }

  lemma AfterBack(front: string, p: string, raw: string, k: string, v: string, rest: string)
    requires front == p + (" " + raw)
    ensures front + ("," + Gap(12) + (k + " " + v + ",") + Gap(8) + "}),") + "\n" + rest
         == p + (" " + (raw + ("," + (Gap(12) + k + (" " + v + ("," + Gap(8) + "})," + "\n" + rest))))))
  {
  }

  lemma BeforeKeyHasNoKey(runtime: string)
    requires IsCalm(runtime, 'p', 'e') && |runtime| > 1
    ensures HasNoKeyEnd(BeforeKey(runtime), 'p', 'e')
  {
    OpeningIsCalm();
    var front := Opening() + Gap(12);
    NoColonIsCalm(front, 'p', 'e');
    CalmGlue(front, "runtime_name: ", 'p', 'e');
    CalmGlue(front + "runtime_name: ", runtime, 'p', 'e');
    NoColonIsCalm("," + Gap(12), 'p', 'e');
    CalmGlue(front + "runtime_name: " + runtime, "," + Gap(12), 'p', 'e');
    assert front + "runtime_name: " + runtime + ("," + Gap(12)) == BeforeKey(runtime);
  }

  lemma OpeningIsCalm()
    ensures ':' !in Opening() && ':' !in Gap(12) && IsCalm("runtime_name: ", 'p', 'e')
  {
  }

  lemma BeforeFlagHasNoKey(raw: string)
    requires IsCalm(raw, 'u', 'e') && raw != []
    ensures HasNoKeyEnd(raw + ("," + Gap(12)), 'u', 'e')
  {
  }

  /** A struct arm reads as its type does, in whatever text it stands. */
  lemma StructArmReads(name: (string, string), runtime: string, t: IrType, flag: bool, rest: string)
    requires IsRenderable(t) && HasIdentNames(t) && IsCalm(runtime, 'p', 'e') && |runtime| > 1
    ensures var lines := StructArm(name, runtime, RenderType(t, 12), flag);
            && |Raw(lines)| >= |Head(name)| + 3
            && ParseReturn(ArmBody(name, lines, rest)) == Described(IrTypeText(Flat(t)), Some(flag))
  {
    var raw := Raw(RenderType(t, 12));
    StartsAtIndent(t, 12);
    StructBody(name, runtime, RenderType(t, 12), flag, rest);
    var tail := raw + ("," + AfterType(flag, rest));
    TypeKeyIsFound(runtime, BeforeKey(runtime) + TypeKey() + (" " + tail), " " + tail);
    TypeTail(t, flag, rest);
  }

  lemma TypeKeyIsFound(runtime: string, body: string, behind: string)
    requires IsCalm(runtime, 'p', 'e') && |runtime| > 1 && body == BeforeKey(runtime) + TypeKey() + behind
    ensures var key := Find(body, TypeKey()); key.Some? && body[key.value + |TypeKey()|..] == behind
  {
    BeforeKeyHasNoKey(runtime);
    FlagKeyIsKey();
    FindsKey(BeforeKey(runtime), TypeKey(), behind, 'p', 'e');
    BehindKey(BeforeKey(runtime), TypeKey(), behind);
  }

  lemma {:induction false} StartsAtIndent(t: IrType, indent: nat)
    requires IsRenderable(t)
    ensures RenderType(t, indent)[0].indent == indent
  {
    if t.ResultOf? {
      StartsAtIndent(t.inner, indent);
    }
  }

  lemma BehindKey(a: string, k: string, b: string)
    ensures (a + k + b)[|a| + |k|..] == b
  {
  }

  /** From the type on, the reader sees the type and then the flag. */
  lemma TypeTail(t: IrType, flag: bool, rest: string)
    requires IsRenderable(t) && HasIdentNames(t)
    ensures var raw := Raw(RenderType(t, 12));
            var tail := raw + ("," + AfterType(flag, rest));
            && StripLeft(" " + tail) == tail
            && IrTypeText(tail[..ExpressionEnd(tail, 0)]) == IrTypeText(Flat(t))
            && FindFlag(tail) == Some(flag)
  {
    var raw := Raw(RenderType(t, 12));
    TypeLinesAreSolid(t, 12);
    SolidText(RenderType(t, 12));
    IdentNamesArePlain(t);
    TypeRuns(t, 12, 0);
    CutAtComma(raw, AfterType(flag, rest));
    RawReads(t, 12);
    FlagInTail(t, raw, flag, rest);
  }

  lemma CutAtComma(raw: string, rest: string)
    requires IsSolid(raw) && Runs(raw, 0) == Some(0)
    ensures var tail := raw + ("," + rest);
            StripLeft(" " + tail) == tail && tail[..ExpressionEnd(tail, 0)] == raw
  {
    var tail := raw + ("," + rest);
    assert tail == [tail[0]] + tail[1..] && tail[0] == raw[0];
    OneSpace(tail[0], tail[1..]);
    EndsAtComma(raw, 0, rest);
  }

  lemma FlagInTail(t: IrType, raw: string, flag: bool, rest: string)
    requires IsRenderable(t) && HasIdentNames(t) && raw == Raw(RenderType(t, 12))
    ensures FindFlag(raw + ("," + AfterType(flag, rest))) == Some(flag)
  {
    TypeIsCalm(t, 12);
    BeforeFlagHasNoKey(raw);
    var post := "," + Gap(8) + "})," + "\n" + rest;
    FindsFlag(raw + ("," + Gap(12)), flag, post);
    FlagRegroup(raw, Gap(12), FlagKey(), " " + FlagText(flag) + post);
  }

  lemma FlagRegroup(a: string, g: string, k: string, c: string)
    ensures a + ("," + g) + k + c == a + ("," + (g + k + c))
  {
  }
}
