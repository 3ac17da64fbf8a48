/** Printed type expressions as they stand in the file, over several lines: where the reader
    sees them end, and that it reads the same as on one line. */
module LoweringRawText {
  import opened Wrappers
  import opened PythonText
  import opened LoweringText
  import opened LoweringTypes
  import opened LoweringExpressions
  import opened LoweringTypeTheorems
  import opened LoweringTypeRoundTrip
  import opened LoweringDescriptors

  function Gap(indent: nat): string { "\n" + Spaces(indent) }

  /** The lines joined by line breaks, without the first line's indentation. */
  function Raw(lines: seq<Line>): string
    requires lines != []
  {
    if |lines| == 1 then lines[0].text else lines[0].text + Gap(lines[1].indent) + Raw(lines[1..])
  }

  // ----- putting lines together -----

  lemma {:induction false} RawOfAppend(a: seq<Line>, b: seq<Line>)
    requires a != [] && b != []
    ensures Raw(a + b) == Raw(a) + Gap(b[0].indent) + Raw(b)
  {
    if |a| == 1 {
      assert (a + b)[1..] == b;
    } else {
      assert (a + b)[1..] == a[1..] + b;
      RawOfAppend(a[1..], b);
      Regrouped(a[0].text, Gap(a[1].indent), Raw(a[1..]), Gap(b[0].indent), Raw(b));
    }
  }

  lemma Regrouped(a: string, b: string, c: string, d: string, e: string)
    ensures a + b + (c + d + e) == (a + b + c) + d + e
  {
  }

  lemma {:induction false} RawOfLast(lines: seq<Line>, s: string)
    requires lines != []
    ensures var n := |lines| - 1;
            Raw(lines[n := lines[n].(text := lines[n].text + s)]) == Raw(lines) + s
  {
    var n := |lines| - 1;
    var changed := lines[n := lines[n].(text := lines[n].text + s)];
    if n > 0 {
      assert changed[1..] == lines[1..][n - 1 := lines[n].(text := lines[n].text + s)];
      RawOfLast(lines[1..], s);
      Glue(lines[0].text + Gap(lines[1].indent), Raw(lines[1..]), s);
    }
  }

  lemma RawOfWrap(open: string, inner: seq<Line>, close: string)
    requires inner != []
    ensures Raw(Wrap(open, inner, close)) == open + Raw(inner) + close
  {
    var begun := inner[0 := inner[0].(text := open + inner[0].text)];
    RawOfLast(begun, close);
    if |inner| > 1 {
      assert begun[1..] == inner[1..];
      Moved(open, inner[0].text, Gap(inner[1].indent), Raw(inner[1..]));
    }
  }

  lemma Moved(a: string, b: string, c: string, d: string)
    ensures (a + b) + c + d == a + (b + c + d)
  {
  }

  // ----- collapsing line breaks -----

  predicate AreSolid(lines: seq<Line>) {
    forall i :: 0 <= i < |lines| ==> IsSolid(lines[i].text)
  }

  lemma GapIsSpace(indent: nat)
    ensures Gap(indent) != [] && forall i :: 0 <= i < |Gap(indent)| ==> IsSpace(Gap(indent)[i])
  {
  }

  lemma {:induction false} SolidText(lines: seq<Line>)
    requires lines != [] && AreSolid(lines)
    ensures IsSolid(Raw(lines)) && IsSolid(OneLine(lines))
  {
    if |lines| > 1 {
      assert AreSolid(lines[1..]);
      SolidText(lines[1..]);
      EndsSolid(lines[0].text, Gap(lines[1].indent), Raw(lines[1..]));
      EndsSolid(lines[0].text, " ", OneLine(lines[1..]));
    }
  }

  lemma EndsSolid(a: string, b: string, c: string)
    requires a != [] && !IsSpace(a[0]) && IsSolid(c)
    ensures IsSolid(a + b + c)
  {
    var s := a + b + c;
    assert s[0] == a[0] && s[|s| - 1] == c[|c| - 1];
  }

  lemma {:induction false} RawCollapses(lines: seq<Line>)
    requires lines != [] && AreSolid(lines)
    ensures Squeeze(Raw(lines)) == Squeeze(OneLine(lines))
  {
    if |lines| > 1 {
      var rest := lines[1..];
      assert AreSolid(rest);
      RawCollapses(rest);
      SolidText(rest);
      GapIsSpace(lines[1].indent);
      SqueezeJoin(lines[0].text, Gap(lines[1].indent), Raw(rest));
      SqueezeJoin(lines[0].text, " ", OneLine(rest));
    }
  }

  lemma WrapIsSolid(open: string, inner: seq<Line>, close: string)
    requires inner != [] && AreSolid(inner) && IsSolid(open) && IsSolid(close)
    ensures AreSolid(Wrap(open, inner, close))
  {
    var n := |inner| - 1;
    EndsSolid(open, "", inner[0].text);
    assert open + "" + inner[0].text == open + inner[0].text;
    var begun := inner[0 := inner[0].(text := open + inner[0].text)];
    EndsSolid(begun[n].text, "", close);
    assert begun[n].text + "" + close == begun[n].text + close;
  }

  lemma NameLineIsSolid(name: string)
    ensures IsSolid(NameHead() + name + NameTail())
  {
    EndsSolid(NameHead(), name, NameTail());
  }

  lemma {:induction false} TypeLinesAreSolid(t: IrType, indent: nat)
    requires IsRenderable(t)
    ensures AreSolid(RenderType(t, indent))
  {
    match t
    case Simple(name) => SimpleIsSolid(name);
    case ErrorType =>
    case ResultOf(inner) =>
      TypeLinesAreSolid(inner, indent);
      WrapIsSolid(ResultCall(), RenderType(inner, indent), ")");
    case OptionString => OptionLinesAreSolid(indent);
    case Collection(kind, args) => CollectionLinesAreSolid(kind, args, indent);
    case Tensor(dtype, rank) => TensorLinesAreSolid(dtype, rank, indent);
  }

  lemma Solid4(a: Line, b: Line, c: Line, d: Line)
    requires IsSolid(a.text) && IsSolid(b.text) && IsSolid(c.text) && IsSolid(d.text)
    ensures AreSolid([a, b, c, d])
  {
  }

  lemma Solid7(a: Line, b: Line, c: Line, d: Line, e: Line, f: Line, g: Line)
    requires IsSolid(a.text) && IsSolid(b.text) && IsSolid(c.text) && IsSolid(d.text)
    requires IsSolid(e.text) && IsSolid(f.text) && IsSolid(g.text)
    ensures AreSolid([a, b, c, d, e, f, g])
  {
  }

  lemma OptionLinesAreSolid(indent: nat)
    ensures AreSolid(RenderType(OptionString, indent))
  {
    NameLineIsSolid("Option_string");
    TidyVariants();
    TidyIsCollapsed(SomeVariant());
    TidyIsCollapsed(NoneVariant());
    TidyIsCollapsed(Variants() + "vec![");
    Solid7(Line(indent, EnumOpen()), Line(indent + 4, NameHead() + "Option_string" + NameTail()),
           Line(indent + 4, Variants() + "vec!["), Line(indent + 8, SomeVariant()), Line(indent + 8, NoneVariant()),
           Line(indent + 4, "],"), Line(indent, "}"));
  }

  lemma CollectionLinesAreSolid(kind: string, args: string, indent: nat)
    requires IsRenderable(Collection(kind, args))
    ensures AreSolid(RenderType(Collection(kind, args), indent))
  {
    var name := NameHead() + StructName(kind, args) + NameTail();
    NameLineIsSolid(StructName(kind, args));
    Solid4(Line(indent, StructOpen()), Line(indent + 4, name), Line(indent + 4, Fields()), Line(indent, "}"));
  }

  lemma TensorLinesAreSolid(dtype: string, rank: Option<string>, indent: nat)
    requires IsRenderable(Tensor(dtype, rank))
    ensures AreSolid(RenderType(Tensor(dtype, rank), indent))
  {
    EndsSolid(DtypeHead(), DtypeExpr(dtype), DtypeTail());
    EndsSolid(RankHead(), RankExpr(rank), ",");
    Solid7(Line(indent, TensorOpen()), Line(indent + 4, DtypeHead() + DtypeExpr(dtype) + DtypeTail()),
           Line(indent + 4, RankHead() + RankExpr(rank) + ","), Line(indent + 4, "dims: None,"),
           Line(indent + 4, "layout: None,"), Line(indent + 4, "device: None,"), Line(indent, "}"));
  }

  /** Over several lines a type reads as it does on one. */
  lemma RawReads(t: IrType, indent: nat)
    requires IsRenderable(t)
    ensures IrTypeText(Raw(RenderType(t, indent))) == IrTypeText(Flat(t))
  {
    var lines := RenderType(t, indent);
    TypeLinesAreSolid(t, indent);
    SolidText(lines);
    RawCollapses(lines);
    FlatIsOneLine(t, indent);
    ReadsCollapsed(Raw(lines));
    ReadsCollapsed(Flat(t));
  }

  // ----- brackets and commas -----

  /** The depth behind a text, `None` if a comma outside brackets comes first. */
  function Runs(s: string, depth: int): Option<int> {
    if s == [] then Some(depth)
    else if s[0] == ',' && depth == 0 then None
    else Runs(s[1..], depth + Step(s[0]))
  }

  lemma {:induction false} RunsOn(a: string, b: string, depth: int)
    requires Runs(a, depth).Some?
    ensures Runs(a + b, depth) == Runs(b, Runs(a, depth).value)
  {
    if a == [] {
      assert a + b == b;
    } else {
      assert (a + b)[1..] == a[1..] + b;
      RunsOn(a[1..], b, depth + Step(a[0]));
    }
  }

  /** An expression ends at the comma behind its last bracket. */
  lemma {:induction false} EndsAtComma(s: string, depth: int, rest: string)
    requires Runs(s, depth) == Some(0)
    ensures ExpressionEnd(s + ("," + rest), depth) == |s|
  {
    if s == [] {
      assert s + ("," + rest) == "," + rest;
    } else {
      assert (s + ("," + rest))[1..] == s[1..] + ("," + rest);
      EndsAtComma(s[1..], depth + Step(s[0]), rest);
    }
  }

  predicate IsQuietChar(c: char) {
    c != ',' && Step(c) == 0
  }

  predicate IsQuiet(s: string) {
    forall i :: 0 <= i < |s| ==> IsQuietChar(s[i])
  }

  lemma {:induction false} QuietRuns(s: string, depth: int)
    requires IsQuiet(s)
    ensures Runs(s, depth) == Some(depth)
  {
    if s != [] {
      assert IsQuietChar(s[0]);
      assert forall i :: 0 <= i < |s[1..]| ==> s[1..][i] == s[i + 1];
      QuietRuns(s[1..], depth);
    }
  }

  /** A bracket behind a text. */
  lemma Bracket(s: string, c: char, depth: int)
    requires Runs(s, depth).Some? && c != ','
    ensures Runs(s + [c], depth) == Some(Runs(s, depth).value + Step(c))
  {
    RunsOn(s, [c], depth);
  }

  lemma Listed(s: string, depth: int)
    requires depth > 0 && Runs(s, depth) == Some(depth)
    ensures Runs(s + ",", depth) == Some(depth)
  {
    RunsOn(s, ",", depth);
  }

  lemma EmptyCall(s: string, depth: int)
    requires IsQuiet(s)
    ensures Runs(s + "()", depth) == Some(depth)
  {
    QuietRuns(s, depth);
    Bracket(s, '(', depth);
    Bracket(s + "(", ')', depth);
    assert s + "(" + ")" == s + "()";
  }

  /** The depth behind a list of lines. */
  function LinesRun(lines: seq<Line>, depth: int): Option<int> {
    if lines == [] then Some(depth)
    else if Runs(lines[0].text, depth).None? then None
    else LinesRun(lines[1..], Runs(lines[0].text, depth).value)
  }

  lemma {:induction false} RawRuns(lines: seq<Line>, depth: int)
    requires lines != [] && LinesRun(lines, depth).Some?
    ensures Runs(Raw(lines), depth) == LinesRun(lines, depth)
  {
    if |lines| > 1 {
      var d := Runs(lines[0].text, depth).value;
      RawRuns(lines[1..], d);
      QuietRuns(Gap(lines[1].indent), d);
      RunsOn(lines[0].text, Gap(lines[1].indent), depth);
      RunsOn(lines[0].text + Gap(lines[1].indent), Raw(lines[1..]), depth);
    }
  }
}
