/** Which IR types come back unchanged when the printed expression is read. */
module LoweringTypeTheorems {
  import opened Wrappers
  import opened PythonText
  import opened LoweringText
  import opened LoweringTypes
  import opened LoweringExpressions

  // ----- collapsing whitespace -----

  lemma {:induction false} StripLeftFacts(s: string)
    ensures StripLeft(s) == [] || !IsSpace(StripLeft(s)[0])
  {
    if s != [] && IsSpace(s[0]) {
      StripLeftFacts(s[1..]);
      assert StripLeft(s) == StripLeft(s[1..]);
    }
  }

  lemma {:induction false} StripLeftOfAppend(x: string, y: string)
    requires y == [] || !IsSpace(y[0])
    ensures StripLeft(x + y) == StripLeft(x) + y
  {
    if x == [] {
      assert x + y == y;
      assert y[0..] == y;
    } else if IsSpace(x[0]) {
      assert (x + y)[1..] == x[1..] + y;
      StripLeftOfAppend(x[1..], y);
      assert StripLeft(x + y) == StripLeft((x + y)[1..]);
      assert StripLeft(x) == StripLeft(x[1..]);
    } else {
      assert StripLeft(x + y) == x + y && StripLeft(x) == x;
    }
  }

  lemma SqueezeSpace(s: string)
    requires s != [] && IsSpace(s[0])
    ensures Squeeze(s) == [' '] + Squeeze(StripLeft(s))
  {
  }

  lemma SqueezeOne(c: char, s: string)
    requires !IsSpace(c)
    ensures Squeeze([c] + s) == [c] + Squeeze(s)
  {
    assert ([c] + s)[1..] == s;
  }

  /** Collapsing can be done in parts that start with a non-space. */
  lemma {:induction false} SqueezeSplit(x: string, y: string)
    requires y == [] || !IsSpace(y[0])
    ensures Squeeze(x + y) == Squeeze(x) + Squeeze(y)
    decreases |x|
  {
    if x == [] {
      assert x + y == y;
    } else if IsSpace(x[0]) {
      StripLeftOfAppend(x, y);
      SqueezeSplit(StripLeft(x), y);
      SqueezeSpace(x + y);
      SqueezeSpace(x);
      Glue([' '], Squeeze(StripLeft(x)), Squeeze(y));
    } else {
      assert x == [x[0]] + x[1..] && x + y == [x[0]] + (x[1..] + y);
      SqueezeOne(x[0], x[1..] + y);
      SqueezeOne(x[0], x[1..]);
      SqueezeSplit(x[1..], y);
      Glue([x[0]], Squeeze(x[1..]), Squeeze(y));
    }
  }

  lemma {:induction false} StripLeftOfSpaces(ws: string)
    requires forall i :: 0 <= i < |ws| ==> IsSpace(ws[i])
    ensures StripLeft(ws) == []
  {
    if ws != [] {
      StripLeftOfSpaces(ws[1..]);
      assert StripLeft(ws) == StripLeft(ws[1..]);
    }
  }

  lemma SqueezeSpaces(ws: string)
    requires ws != [] && forall i :: 0 <= i < |ws| ==> IsSpace(ws[i])
    ensures Squeeze(ws) == " "
  {
    SqueezeSpace(ws);
    StripLeftOfSpaces(ws);
  }

  lemma SqueezeTrailing(x: string, c: char, ws: string)
    requires !IsSpace(c)
    requires ws != [] && forall i :: 0 <= i < |ws| ==> IsSpace(ws[i])
    ensures Squeeze(x + ([c] + ws)) == Squeeze(x + [c]) + " "
  {
    SqueezeSplit(x, [c]);
    SqueezeSplit(x, [c] + ws);
    SqueezeOne(c, ws);
    SqueezeOne(c, []);
    assert [c] + [] == [c];
    SqueezeSpaces(ws);
    Glue(Squeeze(x), [c], " ");
  }

  /** A line break and indentation collapse to one space. */
  lemma SqueezeJoin(a: string, ws: string, y: string)
    requires a != [] && !IsSpace(a[|a| - 1]) && y != [] && !IsSpace(y[0])
    requires ws != [] && forall i :: 0 <= i < |ws| ==> IsSpace(ws[i])
    ensures Squeeze(a + ws + y) == Squeeze(a) + " " + Squeeze(y)
  {
    var n := |a| - 1;
    assert a == a[..n] + [a[n]] && a + ws == a[..n] + ([a[n]] + ws);
    SqueezeSplit(a + ws, y);
    SqueezeTrailing(a[..n], a[n], ws);
  }

  lemma {:induction false} SqueezeStaysOpen(s: string)
    requires s != [] && !IsSpace(s[0])
    ensures Squeeze(s) != [] && Squeeze(s)[0] == s[0]
  {
  }

  lemma {:induction false} SqueezeTwice(s: string)
    ensures Squeeze(Squeeze(s)) == Squeeze(s)
    decreases |s|
  {
    if s != [] {
      if IsSpace(s[0]) {
        var rest := StripLeft(s);
        SqueezeTwice(rest);
        SqueezeSpace(s);
        StripLeftFacts(s);
        if rest != [] {
          SqueezeStaysOpen(rest);
        }
        SpaceAgain(Squeeze(rest));
      } else {
        SqueezeTwice(s[1..]);
        assert s == [s[0]] + s[1..];
        SqueezeOne(s[0], s[1..]);
        SqueezeOne(s[0], Squeeze(s[1..]));
      }
    }
  }

  lemma SpaceAgain(r: string)
    requires r == [] || !IsSpace(r[0])
    requires Squeeze(r) == r
    ensures Squeeze([' '] + r) == [' '] + r
  {
    StripLeftOfAppend([' '], r);
    StripLeftOfSpaces([' ']);
    SqueezeSpace([' '] + r);
    assert [] + r == r;
  }

  lemma {:induction false} SqueezeKeepsEnd(s: string)
    requires s != [] && !IsSpace(s[|s| - 1])
    ensures Squeeze(s) != [] && Squeeze(s)[|Squeeze(s)| - 1] == s[|s| - 1]
  {
    var n := |s| - 1;
    SqueezeSplit(s[..n], s[n..]);
    assert s == s[..n] + s[n..];
    assert s[n..] == [s[n]] && Squeeze([s[n]]) == [s[n]] + Squeeze([]);
  }

  /** A text that neither starts nor ends with whitespace. */
  predicate IsSolid(s: string) {
    s != [] && !IsSpace(s[0]) && !IsSpace(s[|s| - 1])
  }

  lemma StripSolid(s: string)
    requires IsSolid(s)
    ensures Strip(s) == s
  {
    assert s[0..] == s;
  }

  /** For solid texts the reader works on the collapsed text. */
  lemma ReadsCollapsed(s: string)
    requires IsSolid(s)
    ensures IrTypeText(s) == Recognized(Squeeze(s))
    ensures IrTypeText(Squeeze(s)) == IrTypeText(s)
  {
    SqueezeStaysOpen(s);
    SqueezeKeepsEnd(s);
    StripSolid(Squeeze(s));
    SqueezeTwice(s);
  }

  // ----- lines to one line -----

  lemma {:induction false} OneLineOfLast(lines: seq<Line>, s: string)
    requires lines != []
    ensures var n := |lines| - 1;
            OneLine(lines[n := lines[n].(text := lines[n].text + s)]) == OneLine(lines) + s
  {
    var n := |lines| - 1;
    var changed := lines[n := lines[n].(text := lines[n].text + s)];
    if n > 0 {
      assert changed[1..] == lines[1..][n - 1 := lines[n].(text := lines[n].text + s)];
      OneLineOfLast(lines[1..], s);
      SpacedRegroup(lines[0].text, OneLine(lines[1..]), s);
    }
  }

  lemma SpacedRegroup(a: string, b: string, c: string)
    ensures a + " " + (b + c) == (a + " " + b) + c
  {
  }

  lemma OneLineOfWrap(open: string, inner: seq<Line>, close: string)
    requires inner != []
    ensures OneLine(Wrap(open, inner, close)) == open + OneLine(inner) + close
  {
    var begun := inner[0 := inner[0].(text := open + inner[0].text)];
    OneLineOfLast(begun, close);
    if |inner| > 1 {
      assert begun[1..] == inner[1..];
      assert (open + inner[0].text) + " " + OneLine(inner[1..]) == open + (inner[0].text + " " + OneLine(inner[1..]));
    }
  }

  function OptionRest(): string {
    NameTail() + " " + Variants() + "vec![" + " "
    + (SomeVariant() + " " + (NoneVariant() + " " + ("]," + " " + "}")))
  }

  /** The printed expression on one line. */
  function Flat(t: IrType): string
    requires IsRenderable(t)
  {
    match t
    case Simple(name) => SimpleIr(name).value
    case ErrorType => ErrorExpr()
    case ResultOf(inner) => ResultCall() + Flat(inner) + ")"
    case OptionString => EnumHead() + "Option_string" + OptionRest()
    case Collection(kind, args) => StructHead() + StructName(kind, args) + StructTail()
    case Tensor(dtype, rank) => TensorHead() + DtypeExpr(dtype) + TensorMiddle() + RankExpr(rank) + TensorTail()
  }

  lemma {:induction false} FlatIsOneLine(t: IrType, indent: nat)
    requires IsRenderable(t)
    ensures OneLine(RenderType(t, indent)) == Flat(t)
  {
    match t
    case ResultOf(inner) =>
      FlatIsOneLine(inner, indent);
      OneLineOfWrap(ResultCall(), RenderType(inner, indent), ")");
    case OptionString => FlatOption(indent);
    case Collection(kind, args) => FlatCollection(kind, args, indent);
    case Tensor(dtype, rank) => FlatTensor(dtype, rank, indent);
    case _ =>
  }

  lemma OneLineOf4(a: Line, b: Line, c: Line, d: Line)
    ensures OneLine([a, b, c, d]) == a.text + " " + (b.text + " " + (c.text + " " + d.text))
  {
    assert [a, b, c, d][1..] == [b, c, d] && [b, c, d][1..] == [c, d] && [c, d][1..] == [d];
    assert OneLine([d]) == d.text;
    assert OneLine([c, d]) == c.text + " " + d.text;
    assert OneLine([b, c, d]) == b.text + " " + (c.text + " " + d.text);
  }

  lemma OneLineOf7(a: Line, b: Line, c: Line, d: Line, e: Line, f: Line, g: Line)
    ensures OneLine([a, b, c, d, e, f, g])
         == a.text + " " + (b.text + " " + (c.text + " " + (d.text + " " + (e.text + " " + (f.text + " " + g.text)))))
  {
    assert [a, b, c, d, e, f, g][1..] == [b, c, d, e, f, g] && [b, c, d, e, f, g][1..] == [c, d, e, f, g];
    assert [c, d, e, f, g][1..] == [d, e, f, g];
    OneLineOf4(d, e, f, g);
    assert OneLine([c, d, e, f, g]) == c.text + " " + OneLine([d, e, f, g]);
    assert OneLine([b, c, d, e, f, g]) == b.text + " " + OneLine([c, d, e, f, g]);
  }

  lemma FlatCollection(kind: string, args: string, indent: nat)
    requires IsRenderable(Collection(kind, args))
    ensures OneLine(RenderType(Collection(kind, args), indent)) == Flat(Collection(kind, args))
  {
    var name := StructName(kind, args);
    OneLineOf4(Line(indent, StructOpen()), Line(indent + 4, NameHead() + name + NameTail()),
               Line(indent + 4, Fields()), Line(indent, "}"));
    Assemble(StructOpen(), NameHead(), name, NameTail(), Fields(), "}");
  }

  lemma Assemble(a: string, b: string, name: string, c: string, d: string, e: string)
    ensures a + " " + ((b + name + c) + " " + (d + " " + e)) == (a + " " + b) + name + (c + " " + d + " " + e)
  {
  }

  lemma FlatOption(indent: nat)
    ensures OneLine(RenderType(OptionString, indent)) == Flat(OptionString)
  {
    var some, none := SomeVariant(), NoneVariant();
    OneLineOf7(Line(indent, EnumOpen()), Line(indent + 4, NameHead() + "Option_string" + NameTail()),
               Line(indent + 4, Variants() + "vec!["), Line(indent + 8, some), Line(indent + 8, none),
               Line(indent + 4, "],"), Line(indent, "}"));
    AssembleOption(EnumOpen(), NameHead(), "Option_string", NameTail(), Variants(), "vec![", some,
                   none + " " + ("]," + " " + "}"));
  }

  lemma AssembleOption(a: string, b: string, name: string, c: string, d: string, e: string, f: string, g: string)
    ensures a + " " + ((b + name + c) + " " + ((d + e) + " " + (f + " " + g)))
         == (a + " " + b) + name + (c + " " + d + e + " " + (f + " " + g))
  {
  }

  lemma FlatTensor(dtype: string, rank: Option<string>, indent: nat)
    requires IsRenderable(Tensor(dtype, rank))
    ensures OneLine(RenderType(Tensor(dtype, rank), indent)) == Flat(Tensor(dtype, rank))
  {
    var x, y := DtypeExpr(dtype), RankExpr(rank);
    OneLineOf7(Line(indent, TensorOpen()), Line(indent + 4, DtypeHead() + x + DtypeTail()),
               Line(indent + 4, RankHead() + y + ","), Line(indent + 4, "dims: None,"),
               Line(indent + 4, "layout: None,"), Line(indent + 4, "device: None,"), Line(indent, "}"));
    AssembleTensor(TensorOpen(), DtypeHead(), x, DtypeTail(), RankHead(), y,
                   "dims: None,", "layout: None,", "device: None,", "}");
  }

  lemma AssembleTensor(a: string, b: string, x: string, c: string, d: string, y: string,
                       e: string, f: string, g: string, h: string)
    ensures a + " " + ((b + x + c) + " " + ((d + y + ",") + " " + (e + " " + (f + " " + (g + " " + h)))))
         == (a + " " + b) + x + (c + " " + d) + y + ("," + " " + e + " " + f + " " + g + " " + h)
  {
  }
}
