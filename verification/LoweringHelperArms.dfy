/** Helper arms: the catalog reader finds the helper that was printed and no other one. */
module LoweringHelperArms {
  import opened Wrappers
  import opened PythonText
  import opened LoweringText
  import opened LoweringTypes
  import opened LoweringExpressions
  import opened LoweringTypeRoundTrip
  import opened LoweringArms
  import opened LoweringDescriptors
  import opened LoweringRawText
  import opened LoweringArmRoundTrip
  import opened LoweringOddNames

  // ----- the two tables of helpers -----

  /** The shape that tells helper names apart inside a text. */
  predicate IsHelperName(s: string) {
    |s| > 5 && s[0] == 'h' && AllIdent(s) && s[|s| - 1] != 'e' && forall k :: 0 < k < |s| ==> s[k] != 'h'
  }

  lemma ShortHelperNames()
    ensures IsHelperName("host_int") && IsHelperName("host_float") && IsHelperName("host_bool")
    ensures IsHelperName("host_string") && IsHelperName("host_void")
  {
  }

  lemma LongHelperNames()
    ensures IsHelperName("host_task_int") && IsHelperName("host_task_bool") && IsHelperName("host_task_string")
    ensures IsHelperName("host_tensor_rank0") && IsHelperName("host_tensor_dynamic")
  {
  }

  lemma HelperNames(h: Helper)
    requires h in DESCRIPTORS
    ensures IsHelperName(h.name)
  {
    ShortHelperNames();
    LongHelperNames();
  }

  /** Both scripts list the same helpers. */
  lemma SameTables(h: Helper)
    ensures h in HELPERS <==> h in DESCRIPTORS
  {
  }

  /** No name is listed twice. */
  lemma NamesAreDistinct(i: nat, j: nat)
    requires i < j < |DESCRIPTORS|
    ensures DESCRIPTORS[i].name != DESCRIPTORS[j].name
  {
  }

  lemma NameDetermines(g: Helper, h: Helper)
    requires g in DESCRIPTORS && h in DESCRIPTORS && g.name == h.name
    ensures g == h
  {
    var i :| 0 <= i < |DESCRIPTORS| && DESCRIPTORS[i] == g;
    var j :| 0 <= j < |DESCRIPTORS| && DESCRIPTORS[j] == h;
    if i < j {
      NamesAreDistinct(i, j);
    } else if j < i {
      NamesAreDistinct(j, i);
    }
  }

  lemma {:induction false} FirstCalledIs(s: string, helpers: seq<Helper>, h: Helper)
    requires h in helpers && HasCall(s, h.name)
    requires forall g :: g in helpers && g != h ==> !HasCall(s, g.name)
    ensures FirstCalled(s, helpers) == Some(h)
  {
    if helpers[0] != h {
      FirstCalledIs(s, helpers[1..], h);
    }
  }

  // ----- the text of a helper arm -----

  /** Text of an arm around the helper's name. */
  predicate IsAround(s: string) {
    '(' !in s && ':' !in s
  }

  lemma PathIsAround(path: string)
    requires IsPath(path)
    ensures IsAround(Quoted(path))
  {
    forall i | 0 <= i < |Quoted(path)| ensures Quoted(path)[i] != '(' && Quoted(path)[i] != ':' {
      if 0 < i < |Quoted(path)| - 1 {
        assert Quoted(path)[i] == path[i - 1] && IsPathChar(path[i - 1]);
      }
    }
  }

  function HelperText(pre: string, style: string, post: string): string {
    pre + "Some(" + style + "(" + post
  }

  /** What follows an arm mentions neither a return type nor a runtime name nor a helper. */
  predicate IsSilent(rest: string) {
    && !Has(rest, TypeKey()) && !Has(rest, NameKey())
    && forall h :: h in DESCRIPTORS ==> !HasCall(rest, h.name)
  }

  lemma {:induction false} NoKeyInArm(a: string, rest: string)
    requires ':' !in a && !Has(rest, TypeKey())
    ensures !Has(a + "\n" + rest, TypeKey())
  {
    var s := a + "\n" + rest;
    KeyNotHere(a, rest);
    if a == [] {
      assert s[1..] == rest;
    } else {
      assert s[1..] == a[1..] + "\n" + rest;
      NoKeyInArm(a[1..], rest);
    }
  }

  lemma KeyNotHere(a: string, rest: string)
    requires ':' !in a
    ensures !StartsWith(a + "\n" + rest, TypeKey())
  {
    var s, n := a + "\n" + rest, |TypeKey()| - 1;
    if |a| <= n {
      KeyHasNoBreak(|a|);
      OtherHead(s, TypeKey(), |a|);
    } else {
      assert s[n] == a[n];
      OtherHead(s, TypeKey(), n);
    }
  }

  lemma KeyHasNoBreak(i: nat)
    requires i < |TypeKey()|
    ensures TypeKey()[i] != '\n'
  {
  }

  lemma PrintedCallIsFound(pre: string, style: string, post: string, rest: string)
    ensures HasCall(HelperText(pre, style, post) + "\n" + rest, style)
  {
    var s, i := HelperText(pre, style, post) + "\n" + rest, |pre| + 5;
    CallRegroup(pre, style, post, rest);
    assert s[i..] == (style + "(") + (post + "\n" + rest);
    AppendStarts(style + "(", post + "\n" + rest);
    assert s[i - 1] == '(';
    assert IsCallAt(s, style, i);
  }

  lemma CallRegroup(pre: string, style: string, post: string, rest: string)
    ensures HelperText(pre, style, post) + "\n" + rest == pre + "Some(" + ((style + "(") + (post + "\n" + rest))
  {
  }

  /** A call at `i` puts the bracket behind the name. */
  lemma NoBracketNoCall(s: string, h: string, i: nat)
    requires i <= |s| && !(i + |h| < |s| && s[i + |h|] == '(')
    ensures !IsCallAt(s, h, i)
  {
    if i + |h| < |s| {
      assert s[i..][|h|] == s[i + |h|];
      OtherHead(s[i..], h + "(", |h|);
    }
  }

  lemma OtherCharNoCall(s: string, h: string, i: nat, k: nat)
    requires k < |h| && i + k < |s| && s[i + k] != h[k]
    ensures !IsCallAt(s, h, i)
  {
    assert s[i..][k] == s[i + k];
    OtherHead(s[i..], h + "(", k);
  }

  /** A call inside the arm's text is a call of the printed helper. */
  lemma NoOtherCallInArm(pre: string, style: string, post: string, rest: string, h: string, i: nat)
    requires IsAround(pre) && IsAround(post) && IsHelperName(style) && IsHelperName(h) && h != style
    requires i + |h| < |HelperText(pre, style, post)|
    ensures !IsCallAt(HelperText(pre, style, post) + "\n" + rest, h, i)
  {
    var a := HelperText(pre, style, post);
    var s, j := a + "\n" + rest, i + |h|;
    assert s[j] == a[j];
    if a[j] != '(' {
      NoBracketNoCall(s, h, i);
    } else {
      BracketsOfArm(pre, style, post, j);
      if j == |pre| + 4 {
        OtherCharNoCall(s, h, i, |h| - 1);
      } else if |h| > |style| {
        assert s[|pre| + 4] == '(';
        OtherCharNoCall(s, h, i, |pre| + 4 - i);
      } else {
        SameEnd(pre, style, post, h, i);
        var k :| 0 <= k < |h| && a[i + k] != h[k];
        OtherCharNoCall(s, h, i, k);
      }
    }
  }

  lemma BracketsOfArm(pre: string, style: string, post: string, j: nat)
    requires IsAround(pre) && IsAround(post) && AllIdent(style)
    requires j < |HelperText(pre, style, post)|
    ensures HelperText(pre, style, post)[j] == '(' ==> j == |pre| + 4 || j == |pre| + 5 + |style|
    ensures j == |pre| + 4 ==> HelperText(pre, style, post)[j - 1] == 'e'
  {
    var a := HelperText(pre, style, post);
    if j < |pre| {
      assert a[j] == pre[j];
    } else if |pre| + 5 <= j < |pre| + 5 + |style| {
      assert a[j] == style[j - |pre| - 5];
    } else if j > |pre| + 5 + |style| {
      assert a[j] == post[j - |pre| - 6 - |style|];
    }
  }

  /** A shorter helper name does not end a longer one, and equally long ones differ. */
  lemma SameEnd(pre: string, style: string, post: string, h: string, i: nat)
    requires IsHelperName(style) && IsHelperName(h) && h != style && |h| <= |style|
    requires i + |h| == |pre| + 5 + |style|
    ensures var a := HelperText(pre, style, post); exists k :: 0 <= k < |h| && a[i + k] != h[k]
  {
    var a := HelperText(pre, style, post);
    if |h| < |style| {
      StyleAt(pre, style, post, i - |pre| - 5);
      assert a[i + 0] != h[0];
    } else {
      Differ(style, h);
      var k :| 0 <= k < |h| && style[k] != h[k];
      StyleAt(pre, style, post, k);
      assert a[i + k] != h[k];
    }
  }

  lemma StyleAt(pre: string, style: string, post: string, k: nat)
    requires k < |style|
    ensures HelperText(pre, style, post)[|pre| + 5 + k] == style[k]
  {
  }

  lemma Differ(a: string, b: string)
    requires |a| == |b|
    ensures a == b || exists k :: 0 <= k < |b| && a[k] != b[k]
  {
  }

  lemma NoCallBehindArm(a: string, rest: string, h: string, i: nat)
    requires AllIdent(h) && !HasCall(rest, h) && |a| <= i + |h| && i <= |a + "\n" + rest|
    ensures !IsCallAt(a + "\n" + rest, h, i)
  {
    var s := a + "\n" + rest;
    if i <= |a| {
      if i + |h| == |a| {
        NoBracketNoCall(s, h, i);
      } else {
        assert s[|a|] == '\n' && IsIdent(h[|a| - i]);
        OtherCharNoCall(s, h, i, |a| - i);
      }
    } else {
      var k := i - |a| - 1;
      assert s[i..] == rest[k..];
      assert k > 0 ==> s[i - 1] == rest[k - 1];
      assert !IsCallAt(rest, h, k);
    }
  }

  lemma NoOtherCall(pre: string, style: string, post: string, rest: string, h: string)
    requires IsAround(pre) && IsAround(post) && IsHelperName(style) && IsHelperName(h) && h != style
    requires !HasCall(rest, h)
    ensures !HasCall(HelperText(pre, style, post) + "\n" + rest, h)
  {
    var a := HelperText(pre, style, post);
    var s := a + "\n" + rest;
    forall i | 0 <= i <= |s| ensures !IsCallAt(s, h, i) {
      if i + |h| < |a| {
        NoOtherCallInArm(pre, style, post, rest, h, i);
      } else {
        NoCallBehindArm(a, rest, h, i);
      }
    }
  }

  lemma HelperTextReads(pre: string, h: Helper, post: string, rest: string)
    requires IsAround(pre) && IsAround(post) && h in DESCRIPTORS && IsSilent(rest)
    ensures ParseReturn(HelperText(pre, h.name, post) + "\n" + rest) == Some(Return(h.irReturn, h.returnsValue))
  {
    var s := HelperText(pre, h.name, post) + "\n" + rest;
    HelperNames(h);
    ArmHasNoColon(pre, h.name, post);
    NoKeyInArm(HelperText(pre, h.name, post), rest);
    PrintedCallIsFound(pre, h.name, post, rest);
    forall g | g in DESCRIPTORS && g != h ensures !HasCall(s, g.name) {
      HelperNames(g);
      if g.name == h.name {
        NameDetermines(g, h);
      }
      NoOtherCall(pre, h.name, post, rest, g.name);
    }
    FirstCalledIs(s, DESCRIPTORS, h);
  }

  lemma ArmHasNoColon(pre: string, style: string, post: string)
    requires IsAround(pre) && IsAround(post) && AllIdent(style)
    ensures ':' !in HelperText(pre, style, post)
  {
  }

  // ----- every helper arm -----

  /** A helper's runtime text is a quoted dotted name. */
  predicate IsQuotedPath(s: string) {
    |s| > 2 && s[0] == '"' && s[|s| - 1] == '"' && IsPath(s[1..|s| - 1])
  }

  lemma QuotedIsAround(s: string)
    requires IsQuotedPath(s)
    ensures IsAround(s)
  {
    forall i | 0 <= i < |s| ensures s[i] != '(' && s[i] != ':' {
      if 0 < i < |s| - 1 {
        assert s[i] == s[1..|s| - 1][i - 1];
      }
    }
  }

  lemma WideArm(name: (string, string), style: string, runtime: string, rest: string)
    ensures var lines := [Line(8, Head(name) + " => Some(" + Call(style, runtime) + "),")];
            && |Raw(lines)| >= |Head(name)| + 3
            && ArmBody(name, lines, rest) == HelperText(" ", style, runtime + ")" + "),") + "\n" + rest
  {
    var raw := Head(name) + " => Some(" + Call(style, runtime) + "),";
    assert raw == Head(name) + (" =>" + HelperText(" ", style, runtime + ")" + "),"));
    assert raw[|Head(name)| + 3..] == HelperText(" ", style, runtime + ")" + "),");
  }

  lemma BracedArm(name: (string, string), style: string, runtime: string, rest: string)
    ensures var lines := [Line(8, Head(name) + " => {"), Line(12, "Some(" + Call(style, runtime) + ")"), Line(8, "}")];
            && |Raw(lines)| >= |Head(name)| + 3
            && ArmBody(name, lines, rest)
               == HelperText(" {" + Gap(12), style, runtime + ")" + ")" + Gap(8) + "}") + "\n" + rest
  {
    var a, b, c := Line(8, Head(name) + " => {"), Line(12, "Some(" + Call(style, runtime) + ")"), Line(8, "}");
    RawOfThree(a, b, c);
    var text := HelperText(" {" + Gap(12), style, runtime + ")" + ")" + Gap(8) + "}");
    assert " => {" == " =>" + " {";
    BracedText(Head(name), style, runtime);
    assert (Head(name) + " =>" + text)[|Head(name)| + 3..] == text;
  }

  lemma BracedText(h: string, style: string, runtime: string)
    ensures h + (" =>" + " {") + Gap(12) + ("Some(" + Call(style, runtime) + ")") + Gap(8) + "}"
         == h + " =>" + HelperText(" {" + Gap(12), style, runtime + ")" + ")" + Gap(8) + "}")
  {
  }

  lemma RawOfThree(a: Line, b: Line, c: Line)
    ensures Raw([a, b, c]) == a.text + Gap(b.indent) + b.text + Gap(c.indent) + c.text
  {
    RawOfTwo(b, c);
    assert [a, b, c][1..] == [b, c];
  }

  lemma TallArm(name: (string, string), style: string, runtime: string, rest: string)
    ensures var lines := [Line(8, Head(name) + " => Some(" + style + "("), Line(12, runtime + ","), Line(8, ")),")];
            && |Raw(lines)| >= |Head(name)| + 3
            && ArmBody(name, lines, rest)
               == HelperText(" ", style, Gap(12) + runtime + "," + Gap(8) + ")),") + "\n" + rest
  {
    var a, b, c := Line(8, Head(name) + " => Some(" + style + "("), Line(12, runtime + ","), Line(8, ")),");
    RawOfThree(a, b, c);
    var text := HelperText(" ", style, Gap(12) + runtime + "," + Gap(8) + ")),");
    TallText(Head(name), style, runtime);
    assert (Head(name) + " =>" + text)[|Head(name)| + 3..] == text;
  }

  lemma TallText(h: string, style: string, runtime: string)
    ensures h + " => Some(" + style + "(" + Gap(12) + (runtime + ",") + Gap(8) + ")),"
         == h + " =>" + HelperText(" ", style, Gap(12) + runtime + "," + Gap(8) + ")),")
  {
    assert " => Some(" == " =>" + (" " + "Some(");
  }

  /** The lines of an arm read as the helper. */
  predicate ReadsAs(name: (string, string), lines: seq<Line>, rest: string, h: Helper) {
    && lines != [] && |Raw(lines)| >= |Head(name)| + 3
    && ParseReturn(ArmBody(name, lines, rest)) == Some(Return(h.irReturn, h.returnsValue))
  }

  lemma WideArmReads(name: (string, string), h: Helper, runtime: string, rest: string)
    requires h in DESCRIPTORS && IsAround(runtime) && IsSilent(rest)
    ensures ReadsAs(name, [Line(8, Head(name) + " => Some(" + Call(h.name, runtime) + "),")], rest, h)
  {
    WideArm(name, h.name, runtime, rest);
    AroundPieces(runtime);
    HelperTextReads(" ", h, runtime + ")" + "),", rest);
  }

  lemma BracedArmReads(name: (string, string), h: Helper, runtime: string, rest: string)
    requires h in DESCRIPTORS && IsAround(runtime) && IsSilent(rest)
    ensures ReadsAs(name,
                    [Line(8, Head(name) + " => {"), Line(12, "Some(" + Call(h.name, runtime) + ")"), Line(8, "}")],
                    rest, h)
  {
    BracedArm(name, h.name, runtime, rest);
    AroundPieces(runtime);
    HelperTextReads(" {" + Gap(12), h, runtime + ")" + ")" + Gap(8) + "}", rest);
  }

  lemma TallArmReads(name: (string, string), h: Helper, runtime: string, rest: string)
    requires h in DESCRIPTORS && IsAround(runtime) && IsSilent(rest)
    ensures ReadsAs(name, [Line(8, Head(name) + " => Some(" + h.name + "("), Line(12, runtime + ","), Line(8, ")),")],
                    rest, h)
  {
    TallArm(name, h.name, runtime, rest);
    AroundPieces(runtime);
    HelperTextReads(" ", h, Gap(12) + runtime + "," + Gap(8) + ")),", rest);
  }

  /** In each of its three widths a helper arm reads as the helper. */
  lemma HelperArmReads(name: (string, string), h: Helper, runtime: string, rest: string)
    requires h in HELPERS && IsQuotedPath(runtime) && IsSilent(rest)
    ensures ReadsAs(name, HelperArm(name, h.name, runtime), rest, h)
  {
    SameTables(h);
    QuotedIsAround(runtime);
    WideArmReads(name, h, runtime, rest);
    BracedArmReads(name, h, runtime, rest);
    TallArmReads(name, h, runtime, rest);
  }

  lemma AroundPieces(runtime: string)
    requires IsAround(runtime)
    ensures IsAround(" ") && IsAround(" {" + Gap(12)) && IsAround(runtime + ")" + "),")
    ensures IsAround(runtime + ")" + ")" + Gap(8) + "}") && IsAround(Gap(12) + runtime + "," + Gap(8) + ")),")
  {
  }

  // ----- every arm -----

  lemma HelperRuntime(e: Entry, style: string, names: Names)
    requires IsEntry(e, names) && style != STRUCT
    ensures IsQuotedPath(RuntimeExpression(e, style, names))
  {
    var path := if e.name in names.aliases then names.aliases[e.name] else e.binding;
    assert Quoted(path)[1..|Quoted(path)| - 1] == path;
  }

  lemma StructRuntime(e: Entry, names: Names)
    requires IsEntry(e, names)
    ensures var r := RuntimeExpression(e, STRUCT, names); |r| > 1 && IsCalm(r, 'p', 'e')
  {
    if e.name in names.aliases || e.name !in names.shared {
      NoColonInPath(if e.name in names.aliases then names.aliases[e.name] else e.binding);
    } else {
      ConstantIsPlain(e.name);
      NoColonIsCalm(ConstantName(e.name), 'p', 'e');
      assert IsCalm("spectra_contract::", 'p', 'e');
      CalmGlue("spectra_contract::", ConstantName(e.name), 'p', 'e');
    }
  }

  lemma NoColonInPath(path: string)
    requires IsPath(path)
    ensures IsCalm(Quoted(path), 'p', 'e')
  {
    assert ':' !in Quoted(path);
    NoColonIsCalm(Quoted(path), 'p', 'e');
  }

  lemma StructArmReadsBack(name: (string, string), runtime: string, t: IrType, flag: bool, rest: string)
    requires IsRenderable(t) && IsCalm(runtime, 'p', 'e') && |runtime| > 1
    ensures var lines := StructArm(name, runtime, RenderType(t, 12), flag);
            && |Raw(lines)| >= |Head(name)| + 3
            && var d := ParseReturn(ArmBody(name, lines, rest));
               && (d == Some(Return(TypeText(t), flag)) <==> IsReadableType(t))
               && (d.Some? ==> d.value.returnsValue == flag)
  {
    if HasIdentNames(t) {
      StructArmReads(name, runtime, t, flag, rest);
      TypeSurvives(t);
    } else {
      OddArmIsRefused(name, runtime, t, flag, rest);
      if IsReadableType(t) {
        ReadableHasIdentNames(t);
      }
    }
  }

  lemma {:induction false} ReadableHasIdentNames(t: IrType)
    requires IsReadableType(t)
    ensures HasIdentNames(t)
  {
    if t.ResultOf? {
      ReadableHasIdentNames(t.inner);
    }
  }

  /** Reading an emitted arm gives the entry's flag, and its return type exactly when the
      type is readable. Helper arms always do. */
  lemma ReturnReadsBack(e: Entry, style: string, names: Names, rest: string)
    requires IsEntry(e, names) && EmitArm(e, style, names).Some?
    requires style != STRUCT ==> IsSilent(rest)
    ensures var lines := EmitArm(e, style, names).value;
            && lines != [] && |Raw(lines)| >= |Head(e.name)| + 3
            && var d := ParseReturn(ArmBody(e.name, lines, rest));
               && (d == Some(Return(e.irReturn, e.returnsValue))
                   <==> style != STRUCT || IsReadableType(Classify(e.irReturn).value))
               && (d.Some? ==> d.value.returnsValue == e.returnsValue)
  {
    if style == STRUCT {
      var t := Classify(e.irReturn).value;
      ClassifiedText(e.irReturn);
      StructRuntime(e, names);
      StructArmReadsBack(e.name, RuntimeExpression(e, style, names), t, e.returnsValue, rest);
    } else {
      HelperRuntime(e, style, names);
      HelperArmReads(e.name, FindHelper(style, HELPERS).value, RuntimeExpression(e, style, names), rest);
    }
  }
}
