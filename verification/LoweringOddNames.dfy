/** Struct arms whose type prints a name outside the identifier alphabet: the catalog reader
    refuses them, wherever it takes the expression to end. */
module LoweringOddNames {
  import opened Wrappers
  import opened PythonText
  import opened LoweringText
  import opened LoweringTypes
  import opened LoweringExpressions
  import opened LoweringTypeTheorems
  import opened LoweringTypeRoundTrip
  import opened LoweringArms
  import opened LoweringDescriptors
  import opened LoweringRawText
  import opened LoweringArmRoundTrip

  // ----- collapsed texts and their prefixes -----

  /** Whitespace is single spaces. */
  predicate IsCollapsed(s: string) {
    forall i :: 0 <= i < |s| && IsSpace(s[i]) ==> s[i] == ' ' && (i + 1 < |s| ==> !IsSpace(s[i + 1]))
  }

  lemma CollapsedPrefix(s: string, n: nat)
    requires IsCollapsed(s) && n <= |s|
    ensures IsCollapsed(s[..n])
  {
  }

  lemma {:induction false} CollapsedStays(s: string)
    requires IsCollapsed(s)
    ensures Squeeze(s) == s
  {
    if s != [] {
      assert s == [s[0]] + s[1..];
      CollapsedStays(s[1..]);
      if IsSpace(s[0]) {
        SpaceAgain(s[1..]);
      } else {
        SqueezeOne(s[0], s[1..]);
      }
    }
  }

  lemma {:induction false} SqueezeCollapses(s: string)
    ensures IsCollapsed(Squeeze(s))
    decreases |s|
  {
    if s != [] {
      if IsSpace(s[0]) {
        var rest := StripLeft(s);
        SqueezeSpace(s);
        SqueezeCollapses(rest);
        StripLeftFacts(s);
        if rest != [] {
          SqueezeStaysOpen(rest);
        }
      } else {
        SqueezeCollapses(s[1..]);
      }
    }
  }

  /** A text that collapsing leaves alone. */
  predicate IsStill(s: string) {
    Squeeze(s) == s
  }

  lemma StillPrefix(s: string, n: nat)
    requires IsStill(s) && n <= |s|
    ensures IsStill(s[..n])
  {
    SqueezeCollapses(s);
    CollapsedPrefix(s, n);
    CollapsedStays(s[..n]);
  }

  lemma StillSuffix(a: string, b: string)
    requires IsStill(a + b)
    ensures IsStill(b)
  {
    SqueezeCollapses(a + b);
    CollapsedSuffix(a, b);
    CollapsedStays(b);
  }

  lemma CollapsedSuffix(a: string, b: string)
    requires IsCollapsed(a + b)
    ensures IsCollapsed(b)
  {
    forall i | 0 <= i < |b| && IsSpace(b[i])
      ensures b[i] == ' ' && (i + 1 < |b| ==> !IsSpace(b[i + 1]))
    {
      assert (a + b)[|a| + i] == b[i];
      assert i + 1 < |b| ==> (a + b)[|a| + i + 1] == b[i + 1];
    }
  }

  /** What `strip` leaves of a text that starts with a non-space. */
  lemma {:induction false} StripRightIsPrefix(s: string, keep: nat)
    requires keep <= |s| && (keep > 0 ==> !IsSpace(s[keep - 1]))
    ensures keep <= |StripRight(s)| && StripRight(s) == s[..|StripRight(s)|]
  {
    if s != [] && IsSpace(s[|s| - 1]) {
      StripRightIsPrefix(s[..|s| - 1], keep);
    } else {
      assert s[..|s|] == s;
    }
  }

  // ----- doomed expressions -----

  function Calls(k: nat): string {
    if k == 0 then "" else ResultCall() + Calls(k - 1)
  }

  /** A struct expression inside calls, up to the identifier characters of its name. */
  function CallsFront(k: nat, a: string): string {
    Calls(k) + (StructHead() + a)
  }

  /** What stands behind the identifier characters is not the end of a name. */
  predicate IsOddTail(w: string) {
    (w != [] ==> !IsIdent(w[0])) && !StartsWith(w, NameTail())
  }

  lemma OddTailPrefix(w: string, m: nat)
    requires IsOddTail(w) && m <= |w|
    ensures IsOddTail(w[..m])
  {
    if m >= |NameTail()| {
      assert w[..m][..|NameTail()|] == w[..|NameTail()|];
    }
  }

  lemma TailsStartAlike()
    ensures StartsWith(StructTail(), NameTail()) && StartsWith(StructTailTight(), NameTail())
  {
    AppendStarts(NameTail(), " " + Fields() + " " + "}");
    AppendStarts(NameTail(), " " + FieldsTight() + " " + "}");
    assert StructTail() == NameTail() + (" " + Fields() + " " + "}");
    assert StructTailTight() == NameTail() + (" " + FieldsTight() + " " + "}");
  }

  lemma BareStructIsNotRead(a: string)
    requires AllIdent(a) && a != []
    ensures Recognized(StructHead() + a) == None
  {
    var e := StructHead() + a;
    AppendStarts(StructHead(), a);
    OnlyAStruct(e);
    IdentRunOfAppend(a, []);
    assert a + [] == a;
    NotExact(e);
    assert MatchNamed(e, StructHead()) == Some(Named(a, []));
  }

  lemma OddStruct(a: string, w: string)
    requires AllIdent(a) && a != [] && IsOddTail(w)
    ensures Recognized(CallsFront(0, a) + w) == None
  {
    assert CallsFront(0, a) == StructHead() + a;
    if w == [] {
      assert CallsFront(0, a) + w == StructHead() + a;
      BareStructIsNotRead(a);
    } else {
      TailsStartAlike();
      StructIsNotRead(a, w);
    }
  }

  /** A call that does not end in its bracket is not read. */
  lemma OpenCallIsNotRead(e: string)
    requires StartsWith(e, ResultCall()) && !EndsWith(e, ")")
    ensures Recognized(e) == None
  {
    PrefixAt(e, ResultCall(), 0);
    PrefixAt(e, ResultCall(), 8);
    if Scalar(e).Some? {
      ScalarIsShort(e);
    }
    NotError(e);
    NoStructNoEnum(e);
    NotExact(e);
  }

  lemma NoStructNoEnum(e: string)
    requires e != [] && e[0] != 'I'
    ensures !StartsWith(e, StructHead()) && !StartsWith(e, EnumHead()) && MatchTensor(e).None?
  {
    OtherHead(e, StructHead(), 0);
    OtherHead(e, EnumHead(), 0);
    OtherHead(e, TensorHead() + "IRType::", 0);
  }

  lemma FrontOfCall(k: nat, a: string, w: string)
    requires k > 0
    ensures CallsFront(k, a) + w == ResultCall() + (CallsFront(k - 1, a) + w)
  {
  }

  lemma FrontEnds(k: nat, a: string)
    requires a != []
    ensures CallsFront(k, a) != [] && CallsFront(k, a)[|CallsFront(k, a)| - 1] == a[|a| - 1]
    ensures !IsSpace(CallsFront(k, a)[0])
  {
    if k > 0 {
      assert CallsFront(k, a)[0] == ResultCall()[0];
    } else {
      assert CallsFront(k, a)[0] == StructHead()[0];
    }
  }

  lemma IdentIsNoBracket(c: char)
    requires IsIdent(c)
    ensures c != ')' && !IsSpace(c)
  {
  }

  /** A closing bracket at the end stands behind the name. */
  lemma BracketIsBehind(k: nat, a: string, w: string)
    requires AllIdent(a) && a != [] && EndsWith(CallsFront(k, a) + w, ")")
    ensures w != []
  {
    FrontEnds(k, a);
    IdentIsNoBracket(a[|a| - 1]);
    assert w == [] ==> CallsFront(k, a) + w == CallsFront(k, a);
  }

  predicate IsOdd(a: string, w: string) {
    AllIdent(a) && a != [] && IsOddTail(w)
  }

  /** The expression is refused however many calls surround it. */
  lemma {:induction false} OddIsRefused(k: nat, a: string, w: string)
    requires IsOdd(a, w) && IsStill(CallsFront(k, a) + w)
    ensures Recognized(CallsFront(k, a) + w) == None
    decreases k, 1
  {
    if k == 0 {
      OddStruct(a, w);
    } else if EndsWith(CallsFront(k, a) + w, ")") {
      BracketIsBehind(k, a, w);
      FrontOfCall(k, a, w);
      OddCall(k - 1, a, w, CallsFront(k - 1, a) + w);
    } else {
      FrontOfCall(k, a, w);
      AppendStarts(ResultCall(), CallsFront(k - 1, a) + w);
      OpenCallIsNotRead(CallsFront(k, a) + w);
    }
  }

  lemma OddCall(k: nat, a: string, w: string, inner: string)
    requires IsOdd(a, w) && w != [] && inner == CallsFront(k, a) + w
    requires IsStill(ResultCall() + inner) && EndsWith(ResultCall() + inner, ")")
    ensures Recognized(ResultCall() + inner) == None
    decreases k, 4
  {
    StillSuffix(ResultCall(), inner);
    CutIsRefused(k, a, w, inner);
    CallOfRefused(inner);
  }

  lemma CallOfRefused(inner: string)
    requires |inner| > 1 && EndsWith(ResultCall() + inner, ")") && IrTypeText(inner[..|inner| - 1]) == None
    ensures Recognized(ResultCall() + inner) == None
  {
    LastIsBracket(inner);
    ResultIsRecognized(inner[..|inner| - 1]);
  }

  lemma LastIsBracket(inner: string)
    requires inner != [] && EndsWith(ResultCall() + inner, ")")
    ensures ResultCall() + inner == ResultCall() + inner[..|inner| - 1] + ")"
  {
    var e := ResultCall() + inner;
    assert e[|e| - 1..][0] == e[|e| - 1] == inner[|inner| - 1];
  }

  lemma CutIsRefused(k: nat, a: string, w: string, e: string)
    requires IsOdd(a, w) && w != [] && e == CallsFront(k, a) + w && IsStill(e)
    ensures |e| > 1 && IrTypeText(e[..|e| - 1]) == None
    decreases k, 3
  {
    FrontEnds(k, a);
    CutBehind(CallsFront(k, a), w);
    StillPrefix(e, |e| - 1);
    OddTailPrefix(w, |w| - 1);
    OddReads(k, a, w[..|w| - 1]);
  }

  lemma CutBehind(f: string, w: string)
    requires f != [] && w != []
    ensures |f + w| > 1 && (f + w)[..|f + w| - 1] == f + w[..|w| - 1]
  {
  }

  lemma OddReads(k: nat, a: string, w: string)
    requires IsOdd(a, w) && IsStill(CallsFront(k, a) + w)
    ensures IrTypeText(CallsFront(k, a) + w) == None
    decreases k, 2
  {
    var f := CallsFront(k, a);
    var m := StripsBehind(f, a, w, k);
    StillPrefix(f + w, |f| + m);
    OddTailPrefix(w, m);
    OddIsRefused(k, a, w[..m]);
  }

  lemma StripsBehind(front: string, a: string, w: string, k: nat) returns (m: nat)
    requires front == CallsFront(k, a) && AllIdent(a) && a != []
    ensures m <= |w| && Strip(front + w) == front + w[..m] && (front + w)[..|front| + m] == front + w[..m]
  {
    FrontEnds(k, a);
    IdentIsNoBracket(a[|a| - 1]);
    var e := front + w;
    assert e[|front| - 1] == front[|front| - 1];
    StripRightIsPrefix(e, |front|);
    assert StripLeft(e) == e;
    m := |StripRight(e)| - |front|;
    assert e[..|front| + m] == front + w[..m];
  }

  // ----- the printed expression of a type with an odd name -----

  /** The end of a quoted name, up to its comma. */
  function NameEnd(): string { "\".to_string()" }

  /** The expression up to the comma behind its name. */
  function Upto(k: nat, indent: nat, name: string): string {
    Calls(k) + (StructOpen() + Gap(indent + 4) + (NameHead() + name + NameEnd()))
  }

  predicate IsOddName(name: string) {
    name != [] && IsIdent(name[0]) && !AllIdent(name) && ',' !in name
  }

  lemma NameHasNoComma(kind: string, args: string)
    ensures ',' !in StructName(kind, args)
  {
    WithoutTailIsPrefix(Flattened(kind + "<" + args + ">"));
  }

  lemma CollectionUpto(kind: string, args: string, indent: nat) returns (rest: string)
    requires IsRenderable(Collection(kind, args))
    ensures Raw(RenderType(Collection(kind, args), indent)) == Upto(0, indent, StructName(kind, args)) + rest
  {
    var open, name := Line(indent, StructOpen()), Line(indent + 4, NameHead() + StructName(kind, args) + NameTail());
    var back := [Line(indent + 4, Fields()), Line(indent, "}")];
    RawOfTwo(open, name);
    RawOfAppend([open, name], back);
    assert [open, name] + back == RenderType(Collection(kind, args), indent);
    rest := "," + (Gap(indent + 4) + Raw(back));
    assert NameTail() == NameEnd() + ",";
    AtTheComma(StructOpen(), Gap(indent + 4), NameHead() + StructName(kind, args), NameEnd(),
               Gap(indent + 4) + Raw(back));
    Glue(StructOpen() + Gap(indent + 4) + name.text, Gap(indent + 4), Raw(back));
    assert Calls(0) == [];
  }

  lemma AtTheComma(a: string, g: string, b: string, c: string, d: string)
    ensures a + g + (b + (c + ",")) + d == [] + (a + g + (b + c)) + ("," + d)
  {
  }

  /** The printed type starts with calls, a struct's brace and the odd name. */
  lemma {:induction false} OddTypeText(t: IrType, indent: nat) returns (k: nat, name: string, rest: string)
    requires IsRenderable(t) && !HasIdentNames(t)
    ensures IsOddName(name) && Raw(RenderType(t, indent)) == Upto(k, indent, name) + rest
  {
    if t.ResultOf? {
      k, name, rest := OddTypeText(t.inner, indent);
      RawOfWrap(ResultCall(), RenderType(t.inner, indent), ")");
      UptoOfCall(k, indent, name, rest);
      k, rest := k + 1, rest + ")";
    } else {
      k, name := 0, StructName(t.kind, t.args);
      NameStartsWithKind(t.kind, t.args);
      NameHasNoComma(t.kind, t.args);
      rest := CollectionUpto(t.kind, t.args, indent);
    }
  }

  lemma UptoOfCall(k: nat, indent: nat, name: string, rest: string)
    ensures ResultCall() + (Upto(k, indent, name) + rest) + ")" == Upto(k + 1, indent, name) + (rest + ")")
  {
  }

  // ----- what the reader cuts out of it -----

  lemma {:induction false} NoCommaNoEnd(p: string, z: string, depth: int)
    requires ',' !in p
    ensures ExpressionEnd(p + z, depth) >= |p|
    decreases |p|
  {
    if p != [] {
      assert (p + z)[1..] == p[1..] + z;
      NoCommaNoEnd(p[1..], z, depth + Step(p[0]));
    }
  }

  lemma {:induction false} CallsHaveNoComma(k: nat)
    ensures ',' !in Calls(k)
  {
    if k > 0 {
      CallsHaveNoComma(k - 1);
    }
  }

  lemma UptoHasNoComma(k: nat, indent: nat, name: string)
    requires ',' !in name
    ensures ',' !in Upto(k, indent, name)
  {
    CallsHaveNoComma(k);
    assert ',' !in StructOpen() + Gap(indent + 4) && ',' !in NameHead() + name + NameEnd();
  }

  lemma {:induction false} SqueezeCalls(k: nat, s: string)
    ensures Squeeze(Calls(k) + s) == Calls(k) + Squeeze(s)
  {
    if k == 0 {
      assert Calls(k) + s == s;
    } else {
      TidyCalls();
      SqueezeCalls(k - 1, s);
      Glue(ResultCall(), Calls(k - 1), s);
      SqueezeBehind(ResultCall(), Calls(k - 1) + s);
      Glue(ResultCall(), Calls(k - 1), Squeeze(s));
    }
  }

  lemma SqueezeStruct(indent: nat, a: string, y: string)
    requires AllIdent(a) && a != []
    ensures Squeeze(StructOpen() + Gap(indent + 4) + (NameHead() + a + y)) == StructHead() + a + Squeeze(y)
  {
    SqueezeName(a, y);
    OpenIsTidy();
    GapIsSpace(indent + 4);
    assert (NameHead() + a + y)[0] == NameHead()[0];
    SqueezeJoin(StructOpen(), Gap(indent + 4), NameHead() + a + y);
    NameRegroup(StructOpen(), " ", NameHead(), a, Squeeze(y));
  }

  lemma OpenIsTidy()
    ensures Squeeze(StructOpen()) == StructOpen() && !IsSpace(StructOpen()[|StructOpen()| - 1])
    ensures !IsSpace(NameHead()[0])
  {
    TidyOpenings();
    TidyIsCollapsed(StructOpen());
  }

  lemma NameRegroup(a: string, b: string, c: string, d: string, e: string)
    ensures a + b + (c + d + e) == (a + b + c) + d + e
  {
  }

  lemma SqueezeName(a: string, y: string)
    requires AllIdent(a) && a != []
    ensures Squeeze(NameHead() + a + y) == NameHead() + a + Squeeze(y)
  {
    TidyName(a);
    NameHeadIsTidy();
    TidyGlue(NameHead(), a);
    SqueezeBehind(NameHead() + a, y);
  }

  lemma NameHeadIsTidy()
    ensures IsTidy(NameHead())
  {
  }

  lemma NameEndIsTidy()
    ensures IsTidy(NameEnd()) && |NameEnd()| == |NameTail()| - 1 && ',' !in NameEnd()
    ensures NameTail()[|NameTail()| - 1] == ','
  {
  }

  lemma {:induction false} SqueezeKeepsCommas(s: string)
    requires ',' !in s
    ensures ',' !in Squeeze(s)
    decreases |s|
  {
    if s != [] {
      if IsSpace(s[0]) {
        StripLeftFacts(s);
        SqueezeKeepsCommas(StripLeft(s));
      } else {
        SqueezeKeepsCommas(s[1..]);
      }
    }
  }

  /** Behind the odd part of the name, the end of a name comes too late. */
  lemma OddTailIsOdd(odd: string, z: string)
    requires odd != [] && !IsIdent(odd[0]) && ',' !in odd
    ensures IsOddTail(Squeeze(odd + (NameEnd() + z)))
  {
    NameEndIsTidy();
    assert (NameEnd() + z)[0] == NameEnd()[0];
    PrintableSpace(NameEnd()[0]);
    SqueezeSplit(odd, NameEnd() + z);
    SqueezeBehind(NameEnd(), z);
    SqueezeKeepsCommas(odd);
    SqueezedHead(odd);
    LateTail(Squeeze(odd), NameEnd(), Squeeze(z));
  }

  lemma SqueezedHead(odd: string)
    requires odd != [] && !IsIdent(odd[0])
    ensures Squeeze(odd) != [] && !IsIdent(Squeeze(odd)[0])
  {
  }

  lemma LateTail(a: string, b: string, c: string)
    requires a != [] && !IsIdent(a[0]) && ',' !in a && ',' !in b && |b| == |NameTail()| - 1
    ensures IsOddTail(a + (b + c))
  {
    var n, w := |b|, a + (b + c);
    assert w[n] == (a + b)[n] && (a + b)[n] in a + b;
    NameEndIsTidy();
    OtherHead(w, NameTail(), n);
  }

  lemma OddIsNotRead(k: nat, indent: nat, name: string, z: string)
    requires IsOddName(name)
    ensures IrTypeText(Upto(k, indent, name) + z) == None
  {
    var n, e := IdentRun(name), Upto(k, indent, name) + z;
    IdentRunFacts(name);
    var a, odd := name[..n], name[n..];
    assert name == a + odd;
    var w := Squeeze(odd + (NameEnd() + z));
    OddTailIsOdd(odd, z);
    SqueezeUpto(k, indent, a, odd, z);
    SqueezeTwice(e);
    OddReads(k, a, w);
  }

  lemma SqueezeUpto(k: nat, indent: nat, a: string, odd: string, z: string)
    requires AllIdent(a) && a != []
    ensures Squeeze(Upto(k, indent, a + odd) + z) == CallsFront(k, a) + Squeeze(odd + (NameEnd() + z))
  {
    var y := odd + (NameEnd() + z);
    UptoRegroup(Calls(k), StructOpen() + Gap(indent + 4), NameHead(), a, odd, NameEnd(), z);
    SqueezeCalls(k, StructOpen() + Gap(indent + 4) + (NameHead() + a + y));
    SqueezeStruct(indent, a, y);
    Glue(Calls(k), StructHead() + a, Squeeze(y));
  }

  lemma UptoRegroup(c: string, o: string, h: string, a: string, odd: string, e: string, z: string)
    ensures c + (o + (h + (a + odd) + e)) + z == c + (o + (h + a + (odd + (e + z))))
  {
  }

  /** A struct arm of such a type is refused, in whatever text it stands. */
  lemma OddArmIsRefused(name: (string, string), runtime: string, t: IrType, flag: bool, rest: string)
    requires IsRenderable(t) && !HasIdentNames(t) && IsCalm(runtime, 'p', 'e') && |runtime| > 1
    ensures var lines := StructArm(name, runtime, RenderType(t, 12), flag);
            && |Raw(lines)| >= |Head(name)| + 3
            && ParseReturn(ArmBody(name, lines, rest)) == None
  {
    var tail := Raw(RenderType(t, 12)) + ("," + AfterType(flag, rest));
    StartsAtIndent(t, 12);
    StructBody(name, runtime, RenderType(t, 12), flag, rest);
    BeforeKeyHasNoKey(runtime);
    OddTail(t, "," + AfterType(flag, rest));
    RefusedBehindKey(BeforeKey(runtime), tail);
  }

  lemma RefusedBehindKey(pre: string, tail: string)
    requires HasNoKeyEnd(pre, 'p', 'e') && StripLeft(" " + tail) == tail
    requires IrTypeText(tail[..ExpressionEnd(tail, 0)]) == None
    ensures ParseReturn(pre + TypeKey() + (" " + tail)) == None
  {
    FlagKeyIsKey();
    FindsKey(pre, TypeKey(), " " + tail, 'p', 'e');
    BehindKey(pre, TypeKey(), " " + tail);
  }

  lemma OddTail(t: IrType, rest: string)
    requires IsRenderable(t) && !HasIdentNames(t)
    ensures var tail := Raw(RenderType(t, 12)) + rest;
            StripLeft(" " + tail) == tail && IrTypeText(tail[..ExpressionEnd(tail, 0)]) == None
  {
    var tail := Raw(RenderType(t, 12)) + rest;
    TypeLinesAreSolid(t, 12);
    SolidText(RenderType(t, 12));
    SpaceInFront(Raw(RenderType(t, 12)), rest);
    var k, name, more := OddTypeText(t, 12);
    Glue(Upto(k, 12, name), more, rest);
    OddCut(k, name, more + rest);
  }

  lemma SpaceInFront(raw: string, rest: string)
    requires IsSolid(raw)
    ensures StripLeft(" " + (raw + rest)) == raw + rest
  {
    var tail := raw + rest;
    assert tail == [tail[0]] + tail[1..] && tail[0] == raw[0];
    OneSpace(tail[0], tail[1..]);
  }

  lemma OddCut(k: nat, name: string, z: string)
    requires IsOddName(name)
    ensures var tail := Upto(k, 12, name) + z; IrTypeText(tail[..ExpressionEnd(tail, 0)]) == None
  {
    var p := Upto(k, 12, name);
    var n := ExpressionEnd(p + z, 0);
    UptoHasNoComma(k, 12, name);
    NoCommaNoEnd(p, z, 0);
    assert (p + z)[..n] == p + z[..n - |p|];
    OddIsNotRead(k, 12, name, z[..n - |p|]);
  }
}
