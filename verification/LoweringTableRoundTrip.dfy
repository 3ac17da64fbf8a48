/** The whole round trip: the catalog generator's inventory of a rendered table is the catalog's
    part of it. */
module LoweringTableRoundTrip {
  import opened Wrappers
  import opened PythonText
  import opened LoweringText
  import opened LoweringExpressions
  import opened LoweringTypeRoundTrip
  import opened LoweringArms
  import opened LoweringDescriptors
  import opened LoweringRawText
  import opened LoweringArmRoundTrip
  import opened LoweringHelperArms
  import opened LoweringSymbols
  import opened LoweringLayout
  import opened LoweringLayoutTheorems
  import opened LoweringArmScan
  import opened LoweringTableText

  // ----- texts of lines -----

  /** The lines with a line break behind each: `"\n".join(lines) + "\n"`. */
  function TextOf(lines: seq<string>): string {
    if lines == [] then "" else lines[0] + "\n" + TextOf(lines[1..])
  }

  lemma {:induction false} TextOfTwo(a: seq<string>, b: seq<string>)
    ensures TextOf(a + b) == TextOf(a) + TextOf(b)
  {
    if a == [] {
      assert a + b == b;
    } else {
      assert (a + b)[1..] == a[1..] + b;
      TextOfTwo(a[1..], b);
    }
  }

  lemma {:induction false} TextOfArm(lines: seq<Line>)
    requires lines != []
    ensures TextOf(LineTexts(lines)) == Spaces(lines[0].indent) + Raw(lines) + "\n"
  {
    var texts := LineTexts(lines);
    assert texts[1..] == LineTexts(lines[1..]);
    if |lines| > 1 {
      TextOfArm(lines[1..]);
      BreakRegroup(Spaces(lines[0].indent), lines[0].text, Spaces(lines[1].indent), Raw(lines[1..]));
    } else {
      assert texts[1..] == [];
    }
  }

  lemma BreakRegroup(a: string, b: string, c: string, d: string)
    ensures (a + b) + "\n" + (c + d + "\n") == a + (b + ("\n" + c) + d) + "\n"
  {
  }

  // ----- texts without keys and calls -----

  lemma KeysHaveNoBreak()
    ensures SharesNothing(TypeKey(), "\n") && SharesNothing(NameKey(), "\n")
  {
  }

  lemma NoCallInTwo(a: string, b: string, h: string)
    requires AllIdent(h) && !HasCall(a, h) && !HasCall(b, h)
    ensures !HasCall(a + "\n" + b, h)
  {
    var s := a + "\n" + b;
    forall i | 0 <= i <= |s| ensures !IsCallAt(s, h, i) {
      if i + |h| < |a| {
        CallInside(a, "\n" + b, h, i);
        Glue(a, "\n", b);
      } else {
        NoCallBehindArm(a, b, h, i);
      }
    }
  }

  lemma CallInside(a: string, b: string, h: string, i: nat)
    requires i + |h| < |a| && !HasCall(a, h)
    ensures !IsCallAt(a + b, h, i)
  {
    assert !IsCallAt(a, h, i);
    var n := |h| + 1;
    assert (a + b)[i..][..n] == a[i..][..n];
    assert i > 0 ==> (a + b)[i - 1] == a[i - 1];
  }

  lemma SilentTwo(a: string, b: string)
    requires IsSilent(a) && IsSilent(b)
    ensures IsSilent(a + "\n" + b)
  {
    KeysHaveNoBreak();
    Between(a, "\n", b, TypeKey());
    Between(a, "\n", b, NameKey());
    forall h | h in DESCRIPTORS ensures !HasCall(a + "\n" + b, h.name) {
      HelperNames(h);
      NoCallInTwo(a, b, h.name);
    }
  }

  /** No opening bracket, no colon. */
  lemma AroundIsSilent(s: string)
    requires IsAround(s)
    ensures IsSilent(s)
  {
    NoColonNoKey(s, TypeKey());
    NoColonNoKey(s, NameKey());
    forall h | h in DESCRIPTORS ensures !HasCall(s, h.name) {
      forall i | 0 <= i <= |s| ensures !IsCallAt(s, h.name, i) {
        NoBracketNoCall(s, h.name, i);
      }
    }
  }

  lemma {:induction false} NoColonNoKey(s: string, key: string)
    requires ':' !in s && key != [] && key[|key| - 1] == ':'
    ensures !Has(s, key)
  {
    if |s| >= |key| {
      OtherHead(s, key, |key| - 1);
    }
    if s != [] {
      NoColonNoKey(s[1..], key);
    }
  }

  // ----- remarks: lines between the arms -----

  /** A line in which neither an arm starts nor a descriptor could be read. */
  predicate IsRemark(line: string) {
    IsMild(line) && IsSilent(line)
  }

  predicate AreRemarks(lines: seq<string>) {
    forall i :: 0 <= i < |lines| ==> IsRemark(lines[i])
  }

  lemma PlainIsRemark(line: string)
    requires IsAround(line)
    ensures IsRemark(line)
  {
    NoBracketIsMild(line);
    AroundIsSilent(line);
  }

  // ----- listed functions -----

  function ItemKeys(m: string, items: seq<Item>): (r: seq<Key>)
    ensures |r| == |items|
  {
    if items == [] then [] else [(m, items[0].name)] + ItemKeys(m, items[1..])
  }

  function GroupKeys(g: Group): seq<Key> {
    if g.namespace.None? then [] else ItemKeys(g.namespace.value, g.items)
  }

  /** The functions listed by the groups, in order. */
  function AllKeys(groups: seq<Group>): seq<Key> {
    if groups == [] then [] else GroupKeys(groups[0]) + AllKeys(groups[1..])
  }

  /** The catalog reader gives the function's type back. */
  predicate IsReadableKey(t: Tables, key: Key) {
    && key in t.catalog && StyleOf(t, key).Some?
    && (StyleOf(t, key).value == STRUCT ==>
          && Classify(t.catalog[key].irReturn).Some?
          && IsReadableType(Classify(t.catalog[key].irReturn).value))
  }

  /** The catalog's return type and flag, and the host symbol in the style of the arm. */
  function DescriptorIn(t: Tables, key: Key): Descriptor
    requires key in t.catalog
  {
    var e, style := t.catalog[key], StyleOf(t, key);
    Descriptor(e.irReturn, e.returnsValue, HostSymbol(e, if style.Some? then style.value else STRUCT, t.names))
  }

  predicate ArmReads(read: Reader, t: Tables, key: Key, arm: FoundArm) {
    && key in t.catalog && arm.name == key
    && (read(arm.body) == Some(DescriptorIn(t, key)) <==> IsReadableKey(t, key))
  }

  predicate ArmsRead(read: Reader, t: Tables, keys: seq<Key>, arms: seq<FoundArm>) {
    |arms| == |keys| && forall i :: 0 <= i < |keys| ==> ArmReads(read, t, keys[i], arms[i])
  }

  /** The arms in a rest of the file are those of these functions, and nothing in front of the
      first can be read as a descriptor. */
  predicate Holds(read: Reader, p: Pattern, t: Tables, keys: seq<Key>, text: string)
    requires IsPair(p)
  {
    ArmsRead(read, t, keys, ArmsOf(p, text)) && IsSilent(text[..Next(p, text)])
  }

  /** The reader is `parse_descriptor`; a parameter, so that proofs look inside only where they
      read an arm. */
  ghost predicate IsParser(read: Reader) {
    forall body: string :: read(body) == ParseDescriptor(body)
  }

  lemma RemarkInFront(read: Reader, p: Pattern, t: Tables, keys: seq<Key>, line: string, text: string)
    requires IsArmPattern(p) && IsFirmPair(p) && IsRemark(line) && Holds(read, p, t, keys, text)
    ensures Holds(read, p, t, keys, line + "\n" + text)
  {
    MildSkips(p, line);
    BreakSkips(p, line);
    BodyGoesOn(p, line + "\n", text);
    SilentTwo(line, text[..Next(p, text)]);
  }

  lemma {:induction false} RemarksInFront(read: Reader, p: Pattern, t: Tables, keys: seq<Key>, lines: seq<string>,
                                          text: string)
    requires IsArmPattern(p) && IsFirmPair(p) && AreRemarks(lines) && Holds(read, p, t, keys, text)
    ensures Holds(read, p, t, keys, TextOf(lines) + text)
  {
    if lines == [] {
      assert TextOf(lines) + text == text;
    } else {
      RemarksSplit(lines);
      RemarksInFront(read, p, t, keys, lines[1..], text);
      RemarkInFront(read, p, t, keys, lines[0], TextOf(lines[1..]) + text);
      Glue(lines[0] + "\n", TextOf(lines[1..]), text);
    }
  }

  lemma RemarksSplit(lines: seq<string>)
    requires AreRemarks(lines) && lines != []
    ensures IsRemark(lines[0]) && AreRemarks(lines[1..])
  {
    forall i | 0 <= i < |lines[1..]| ensures IsRemark(lines[1..][i]) {
      assert IsRemark(lines[i + 1]);
    }
  }

  // ----- one arm -----

  lemma ReadsInText(read: Reader, t: Tables, key: Key, lines: seq<Line>, rest: string)
    requires IsParser(read) && key in t.catalog && StyleOf(t, key).Some? && IsListable(t, key)
    requires EmitArm(t.catalog[key], StyleOf(t, key).value, t.names) == Some(lines)
    requires IsSilent(rest)
    ensures lines != [] && |Raw(lines)| >= |Head(key)| + 3
    ensures ArmReads(read, t, key, FoundArm(key, BodyText(key, lines) + "\n" + rest))
  {
    var e, style := t.catalog[key], StyleOf(t, key).value;
    ArmReadsBack(e, style, t.names, rest);
    assert BodyText(key, lines) + "\n" + rest == ArmBody(key, lines, rest);
    if style == STRUCT {
      EmittedIsClassified(e, t.names);
    }
  }

  lemma EmittedIsClassified(e: Entry, names: Names)
    requires EmitArm(e, STRUCT, names).Some?
    ensures Classify(e.irReturn).Some?
  {
  }

  lemma ArmText(e: Entry, style: string, names: Names, lines: seq<Line>, text: string)
    requires EmitArm(e, style, names) == Some(lines) && lines != [] && |Raw(lines)| >= |Head(e.name)| + 3
    ensures TextOf(LineTexts(lines)) + text
         == Spaces(8) + ((Head(e.name) + " =>") + (BodyText(e.name, lines) + "\n" + text))
  {
    EmittedHead(e, style, names);
    TextOfArm(lines);
    RawIsCut(e.name, lines);
    ArmRegroup(Spaces(8), Head(e.name) + " =>", BodyText(e.name, lines), text);
  }

  lemma RawIsCut(name: Key, lines: seq<Line>)
    requires lines != [] && |Raw(lines)| >= |Head(name)| + 3 && StartsWith(lines[0].text, Head(name) + " =>")
    ensures Raw(lines) == Head(name) + " =>" + BodyText(name, lines)
  {
    RawStartsWith(lines, Head(name) + " =>");
  }

  lemma ArmRegroup(a: string, h: string, b: string, text: string)
    ensures a + (h + b) + "\n" + text == a + (h + (b + "\n" + text))
  {
  }

  lemma RawStartsWith(lines: seq<Line>, h: string)
    requires lines != [] && StartsWith(lines[0].text, h)
    ensures |Raw(lines)| >= |h| && Raw(lines)[..|h|] == h
  {
    var first := lines[0].text;
    if |lines| > 1 {
      assert Raw(lines)[..|h|] == first[..|h|];
    }
  }

  lemma ArmInFront(read: Reader, p: Pattern, t: Tables, keys: seq<Key>, key: Key, lines: seq<Line>, text: string)
    requires IsParser(read) && IsArmPattern(p) && IsFirmPair(p) && Holds(read, p, t, keys, text)
    requires key in t.catalog && StyleOf(t, key).Some? && IsListable(t, key) && IsLowerName(key)
    requires EmitArm(t.catalog[key], StyleOf(t, key).value, t.names) == Some(lines)
    ensures Holds(read, p, t, [key] + keys, TextOf(LineTexts(lines)) + text)
  {
    var e, style := t.catalog[key], StyleOf(t, key).value;
    var rest := text[..Next(p, text)];
    ReadsInText(read, t, key, lines, rest);
    EmittedBodySkips(p, e, style, t.names);
    ArmText(e, style, t.names, lines, text);
    HeadMatches(key);
    NoBracketIsMild(Spaces(8));
    MildSkips(p, Spaces(8));
    FoundInFront(read, p, t, keys, key, BodyText(key, lines) + "\n", text);
  }

  lemma FoundInFront(read: Reader, p: Pattern, t: Tables, keys: seq<Key>, key: Key, body: string, text: string)
    requires IsArmPattern(p) && IsFirmPair(p) && Holds(read, p, t, keys, text)
    requires Skips(p, Spaces(8)) && Skips(p, body)
    requires var h := Head(key) + " =>"; Try(p, h) == Matches(|h|, [key.0, key.1])
    requires ArmReads(read, t, key, FoundArm(key, body + text[..Next(p, text)]))
    ensures Holds(read, p, t, [key] + keys, Spaces(8) + ((Head(key) + " =>") + (body + text)))
  {
    var h := Head(key) + " =>";
    var s := Spaces(8) + (h + (body + text));
    ArmIsFound(p, Spaces(8), h, key, body, text);
    MoreRead(read, t, key, keys, FoundArm(key, body + text[..Next(p, text)]), ArmsOf(p, text));
    assert s[..8] == Spaces(8);
    AroundIsSilent(Spaces(8));
  }

  lemma MoreRead(read: Reader, t: Tables, key: Key, keys: seq<Key>, arm: FoundArm, arms: seq<FoundArm>)
    requires ArmReads(read, t, key, arm) && ArmsRead(read, t, keys, arms)
    ensures ArmsRead(read, t, [key] + keys, [arm] + arms)
  {
  }

  // ----- every group -----

  predicate AreLower(keys: seq<Key>) {
    forall i :: 0 <= i < |keys| ==> IsLowerName(keys[i])
  }

  lemma {:induction false} ItemsInFront(read: Reader, p: Pattern, t: Tables, keys: seq<Key>, m: string,
                                        items: seq<Item>,
                                        text: string)
    requires IsParser(read) && IsArmPattern(p) && IsFirmPair(p) && IsCatalog(t) && Holds(read, p, t, keys, text)
    requires RenderItems(t, Some(m), items).Some? && AreLower(ItemKeys(m, items))
    ensures Holds(read, p, t, ItemKeys(m, items) + keys, TextOf(RenderItems(t, Some(m), items).value) + text)
    decreases |items|
  {
    if items == [] {
      assert ItemKeys(m, items) + keys == keys && TextOf([]) + text == text;
    } else {
      var first, rest := RenderItem(t, Some(m), items[0]).value, RenderItems(t, Some(m), items[1..]).value;
      LowerSplit([(m, items[0].name)], ItemKeys(m, items[1..]));
      ItemsInFront(read, p, t, keys, m, items[1..], text);
      ItemInFront(read, p, t, ItemKeys(m, items[1..]) + keys, m, items[0], TextOf(rest) + text);
      TextOfTwo(first, rest);
      Glue(TextOf(first), TextOf(rest), text);
      KeysRegroup([(m, items[0].name)], ItemKeys(m, items[1..]), keys);
    }
  }

  lemma ItemInFront(read: Reader, p: Pattern, t: Tables, keys: seq<Key>, m: string, item: Item, text: string)
    requires IsParser(read) && IsArmPattern(p) && IsFirmPair(p) && IsCatalog(t) && Holds(read, p, t, keys, text)
    requires RenderItem(t, Some(m), item).Some? && AreLower([(m, item.name)])
    ensures Holds(read, p, t, [(m, item.name)] + keys, TextOf(RenderItem(t, Some(m), item).value) + text)
  {
    var key := (m, item.name);
    assert [key][0] == key;
    assert IsListable(t, key);
    ArmInFront(read, p, t, keys, key, EmitArm(t.catalog[key], StyleOf(t, key).value, t.names).value, text);
  }

  lemma LowerSplit(a: seq<Key>, b: seq<Key>)
    requires AreLower(a + b)
    ensures AreLower(a) && AreLower(b)
  {
    forall i | 0 <= i < |a| ensures IsLowerName(a[i]) {
      assert (a + b)[i] == a[i];
    }
    forall i | 0 <= i < |b| ensures IsLowerName(b[i]) {
      assert (a + b)[|a| + i] == b[i];
    }
  }

  lemma KeysRegroup(a: seq<Key>, b: seq<Key>, c: seq<Key>)
    ensures a + (b + c) == (a + b) + c
  {
  }

  predicate HaveRemarks(groups: seq<Group>) {
    forall i :: 0 <= i < |groups| ==> AreRemarks(groups[i].banner)
  }

  lemma GroupInFront(read: Reader, p: Pattern, t: Tables, keys: seq<Key>, g: Group, text: string)
    requires IsParser(read) && IsArmPattern(p) && IsFirmPair(p) && IsCatalog(t) && Holds(read, p, t, keys, text)
    requires RenderItems(t, g.namespace, g.items).Some? && AreLower(GroupKeys(g)) && AreRemarks(g.banner)
    ensures Holds(read, p, t, GroupKeys(g) + keys,
                  TextOf(g.banner) + (TextOf(RenderItems(t, g.namespace, g.items).value) + text))
  {
    var items := RenderItems(t, g.namespace, g.items).value;
    if g.namespace.Some? {
      ItemsInFront(read, p, t, keys, g.namespace.value, g.items, text);
    } else {
      NoItemsWithoutModule(t, g.items);
      assert GroupKeys(g) + keys == keys && TextOf(items) + text == text;
    }
    RemarksInFront(read, p, t, GroupKeys(g) + keys, g.banner, TextOf(items) + text);
  }

  lemma {:induction false} GroupsInFront(read: Reader, p: Pattern, t: Tables, groups: seq<Group>, text: string)
    requires IsParser(read) && IsArmPattern(p) && IsFirmPair(p) && IsCatalog(t) && Holds(read, p, t, [], text)
    requires RenderGroups(t, groups).Some? && AreLower(AllKeys(groups)) && HaveRemarks(groups)
    ensures Holds(read, p, t, AllKeys(groups), TextOf(RenderGroups(t, groups).value) + text)
    decreases |groups|
  {
    if groups == [] {
      assert TextOf([]) + text == text;
    } else {
      var g, rest := groups[0], RenderGroups(t, groups[1..]).value;
      var items := RenderItems(t, g.namespace, g.items).value;
      LowerSplit(GroupKeys(g), AllKeys(groups[1..]));
      assert HaveRemarks(groups[1..]);
      GroupsInFront(read, p, t, groups[1..], text);
      GroupInFront(read, p, t, AllKeys(groups[1..]), g, TextOf(rest) + text);
      TextOfThree(g.banner, items, rest, text);
    }
  }

  lemma TextOfThree(a: seq<string>, b: seq<string>, c: seq<string>, text: string)
    ensures TextOf(a + b + c) + text == TextOf(a) + (TextOf(b) + (TextOf(c) + text))
  {
    TextOfTwo(a, b);
    TextOfTwo(a + b, c);
    Glue(TextOf(a) + TextOf(b), TextOf(c), text);
    Glue(TextOf(a), TextOf(b), TextOf(c) + text);
  }

  // ----- the lines in front of the arms -----

  lemma {:induction false} LinesSkip(p: Pattern, lines: seq<string>)
    requires IsArmPattern(p) && IsFirmPair(p) && forall i :: 0 <= i < |lines| ==> IsMild(lines[i])
    ensures Skips(p, TextOf(lines))
  {
    if lines != [] {
      assert forall i :: 0 <= i < |lines[1..]| ==> lines[1..][i] == lines[i + 1];
      LinesSkip(p, lines[1..]);
      MildSkips(p, lines[0]);
      BreakSkips(p, lines[0]);
      SkipsTwo(p, lines[0] + "\n", TextOf(lines[1..]));
    }
  }

  /** A bracket at the end of a line, in front of a line that starts with a plain character. */
  lemma BrokenCallFails(p: Pattern, n: nat, s: string)
    requires IsArmPattern(p) && s != [] && IsPlainChar(s[0])
    ensures Try(p, ['('] + (Gap(n) + s)) == Fails
  {
    MarkStep('(', BehindBracket(), Gap(n) + s);
    GapIsSpace(n);
    WhiteStep(Mark('"', Word(true, BehindModule())), Gap(n), s);
  }

  lemma BrokenCallSkips(p: Pattern, call: string, n: nat, s: string)
    requires IsArmPattern(p) && IsFirmPair(p) && Skips(p, call) && s != [] && IsPlainChar(s[0]) && '(' !in s
    ensures Skips(p, call + (['('] + (Gap(n) + s)))
  {
    BrokenCallFails(p, n, s);
    NoBracketIsMild(Gap(n) + s);
    MildSkips(p, Gap(n) + s);
    assert (['('] + (Gap(n) + s))[1..] == Gap(n) + s;
    SkipsTwo(p, call, ['('] + (Gap(n) + s));
  }

  lemma DeclarationIsMild(name: string)
    requires '(' !in name
    ensures IsMild(Declares() + name)
  {
    assert IsMild(Declares());
    NoBracketIsMild(name);
    MildTwo(Declares(), name);
  }

  lemma SignatureSkips(p: Pattern, name: string)
    requires IsArmPattern(p) && IsFirmPair(p) && '(' !in name
    ensures Skips(p, TextOf(Signature(name)))
  {
    var first, second, third := Declares() + name + "(", Spaces(4) + "module: &str,", Spaces(4) + "function: &str,";
    var fourth := ") -> Option<HostFunctionDescriptor> {";
    var rest := "module: &str," + "\n" + third + "\n" + fourth + "\n";
    DeclarationIsMild(name);
    MildSkips(p, Declares() + name);
    assert rest[0] == 'm';
    ParametersHaveNoBracket();
    assert '(' !in "module: &str," + "\n" + third;
    BrokenCallSkips(p, Declares() + name, 4, rest);
    TextOfFour(first, second, third, fourth);
    SignatureRegroup(Declares() + name, Spaces(4), "module: &str,", third, fourth);
  }

  lemma ParametersHaveNoBracket()
    ensures '(' !in "module: &str," && '(' !in Spaces(4) + "function: &str,"
    ensures '(' !in ") -> Option<HostFunctionDescriptor> {"
  {
    assert '(' !in "function: &str,";
  }

  lemma TextOfFour(a: string, b: string, c: string, d: string)
    ensures TextOf([a, b, c, d]) == a + "\n" + (b + "\n" + (c + "\n" + (d + "\n")))
  {
    assert [a, b, c, d][1..] == [b, c, d] && [b, c, d][1..] == [c, d] && [c, d][1..] == [d] && [d][1..] == [];
    assert TextOf([d]) == d + "\n" + "" == d + "\n";
    assert TextOf([c, d]) == c + "\n" + (d + "\n");
    assert TextOf([b, c, d]) == b + "\n" + (c + "\n" + (d + "\n"));
  }

  lemma SignatureRegroup(call: string, g: string, b: string, c: string, d: string)
    ensures call + "(" + "\n" + ((g + b) + "\n" + (c + "\n" + (d + "\n")))
         == call + (['('] + (("\n" + g) + (b + "\n" + c + "\n" + d + "\n")))
  {
  }

  predicate AreMildTexts(texts: seq<string>) {
    forall i :: 0 <= i < |texts| ==> IsMild(texts[i])
  }

  lemma CommentsAreMild(texts: seq<string>)
    requires AreMildTexts(texts)
    ensures AreMildTexts(Commented(texts))
  {
    assert IsMild("//");
    forall i | 0 <= i < |texts| ensures IsMild(Commented(texts)[i]) {
      MildTwo("//", texts[i]);
    }
  }

  lemma PreambleIsMild(layout: FileLayout)
    requires AreMildTexts(layout.header)
    ensures AreMildTexts(Preamble(layout))
  {
    CommentsAreMild(layout.header);
    assert AreMildTexts(["", "use super::*;", ""]);
  }

  lemma FrontSkips(p: Pattern, layout: FileLayout)
    requires IsArmPattern(p) && IsFirmPair(p) && AreMildTexts(layout.header) && '(' !in layout.lookup
    ensures Skips(p, TextOf(Front(layout) + [MatchLine()]))
  {
    PreambleIsMild(layout);
    LinesSkip(p, Preamble(layout));
    SignatureSkips(p, layout.lookup);
    MatchLineIsMild();
    LinesSkip(p, [MatchLine()]);
    SkipsTwo(p, TextOf(Preamble(layout)), TextOf(Signature(layout.lookup)));
    TextOfTwo(Preamble(layout), Signature(layout.lookup));
    SkipsTwo(p, TextOf(Front(layout)), TextOf([MatchLine()]));
    TextOfTwo(Front(layout), [MatchLine()]);
  }

  lemma MatchLineIsMild()
    ensures IsMild(MatchLine())
  {
    assert IsMild(MatchText());
    NoBracketIsMild(Spaces(4));
    MildTwo(Spaces(4), MatchText());
  }

  // ----- the whole file -----

  /** What the table's functions should be read as. */
  function CatalogPart(t: Tables, keys: seq<Key>): Inventory
    requires forall key :: key in keys ==> key in t.catalog
  {
    map key | key in keys :: DescriptorIn(t, key)
  }

  /** The files as the generator writes them. */
  predicate IsWritten(t: Tables, tail: seq<string>) {
    && RenderFile(t, tail).Some? && AreMildTexts(t.layout.header) && '(' !in t.layout.lookup
    && HaveRemarks(t.layout.groups) && AreRemarks(tail)
  }

  function FileText(t: Tables, tail: seq<string>): string
    requires RenderFile(t, tail).Some?
  {
    TextOf(RenderFile(t, tail).value)
  }

  lemma NothingHolds(read: Reader, p: Pattern, t: Tables)
    requires IsPair(p)
    ensures Holds(read, p, t, [], "")
  {
    AroundIsSilent("");
  }

  /** The scan of a rendered file finds the listed functions in order, each with what follows
      its head, and reads each as the catalog has it exactly when its type is readable. */
  lemma FileHolds(read: Reader, p: Pattern, t: Tables, tail: seq<string>)
    requires IsParser(read) && IsArmPattern(p) && IsCatalog(t) && IsWritten(t, tail)
             && AreLower(AllKeys(t.layout.groups))
    ensures IsPair(p) && ArmsRead(read, t, AllKeys(t.layout.groups), ArmsOf(p, FileText(t, tail)))
  {
    ArmIsFirmPair();
    var groups := t.layout.groups;
    var front, body := Front(t.layout) + [MatchLine()], RenderGroups(t, groups).value;
    NothingHolds(read, p, t);
    RemarksInFront(read, p, t, [], tail, "");
    assert TextOf(tail) + "" == TextOf(tail);
    GroupsInFront(read, p, t, groups, TextOf(tail));
    FrontSkips(p, t.layout);
    NoArmInside(p, TextOf(front), TextOf(body) + TextOf(tail));
    TextOfThree(front, body, tail, "");
    assert TextOf(front + body + tail) + "" == TextOf(front + body + tail);
  }

  // ----- the inventory -----

  lemma {:induction false} AllAreRead(read: Reader, t: Tables, table: Inventory, keys: seq<Key>, arms: seq<FoundArm>)
    requires ArmsRead(read, t, keys, arms) && forall key :: key in keys ==> IsReadableKey(t, key)
    ensures Inventoried(read, table, arms) == Some(table + CatalogPart(t, keys))
    decreases |arms|
  {
    if arms == [] {
      assert table + CatalogPart(t, keys) == table;
    } else {
      var key := keys[0];
      assert ArmReads(read, t, keys[0], arms[0]) && key in keys;
      RestReads(read, t, keys, arms);
      var more := table[key := DescriptorIn(t, key)];
      AllAreRead(read, t, more, keys[1..], arms[1..]);
      ListingSplit(t, table, keys);
    }
  }

  lemma RestReads(read: Reader, t: Tables, keys: seq<Key>, arms: seq<FoundArm>)
    requires ArmsRead(read, t, keys, arms) && arms != []
    ensures ArmsRead(read, t, keys[1..], arms[1..])
  {
    forall i | 0 <= i < |keys[1..]| ensures ArmReads(read, t, keys[1..][i], arms[1..][i]) {
      assert ArmReads(read, t, keys[i + 1], arms[i + 1]);
    }
  }

  lemma ListingSplit(t: Tables, table: Inventory, keys: seq<Key>)
    requires keys != [] && forall key :: key in keys ==> key in t.catalog
    ensures table[keys[0] := DescriptorIn(t, keys[0])] + CatalogPart(t, keys[1..])
         == table + CatalogPart(t, keys)
  {
    assert keys == [keys[0]] + keys[1..];
  }

  /** A function whose type is not readable is read as something else, whatever follows. */
  lemma {:induction false} OneIsMisread(read: Reader, t: Tables, table: Inventory, keys: seq<Key>, arms: seq<FoundArm>,
                                        key: Key)
    requires ArmsRead(read, t, keys, arms) && key in t.catalog && !IsReadableKey(t, key)
    requires key in keys || (key in table && table[key] != DescriptorIn(t, key))
    ensures var r := Inventoried(read, table, arms);
            r.Some? ==> key in r.value && r.value[key] != DescriptorIn(t, key)
    decreases |arms|
  {
    if arms != [] {
      assert ArmReads(read, t, keys[0], arms[0]);
      RestReads(read, t, keys, arms);
      var d := read(arms[0].body);
      if d.Some? {
        assert keys == [keys[0]] + keys[1..];
        OneIsMisread(read, t, table[arms[0].name := d.value], keys[1..], arms[1..], key);
      }
    }
  }

  lemma {:induction false} OnlyFoundNames(read: Reader, table: Inventory, arms: seq<FoundArm>, key: Key)
    requires key !in table && forall i :: 0 <= i < |arms| ==> arms[i].name != key
    ensures var r := Inventoried(read, table, arms); r.Some? ==> key !in r.value
    decreases |arms|
  {
    if arms != [] {
      var d := read(arms[0].body);
      if d.Some? {
        assert forall i :: 0 <= i < |arms[1..]| ==> arms[1..][i] == arms[i + 1];
        OnlyFoundNames(read, table[arms[0].name := d.value], arms[1..], key);
      }
    }
  }

  // ----- found names are lower-case -----

  /** The captured words are in the alphabets of their runs. */
  predicate Fit(p: Pattern, words: seq<string>)
    decreases p
  {
    match p
    case End => true
    case Mark(_, next) => Fit(next, words)
    case White(next) => Fit(next, words)
    case Word(dots, next) => words != [] && AllWord(words[0], dots) && Fit(next, words[1..])
  }

  lemma {:induction false} RunIsWord(s: string, dots: bool)
    ensures AllWord(s[..WordRun(s, dots)], dots)
  {
    if s != [] && IsLowerChar(s[0], dots) {
      RunIsWord(s[1..], dots);
      var n := WordRun(s, dots);
      assert s[..n] == [s[0]] + s[1..][..n - 1];
    }
  }

  lemma {:induction false} WordsFit(p: Pattern, s: string)
    ensures var r := Try(p, s); r.Matches? ==> Fit(p, r.words)
    decreases p
  {
    match p
    case End =>
    case Mark(c, next) =>
      if s != [] && s[0] == c {
        WordsFit(next, s[1..]);
        NoWordsInFront(Try(next, s[1..]));
      }
    case White(next) =>
      WordsFit(next, s[SpaceRun(s)..]);
      NoWordsInFront(Try(next, s[SpaceRun(s)..]));
    case Word(dots, next) =>
      var n := WordRun(s, dots);
      RunIsWord(s, dots);
      WordsFit(next, s[n..]);
      OneWordInFront(s[..n], Try(next, s[n..]));
  }

  lemma NoWordsInFront(r: Attempt)
    ensures r.Matches? ==> [] + r.words == r.words
  {
  }

  lemma OneWordInFront(word: string, r: Attempt)
    ensures r.Matches? ==> ([word] + r.words)[0] == word && ([word] + r.words)[1..] == r.words
  {
  }

  lemma FitsArm(p: Pattern, words: seq<string>)
    requires IsArmPattern(p) && |words| == 2 && Fit(p, words)
    ensures IsLowerName((words[0], words[1]))
  {
    assert Fit(BehindBracket(), words) && Fit(Word(true, BehindModule()), words);
    FitsFunction(words[1..]);
  }

  lemma FitsFunction(words: seq<string>)
    requires words != [] && Fit(BehindModule(), words)
    ensures AllWord(words[0], false)
  {
    var rest := Mark(',', White(Mark('"', Word(false, BehindName()))));
    assert Fit(rest, words) && Fit(Word(false, BehindName()), words);
  }

  lemma {:induction false} FoundAreLower(p: Pattern, s: string)
    requires IsArmPattern(p) && IsPair(p)
    ensures forall i :: 0 <= i < |ArmsOf(p, s)| ==> IsLowerName(ArmsOf(p, s)[i].name)
    decreases |s|
  {
    if s != [] {
      var r := Try(p, s);
      if r.Matches? {
        WordsFit(p, s);
        FitsArm(p, r.words);
        FoundAreLower(p, s[r.length..]);
      } else {
        FoundAreLower(p, s[1..]);
      }
    }
  }

  // ----- the round trip -----

  lemma {:induction false} RenderedKeys(t: Tables, groups: seq<Group>)
    requires RenderGroups(t, groups).Some?
    ensures forall key :: key in AllKeys(groups) ==> key in t.catalog
  {
    if groups != [] {
      RenderedKeys(t, groups[1..]);
      if groups[0].namespace.Some? {
        RenderedItemKeys(t, groups[0].namespace.value, groups[0].items);
      }
    }
  }

  lemma {:induction false} RenderedItemKeys(t: Tables, m: string, items: seq<Item>)
    requires RenderItems(t, Some(m), items).Some?
    ensures forall key :: key in ItemKeys(m, items) ==> key in t.catalog
  {
    if items != [] {
      RenderedItemKeys(t, m, items[1..]);
    }
  }

  /** Reading a rendered table gives exactly the catalog's descriptors of the functions it lists
      if and only if every listed name is lower-case and every listed type is readable. */
  lemma TableSurvives(read: Reader, p: Pattern, t: Tables, tail: seq<string>)
    requires IsParser(read) && IsArmPattern(p) && IsCatalog(t) && IsWritten(t, tail)
    ensures var keys := AllKeys(t.layout.groups);
            && IsPair(p) && (forall key :: key in keys ==> key in t.catalog)
            && (Inventoried(read, map[], ArmsOf(p, FileText(t, tail))) == Some(CatalogPart(t, keys))
                <==> forall key :: key in keys ==> IsLowerName(key) && IsReadableKey(t, key))
  {
    ArmIsFirmPair();
    var keys, arms := AllKeys(t.layout.groups), ArmsOf(p, FileText(t, tail));
    RenderedKeys(t, t.layout.groups);
    if i :| 0 <= i < |keys| && !IsLowerName(keys[i]) {
      FoundAreLower(p, FileText(t, tail));
      OnlyFoundNames(read, map[], arms, keys[i]);
      assert keys[i] in keys;
    } else {
      FileHolds(read, p, t, tail);
      InventoryMatches(read, t, keys, arms);
    }
  }

  lemma InventoryMatches(read: Reader, t: Tables, keys: seq<Key>, arms: seq<FoundArm>)
    requires ArmsRead(read, t, keys, arms) && forall key :: key in keys ==> key in t.catalog
    ensures Inventoried(read, map[], arms) == Some(CatalogPart(t, keys))
       <==> forall key :: key in keys ==> IsReadableKey(t, key)
  {
    if key :| key in keys && !IsReadableKey(t, key) {
      OneIsMisread(read, t, map[], keys, arms, key);
    } else {
      AllAreRead(read, t, map[], keys, arms);
      assert map[] + CatalogPart(t, keys) == CatalogPart(t, keys);
    }
  }
}
