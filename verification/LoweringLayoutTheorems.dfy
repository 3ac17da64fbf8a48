/** Recovering the layout from a rendered file. */
module LoweringLayoutTheorems {
  import opened Wrappers
  import opened LoweringText
  import opened LoweringArms
  import opened PythonText
  import opened LoweringLayout
  import opened LoweringArmBlocks
  import opened LoweringArmStyles

  // ----- what the reader should find -----

  function StyleFor(t: Tables, namespace: Option<string>, item: Item): string {
    if namespace.None? then ""
    else
      var style := StyleOf(t, (namespace.value, item.name));
      if style.None? then "" else style.value
  }

  /** The listed names, each with the style its arm is rendered in. */
  function StyledNames(t: Tables, namespace: Option<string>, items: seq<Item>): (r: seq<(string, string)>)
    ensures |r| == |items|
  {
    seq(|items|, i requires 0 <= i < |items| => (items[i].name, StyleFor(t, namespace, items[i])))
  }

  /** A layout group as a section: its names with their styles, and its banner. */
  function Styled(t: Tables, g: Group): Section {
    Section(g.namespace, StyledNames(t, g.namespace, g.items), g.banner)
  }

  function AllStyled(t: Tables, groups: seq<Group>): (r: seq<Section>)
    ensures |r| == |groups| && forall i :: 0 <= i < |r| ==> r[i] == Styled(t, groups[i])
  {
    seq(|groups|, i requires 0 <= i < |groups| => Styled(t, groups[i]))
  }

  // ----- gathering sections again -----

  function AddAll(found: Found, namespace: string, names: seq<(string, string)>): Found
    decreases |names|
  {
    if names == [] then found
    else AddAll(AddArm(found, (namespace, names[0].0), names[0].1), namespace, names[1..])
  }

  /** What the scan makes of one section's lines. */
  function AddSection(found: Found, s: Section): Found {
    var behind := found.(banner := found.banner + s.banner);
    if s.namespace.None? then behind else AddAll(behind, s.namespace.value, s.names)
  }

  function Gather(found: Found, sections: seq<Section>): Found
    decreases |sections|
  {
    if sections == [] then found else Gather(AddSection(found, sections[0]), sections[1..])
  }

  // ----- which layouts come back as they are -----

  predicate IsFull(s: Section) {
    s.namespace.Some? && s.names != []
  }

  predicate IsLastBanner(s: Section) {
    s.namespace.None? && s.names == [] && s.banner != []
  }

  /** A new group is told from the one in front of it by its module or its banner. */
  predicate IsApart(before: Section, s: Section) {
    s.namespace == before.namespace ==> s.banner != []
  }

  predicate AreSeparated(sections: seq<Section>) {
    forall i :: 0 < i < |sections| ==> IsApart(sections[i - 1], sections[i])
  }

  predicate AreFull(sections: seq<Section>) {
    forall i :: 0 <= i < |sections| ==> IsFull(sections[i])
  }

  /** Groups are non-empty, except a last one that is only a banner, and neighbours of one
      module are separated by a banner. */
  predicate IsNormal(sections: seq<Section>) {
    var n := |sections| - 1;
    && AreSeparated(sections)
    && (n >= 0 ==> AreFull(sections[..n]) && (IsFull(sections[n]) || IsLastBanner(sections[n])))
  }

  // ----- gathering keeps sections normal -----

  lemma ArmKeepsSections(found: Found, name: (string, string), style: string)
    requires AreFull(found.sections) && AreSeparated(found.sections)
    ensures var next := AddArm(found, name, style);
            AreFull(next.sections) && AreSeparated(next.sections) && next.banner == []
  {
  }

  lemma {:induction false} AddAllKeepsSections(found: Found, namespace: string, names: seq<(string, string)>)
    requires AreFull(found.sections) && AreSeparated(found.sections)
    ensures var next := AddAll(found, namespace, names); AreFull(next.sections) && AreSeparated(next.sections)
    decreases |names|
  {
    if names != [] {
      ArmKeepsSections(found, (namespace, names[0].0), names[0].1);
      AddAllKeepsSections(AddArm(found, (namespace, names[0].0), names[0].1), namespace, names[1..]);
    }
  }

  lemma {:induction false} GatherKeepsSections(found: Found, sections: seq<Section>)
    requires AreFull(found.sections) && AreSeparated(found.sections)
    ensures var next := Gather(found, sections); AreFull(next.sections) && AreSeparated(next.sections)
    decreases |sections|
  {
    if sections != [] {
      var s := sections[0];
      var behind := found.(banner := found.banner + s.banner);
      if s.namespace.Some? {
        AddAllKeepsSections(behind, s.namespace.value, s.names);
      }
      GatherKeepsSections(AddSection(found, s), sections[1..]);
    }
  }

  lemma FinishIsNormal(found: Found)
    requires AreFull(found.sections) && AreSeparated(found.sections)
    ensures IsNormal(Finish(found))
  {
    var r := Finish(found);
    if found.banner != [] {
      assert r[..|r| - 1] == found.sections;
    }
  }

  // ----- normal sections are gathered as they are -----

  /** Names behind the first are added to the same section. */
  lemma {:induction false} MoreNames(done: seq<Section>, namespace: string, banner: seq<string>,
                                     had: seq<(string, string)>, names: seq<(string, string)>)
    ensures AddAll(Found(done + [Section(Some(namespace), had, banner)], []), namespace, names)
         == Found(done + [Section(Some(namespace), had + names, banner)], [])
    decreases |names|
  {
    if names == [] {
      assert had + names == had;
    } else {
      OneMoreName(done, namespace, banner, had, names[0]);
      MoreNames(done, namespace, banner, had + [names[0]], names[1..]);
      assert had + [names[0]] + names[1..] == had + names;
    }
  }

  lemma OneMoreName(done: seq<Section>, namespace: string, banner: seq<string>,
                    had: seq<(string, string)>, name: (string, string))
    ensures AddArm(Found(done + [Section(Some(namespace), had, banner)], []), (namespace, name.0), name.1)
         == Found(done + [Section(Some(namespace), had + [name], banner)], [])
  {
    var sections := done + [Section(Some(namespace), had, banner)];
    var n := |sections| - 1;
    assert sections[n := Section(Some(namespace), had + [name], banner)]
        == done + [Section(Some(namespace), had + [name], banner)];
  }

  /** A full section that is apart from the last one is gathered as it is. */
  lemma SectionIsGathered(done: seq<Section>, s: Section)
    requires IsFull(s) && (done != [] ==> IsApart(done[|done| - 1], s))
    ensures AddSection(Found(done, []), s) == Found(done + [s], [])
  {
    var namespace, first := s.namespace.value, s.names[0];
    assert [] + s.banner == s.banner;
    var behind := Found(done, s.banner);
    assert AddArm(behind, (namespace, first.0), first.1)
        == Found(done + [Section(Some(namespace), [first], s.banner)], []);
    MoreNames(done, namespace, s.banner, [first], s.names[1..]);
    assert [first] + s.names[1..] == s.names;
  }

  lemma {:induction false} NormalIsGathered(done: seq<Section>, sections: seq<Section>)
    requires AreFull(done) && IsNormal(done + sections)
    ensures Finish(Gather(Found(done, []), sections)) == done + sections
    decreases |sections|
  {
    if sections == [] {
      assert done + sections == done;
    } else {
      var s, all := sections[0], done + sections;
      assert all[|done|] == s;
      if IsFull(s) {
        if done != [] {
          assert IsApart(all[|done| - 1], all[|done|]);
        }
        SectionIsGathered(done, s);
        assert done + [s] + sections[1..] == all;
        NormalIsGathered(done + [s], sections[1..]);
      } else {
        LastIsBanner(done, sections);
        assert [] + s.banner == s.banner;
        assert sections[1..] == [] && all == done + [Section(None, [], s.banner)];
      }
    }
  }

  lemma LastIsBanner(done: seq<Section>, sections: seq<Section>)
    requires sections != [] && IsNormal(done + sections)
    ensures IsFull(sections[0]) || (|sections| == 1 && IsLastBanner(sections[0]))
  {
    var all := done + sections;
    assert all[|done|] == sections[0];
    if |sections| > 1 {
      assert all[..|all| - 1][|done|] == sections[0];
    }
  }

  /** Gathering gives the sections back exactly when they are normal. */
  lemma GatheredExactly(sections: seq<Section>)
    ensures Finish(Gather(Found([], []), sections)) == sections <==> IsNormal(sections)
  {
    GatherKeepsSections(Found([], []), sections);
    FinishIsNormal(Gather(Found([], []), sections));
    if IsNormal(sections) {
      assert [] + sections == sections;
      NormalIsGathered([], sections);
    }
  }

  // ----- the scan gathers the rendered groups -----

  predicate IsBanner(line: string) {
    StartsWith(Strip(line), "//")
  }

  predicate AreBanners(lines: seq<string>) {
    forall i :: 0 <= i < |lines| ==> IsBanner(lines[i])
  }

  /** Catalog entries under their own names, and listed ones printable without stray brackets. */
  predicate IsCatalog(t: Tables) {
    forall key :: key in t.catalog && StyleOf(t, key).Some? ==> IsListable(t, key)
  }

  predicate IsListable(t: Tables, key: (string, string))
    requires key in t.catalog && StyleOf(t, key).Some?
  {
    && t.catalog[key].name == key && IsEntry(t.catalog[key], t.names)
    && PrintsPlainly(t.catalog[key], StyleOf(t, key).value)
  }

  /** What a rendered file is made of, as the reader takes it. */
  datatype Event = BannerLine(text: string) | Arm(lines: seq<string>, name: (string, string), style: string)

  function Texts(e: Event): seq<string> {
    match e
    case BannerLine(text) => [text]
    case Arm(lines, _, _) => lines
  }

  function AllTexts(events: seq<Event>): seq<string> {
    if events == [] then [] else Texts(events[0]) + AllTexts(events[1..])
  }

  function Apply(found: Found, e: Event): Found {
    match e
    case BannerLine(text) => found.(banner := found.banner + [text])
    case Arm(_, name, style) => AddArm(found, name, style)
  }

  function ApplyAll(found: Found, events: seq<Event>): Found
    decreases |events|
  {
    if events == [] then found else ApplyAll(Apply(found, events[0]), events[1..])
  }

  /** The reader takes the event's lines in one turn, whatever follows. */
  ghost predicate Takes(step: (seq<string>, Found) -> Option<Turn>, e: Event) {
    && Texts(e) != []
    && forall rest: seq<string>, found: Found :: step(Texts(e) + rest, found) == Some(Turn(Apply(found, e), |Texts(e)|))
  }

  ghost predicate TakesAll(step: (seq<string>, Found) -> Option<Turn>, events: seq<Event>) {
    forall i :: 0 <= i < |events| ==> Takes(step, events[i])
  }

  lemma {:induction false} RunsThrough(step: (seq<string>, Found) -> Option<Turn>, events: seq<Event>,
                                       rest: seq<string>,
                                       found: Found)
    requires TakesAll(step, events)
    ensures Run(step, AllTexts(events) + rest, |AllTexts(events)|, found) == Some(ApplyAll(found, events))
    decreases |events|
  {
    if events != [] {
      var e, others := events[0], AllTexts(events[1..]);
      var all, k := Texts(e) + (others + rest), |Texts(e)|;
      assert Takes(step, e);
      assert all == AllTexts(events) + rest;
      assert step(all, found) == Some(Turn(Apply(found, e), k));
      assert all[k..] == others + rest;
      RunsThrough(step, events[1..], rest, Apply(found, e));
    }
  }

  lemma {:induction false} TextsOfTwo(a: seq<Event>, b: seq<Event>)
    ensures AllTexts(a + b) == AllTexts(a) + AllTexts(b)
  {
    if a == [] {
      assert a + b == b;
    } else {
      assert (a + b)[1..] == a[1..] + b;
      TextsOfTwo(a[1..], b);
    }
  }

  lemma {:induction false} ApplyTwo(found: Found, a: seq<Event>, b: seq<Event>)
    ensures ApplyAll(found, a + b) == ApplyAll(ApplyAll(found, a), b)
    decreases |a|
  {
    if a == [] {
      assert a + b == b;
    } else {
      assert (a + b)[1..] == a[1..] + b;
      ApplyTwo(Apply(found, a[0]), a[1..], b);
    }
  }

  // ----- the events of a layout -----

  /** No line that could be taken for the end of the match. */
  predicate HasNoEnd(lines: seq<string>) {
    forall i :: 0 <= i < |lines| ==> Strip(lines[i]) != EndText()
  }

  lemma CodeHasNoEnd(lines: seq<Line>)
    requires AreCode(lines)
    ensures HasNoEnd(LineTexts(lines))
  {
    forall i | 0 <= i < |lines| ensures Strip(LineTexts(lines)[i]) != EndText() {
      assert IsCode(lines[i]);
      CodeIsStripped(lines[i]);
    }
  }

  /** The reader takes the events in turn, and none of their lines ends the match. */
  ghost predicate AreTaken(step: (seq<string>, Found) -> Option<Turn>, events: seq<Event>) {
    TakesAll(step, events) && HasNoEnd(AllTexts(events))
  }

  lemma TakenTogether(step: (seq<string>, Found) -> Option<Turn>, a: seq<Event>, b: seq<Event>)
    requires AreTaken(step, a) && AreTaken(step, b)
    ensures AreTaken(step, a + b)
  {
    TextsOfTwo(a, b);
  }

  lemma OneTaken(step: (seq<string>, Found) -> Option<Turn>, e: Event)
    requires Takes(step, e) && HasNoEnd(Texts(e))
    ensures AreTaken(step, [e]) && AllTexts([e]) == Texts(e)
  {
    assert [e][1..] == [] && Texts(e) + [] == Texts(e);
  }

  lemma ArmIsTakenBy(step: (seq<string>, Found) -> Option<Turn>, lines: seq<Line>, name: (string, string),
                     style: string)
    requires IsReader(step) && IsArm(lines, name, style)
    ensures AreTaken(step, [Arm(LineTexts(lines), name, style)])
    ensures AllTexts([Arm(LineTexts(lines), name, style)]) == LineTexts(lines)
  {
    var e := Arm(LineTexts(lines), name, style);
    forall rest: seq<string>, found: Found
      ensures step(Texts(e) + rest, found) == Some(Turn(Apply(found, e), |Texts(e)|))
    {
      assert step(Texts(e) + rest, found) == ScanTurn(Texts(e) + rest, found);
      ArmIsTaken(lines, name, style, rest, found);
    }
    CodeHasNoEnd(lines);
    OneTaken(step, e);
  }

  /** The arm of a listed function. */
  lemma ItemIsTaken(step: (seq<string>, Found) -> Option<Turn>, t: Tables, namespace: string, item: Item)
    returns (e: Event)
    requires IsReader(step) && IsCatalog(t) && RenderItem(t, Some(namespace), item).Some?
    ensures e == Arm(RenderItem(t, Some(namespace), item).value, (namespace, item.name),
                     StyleFor(t, Some(namespace), item))
    ensures AreTaken(step, [e]) && AllTexts([e]) == RenderItem(t, Some(namespace), item).value
  {
    var key := (namespace, item.name);
    var style := StyleOf(t, key).value;
    assert IsListable(t, key);
    EmittedIsArm(t.catalog[key], style, t.names);
    var arm := EmitArm(t.catalog[key], style, t.names).value;
    ArmIsTakenBy(step, arm, key, style);
    e := Arm(LineTexts(arm), key, style);
  }

  /** The arms of a group: their lines, and what they add. */
  lemma {:induction false} ItemsAreTaken(step: (seq<string>, Found) -> Option<Turn>, t: Tables, namespace: string,
                                         items: seq<Item>, found: Found) returns (events: seq<Event>)
    requires IsReader(step) && IsCatalog(t) && RenderItems(t, Some(namespace), items).Some?
    ensures AreTaken(step, events) && AllTexts(events) == RenderItems(t, Some(namespace), items).value
    ensures ApplyAll(found, events) == AddAll(found, namespace, StyledNames(t, Some(namespace), items))
    decreases |items|
  {
    if items == [] {
      events := [];
    } else {
      var e := ItemIsTaken(step, t, namespace, items[0]);
      var others := ItemsAreTaken(step, t, namespace, items[1..], Apply(found, e));
      events := [e] + others;
      TakenTogether(step, [e], others);
      TextsOfTwo([e], others);
      assert events[1..] == others;
      NamesSplit(t, Some(namespace), items);
    }
  }

  lemma NamesSplit(t: Tables, namespace: Option<string>, items: seq<Item>)
    requires items != []
    ensures var names := StyledNames(t, namespace, items);
            && names[0] == (items[0].name, StyleFor(t, namespace, items[0]))
            && names[1..] == StyledNames(t, namespace, items[1..])
  {
  }

  lemma BannerLineIsTaken(step: (seq<string>, Found) -> Option<Turn>, line: string)
    requires IsReader(step) && IsBanner(line)
    ensures AreTaken(step, [BannerLine(line)]) && AllTexts([BannerLine(line)]) == [line]
  {
    var e := BannerLine(line);
    forall rest: seq<string>, found: Found
      ensures step(Texts(e) + rest, found) == Some(Turn(Apply(found, e), |Texts(e)|))
    {
      assert step(Texts(e) + rest, found) == ScanTurn(Texts(e) + rest, found);
      assert (Texts(e) + rest)[0] == line;
    }
    PrefixAt(Strip(line), "//", 0);
    OneTaken(step, e);
  }

  lemma {:induction false} BannerIsTaken(step: (seq<string>, Found) -> Option<Turn>, banner: seq<string>, found: Found)
    returns (events: seq<Event>)
    requires IsReader(step) && AreBanners(banner)
    ensures AreTaken(step, events) && AllTexts(events) == banner
    ensures ApplyAll(found, events) == found.(banner := found.banner + banner)
    decreases |banner|
  {
    if banner == [] {
      events := [];
      assert found.banner + banner == found.banner;
    } else {
      var e := BannerLine(banner[0]);
      BannersSplit(banner);
      BannerLineIsTaken(step, banner[0]);
      var others := BannerIsTaken(step, banner[1..], Apply(found, e));
      events := [e] + others;
      TakenTogether(step, [e], others);
      TextsOfTwo([e], others);
      ApplyTwo(found, [e], others);
      assert ApplyAll(found, [e]) == Apply(found, e) by {
        assert [e][1..] == [];
      }
      BannerRegroup(found.banner, banner);
    }
  }

  lemma BannersSplit(banner: seq<string>)
    requires AreBanners(banner) && banner != []
    ensures IsBanner(banner[0]) && AreBanners(banner[1..])
  {
    forall i | 0 <= i < |banner[1..]| ensures IsBanner(banner[1..][i]) {
      assert IsBanner(banner[i + 1]);
    }
  }

  lemma BannerRegroup(a: seq<string>, banner: seq<string>)
    requires banner != []
    ensures [banner[0]] + banner[1..] == banner && (a + [banner[0]]) + banner[1..] == a + banner
  {
  }

  predicate AreGroups(groups: seq<Group>) {
    forall i :: 0 <= i < |groups| ==> AreBanners(groups[i].banner)
  }

  lemma GroupIsTaken(step: (seq<string>, Found) -> Option<Turn>, t: Tables, g: Group, found: Found)
    returns (events: seq<Event>)
    requires IsReader(step) && IsCatalog(t) && AreBanners(g.banner) && RenderItems(t, g.namespace, g.items).Some?
    ensures AreTaken(step, events) && AllTexts(events) == g.banner + RenderItems(t, g.namespace, g.items).value
    ensures ApplyAll(found, events) == AddSection(found, Styled(t, g))
  {
    var behind := found.(banner := found.banner + g.banner);
    events := BannerIsTaken(step, g.banner, found);
    if g.namespace.Some? {
      var arms := ItemsAreTaken(step, t, g.namespace.value, g.items, behind);
      TakenTogether(step, events, arms);
      TextsOfTwo(events, arms);
      ApplyTwo(found, events, arms);
      events := events + arms;
    } else {
      NoItemsWithoutModule(t, g.items);
      assert g.banner + [] == g.banner;
    }
  }

  lemma NoItemsWithoutModule(t: Tables, items: seq<Item>)
    requires RenderItems(t, None, items).Some?
    ensures items == []
  {
  }

  lemma {:induction false} GroupsAreTaken(step: (seq<string>, Found) -> Option<Turn>, t: Tables, groups: seq<Group>,
                                          found: Found) returns (events: seq<Event>)
    requires IsReader(step) && IsCatalog(t) && AreGroups(groups) && RenderGroups(t, groups).Some?
    ensures AreTaken(step, events) && AllTexts(events) == RenderGroups(t, groups).value
    ensures ApplyAll(found, events) == Gather(found, AllStyled(t, groups))
    decreases |groups|
  {
    if groups == [] {
      events := [];
    } else {
      var first := GroupIsTaken(step, t, groups[0], found);
      assert AreGroups(groups[1..]);
      var others := GroupsAreTaken(step, t, groups[1..], AddSection(found, Styled(t, groups[0])));
      events := first + others;
      TakenTogether(step, first, others);
      TextsOfTwo(first, others);
      ApplyTwo(found, first, others);
      assert AllStyled(t, groups)[1..] == AllStyled(t, groups[1..]);
    }
  }

  // ----- the whole file -----

  lemma {:induction false} FirstLineBehind(a: seq<string>, b: seq<string>, text: string)
    requires b != [] && Strip(b[0]) == text && forall i :: 0 <= i < |a| ==> Strip(a[i]) != text
    ensures FirstLine(a + b, text) == Some(|a|)
  {
    if a == [] {
      assert a + b == b;
    } else {
      assert (a + b)[1..] == a[1..] + b;
      assert forall i :: 0 <= i < |a[1..]| ==> a[1..][i] == a[i + 1];
      FirstLineBehind(a[1..], b, text);
    }
  }

  lemma MatchIsStripped()
    ensures Strip(MatchLine()) == MatchText()
  {
    CodeIsStripped(Line(4, MatchText()));
  }

  lemma SectionsOfBody(t: Tables, tail: seq<string>)
    requires IsCatalog(t) && AreGroups(t.layout.groups) && RenderGroups(t, t.layout.groups).Some?
    ensures var body := RenderGroups(t, t.layout.groups).value;
            && HasNoEnd(body)
            && Sections(body + tail, |body|) == Some(Finish(Gather(Found([], []), AllStyled(t, t.layout.groups))))
  {
    var start := Found([], []);
    var events := GroupsAreTaken(ScanTurn, t, t.layout.groups, start);
    RunsThrough(ScanTurn, events, tail, start);
  }

  // ----- the lines in front of the match -----

  predicate HasNoMatch(lines: seq<string>) {
    forall i :: 0 <= i < |lines| ==> Strip(lines[i]) != MatchText()
  }

  predicate HasNoDeclaration(lines: seq<string>) {
    forall i :: 0 <= i < |lines| ==> !StartsWith(lines[i], Declares())
  }

  lemma {:induction false} StripRightKeepsHead(s: string)
    requires s != [] && !IsSpace(s[0])
    ensures StripRight(s) != [] && StripRight(s)[0] == s[0]
  {
    if IsSpace(s[|s| - 1]) {
      StripRightKeepsHead(s[..|s| - 1]);
    }
  }

  lemma NotTheMatch(line: string)
    requires line == [] || (!IsSpace(line[0]) && line[0] != 'm')
    ensures Strip(line) != MatchText()
  {
    if line != [] {
      StripRightKeepsHead(line);
      assert StripLeft(line) == line;
    }
  }

  lemma CommentsArePlain(texts: seq<string>)
    ensures HasNoMatch(Commented(texts)) && HasNoDeclaration(Commented(texts))
  {
    var lines := Commented(texts);
    forall i | 0 <= i < |lines| ensures Strip(lines[i]) != MatchText() && !StartsWith(lines[i], Declares()) {
      assert lines[i][0] == '/';
      NotTheMatch(lines[i]);
      OtherHead(lines[i], Declares(), 0);
    }
  }

  lemma UsesArePlain()
    ensures HasNoMatch(["", "use super::*;", ""]) && HasNoDeclaration(["", "use super::*;", ""])
  {
    NotTheMatch("");
    NotTheMatch("use super::*;");
    OtherHead("use super::*;", Declares(), 0);
  }

  lemma DeclarationIsNoMatch(name: string)
    ensures Strip(Declares() + name + "(") != MatchText()
  {
    assert (Declares() + name + "(")[0] == 'p';
    NotTheMatch(Declares() + name + "(");
  }

  lemma {:induction false} BracketEnds(name: string, rest: string)
    ensures var s := name + ("(" + rest); s[..UntilBracket(s)] == name <==> '(' !in name
  {
    var s := name + ("(" + rest);
    if name == [] {
      assert s[0] == '(';
    } else if name[0] != '(' {
      assert s[1..] == name[1..] + ("(" + rest);
      BracketEnds(name[1..], rest);
      assert s[..UntilBracket(s)] == [name[0]] + s[1..][..UntilBracket(s[1..])];
      HeadOff(name, s[1..][..UntilBracket(s[1..])]);
    }
  }

  lemma HeadOff(name: string, rest: string)
    requires name != []
    ensures [name[0]] + rest == name <==> rest == name[1..]
  {
    assert name == [name[0]] + name[1..];
    assert ([name[0]] + rest)[1..] == rest;
  }

  /** The first `fn ` of the declaration stands in front of the name. */
  lemma DeclarationIsCut(rest: string)
    ensures Find(Declares() + rest, "fn ") == Some(11)
  {
    FindBehind("pub(crate) ", "fn " + rest, "fn ");
    AppendStarts("fn ", rest);
    assert Declares() + rest == "pub(crate) " + ("fn " + rest);
  }

  lemma {:induction false} FindBehind(a: string, b: string, p: string)
    requires p != [] && StartsWith(b, p) && p[0] !in a
    ensures Find(a + b, p) == Some(|a|)
  {
    if a == [] {
      assert a + b == b;
    } else {
      assert (a + b)[1..] == a[1..] + b;
      OtherHead(a + b, p, 0);
      FindBehind(a[1..], b, p);
    }
  }

  /** The name on the declaration is cut at its first bracket. */
  lemma NameIsRead(name: string)
    ensures NameOn(Declares() + name + "(").Some?
    ensures NameOn(Declares() + name + "(").value == name <==> '(' !in name
  {
    var line, rest := Declares() + name + "(", name + "(";
    assert line == Declares() + rest;
    DeclarationIsCut(rest);
    assert line[14..] == rest;
    BracketEnds(name, []);
    assert "(" + [] == "(";
  }

  lemma {:induction false} FunctionBehind(a: seq<string>, b: seq<string>)
    requires HasNoDeclaration(a)
    ensures FunctionOf(a + b) == FunctionOf(b)
  {
    if a == [] {
      assert a + b == b;
    } else {
      assert (a + b)[1..] == a[1..] + b;
      assert forall i :: 0 <= i < |a[1..]| ==> a[1..][i] == a[i + 1];
      FunctionBehind(a[1..], b);
    }
  }

  lemma Indented(text: string)
    requires IsCode(Line(4, text))
    ensures Strip(Spaces(4) + text) == text
  {
    CodeIsStripped(Line(4, text));
  }

  lemma ParametersAreCode()
    ensures IsCode(Line(4, "module: &str,")) && IsCode(Line(4, "function: &str,"))
  {
  }

  lemma FourWithoutMatch(a: string, b: string, c: string, d: string)
    requires Strip(a) != MatchText() && Strip(b) != MatchText() && Strip(c) != MatchText() && Strip(d) != MatchText()
    ensures HasNoMatch([a, b, c, d])
  {
  }

  lemma SignatureIsPlain(name: string)
    ensures HasNoMatch(Signature(name))
  {
    DeclarationIsNoMatch(name);
    ParametersAreCode();
    Indented("module: &str,");
    Indented("function: &str,");
    NotTheMatch(") -> Option<HostFunctionDescriptor> {");
    FourWithoutMatch(Declares() + name + "(", Spaces(4) + "module: &str,", Spaces(4) + "function: &str,",
                     ") -> Option<HostFunctionDescriptor> {");
  }

  /** The lines in front of the signature. */
  function Preamble(layout: FileLayout): seq<string> {
    Commented(layout.header) + ["", "use super::*;", ""]
  }

  lemma PreambleIsPlain(layout: FileLayout)
    ensures HasNoMatch(Preamble(layout)) && HasNoDeclaration(Preamble(layout))
  {
    CommentsArePlain(layout.header);
    UsesArePlain();
    BothArePlain(Commented(layout.header), ["", "use super::*;", ""]);
  }

  lemma BothArePlain(a: seq<string>, b: seq<string>)
    ensures HasNoMatch(a) && HasNoMatch(b) ==> HasNoMatch(a + b)
    ensures HasNoDeclaration(a) && HasNoDeclaration(b) ==> HasNoDeclaration(a + b)
  {
  }

  lemma FrontIsPlain(layout: FileLayout)
    ensures HasNoMatch(Front(layout))
  {
    PreambleIsPlain(layout);
    SignatureIsPlain(layout.lookup);
    BothArePlain(Preamble(layout), Signature(layout.lookup));
  }

  lemma SignatureIsRead(name: string, rest: seq<string>)
    ensures FunctionOf(Signature(name) + rest) == NameOn(Declares() + name + "(")
  {
    AppendStarts(Declares(), name + "(");
    assert Declares() + name + "(" == Declares() + (name + "(");
  }

  /** The function of a rendered file is the layout's, unless its name holds a bracket. */
  lemma FunctionIsRead(layout: FileLayout, rest: seq<string>)
    ensures var r := FunctionOf(Front(layout) + rest); r.Some? && (r == Some(layout.lookup) <==> '(' !in layout.lookup)
  {
    PreambleIsPlain(layout);
    FunctionBehind(Preamble(layout), Signature(layout.lookup) + rest);
    FrontRegroup(Preamble(layout), Signature(layout.lookup), rest);
    SignatureIsRead(layout.lookup, rest);
    NameIsRead(layout.lookup);
  }

  lemma FrontRegroup(a: seq<string>, b: seq<string>, c: seq<string>)
    ensures a + b + c == a + (b + c)
  {
  }

  // ----- gathering keeps the arms, so it keeps their majority -----

  lemma KindsOfTwo(a: seq<(string, string)>, b: seq<(string, string)>)
    ensures Kinds(a + b) == Kinds(a) + Kinds(b)
  {
  }

  lemma ArmKeepsKinds(found: Found, name: (string, string), style: string)
    ensures AllKinds(AddArm(found, name, style).sections) == AllKinds(found.sections) + [Kind(style)]
  {
    var sections, next := found.sections, AddArm(found, name, style).sections;
    var n := |sections| - 1;
    if |next| > |sections| {
      assert next[..|sections|] == sections;
      assert Kinds([(name.1, style)]) == [Kind(style)];
    } else {
      assert next[..n] == sections[..n];
      KindsOfTwo(sections[n].names, [(name.1, style)]);
      assert Kinds([(name.1, style)]) == [Kind(style)];
    }
  }

  lemma KindsOfFirst(names: seq<(string, string)>)
    requires names != []
    ensures Kinds(names) == [Kind(names[0].1)] + Kinds(names[1..])
  {
  }

  lemma {:induction false} AddAllKeepsKinds(found: Found, namespace: string, names: seq<(string, string)>)
    ensures AllKinds(AddAll(found, namespace, names).sections) == AllKinds(found.sections) + Kinds(names)
    decreases |names|
  {
    if names == [] {
      assert Kinds(names) == [];
    } else {
      var next := AddArm(found, (namespace, names[0].0), names[0].1);
      ArmKeepsKinds(found, (namespace, names[0].0), names[0].1);
      AddAllKeepsKinds(next, namespace, names[1..]);
      KindsOfFirst(names);
      FrontRegroup(AllKinds(found.sections), [Kind(names[0].1)], Kinds(names[1..]));
    }
  }

  /** Only sections of a module have names. */
  predicate HaveModules(sections: seq<Section>) {
    forall i :: 0 <= i < |sections| ==> sections[i].namespace.None? ==> sections[i].names == []
  }

  lemma LastKinds(sections: seq<Section>)
    requires sections != []
    ensures var n := |sections| - 1; AllKinds(sections) == AllKinds(sections[..n]) + Kinds(sections[n].names)
  {
  }

  lemma {:induction false} AllKindsSplit(sections: seq<Section>)
    requires sections != []
    ensures AllKinds(sections) == Kinds(sections[0].names) + AllKinds(sections[1..])
  {
    var n := |sections| - 1;
    if n == 0 {
      assert sections[..0] == [] && sections[1..] == [];
    } else {
      AllKindsSplit(sections[..n]);
      assert sections[..n][1..] == sections[1..][..n - 1];
      FrontRegroup(Kinds(sections[0].names), AllKinds(sections[1..][..n - 1]), Kinds(sections[n].names));
      LastKinds(sections[1..]);
    }
  }

  lemma {:induction false} GatherKeepsKinds(found: Found, sections: seq<Section>)
    requires HaveModules(sections)
    ensures AllKinds(Gather(found, sections).sections) == AllKinds(found.sections) + AllKinds(sections)
    decreases |sections|
  {
    if sections != [] {
      var s := sections[0];
      var behind := found.(banner := found.banner + s.banner);
      if s.namespace.Some? {
        AddAllKeepsKinds(behind, s.namespace.value, s.names);
      }
      GatherKeepsKinds(AddSection(found, s), sections[1..]);
      AllKindsSplit(sections);
      FrontRegroup(AllKinds(found.sections), Kinds(s.names), AllKinds(sections[1..]));
    }
  }

  lemma FinishKeepsKinds(found: Found)
    ensures AllKinds(Finish(found)) == AllKinds(found.sections)
  {
    var r := Finish(found);
    if found.banner != [] {
      assert r[..|r| - 1] == found.sections;
      assert Kinds(r[|r| - 1].names) == [];
    }
  }

  function StructNames(names: seq<(string, string)>): nat {
    if names == [] then 0
    else StructNames(names[..|names| - 1]) + if names[|names| - 1].1 == "struct" then 1 else 0
  }

  /** How many arms the sections hold, and how many of them are struct arms. */
  function Arms(sections: seq<Section>): nat {
    if sections == [] then 0 else Arms(sections[..|sections| - 1]) + |sections[|sections| - 1].names|
  }

  function StructArms(sections: seq<Section>): nat {
    if sections == [] then 0
    else StructArms(sections[..|sections| - 1]) + StructNames(sections[|sections| - 1].names)
  }

  lemma {:induction false} KindsCounted(names: seq<(string, string)>)
    ensures multiset(Kinds(names))[STRUCT] == StructNames(names)
    ensures multiset(Kinds(names))[HELPER] == |names| - StructNames(names)
  {
    if names != [] {
      var n := |names| - 1;
      KindsCounted(names[..n]);
      assert Kinds(names) == Kinds(names[..n]) + [Kind(names[n].1)];
    }
  }

  lemma {:induction false} AllKindsCounted(sections: seq<Section>)
    ensures multiset(AllKinds(sections))[STRUCT] == StructArms(sections)
    ensures multiset(AllKinds(sections))[HELPER] == Arms(sections) - StructArms(sections)
  {
    if sections != [] {
      var n := |sections| - 1;
      AllKindsCounted(sections[..n]);
      KindsCounted(sections[n].names);
    }
  }

  /** A file's style is `struct` if more than half of its arms are struct arms, and `helper` else. */
  lemma MajorityIs(sections: seq<Section>)
    ensures Majority(sections) == if 2 * StructArms(sections) > Arms(sections) then "struct" else "helper"
  {
    AllKindsCounted(sections);
  }

  lemma MajorityIsKept(sections: seq<Section>)
    requires HaveModules(sections)
    ensures Majority(Finish(Gather(Found([], []), sections))) == Majority(sections)
  {
    GatherKeepsKinds(Found([], []), sections);
    FinishKeepsKinds(Gather(Found([], []), sections));
    assert [] + AllKinds(sections) == AllKinds(sections);
  }

  lemma {:induction false} RenderedHaveModules(t: Tables, groups: seq<Group>)
    requires RenderGroups(t, groups).Some?
    ensures HaveModules(AllStyled(t, groups))
  {
    if groups != [] {
      RenderedHaveModules(t, groups[1..]);
      if groups[0].namespace.None? {
        NoItemsWithoutModule(t, groups[0].items);
      }
      assert AllStyled(t, groups) == [Styled(t, groups[0])] + AllStyled(t, groups[1..]);
    }
  }

  // ----- the whole file, read back -----

  /** The layout read from a rendered file: what its groups gather to, and the majority of the
      arms that were written. */
  lemma ExtractGathers(t: Tables, tail: seq<string>)
    requires IsCatalog(t) && AreGroups(t.layout.groups) && RenderFile(t, tail).Some?
    requires tail != [] && Strip(tail[0]) == EndText()
    ensures var file, sections := RenderFile(t, tail).value, AllStyled(t, t.layout.groups);
            && FunctionOf(file).Some?
            && Extract(file) == Some(Extracted(FunctionOf(file).value, Finish(Gather(Found([], []), sections)),
                                               Majority(sections)))
  {
    var body := RenderGroups(t, t.layout.groups).value;
    SectionsOfBody(t, tail);
    FrontIsPlain(t.layout);
    CutOut(Front(t.layout), body, tail);
    FileRegroup(Front(t.layout), body, tail);
    FunctionIsRead(t.layout, [MatchLine()] + body + tail);
    RenderedHaveModules(t, t.layout.groups);
    MajorityIsKept(AllStyled(t, t.layout.groups));
  }

  lemma FileRegroup(front: seq<string>, body: seq<string>, tail: seq<string>)
    ensures front + [MatchLine()] + body + tail == front + ([MatchLine()] + body + tail)
  {
  }

  lemma CutOut(front: seq<string>, body: seq<string>, tail: seq<string>)
    requires HasNoMatch(front)
    requires HasNoEnd(body) && tail != [] && Strip(tail[0]) == EndText()
    ensures SectionsOf(front + [MatchLine()] + body + tail) == Sections(body + tail, |body|)
  {
    MatchIsFound(front, body + tail);
    assert front + [MatchLine()] + body + tail == front + [MatchLine()] + (body + tail);
    FirstLineBehind(body, tail, EndText());
  }

  lemma MatchIsFound(front: seq<string>, arms: seq<string>)
    requires HasNoMatch(front)
    ensures var file := front + [MatchLine()] + arms;
            FirstLine(file, MatchText()) == Some(|front|) && file[|front| + 1..] == arms
  {
    MatchIsStripped();
    FirstLineBehind(front, [MatchLine()] + arms, MatchText());
    assert front + [MatchLine()] + arms == front + ([MatchLine()] + arms);
  }

  /** What `extract_layout` should return for a rendered file. */
  function Expected(t: Tables): Extracted {
    Extracted(t.layout.lookup, AllStyled(t, t.layout.groups), t.layout.style)
  }

  /** `extract_layout` of a rendered file returns the same function, groups, banners, names and
      styles exactly when the function's name has no bracket, the groups are normal and the
      file's style is that of most of its arms. */
  lemma LayoutSurvives(t: Tables, tail: seq<string>)
    requires IsCatalog(t) && AreGroups(t.layout.groups) && RenderFile(t, tail).Some?
    requires tail != [] && Strip(tail[0]) == EndText()
    ensures var sections := AllStyled(t, t.layout.groups);
            Extract(RenderFile(t, tail).value) == Some(Expected(t))
            <==> '(' !in t.layout.lookup && IsNormal(sections) && Majority(sections) == t.layout.style
  {
    var body := RenderGroups(t, t.layout.groups).value;
    ExtractGathers(t, tail);
    GatheredExactly(AllStyled(t, t.layout.groups));
    FileRegroup(Front(t.layout), body, tail);
    FunctionIsRead(t.layout, [MatchLine()] + body + tail);
  }
}
