/** Comparing the layout found in a table file with the generator's own layout
    (`check_from_source`). */
module LoweringSourceCheck {
  import opened Wrappers
  import opened PythonText
  import opened LoweringLayout
  import opened LoweringLayoutTheorems

  datatype Mismatch = WrongFunction | WrongStyle | WrongGroups | WrongArm(name: (string, string))

  /** What is compared group by group: module, names and banner. */
  datatype Listing = Listing(namespace: Option<string>, names: seq<string>, banner: seq<string>)

  function Observed(s: Section): Listing {
    Listing(s.namespace, seq(|s.names|, i requires 0 <= i < |s.names| => s.names[i].0), s.banner)
  }

  function Wanted(g: Group): Listing {
    Listing(g.namespace, seq(|g.items|, i requires 0 <= i < |g.items| => g.items[i].name), g.banner)
  }

  predicate SameListings(sections: seq<Section>, groups: seq<Group>) {
    |sections| == |groups| && forall i :: 0 <= i < |groups| ==> Observed(sections[i]) == Wanted(groups[i])
  }

  // ----- arm by arm -----

  /** The arms of a module found in another style; `None` where `arm_style` raises. */
  function WrongNames(t: Tables, m: string, names: seq<(string, string)>): Option<seq<Mismatch>> {
    if names == [] then Some([])
    else
      var n := |names| - 1;
      var before, style := WrongNames(t, m, names[..n]), StyleOf(t, (m, names[n].0));
      if before.None? || style.None? then None
      else Some(before.value + if style.value == names[n].1 then [] else [WrongArm((m, names[n].0))])
  }

  function WrongArms(t: Tables, sections: seq<Section>): Option<seq<Mismatch>> {
    if sections == [] then Some([])
    else
      var n := |sections| - 1;
      var before, last := WrongArms(t, sections[..n]), sections[n];
      if last.namespace.None? then before
      else
        var more := WrongNames(t, last.namespace.value, last.names);
        if before.None? || more.None? then None else Some(before.value + more.value)
  }

  /** What is reported of a file; `None` where the comparison raises. */
  function Mismatches(t: Tables, found: Extracted): Option<seq<Mismatch>> {
    var named := if found.lookup != t.layout.lookup then [WrongFunction] else [];
    var styled := named + if found.style != t.layout.style then [WrongStyle] else [];
    if !SameListings(found.sections, t.layout.groups) then Some(styled + [WrongGroups])
    else
      var arms := WrongArms(t, found.sections);
      if arms.None? then None else Some(styled + arms.value)
  }

  method CheckNames(t: Tables, m: string, names: seq<(string, string)>) returns (r: Option<seq<Mismatch>>)
    ensures r == WrongNames(t, m, names)
  {
    var problems := [];
    var i := 0;
    while i < |names|
      invariant 0 <= i <= |names|
      invariant WrongNames(t, m, names[..i]) == Some(problems)
    {
      var style := StyleOf(t, (m, names[i].0));
      assert names[..i + 1][..i] == names[..i];
      if style.None? {
        RaisesOnce(t, m, names, i + 1);
        return None;
      }
      if style.value != names[i].1 {
        problems := problems + [WrongArm((m, names[i].0))];
      } else {
        assert problems + [] == problems;
      }
      i := i + 1;
    }
    assert names[..i] == names;
    r := Some(problems);
  }

  lemma {:induction false} RaisesOnce(t: Tables, m: string, names: seq<(string, string)>, n: nat)
    requires n <= |names| && WrongNames(t, m, names[..n]).None?
    ensures WrongNames(t, m, names).None?
    decreases |names|
  {
    if n == |names| {
      assert names[..n] == names;
    } else {
      var k := |names| - 1;
      assert names[..k][..n] == names[..n];
      RaisesOnce(t, m, names[..k], n);
    }
  }

  method CheckArms(t: Tables, sections: seq<Section>) returns (r: Option<seq<Mismatch>>)
    ensures r == WrongArms(t, sections)
  {
    var problems := [];
    var i := 0;
    while i < |sections|
      invariant 0 <= i <= |sections|
      invariant WrongArms(t, sections[..i]) == Some(problems)
    {
      assert sections[..i + 1][..i] == sections[..i];
      if sections[i].namespace.Some? {
        var more := CheckNames(t, sections[i].namespace.value, sections[i].names);
        if more.None? {
          ArmsRaiseOnce(t, sections, i + 1);
          return None;
        }
        problems := problems + more.value;
      }
      i := i + 1;
    }
    assert sections[..i] == sections;
    r := Some(problems);
  }

  lemma {:induction false} ArmsRaiseOnce(t: Tables, sections: seq<Section>, n: nat)
    requires n <= |sections| && WrongArms(t, sections[..n]).None?
    ensures WrongArms(t, sections).None?
    decreases |sections|
  {
    if n == |sections| {
      assert sections[..n] == sections;
    } else {
      var k := |sections| - 1;
      assert sections[..k][..n] == sections[..n];
      ArmsRaiseOnce(t, sections[..k], n);
    }
  }

  method CheckFromSource(t: Tables, lines: seq<string>) returns (r: Option<seq<Mismatch>>)
    ensures var found := Extract(lines); r == if found.None? then None else Mismatches(t, found.value)
  {
    var found := ExtractLayout(lines);
    if found.None? {
      return None;
    }
    var problems := if found.value.lookup != t.layout.lookup then [WrongFunction] else [];
    problems := problems + if found.value.style != t.layout.style then [WrongStyle] else [];
    if !SameListings(found.value.sections, t.layout.groups) {
      return Some(problems + [WrongGroups]);
    }
    var arms := CheckArms(t, found.value.sections);
    if arms.None? {
      return None;
    }
    r := Some(problems + arms.value);
  }

  // ----- a clean report means that the layouts are the same -----

  /** Every listed function has a style. */
  predicate IsKnown(t: Tables, g: Group) {
    g.namespace.Some? ==> forall i :: 0 <= i < |g.items| ==> StyleOf(t, (g.namespace.value, g.items[i].name)).Some?
  }

  predicate AreKnown(t: Tables, groups: seq<Group>) {
    forall i :: 0 <= i < |groups| ==> IsKnown(t, groups[i])
  }

  lemma {:induction false} RightNames(t: Tables, m: string, names: seq<(string, string)>)
    ensures WrongNames(t, m, names) == Some([])
       <==> forall i :: 0 <= i < |names| ==> StyleOf(t, (m, names[i].0)) == Some(names[i].1)
  {
    if names != [] {
      var n := |names| - 1;
      RightNames(t, m, names[..n]);
      assert forall i :: 0 <= i < n ==> names[..n][i] == names[i];
      NothingAdded(t, m, names);
    }
  }

  lemma NothingAdded(t: Tables, m: string, names: seq<(string, string)>)
    requires names != []
    ensures var n := |names| - 1;
            WrongNames(t, m, names) == Some([])
            <==> WrongNames(t, m, names[..n]) == Some([]) && StyleOf(t, (m, names[n].0)) == Some(names[n].1)
  {
    var n := |names| - 1;
    var before, style := WrongNames(t, m, names[..n]), StyleOf(t, (m, names[n].0));
    if before.Some? && style.Some? {
      BothEmpty(before.value, if style.value == names[n].1 then [] else [WrongArm((m, names[n].0))]);
    }
  }

  /** The section's arms are in the styles that the layout prescribes. */
  predicate IsRight(t: Tables, s: Section) {
    s.namespace.Some? ==> WrongNames(t, s.namespace.value, s.names) == Some([])
  }

  lemma {:induction false} RightArms(t: Tables, sections: seq<Section>)
    ensures WrongArms(t, sections) == Some([]) <==> forall i :: 0 <= i < |sections| ==> IsRight(t, sections[i])
  {
    if sections != [] {
      var n := |sections| - 1;
      RightArms(t, sections[..n]);
      assert forall i :: 0 <= i < n ==> sections[..n][i] == sections[i];
      NoArmAdded(t, sections);
    }
  }

  lemma NoArmAdded(t: Tables, sections: seq<Section>)
    requires sections != []
    ensures var n := |sections| - 1;
            WrongArms(t, sections) == Some([]) <==> WrongArms(t, sections[..n]) == Some([]) && IsRight(t, sections[n])
  {
    var n := |sections| - 1;
    var before, last := WrongArms(t, sections[..n]), sections[n];
    if last.namespace.Some? {
      var more := WrongNames(t, last.namespace.value, last.names);
      if before.Some? && more.Some? {
        BothEmpty(before.value, more.value);
      }
    }
  }

  /** A section with the group's listing and the prescribed styles is the styled group. */
  lemma SectionIsStyled(t: Tables, s: Section, g: Group)
    requires g.namespace.None? ==> g.items == []
    ensures Observed(s) == Wanted(g) && IsRight(t, s) <==> s == Styled(t, g) && IsKnown(t, g)
  {
    if Observed(s) == Wanted(g) {
      NamesAreListed(s, g);
      if g.namespace.Some? {
        RightNames(t, g.namespace.value, s.names);
        NamesAreStyled(t, s, g);
      }
    } else {
      StyledIsListed(t, g);
    }
  }

  lemma NamesAreListed(s: Section, g: Group)
    requires Observed(s) == Wanted(g)
    ensures s.namespace == g.namespace && s.banner == g.banner && |s.names| == |g.items|
    ensures forall i :: 0 <= i < |g.items| ==> s.names[i].0 == g.items[i].name
  {
    assert |Observed(s).names| == |Wanted(g).names|;
    forall i | 0 <= i < |g.items| ensures s.names[i].0 == g.items[i].name {
      assert Observed(s).names[i] == Wanted(g).names[i];
    }
  }

  lemma StyledIsListed(t: Tables, g: Group)
    ensures Observed(Styled(t, g)) == Wanted(g)
  {
    assert Observed(Styled(t, g)).names == Wanted(g).names;
  }

  lemma NamesAreStyled(t: Tables, s: Section, g: Group)
    requires g.namespace.Some? && |s.names| == |g.items|
    requires forall i :: 0 <= i < |g.items| ==> s.names[i].0 == g.items[i].name
    ensures (forall i :: 0 <= i < |s.names| ==> StyleOf(t, (g.namespace.value, s.names[i].0)) == Some(s.names[i].1))
       <==> s.names == StyledNames(t, g.namespace, g.items) && IsKnown(t, g)
  {
  }

  predicate NamesHaveModules(groups: seq<Group>) {
    forall i :: 0 <= i < |groups| ==> groups[i].namespace.None? ==> groups[i].items == []
  }

  /** Nothing is reported exactly when the file holds the layout. */
  lemma CleanMeansSame(t: Tables, found: Extracted)
    requires NamesHaveModules(t.layout.groups)
    ensures Mismatches(t, found) == Some([]) <==> found == Expected(t) && AreKnown(t, t.layout.groups)
  {
    var sections, groups := found.sections, t.layout.groups;
    RightArms(t, sections);
    if |sections| == |groups| {
      forall i | 0 <= i < |groups|
        ensures Observed(sections[i]) == Wanted(groups[i]) && IsRight(t, sections[i])
           <==> sections[i] == Styled(t, groups[i]) && IsKnown(t, groups[i])
      {
        SectionIsStyled(t, sections[i], groups[i]);
      }
    }
    CleanParts(t, found);
    SectionsAreStyled(t, sections, groups);
  }

  lemma CleanParts(t: Tables, found: Extracted)
    ensures Mismatches(t, found) == Some([])
       <==> && found.lookup == t.layout.lookup && found.style == t.layout.style
            && SameListings(found.sections, t.layout.groups) && WrongArms(t, found.sections) == Some([])
  {
    var named := if found.lookup != t.layout.lookup then [WrongFunction] else [];
    var last := if found.style != t.layout.style then [WrongStyle] else [];
    var arms := WrongArms(t, found.sections);
    BothEmpty(named, last);
    if arms.Some? {
      BothEmpty(named + last, arms.value);
    }
  }

  lemma BothEmpty(a: seq<Mismatch>, b: seq<Mismatch>)
    ensures a + b == [] <==> a == [] && b == []
  {
    assert |a + b| == |a| + |b|;
  }

  lemma SectionsAreStyled(t: Tables, sections: seq<Section>, groups: seq<Group>)
    ensures sections == AllStyled(t, groups)
       <==> |sections| == |groups| && forall i :: 0 <= i < |groups| ==> sections[i] == Styled(t, groups[i])
  {
  }

  lemma {:induction false} RenderedAreKnown(t: Tables, groups: seq<Group>)
    requires RenderGroups(t, groups).Some?
    ensures NamesHaveModules(groups) && AreKnown(t, groups)
  {
    if groups != [] {
      RenderedAreKnown(t, groups[1..]);
      RenderedIsKnown(t, groups[0]);
      assert groups == [groups[0]] + groups[1..];
    }
  }

  lemma RenderedIsKnown(t: Tables, g: Group)
    requires RenderItems(t, g.namespace, g.items).Some?
    ensures IsKnown(t, g) && (g.namespace.None? ==> g.items == [])
  {
    if g.namespace.None? {
      NoItemsWithoutModule(t, g.items);
    } else {
      ItemsAreKnown(t, g.namespace.value, g.items);
    }
  }

  lemma {:induction false} ItemsAreKnown(t: Tables, m: string, items: seq<Item>)
    requires RenderItems(t, Some(m), items).Some?
    ensures forall i :: 0 <= i < |items| ==> StyleOf(t, (m, items[i].name)).Some?
  {
    if items != [] {
      ItemsAreKnown(t, m, items[1..]);
      assert forall i :: 1 <= i < |items| ==> items[i] == items[1..][i - 1];
    }
  }

  /** A freshly rendered file is reported clean exactly when the function's name has no bracket,
      the groups are normal and the file's style is that of most of its arms. */
  lemma RenderedIsClean(t: Tables, tail: seq<string>)
    requires IsCatalog(t) && AreGroups(t.layout.groups) && RenderFile(t, tail).Some?
    requires tail != [] && Strip(tail[0]) == EndText()
    ensures var found, sections := Extract(RenderFile(t, tail).value), AllStyled(t, t.layout.groups);
            && found.Some?
            && (Mismatches(t, found.value) == Some([])
                <==> '(' !in t.layout.lookup && IsNormal(sections) && Majority(sections) == t.layout.style)
  {
    ExtractGathers(t, tail);
    LayoutSurvives(t, tail);
    RenderedAreKnown(t, t.layout.groups);
    CleanMeansSame(t, Extract(RenderFile(t, tail).value).value);
  }
}
