/** Placement completes the layouts, adds nothing twice, and a clean coverage check means that
    the tables hold exactly the catalog functions they own. */
module LoweringCoverage {
  import opened Wrappers
  import opened LoweringArms
  import opened LoweringLayout
  import opened LoweringPlacement

  // ----- the loop of the check -----

  lemma {:induction false} EmittedIsListed(groups: seq<Group>, m: string, f: string)
    ensures f in Emitted(groups, m) <==> IsListed(groups, (m, f))
  {
    if groups != [] {
      var n := |groups| - 1;
      EmittedIsListed(groups[..n], m, f);
      NamesAreCounted(groups[n].items, f);
    }
  }

  lemma {:induction false} ModulesAreCounted(groups: seq<Group>, m: string)
    ensures m in Modules(groups) <==> GroupCount(groups, m) > 0
  {
    if groups != [] {
      var n := |groups| - 1;
      ModulesAreCounted(groups[..n], m);
      ModulesSplit(groups[..n], groups[n]);
      assert groups == groups[..n] + [groups[n]];
    }
  }

  lemma ModulesSplit(groups: seq<Group>, g: Group)
    ensures Modules(groups + [g]) == Modules(groups) + if g.namespace.Some? then {g.namespace.value} else {}
  {
    var all := groups + [g];
    forall m ensures m in Modules(all) <==> m in Modules(groups) || g.namespace == Some(m) {
      if m in Modules(groups) {
        var h :| h in groups && h.namespace == Some(m);
        assert h in all;
      }
      if g.namespace == Some(m) {
        assert g in all;
      }
    }
  }

  method CheckCoverage(catalog: seq<Key>, files: seq<seq<Group>>, excluded: map<string, set<string>>)
    returns (problems: set<Problem>)
    ensures problems == Problems(catalog, AllGroups(files), excluded)
  {
    var s := CollectSlots(files);
    ghost var groups := AllGroups(files);
    var left := s.places.Keys;
    SlotsAreModules(s, groups);
    problems := {};
    while left != {}
      invariant left <= Modules(groups)
      invariant problems == set m, p | m in Modules(groups) - left && p in ProblemsOf(catalog, groups, excluded, m) :: p
      decreases |left|
    {
      var m :| m in left;
      var found := CheckModule(catalog, s, excluded, m, groups);
      OneMoreModule(catalog, groups, excluded, left, m);
      problems := problems + found;
      left := left - {m};
    }
    assert Modules(groups) - left == Modules(groups);
  }

  lemma SlotsAreModules(s: Slots, groups: seq<Group>)
    requires AreCounts(s, groups)
    ensures s.places.Keys == Modules(groups)
  {
    forall m ensures m in s.places.Keys <==> m in Modules(groups) {
      ModulesAreCounted(groups, m);
      assert |PlacesOf(s, m)| == GroupCount(groups, m);
    }
  }

  lemma OneMoreModule(catalog: seq<Key>, groups: seq<Group>, excluded: map<string, set<string>>, left: set<string>,
                      m: string)
    requires m in left && left <= Modules(groups)
    ensures (set k, p | k in Modules(groups) - (left - {m}) && p in ProblemsOf(catalog, groups, excluded, k) :: p)
         == (set k, p | k in Modules(groups) - left && p in ProblemsOf(catalog, groups, excluded, k) :: p)
            + ProblemsOf(catalog, groups, excluded, m)
  {
    var seen := Modules(groups) - left;
    assert Modules(groups) - (left - {m}) == seen + {m};
  }

  method CheckModule(catalog: seq<Key>, s: Slots, excluded: map<string, set<string>>, m: string,
                     ghost groups: seq<Group>)
    returns (found: set<Problem>)
    requires AreCounts(s, groups)
    ensures found == ProblemsOf(catalog, groups, excluded, m)
  {
    var entries, emitted, out := Functions(catalog, m), ListedIn(s, m), Excluded(excluded, m);
    forall f ensures f in emitted <==> f in Emitted(groups, m) {
      EmittedIsListed(groups, m, f);
    }
    assert emitted == Emitted(groups, m);
    found := {};
    if entries - emitted - out != {} {
      found := found + {Missing(m, entries - emitted - out)};
    }
    if out - entries != {} {
      found := found + {Stale(m, out - entries)};
    }
    if emitted * out != {} {
      found := found + {Both(m, emitted * out)};
    }
  }

  // ----- what placement adds -----

  predicate AreDistinct(catalog: seq<Key>) {
    forall i, j :: 0 <= i < j < |catalog| ==> catalog[i] != catalog[j]
  }

  lemma {:induction false} ItemCountOfTwo(a: seq<Item>, b: seq<Item>, name: string)
    ensures ItemCount(a + b, name) == ItemCount(a, name) + ItemCount(b, name)
  {
    if b == [] {
      assert a + b == a;
    } else {
      var n := |b| - 1;
      assert (a + b)[..|a + b| - 1] == a + b[..n];
      ItemCountOfTwo(a, b[..n], name);
    }
  }

  lemma {:induction false} FreshOnce(catalog: seq<Key>, groups: seq<Group>, excluded: map<string, set<string>>,
                                     key: Key)
    requires AreDistinct(catalog)
    ensures ItemCount(Fresh(catalog, groups, excluded, key.0), key.1)
         == if key in catalog && IsNew(groups, excluded, key) then 1 else 0
  {
    if catalog != [] {
      var n := |catalog| - 1;
      var last, before := catalog[n], Fresh(catalog[..n], groups, excluded, key.0);
      var added := if last.0 == key.0 && IsNew(groups, excluded, last) then [Item(last.1, None)] else [];
      FreshOnce(catalog[..n], groups, excluded, key);
      ItemCountOfTwo(before, added, key.1);
      assert added != [] ==> added[..0] == [];
      assert catalog == catalog[..n] + [last];
    }
  }

  /** Extended groups hold one more arm of a function for each group of its module, if it is new. */
  lemma {:induction false} ExtendedCounts(catalog: seq<Key>, groups: seq<Group>, excluded: map<string, set<string>>,
                                          some: seq<Group>, key: Key)
    requires AreDistinct(catalog)
    ensures var r := ExtendAll(catalog, groups, excluded, some);
            && GroupCount(r, key.0) == GroupCount(some, key.0)
            && ArmCount(r, key) == ArmCount(some, key)
                                   + if key in catalog && IsNew(groups, excluded, key)
                                     then GroupCount(some, key.0) else 0
  {
    if some != [] {
      var n := |some| - 1;
      var r, g := ExtendAll(catalog, groups, excluded, some), some[n];
      ExtendedCounts(catalog, groups, excluded, some[..n], key);
      assert r[..n] == ExtendAll(catalog, groups, excluded, some[..n]);
      if g.namespace == Some(key.0) {
        FreshOnce(catalog, groups, excluded, key);
        ItemCountOfTwo(g.items, Fresh(catalog, groups, excluded, key.0), key.1);
      }
    }
  }

  lemma {:induction false} PlacedPrefix(catalog: seq<Key>, files: seq<seq<Group>>, excluded: map<string, set<string>>,
                                        i: nat)
    requires i <= |files|
    ensures AllGroups(Place(catalog, files, excluded)[..i])
         == ExtendAll(catalog, AllGroups(files), excluded, AllGroups(files[..i]))
  {
    var placed := Place(catalog, files, excluded);
    if i > 0 {
      PlacedPrefix(catalog, files, excluded, i - 1);
      assert placed[..i][..i - 1] == placed[..i - 1] && files[..i][..i - 1] == files[..i - 1];
    }
  }

  lemma PlacedGroups(catalog: seq<Key>, files: seq<seq<Group>>, excluded: map<string, set<string>>)
    ensures AllGroups(Place(catalog, files, excluded))
         == ExtendAll(catalog, AllGroups(files), excluded, AllGroups(files))
  {
    var placed := Place(catalog, files, excluded);
    PlacedPrefix(catalog, files, excluded, |files|);
    assert placed[..|files|] == placed && files[..|files|] == files;
  }

  /** Placement adds exactly one arm for each new catalog function and changes nothing else. */
  lemma PlacementAddsNew(catalog: seq<Key>, files: seq<seq<Group>>, excluded: map<string, set<string>>, key: Key)
    requires AreDistinct(catalog)
    ensures var groups, placed := AllGroups(files), AllGroups(Place(catalog, files, excluded));
            && GroupCount(placed, key.0) == GroupCount(groups, key.0)
            && ArmCount(placed, key) == ArmCount(groups, key)
                                        + if key in catalog && IsNew(groups, excluded, key) then 1 else 0
  {
    PlacedGroups(catalog, files, excluded);
    ExtendedCounts(catalog, AllGroups(files), excluded, AllGroups(files), key);
  }

  lemma PlacementKeepsDistinct(catalog: seq<Key>, files: seq<seq<Group>>, excluded: map<string, set<string>>)
    requires AreDistinct(catalog) && HasNoDuplicates(AllGroups(files))
    ensures HasNoDuplicates(AllGroups(Place(catalog, files, excluded)))
  {
    forall key: Key ensures ArmCount(AllGroups(Place(catalog, files, excluded)), key) <= 1 {
      PlacementAddsNew(catalog, files, excluded, key);
    }
  }

  // ----- placing again -----

  lemma {:induction false} NothingFresh(catalog: seq<Key>, groups: seq<Group>, excluded: map<string, set<string>>,
                                        m: string)
    requires forall key :: key in catalog ==> !IsNew(groups, excluded, key)
    ensures Fresh(catalog, groups, excluded, m) == []
  {
    if catalog != [] {
      var n := |catalog| - 1;
      assert catalog[n] in catalog;
      forall key | key in catalog[..n] ensures !IsNew(groups, excluded, key) {
        assert key in catalog;
      }
      NothingFresh(catalog[..n], groups, excluded, m);
    }
  }

  lemma NothingNewIsLeft(catalog: seq<Key>, files: seq<seq<Group>>, excluded: map<string, set<string>>, key: Key)
    requires AreDistinct(catalog) && key in catalog
    ensures !IsNew(AllGroups(Place(catalog, files, excluded)), excluded, key)
  {
    PlacementAddsNew(catalog, files, excluded, key);
  }

  /** Placing again adds nothing. */
  lemma PlacementIsIdempotent(catalog: seq<Key>, files: seq<seq<Group>>, excluded: map<string, set<string>>)
    requires AreDistinct(catalog)
    ensures var placed := Place(catalog, files, excluded); Place(catalog, placed, excluded) == placed
  {
    var placed := Place(catalog, files, excluded);
    var groups := AllGroups(placed);
    forall key | key in catalog ensures !IsNew(groups, excluded, key) {
      NothingNewIsLeft(catalog, files, excluded, key);
    }
    forall g: Group ensures Extend(catalog, groups, excluded, g) == g {
      if g.namespace.Some? {
        NothingFresh(catalog, groups, excluded, g.namespace.value);
        assert g.items + [] == g.items;
      }
    }
    forall i | 0 <= i < |placed| ensures Place(catalog, placed, excluded)[i] == placed[i] {
      assert ExtendAll(catalog, groups, excluded, placed[i]) == placed[i];
    }
  }

  // ----- coverage -----

  /** A module's tables hold exactly its catalog functions that are not excluded, and every
      exclusion names a catalog function. */
  predicate IsCovered(catalog: seq<Key>, groups: seq<Group>, excluded: map<string, set<string>>, m: string) {
    && Emitted(groups, m) == Functions(catalog, m) - Excluded(excluded, m)
    && Excluded(excluded, m) <= Functions(catalog, m)
  }

  lemma ModuleIsClean(catalog: seq<Key>, groups: seq<Group>, excluded: map<string, set<string>>, m: string)
    requires Emitted(groups, m) <= Functions(catalog, m)
    ensures ProblemsOf(catalog, groups, excluded, m) == {} <==> IsCovered(catalog, groups, excluded, m)
  {
    var entries, emitted, out := Functions(catalog, m), Emitted(groups, m), Excluded(excluded, m);
    if ProblemsOf(catalog, groups, excluded, m) == {} {
      SetsOfClean(catalog, groups, excluded, m);
      Covered(entries, emitted, out);
    }
    if IsCovered(catalog, groups, excluded, m) {
      assert entries - emitted - out == {} && out - entries == {} && emitted * out == {};
    }
  }

  lemma SetsOfClean(catalog: seq<Key>, groups: seq<Group>, excluded: map<string, set<string>>, m: string)
    requires ProblemsOf(catalog, groups, excluded, m) == {}
    ensures var entries, emitted, out := Functions(catalog, m), Emitted(groups, m), Excluded(excluded, m);
            entries - emitted - out == {} && out - entries == {} && emitted * out == {}
  {
    var entries, emitted, out := Functions(catalog, m), Emitted(groups, m), Excluded(excluded, m);
    var problems := ProblemsOf(catalog, groups, excluded, m);
    assert entries - emitted - out != {} ==> Missing(m, entries - emitted - out) in problems;
    assert out - entries != {} ==> Stale(m, out - entries) in problems;
    assert emitted * out != {} ==> Both(m, emitted * out) in problems;
  }

  lemma Covered(entries: set<string>, emitted: set<string>, out: set<string>)
    requires emitted <= entries && entries - emitted - out == {} && out - entries == {} && emitted * out == {}
    ensures emitted == entries - out && out <= entries
  {
    forall f ensures f in emitted <==> f in entries - out {
      assert f !in entries - emitted - out && f !in emitted * out;
    }
    forall f | f in out ensures f in entries {
      assert f !in out - entries;
    }
  }

  /** Every listed function is in the catalog. */
  ghost predicate ListsOnly(groups: seq<Group>, catalog: seq<Key>) {
    forall key: Key :: IsListed(groups, key) ==> key in catalog
  }

  /** For layouts that list only catalog functions, the check is clean exactly when every owned
      module is covered. */
  lemma CleanMeansCovered(catalog: seq<Key>, groups: seq<Group>, excluded: map<string, set<string>>)
    requires ListsOnly(groups, catalog)
    ensures Problems(catalog, groups, excluded) == {}
       <==> forall m :: m in Modules(groups) ==> IsCovered(catalog, groups, excluded, m)
  {
    forall m ensures Emitted(groups, m) <= Functions(catalog, m) {
      forall f | f in Emitted(groups, m) ensures f in Functions(catalog, m) {
        EmittedIsListed(groups, m, f);
        assert IsListed(groups, (m, f)) && (m, f) in catalog;
      }
    }
    forall m ensures ProblemsOf(catalog, groups, excluded, m) == {} <==> IsCovered(catalog, groups, excluded, m) {
      ModuleIsClean(catalog, groups, excluded, m);
    }
    CleanByModule(catalog, groups, excluded);
  }

  lemma CleanByModule(catalog: seq<Key>, groups: seq<Group>, excluded: map<string, set<string>>)
    ensures Problems(catalog, groups, excluded) == {}
       <==> forall m :: m in Modules(groups) ==> ProblemsOf(catalog, groups, excluded, m) == {}
  {
    if Problems(catalog, groups, excluded) == {} {
      forall m | m in Modules(groups) ensures ProblemsOf(catalog, groups, excluded, m) == {} {
        forall p ensures p !in ProblemsOf(catalog, groups, excluded, m) {
          assert p !in Problems(catalog, groups, excluded);
        }
      }
    }
  }

  // ----- rendering every file -----

  function GroupsOf(files: seq<FileLayout>): (r: seq<seq<Group>>)
    ensures |r| == |files| && forall i :: 0 <= i < |r| ==> r[i] == files[i].groups
  {
    seq(|files|, i requires 0 <= i < |files| => files[i].groups)
  }

  /** Every file renders. */
  predicate RenderAll(files: seq<FileLayout>, catalog: Catalog, names: Names) {
    forall i :: 0 <= i < |files| ==> RenderGroups(Tables(files[i], catalog, names), files[i].groups).Some?
  }

  lemma {:induction false} RenderedItems(t: Tables, namespace: Option<string>, items: seq<Item>, name: string)
    requires RenderItems(t, namespace, items).Some? && ItemCount(items, name) > 0
    ensures namespace.Some? && (namespace.value, name) in t.catalog
  {
    NamesAreCounted(items, name);
    var j :| 0 <= j < |items| && items[j].name == name;
    RenderedItem(t, namespace, items, j);
    RenderedItemIsKnown(t, namespace, items[j]);
  }

  lemma RenderedItemIsKnown(t: Tables, namespace: Option<string>, item: Item)
    requires RenderItem(t, namespace, item).Some?
    ensures namespace.Some? && (namespace.value, item.name) in t.catalog
  {
  }

  lemma FirstRenders(t: Tables, namespace: Option<string>, items: seq<Item>)
    requires RenderItems(t, namespace, items).Some? && items != []
    ensures RenderItem(t, namespace, items[0]).Some? && RenderItems(t, namespace, items[1..]).Some?
  {
  }

  lemma {:induction false} RenderedItem(t: Tables, namespace: Option<string>, items: seq<Item>, j: nat)
    requires RenderItems(t, namespace, items).Some? && j < |items|
    ensures RenderItem(t, namespace, items[j]).Some?
  {
    FirstRenders(t, namespace, items);
    if j > 0 {
      RenderedItem(t, namespace, items[1..], j - 1);
    }
  }

  lemma {:induction false} RenderedGroup(t: Tables, groups: seq<Group>, i: nat)
    requires RenderGroups(t, groups).Some? && i < |groups|
    ensures RenderItems(t, groups[i].namespace, groups[i].items).Some?
  {
    if i > 0 {
      RenderedGroup(t, groups[1..], i - 1);
    }
  }

  /** A listed function is listed by some group. */
  lemma {:induction false} ListedSomewhere(groups: seq<Group>, key: Key) returns (i: nat)
    requires IsListed(groups, key)
    ensures i < |groups| && groups[i].namespace == Some(key.0) && ItemCount(groups[i].items, key.1) > 0
  {
    var n := |groups| - 1;
    if groups[n].namespace == Some(key.0) && ItemCount(groups[n].items, key.1) > 0 {
      i := n;
    } else {
      i := ListedSomewhere(groups[..n], key);
    }
  }

  lemma {:induction false} ArmCountOfTwo(a: seq<Group>, b: seq<Group>, key: Key)
    ensures ArmCount(a + b, key) == ArmCount(a, key) + ArmCount(b, key)
  {
    if b == [] {
      assert a + b == a;
    } else {
      assert (a + b)[..|a + b| - 1] == a + b[..|b| - 1];
      ArmCountOfTwo(a, b[..|b| - 1], key);
    }
  }

  lemma {:induction false} RenderedLists(files: seq<FileLayout>, catalog: Catalog, names: Names, key: Key)
    requires RenderAll(files, catalog, names) && IsListed(AllGroups(GroupsOf(files)), key)
    ensures key in catalog
  {
    var n := |files| - 1;
    var groups := GroupsOf(files);
    assert groups[..n] == GroupsOf(files[..n]);
    ArmCountOfTwo(AllGroups(groups[..n]), groups[n], key);
    if IsListed(groups[n], key) {
      var t := Tables(files[n], catalog, names);
      var i := ListedSomewhere(groups[n], key);
      RenderedGroup(t, files[n].groups, i);
      RenderedItems(t, groups[n][i].namespace, groups[n][i].items, key.1);
    } else {
      RenderedLists(files[..n], catalog, names, key);
    }
  }

  /** When every file renders, the check is clean exactly when the tables of each owned module
      hold the module's catalog functions without the excluded ones. */
  lemma RenderedTablesAreComplete(files: seq<FileLayout>, order: seq<Key>, catalog: Catalog, names: Names,
                                  excluded: map<string, set<string>>)
    requires RenderAll(files, catalog, names) && forall key :: key in order <==> key in catalog
    ensures var groups := AllGroups(GroupsOf(files));
            Problems(order, groups, excluded) == {}
            <==> forall m :: m in Modules(groups) ==> IsCovered(order, groups, excluded, m)
  {
    var groups := AllGroups(GroupsOf(files));
    forall key: Key | IsListed(groups, key) ensures key in order {
      RenderedLists(files, catalog, names, key);
    }
    CleanMeansCovered(order, groups, excluded);
  }
}
