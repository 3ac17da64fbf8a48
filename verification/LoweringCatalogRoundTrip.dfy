/** From the catalog to its tables and back: functions are placed, the tables are written, and
    reading all of them gives the catalog's descriptors of the modules they own. */
module LoweringCatalogRoundTrip {
  import opened Wrappers
  import opened LoweringArms
  import opened LoweringDescriptors
  import opened LoweringLayout
  import opened LoweringLayoutTheorems
  import opened LoweringPlacement
  import opened LoweringCoverage
  import opened LoweringArmScan
  import opened LoweringTableText
  import opened LoweringTableRoundTrip

  // ----- which modules placement completes -----

  /** The exclusions of a module are catalog functions without an arm, and the module has one
      group or lists every other function itself. */
  predicate IsPlaceable(order: seq<Key>, groups: seq<Group>, excluded: map<string, set<string>>, m: string) {
    var entries, out := Functions(order, m), Excluded(excluded, m);
    && out <= entries
    && (forall f :: f in out ==> !IsListed(groups, (m, f)))
    && (GroupCount(groups, m) == 1 || forall f :: f in entries - out ==> IsListed(groups, (m, f)))
  }

  lemma FunctionIsKey(order: seq<Key>, m: string, f: string)
    ensures f in Functions(order, m) <==> (m, f) in order
  {
  }

  /** A function has an arm behind placement if it had one or is new. */
  lemma PlacedIsListed(order: seq<Key>, files: seq<seq<Group>>, excluded: map<string, set<string>>, m: string,
                       f: string)
    requires AreDistinct(order)
    ensures var groups, placed := AllGroups(files), AllGroups(Place(order, files, excluded));
            f in Emitted(placed, m)
            <==> IsListed(groups, (m, f)) || ((m, f) in order && IsNew(groups, excluded, (m, f)))
  {
    PlacementAddsNew(order, files, excluded, (m, f));
    EmittedIsListed(AllGroups(Place(order, files, excluded)), m, f);
  }

  /** Placement covers a module exactly when it is placeable. */
  lemma PlacementCovers(order: seq<Key>, files: seq<seq<Group>>, excluded: map<string, set<string>>, m: string)
    requires AreDistinct(order) && ListsOnly(AllGroups(files), order)
    ensures IsCovered(order, AllGroups(Place(order, files, excluded)), excluded, m)
       <==> IsPlaceable(order, AllGroups(files), excluded, m)
  {
    var groups, placed := AllGroups(files), AllGroups(Place(order, files, excluded));
    var entries, out := Functions(order, m), Excluded(excluded, m);
    forall f
      ensures f in Emitted(placed, m) <==> IsListed(groups, (m, f)) || (f in entries && IsNew(groups, excluded, (m, f)))
      ensures IsListed(groups, (m, f)) ==> f in entries
    {
      PlacedIsListed(order, files, excluded, m, f);
      FunctionIsKey(order, m, f);
    }
    if IsPlaceable(order, groups, excluded, m) {
      forall f ensures f in Emitted(placed, m) <==> f in entries - out {
      }
    }
    if IsCovered(order, placed, excluded, m) {
      forall f | f in out ensures !IsListed(groups, (m, f)) {
        assert f !in Emitted(placed, m);
      }
      forall f | f in entries - out ensures GroupCount(groups, m) == 1 || IsListed(groups, (m, f)) {
        assert f in Emitted(placed, m);
      }
    }
  }

  // ----- listed functions -----

  lemma {:induction false} ItemKeysAreCounted(m: string, items: seq<Item>, key: Key)
    ensures key in ItemKeys(m, items) <==> key.0 == m && exists i :: 0 <= i < |items| && items[i].name == key.1
  {
    if items != [] {
      ItemKeysAreCounted(m, items[1..], key);
      if i :| 0 <= i < |items| && items[i].name == key.1 {
        assert i > 0 ==> items[1..][i - 1] == items[i];
      }
      if j :| 0 <= j < |items[1..]| && items[1..][j].name == key.1 {
        assert items[j + 1] == items[1..][j];
      }
    }
  }

  lemma {:induction false} KeysAreListed(groups: seq<Group>, key: Key)
    ensures key in AllKeys(groups) <==> IsListed(groups, key)
  {
    if groups != [] {
      var g := groups[0];
      KeysAreListed(groups[1..], key);
      ArmCountOfTwo([g], groups[1..], key);
      assert groups == [g] + groups[1..];
      assert [g][..0] == [];
      if g.namespace.Some? {
        ItemKeysAreCounted(g.namespace.value, g.items, key);
        CountedOrNot(g.items, key.1);
      }
    }
  }

  lemma CountedOrNot(items: seq<Item>, name: string)
    ensures ItemCount(items, name) > 0 <==> exists i :: 0 <= i < |items| && items[i].name == name
  {
    NamesAreCounted(items, name);
  }

  // ----- reading every table -----

  datatype TableFile = TableFile(layout: FileLayout, tail: seq<string>)

  function TablesOf(f: TableFile, catalog: Catalog, names: Names): Tables {
    Tables(f.layout, catalog, names)
  }

  /** A file whose functions are all read back. */
  ghost predicate IsReadableFile(f: TableFile, catalog: Catalog, names: Names) {
    var t := TablesOf(f, catalog, names);
    && IsCatalog(t) && IsWritten(t, f.tail)
    && forall key :: key in AllKeys(f.layout.groups) ==> IsLowerName(key) && IsReadableKey(t, key)
  }

  ghost predicate AreReadable(files: seq<TableFile>, catalog: Catalog, names: Names) {
    forall i :: 0 <= i < |files| ==> IsReadableFile(files[i], catalog, names)
  }

  ghost function TextsOf(files: seq<TableFile>, catalog: Catalog, names: Names): (r: seq<string>)
    requires AreReadable(files, catalog, names)
    ensures |r| == |files|
  {
    if files == [] then []
    else [FileText(TablesOf(files[0], catalog, names), files[0].tail)] + TextsOf(files[1..], catalog, names)
  }

  function KeysOf(files: seq<TableFile>): seq<Key> {
    if files == [] then [] else AllKeys(files[0].layout.groups) + KeysOf(files[1..])
  }

  /** The catalog's return type and flag of a function, and its host symbol: the alias if there is one,
      else the binding, or nothing where a struct arm names a shared constant. */
  predicate IsDescriptorOf(d: Descriptor, e: Entry, names: Names) {
    && d.irReturn == e.irReturn && d.returnsValue == e.returnsValue
    && if e.name in names.aliases then d.runtime == names.aliases[e.name]
       else d.runtime == e.binding || (d.runtime == "" && e.name in names.shared)
  }

  lemma DescriptorMatches(t: Tables, key: Key)
    requires key in t.catalog
    ensures IsDescriptorOf(DescriptorIn(t, key), t.catalog[key], t.names)
  {
  }

  /** The inventory behind some tables: what was there and the catalog's descriptors of the keys. */
  predicate IsExtended(before: Inventory, after: Inventory, keys: seq<Key>, catalog: Catalog, names: Names) {
    && (forall key :: key in keys ==> key in catalog)
    && after.Keys == before.Keys + (set key | key in keys)
    && (forall key :: key in keys && key in after ==> IsDescriptorOf(after[key], catalog[key], names))
    && forall key :: key in after && key !in keys ==> after[key] == before[key]
  }

  lemma FileExtends(read: Reader, p: Pattern, f: TableFile, catalog: Catalog, names: Names, table: Inventory)
    requires IsParser(read) && IsArmPattern(p) && IsReadableFile(f, catalog, names)
    ensures IsPair(p)
    ensures var r := Inventoried(read, table, ArmsOf(p, FileText(TablesOf(f, catalog, names), f.tail)));
            r.Some? && IsExtended(table, r.value, AllKeys(f.layout.groups), catalog, names)
  {
    var t, keys := TablesOf(f, catalog, names), AllKeys(f.layout.groups);
    KeysAreLower(f, catalog, names);
    FileHolds(read, p, t, f.tail);
    AllAreRead(read, t, table, keys, ArmsOf(p, FileText(t, f.tail)));
    ListingExtends(t, table, keys);
  }

  lemma KeysAreLower(f: TableFile, catalog: Catalog, names: Names)
    requires IsReadableFile(f, catalog, names)
    ensures AreLower(AllKeys(f.layout.groups))
  {
    var keys := AllKeys(f.layout.groups);
    forall i | 0 <= i < |keys| ensures IsLowerName(keys[i]) {
      assert keys[i] in keys;
    }
  }

  lemma ListingExtends(t: Tables, table: Inventory, keys: seq<Key>)
    requires forall key :: key in keys ==> key in t.catalog
    ensures IsExtended(table, table + CatalogPart(t, keys), keys, t.catalog, t.names)
  {
    forall key | key in keys ensures IsDescriptorOf(DescriptorIn(t, key), t.catalog[key], t.names) {
      DescriptorMatches(t, key);
    }
  }

  lemma ExtendTwice(a: Inventory, b: Inventory, c: Inventory, first: seq<Key>, rest: seq<Key>, catalog: Catalog,
                    names: Names)
    requires IsExtended(a, b, first, catalog, names) && IsExtended(b, c, rest, catalog, names)
    ensures IsExtended(a, c, first + rest, catalog, names)
  {
  }

  lemma {:induction false} FilesExtend(read: Reader, p: Pattern, files: seq<TableFile>, catalog: Catalog, names: Names,
                                       table: Inventory)
    requires IsParser(read) && IsArmPattern(p) && IsPair(p) && AreReadable(files, catalog, names)
    ensures var r := ReadAll(read, p, table, TextsOf(files, catalog, names));
            r.Some? && IsExtended(table, r.value, KeysOf(files), catalog, names)
    decreases |files|
  {
    if files != [] {
      assert IsReadableFile(files[0], catalog, names) && AreReadable(files[1..], catalog, names);
      FileExtends(read, p, files[0], catalog, names, table);
      var text := FileText(TablesOf(files[0], catalog, names), files[0].tail);
      var more := Inventoried(read, table, ArmsOf(p, text)).value;
      FilesExtend(read, p, files[1..], catalog, names, more);
      FirstText(text, TextsOf(files[1..], catalog, names));
      ExtendTwice(table, more, ReadAll(read, p, more, TextsOf(files[1..], catalog, names)).value,
                  AllKeys(files[0].layout.groups), KeysOf(files[1..]), catalog, names);
    }
  }

  lemma FirstText(text: string, texts: seq<string>)
    ensures ([text] + texts)[0] == text && ([text] + texts)[1..] == texts
  {
  }

  // ----- all together -----

  function LayoutsOf(files: seq<TableFile>): (r: seq<seq<Group>>)
    ensures |r| == |files| && forall i :: 0 <= i < |r| ==> r[i] == files[i].layout.groups
  {
    seq(|files|, i requires 0 <= i < |files| => files[i].layout.groups)
  }

  /** The files with the new functions placed. */
  function Placed(files: seq<TableFile>, order: seq<Key>, excluded: map<string, set<string>>): (r: seq<TableFile>)
    ensures |r| == |files| && LayoutsOf(r) == Place(order, LayoutsOf(files), excluded)
  {
    var groups := Place(order, LayoutsOf(files), excluded);
    seq(|files|, i requires 0 <= i < |files| => files[i].(layout := files[i].layout.(groups := groups[i])))
  }

  lemma {:induction false} FileKeysAreListed(files: seq<TableFile>, key: Key)
    ensures key in KeysOf(files) <==> IsListed(AllGroups(LayoutsOf(files)), key)
  {
    if files != [] {
      FileKeysAreListed(files[1..], key);
      KeysAreListed(files[0].layout.groups, key);
      FirstGroups(files);
      ArmCountOfTwo(files[0].layout.groups, AllGroups(LayoutsOf(files[1..])), key);
    }
  }

  lemma {:induction false} FirstGroups(files: seq<TableFile>)
    requires files != []
    ensures AllGroups(LayoutsOf(files)) == files[0].layout.groups + AllGroups(LayoutsOf(files[1..]))
  {
    var n := |files| - 1;
    if n == 0 {
      assert LayoutsOf(files)[..0] == [] && LayoutsOf(files[1..]) == [];
    } else {
      FirstGroups(files[..n]);
      assert LayoutsOf(files)[..n] == LayoutsOf(files[..n]);
      assert LayoutsOf(files[1..])[..n - 1] == LayoutsOf(files[..n][1..]);
    }
  }

  lemma PlacedListsOriginal(order: seq<Key>, files: seq<seq<Group>>, excluded: map<string, set<string>>)
    requires AreDistinct(order) && ListsOnly(AllGroups(Place(order, files, excluded)), order)
    ensures ListsOnly(AllGroups(files), order)
  {
    forall key: Key | IsListed(AllGroups(files), key) ensures key in order {
      PlacementAddsNew(order, files, excluded, key);
      assert IsListed(AllGroups(Place(order, files, excluded)), key);
    }
  }

  lemma PlacedModules(order: seq<Key>, files: seq<seq<Group>>, excluded: map<string, set<string>>)
    ensures Modules(AllGroups(Place(order, files, excluded))) == Modules(AllGroups(files))
  {
    var groups, placed := AllGroups(files), AllGroups(Place(order, files, excluded));
    PlacedGroups(order, files, excluded);
    forall i | 0 <= i < |groups| ensures placed[i].namespace == groups[i].namespace {
    }
    forall m | m in Modules(groups) ensures m in Modules(placed) {
      var i :| 0 <= i < |groups| && groups[i].namespace == Some(m);
      assert placed[i] in placed;
    }
    forall m | m in Modules(placed) ensures m in Modules(groups) {
      var i :| 0 <= i < |placed| && placed[i].namespace == Some(m);
      assert groups[i] in groups;
    }
  }

  /** The coverage check of the placed layouts is clean exactly when every owned module is
      placeable. */
  lemma PlacedCheckIsClean(order: seq<Key>, files: seq<seq<Group>>, excluded: map<string, set<string>>)
    requires AreDistinct(order) && ListsOnly(AllGroups(Place(order, files, excluded)), order)
    ensures Problems(order, AllGroups(Place(order, files, excluded)), excluded) == {}
       <==> forall m :: m in Modules(AllGroups(files)) ==> IsPlaceable(order, AllGroups(files), excluded, m)
  {
    PlacedListsOriginal(order, files, excluded);
    PlacedModules(order, files, excluded);
    CleanMeansCovered(order, AllGroups(Place(order, files, excluded)), excluded);
    forall m ensures IsCovered(order, AllGroups(Place(order, files, excluded)), excluded, m)
                <==> IsPlaceable(order, AllGroups(files), excluded, m) {
      PlacementCovers(order, files, excluded, m);
    }
  }

  /** The inventory holds exactly the catalog functions of the module that are not excluded, and
      every exclusion names a catalog function. */
  ghost predicate HoldsModule(found: Inventory, order: seq<Key>, excluded: map<string, set<string>>, m: string) {
    && (forall f :: (m, f) in found <==> (m, f) in order && f !in Excluded(excluded, m))
    && Excluded(excluded, m) <= Functions(order, m)
  }

  /** Reading the tables written for the placed layouts: every descriptor found is the catalog's,
      and a module is found as a whole exactly when it is placeable. */
  lemma CatalogSurvives(read: Reader, p: Pattern, files: seq<TableFile>, order: seq<Key>, catalog: Catalog,
                        names: Names, excluded: map<string, set<string>>)
    requires IsParser(read) && IsArmPattern(p) && AreDistinct(order) && forall key :: key in order <==> key in catalog
    requires AreReadable(Placed(files, order, excluded), catalog, names)
    ensures IsPair(p)
    ensures var r := ReadAll(read, p, map[], TextsOf(Placed(files, order, excluded), catalog, names));
            && r.Some?
            && (forall key :: key in r.value ==> key in catalog && IsDescriptorOf(r.value[key], catalog[key], names))
            && forall m :: HoldsModule(r.value, order, excluded, m)
                      <==> IsPlaceable(order, AllGroups(LayoutsOf(files)), excluded, m)
  {
    ArmIsFirmPair();
    var placed := Placed(files, order, excluded);
    FilesExtend(read, p, placed, catalog, names, map[]);
    var found := ReadAll(read, p, map[], TextsOf(placed, catalog, names)).value;
    FoundIsListed(placed, found, catalog, names);
    ModulesAreHeld(LayoutsOf(files), order, excluded, found);
  }

  lemma FoundIsListed(files: seq<TableFile>, found: Inventory, catalog: Catalog, names: Names)
    requires IsExtended(map[], found, KeysOf(files), catalog, names)
    ensures forall key :: key in found <==> IsListed(AllGroups(LayoutsOf(files)), key)
    ensures forall key :: key in found ==> key in catalog && IsDescriptorOf(found[key], catalog[key], names)
  {
    forall key ensures key in found <==> IsListed(AllGroups(LayoutsOf(files)), key) {
      FileKeysAreListed(files, key);
    }
  }

  lemma ModulesAreHeld(files: seq<seq<Group>>, order: seq<Key>, excluded: map<string, set<string>>, found: Inventory)
    requires AreDistinct(order) && forall key :: key in found ==> key in order
    requires forall key :: key in found <==> IsListed(AllGroups(Place(order, files, excluded)), key)
    ensures forall m :: HoldsModule(found, order, excluded, m) <==> IsPlaceable(order, AllGroups(files), excluded, m)
  {
    PlacedListsOriginal(order, files, excluded);
    forall m ensures HoldsModule(found, order, excluded, m) <==> IsPlaceable(order, AllGroups(files), excluded, m) {
      PlacementCovers(order, files, excluded, m);
      FoundIsCovered(order, AllGroups(Place(order, files, excluded)), excluded, m, found);
    }
  }

  lemma FoundIsCovered(order: seq<Key>, groups: seq<Group>, excluded: map<string, set<string>>, m: string,
                       found: Inventory)
    requires forall key :: key in found <==> IsListed(groups, key)
    ensures HoldsModule(found, order, excluded, m) <==> IsCovered(order, groups, excluded, m)
  {
    forall f ensures (m, f) in found <==> f in Emitted(groups, m) {
      EmittedIsListed(groups, m, f);
    }
    forall f ensures f in Functions(order, m) <==> (m, f) in order {
      FunctionIsKey(order, m, f);
    }
    if IsCovered(order, groups, excluded, m) {
      forall f ensures (m, f) in found <==> (m, f) in order && f !in Excluded(excluded, m) {
        assert f in Emitted(groups, m) <==> f in Functions(order, m) - Excluded(excluded, m);
      }
    }
    if HoldsModule(found, order, excluded, m) {
      assert Emitted(groups, m) == Functions(order, m) - Excluded(excluded, m);
    }
  }
}
