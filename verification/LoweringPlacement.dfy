/** Placing catalog functions that no layout lists (`place_new_functions`) and checking that the
    layouts cover the catalog (`check_coverage`). */
module LoweringPlacement {
  import opened Wrappers
  import opened LoweringLayout

  /** The functions of a module that other lowerings own. */
  function Excluded(excluded: map<string, set<string>>, m: string): set<string> {
    if m in excluded then excluded[m] else {}
  }

  // ----- what a list of groups holds -----

  /** How many groups a module occupies. */
  function GroupCount(groups: seq<Group>, m: string): nat {
    if groups == [] then 0
    else GroupCount(groups[..|groups| - 1], m) + if groups[|groups| - 1].namespace == Some(m) then 1 else 0
  }

  function ItemCount(items: seq<Item>, name: string): nat {
    if items == [] then 0
    else ItemCount(items[..|items| - 1], name) + if items[|items| - 1].name == name then 1 else 0
  }

  /** How many arms the groups list for a function. */
  function ArmCount(groups: seq<Group>, key: Key): nat {
    if groups == [] then 0
    else
      var last := groups[|groups| - 1];
      ArmCount(groups[..|groups| - 1], key) + if last.namespace == Some(key.0) then ItemCount(last.items, key.1) else 0
  }

  predicate IsListed(groups: seq<Group>, key: Key) {
    ArmCount(groups, key) > 0
  }

  ghost predicate HasNoDuplicates(groups: seq<Group>) {
    forall key: Key :: ArmCount(groups, key) <= 1
  }

  // ----- placing -----

  /** A function to be placed: not excluded, not listed, and its module has exactly one group. */
  predicate IsNew(groups: seq<Group>, excluded: map<string, set<string>>, key: Key) {
    key.1 !in Excluded(excluded, key.0) && !IsListed(groups, key) && GroupCount(groups, key.0) == 1
  }

  /** The new functions of a module, in catalog order. */
  function Fresh(catalog: seq<Key>, groups: seq<Group>, excluded: map<string, set<string>>, m: string): seq<Item> {
    if catalog == [] then []
    else
      var key := catalog[|catalog| - 1];
      Fresh(catalog[..|catalog| - 1], groups, excluded, m)
      + if key.0 == m && IsNew(groups, excluded, key) then [Item(key.1, None)] else []
  }

  function Extend(catalog: seq<Key>, groups: seq<Group>, excluded: map<string, set<string>>, g: Group): Group {
    if g.namespace.None? then g
    else g.(items := g.items + Fresh(catalog, groups, excluded, g.namespace.value))
  }

  /** Some groups, each extended by what is new among all `groups`. */
  function ExtendAll(catalog: seq<Key>, groups: seq<Group>, excluded: map<string, set<string>>,
                     some: seq<Group>): (r: seq<Group>)
    ensures |r| == |some|
    ensures forall i :: 0 <= i < |r| ==> r[i] == Extend(catalog, groups, excluded, some[i])
  {
    seq(|some|, i requires 0 <= i < |some| => Extend(catalog, groups, excluded, some[i]))
  }

  /** The groups of all files, end to end. */
  function AllGroups(files: seq<seq<Group>>): seq<Group> {
    if files == [] then [] else AllGroups(files[..|files| - 1]) + files[|files| - 1]
  }

  /** `place_new_functions` on the groups of every file. */
  function Place(catalog: seq<Key>, files: seq<seq<Group>>, excluded: map<string, set<string>>): (r: seq<seq<Group>>)
    ensures |r| == |files|
    ensures forall i :: 0 <= i < |r| ==> r[i] == ExtendAll(catalog, AllGroups(files), excluded, files[i])
  {
    seq(|files|, i requires 0 <= i < |files| => ExtendAll(catalog, AllGroups(files), excluded, files[i]))
  }

  // ----- checking -----

  datatype Problem =
    | Missing(namespace: string, names: set<string>)
    | Stale(namespace: string, names: set<string>)
    | Both(namespace: string, names: set<string>)

  /** The catalog functions of a module. */
  function Functions(catalog: seq<Key>, m: string): set<string> {
    set key | key in catalog && key.0 == m :: key.1
  }

  function NamesOf(items: seq<Item>): set<string> {
    set item | item in items :: item.name
  }

  /** The functions the groups list for a module. */
  function Emitted(groups: seq<Group>, m: string): set<string> {
    if groups == [] then {}
    else
      var last := groups[|groups| - 1];
      Emitted(groups[..|groups| - 1], m) + if last.namespace == Some(m) then NamesOf(last.items) else {}
  }

  function Modules(groups: seq<Group>): set<string> {
    set g | g in groups && g.namespace.Some? :: g.namespace.value
  }

  function ProblemsOf(catalog: seq<Key>, groups: seq<Group>, excluded: map<string, set<string>>,
                      m: string): set<Problem> {
    var entries, emitted, out := Functions(catalog, m), Emitted(groups, m), Excluded(excluded, m);
    (if entries - emitted - out != {} then {Missing(m, entries - emitted - out)} else {})
    + (if out - entries != {} then {Stale(m, out - entries)} else {})
    + if emitted * out != {} then {Both(m, emitted * out)} else {}
  }

  /** `check_coverage`, as the set of problems it reports. */
  function Problems(catalog: seq<Key>, groups: seq<Group>, excluded: map<string, set<string>>): set<Problem> {
    set m, p | m in Modules(groups) && p in ProblemsOf(catalog, groups, excluded, m) :: p
  }

  // ----- the loops -----

  datatype Spot = Spot(file: nat, group: nat)

  /** What the first loop collects: the places of each module's groups and its listed names. */
  datatype Slots = Slots(places: map<string, seq<Spot>>, listed: map<string, set<string>>)

  function PlacesOf(s: Slots, m: string): seq<Spot> { if m in s.places then s.places[m] else [] }

  function ListedIn(s: Slots, m: string): set<string> { if m in s.listed then s.listed[m] else {} }

  predicate IsPlace(files: seq<seq<Group>>, m: string, p: Spot) {
    p.file < |files| && p.group < |files[p.file]| && files[p.file][p.group].namespace == Some(m)
  }

  predicate IsBefore(p: Spot, i: nat, j: nat) {
    p.file < i || (p.file == i && p.group < j)
  }

  /** The places in front of group `j` of file `i`. */
  ghost predicate ArePlaces(files: seq<seq<Group>>, s: Slots, i: nat, j: nat) {
    forall m, p :: p in PlacesOf(s, m) <==> IsPlace(files, m, p) && IsBefore(p, i, j)
  }

  ghost predicate AreCounts(s: Slots, groups: seq<Group>) {
    && (forall m :: |PlacesOf(s, m)| == GroupCount(groups, m))
    && (forall m, f :: f in ListedIn(s, m) <==> IsListed(groups, (m, f)))
    && (forall m :: m in s.places ==> s.places[m] != [])
  }

  method AddGroup(s: Slots, g: Group, p: Spot) returns (r: Slots)
    ensures forall m :: PlacesOf(r, m) == PlacesOf(s, m) + if g.namespace == Some(m) then [p] else []
    ensures forall m :: ListedIn(r, m) == ListedIn(s, m) + if g.namespace == Some(m) then NamesOf(g.items) else {}
    ensures forall m :: m in r.places <==> m in s.places || g.namespace == Some(m)
  {
    if g.namespace.None? {
      return s;
    }
    var m := g.namespace.value;
    r := Slots(s.places[m := PlacesOf(s, m) + [p]], s.listed[m := ListedIn(s, m) + NamesOf(g.items)]);
  }

  lemma {:induction false} NamesAreCounted(items: seq<Item>, name: string)
    ensures name in NamesOf(items) <==> ItemCount(items, name) > 0
  {
    if items != [] {
      var n := |items| - 1;
      NamesAreCounted(items[..n], name);
      assert items == items[..n] + [items[n]];
      assert NamesOf(items) == NamesOf(items[..n]) + {items[n].name};
    }
  }

  lemma CountsWithGroup(s: Slots, r: Slots, groups: seq<Group>, g: Group, p: Spot)
    requires AreCounts(s, groups)
    requires forall m :: PlacesOf(r, m) == PlacesOf(s, m) + if g.namespace == Some(m) then [p] else []
    requires forall m :: ListedIn(r, m) == ListedIn(s, m) + if g.namespace == Some(m) then NamesOf(g.items) else {}
    requires forall m :: m in r.places <==> m in s.places || g.namespace == Some(m)
    ensures AreCounts(r, groups + [g])
  {
    var more := groups + [g];
    assert more[..|more| - 1] == groups;
    forall m, f ensures f in ListedIn(r, m) <==> IsListed(more, (m, f)) {
      NamesAreCounted(g.items, f);
    }
    forall m | m in r.places ensures r.places[m] != [] {
      assert PlacesOf(r, m) == r.places[m] && (m in s.places ==> PlacesOf(s, m) == s.places[m]);
    }
  }

  lemma PlacesWithGroup(files: seq<seq<Group>>, s: Slots, r: Slots, i: nat, j: nat)
    requires i < |files| && j < |files[i]| && ArePlaces(files, s, i, j)
    requires forall m ::
      PlacesOf(r, m) == PlacesOf(s, m) + if files[i][j].namespace == Some(m) then [Spot(i, j)] else []
    ensures ArePlaces(files, r, i, j + 1)
  {
    forall m, p ensures p in PlacesOf(r, m) <==> IsPlace(files, m, p) && IsBefore(p, i, j + 1) {
      assert p in PlacesOf(s, m) <==> IsPlace(files, m, p) && IsBefore(p, i, j);
      assert IsBefore(p, i, j + 1) <==> IsBefore(p, i, j) || p == Spot(i, j);
      assert p in PlacesOf(r, m) <==> p in PlacesOf(s, m) || (files[i][j].namespace == Some(m) && p == Spot(i, j));
    }
  }

  method AddFile(files: seq<seq<Group>>, i: nat, s: Slots, ghost groups: seq<Group>) returns (r: Slots)
    requires i < |files| && ArePlaces(files, s, i, 0) && AreCounts(s, groups)
    ensures ArePlaces(files, r, i + 1, 0) && AreCounts(r, groups + files[i])
  {
    r := s;
    var j := 0;
    assert groups + files[i][..0] == groups;
    while j < |files[i]|
      invariant 0 <= j <= |files[i]|
      invariant ArePlaces(files, r, i, j) && AreCounts(r, groups + files[i][..j])
    {
      var next := AddGroup(r, files[i][j], Spot(i, j));
      CountsWithGroup(r, next, groups + files[i][..j], files[i][j], Spot(i, j));
      PlacesWithGroup(files, r, next, i, j);
      assert groups + files[i][..j] + [files[i][j]] == groups + files[i][..j + 1];
      r := next;
      j := j + 1;
    }
    assert files[i][..j] == files[i];
    FileIsDone(files, r, i);
  }

  lemma FileIsDone(files: seq<seq<Group>>, s: Slots, i: nat)
    requires i < |files| && ArePlaces(files, s, i, |files[i]|)
    ensures ArePlaces(files, s, i + 1, 0)
  {
    forall m, p ensures p in PlacesOf(s, m) <==> IsPlace(files, m, p) && IsBefore(p, i + 1, 0) {
      assert IsPlace(files, m, p) ==> (IsBefore(p, i, |files[i]|) <==> IsBefore(p, i + 1, 0));
    }
  }

  method CollectSlots(files: seq<seq<Group>>) returns (s: Slots)
    ensures ArePlaces(files, s, |files|, 0) && AreCounts(s, AllGroups(files))
  {
    s := Slots(map[], map[]);
    var i := 0;
    while i < |files|
      invariant 0 <= i <= |files|
      invariant ArePlaces(files, s, i, 0) && AreCounts(s, AllGroups(files[..i]))
    {
      s := AddFile(files, i, s, AllGroups(files[..i]));
      assert files[..i + 1][..i] == files[..i];
      i := i + 1;
    }
    assert files[..i] == files;
  }

  /** The second loop adds this function, and where. */
  predicate IsAdded(s: Slots, excluded: map<string, set<string>>, key: Key, p: Spot) {
    key.1 !in Excluded(excluded, key.0) && key.1 !in ListedIn(s, key.0) && PlacesOf(s, key.0) == [p]
  }

  /** The functions the second loop adds at a place. */
  function AddedAt(catalog: seq<Key>, s: Slots, excluded: map<string, set<string>>, p: Spot): seq<Item> {
    if catalog == [] then []
    else
      var key := catalog[|catalog| - 1];
      AddedAt(catalog[..|catalog| - 1], s, excluded, p)
        + if IsAdded(s, excluded, key, p) then [Item(key.1, None)] else []
  }

  function Additions(additions: map<Spot, seq<Item>>, p: Spot): seq<Item> {
    if p in additions then additions[p] else []
  }

  method AddFunction(additions: map<Spot, seq<Item>>, s: Slots, excluded: map<string, set<string>>, key: Key)
    returns (r: map<Spot, seq<Item>>)
    ensures forall p :: Additions(r, p)
                     == Additions(additions, p) + if IsAdded(s, excluded, key, p) then [Item(key.1, None)] else []
  {
    r := additions;
    if key.1 !in Excluded(excluded, key.0) && key.1 !in ListedIn(s, key.0) && |PlacesOf(s, key.0)| == 1 {
      var p := PlacesOf(s, key.0)[0];
      assert PlacesOf(s, key.0) == [p];
      r := additions[p := Additions(additions, p) + [Item(key.1, None)]];
    }
  }

  ghost predicate AreAdditions(additions: map<Spot, seq<Item>>, catalog: seq<Key>, s: Slots,
                               excluded: map<string, set<string>>) {
    forall p :: Additions(additions, p) == AddedAt(catalog, s, excluded, p)
  }

  method CollectAdditions(catalog: seq<Key>, s: Slots, excluded: map<string, set<string>>)
    returns (additions: map<Spot, seq<Item>>)
    ensures AreAdditions(additions, catalog, s, excluded)
  {
    additions := map[];
    var k := 0;
    while k < |catalog|
      invariant 0 <= k <= |catalog|
      invariant AreAdditions(additions, catalog[..k], s, excluded)
    {
      var next := AddFunction(additions, s, excluded, catalog[k]);
      WithFunction(additions, next, catalog, s, excluded, k);
      additions := next;
      k := k + 1;
    }
    assert catalog[..k] == catalog;
  }

  lemma WithFunction(additions: map<Spot, seq<Item>>, next: map<Spot, seq<Item>>, catalog: seq<Key>, s: Slots,
                     excluded: map<string, set<string>>, k: nat)
    requires k < |catalog| && AreAdditions(additions, catalog[..k], s, excluded)
    requires forall p :: Additions(next, p)
                      == Additions(additions, p)
                         + if IsAdded(s, excluded, catalog[k], p) then [Item(catalog[k].1, None)] else []
    ensures AreAdditions(next, catalog[..k + 1], s, excluded)
  {
    assert catalog[..k + 1][..k] == catalog[..k];
  }

  /** At a group's place the loops add what is new for its module. */
  lemma {:induction false} AddedIsFresh(catalog: seq<Key>, files: seq<seq<Group>>, s: Slots,
                                        excluded: map<string, set<string>>, p: Spot)
    requires ArePlaces(files, s, |files|, 0) && AreCounts(s, AllGroups(files))
    requires p.file < |files| && p.group < |files[p.file]|
    ensures var g := files[p.file][p.group];
            AddedAt(catalog, s, excluded, p)
            == if g.namespace.None? then [] else Fresh(catalog, AllGroups(files), excluded, g.namespace.value)
  {
    if catalog != [] {
      var n := |catalog| - 1;
      AddedIsFresh(catalog[..n], files, s, excluded, p);
      OnlyPlace(files, s, catalog[n].0, p);
    }
  }

  /** A module with one group has it at `p` exactly when the group at `p` is the module's. */
  lemma OnlyPlace(files: seq<seq<Group>>, s: Slots, m: string, p: Spot)
    requires ArePlaces(files, s, |files|, 0) && AreCounts(s, AllGroups(files))
    requires p.file < |files| && p.group < |files[p.file]|
    ensures PlacesOf(s, m) == [p]
       <==> files[p.file][p.group].namespace == Some(m) && GroupCount(AllGroups(files), m) == 1
  {
    assert p in PlacesOf(s, m) <==> IsPlace(files, m, p);
    if PlacesOf(s, m) == [p] {
      assert p in PlacesOf(s, m);
    }
  }

  method ExtendFile(catalog: seq<Key>, files: seq<seq<Group>>, excluded: map<string, set<string>>,
                    additions: map<Spot, seq<Item>>, ghost s: Slots, i: nat) returns (r: seq<Group>)
    requires i < |files| && ArePlaces(files, s, |files|, 0) && AreCounts(s, AllGroups(files))
    requires AreAdditions(additions, catalog, s, excluded)
    ensures r == ExtendAll(catalog, AllGroups(files), excluded, files[i])
  {
    r := [];
    var j := 0;
    while j < |files[i]|
      invariant 0 <= j <= |files[i]| && |r| == j
      invariant forall k :: 0 <= k < j ==> r[k] == Extend(catalog, AllGroups(files), excluded, files[i][k])
    {
      var g := files[i][j];
      AddedIsFresh(catalog, files, s, excluded, Spot(i, j));
      r := r + [g.(items := g.items + Additions(additions, Spot(i, j)))];
      assert g.items + [] == g.items;
      j := j + 1;
    }
  }

  method PlaceNewFunctions(catalog: seq<Key>, files: seq<seq<Group>>, excluded: map<string, set<string>>)
    returns (placed: seq<seq<Group>>)
    ensures placed == Place(catalog, files, excluded)
  {
    var s := CollectSlots(files);
    var additions := CollectAdditions(catalog, s, excluded);
    placed := [];
    var i := 0;
    while i < |files|
      invariant 0 <= i <= |files| && |placed| == i
      invariant forall k :: 0 <= k < i ==> placed[k] == ExtendAll(catalog, AllGroups(files), excluded, files[k])
    {
      var file := ExtendFile(catalog, files, excluded, additions, s, i);
      placed := placed + [file];
      i := i + 1;
    }
  }
}
