/** Where placed functions end up in their group. */
module LoweringOrder {
  import opened Wrappers
  import opened LoweringLayout
  import opened LoweringPlacement

  /** The indices pick, in increasing order, exactly the new functions of a module. */
  ghost predicate PicksNew(at: seq<nat>, catalog: seq<Key>, groups: seq<Group>, excluded: map<string, set<string>>,
                           m: string) {
    && (forall i :: 0 <= i < |at| ==> at[i] < |catalog|)
    && (forall i, j :: 0 <= i < j < |at| ==> at[i] < at[j])
    && (forall k :: 0 <= k < |catalog| ==> (k in at <==> catalog[k].0 == m && IsNew(groups, excluded, catalog[k])))
  }

  /** The items are the picked functions, without a style of their own. */
  predicate AreItems(items: seq<Item>, at: seq<nat>, catalog: seq<Key>) {
    |items| == |at| && forall i :: 0 <= i < |at| ==> at[i] < |catalog| && items[i] == Item(catalog[at[i]].1, None)
  }

  lemma {:induction false} FreshInOrder(catalog: seq<Key>, groups: seq<Group>, excluded: map<string, set<string>>,
                                        m: string) returns (at: seq<nat>)
    ensures PicksNew(at, catalog, groups, excluded, m)
    ensures AreItems(Fresh(catalog, groups, excluded, m), at, catalog)
  {
    if catalog == [] {
      at := [];
    } else {
      var n := |catalog| - 1;
      var before := FreshInOrder(catalog[..n], groups, excluded, m);
      var taken := catalog[n].0 == m && IsNew(groups, excluded, catalog[n]);
      at := if taken then before + [n] else before;
      OneMorePick(before, at, catalog, groups, excluded, m);
      ItemsOneMore(Fresh(catalog[..n], groups, excluded, m), before, at, catalog, taken);
    }
  }

  lemma OneMorePick(before: seq<nat>, at: seq<nat>, catalog: seq<Key>, groups: seq<Group>,
                    excluded: map<string, set<string>>, m: string)
    requires catalog != [] && PicksNew(before, catalog[..|catalog| - 1], groups, excluded, m)
    requires at == if catalog[|catalog| - 1].0 == m && IsNew(groups, excluded, catalog[|catalog| - 1])
                   then before + [|catalog| - 1] else before
    ensures PicksNew(at, catalog, groups, excluded, m)
  {
    var n := |catalog| - 1;
    forall k | 0 <= k < |catalog|
      ensures k in at <==> catalog[k].0 == m && IsNew(groups, excluded, catalog[k])
    {
      if k < n {
        assert catalog[..n][k] == catalog[k];
      } else {
        assert n !in before;
      }
    }
  }

  lemma ItemsOneMore(items: seq<Item>, before: seq<nat>, at: seq<nat>, catalog: seq<Key>, taken: bool)
    requires catalog != [] && AreItems(items, before, catalog[..|catalog| - 1])
    requires at == if taken then before + [|catalog| - 1] else before
    ensures AreItems(items + if taken then [Item(catalog[|catalog| - 1].1, None)] else [], at, catalog)
  {
  }

  /** Placement keeps files, groups, banners and the listed functions in their order; behind those of
      a group come the new functions of its module, in catalog order. */
  lemma PlacementKeepsOrder(catalog: seq<Key>, files: seq<seq<Group>>, excluded: map<string, set<string>>, i: nat,
                            j: nat) returns (at: seq<nat>)
    requires i < |files| && j < |files[i]|
    ensures var placed := Place(catalog, files, excluded);
            && |placed| == |files| && |placed[i]| == |files[i]|
            && var g, h := files[i][j], placed[i][j];
               && h.namespace == g.namespace && h.banner == g.banner && |g.items| <= |h.items|
               && h.items[..|g.items|] == g.items
               && (g.namespace.None? ==> h.items == g.items)
               && (g.namespace.Some? ==>
                     && PicksNew(at, catalog, AllGroups(files), excluded, g.namespace.value)
                     && AreItems(h.items[|g.items|..], at, catalog))
  {
    var g := files[i][j];
    at := [];
    if g.namespace.Some? {
      at := FreshInOrder(catalog, AllGroups(files), excluded, g.namespace.value);
      var added := Fresh(catalog, AllGroups(files), excluded, g.namespace.value);
      assert (g.items + added)[|g.items|..] == added;
    }
  }
}
