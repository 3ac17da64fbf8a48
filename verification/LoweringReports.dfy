/** What the generator's two checks report, problem by problem. */
module LoweringReports {
  import opened LoweringLayout
  import opened LoweringSourceCheck
  import opened LoweringPlacement
  import opened LoweringCoverage
  import opened LoweringCatalogRoundTrip

  // ----- the comparison with a table file -----

  /** The arm was found in another style than the layout gives it. */
  predicate IsWrong(t: Tables, m: string, arm: (string, string), name: (string, string)) {
    (m, arm.0) == name && StyleOf(t, name).Some? && StyleOf(t, name).value != arm.1
  }

  lemma {:induction false} WrongNamesAre(t: Tables, m: string, names: seq<(string, string)>, name: (string, string))
    requires WrongNames(t, m, names).Some?
    ensures WrongArm(name) in WrongNames(t, m, names).value
       <==> exists j :: 0 <= j < |names| && IsWrong(t, m, names[j], name)
  {
    if names != [] {
      var n := |names| - 1;
      WrongNamesAre(t, m, names[..n], name);
      if j :| 0 <= j < n && IsWrong(t, m, names[..n][j], name) {
        assert IsWrong(t, m, names[j], name);
      }
      if j :| 0 <= j < |names| && IsWrong(t, m, names[j], name) && j < n {
        assert IsWrong(t, m, names[..n][j], name);
      }
    }
  }

  lemma {:induction false} OnlyArms(t: Tables, m: string, names: seq<(string, string)>)
    requires WrongNames(t, m, names).Some?
    ensures forall p :: p in WrongNames(t, m, names).value ==> p.WrongArm?
  {
    if names != [] {
      OnlyArms(t, m, names[..|names| - 1]);
    }
  }

  /** Some section holds such an arm. */
  predicate HasWrong(t: Tables, sections: seq<Section>, name: (string, string)) {
    exists i :: 0 <= i < |sections| && IsWrongIn(t, sections[i], name)
  }

  predicate IsWrongIn(t: Tables, s: Section, name: (string, string)) {
    s.namespace.Some? && exists j :: 0 <= j < |s.names| && IsWrong(t, s.namespace.value, s.names[j], name)
  }

  lemma LastWrong(t: Tables, sections: seq<Section>, name: (string, string))
    requires sections != []
    ensures HasWrong(t, sections, name)
       <==> HasWrong(t, sections[..|sections| - 1], name) || IsWrongIn(t, sections[|sections| - 1], name)
  {
    var n := |sections| - 1;
    if i :| 0 <= i < n && IsWrongIn(t, sections[..n][i], name) {
      assert IsWrongIn(t, sections[i], name);
    }
    if i :| 0 <= i < |sections| && IsWrongIn(t, sections[i], name) && i < n {
      assert IsWrongIn(t, sections[..n][i], name);
    }
  }

  lemma {:induction false} WrongArmsAre(t: Tables, sections: seq<Section>, name: (string, string))
    requires WrongArms(t, sections).Some?
    ensures WrongArm(name) in WrongArms(t, sections).value <==> HasWrong(t, sections, name)
    ensures forall p :: p in WrongArms(t, sections).value ==> p.WrongArm?
  {
    if sections != [] {
      var n := |sections| - 1;
      var last := sections[n];
      WrongArmsAre(t, sections[..n], name);
      LastWrong(t, sections, name);
      if last.namespace.Some? {
        WrongNamesAre(t, last.namespace.value, last.names, name);
        OnlyArms(t, last.namespace.value, last.names);
      }
    }
  }

  /** Each kind of mismatch is reported exactly when there is one; single arms only if the groups agree. */
  lemma MismatchesAre(t: Tables, found: Extracted, name: (string, string))
    requires Mismatches(t, found).Some?
    ensures var r := Mismatches(t, found).value;
            && (WrongFunction in r <==> found.lookup != t.layout.lookup)
            && (WrongStyle in r <==> found.style != t.layout.style)
            && (WrongGroups in r <==> !SameListings(found.sections, t.layout.groups))
            && (WrongArm(name) in r
                <==> SameListings(found.sections, t.layout.groups) && HasWrong(t, found.sections, name))
  {
    if SameListings(found.sections, t.layout.groups) {
      WrongArmsAre(t, found.sections, name);
    }
  }

  // ----- the coverage check -----

  lemma ProblemOf(catalog: seq<Key>, groups: seq<Group>, excluded: map<string, set<string>>, p: Problem)
    ensures p in Problems(catalog, groups, excluded)
       <==> p.namespace in Modules(groups) && p in ProblemsOf(catalog, groups, excluded, p.namespace)
  {
  }

  lemma SetsOf(catalog: seq<Key>, groups: seq<Group>, m: string)
    ensures forall f :: f in Functions(catalog, m) <==> (m, f) in catalog
    ensures forall f :: f in Emitted(groups, m) <==> IsListed(groups, (m, f))
  {
    forall f ensures f in Functions(catalog, m) <==> (m, f) in catalog {
      FunctionIsKey(catalog, m, f);
    }
    forall f ensures f in Emitted(groups, m) <==> IsListed(groups, (m, f)) {
      EmittedIsListed(groups, m, f);
    }
  }

  /** Of every module with a group: the catalog functions that are neither listed nor excluded are
      missing, exclusions that name no catalog function are stale, and functions that are listed and
      excluded are both. */
  lemma ProblemsAre(catalog: seq<Key>, groups: seq<Group>, excluded: map<string, set<string>>, m: string,
                    names: set<string>)
    ensures var r, out := Problems(catalog, groups, excluded), Excluded(excluded, m);
            && (Missing(m, names) in r <==>
                  && m in Modules(groups) && names != {}
                  && forall f :: f in names <==> (m, f) in catalog && !IsListed(groups, (m, f)) && f !in out)
            && (Stale(m, names) in r <==>
                  && m in Modules(groups) && names != {}
                  && forall f :: f in names <==> f in out && (m, f) !in catalog)
            && (Both(m, names) in r <==>
                  && m in Modules(groups) && names != {}
                  && forall f :: f in names <==> IsListed(groups, (m, f)) && f in out)
  {
    var out := Excluded(excluded, m);
    ProblemOf(catalog, groups, excluded, Missing(m, names));
    ProblemOf(catalog, groups, excluded, Stale(m, names));
    ProblemOf(catalog, groups, excluded, Both(m, names));
    SetsOf(catalog, groups, m);
    var entries, emitted := Functions(catalog, m), Emitted(groups, m);
    assert names == entries - emitted - out <==>
      forall f :: f in names <==> (m, f) in catalog && !IsListed(groups, (m, f)) && f !in out;
    assert names == out - entries <==> forall f :: f in names <==> f in out && (m, f) !in catalog;
    assert names == emitted * out <==> forall f :: f in names <==> IsListed(groups, (m, f)) && f in out;
  }
}
