/** What the arrow pass writes for a line, spelled out. */
module SurfaceArmTexts {
  import opened Wrappers
  import opened PythonText
  import opened SurfaceArrows

  /** A text without whitespace around it, and the whitespace behind it. */
  predicate IsCore(core: string, trail: string) {
    AreSpaces(trail) && if core == [] then trail == [] else !IsSpace(core[0]) && !IsSpace(core[|core| - 1])
  }

  lemma {:induction false} IndentIsCounted(indent: string, rest: string)
    requires AreSpaces(indent) && (rest == [] || !IsSpace(rest[0]))
    ensures SpaceRun(indent + rest) == |indent|
  {
    if indent == [] {
      assert indent + rest == rest;
    } else {
      assert (indent + rest)[1..] == indent[1..] + rest;
      IndentIsCounted(indent[1..], rest);
    }
  }

  lemma {:induction false} TrailIsStripped(core: string, trail: string)
    requires IsCore(core, trail)
    ensures StripRight(core + trail) == core
    decreases |trail|
  {
    var s := core + trail;
    if trail == [] {
      assert s == core;
    } else {
      assert s[|s| - 1] == trail[|trail| - 1];
      assert s[..|s| - 1] == core + trail[..|trail| - 1];
      TrailIsStripped(core, trail[..|trail| - 1]);
    }
  }

  lemma CoreIsStripped(indent: string, core: string, trail: string)
    requires AreSpaces(indent) && IsCore(core, trail)
    ensures var before := indent + (core + trail);
            Strip(before) == core && before[..SpaceRun(before)] == indent
  {
    var before := indent + (core + trail);
    IndentIsCounted(indent, core + trail);
    assert before[|indent|..] == core + trail;
    TrailIsStripped(core, trail);
  }

  /** The pattern of an arm and what is written for it. */
  predicate IsArmText(indent: string, core: string, trail: string, arm: string) {
    if core == "_" || core == "default" || core == "otherwise" then arm == indent + "otherwise then"
    else if "case " <= core || "else " <= core then arm == indent + (core + trail) + ":"
    else if "when " <= core || "otherwise " <= core then arm == indent + (core + trail) + "then"
    else arm == indent + "when " + core + " then"
  }

  lemma ArmIsText(indent: string, core: string, trail: string, arm: string)
    requires AreSpaces(indent) && IsCore(core, trail) && IsArmText(indent, core, trail, arm)
    ensures Arm(indent + (core + trail)) == arm
  {
    CoreIsStripped(indent, core, trail);
    ArmOfCore(indent, core, trail, arm, indent + (core + trail));
  }

  lemma PrefixesAgree(s: string, p: string)
    ensures StartsWith(s, p) <==> p <= s
  {
  }

  /** None of the whole patterns is one of the prefixes. */
  lemma WholeIsNoPrefix(core: string)
    requires core == "_" || core == "default" || core == "otherwise"
    ensures !StartsWith(core, "case ") && !StartsWith(core, "else ") && !StartsWith(core, "when ")
    ensures !StartsWith(core, "otherwise ")
  {
    if |core| >= 5 {
      OtherHead(core, "case ", 0);
      OtherHead(core, "else ", 0);
      OtherHead(core, "when ", 0);
    }
  }

  lemma ArmOfCore(indent: string, core: string, trail: string, arm: string, before: string)
    requires IsArmText(indent, core, trail, arm) && before == indent + (core + trail)
    requires Strip(before) == core && before[..SpaceRun(before)] == indent
    ensures Arm(before) == arm
  {
    PrefixesAgree(core, "case ");
    PrefixesAgree(core, "else ");
    PrefixesAgree(core, "when ");
    PrefixesAgree(core, "otherwise ");
    if core == "_" || core == "default" || core == "otherwise" {
      WholeIsNoPrefix(core);
    }
  }

  lemma MarkIsFirst(before: string, mark: string, rest: string)
    requires mark != [] && Find(before + mark, mark) == Some(|before|)
    ensures Find(before + mark + rest, mark) == Some(|before|)
  {
    var s, n := before + mark + rest, |before + mark|;
    assert s[..n] == before + mark;
    FoundEarly(s, n, mark);
    FirstFound(s, mark);
    FirstFound(before + mark, mark);
    forall j | 0 <= j < |before| ensures !StartsWith(s[j..], mark) {
      assert (before + mark)[j..][..|mark|] == s[j..][..|mark|];
    }
    assert s[|before|..][..|mark|] == mark;
  }

  /** The arm of a line whose first marker stands behind indentation, a pattern and whitespace: `_`,
      `default` and `otherwise` become `otherwise then`; arms of `switch` take a colon; arms that are
      modern already take `then`; every other pattern is put between `when` and `then`. */
  lemma LineIsWritten(indent: string, core: string, trail: string, mark: string, after: string, arm: string)
    requires AreSpaces(indent) && IsCore(core, trail) && mark != [] && '\n' !in mark && '\n' !in after
    requires Find(indent + (core + trail) + mark, mark) == Some(|indent + (core + trail)|)
    requires IsArmText(indent, core, trail, arm)
    ensures var line := indent + (core + trail) + mark + after;
            && NormalizeLine(line, mark) == arm + after
            && NormalizeLine(line + "\n", mark) == arm + after + "\n"
  {
    var before := indent + (core + trail);
    var line := before + mark + after;
    ArmIsText(indent, core, trail, arm);
    MarkIsFirst(before, mark, after);
    assert line[..|before|] == before && line[|before| + |mark|..] == after;
    assert line[|line| - 1] == (mark + after)[|mark + after| - 1];
    LineAndFeed(line);
    assert (arm + after) + "" == arm + after;
  }

  lemma LineAndFeed(line: string)
    requires line != [] && line[|line| - 1] != '\n'
    ensures Body(line) == line && Feed(line) == ""
    ensures Body(line + "\n") == line && Feed(line + "\n") == "\n"
  {
    assert line[|line| - 1..] == [line[|line| - 1]];
    var fed := line + "\n";
    assert fed[|fed| - 1..] == "\n" && fed[..|fed| - 1] == line;
  }
}
