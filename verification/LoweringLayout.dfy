/** Writing a table file from its layout (`arm_style`, `render_file`) and recovering the
    layout from the file's lines (`extract_layout`). */
module LoweringLayout {
  import opened Wrappers
  import opened PythonText
  import opened LoweringText
  import opened LoweringArms

  // ----- layouts -----

  /** A listed function, with the style its `@` marker prescribes. */
  datatype Item = Item(name: string, marker: Option<string>)

  /** A run of arms of one module behind the lines of an optional banner. */
  datatype Group = Group(namespace: Option<string>, items: seq<Item>, banner: seq<string>)

  /** The file's comment header, the name of its lookup function, its style and its groups. */
  datatype FileLayout = FileLayout(header: seq<string>, lookup: string, style: string, groups: seq<Group>)

  /** A module and a function of it. */
  type Key = (string, string)

  type Catalog = map<Key, Entry>

  function FindItem(name: string, items: seq<Item>): (r: Option<Item>)
    ensures r.Some? ==> r.value in items && r.value.name == name
  {
    if items == [] then None
    else if items[0].name == name then Some(items[0])
    else FindItem(name, items[1..])
  }

  /** `arm_style`: the first listing of the function decides; `None` where it raises. */
  function ArmStyle(groups: seq<Group>, fileStyle: string, catalog: Catalog, name: (string, string)): Option<string> {
    if groups == [] then None
    else if groups[0].namespace == Some(name.0) && FindItem(name.1, groups[0].items).Some? then
      var item := FindItem(name.1, groups[0].items).value;
      if item.marker.Some? then item.marker
      else if name !in catalog then None
      else Some(DefaultStyle(fileStyle, catalog[name]))
    else ArmStyle(groups[1..], fileStyle, catalog, name)
  }

  // ----- writing -----

  datatype Tables = Tables(layout: FileLayout, catalog: Catalog, names: Names)

  function StyleOf(t: Tables, name: (string, string)): Option<string> {
    ArmStyle(t.layout.groups, t.layout.style, t.catalog, name)
  }

  /** The lines of one listed function; `None` where rendering raises. */
  function RenderItem(t: Tables, namespace: Option<string>, item: Item): Option<seq<string>> {
    if namespace.None? || (namespace.value, item.name) !in t.catalog then None
    else
      var name := (namespace.value, item.name);
      var style := StyleOf(t, name);
      if style.None? then None
      else
        var arm := EmitArm(t.catalog[name], style.value, t.names);
        if arm.None? then None else Some(LineTexts(arm.value))
  }

  function RenderItems(t: Tables, namespace: Option<string>, items: seq<Item>): Option<seq<string>> {
    if items == [] then Some([])
    else
      var first, rest := RenderItem(t, namespace, items[0]), RenderItems(t, namespace, items[1..]);
      if first.None? || rest.None? then None else Some(first.value + rest.value)
  }

  function RenderGroups(t: Tables, groups: seq<Group>): Option<seq<string>> {
    if groups == [] then Some([])
    else
      var first := RenderItems(t, groups[0].namespace, groups[0].items);
      var rest := RenderGroups(t, groups[1..]);
      if first.None? || rest.None? then None else Some(groups[0].banner + first.value + rest.value)
  }

  function Onto(lines: seq<string>, more: Option<seq<string>>): Option<seq<string>> {
    if more.None? then None else Some(lines + more.value)
  }

  /** The lines so far and those of the items from `i` on. */
  ghost function Completed(t: Tables, group: Group, i: nat, lines: seq<string>): Option<seq<string>>
    requires i <= |group.items|
  {
    Onto(lines, RenderItems(t, group.namespace, group.items[i..]))
  }

  lemma OneMoreItem(t: Tables, group: Group, i: nat, lines: seq<string>, arm: Option<seq<string>>)
    requires i < |group.items| && arm == RenderItem(t, group.namespace, group.items[i])
    ensures Completed(t, group, i, lines) == if arm.None? then None else Completed(t, group, i + 1, lines + arm.value)
  {
    assert group.items[i..][1..] == group.items[i + 1..];
    if arm.Some? {
      LinesRegroup(lines, arm.value, RenderItems(t, group.namespace, group.items[i + 1..]));
    }
  }

  lemma AllItems(t: Tables, group: Group, lines: seq<string>)
    ensures Completed(t, group, |group.items|, lines) == Some(lines)
    ensures Completed(t, group, 0, lines) == Onto(lines, RenderItems(t, group.namespace, group.items))
  {
    assert group.items[|group.items|..] == [] && lines + [] == lines;
    assert group.items[0..] == group.items;
  }

  method RenderGroup(t: Tables, group: Group, before: seq<string>) returns (r: Option<seq<string>>)
    ensures r == Onto(before + group.banner, RenderItems(t, group.namespace, group.items))
  {
    var lines := before + group.banner;
    ghost var goal := Completed(t, group, 0, lines);
    AllItems(t, group, lines);
    var i := 0;
    while i < |group.items|
      invariant 0 <= i <= |group.items|
      invariant Completed(t, group, i, lines) == goal
    {
      var arm := RenderItem(t, group.namespace, group.items[i]);
      OneMoreItem(t, group, i, lines, arm);
      if arm.None? {
        return None;
      }
      lines := lines + arm.value;
      i := i + 1;
    }
    AllItems(t, group, lines);
    r := Some(lines);
  }

  lemma LinesRegroup(a: seq<string>, b: seq<string>, c: Option<seq<string>>)
    ensures c.Some? ==> a + (b + c.value) == (a + b) + c.value
  {
  }

  function MatchText(): string { "match (module, function) {" }

  function MatchLine(): string { Spaces(4) + MatchText() }

  function EndText(): string { "_ => None," }

  function Commented(texts: seq<string>): (r: seq<string>)
    ensures |r| == |texts| && forall i :: 0 <= i < |r| ==> r[i] == "//" + texts[i]
  {
    seq(|texts|, i requires 0 <= i < |texts| => "//" + texts[i])
  }

  function Declares(): string { "pub(crate) fn " }

  function Signature(name: string): seq<string> {
    [Declares() + name + "(",
     Spaces(4) + "module: &str,",
     Spaces(4) + "function: &str,",
     ") -> Option<HostFunctionDescriptor> {"]
  }

  /** The lines in front of the match. */
  function Front(layout: FileLayout): seq<string> {
    Commented(layout.header) + ["", "use super::*;", ""] + Signature(layout.lookup)
  }

  /** `render_file`; the tail holds the lines behind the last arm. */
  function RenderFile(t: Tables, tail: seq<string>): Option<seq<string>> {
    var body := RenderGroups(t, t.layout.groups);
    if body.None? then None else Some(Front(t.layout) + [MatchLine()] + body.value + tail)
  }

  method WriteFile(t: Tables, tail: seq<string>) returns (r: Option<seq<string>>)
    ensures r == RenderFile(t, tail)
  {
    var groups := t.layout.groups;
    var start := Front(t.layout) + [MatchLine()];
    var lines := start;
    var i := 0;
    while i < |groups|
      invariant 0 <= i <= |groups|
      invariant Onto(lines, RenderGroups(t, groups[i..])) == Onto(start, RenderGroups(t, groups))
    {
      assert groups[i..][1..] == groups[i + 1..];
      var more := RenderGroup(t, groups[i], lines);
      if more.None? {
        return None;
      }
      GroupRegroup(lines, groups[i].banner, RenderItems(t, groups[i].namespace, groups[i].items).value,
                   RenderGroups(t, groups[i + 1..]));
      lines := more.value;
      i := i + 1;
    }
    assert groups[i..] == [] && lines + [] == lines;
    r := Some(lines + tail);
  }

  lemma GroupRegroup(a: seq<string>, b: seq<string>, c: seq<string>, d: Option<seq<string>>)
    ensures d.Some? ==> a + (b + c + d.value) == (a + b + c) + d.value
  {
  }

  // ----- reading -----

  /** A recovered group: names with the style each arm was found in. */
  datatype Section = Section(namespace: Option<string>, names: seq<(string, string)>, banner: seq<string>)

  datatype Found = Found(sections: seq<Section>, banner: seq<string>)

  function Nest(c: char): int {
    if c == '(' || c == '{' then 1 else if c == ')' || c == '}' then -1 else 0
  }

  /** The bracket counter behind a line. */
  function Depth(line: string, depth: int): int {
    if line == [] then depth else Depth(line[1..], depth + Nest(line[0]))
  }

  /** How many more lines until the counter is no longer positive; `None` past the last line. */
  function MoreLines(lines: seq<string>, depth: int): (r: Option<nat>)
    ensures r.Some? ==> r.value <= |lines|
  {
    if depth <= 0 then Some(0)
    else if lines == [] then None
    else
      var rest := MoreLines(lines[1..], Depth(lines[0], depth));
      if rest.None? then None else Some(rest.value + 1)
  }

  function PathRun(s: string): (n: nat)
    ensures n <= |s|
  {
    if s == [] || !IsPathChar(s[0]) then 0 else 1 + PathRun(s[1..])
  }

  /** `\("([\w.]+)", "(\w+)"\)` at the start of the text. */
  function ParseHead(s: string): Option<(string, string)> {
    if !StartsWith(s, "(\"") then None
    else
      var r := s[2..];
      var n := PathRun(r);
      if n == 0 || !StartsWith(r[n..], "\", \"") then None
      else
        var q := r[n + 4..];
        var m := IdentRun(q);
        if m == 0 || !StartsWith(q[m..], "\")") then None else Some((r[..n], q[..m]))
  }

  function Literal(): string { "HostFunctionDescriptor {" }

  predicate OccursIn(lines: seq<string>, p: string) {
    lines != [] && (Has(lines[0], p) || OccursIn(lines[1..], p))
  }

  /** `Some\((host_\w+)\(` at the start of the text. */
  function HelperHere(s: string): Option<string> {
    if !StartsWith(s, "Some(host_") then None
    else
      var n := IdentRun(s[5..]);
      if n > 5 && 5 + n < |s| && s[5 + n] == '(' then Some(s[5..5 + n]) else None
  }

  function HelperIn(s: string): Option<string> {
    if HelperHere(s).Some? || s == [] then HelperHere(s) else HelperIn(s[1..])
  }

  /** The first helper on any of the lines; no match can span a line break. */
  function FirstHelper(lines: seq<string>): Option<string> {
    if lines == [] then None
    else if HelperIn(lines[0]).Some? then HelperIn(lines[0])
    else FirstHelper(lines[1..])
  }

  /** The rendering style of an arm; `None` where it cannot be told. */
  function BlockStyle(block: seq<string>): Option<string> {
    if OccursIn(block, Literal()) then Some(STRUCT) else FirstHelper(block)
  }

  /** A new section for a new module or behind a banner, otherwise one more name. */
  function AddArm(found: Found, name: (string, string), style: string): Found {
    var sections := found.sections;
    var n := |sections| - 1;
    if n < 0 || sections[n].namespace != Some(name.0) || found.banner != [] then
      Found(sections + [Section(Some(name.0), [(name.1, style)], found.banner)], [])
    else
      Found(sections[n := sections[n].(names := sections[n].names + [(name.1, style)])], [])
  }

  /** What the scan does at a line: the new state and the number of lines it took. */
  datatype Turn = Turn(found: Found, taken: nat)

  function ArmTurn(lines: seq<string>, name: (string, string), found: Found): Option<Turn>
    requires lines != []
  {
    var more := MoreLines(lines[1..], Depth(lines[0], 0));
    if more.None? then None
    else
      var style := BlockStyle(lines[..more.value + 1]);
      if style.None? then None else Some(Turn(AddArm(found, name, style.value), more.value + 1))
  }

  function ScanTurn(lines: seq<string>, found: Found): Option<Turn> {
    if lines == [] then None
    else
      var stripped := Strip(lines[0]);
      var head := ParseHead(stripped);
      if StartsWith(stripped, "//") then Some(Turn(found.(banner := found.banner + [lines[0]]), 1))
      else if head.None? then Some(Turn(found, 1))
      else ArmTurn(lines, head.value, found)
  }

  /** Turns taken one after the other until `n` lines are behind; the last may take more. */
  function Run(step: (seq<string>, Found) -> Option<Turn>, lines: seq<string>, n: int, found: Found): Option<Found>
    decreases |lines|
  {
    if n <= 0 then Some(found)
    else
      var turn := step(lines, found);
      if turn.None? || !(0 < turn.value.taken <= |lines|) then None
      else Run(step, lines[turn.value.taken..], n - turn.value.taken, turn.value.found)
  }


  function Finish(found: Found): seq<Section> {
    if found.banner != [] then found.sections + [Section(None, [], found.banner)] else found.sections
  }

  /** The sections found in the next `n` lines. */
  function Sections(lines: seq<string>, n: int): Option<seq<Section>> {
    var found := Run(ScanTurn, lines, n, Found([], []));
    if found.None? then None else Some(Finish(found.value))
  }

  /** Index of the first line that is `text` but for whitespace around it. */
  function FirstLine(lines: seq<string>, text: string): (r: Option<nat>)
    ensures r.Some? ==> r.value < |lines|
  {
    if lines == [] then None
    else if Strip(lines[0]) == text then Some(0)
    else
      var rest := FirstLine(lines[1..], text);
      if rest.None? then None else Some(rest.value + 1)
  }

  function SectionsOf(lines: seq<string>): Option<seq<Section>> {
    var start := FirstLine(lines, MatchText());
    if start.None? then None
    else
      var arms := lines[start.value + 1..];
      var end := FirstLine(arms, EndText());
      if end.None? then None
      else Sections(arms, end.value)
  }

  /** Index of the first bracket, or the length. */
  function UntilBracket(s: string): (n: nat)
    ensures n <= |s|
  {
    if s == [] || s[0] == '(' then 0 else 1 + UntilBracket(s[1..])
  }

  /** `line.split("fn ", 1)[1].split("(", 1)[0]`; `None` where there is no `fn `. */
  function NameOn(line: string): Option<string> {
    var i := Find(line, "fn ");
    if i.None? then None
    else
      var rest := line[i.value + 3..];
      Some(rest[..UntilBracket(rest)])
  }

  /** The name on the first line that declares a function. */
  function FunctionOf(lines: seq<string>): Option<string> {
    if lines == [] then None
    else if StartsWith(lines[0], Declares()) then NameOn(lines[0])
    else FunctionOf(lines[1..])
  }

  const HELPER := "helper"

  /** Helper arms count alike, whatever their helper. */
  function Kind(style: string): string {
    if style == STRUCT then STRUCT else HELPER
  }

  function Kinds(names: seq<(string, string)>): (r: seq<string>)
    ensures |r| == |names|
  {
    seq(|names|, i requires 0 <= i < |names| => Kind(names[i].1))
  }

  function AllKinds(sections: seq<Section>): seq<string> {
    if sections == [] then []
    else
      var n := |sections| - 1;
      AllKinds(sections[..n]) + Kinds(sections[n].names)
  }

  /** The style of most arms; helpers win a tie. */
  function Majority(sections: seq<Section>): string {
    var kinds := multiset(AllKinds(sections));
    if kinds[HELPER] >= kinds[STRUCT] then HELPER else STRUCT
  }

  datatype Extracted = Extracted(lookup: string, sections: seq<Section>, style: string)

  /** `extract_layout`; `None` where it raises. */
  function Extract(lines: seq<string>): Option<Extracted> {
    var name, sections := FunctionOf(lines), SectionsOf(lines);
    if name.None? || sections.None? then None
    else Some(Extracted(name.value, sections.value, Majority(sections.value)))
  }

  // ----- the reader's loops -----

  method FindFunction(lines: seq<string>) returns (r: Option<string>)
    ensures r == FunctionOf(lines)
  {
    var i := 0;
    while i < |lines|
      invariant 0 <= i <= |lines|
      invariant FunctionOf(lines) == FunctionOf(lines[i..])
    {
      assert lines[i..][1..] == lines[i + 1..];
      if StartsWith(lines[i], Declares()) {
        return NameOn(lines[i]);
      }
      i := i + 1;
    }
    r := None;
  }

  method FindLine(lines: seq<string>, from: nat, text: string) returns (r: Option<nat>)
    requires from <= |lines|
    ensures var i := FirstLine(lines[from..], text); r == if i.None? then None else Some(from + i.value)
  {
    var i := from;
    while i < |lines|
      invariant from <= i <= |lines|
      invariant var a, b := FirstLine(lines[from..], text), FirstLine(lines[i..], text);
                (if a.None? then None else Some(from + a.value)) == if b.None? then None else Some(i + b.value)
    {
      assert lines[i..][1..] == lines[i + 1..];
      if Strip(lines[i]) == text {
        return Some(i);
      }
      i := i + 1;
    }
    r := None;
  }

  /** The line behind an arm that starts at `index`. */
  method ReadBlock(lines: seq<string>, index: nat) returns (r: Option<nat>)
    requires index < |lines|
    ensures var more := MoreLines(lines[index + 1..], Depth(lines[index], 0));
            r == if more.None? then None else Some(index + 1 + more.value)
  {
    var depth := Depth(lines[index], 0);
    var i := index + 1;
    while depth > 0
      invariant index < i <= |lines|
      invariant var a, b := MoreLines(lines[index + 1..], Depth(lines[index], 0)), MoreLines(lines[i..], depth);
                (if a.None? then None else Some(index + 1 + a.value)) == if b.None? then None else Some(i + b.value)
      decreases |lines| - i
    {
      if i == |lines| {
        return None;
      }
      assert lines[i..][1..] == lines[i + 1..];
      depth := Depth(lines[i], depth);
      i := i + 1;
    }
    r := Some(i);
  }

  method ReadArm(lines: seq<string>, index: nat, name: (string, string), found: Found) returns (r: Option<Turn>)
    requires index < |lines|
    ensures r == ArmTurn(lines[index..], name, found)
    ensures r.Some? ==> 0 < r.value.taken <= |lines| - index
  {
    assert lines[index..][1..] == lines[index + 1..];
    var next := ReadBlock(lines, index);
    if next.None? {
      return None;
    }
    assert lines[index..][..next.value - index] == lines[index..next.value];
    var style := BlockStyle(lines[index..next.value]);
    if style.None? {
      return None;
    }
    r := Some(Turn(AddArm(found, name, style.value), next.value - index));
  }

  ghost predicate IsReader(step: (seq<string>, Found) -> Option<Turn>) {
    forall lines: seq<string>, found: Found {:trigger ScanTurn(lines, found)} ::
      step(lines, found) == ScanTurn(lines, found)
  }

  method TakeTurn(ghost step: (seq<string>, Found) -> Option<Turn>, lines: seq<string>, index: nat, found: Found)
    returns (r: Option<Turn>)
    requires index < |lines| && IsReader(step)
    ensures r == step(lines[index..], found)
    ensures r.Some? ==> 0 < r.value.taken <= |lines| - index
  {
    assert step(lines[index..], found) == ScanTurn(lines[index..], found);
    var stripped := Strip(lines[index]);
    var head := ParseHead(stripped);
    if StartsWith(stripped, "//") {
      r := Some(Turn(found.(banner := found.banner + [lines[index]]), 1));
    } else if head.None? {
      r := Some(Turn(found, 1));
    } else {
      r := ReadArm(lines, index, head.value, found);
    }
  }

  /** The result of the run from `index` on. */
  ghost function Outcome(step: (seq<string>, Found) -> Option<Turn>, lines: seq<string>, index: nat, end: nat,
                         found: Found): Option<Found>
    requires index <= |lines|
  {
    Run(step, lines[index..], end - index, found)
  }

  lemma Advance(step: (seq<string>, Found) -> Option<Turn>, lines: seq<string>, index: nat, end: nat,
                found: Found, turn: Option<Turn>)
    requires index < end && index <= |lines|
    requires turn == step(lines[index..], found) && (turn.Some? ==> 0 < turn.value.taken <= |lines| - index)
    ensures Outcome(step, lines, index, end, found)
         == if turn.None? then None else Outcome(step, lines, index + turn.value.taken, end, turn.value.found)
  {
    if turn.Some? {
      assert lines[index..][turn.value.taken..] == lines[index + turn.value.taken..];
    }
  }

  lemma Arrives(step: (seq<string>, Found) -> Option<Turn>, lines: seq<string>, index: nat, end: nat, found: Found)
    requires end <= index <= |lines|
    ensures Outcome(step, lines, index, end, found) == Some(found)
  {
  }

  method ScanArms(ghost step: (seq<string>, Found) -> Option<Turn>, lines: seq<string>, start: nat, end: nat)
    returns (r: Option<Found>)
    requires start <= end <= |lines| && IsReader(step)
    ensures r == Outcome(step, lines, start, end, Found([], []))
  {
    var found := Found([], []);
    var index := start;
    ghost var goal := Outcome(step, lines, start, end, found);
    while index < end
      invariant start <= index <= |lines|
      invariant Outcome(step, lines, index, end, found) == goal
    {
      var turn := TakeTurn(step, lines, index, found);
      Advance(step, lines, index, end, found, turn);
      if turn.None? {
        return None;
      }
      found := turn.value.found;
      index := index + turn.value.taken;
    }
    Arrives(step, lines, index, end, found);
    r := Some(found);
  }

  method ReadSections(lines: seq<string>, start: nat, end: nat) returns (r: Option<seq<Section>>)
    requires start <= end <= |lines|
    ensures r == Sections(lines[start..], end - start)
  {
    var found := ScanArms(ScanTurn, lines, start, end);
    r := if found.None? then None else Some(Finish(found.value));
  }

  method ReadAllSections(lines: seq<string>) returns (r: Option<seq<Section>>)
    ensures r == SectionsOf(lines)
  {
    var start := FindLine(lines, 0, MatchText());
    assert lines[0..] == lines;
    if start.None? {
      return None;
    }
    var end := FindLine(lines, start.value + 1, EndText());
    if end.None? {
      return None;
    }
    r := ReadSections(lines, start.value + 1, end.value);
  }

  method ExtractLayout(lines: seq<string>) returns (r: Option<Extracted>)
    ensures r == Extract(lines)
  {
    var name := FindFunction(lines);
    if name.None? {
      return None;
    }
    var sections := ReadAllSections(lines);
    if sections.None? {
      return None;
    }
    r := Some(Extracted(name.value, sections.value, Majority(sections.value)));
  }
}
