/** The catalog generator's scan of a whole table text for its arms (`LOWERING_ARM_RE`,
    `lowering_descriptors`). */
module LoweringArmScan {
  import opened Wrappers
  import opened PythonText
  import opened LoweringDescriptors

  // ----- patterns without alternatives -----

  /** A regular expression made of single characters, `\s*`, and runs of `[a-z0-9_]+` or
      `[a-z0-9_.]+`; the runs are captured. */
  datatype Pattern = End | Mark(c: char, next: Pattern) | White(next: Pattern) | Word(dots: bool, next: Pattern)

  /** Whether the text fails the pattern, ends before it does, or matches it. */
  datatype Attempt = Fails | Ends | Matches(length: nat, words: seq<string>)

  predicate IsLowerChar(c: char, dots: bool) {
    'a' <= c <= 'z' || '0' <= c <= '9' || c == '_' || (dots && c == '.')
  }

  predicate AllWord(s: string, dots: bool) {
    forall i :: 0 <= i < |s| ==> IsLowerChar(s[i], dots)
  }

  function WordRun(s: string, dots: bool): (n: nat)
    ensures n <= |s|
  {
    if s == [] || !IsLowerChar(s[0], dots) then 0 else 1 + WordRun(s[1..], dots)
  }

  function WordCount(p: Pattern): nat {
    match p
    case End => 0
    case Mark(_, next) => WordCount(next)
    case White(next) => WordCount(next)
    case Word(_, next) => 1 + WordCount(next)
  }

  function Shift(n: nat, words: seq<string>, r: Attempt): Attempt {
    if r.Matches? then Matches(n + r.length, words + r.words) else r
  }

  /** The pattern at the start of the text; every run is as long as it can be. */
  function Try(p: Pattern, s: string): (r: Attempt)
    ensures r.Matches? ==> r.length <= |s| && |r.words| == WordCount(p)
    ensures p.Mark? && r.Matches? ==> r.length > 0
    decreases p
  {
    match p
    case End => Matches(0, [])
    case Mark(c, next) => if s == [] then Ends else if s[0] != c then Fails else Shift(1, [], Try(next, s[1..]))
    case White(next) => Shift(SpaceRun(s), [], Try(next, s[SpaceRun(s)..]))
    case Word(dots, next) =>
      var n := WordRun(s, dots);
      if s == [] then Ends else if n == 0 then Fails else Shift(n, [s[..n]], Try(next, s[n..]))
  }

  function BehindName(): Pattern { Mark('"', White(Mark(')', White(Mark('=', Mark('>', End)))))) }

  function BehindModule(): Pattern { Mark('"', White(Mark(',', White(Mark('"', Word(false, BehindName())))))) }

  function BehindBracket(): Pattern { White(Mark('"', Word(true, BehindModule()))) }

  function ArmPattern(): Pattern { Mark('(', BehindBracket()) }

  // ----- every match in a text -----

  /** A pattern that captures a pair of words. */
  predicate IsPair(p: Pattern) {
    p.Mark? && WordCount(p) == 2
  }

  datatype FoundArm = FoundArm(name: (string, string), body: string)

  /** Where the next match starts, or the length of the text. */
  function Next(p: Pattern, s: string): (n: nat)
    ensures n <= |s|
    decreases |s|
  {
    if s == [] || Try(p, s).Matches? then 0 else 1 + Next(p, s[1..])
  }

  /** The matches in a text, each with everything up to the next one. */
  function ArmsOf(p: Pattern, s: string): seq<FoundArm>
    requires IsPair(p)
    decreases |s|
  {
    if s == [] then []
    else if Try(p, s).Matches? then
      var rest := s[Try(p, s).length..];
      [FirstArm(p, s)] + ArmsOf(p, rest)
    else ArmsOf(p, s[1..])
  }

  /** The match at the start of the text. */
  function FirstArm(p: Pattern, s: string): FoundArm
    requires IsPair(p) && Try(p, s).Matches?
  {
    var r := Try(p, s);
    var rest := s[r.length..];
    FoundArm((r.words[0], r.words[1]), rest[..Next(p, rest)])
  }

  type Inventory = map<(string, string), Descriptor>

  type Reader = string -> Option<Descriptor>

  /** The table with the descriptors of some arms; a later arm of the same name wins. `None`
      where reading raises. */
  function Inventoried(read: Reader, table: Inventory, arms: seq<FoundArm>): Option<Inventory>
    decreases |arms|
  {
    if arms == [] then Some(table)
    else
      var d := read(arms[0].body);
      if d.None? then None else Inventoried(read, table[arms[0].name := d.value], arms[1..])
  }

  lemma {:induction false} ArmsFromNext(p: Pattern, s: string)
    requires IsPair(p)
    ensures ArmsOf(p, s) == ArmsOf(p, s[Next(p, s)..])
    ensures Next(p, s) < |s| ==> Try(p, s[Next(p, s)..]).Matches?
    decreases |s|
  {
    if s == [] || Try(p, s).Matches? {
      assert s[0..] == s;
    } else {
      ArmsFromNext(p, s[1..]);
      assert s[1..][Next(p, s[1..])..] == s[Next(p, s)..];
    }
  }

  ghost function Final(read: Reader, p: Pattern, text: string, at: nat, table: Inventory): Option<Inventory>
    requires IsPair(p) && at <= |text|
  {
    Inventoried(read, table, ArmsOf(p, text[at..]))
  }

  /** The table with one more arm. */
  function With(read: Reader, table: Inventory, arm: FoundArm): Option<Inventory> {
    var d := read(arm.body);
    if d.None? then None else Some(table[arm.name := d.value])
  }

  lemma MoreArms(read: Reader, table: Inventory, arm: FoundArm, arms: seq<FoundArm>, more: Option<Inventory>)
    requires more == With(read, table, arm)
    ensures Inventoried(read, table, [arm] + arms) == if more.None? then None else Inventoried(read, more.value, arms)
  {
    FirstOf(arm, arms);
  }

  lemma OneMoreArm(read: Reader, p: Pattern, text: string, at: nat, end: nat, table: Inventory, more: Option<Inventory>)
    requires IsPair(p) && at < |text| && Try(p, text[at..]).Matches? && end == at + Try(p, text[at..]).length
    requires more == With(read, table, FirstArm(p, text[at..]))
    ensures Final(read, p, text, at, table) == if more.None? then None else Final(read, p, text, end, more.value)
  {
    assert text[at..][end - at..] == text[end..];
    MoreArms(read, table, FirstArm(p, text[at..]), ArmsOf(p, text[end..]), more);
  }

  lemma FirstOf(arm: FoundArm, arms: seq<FoundArm>)
    ensures ([arm] + arms)[0] == arm && ([arm] + arms)[1..] == arms
  {
  }

  lemma SkipAhead(read: Reader, p: Pattern, text: string, end: nat, table: Inventory)
    requires IsPair(p) && end <= |text|
    ensures var at := end + Next(p, text[end..]);
            && Final(read, p, text, at, table) == Final(read, p, text, end, table)
            && (at < |text| ==> Try(p, text[at..]).Matches?)
  {
    var n := Next(p, text[end..]);
    ArmsFromNext(p, text[end..]);
    assert text[end..][n..] == text[end + n..];
  }

  lemma AtTheEnd(read: Reader, p: Pattern, text: string, table: Inventory)
    requires IsPair(p)
    ensures Final(read, p, text, 0, table) == Inventoried(read, table, ArmsOf(p, text))
    ensures Final(read, p, text, |text|, table) == Some(table)
  {
    assert text[0..] == text && text[|text|..] == [];
  }

  /** Reads the arm at `at` and moves on to the next one. */
  method ReadFirstArm(read: Reader, p: Pattern, text: string, at: nat, table: Inventory)
    returns (more: Option<Inventory>, next: nat)
    requires IsPair(p) && at < |text| && Try(p, text[at..]).Matches?
    ensures at < next <= |text| && (next < |text| ==> Try(p, text[next..]).Matches?)
    ensures Final(read, p, text, at, table) == if more.None? then None else Final(read, p, text, next, more.value)
  {
    var end := at + Try(p, text[at..]).length;
    next := end + Next(p, text[end..]);
    more := With(read, table, FirstArm(p, text[at..]));
    OneMoreArm(read, p, text, at, end, table, more);
    if more.Some? {
      SkipAhead(read, p, text, end, more.value);
    } else {
      SkipAhead(read, p, text, end, table);
    }
  }

  method ReadTable(read: Reader, p: Pattern, text: string, before: Inventory) returns (r: Option<Inventory>)
    requires IsPair(p)
    ensures r == Inventoried(read, before, ArmsOf(p, text))
  {
    var table := before;
    ghost var goal := Final(read, p, text, 0, table);
    AtTheEnd(read, p, text, table);
    SkipAhead(read, p, text, 0, table);
    assert text[0..] == text;
    var at := Next(p, text);
    while at < |text|
      invariant at <= |text|
      invariant at < |text| ==> Try(p, text[at..]).Matches?
      invariant Final(read, p, text, at, table) == goal
    {
      var more, next := ReadFirstArm(read, p, text, at, table);
      if more.None? {
        return None;
      }
      table, at := more.value, next;
    }
    AtTheEnd(read, p, text, table);
    r := Some(table);
  }

  /** The inventory of several tables. */
  function ReadAll(read: Reader, p: Pattern, table: Inventory, texts: seq<string>): Option<Inventory>
    requires IsPair(p)
    decreases |texts|
  {
    if texts == [] then Some(table)
    else
      var more := Inventoried(read, table, ArmsOf(p, texts[0]));
      if more.None? then None else ReadAll(read, p, more.value, texts[1..])
  }

  method ReadTables(read: Reader, p: Pattern, texts: seq<string>) returns (r: Option<Inventory>)
    requires IsPair(p)
    ensures r == ReadAll(read, p, map[], texts)
  {
    var table: Inventory := map[];
    var i := 0;
    while i < |texts|
      invariant 0 <= i <= |texts|
      invariant ReadAll(read, p, table, texts[i..]) == ReadAll(read, p, map[], texts)
    {
      assert texts[i..][1..] == texts[i + 1..];
      var more := ReadTable(read, p, texts[i], table);
      if more.None? {
        return None;
      }
      table := more.value;
      i := i + 1;
    }
    r := Some(table);
  }

  // ----- what stands behind a text cannot change a decision made inside it -----

  /** Runs are followed by single characters. */
  predicate IsFirm(p: Pattern) {
    match p
    case End => true
    case Mark(_, next) => IsFirm(next)
    case White(next) => next.Mark? && IsFirm(next)
    case Word(_, next) => next.Mark? && IsFirm(next)
  }

  lemma {:induction false} SpaceRunInside(s: string, r: string)
    requires SpaceRun(s) < |s|
    ensures SpaceRun(s + r) == SpaceRun(s)
  {
    if IsSpace(s[0]) {
      assert (s + r)[1..] == s[1..] + r;
      SpaceRunInside(s[1..], r);
    }
  }

  lemma {:induction false} WordRunInside(s: string, dots: bool, r: string)
    requires WordRun(s, dots) < |s|
    ensures WordRun(s + r, dots) == WordRun(s, dots)
  {
    if IsLowerChar(s[0], dots) {
      assert (s + r)[1..] == s[1..] + r;
      WordRunInside(s[1..], dots, r);
    }
  }

  /** A decision stands whatever follows. */
  lemma {:induction false} DecidedInside(p: Pattern, s: string, r: string)
    requires IsFirm(p) && p != End && !Try(p, s).Ends?
    ensures Try(p, s + r) == Try(p, s)
    decreases p
  {
    match p
    case Mark(c, next) =>
      assert s != [] && (s + r)[0] == s[0];
      if s[0] == c && next != End {
        assert (s + r)[1..] == s[1..] + r;
        DecidedInside(next, s[1..], r);
      }
    case White(next) =>
      var n := SpaceRun(s);
      if n < |s| {
        SpaceRunInside(s, r);
        assert (s + r)[n..] == s[n..] + r;
        DecidedInside(next, s[n..], r);
      }
    case Word(dots, next) =>
      var n := WordRun(s, dots);
      if n < |s| {
        WordRunInside(s, dots, r);
        if n > 0 {
          assert (s + r)[n..] == s[n..] + r && (s + r)[..n] == s[..n];
          DecidedInside(next, s[n..], r);
        }
      }
  }

  // ----- texts without arms -----

  /** No match starts in the text, whatever follows it. */
  predicate Skips(p: Pattern, s: string) {
    s == [] || (Try(p, s).Fails? && Skips(p, s[1..]))
  }

  predicate IsFirmPair(p: Pattern) {
    IsPair(p) && IsFirm(p)
  }

  lemma {:induction false} SkipsTwo(p: Pattern, a: string, b: string)
    requires IsFirmPair(p) && Skips(p, a) && Skips(p, b)
    ensures Skips(p, a + b)
    decreases |a|
  {
    if a == [] {
      assert a + b == b;
    } else {
      DecidedInside(p, a, b);
      assert (a + b)[1..] == a[1..] + b;
      SkipsTwo(p, a[1..], b);
    }
  }

  lemma {:induction false} NoArmInside(p: Pattern, a: string, b: string)
    requires IsFirmPair(p) && Skips(p, a)
    ensures Next(p, a + b) == |a| + Next(p, b)
    ensures ArmsOf(p, a + b) == ArmsOf(p, b)
    decreases |a|
  {
    if a == [] {
      assert a + b == b;
    } else {
      DecidedInside(p, a, b);
      assert (a + b)[1..] == a[1..] + b;
      NoArmInside(p, a[1..], b);
    }
  }

  /** The arm behind a text without arms, up to the next one. */
  lemma ArmIsFound(p: Pattern, pre: string, head: string, name: (string, string), body: string, rest: string)
    requires IsFirmPair(p) && Skips(p, pre) && Skips(p, body)
    requires head != [] && Try(p, head) == Matches(|head|, [name.0, name.1])
    ensures var s := pre + (head + (body + rest));
            && Next(p, s) == |pre|
            && ArmsOf(p, s) == [FoundArm(name, body + rest[..Next(p, rest)])] + ArmsOf(p, rest)
  {
    HeadedArm(p, head, name, body, rest);
    NoArmInside(p, pre, head + (body + rest));
  }

  lemma HeadedArm(p: Pattern, head: string, name: (string, string), body: string, rest: string)
    requires IsFirmPair(p) && Skips(p, body)
    requires head != [] && Try(p, head) == Matches(|head|, [name.0, name.1])
    ensures Next(p, head + (body + rest)) == 0
    ensures ArmsOf(p, head + (body + rest)) == [FoundArm(name, body + rest[..Next(p, rest)])] + ArmsOf(p, rest)
  {
    DecidedInside(p, head, body + rest);
    ArmStarts(p, head, name, body + rest);
    BodyGoesOn(p, body, rest);
  }

  /** A text without arms belongs to the arm in front of it. */
  lemma BodyGoesOn(p: Pattern, body: string, rest: string)
    requires IsFirmPair(p) && Skips(p, body)
    ensures ArmsOf(p, body + rest) == ArmsOf(p, rest)
    ensures (body + rest)[..Next(p, body + rest)] == body + rest[..Next(p, rest)]
  {
    NoArmInside(p, body, rest);
    PrefixBehind(body, rest, Next(p, rest));
  }

  lemma PrefixBehind(a: string, b: string, n: nat)
    requires n <= |b|
    ensures (a + b)[..|a| + n] == a + b[..n]
  {
  }

  lemma ArmStarts(p: Pattern, head: string, name: (string, string), rest: string)
    requires IsPair(p) && head != [] && Try(p, head + rest) == Matches(|head|, [name.0, name.1])
    ensures Next(p, head + rest) == 0
    ensures ArmsOf(p, head + rest) == [FoundArm(name, rest[..Next(p, rest)])] + ArmsOf(p, rest)
  {
    assert (head + rest)[|head|..] == rest;
  }

  // ----- brackets -----

  /** The pattern is `LOWERING_ARM_RE`; a parameter, so that proofs do not unfold it. */
  predicate IsArmPattern(p: Pattern) {
    p == ArmPattern()
  }

  /** An opening bracket in front of something else than a quote. */
  lemma BracketFails(p: Pattern, s: string)
    requires IsArmPattern(p) && s != [] && !IsSpace(s[0]) && s[0] != '"'
    ensures Try(p, "(" + s) == Fails
  {
    assert ("(" + s)[1..] == s && s[0..] == s;
    assert SpaceRun(s) == 0;
    assert Try(BehindBracket(), s) == Fails;
  }

  lemma ArmIsFirmPair()
    ensures IsFirmPair(ArmPattern()) && ArmPattern().c == '('
  {
    NameIsFirm();
    ModuleIsFirm();
  }

  lemma NameIsFirm()
    ensures WordCount(BehindName()) == 0 && IsFirm(BehindName())
  {
    var rest := Mark(')', White(Mark('=', Mark('>', End))));
    assert WordCount(rest) == 0 && IsFirm(rest);
  }

  lemma ModuleIsFirm()
    ensures WordCount(BehindModule()) == 1 && IsFirm(BehindModule())
  {
    NameIsFirm();
    var rest := Mark(',', White(Mark('"', Word(false, BehindName()))));
    assert WordCount(rest) == 1 && IsFirm(rest);
  }
}
