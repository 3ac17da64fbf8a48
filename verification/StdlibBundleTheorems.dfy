/** The bundle id depends on the set of modules and nothing else, and shows every
    single-byte edit of a source. */
module StdlibBundleTheorems {
  import opened Wrappers
  import opened Bits
  import opened Fingerprint
  import opened StdlibBundle

  // ----- the order of names -----

  predicate Less(a: string, b: string) {
    b != [] && (a == [] || a[0] < b[0] || (a[0] == b[0] && Less(a[1..], b[1..])))
  }

  lemma {:induction false} Trichotomy(a: string, b: string)
    ensures a == b || Less(a, b) || Less(b, a)
    ensures !(Less(a, b) && Less(b, a)) && !Less(a, a)
  {
    if a != [] {
      if b != [] {
        Trichotomy(a[1..], b[1..]);
        assert a == [a[0]] + a[1..] && b == [b[0]] + b[1..];
      }
      Trichotomy(a[1..], a[1..]);
    }
  }

  lemma {:induction false} Transitive(a: string, b: string, c: string)
    requires Less(a, b) && Less(b, c)
    ensures Less(a, c)
  {
    if a != [] && a[0] == b[0] == c[0] {
      Transitive(a[1..], b[1..], c[1..]);
    }
  }

  /** `a` comes first: it is a proper prefix of `b`, or has the smaller character where
      the two first differ. */
  ghost predicate Precedes(a: string, b: string) {
    exists n: nat :: DifferAt(a, b, n)
  }

  predicate DifferAt(a: string, b: string, n: nat) {
    n <= |a| && n < |b| && a[..n] == b[..n] && (n == |a| || a[n] < b[n])
  }

  lemma DifferOneLater(a: string, b: string, n: nat)
    requires a != [] && b != [] && a[0] == b[0]
    ensures DifferAt(a, b, n + 1) <==> DifferAt(a[1..], b[1..], n)
  {
    if n < |a| && n + 1 < |b| {
      assert a[..n + 1] == [a[0]] + a[1..][..n] && b[..n + 1] == [b[0]] + b[1..][..n];
      assert a[..n + 1][1..] == a[1..][..n] && b[..n + 1][1..] == b[1..][..n];
    }
  }

  lemma {:induction false} LessIsPrecedes(a: string, b: string)
    ensures Less(a, b) <==> Precedes(a, b)
  {
    if a == [] || b == [] || a[0] != b[0] {
      FirstDecides(a, b);
    } else {
      LessIsPrecedes(a[1..], b[1..]);
      forall n: nat ensures DifferAt(a, b, n + 1) <==> DifferAt(a[1..], b[1..], n) {
        DifferOneLater(a, b, n);
      }
      if n: nat :| DifferAt(a, b, n) {
        assert n != 0 && DifferAt(a[1..], b[1..], n - 1);
      }
      if n: nat :| DifferAt(a[1..], b[1..], n) {
        assert DifferAt(a, b, n + 1);
      }
    }
  }

  lemma FirstDecides(a: string, b: string)
    requires a == [] || b == [] || a[0] != b[0]
    ensures Less(a, b) <==> Precedes(a, b)
  {
    if Less(a, b) {
      assert DifferAt(a, b, 0);
    }
    if n: nat :| DifferAt(a, b, n) {
      assert n == 0;
    }
  }

  // ----- sorting and the duplicate check -----

  predicate IsSorted(s: seq<Module>) {
    forall i, j :: 0 <= i < j < |s| ==> !Less(s[j].name, s[i].name)
  }

  predicate IsStrict(s: seq<Module>) {
    forall i, j :: 0 <= i < j < |s| ==> Less(s[i].name, s[j].name)
  }

  function Insert(m: Module, s: seq<Module>): (r: seq<Module>)
    ensures multiset(r) == multiset(s) + multiset{m}
  {
    if s == [] then [m]
    else if Less(m.name, s[0].name) then [m] + s
    else
      assert s == [s[0]] + s[1..];
      [s[0]] + Insert(m, s[1..])
  }

  /** `modules.sort_by(|left, right| left.0.cmp(&right.0))` */
  function SortByName(modules: seq<Module>): (r: seq<Module>)
    ensures multiset(r) == multiset(modules)
  {
    if modules == [] then []
    else
      var n := |modules| - 1;
      assert modules == modules[..n] + [modules[n]];
      Insert(modules[n], SortByName(modules[..n]))
  }

  lemma {:induction false} InsertKeepsSorted(m: Module, s: seq<Module>)
    requires IsSorted(s)
    ensures IsSorted(Insert(m, s))
  {
    if s != [] {
      if Less(m.name, s[0].name) {
        forall j | 0 <= j < |s| ensures !Less(s[j].name, m.name) {
          Trichotomy(s[j].name, m.name);
          if Less(s[j].name, m.name) {
            Transitive(s[j].name, m.name, s[0].name);
            Trichotomy(s[0].name, s[0].name);
          }
        }
      } else {
        InsertKeepsSorted(m, s[1..]);
        var r := Insert(m, s[1..]);
        forall j | 0 <= j < |r| ensures !Less(r[j].name, s[0].name) {
          assert r[j] in multiset(r);
          assert r[j] in multiset(s[1..]) || r[j] == m;
        }
      }
    }
  }

  lemma {:induction false} SortSorts(modules: seq<Module>)
    ensures IsSorted(SortByName(modules))
  {
    if modules != [] {
      var n := |modules| - 1;
      SortSorts(modules[..n]);
      InsertKeepsSorted(modules[n], SortByName(modules[..n]));
    }
  }

  /** `modules.windows(2)` never shows the same name twice. */
  predicate AdjacentDiffer(s: seq<Module>) {
    forall i :: 0 < i < |s| ==> s[i - 1].name != s[i].name
  }

  method CheckAdjacent(s: seq<Module>) returns (ok: bool)
    ensures ok == AdjacentDiffer(s)
  {
    var i := 1;
    while i < |s|
      invariant 1 <= i
      invariant forall j :: 0 < j < i && j < |s| ==> s[j - 1].name != s[j].name
    {
      if s[i - 1].name == s[i].name {
        return false;
      }
      i := i + 1;
    }
    return true;
  }

  /** The module list of the bundle, or `None` where the script panics on a duplicate. */
  function Build(modules: seq<Module>): Option<seq<Module>> {
    var s := SortByName(modules);
    if AdjacentDiffer(s) then Some(s) else None
  }

  lemma {:induction false} StrictFromAdjacent(s: seq<Module>)
    requires IsSorted(s) && AdjacentDiffer(s)
    ensures IsStrict(s)
  {
    if s != [] {
      var n := |s| - 1;
      StrictFromAdjacent(s[..n]);
      forall i | 0 <= i < n ensures Less(s[i].name, s[n].name) {
        Trichotomy(s[n - 1].name, s[n].name);
        if i < n - 1 {
          assert Less(s[..n][i].name, s[..n][n - 1].name);
          Transitive(s[i].name, s[n - 1].name, s[n].name);
        }
      }
    }
  }

  function Names(s: seq<Module>): set<string> {
    set i | 0 <= i < |s| :: s[i].name
  }

  lemma NamesOfPrefix(s: seq<Module>)
    requires s != []
    ensures Names(s) == Names(s[..|s| - 1]) + {s[|s| - 1].name}
  {
    var n := |s| - 1;
    assert forall i :: 0 <= i < n ==> s[..n][i].name == s[i].name;
    forall x | x in Names(s) ensures x in Names(s[..n]) + {s[n].name} {
      var i :| 0 <= i < |s| && s[i].name == x;
      if i < n {
        assert s[..n][i].name == x;
      }
    }
  }

  predicate NamesDistinct(s: seq<Module>) {
    forall i, j :: 0 <= i < j < |s| ==> s[i].name != s[j].name
  }

  /** There are as many names as modules exactly when no name is used twice. */
  lemma {:induction false} DistinctByCount(s: seq<Module>)
    ensures |Names(s)| <= |s|
    ensures |Names(s)| == |s| <==> NamesDistinct(s)
  {
    if s == [] {
      assert Names(s) == {};
    } else {
      var n := |s| - 1;
      var before := s[..n];
      DistinctByCount(before);
      NamesOfPrefix(s);
      LastName(s);
      if s[n].name in Names(before) {
        assert Names(s) == Names(before);
      }
    }
  }

  lemma LastName(s: seq<Module>)
    requires s != []
    ensures var before, last := s[..|s| - 1], s[|s| - 1].name;
            NamesDistinct(s) <==> NamesDistinct(before) && last !in Names(before)
  {
    var n := |s| - 1;
    var before := s[..n];
    if s[n].name in Names(before) {
      var i :| 0 <= i < n && before[i].name == s[n].name;
      assert s[i].name == s[n].name;
    } else {
      assert forall i :: 0 <= i < n ==> before[i].name in Names(before);
    }
  }

  lemma SameNames(a: seq<Module>, b: seq<Module>)
    requires multiset(a) == multiset(b)
    ensures Names(a) == Names(b) && |a| == |b|
  {
    assert |multiset(a)| == |a| && |multiset(b)| == |b|;
    forall x ensures x in Names(a) <==> x in Names(b) {
      if x in Names(a) {
        var i :| 0 <= i < |a| && a[i].name == x;
        assert a[i] in multiset(b);
        var j :| 0 <= j < |b| && b[j] == a[i];
      }
      if x in Names(b) {
        var i :| 0 <= i < |b| && b[i].name == x;
        assert b[i] in multiset(a);
        var j :| 0 <= j < |a| && a[j] == b[i];
      }
    }
  }

  /** The script panics exactly when two modules have the same name. */
  lemma BuildAcceptsExactlyDistinctNames(modules: seq<Module>)
    ensures Build(modules).Some? <==> NamesDistinct(modules)
    ensures Build(modules).Some? ==> IsStrict(Build(modules).value)
  {
    var s := SortByName(modules);
    SortSorts(modules);
    SameNames(s, modules);
    DistinctByCount(s);
    DistinctByCount(modules);
    if AdjacentDiffer(s) {
      StrictFromAdjacent(s);
      forall i, j | 0 <= i < j < |s| ensures s[i].name != s[j].name {
        Trichotomy(s[i].name, s[j].name);
      }
    }
  }

  /** The modules of the bundle are in ascending order of their names. */
  lemma NamesAscend(modules: seq<Module>, i: nat, j: nat)
    requires Build(modules).Some? && i < j < |Build(modules).value|
    ensures Precedes(Build(modules).value[i].name, Build(modules).value[j].name)
  {
    BuildAcceptsExactlyDistinctNames(modules);
    LessIsPrecedes(Build(modules).value[i].name, Build(modules).value[j].name);
  }

  lemma HeadsAgree(a: seq<Module>, b: seq<Module>)
    requires IsStrict(a) && IsStrict(b) && multiset(a) == multiset(b) && a != [] && b != []
    ensures a[0] == b[0]
  {
    assert a[0] in multiset(b) && b[0] in multiset(a);
    var i :| 0 <= i < |a| && a[i] == b[0];
    var j :| 0 <= j < |b| && b[j] == a[0];
    Trichotomy(a[0].name, b[0].name);
    assert i == 0 || j == 0;
  }

  /** There is only one strictly increasing arrangement. */
  lemma {:induction false} StrictIsUnique(a: seq<Module>, b: seq<Module>)
    requires IsStrict(a) && IsStrict(b) && multiset(a) == multiset(b)
    ensures a == b
  {
    assert |multiset(a)| == |a| && |multiset(b)| == |b|;
    if a != [] {
      HeadsAgree(a, b);
      assert a == [a[0]] + a[1..] && b == [b[0]] + b[1..];
      assert multiset(a[1..]) == multiset(a) - multiset{a[0]};
      assert multiset(b[1..]) == multiset(b) - multiset{b[0]};
      StrictIsUnique(a[1..], b[1..]);
    }
  }

  /** The order in which the directory walk finds the files does not matter. */
  lemma OrderDoesNotMatter(a: seq<Module>, b: seq<Module>)
    requires multiset(a) == multiset(b)
    ensures Build(a) == Build(b)
  {
    BuildAcceptsExactlyDistinctNames(a);
    BuildAcceptsExactlyDistinctNames(b);
    SameNames(a, b);
    DistinctByCount(a);
    DistinctByCount(b);
    if Build(a).Some? {
      StrictIsUnique(Build(a).value, Build(b).value);
    }
  }

  // ----- the id -----

  const HEX_DIGITS := "0123456789abcdef"

  /** `{:016x}` has 16 digits; this is the general case. */
  function Hex(n: nat, digits: nat): (r: string)
    ensures |r| == digits
  {
    if digits == 0 then [] else Hex(n / 16, digits - 1) + [HEX_DIGITS[n % 16]]
  }

  lemma {:induction false} HexIsInjective(a: nat, b: nat, digits: nat)
    requires a < Pow2(4 * digits) && b < Pow2(4 * digits)
    requires Hex(a, digits) == Hex(b, digits)
    ensures a == b
  {
    if digits != 0 {
      var x, y := Hex(a / 16, digits - 1), Hex(b / 16, digits - 1);
      assert Hex(a, digits)[..digits - 1] == x && Hex(b, digits)[..digits - 1] == y;
      assert Hex(a, digits)[digits - 1] == HEX_DIGITS[a % 16] && Hex(b, digits)[digits - 1] == HEX_DIGITS[b % 16];
      HexDigitIsInjective(a % 16, b % 16);
      FourBits(a, digits);
      FourBits(b, digits);
      HexIsInjective(a / 16, b / 16, digits - 1);
    }
  }

  lemma HexDigitIsInjective(a: nat, b: nat)
    requires a < 16 && b < 16 && HEX_DIGITS[a] == HEX_DIGITS[b]
    ensures a == b
  {
  }

  lemma FourBits(n: nat, digits: nat)
    requires digits > 0 && n < Pow2(4 * digits)
    ensures n / 16 < Pow2(4 * (digits - 1))
  {
    var k: nat := 4 * (digits - 1);
    assert Pow2(k + 4) == 2 * Pow2(k + 3);
    assert Pow2(k + 3) == 4 * Pow2(k + 1);
  }

  function BundleId(modules: seq<Module>): string
    requires AreEntries(modules)
  {
    "fnv1a64-" + Hex(Fnv(OFFSET_BASIS, Stream(modules)), 16)
  }

  lemma IdsFollowFingerprints(a: seq<Module>, b: seq<Module>)
    requires AreEntries(a) && AreEntries(b)
    ensures BundleId(a) == BundleId(b) <==> Fnv(OFFSET_BASIS, Stream(a)) == Fnv(OFFSET_BASIS, Stream(b))
  {
    var x, y := Fnv(OFFSET_BASIS, Stream(a)), Fnv(OFFSET_BASIS, Stream(b));
    if BundleId(a) == BundleId(b) {
      assert BundleId(a)[8..] == Hex(x, 16) && BundleId(b)[8..] == Hex(y, 16);
      WordSize();
      FnvFits(OFFSET_BASIS, Stream(a));
      FnvFits(OFFSET_BASIS, Stream(b));
      HexIsInjective(x, y, 16);
    }
  }

  // ----- bytes and digits -----

  /** A module in the stream: its name, a zero byte, its source and a byte 255. */
  lemma ModuleBytes(m: Module, rest: seq<Module>)
    requires IsEntry(m) && AreEntries(rest) && AreEntries([m] + rest)
    ensures var s, n := Stream([m] + rest), |m.name|;
            && |s| == n + |m.source| + 2 + |Stream(rest)|
            && (forall i :: 0 <= i < n ==> s[i] == m.name[i] as int)
            && s[n] == 0 && s[n + 1..n + 1 + |m.source|] == m.source && s[n + 1 + |m.source|] == 255
            && s[n + |m.source| + 2..] == Stream(rest)
  {
    var name := Ascii(m.name);
    assert ([m] + rest)[1..] == rest;
    assert Stream([m] + rest) == name + [0] + m.source + [0xFF] + Stream(rest);
    forall i | 0 <= i < |name| ensures name[i] == m.name[i] as int {
    }
  }

  lemma OneDigit(n: nat, m: nat, a: nat, k: nat)
    requires a < 16 && n == 16 * m + a
    ensures Hex(n, k + 1) == Hex(m, k) + [HEX_DIGITS[a]]
  {
    assert n / 16 == m && n % 16 == a;
  }

  lemma TwoDigits(n: nat, m: nat, a: nat, b: nat, k: nat)
    requires a < 16 && b < 16 && n == 256 * m + 16 * a + b
    ensures Hex(n, k + 2) == Hex(m, k) + [HEX_DIGITS[a], HEX_DIGITS[b]]
  {
    var x := 16 * m + a;
    OneDigit(x, m, a, k);
    OneDigit(n, x, b, k + 1);
  }

  lemma FirstDigits()
    ensures Hex(0xcbf2, 4) == "cbf2"
  {
    TwoDigits(0xcb, 0, 0xc, 0xb, 0);
    TwoDigits(0xcbf2, 0xcb, 0xf, 2, 2);
  }

  lemma UpperDigits()
    ensures Hex(0xcbf29ce4, 8) == "cbf29ce4"
  {
    FirstDigits();
    TwoDigits(0xcbf29c, 0xcbf2, 9, 0xc, 4);
    TwoDigits(0xcbf29ce4, 0xcbf29c, 0xe, 4, 6);
  }

  lemma LowerDigits()
    ensures Hex(0xcbf29ce484222325, 16) == Hex(0xcbf29ce4, 8) + "84222325"
  {
    TwoDigits(0xcbf29ce484, 0xcbf29ce4, 8, 4, 8);
    TwoDigits(0xcbf29ce48422, 0xcbf29ce484, 2, 2, 10);
    TwoDigits(0xcbf29ce4842223, 0xcbf29ce48422, 2, 3, 12);
    TwoDigits(0xcbf29ce484222325, 0xcbf29ce4842223, 2, 5, 14);
  }

  /** The id of a bundle without modules. */
  lemma EmptyBundleId()
    ensures BundleId([]) == "fnv1a64-" + "cbf29ce484222325"
  {
    UpperDigits();
    LowerDigits();
  }

  // ----- one edited byte -----

  /** `m` with byte `k` of its source replaced. */
  function Edited(m: Module, k: nat, b: byte): Module
    requires k < |m.source|
  {
    m.(source := m.source[k := b])
  }

  lemma EditedFrame(m: Module, k: nat, b: byte)
    requires k < |m.source| && IsEntry(m) && IsEntry(Edited(m, k, b))
    ensures |m.name| + 1 + k < |Frame(m)|
    ensures Frame(m)[|m.name| + 1 + k] == m.source[k]
    ensures Frame(Edited(m, k, b)) == Frame(m)[|m.name| + 1 + k := b]
  {
    var head := Ascii(m.name) + [0];
    assert Frame(m) == head + m.source + [0xFF];
    assert Frame(Edited(m, k, b)) == head + m.source[k := b] + [0xFF];
  }

  /** The edit changes one byte of the hashed stream. */
  lemma {:induction false} EditedStream(s: seq<Module>, j: nat, k: nat, b: byte) returns (at: nat)
    requires j < |s| && k < |s[j].source| && AreEntries(s) && IsEntry(Edited(s[j], k, b))
    ensures at < |Stream(s)| && Stream(s)[at] == s[j].source[k]
    ensures AreEntries(s[j := Edited(s[j], k, b)])
    ensures Stream(s[j := Edited(s[j], k, b)]) == Stream(s)[at := b]
  {
    var m := Edited(s[j], k, b);
    var frame, rest := Frame(s[0]), Stream(s[1..]);
    EditedEntries(s, j, k, b);
    FirstFrame(s);
    FirstFrame(s[j := m]);
    if j == 0 {
      EditedFrame(s[0], k, b);
      at := |s[0].name| + 1 + k;
      assert s[0 := m][1..] == s[1..];
      UpdateLeft(frame, rest, at, b);
    } else {
      var inner := EditedStream(s[1..], j - 1, k, b);
      at := |frame| + inner;
      assert s[j := m][1..] == s[1..][j - 1 := m];
      UpdateRight(frame, rest, inner, b);
    }
  }

  lemma FirstFrame(s: seq<Module>)
    requires AreEntries(s) && s != []
    ensures Stream(s) == Frame(s[0]) + Stream(s[1..])
  {
  }

  lemma EditedEntries(s: seq<Module>, j: nat, k: nat, b: byte)
    requires j < |s| && k < |s[j].source| && AreEntries(s) && IsEntry(Edited(s[j], k, b))
    ensures AreEntries(s[j := Edited(s[j], k, b)])
  {
  }

  lemma UpdateLeft(x: Bytes, y: Bytes, i: nat, b: byte)
    requires i < |x|
    ensures (x + y)[i] == x[i] && (x + y)[i := b] == x[i := b] + y
  {
  }

  lemma UpdateRight(x: Bytes, y: Bytes, i: nat, b: byte)
    requires i < |y|
    ensures (x + y)[|x| + i] == y[i] && (x + y)[|x| + i := b] == x + y[i := b]
  {
  }

  lemma MultisetUpdate(s: seq<Module>, i: nat, m: Module)
    requires i < |s|
    ensures multiset(s[i := m]) == multiset(s) - multiset{s[i]} + multiset{m}
  {
    assert s == s[..i] + [s[i]] + s[i + 1..];
    assert s[i := m] == s[..i] + [m] + s[i + 1..];
  }

  /** Editing one module in place edits one entry of the sorted list. */
  lemma EditedBuild(modules: seq<Module>, i: nat, m: Module) returns (j: nat)
    requires i < |modules| && Build(modules).Some? && m.name == modules[i].name
    ensures var s := Build(modules).value;
            && j < |s| && s[j] == modules[i]
            && Build(modules[i := m]) == Some(s[j := m])
  {
    BuildAcceptsExactlyDistinctNames(modules);
    var s := Build(modules).value;
    assert modules[i] in multiset(s);
    j :| 0 <= j < |s| && s[j] == modules[i];
    assert multiset(modules[i := m]) == multiset(s[j := m]) by {
      MultisetUpdate(modules, i, m);
      MultisetUpdate(s, j, m);
    }
    assert IsStrict(s[j := m]);
    OrderDoesNotMatter(modules[i := m], s[j := m]);
    BuildOfStrict(s[j := m]);
  }

  lemma BuildOfStrict(s: seq<Module>)
    requires IsStrict(s)
    ensures Build(s) == Some(s)
  {
    forall i, j | 0 <= i < j < |s| ensures s[i].name != s[j].name {
      Trichotomy(s[i].name, s[j].name);
    }
    BuildAcceptsExactlyDistinctNames(s);
    StrictIsUnique(Build(s).value, s);
  }

  lemma EntriesOfBuild(modules: seq<Module>)
    requires AreEntries(modules) && Build(modules).Some?
    ensures AreEntries(Build(modules).value)
  {
    var s := Build(modules).value;
    forall j | 0 <= j < |s| ensures IsEntry(s[j]) {
      assert s[j] in multiset(modules);
    }
  }

  /** Changing one byte of one source changes the bundle id. */
  lemma EveryEditShows(modules: seq<Module>, i: nat, k: nat, b: byte)
    requires AreEntries(modules) && Build(modules).Some?
    requires i < |modules| && k < |modules[i].source| && modules[i].source[k] != b
    requires IsUtf8(modules[i].source[k := b])
    ensures var before, after := Build(modules), Build(modules[i := Edited(modules[i], k, b)]);
            && after.Some? && AreEntries(before.value) && AreEntries(after.value)
            && BundleId(before.value) != BundleId(after.value)
  {
    var m := Edited(modules[i], k, b);
    var j := EditedBuild(modules, i, m);
    var s := Build(modules).value;
    EntriesOfBuild(modules);
    var at := EditedStream(s, j, k, b);
    OneByteShows(Stream(s), at, b);
    IdsFollowFingerprints(s, s[j := m]);
  }
}
