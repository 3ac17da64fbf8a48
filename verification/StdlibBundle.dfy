/** The build script's view of the standard library: module names from paths, the sorted
    and duplicate-free module list, and the framed byte stream behind the bundle id. */
module StdlibBundle {
  import opened Wrappers
  import opened Bits
  import opened Fingerprint

  // ----- module names -----

  predicate IsNameChar(c: char) {
    '0' <= c <= '9' || 'A' <= c <= 'Z' || 'a' <= c <= 'z' || c == '_'
  }

  predicate IsSegment(s: string) {
    s != [] && forall i :: 0 <= i < |s| ==> IsNameChar(s[i])
  }

  /** `value.replace('-', "_")` */
  function Normalized(component: string): (r: string)
    ensures |r| == |component|
    ensures forall i :: 0 <= i < |r| ==> r[i] == if component[i] == '-' then '_' else component[i]
  {
    seq(|component|, i requires 0 <= i < |component| => if component[i] == '-' then '_' else component[i])
  }

  function AllNormalized(components: seq<string>): (r: seq<string>)
    ensures |r| == |components|
  {
    seq(|components|, i requires 0 <= i < |components| => Normalized(components[i]))
  }

  /** `segments.join(".")`, continued after what is already written. */
  function JoinedAfter(segments: seq<string>): string {
    if segments == [] then [] else ['.'] + segments[0] + JoinedAfter(segments[1..])
  }

  /** `module_name` on the components of a path relative to the source root, the file
      extension already removed from the last one; `None` where the script panics. */
  function ModuleName(components: seq<string>): Option<string> {
    var segments := AllNormalized(components);
    if forall i :: 0 <= i < |segments| ==> IsSegment(segments[i])
    then Some("std" + JoinedAfter(segments))
    else None
  }

  method BuildModuleName(components: seq<string>) returns (r: Option<string>)
    ensures r == ModuleName(components)
  {
    var name := "std";
    ghost var segments := AllNormalized(components);
    for i := 0 to |components|
      invariant forall j :: 0 <= j < i ==> IsSegment(segments[j])
      invariant name + JoinedAfter(segments[i..]) == "std" + JoinedAfter(segments)
    {
      var segment := Normalized(components[i]);
      if !(segment != [] && forall j :: 0 <= j < |segment| ==> IsNameChar(segment[j])) {
        assert !IsSegment(segments[i]);
        return None;
      }
      assert segments[i..][1..] == segments[i + 1..];
      name := name + ['.'] + segment;
    }
    assert segments[|components|..] == [] && name + [] == name;
    r := Some(name);
  }

  lemma {:induction false} JoinedOneMore(segments: seq<string>, last: string)
    ensures JoinedAfter(segments + [last]) == JoinedAfter(segments) + "." + last
  {
    var all := segments + [last];
    if segments == [] {
      assert all[1..] == [];
    } else {
      assert all[1..] == segments[1..] + [last];
      JoinedOneMore(segments[1..], last);
    }
  }

  /** The root is `std`, and a file or directory adds a dot and its own name with
      underscores for dashes, provided that is a segment. */
  lemma NameOfChild(parent: seq<string>, child: string)
    ensures ModuleName([]) == Some("std")
    ensures ModuleName(parent + [child]).Some? <==> ModuleName(parent).Some? && IsSegment(Normalized(child))
    ensures ModuleName(parent + [child]).Some? ==>
              ModuleName(parent + [child]).value == ModuleName(parent).value + "." + Normalized(child)
  {
    assert "std" + JoinedAfter([]) == "std";
    var all, front := AllNormalized(parent + [child]), AllNormalized(parent);
    assert all == front + [Normalized(child)];
    assert forall i :: 0 <= i < |front| ==> all[i] == front[i];
    assert all[|front|] == Normalized(child);
    JoinedOneMore(front, Normalized(child));
  }

  /** The name determines the normalized components: only `-` and `_` are confused. */
  lemma {:induction false} JoinedIsInjective(a: seq<string>, b: seq<string>)
    requires forall i :: 0 <= i < |a| ==> IsSegment(a[i])
    requires forall i :: 0 <= i < |b| ==> IsSegment(b[i])
    requires JoinedAfter(a) == JoinedAfter(b)
    ensures a == b
  {
    if a == [] || b == [] {
      assert JoinedAfter(a) == [] <==> a == [];
      assert JoinedAfter(b) == [] <==> b == [];
    } else {
      var x, y := JoinedAfter(a[1..]), JoinedAfter(b[1..]);
      assert IsSegment(a[0]) && IsSegment(b[0]);
      assert JoinedAfter(a)[1..] == a[0] + x && JoinedAfter(b)[1..] == b[0] + y;
      SegmentSplits(a[0], x, b[0], y);
      JoinedIsInjective(a[1..], b[1..]);
      assert a == [a[0]] + a[1..] && b == [b[0]] + b[1..];
    }
  }

  /** Length of the longest prefix of name characters. */
  function NameRun(s: string): nat {
    if s == [] || !IsNameChar(s[0]) then 0 else 1 + NameRun(s[1..])
  }

  lemma {:induction false} NameRunOfAppend(a: string, x: string)
    requires forall i :: 0 <= i < |a| ==> IsNameChar(a[i])
    requires x != [] ==> !IsNameChar(x[0])
    ensures NameRun(a + x) == |a|
  {
    if a == [] {
      assert a + x == x;
    } else {
      assert (a + x)[1..] == a[1..] + x;
      NameRunOfAppend(a[1..], x);
    }
  }

  /** Two segments followed by nothing or a dot are equal when the texts are. */
  lemma SegmentSplits(a: string, x: string, b: string, y: string)
    requires IsSegment(a) && IsSegment(b)
    requires x != [] ==> x[0] == '.'
    requires y != [] ==> y[0] == '.'
    requires a + x == b + y
    ensures a == b && x == y
  {
    var s, t := a + x, b + y;
    NameRunOfAppend(a, x);
    NameRunOfAppend(b, y);
    assert s[..|a|] == a && t[..|b|] == b;
    assert s[|a|..] == x && t[|b|..] == y;
  }

  lemma NamesConfuseOnlyDashes(p: seq<string>, q: seq<string>)
    requires ModuleName(p).Some? && ModuleName(q).Some?
    ensures ModuleName(p) == ModuleName(q) <==> AllNormalized(p) == AllNormalized(q)
  {
    var a, b := AllNormalized(p), AllNormalized(q);
    if ModuleName(p) == ModuleName(q) {
      assert ("std" + JoinedAfter(a))[3..] == JoinedAfter(a);
      assert ("std" + JoinedAfter(b))[3..] == JoinedAfter(b);
      JoinedIsInjective(a, b);
    }
  }

  /** A module name is ASCII text without a zero byte. */
  predicate IsName(name: string) {
    forall i :: 0 <= i < |name| ==> IsNameChar(name[i]) || name[i] == '.'
  }

  lemma {:induction false} JoinedIsName(segments: seq<string>)
    requires forall i :: 0 <= i < |segments| ==> IsSegment(segments[i])
    ensures IsName(JoinedAfter(segments))
  {
    if segments != [] {
      assert IsSegment(segments[0]);
      JoinedIsName(segments[1..]);
    }
  }

  lemma ModuleNameIsName(components: seq<string>)
    requires ModuleName(components).Some?
    ensures IsName(ModuleName(components).value)
  {
    JoinedIsName(AllNormalized(components));
  }

  function Ascii(name: string): (r: Bytes)
    requires IsName(name)
    ensures |r| == |name|
    ensures forall i :: 0 <= i < |r| ==> r[i] == name[i] as int && r[i] != 0
  {
    seq(|name|, i requires 0 <= i < |name| => assert IsNameChar(name[i]) || name[i] == '.'; name[i] as int)
  }

  // ----- UTF-8 (section 4 of RFC 3629) -----

  predicate IsTail(b: byte) {
    0x80 <= b <= 0xBF
  }

  /** The length of the UTF-8 encoded character at the front of `s`, or 0 if there is none. */
  function CharLength(s: Bytes): (n: nat)
    ensures n <= |s| && n <= 4
  {
    if s == [] then 0
    else if s[0] <= 0x7F then 1
    else if |s| >= 2 && 0xC2 <= s[0] <= 0xDF && IsTail(s[1]) then 2
    else if |s| >= 3 && IsTail(s[1]) && IsTail(s[2])
            && ((s[0] == 0xE0 && 0xA0 <= s[1]) || 0xE1 <= s[0] <= 0xEC
                || (s[0] == 0xED && s[1] <= 0x9F) || 0xEE <= s[0] <= 0xEF) then 3
    else if |s| >= 4 && IsTail(s[1]) && IsTail(s[2]) && IsTail(s[3])
            && ((s[0] == 0xF0 && 0x90 <= s[1]) || 0xF1 <= s[0] <= 0xF3
                || (s[0] == 0xF4 && s[1] <= 0x8F)) then 4
    else 0
  }

  predicate IsUtf8(s: Bytes)
    decreases |s|
  {
    s == [] || (CharLength(s) > 0 && IsUtf8(s[CharLength(s)..]))
  }

  lemma {:induction false} Utf8HasNoFF(s: Bytes)
    requires IsUtf8(s)
    ensures 0xFF !in s
    decreases |s|
  {
    if s != [] {
      var n := CharLength(s);
      Utf8HasNoFF(s[n..]);
      assert s == s[..n] + s[n..];
      assert 0xFF !in s[..n];
    }
  }

  // ----- the framed stream -----

  datatype Module = Module(name: string, source: Bytes)

  /** What `module_name` and `read_to_string` guarantee of an entry. */
  predicate IsEntry(m: Module) {
    IsName(m.name) && IsUtf8(m.source)
  }

  predicate AreEntries(modules: seq<Module>) {
    forall i :: 0 <= i < |modules| ==> IsEntry(modules[i])
  }

  function Frame(m: Module): Bytes
    requires IsEntry(m)
  {
    Ascii(m.name) + [0] + m.source + [0xFF]
  }

  function Stream(modules: seq<Module>): Bytes
    requires AreEntries(modules)
  {
    if modules == [] then [] else Frame(modules[0]) + Stream(modules[1..])
  }

  /** How many bytes come before the first `stop`. */
  function BeforeStop(s: Bytes, stop: byte): nat {
    if s == [] || s[0] == stop then 0 else 1 + BeforeStop(s[1..], stop)
  }

  lemma {:induction false} StopOfAppend(a: Bytes, x: Bytes, stop: byte)
    requires stop !in a
    ensures BeforeStop(a + [stop] + x, stop) == |a|
  {
    if a != [] {
      assert (a + [stop] + x)[1..] == a[1..] + [stop] + x;
      StopOfAppend(a[1..], x, stop);
    }
  }

  lemma SplitsAtStop(a: Bytes, x: Bytes, b: Bytes, y: Bytes, stop: byte)
    requires stop !in a && stop !in b
    requires a + [stop] + x == b + [stop] + y
    ensures a == b && x == y
  {
    var s, t := a + [stop] + x, b + [stop] + y;
    StopOfAppend(a, x, stop);
    StopOfAppend(b, y, stop);
    assert s[..|a|] == a && t[..|b|] == b;
    assert s[|a| + 1..] == x && t[|b| + 1..] == y;
  }

  lemma FrameSplits(m: Module, x: Bytes, n: Module, y: Bytes)
    requires IsEntry(m) && IsEntry(n)
    requires Frame(m) + x == Frame(n) + y
    ensures m == n && x == y
  {
    Utf8HasNoFF(m.source);
    Utf8HasNoFF(n.source);
    assert Frame(m) + x == Ascii(m.name) + [0] + (m.source + [0xFF] + x);
    assert Frame(n) + y == Ascii(n.name) + [0] + (n.source + [0xFF] + y);
    SplitsAtStop(Ascii(m.name), m.source + [0xFF] + x, Ascii(n.name), n.source + [0xFF] + y, 0);
    SplitsAtStop(m.source, x, n.source, y, 0xFF);
    assert forall i :: 0 <= i < |m.name| ==> m.name[i] as int == Ascii(m.name)[i];
    assert m.name == n.name;
  }

  /** The hashed stream determines the ordered list of names and sources. */
  lemma {:induction false} StreamIsInjective(a: seq<Module>, b: seq<Module>)
    requires AreEntries(a) && AreEntries(b)
    requires Stream(a) == Stream(b)
    ensures a == b
  {
    if a == [] || b == [] {
      assert Stream(a) == [] <==> a == [];
      assert Stream(b) == [] <==> b == [];
    } else {
      FrameSplits(a[0], Stream(a[1..]), b[0], Stream(b[1..]));
      StreamIsInjective(a[1..], b[1..]);
      assert a == [a[0]] + a[1..] && b == [b[0]] + b[1..];
    }
  }

  /** The fingerprint loop: every byte of every frame goes into the state. */
  method ComputeFingerprint(modules: seq<Module>) returns (fingerprint: nat)
    requires AreEntries(modules)
    ensures fingerprint == Fnv(OFFSET_BASIS, Stream(modules))
  {
    fingerprint := OFFSET_BASIS;
    for i := 0 to |modules|
      invariant Fnv(fingerprint, Stream(modules[i..])) == Fnv(OFFSET_BASIS, Stream(modules))
    {
      var bytes := Frame(modules[i]);
      ghost var rest := Stream(modules[i + 1..]);
      assert modules[i..][1..] == modules[i + 1..];
      for j := 0 to |bytes|
        invariant Fnv(fingerprint, bytes[j..] + rest) == Fnv(OFFSET_BASIS, Stream(modules))
      {
        assert (bytes[j..] + rest)[1..] == bytes[j + 1..] + rest;
        fingerprint := Xor(fingerprint, bytes[j]);
        fingerprint := fingerprint * PRIME % MODULUS;
      }
      assert bytes[|bytes|..] + rest == rest;
    }
  }
}
