/** The lines that the emitter puts behind the last arm hold neither arms nor descriptors. */
module LoweringTails {
  import opened PythonText
  import opened LoweringText
  import opened LoweringArms
  import opened LoweringDescriptors
  import opened LoweringHelperArms
  import opened LoweringTableText
  import opened LoweringTableRoundTrip

  /** The end of most tables. */
  const MATCH_TAIL: seq<string> := ["        _ => None,", "    }", "}"]

  /** The end of the table of the `std.api` functions. */
  const API_TAIL: seq<string> := MATCH_TAIL + [
    "",
    IntrospectionText(),
    ApiFunctionText(),
    DescriptorText(),
    SignatureText(),
    LookupText(),
    "}"]

  function IntrospectionText(): string {
    "/// Contract " + "introspection" + ":" + (" resolves the " + ("registered host" + "-call name the"))
  }

  function ApiFunctionText(): string {
    "/// `std.api." + ("<module>.<function>" + ("` lowering would " + ("target, without " + "exposing the")))
  }

  function DescriptorText(): string {
    "/// internal " + ("descriptor type. " + ("Used by cross-crate " + "contract drift tests."))
  }

  function SignatureText(): string {
    "pub fn std_api_" + "host_call_target"
    + "(" + ("module" + ":" + (" &str, function" + ":" + (" &str) -> Option" + "<&'static str> {")))
  }

  function LookupText(): string {
    "    lookup_std_" + "api_host_function" + "(" + ("module, function)" + ".map" + "(" + "|d| d.runtime_name)")
  }

  lemma MatchTailIsRemarks()
    ensures AreRemarks(MATCH_TAIL)
  {
    forall i | 0 <= i < |MATCH_TAIL| ensures IsRemark(MATCH_TAIL[i]) {
      PlainIsRemark(MATCH_TAIL[i]);
    }
  }

  // ----- colons and brackets -----

  /** Both keys end in a letter other than those in front of the colon. */
  lemma NoKeyAcross(a: string, b: string, key: string)
    requires |key| > 3 && key[|key| - 1] == ':' && (forall i :: 0 <= i < |key| - 1 ==> key[i] != ':')
    requires ':' !in a && |a| >= 2 && a[|a| - 2] != key[|key| - 3] && !Has(b, key)
    ensures !Has(a + ":" + b, key)
  {
    var s := a + ":" + b;
    FirstFound(s, key);
    if Has(s, key) {
      var at := Find(s, key).value;
      KeyIsAt(s, at, key);
      KeyIsBehind(s, a, b, at, key);
      assert s[at..] == b[at - |a| - 1..];
      OccursAt(b, key, at - |a| - 1);
    }
  }

  lemma KeyIsBehind(s: string, a: string, b: string, at: nat, key: string)
    requires |key| > 3 && s == a + ":" + b && at + |key| <= |s| && ':' !in a && |a| >= 2
    requires a[|a| - 2] != key[|key| - 3]
    requires s[at + |key| - 3] == key[|key| - 3] && s[at + |key| - 1] == ':'
    requires forall i :: at <= i < at + |key| - 1 ==> s[i] != ':'
    ensures at > |a|
  {
    assert forall i :: 0 <= i < |a| ==> s[i] == a[i] && s[i] != ':';
    assert s[|a|] == ':';
  }

  lemma KeyIsAt(s: string, at: nat, key: string)
    requires |key| > 3 && key[|key| - 1] == ':' && (forall i :: 0 <= i < |key| - 1 ==> key[i] != ':')
    requires at + |key| <= |s| && StartsWith(s[at..], key)
    ensures s[at + |key| - 3] == key[|key| - 3] && s[at + |key| - 1] == ':'
    ensures forall i :: at <= i < at + |key| - 1 ==> s[i] != ':'
  {
    forall i | 0 <= i < |key| ensures s[at + i] == key[i] {
      PrefixAt(s[at..], key, i);
    }
    forall i | at <= i < at + |key| - 1 ensures s[i] != ':' {
      assert s[at + (i - at)] == key[i - at];
    }
  }

  predicate HasNoKey(s: string) {
    !Has(s, TypeKey()) && !Has(s, NameKey())
  }

  lemma NoKeysAcross(a: string, b: string)
    requires ':' !in a && |a| >= 2 && a[|a| - 2] != 'p' && a[|a| - 2] != 'm' && HasNoKey(b)
    ensures HasNoKey(a + ":" + b)
  {
    NoKeyAcross(a, b, TypeKey());
    NoKeyAcross(a, b, NameKey());
  }

  lemma NoColonNoKeys(s: string)
    requires ':' !in s
    ensures HasNoKey(s)
  {
    NoColonNoKey(s, TypeKey());
    NoColonNoKey(s, NameKey());
  }

  predicate EndsIn(s: string, c: char, d: char) {
    |s| >= 2 && s[|s| - 2] == c && s[|s| - 1] == d
  }

  /** The text does not end in the name's last two letters. */
  predicate EndsUnlike(a: string, name: string) {
    |a| >= 2 && |name| >= 2 && !EndsIn(a, name[|name| - 2], name[|name| - 1])
  }

  lemma NoCallAcross(a: string, b: string, name: string)
    requires '(' !in a && EndsUnlike(a, name) && AllIdent(name) && !HasCall(b, name)
    ensures !HasCall(a + "(" + b, name)
  {
    var s := a + "(" + b;
    forall i | 0 <= i <= |s| ensures !IsCallAt(s, name, i) {
      var end := i + |name|;
      if end < |a| || end >= |s| {
        NoBracketNoCall(s, name, i);
      } else if end == |a| {
        NoSuchEnd(a, s, name, i);
      } else if i <= |a| {
        assert s[i..][|a| - i] == '(';
        OtherHead(s[i..], name + "(", |a| - i);
      } else {
        assert !IsCallAt(b, name, i - |a| - 1);
        assert s[i..] == b[i - |a| - 1..];
      }
    }
  }

  lemma NoSuchEnd(a: string, s: string, name: string, i: nat)
    requires EndsUnlike(a, name) && i + |name| == |a| && |s| > |a| && s[..|a|] == a
    ensures !IsCallAt(s, name, i)
  {
    var k := if a[|a| - 2] != name[|name| - 2] then |name| - 2 else |name| - 1;
    assert s[i..][k] == s[i + k] == a[i + k];
    OtherHead(s[i..], name + "(", k);
  }

  predicate HasHelperEnd(name: string) {
    || EndsIn(name, 'n', 't') || EndsIn(name, 'a', 't') || EndsIn(name, 'o', 'l') || EndsIn(name, 'n', 'g')
    || EndsIn(name, 'i', 'd') || EndsIn(name, 'k', '0') || EndsIn(name, 'i', 'c')
  }

  lemma HelperEnds(h: Helper)
    requires h in DESCRIPTORS
    ensures HasHelperEnd(h.name)
  {
    ShortEnds();
    LongEnds();
  }

  lemma ShortEnds()
    ensures HasHelperEnd("host_int") && HasHelperEnd("host_float") && HasHelperEnd("host_bool")
    ensures HasHelperEnd("host_string") && HasHelperEnd("host_void")
  {
  }

  lemma LongEnds()
    ensures HasHelperEnd("host_task_int") && HasHelperEnd("host_task_bool") && HasHelperEnd("host_task_string")
    ensures HasHelperEnd("host_tensor_rank0") && HasHelperEnd("host_tensor_dynamic")
  {
  }

  /** A call of another function, in front of a remark that starts with a plain character. */
  lemma OtherCall(a: string, b: string)
    requires '(' !in a && (EndsIn(a, 'e', 't') || EndsIn(a, 'o', 'n') || EndsIn(a, 'a', 'p'))
    requires IsMild(b) && b != [] && IsPlainChar(b[0]) && forall h :: h in DESCRIPTORS ==> !HasCall(b, h.name)
    ensures IsMild(a + "(" + b) && forall h :: h in DESCRIPTORS ==> !HasCall(a + "(" + b, h.name)
  {
    MildCall(a, b);
    forall h | h in DESCRIPTORS ensures !HasCall(a + "(" + b, h.name) {
      HelperEnds(h);
      HelperNames(h);
      NoCallAcross(a, b, h.name);
    }
  }

  /** A text without brackets: it may have colons. */
  lemma NoBracketNoCalls(s: string)
    requires '(' !in s
    ensures IsMild(s) && forall h :: h in DESCRIPTORS ==> !HasCall(s, h.name)
  {
    NoBracketIsMild(s);
    forall h | h in DESCRIPTORS ensures !HasCall(s, h.name) {
      forall i | 0 <= i <= |s| ensures !IsCallAt(s, h.name, i) {
        NoBracketNoCall(s, h.name, i);
      }
    }
  }

  // ----- the lines -----

  lemma ColonLine(a: string, b: string)
    requires IsAround(a) && IsAround(b) && |a| >= 2 && a[|a| - 2] != 'p' && a[|a| - 2] != 'm'
    ensures IsRemark(a + ":" + b)
  {
    NoColonNoKeys(b);
    NoKeysAcross(a, b);
    NoBracketNoCalls(a + ":" + b);
  }

  lemma SignatureLine(name: string, a: string, b: string, c: string)
    requires IsAround(name) && EndsIn(name, 'e', 't')
    requires IsAround(a) && |a| >= 2 && a[|a| - 2] != 'p' && a[|a| - 2] != 'm' && IsPlainChar(a[0])
    requires IsAround(b) && |b| >= 2 && b[|b| - 2] != 'p' && b[|b| - 2] != 'm' && IsAround(c)
    ensures IsRemark(name + "(" + (a + ":" + (b + ":" + c)))
  {
    var bc := b + ":" + c;
    var abc := a + ":" + bc;
    NoColonNoKeys(c);
    NoKeysAcross(b, c);
    var front := name + "(" + a;
    NoKeysAcross(front, bc);
    assert front + ":" + bc == name + "(" + abc;
    NoBracketNoCalls(abc);
    OtherCall(name, abc);
  }

  lemma BodyLine(name: string, a: string, b: string)
    requires IsAround(name) && EndsIn(name, 'o', 'n')
    requires IsAround(a) && EndsIn(a, 'a', 'p') && IsPlainChar(a[0])
    requires IsAround(b) && b != [] && IsPlainChar(b[0])
    ensures IsRemark(name + "(" + (a + "(" + b))
  {
    NoBracketNoCalls(b);
    OtherCall(a, b);
    OtherCall(name, a + "(" + b);
    NoColonNoKeys(name + "(" + (a + "(" + b));
  }

  lemma EndOfTwo(a: string, b: string, c: char, d: char)
    requires EndsIn(b, c, d)
    ensures EndsIn(a + b, c, d)
  {
  }

  lemma AroundTwo(a: string, b: string)
    requires IsAround(a) && IsAround(b)
    ensures IsAround(a + b)
  {
  }

  lemma AroundFour(a: string, b: string, c: string, d: string)
    requires IsAround(a) && IsAround(b) && IsAround(c) && IsAround(d)
    ensures IsRemark(a + (b + (c + d)))
  {
    PlainIsRemark(a + (b + (c + d)));
  }

  lemma IntrospectionParts()
    ensures IsAround("/// Contract ") && IsAround("introspection") && IsAround(" resolves the ")
  {
  }

  lemma RegisteredParts()
    ensures IsAround("registered host") && IsAround("-call name the")
  {
  }

  lemma IntrospectionIsRemark()
    ensures IsRemark(IntrospectionText())
  {
    IntrospectionParts();
    RegisteredParts();
    AroundTwo("/// Contract ", "introspection");
    AroundTwo("registered host", "-call name the");
    AroundTwo(" resolves the ", "registered host" + "-call name the");
    ColonLine("/// Contract " + "introspection", " resolves the " + ("registered host" + "-call name the"));
  }

  lemma ApiFunctionParts()
    ensures IsAround("/// `std.api.") && IsAround("<module>.<function>")
  {
  }

  lemma PurposeParts()
    ensures IsAround("` lowering would ") && IsAround("target, without ") && IsAround("exposing the")
  {
  }

  lemma ApiFunctionIsRemark()
    ensures IsRemark(ApiFunctionText())
  {
    ApiFunctionParts();
    PurposeParts();
    AroundTwo("target, without ", "exposing the");
    AroundFour("/// `std.api.", "<module>.<function>", "` lowering would ", "target, without " + "exposing the");
  }

  lemma DescriptorParts()
    ensures IsAround("/// internal ") && IsAround("descriptor type. ")
  {
  }

  lemma UsedByParts()
    ensures IsAround("Used by cross-crate ") && IsAround("contract drift tests.")
  {
  }

  lemma DescriptorIsRemark()
    ensures IsRemark(DescriptorText())
  {
    DescriptorParts();
    UsedByParts();
    AroundFour("/// internal ", "descriptor type. ", "Used by cross-crate ", "contract drift tests.");
  }

  lemma SignatureParts()
    ensures IsAround("pub fn std_api_") && IsAround("host_call_target") && EndsIn("host_call_target", 'e', 't')
    ensures IsAround("module")
  {
  }

  lemma ParameterParts()
    ensures IsAround(" &str, function") && IsAround(" &str) -> Option") && IsAround("<&'static str> {")
  {
  }

  lemma SignatureIsRemark()
    ensures IsRemark(SignatureText())
  {
    SignatureParts();
    ParameterParts();
    var name := "pub fn std_api_" + "host_call_target";
    AroundTwo("pub fn std_api_", "host_call_target");
    EndOfTwo("pub fn std_api_", "host_call_target", 'e', 't');
    AroundTwo(" &str) -> Option", "<&'static str> {");
    SignatureLine(name, "module", " &str, function", " &str) -> Option" + "<&'static str> {");
  }

  lemma LookupParts()
    ensures IsAround("    lookup_std_") && IsAround("api_host_function") && EndsIn("api_host_function", 'o', 'n')
  {
  }

  lemma MappedParts()
    ensures IsAround("module, function)") && IsAround(".map") && EndsIn(".map", 'a', 'p')
    ensures IsAround("|d| d.runtime_name)")
  {
  }

  lemma LookupIsRemark()
    ensures IsRemark(LookupText())
  {
    LookupParts();
    MappedParts();
    AroundTwo("    lookup_std_", "api_host_function");
    EndOfTwo("    lookup_std_", "api_host_function", 'o', 'n');
    AroundTwo("module, function)", ".map");
    EndOfTwo("module, function)", ".map", 'a', 'p');
    BodyLine("    lookup_std_" + "api_host_function", "module, function)" + ".map", "|d| d.runtime_name)");
  }

  lemma PlainLines()
    ensures IsRemark("") && IsRemark("}")
  {
    PlainIsRemark("");
    PlainIsRemark("}");
  }

  lemma ApiTailIsRemarks()
    ensures AreRemarks(API_TAIL)
  {
    IntrospectionIsRemark();
    ApiFunctionIsRemark();
    DescriptorIsRemark();
    SignatureIsRemark();
    LookupIsRemark();
    PlainLines();
    SevenRemarks("", IntrospectionText(), ApiFunctionText(), DescriptorText(), SignatureText(), LookupText(), "}");
  }

  lemma SevenRemarks(a: string, b: string, c: string, d: string, e: string, f: string, g: string)
    requires IsRemark(a) && IsRemark(b) && IsRemark(c) && IsRemark(d) && IsRemark(e) && IsRemark(f) && IsRemark(g)
    ensures AreRemarks(MATCH_TAIL + [a, b, c, d, e, f, g])
  {
    MatchTailIsRemarks();
  }
}
