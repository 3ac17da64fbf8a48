/** The catalog's IR return types, the Rust expression the table generator prints for
    them, and the catalog generator's reader that turns the expression back into text. */
module LoweringTypes {
  import opened Wrappers
  import opened PythonText

  // ----- the catalog's type texts, as `render_ir` tells them apart -----

  datatype IrType =
    | Simple(name: string)
    | ErrorType
    | ResultOf(inner: IrType)
    | OptionString
    | Collection(kind: string, args: string)
    | Tensor(dtype: string, rank: Option<string>)

  /** Collections of one element type, in the order in which names are tried on reading. */
  const UNARY: seq<string> := ["List", "Vector", "Set", "Iterator", "Stack", "Queue", "HashSet", "PriorityQueue"]

  const BINARY: seq<string> := ["OrderedMap", "Map"]

  predicate IsKind(kind: string) {
    kind in UNARY || kind in BINARY
  }

  /** The catalog text of a type. */
  function TypeText(t: IrType): string {
    match t
    case Simple(name) => name
    case ErrorType => "Error"
    case ResultOf(inner) => "Result" + "<" + TypeText(inner) + ">"
    case OptionString => "Option<string>"
    case Collection(kind, args) => kind + "<" + args + ">"
    case Tensor(dtype, rank) => "Tensor<" + dtype + (if rank.None? then "" else ",rank=" + rank.value) + ">"
  }

  // ----- struct names -----

  /** `re.sub(r"[<>,]", "_", ...)` */
  function Flattened(s: string): (r: string)
    ensures |r| == |s|
    ensures forall i :: 0 <= i < |s| ==> r[i] == if s[i] in "<>," then '_' else s[i]
  {
    seq(|s|, i requires 0 <= i < |s| => if s[i] in "<>," then '_' else s[i])
  }

  /** `.rstrip("_")` */
  function WithoutTail(s: string): (r: string)
    ensures |r| <= |s|
  {
    if s != [] && s[|s| - 1] == '_' then WithoutTail(s[..|s| - 1]) else s
  }

  lemma {:induction false} WithoutTailIsPrefix(s: string)
    ensures var r := WithoutTail(s);
            && r == s[..|r|] && (r == [] || r[|r| - 1] != '_')
            && forall i :: |r| <= i < |s| ==> s[i] == '_'
  {
    if s != [] && s[|s| - 1] == '_' {
      WithoutTailIsPrefix(s[..|s| - 1]);
    }
  }

  /** The struct name under which a collection type is printed. */
  function StructName(kind: string, args: string): string {
    WithoutTail(Flattened(kind + "<" + args + ">"))
  }

  /** The first of `kinds` that, with the mark behind it, starts the text. */
  function KindWith(text: string, mark: string, kinds: seq<string>): (r: Option<string>)
    ensures r.Some? ==> r.value in kinds && StartsWith(text, r.value + mark)
  {
    if kinds == [] then None
    else if StartsWith(text, kinds[0] + mark) then Some(kinds[0])
    else KindWith(text, mark, kinds[1..])
  }

  /** The index of the first underscore, or the length. */
  function FirstUnderscore(s: string): (n: nat)
    ensures n <= |s|
  {
    if s == [] || s[0] == '_' then 0 else 1 + FirstUnderscore(s[1..])
  }

  lemma {:induction false} NoUnderscoreBefore(s: string)
    ensures var n := FirstUnderscore(s); !HasUnderscore(s[..n]) && (n < |s| ==> s[n] == '_')
  {
    if s != [] && s[0] != '_' {
      NoUnderscoreBefore(s[1..]);
      var n := FirstUnderscore(s);
      assert s[..n] == [s[0]] + s[1..][..n - 1];
    }
  }

  /** `struct_ir_name`; `None` where unpacking `split("_", 1)` fails. */
  function StructIrName(name: string): Option<string> {
    match KindWith(name, "_", UNARY)
    case Some(kind) => Some(kind + "<" + name[|kind| + 1..] + ">")
    case None =>
      match KindWith(name, "_", BINARY)
      case None => Some(name)
      case Some(kind) =>
        var rest := name[|kind| + 1..];
        var n := FirstUnderscore(rest);
        if n == |rest| then None
        else Some(kind + "<" + rest[..n] + "," + rest[n + 1..] + ">")
  }

  // ----- which collection types survive printing and reading -----

  predicate HasUnderscore(s: string) {
    exists i :: 0 <= i < |s| && s[i] == '_'
  }

  predicate IsFlat(s: string) {
    forall i :: 0 <= i < |s| ==> s[i] !in "<>,"
  }

  predicate EndsPlainly(s: string) {
    s != [] && s[|s| - 1] != '_'
  }

  /** One flat argument that does not end in an underscore. */
  predicate IsReadableElement(args: string) {
    IsFlat(args) && EndsPlainly(args)
  }

  /** A key without underscores, a comma, and a flat value that does not end in one. */
  predicate IsReadablePair(args: string) {
    exists n :: 0 <= n < |args| && IsPairAt(args, n)
  }

  predicate IsPairAt(args: string, n: nat)
    requires n < |args|
  {
    args[n] == ',' && IsFlat(args[..n]) && !HasUnderscore(args[..n]) && IsReadableElement(args[n + 1..])
  }

  predicate IsReadable(kind: string, args: string) {
    (kind in UNARY && IsReadableElement(args)) || (kind in BINARY && IsReadablePair(args))
  }

  lemma KindsHaveNoUnderscore(kind: string)
    requires IsKind(kind)
    ensures !HasUnderscore(kind) && IsFlat(kind) && EndsPlainly(kind)
  {
    if kind in UNARY {
      UnaryIsPlain(kind);
    }
  }

  lemma UnaryIsPlain(kind: string)
    requires kind in UNARY
    ensures !HasUnderscore(kind) && IsFlat(kind) && EndsPlainly(kind)
  {
  }

  lemma {:induction false} UnderscoreAt(kind: string, w: string)
    requires !HasUnderscore(kind)
    ensures FirstUnderscore(kind + "_" + w) == |kind|
  {
    if kind != [] {
      assert (kind + "_" + w)[1..] == kind[1..] + "_" + w;
      assert !HasUnderscore(kind[1..]) by {
        assert forall i :: 0 <= i < |kind[1..]| ==> kind[1..][i] == kind[i + 1];
      }
      UnderscoreAt(kind[1..], w);
    }
  }

  /** With an underscore behind it, a kind is recognised and no other one is. */
  lemma OnlyItsOwnPrefix(kind: string, w: string, other: string)
    requires !HasUnderscore(kind) && !HasUnderscore(other)
    ensures StartsWith(kind + "_" + w, other + "_") <==> other == kind
  {
    var name, p := kind + "_" + w, other + "_";
    UnderscoreAt(kind, w);
    if other == kind {
      assert name[..|p|] == p;
    }
    if StartsWith(name, p) {
      assert name == other + "_" + name[|p|..];
      UnderscoreAt(other, name[|p|..]);
      assert kind == name[..|kind|] == other;
    }
  }

  lemma {:induction false} KindIsFound(kind: string, w: string, kinds: seq<string>)
    requires !HasUnderscore(kind) && forall k :: k in kinds ==> !HasUnderscore(k)
    ensures KindWith(kind + "_" + w, "_", kinds) == if kind in kinds then Some(kind) else None
  {
    if kinds != [] {
      OnlyItsOwnPrefix(kind, w, kinds[0]);
      KindIsFound(kind, w, kinds[1..]);
    }
  }

  lemma PrefixShows(name: string, kind: string)
    requires StartsWith(name, kind + "_")
    ensures HasUnderscore(name)
  {
    var p := kind + "_";
    assert name[|kind|] == name[..|p|][|kind|] == p[|kind|];
  }

  lemma {:induction false} BareKindIsNotFound(name: string, kinds: seq<string>)
    requires !HasUnderscore(name)
    ensures KindWith(name, "_", kinds) == None
  {
    if kinds != [] {
      if StartsWith(name, kinds[0] + "_") {
        PrefixShows(name, kinds[0]);
      }
      BareKindIsNotFound(name, kinds[1..]);
    }
  }

  /** The printed name: the kind alone, or the kind and the flattened arguments. */
  lemma NameOfCollection(kind: string, args: string)
    requires IsKind(kind)
    ensures var w := WithoutTail(Flattened(args));
            StructName(kind, args) == if w == [] then kind else kind + "_" + w
  {
    KindsHaveNoUnderscore(kind);
    FlattenedCollection(kind, args);
    TailOfCollection(kind, Flattened(args));
  }

  lemma FlattenedCollection(kind: string, args: string)
    requires IsFlat(kind)
    ensures Flattened(kind + "<" + args + ">") == kind + "_" + Flattened(args) + "_"
  {
    var s := kind + "<" + args + ">";
    var f, r := Flattened(s), kind + "_" + Flattened(args) + "_";
    forall i | 0 <= i < |s| ensures f[i] == r[i] {
      if i < |kind| {
        assert s[i] == kind[i] == r[i];
      } else if |kind| < i < |s| - 1 {
        assert s[i] == args[i - |kind| - 1] && r[i] == Flattened(args)[i - |kind| - 1];
      }
    }
  }

  lemma TailOfCollection(kind: string, f: string)
    requires EndsPlainly(kind)
    ensures var w := WithoutTail(f);
            WithoutTail(kind + "_" + f + "_") == if w == [] then kind else kind + "_" + w
  {
    var s, w := kind + "_" + f + "_", WithoutTail(f);
    WithoutTailIsPrefix(f);
    if w == [] {
      assert s[..|kind|] == kind;
      TailIsUnique(s, kind);
    } else {
      var r := kind + "_" + w;
      assert s[..|r|] == r;
      assert r[|r| - 1] == w[|w| - 1];
      forall i | |r| <= i < |s| ensures s[i] == '_' {
        if i < |s| - 1 {
          assert s[i] == f[i - |kind| - 1];
        }
      }
      TailIsUnique(s, r);
    }
  }

  lemma {:induction false} TailIsUnique(s: string, r: string)
    requires |r| <= |s| && s[..|r|] == r && EndsPlainly(r)
    requires forall i :: |r| <= i < |s| ==> s[i] == '_'
    ensures WithoutTail(s) == r
  {
    if |s| == |r| {
      assert s == r;
    } else {
      assert s[..|s| - 1][..|r|] == r;
      TailIsUnique(s[..|s| - 1], r);
    }
  }

  /** A flattened text without its tail is the text itself exactly for readable elements. */
  lemma ElementSurvives(args: string)
    ensures var w := WithoutTail(Flattened(args)); w != [] && w == args <==> IsReadableElement(args)
  {
    var f := Flattened(args);
    var w := WithoutTail(f);
    WithoutTailIsPrefix(f);
    if w == args && w != [] {
      assert f == args;
      forall i | 0 <= i < |args| ensures args[i] !in "<>," {
        assert f[i] == args[i];
      }
    }
    if IsReadableElement(args) {
      assert f == args;
      TailIsUnique(args, args);
    }
  }

  lemma NoUnderscores()
    ensures forall k :: k in UNARY || k in BINARY ==> !HasUnderscore(k)
  {
    forall k | k in UNARY || k in BINARY ensures !HasUnderscore(k) {
      KindsHaveNoUnderscore(k);
    }
  }

  lemma KindsAreDisjoint(kind: string)
    requires kind in BINARY
    ensures kind !in UNARY
  {
  }

  /** What the reader makes of a kind, an underscore and a rest. */
  function ReadName(kind: string, w: string): Option<string> {
    if kind in UNARY then Some(kind + "<" + w + ">")
    else
      var n := FirstUnderscore(w);
      if n == |w| then None else Some(kind + "<" + (w[..n] + "," + w[n + 1..]) + ">")
  }

  lemma ReadsName(kind: string, w: string)
    requires IsKind(kind)
    ensures StructIrName(kind + "_" + w) == ReadName(kind, w)
  {
    KindsHaveNoUnderscore(kind);
    NoUnderscores();
    KindIsFound(kind, w, UNARY);
    KindIsFound(kind, w, BINARY);
    assert (kind + "_" + w)[|kind| + 1..] == w;
    var n := FirstUnderscore(w);
    if n < |w| {
      RegroupPair(kind, w[..n], w[n + 1..]);
    }
  }

  lemma RegroupPair(kind: string, key: string, value: string)
    ensures kind + "<" + key + "," + value + ">" == kind + "<" + (key + "," + value) + ">"
  {
  }

  lemma ReadsBareKind(kind: string)
    requires IsKind(kind)
    ensures StructIrName(kind) == Some(kind)
  {
    KindsHaveNoUnderscore(kind);
    BareKindIsNotFound(kind, UNARY);
    BareKindIsNotFound(kind, BINARY);
  }

  lemma SameBrackets(kind: string, a: string, b: string)
    ensures kind + "<" + a + ">" == kind + "<" + b + ">" <==> a == b
    ensures kind != kind + "<" + a + ">"
  {
    var x, y := kind + "<" + a + ">", kind + "<" + b + ">";
    assert x[|kind| + 1..|x| - 1] == a && y[|kind| + 1..|y| - 1] == b;
    assert |x| == |kind| + 2 + |a|;
  }

  /** A key, an underscore and a value come from the arguments exactly when those are a pair. */
  lemma PairSurvives(args: string)
    ensures var w := WithoutTail(Flattened(args));
            var n := FirstUnderscore(w);
            (n < |w| && w[..n] + "," + w[n + 1..] == args) <==> IsReadablePair(args)
  {
    var w := WithoutTail(Flattened(args));
    var n := FirstUnderscore(w);
    if n < |w| && w[..n] + "," + w[n + 1..] == args {
      PairIsReadable(args, w, n);
    }
    if IsReadablePair(args) {
      var c :| 0 <= c < |args| && IsPairAt(args, c);
      PairIsKept(args, c);
    }
  }

  lemma PairIsReadable(args: string, w: string, n: nat)
    requires w == WithoutTail(Flattened(args)) && n == FirstUnderscore(w) < |w|
    requires w[..n] + "," + w[n + 1..] == args
    ensures n < |args| && IsPairAt(args, n)
  {
    var f := Flattened(args);
    WithoutTailIsPrefix(f);
    NoUnderscoreBefore(w);
    Rejoined(args, w, n);
    assert f == w;
    assert n < |w| - 1;
    forall i | 0 <= i < |args| && i != n ensures args[i] !in "<>," && (i < n ==> args[i] != '_') {
      assert args[i] == f[i];
      assert i < n ==> w[..n][i] == w[i];
    }
    PairParts(args, n);
  }

  lemma Rejoined(args: string, w: string, n: nat)
    requires n < |w| && w[..n] + "," + w[n + 1..] == args
    ensures |args| == |w| && args[n] == ',' && forall i :: 0 <= i < |args| && i != n ==> args[i] == w[i]
  {
  }

  lemma PairParts(args: string, n: nat)
    requires n < |args| && args[n] == ','
    requires forall i :: 0 <= i < |args| && i != n ==> args[i] !in "<>," && (i < n ==> args[i] != '_')
    ensures IsFlat(args[..n]) && !HasUnderscore(args[..n]) && IsFlat(args[n + 1..])
  {
  }

  lemma PairIsKept(args: string, c: nat)
    requires c < |args| && IsPairAt(args, c)
    ensures var w := WithoutTail(Flattened(args));
            var n := FirstUnderscore(w);
            n < |w| && w[..n] + "," + w[n + 1..] == args
  {
    var key, value, f := args[..c], args[c + 1..], Flattened(args);
    FlattenedPair(args, c);
    assert f[|f| - 1] == value[|value| - 1];
    TailIsUnique(f, f);
    UnderscoreAt(key, value);
    assert f[..c] == key && f[c + 1..] == value;
    assert key + "," + value == args;
  }

  lemma FlattenedPair(args: string, c: nat)
    requires c < |args| && IsPairAt(args, c)
    ensures Flattened(args) == args[..c] + "_" + args[c + 1..]
  {
    var f, r := Flattened(args), args[..c] + "_" + args[c + 1..];
    forall i | 0 <= i < |args| ensures f[i] == r[i] {
      if i < c {
        assert args[..c][i] == args[i];
      } else if i > c {
        assert args[c + 1..][i - c - 1] == args[i];
      }
    }
  }

  /** A collection type comes back from its struct name exactly when it is readable. */
  lemma CollectionSurvives(kind: string, args: string)
    requires IsKind(kind)
    ensures StructIrName(StructName(kind, args)) == Some(kind + "<" + args + ">") <==> IsReadable(kind, args)
  {
    var w := WithoutTail(Flattened(args));
    NameOfCollection(kind, args);
    ReadsBareKind(kind);
    ReadsName(kind, w);
    SameBrackets(kind, args, args);
    if kind in UNARY {
      UnaryReadable(kind, args);
      ElementSurvives(args);
      SameBrackets(kind, w, args);
    } else {
      var n := FirstUnderscore(w);
      PairSurvives(args);
      if n < |w| {
        SameBrackets(kind, w[..n] + "," + w[n + 1..], args);
      }
    }
  }

  lemma UnaryReadable(kind: string, args: string)
    requires kind in UNARY
    ensures IsReadable(kind, args) <==> IsReadableElement(args)
  {
    if kind in BINARY {
      KindsAreDisjoint(kind);
    }
  }

  /** A map key with an underscore: the type reads back with another key. */
  lemma MapKeyExample()
    ensures StructIrName(StructName("Map", "a_b,int")) != Some("Map" + "<" + "a_b,int" + ">")
  {
    var args := "a_b,int";
    forall n | 0 <= n < |args| ensures !IsPairAt(args, n) {
      if n == 3 {
        assert args[..3][1] == '_';
      }
    }
    KindsAreDisjoint("Map");
    CollectionSurvives("Map", args);
  }
}
