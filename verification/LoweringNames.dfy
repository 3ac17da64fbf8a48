/** Catalog texts of types and the struct names of collections, spelled out. */
module LoweringNames {
  import opened Wrappers
  import opened PythonText
  import opened LoweringTypes
  import opened LoweringExpressions

  // ----- which texts are types -----

  /** The ten collections. */
  lemma KindsAre(kind: string)
    ensures IsKind(kind) <==>
              || kind == "List" || kind == "Vector" || kind == "Map" || kind == "Set" || kind == "Iterator"
              || kind == "Stack" || kind == "Queue" || kind == "HashSet" || kind == "OrderedMap"
              || kind == "PriorityQueue"
  {
  }

  /** No bracket in a collection's name, and no first letter of another kind of type. */
  lemma KindLetters(kind: string)
    requires IsKind(kind)
    ensures kind != [] && '<' !in kind && kind[0] in {'L', 'V', 'M', 'S', 'I', 'Q', 'H', 'O', 'P'}
    ensures |kind| > 2 && kind[1] != 'p'
  {
    KindsAre(kind);
  }

  lemma SimpleLetters(name: string)
    requires SimpleIr(name).Some?
    ensures name != [] && name[0] in {'i', 'b', 's', 'f', 'v', 'u', 'r', 'B', 'D'}
  {
  }

  lemma {:induction false} KindBeforeBracket(kind: string, rest: string, kinds: seq<string>)
    requires kind in kinds && '<' !in kind && forall k :: k in kinds ==> '<' !in k
    ensures KindWith(kind + ("<" + rest), "<", kinds) == Some(kind)
  {
    var s := kind + ("<" + rest);
    if kinds[0] == kind {
      AppendStarts(kind + "<", rest);
      assert (kind + "<") + rest == s;
    } else {
      if StartsWith(s, kinds[0] + "<") {
        SamePart(kind, kinds[0], s);
      }
      KindBeforeBracket(kind, rest, kinds[1..]);
    }
  }

  lemma SamePart(a: string, b: string, s: string)
    requires '<' !in a && '<' !in b && StartsWith(s, a + "<") && StartsWith(s, b + "<")
    ensures a == b
  {
    PrefixAt(s, a + "<", |a|);
    PrefixAt(s, b + "<", |b|);
    if |a| < |b| {
      PrefixAt(s, b + "<", |a|);
    } else if |b| < |a| {
      PrefixAt(s, a + "<", |b|);
    } else {
      assert a == s[..|a|] && b == s[..|b|] by {
        assert (a + "<")[..|a|] == a && (b + "<")[..|b|] == b;
        assert s[..|a| + 1][..|a|] == s[..|a|];
      }
    }
  }

  lemma {:induction false} NoKindOf(s: string, kinds: seq<string>)
    requires s != [] && forall k :: k in kinds ==> k != [] && k[0] != s[0]
    ensures KindWith(s, "<", kinds).None?
  {
    if kinds != [] {
      assert kinds[0] in kinds;
      OtherHead(s, kinds[0] + "<", 0);
      assert forall k :: k in kinds[1..] ==> k in kinds;
      NoKindOf(s, kinds[1..]);
    }
  }

  lemma InsideOf(head: string, body: string)
    ensures Inside(head + body + ">", head) == Some(body)
  {
    var s := head + body + ">";
    assert s[..|head|] == head && s[|head|..|s| - 1] == body;
  }

  /** What no scalar, error, result or option starts with. */
  lemma OtherTypesDiffer(s: string)
    requires |s| > 2 && s[0] in {'L', 'V', 'M', 'S', 'I', 'Q', 'H', 'O', 'P', 'T'} && s[1] != 'p'
    ensures SimpleIr(s).None? && s != "Error" && s != "Option<string>" && Inside(s, "Result<").None?
  {
    if SimpleIr(s).Some? {
      SimpleLetters(s);
    }
    OtherHead(s, "Result<", 0);
  }

  lemma CollectionClassified(kind: string, args: string)
    requires IsKind(kind) && '\n' !in args
    ensures Classify(kind + "<" + args + ">") == Some(Collection(kind, args))
  {
    var s := kind + "<" + args + ">";
    KindLetters(kind);
    OtherTypesDiffer(s);
    KindOf(kind, args);
    InsideOf(kind + "<", args);
    NoFeedIn(kind, args);
  }

  lemma KindOf(kind: string, args: string)
    requires IsKind(kind)
    ensures KindWith(kind + "<" + args + ">", "<", UNARY + BINARY) == Some(kind)
  {
    forall k | k in UNARY + BINARY ensures '<' !in k {
      KindLetters(k);
    }
    KindBeforeBracket(kind, args + ">", UNARY + BINARY);
    assert kind + ("<" + (args + ">")) == kind + "<" + args + ">";
  }

  lemma NoFeedIn(kind: string, args: string)
    requires IsKind(kind) && '\n' !in args
    ensures '\n' !in kind + "<" + args + ">"
  {
    KindsAre(kind);
  }

  lemma TensorClassified(dtype: string, rank: Option<string>, s: string)
    requires (dtype == "float" || dtype == "int") && (rank.Some? ==> IsDigits(rank.value))
    requires s == "Tensor<" + dtype + (if rank.None? then "" else ",rank=" + rank.value) + ">"
    ensures Classify(s) == Some(Tensor(dtype, rank))
  {
    var tail := if rank.None? then "" else ",rank=" + rank.value;
    assert s[0] == 'T' && s[1] == 'e' && s[7] == dtype[0];
    OtherTypesDiffer(s);
    NoTensorKind(s);
    InsideOf("Tensor<" + dtype, tail);
    TensorOf(dtype, rank, s);
    if dtype == "int" {
      OtherHead(s, "Tensor<" + "float", 7);
    }
  }

  lemma NoTensorKind(s: string)
    requires s != [] && s[0] == 'T'
    ensures KindWith(s, "<", UNARY + BINARY).None?
  {
    forall k | k in UNARY + BINARY ensures k != [] && k[0] != s[0] {
      KindLetters(k);
    }
    NoKindOf(s, UNARY + BINARY);
  }

  lemma TensorOf(dtype: string, rank: Option<string>, s: string)
    requires rank.Some? ==> IsDigits(rank.value)
    requires Inside(s, "Tensor<" + dtype) == Some(if rank.None? then "" else ",rank=" + rank.value)
    ensures ClassifyTensor(s, dtype) == Some(Tensor(dtype, rank))
  {
    if rank.Some? {
      AppendStarts(",rank=", rank.value);
    }
  }

  /** Every type is found again in its catalog text, so that texts and types determine each other. */
  lemma {:induction false} TypeOfText(t: IrType)
    requires IsRenderable(t)
    ensures Classify(TypeText(t)) == Some(t)
  {
    match t
    case Simple(_) =>
    case ErrorType =>
    case OptionString => OtherHead("Option<string>", "Result<", 0);
    case Collection(kind, args) => CollectionClassified(kind, args);
    case Tensor(dtype, rank) => TensorClassified(dtype, rank, TypeText(t));
    case ResultOf(inner) =>
      TypeOfText(inner);
      ResultClassified(TypeText(inner), inner);
  }

  lemma ResultClassified(text: string, inner: IrType)
    requires Classify(text) == Some(inner)
    ensures Classify("Result" + "<" + text + ">") == Some(ResultOf(inner))
  {
    var s := "Result" + "<" + text + ">";
    assert s[0] == 'R';
    assert SimpleIr(s).None? by {
      if SimpleIr(s).Some? {
        SimpleLetters(s);
      }
    }
    InsideOf("Result<", text);
    assert "Result" + "<" == "Result<";
  }

  // ----- struct names -----

  predicate HasNoMark(s: string) {
    '<' !in s && '>' !in s && ',' !in s
  }

  lemma FlatStays(s: string)
    requires HasNoMark(s)
    ensures Flattened(s) == s
  {
  }

  lemma FlattenedSum(a: string, b: string)
    ensures Flattened(a + b) == Flattened(a) + Flattened(b)
  {
  }

  /** A bracket, and a comma, becomes an underscore. */
  lemma MarksBecomeUnderscores()
    ensures Flattened("<") == "_" && Flattened(">") == "_" && Flattened(",") == "_"
  {
  }

  lemma TailGoes(s: string)
    requires s == [] || s[|s| - 1] != '_'
    ensures WithoutTail(s + "_") == s
  {
    assert (s + "_")[..|s|] == s;
    assert WithoutTail(s) == s;
  }

  /** The name of a collection of one element type. */
  lemma NameOfOne(kind: string, element: string)
    requires HasNoMark(kind) && HasNoMark(element) && element != [] && element[|element| - 1] != '_'
    ensures StructName(kind, element) == kind + "_" + element
  {
    var name := kind + "_" + element;
    FlatStays(kind);
    FlatStays(element);
    MarksBecomeUnderscores();
    FlattenedSum(kind, "<");
    FlattenedSum(kind + "<", element);
    FlattenedSum(kind + "<" + element, ">");
    TailGoes(name);
  }

  /** The name of a collection of two element types. */
  lemma NameOfTwo(kind: string, key: string, value: string)
    requires HasNoMark(kind) && HasNoMark(key) && HasNoMark(value) && value != [] && value[|value| - 1] != '_'
    ensures StructName(kind, key + "," + value) == kind + "_" + key + "_" + value
  {
    var name := kind + "_" + key + "_" + value;
    FlatStays(kind);
    FlatStays(key);
    FlatStays(value);
    MarksBecomeUnderscores();
    FlattenedSum(key, ",");
    FlattenedSum(key + ",", value);
    FlattenedSum(kind, "<");
    FlattenedSum(kind + "<", key + "," + value);
    FlattenedSum(kind + "<" + (key + "," + value), ">");
    assert kind + "_" + (key + "_" + value) == name;
    TailGoes(name);
  }
}
