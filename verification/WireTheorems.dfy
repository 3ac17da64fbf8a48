/** What the ONNX reader recovers: an encoder for the wire format as specification, the
    byte-level round trip, and the law that concatenated messages merge. */
module WireTheorems {
  import opened Bits
  import opened WireFormat

  // ----- reading looks no further than it reads -----

  lemma {:induction false} VarintIgnoresWhatFollows(a: Bytes, b: Bytes, shift: nat)
    requires VarintFrom(a, shift).Ok?
    ensures VarintFrom(a + b, shift) == VarintFrom(a, shift)
  {
    assert (a + b)[0] == a[0];
    if a[0] >= 128 {
      assert (a + b)[1..] == a[1..] + b;
      VarintIgnoresWhatFollows(a[1..], b, shift + 7);
    }
  }

  lemma PayloadIgnoresWhatFollows(a: Bytes, b: Bytes)
    requires PayloadAt(a).Ok?
    ensures PayloadAt(a + b) == PayloadAt(a)
  {
    VarintIgnoresWhatFollows(a, b, 0);
    var v := VarintAt(a).value;
    assert (a + b)[v.size..v.size + v.value] == a[v.size..v.size + v.value];
  }

  lemma FieldIgnoresWhatFollows(a: Bytes, b: Bytes)
    requires FieldAt(a).Ok?
    ensures FieldAt(a + b) == FieldAt(a)
  {
    VarintIgnoresWhatFollows(a, b, 0);
    var key := VarintAt(a).value;
    var rest := a[key.size..];
    assert (a + b)[key.size..] == rest + b;
    if key.value % 8 == 0 {
      VarintIgnoresWhatFollows(rest, b, 0);
    } else if key.value % 8 == 2 {
      PayloadIgnoresWhatFollows(rest, b);
    }
  }

  // ----- merging -----

  /** Reading `a` and then going on with `b` notes what both note. */
  lemma {:induction false} WalkAppend(level: Level, a: Bytes, b: Bytes, decode: Decoder)
    requires EndsExactly(a)
    ensures Walk(level, a + b, decode) == Both(Walk(level, a, decode), Walk(level, b, decode))
    decreases |a|
  {
    if a == [] {
      assert a + b == b;
      BothFromNothing(Walk(level, b, decode));
    } else {
      var f := FieldAt(a).value;
      FieldIgnoresWhatFollows(a, b);
      var rest := a[f.size..];
      assert Drop(a + b, f.size) == rest + b;
      WalkAppend(level, rest, b, decode);
      BothAssociates(NoteField(level, f, decode), Walk(level, rest, decode), Walk(level, b, decode));
    }
  }

  lemma BothFromNothing(r: Result<seq<Event>>)
    ensures Both(Ok([]), r) == r
  {
    if r.Ok? {
      assert [] + r.value == r.value;
    }
  }

  /** The first failing part decides, otherwise the summaries are merged. */
  function MergeResults(a: Result<Summary>, b: Result<Summary>): Result<Summary> {
    if a.Err? then a else if b.Err? then b else Ok(Merge(a.value, b.value))
  }

  lemma ConcatenationMerges(a: Bytes, b: Bytes, decode: Decoder)
    requires EndsExactly(a)
    ensures Parse(a + b, decode) == MergeResults(Parse(a, decode), Parse(b, decode))
  {
    WalkAppend(ModelLevel, a, b, decode);
    var x, y := Walk(ModelLevel, a, decode), Walk(ModelLevel, b, decode);
    if x.Ok? && y.Ok? {
      SummarizeAppend(x.value, y.value);
    }
  }

  /** Field 7, length 0: an empty graph. */
  const EMPTY_GRAPH: Bytes := [58, 0]

  lemma EmptyGraphField()
    ensures FieldAt(EMPTY_GRAPH) == Ok(Field(7, 2, [], 2))
  {
    assert EMPTY_GRAPH[1..] == [0];
    assert VarintAt([0]) == Ok(Varint(0, 1));
    assert VarintAt(EMPTY_GRAPH) == Ok(Varint(58, 1));
    assert [0][1..1] == [];
  }

  lemma EmptyGraphSummary(decode: Decoder)
    ensures Walk(ModelLevel, EMPTY_GRAPH, decode) == Ok([SawGraph])
    ensures Parse(EMPTY_GRAPH, decode) == Ok(EMPTY.(graphs := 1))
  {
    EmptyGraphField();
    assert Drop(EMPTY_GRAPH, 2) == [];
    assert [SawGraph] + [] == [SawGraph];
    SummarizeOne(SawGraph);
  }

  /** A stray zero byte is a key without its value. */
  lemma StrayZero(level: Level, decode: Decoder)
    ensures Walk(level, [0], decode).Err?
  {
    assert VarintAt([0]) == Ok(Varint(0, 1));
    assert [0][1..] == [];
  }

  /** A message that ends inside a fixed-width field swallows what is appended to it. */
  lemma {:induction false} OverrunSwallows(level: Level, a: Bytes, decode: Decoder)
    requires Walk(level, a, decode).Ok? && !EndsExactly(a)
    ensures Walk(level, a + EMPTY_GRAPH, decode) == Walk(level, a, decode)
         || Walk(level, a + EMPTY_GRAPH, decode).Err?
    decreases |a|
  {
    var b := EMPTY_GRAPH;
    var f := FieldAt(a).value;
    FieldIgnoresWhatFollows(a, b);
    if f.size <= |a| {
      assert Drop(a + b, f.size) == a[f.size..] + b;
      OverrunSwallows(level, a[f.size..], decode);
    } else if f.size == |a| + 1 {
      assert Drop(a + b, f.size) == [0];
      StrayZero(level, decode);
    } else {
      assert Drop(a + b, f.size) == [] == Drop(a, f.size);
    }
  }

  /** Appending merges for every continuation exactly when the reader stops at the end of `a`. */
  lemma MergeLaw(a: Bytes, decode: Decoder)
    requires Parse(a, decode).Ok?
    ensures (forall b :: Parse(a + b, decode) == MergeResults(Parse(a, decode), Parse(b, decode))) <==> EndsExactly(a)
  {
    if EndsExactly(a) {
      forall b ensures Parse(a + b, decode) == MergeResults(Parse(a, decode), Parse(b, decode)) {
        ConcatenationMerges(a, b, decode);
      }
    } else {
      OverrunSwallows(ModelLevel, a, decode);
      EmptyGraphSummary(decode);
      var b := EMPTY_GRAPH;
      var r := Parse(a + b, decode);
      assert r.Err? || r == Parse(a, decode);
      assert r != MergeResults(Parse(a, decode), Parse(b, decode));
    }
  }

  /** A single key byte of field 1 with eight bytes to skip and none left: an appended graph is
      swallowed instead of counted. */
  lemma OverrunExample(decode: Decoder)
    ensures Parse([9], decode).Ok? && !EndsExactly([9])
    ensures Parse([9] + EMPTY_GRAPH, decode) != MergeResults(Parse([9], decode), Parse(EMPTY_GRAPH, decode))
  {
    LoneKey(decode);
    assert [9] + EMPTY_GRAPH == [9, 58, 0];
    EmptyGraphSummary(decode);
  }

  lemma LoneKey(decode: Decoder)
    ensures FieldAt([9]) == Ok(Field(1, 1, [], 9)) && Parse([9], decode) == Ok(EMPTY)
    ensures Parse([9, 58, 0], decode) == Ok(EMPTY)
  {
    assert VarintAt([9]) == Ok(Varint(9, 1)) && VarintAt([9, 58, 0]) == Ok(Varint(9, 1));
    assert FieldAt([9]) == FieldAt([9, 58, 0]) == Ok(Field(1, 1, [], 9));
    SkipsToTheEnd([9], decode);
    SkipsToTheEnd([9, 58, 0], decode);
  }

  lemma SkipsToTheEnd(s: Bytes, decode: Decoder)
    requires 0 < |s| < 9 && FieldAt(s) == Ok(Field(1, 1, [], 9))
    ensures Parse(s, decode) == Ok(EMPTY)
  {
    assert Drop(s, 9) == [];
    assert Walk(ModelLevel, s, decode) == Both(Ok([]), Ok([]));
    BothFromNothing(Ok([]));
  }

  lemma {:induction false} ExactnessComposes(a: Bytes, b: Bytes)
    requires EndsExactly(a) && EndsExactly(b)
    ensures EndsExactly(a + b)
    decreases |a|
  {
    if a == [] {
      assert a + b == b;
    } else {
      FieldIgnoresWhatFollows(a, b);
      var n := FieldAt(a).value.size;
      assert (a + b)[n..] == a[n..] + b;
      ExactnessComposes(a[n..], b);
    }
  }

  // ----- the encoder -----

  datatype Value =
    | VarintValue(n: nat)
    | Fixed64(bytes: Bytes)
    | Payload(bytes: Bytes)
    | Fixed32(bytes: Bytes)

  /** A field of a message: any number and value, or the message of the next level down. */
  datatype Item = Raw(number: nat, value: Value) | Nested(items: seq<Item>)

  function Wire(value: Value): nat {
    match value
    case VarintValue(_) => 0
    case Fixed64(_) => 1
    case Payload(_) => 2
    case Fixed32(_) => 5
  }

  function EncodeVarint(n: nat): (s: Bytes)
    ensures s != []
  {
    if n < 128 then [n] else [128 + n % 128] + EncodeVarint(n / 128)
  }

  function EncodePayload(bytes: Bytes): Bytes {
    EncodeVarint(|bytes|) + bytes
  }

  function EncodeValue(value: Value): Bytes {
    match value
    case VarintValue(n) => EncodeVarint(n)
    case Fixed64(bytes) => bytes
    case Payload(bytes) => EncodePayload(bytes)
    case Fixed32(bytes) => bytes
  }

  /** Graphs sit in field 7 of a model, nodes in field 1 of a graph. */
  function NestedNumber(level: Level): nat {
    if level.ModelLevel? then 7 else 1
  }

  function EncodeField(number: nat, value: Value): Bytes {
    EncodeVarint(8 * number + Wire(value)) + EncodeValue(value)
  }

  function EncodeItem(level: Level, item: Item): Bytes
    decreases item, 0
  {
    match item
    case Raw(number, value) => EncodeField(number, value)
    case Nested(items) => EncodeField(NestedNumber(level), Payload(Encode(Below(level), items)))
  }

  function Encode(level: Level, items: seq<Item>): Bytes
    decreases items, 1
  {
    if items == [] then [] else EncodeItem(level, items[0]) + Encode(level, items[1..])
  }

  /** Fixed-width values have their width, and nested messages are written as such. */
  predicate IsMessage(level: Level, items: seq<Item>)
    decreases items, 1
  {
    forall i :: 0 <= i < |items| ==> IsItem(level, items[i])
  }

  predicate IsItem(level: Level, item: Item)
    decreases item, 0
  {
    match item
    case Raw(number, value) => IsValue(value) && !IsNested(level, number, Wire(value))
    case Nested(items) => !level.NodeLevel? && IsMessage(Below(level), items)
  }

  predicate IsValue(value: Value) {
    (value.Fixed64? ==> |value.bytes| == 8) && (value.Fixed32? ==> |value.bytes| == 4)
  }

  /** What a message says: the operator names, inputs, outputs, graphs and operator sets in it. */
  function Says(level: Level, items: seq<Item>, decode: Decoder): Result<seq<Event>>
    decreases items, 1
  {
    if items == [] then Ok([]) else Both(ItemSays(level, items[0], decode), Says(level, items[1..], decode))
  }

  function ItemSays(level: Level, item: Item, decode: Decoder): Result<seq<Event>>
    decreases item, 0
  {
    match item
    case Nested(items) =>
      if level.ModelLevel? then Both(Ok([SawGraph]), Says(GraphLevel, items, decode))
      else Says(NodeLevel, items, decode)
    case Raw(number, value) =>
      if !value.Payload? then Ok([])
      else if level.NodeLevel? && number == 4 then
        (if decode(value.bytes).None? then Err(BadText) else Ok([SawOp(decode(value.bytes).value)]))
      else if level.GraphLevel? && number == 11 then Ok([SawInput])
      else if level.GraphLevel? && number == 12 then Ok([SawOutput])
      else if level.ModelLevel? && number == 8 then Ok([SawOpset])
      else Ok([])
  }

  // ----- the round trip -----

  lemma DigitsAddUp(n: nat, shift: nat)
    ensures n % 128 * Pow2(shift) + n / 128 * Pow2(shift + 7) == n * Pow2(shift)
  {
    Pow2Plus7(shift);
    var p, q, d := Pow2(shift), n / 128, n % 128;
    assert q * (128 * p) == (q * 128) * p;
    assert d * p + (q * 128) * p == (d + q * 128) * p;
  }

  lemma {:induction false} VarintRoundTrip(n: nat, rest: Bytes, shift: nat)
    ensures VarintFrom(EncodeVarint(n) + rest, shift) == Ok(Varint(n * Pow2(shift), |EncodeVarint(n)|))
  {
    var s := EncodeVarint(n) + rest;
    if n >= 128 {
      assert s[0] == 128 + n % 128;
      assert s[1..] == EncodeVarint(n / 128) + rest;
      VarintRoundTrip(n / 128, rest, shift + 7);
      DigitsAddUp(n, shift);
    }
  }

  lemma ReadsVarint(n: nat, rest: Bytes)
    ensures VarintAt(EncodeVarint(n) + rest) == Ok(Varint(n, |EncodeVarint(n)|))
  {
    VarintRoundTrip(n, rest, 0);
  }

  lemma ReadsBody(value: Value, rest: Bytes)
    requires IsValue(value)
    ensures BodyAt(EncodeValue(value) + rest, Wire(value))
         == Ok((if value.Payload? then value.bytes else [], |EncodeValue(value)|))
  {
    match value
    case VarintValue(n) => ReadsVarint(n, rest);
    case Payload(bytes) =>
      var length := EncodeVarint(|bytes|);
      ReadsVarint(|bytes|, bytes + rest);
      assert EncodeValue(value) + rest == length + (bytes + rest);
      assert (length + (bytes + rest))[|length|..|length| + |bytes|] == bytes;
    case _ =>
  }

  lemma KeyComesApart(number: nat, wire: nat)
    requires wire < 8
    ensures (8 * number + wire) / 8 == number && (8 * number + wire) % 8 == wire
  {
  }

  lemma FieldOfKeyAndBody(key: Bytes, rest: Bytes, k: nat, payload: Bytes, size: nat)
    requires VarintAt(key + rest) == Ok(Varint(k, |key|))
    requires BodyAt(rest, k % 8) == Ok((payload, size))
    ensures FieldAt(key + rest) == Ok(Field(k / 8, k % 8, payload, |key| + size))
  {
    assert (key + rest)[|key|..] == rest;
  }

  lemma ReadsField(number: nat, value: Value, rest: Bytes)
    requires IsValue(value)
    ensures FieldAt(EncodeField(number, value) + rest)
         == Ok(Field(number, Wire(value), if value.Payload? then value.bytes else [], |EncodeField(number, value)|))
  {
    var k := 8 * number + Wire(value);
    var key, body := EncodeVarint(k), EncodeValue(value);
    KeyComesApart(number, Wire(value));
    ReadsVarint(k, body + rest);
    ReadsBody(value, rest);
    FieldOfKeyAndBody(key, body + rest, k, if value.Payload? then value.bytes else [], |body|);
    assert (key + body) + rest == key + (body + rest);
  }

  /** Reading an encoded message yields what the message says, and stops at its end. */
  lemma {:induction false} RoundTrip(level: Level, items: seq<Item>, decode: Decoder)
    requires IsMessage(level, items)
    ensures Walk(level, Encode(level, items), decode) == Says(level, items, decode)
    ensures EndsExactly(Encode(level, items))
    decreases items, 1
  {
    if items != [] {
      var item, rest := items[0], Encode(level, items[1..]);
      var s := EncodeItem(level, item) + rest;
      RoundTrip(level, items[1..], decode);
      ItemRoundTrip(level, item, rest, decode);
      var f := FieldAt(s).value;
      assert Drop(s, f.size) == s[f.size..] == rest;
    }
  }

  lemma {:induction false} ItemRoundTrip(level: Level, item: Item, rest: Bytes, decode: Decoder)
    requires IsItem(level, item)
    ensures var f := FieldAt(EncodeItem(level, item) + rest);
            && f.Ok? && f.value.size == |EncodeItem(level, item)|
            && NoteField(level, f.value, decode) == ItemSays(level, item, decode)
    decreases item, 0
  {
    match item
    case Raw(number, value) => ReadsField(number, value, rest);
    case Nested(items) =>
      RoundTrip(Below(level), items, decode);
      ReadsField(NestedNumber(level), Payload(Encode(Below(level), items)), rest);
  }

  /** Every model survives encoding: operators in order, counts and the operator-set flag. */
  lemma ModelRoundTrip(items: seq<Item>, decode: Decoder)
    requires IsMessage(ModelLevel, items)
    ensures EndsExactly(Encode(ModelLevel, items))
    ensures Parse(Encode(ModelLevel, items), decode)
         == (var said := Says(ModelLevel, items, decode);
             if said.Err? then Err(said.error) else Ok(Summarize(said.value)))
  {
    RoundTrip(ModelLevel, items, decode);
  }
}
