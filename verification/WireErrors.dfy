/** How the ONNX reader fails on a damaged field, behind anything that is well encoded. */
module WireErrors {
  import opened Bits
  import opened WireFormat
  import opened WireTheorems
  import opened WireCounts

  /** A key that does not end, a number or length that does not end, a payload that is shorter than
      its length says, and a wire type that does not exist. */
  datatype Damage =
    | OpenKey(bytes: Bytes)
    | OpenNumber(number: nat, wire: nat, bytes: Bytes)
    | ShortPayload(number: nat, length: nat, bytes: Bytes)
    | UnknownWire(number: nat, wire: nat, bytes: Bytes)

  /** Every byte announces another one. */
  predicate IsOpen(bytes: Bytes) {
    forall i :: 0 <= i < |bytes| ==> bytes[i] >= 128
  }

  predicate IsDamage(d: Damage) {
    match d
    case OpenKey(bytes) => bytes != [] && IsOpen(bytes)
    case OpenNumber(_, wire, bytes) => (wire == 0 || wire == 2) && IsOpen(bytes)
    case ShortPayload(_, length, bytes) => |bytes| < length
    case UnknownWire(_, wire, _) => wire == 3 || wire == 4 || wire == 6 || wire == 7
  }

  function DamagedBytes(d: Damage): Bytes {
    match d
    case OpenKey(bytes) => bytes
    case OpenNumber(number, wire, bytes) => EncodeVarint(8 * number + wire) + bytes
    case ShortPayload(number, length, bytes) => EncodeVarint(8 * number + 2) + (EncodeVarint(length) + bytes)
    case UnknownWire(number, wire, bytes) => EncodeVarint(8 * number + wire) + bytes
  }

  function Complaint(d: Damage): Error {
    match d
    case OpenKey(_) => TruncatedVarint
    case OpenNumber(_, _, _) => TruncatedVarint
    case ShortPayload(_, _, _) => TruncatedField
    case UnknownWire(_, wire, _) => UnsupportedWire(wire)
  }

  lemma {:induction false} OpenIsTruncated(bytes: Bytes, shift: nat)
    requires IsOpen(bytes)
    ensures VarintFrom(bytes, shift) == Err(TruncatedVarint)
  {
    if bytes != [] {
      OpenIsTruncated(bytes[1..], shift + 7);
    }
  }

  lemma BehindKey(number: nat, wire: nat, rest: Bytes, e: Error)
    requires wire < 8 && BodyAt(rest, wire) == Err(e)
    ensures FieldAt(EncodeVarint(8 * number + wire) + rest) == Err(e)
  {
    var key := EncodeVarint(8 * number + wire);
    ReadsVarint(8 * number + wire, rest);
    KeyComesApart(number, wire);
    assert (key + rest)[|key|..] == rest;
  }

  lemma DamagedField(d: Damage)
    requires IsDamage(d)
    ensures DamagedBytes(d) != [] && FieldAt(DamagedBytes(d)) == Err(Complaint(d))
  {
    match d
    case OpenKey(bytes) => OpenIsTruncated(bytes, 0);
    case OpenNumber(number, wire, bytes) =>
      OpenIsTruncated(bytes, 0);
      BehindKey(number, wire, bytes, TruncatedVarint);
    case ShortPayload(number, length, bytes) =>
      ReadsVarint(length, bytes);
      BehindKey(number, 2, EncodeVarint(length) + bytes, TruncatedField);
    case UnknownWire(number, wire, bytes) => BehindKey(number, wire, bytes, UnsupportedWire(wire));
  }

  /** A message that is well encoded up to a damaged field. */
  function DamagedMessage(level: Level, items: seq<Item>, d: Damage): Bytes {
    Encode(level, items) + DamagedBytes(d)
  }

  lemma DamagedWalk(level: Level, items: seq<Item>, d: Damage, decode: Decoder)
    requires IsMessage(level, items) && IsDamage(d)
    ensures Walk(level, DamagedMessage(level, items, d), decode) == Both(Says(level, items, decode), Err(Complaint(d)))
  {
    RoundTrip(level, items, decode);
    DamagedField(d);
    WalkAppend(level, Encode(level, items), DamagedBytes(d), decode);
  }

  /** A message behind which a nested one fails. */
  lemma NestedFails(level: Level, items: seq<Item>, inner: Bytes, e: Error, decode: Decoder)
    requires !level.NodeLevel? && IsMessage(level, items) && Walk(Below(level), inner, decode) == Err(e)
    ensures Walk(level, Encode(level, items) + EncodeField(NestedNumber(level), Payload(inner)), decode)
         == Both(Says(level, items, decode), Err(e))
  {
    var field := EncodeField(NestedNumber(level), Payload(inner));
    RoundTrip(level, items, decode);
    ReadsField(NestedNumber(level), Payload(inner), []);
    assert field + [] == field;
    WalkAppend(level, Encode(level, items), field, decode);
  }

  lemma SaidOrBad(said: Result<seq<Event>>, names: seq<Bytes>, g: nat, i: nat, o: nat, s: bool, decode: Decoder)
    requires Summed(said) == Report(names, g, i, o, s, decode)
    ensures said.Ok? <==> AllDecode(names, decode)
    ensures said.Err? ==> said.error == BadText
  {
  }

  /** Behind any model, a damaged field is reported as what it is, unless an operator name in front of
      it is no text. */
  lemma DamageIsReported(model: seq<Item>, d: Damage, decode: Decoder)
    requires IsMessage(ModelLevel, model) && IsDamage(d)
    ensures Parse(DamagedMessage(ModelLevel, model, d), decode)
         == Err(if AllDecode(ModelNames(model), decode) then Complaint(d) else BadText)
  {
    DamagedWalk(ModelLevel, model, d, decode);
    ModelCounts(model, decode);
    SaidOrBad(Says(ModelLevel, model, decode), ModelNames(model), Graphs(model), InGraphs(model, 11),
              InGraphs(model, 12), Tally(model, 8) > 0, decode);
  }

  /** So is one inside a graph. */
  lemma GraphDamageIsReported(model: seq<Item>, graph: seq<Item>, d: Damage, decode: Decoder)
    requires IsMessage(ModelLevel, model) && IsMessage(GraphLevel, graph) && IsDamage(d)
    ensures var inner := DamagedMessage(GraphLevel, graph, d);
            var names := ModelNames(model) + GraphNames(graph);
            Parse(Encode(ModelLevel, model) + EncodeField(7, Payload(inner)), decode)
            == Err(if AllDecode(names, decode) then Complaint(d) else BadText)
  {
    var inner := DamagedMessage(GraphLevel, graph, d);
    DamagedWalk(GraphLevel, graph, d, decode);
    GraphCounts(graph, decode);
    SaidOrBad(Says(GraphLevel, graph, decode), GraphNames(graph), 0, Tally(graph, 11), Tally(graph, 12), false, decode);
    var e := if AllDecode(GraphNames(graph), decode) then Complaint(d) else BadText;
    GraphFails(model, inner, e, decode);
    BothDecode(ModelNames(model), GraphNames(graph), decode);
  }

  lemma GraphFails(model: seq<Item>, inner: Bytes, e: Error, decode: Decoder)
    requires IsMessage(ModelLevel, model) && Walk(GraphLevel, inner, decode) == Err(e)
    ensures Parse(Encode(ModelLevel, model) + EncodeField(7, Payload(inner)), decode)
         == Err(if AllDecode(ModelNames(model), decode) then e else BadText)
  {
    NestedFails(ModelLevel, model, inner, e, decode);
    ModelCounts(model, decode);
    SaidOrBad(Says(ModelLevel, model, decode), ModelNames(model), Graphs(model), InGraphs(model, 11),
              InGraphs(model, 12), Tally(model, 8) > 0, decode);
  }

  lemma BothDecode(a: seq<Bytes>, b: seq<Bytes>, decode: Decoder)
    ensures AllDecode(a + b, decode) <==> AllDecode(a, decode) && AllDecode(b, decode)
  {
    if AllDecode(a + b, decode) {
      assert forall i :: 0 <= i < |a| ==> (a + b)[i] == a[i];
      assert forall i :: 0 <= i < |b| ==> (a + b)[|a| + i] == b[i];
    }
  }

  /** And one inside a node of a graph. */
  lemma NodeDamageIsReported(model: seq<Item>, graph: seq<Item>, node: seq<Item>, d: Damage, decode: Decoder)
    requires IsMessage(ModelLevel, model) && IsMessage(GraphLevel, graph) && IsMessage(NodeLevel, node) && IsDamage(d)
    ensures var inner := Encode(GraphLevel, graph) + EncodeField(1, Payload(DamagedMessage(NodeLevel, node, d)));
            var names := ModelNames(model) + (GraphNames(graph) + NodeNames(node));
            Parse(Encode(ModelLevel, model) + EncodeField(7, Payload(inner)), decode)
            == Err(if AllDecode(names, decode) then Complaint(d) else BadText)
  {
    var damaged := DamagedMessage(NodeLevel, node, d);
    var inner := Encode(GraphLevel, graph) + EncodeField(1, Payload(damaged));
    DamagedWalk(NodeLevel, node, d, decode);
    NodeCounts(node, decode);
    SaidOrBad(Says(NodeLevel, node, decode), NodeNames(node), 0, 0, 0, false, decode);
    var e := if AllDecode(NodeNames(node), decode) then Complaint(d) else BadText;
    NestedFails(GraphLevel, graph, damaged, e, decode);
    GraphCounts(graph, decode);
    SaidOrBad(Says(GraphLevel, graph, decode), GraphNames(graph), 0, Tally(graph, 11), Tally(graph, 12), false, decode);
    GraphFails(model, inner, if AllDecode(GraphNames(graph), decode) then e else BadText, decode);
    BothDecode(GraphNames(graph), NodeNames(node), decode);
    BothDecode(ModelNames(model), GraphNames(graph) + NodeNames(node), decode);
  }
}
