/** What the ONNX reader reports about an encoded model, counted on the model itself. */
module WireCounts {
  import opened Wrappers
  import opened Bits
  import opened WireFormat
  import opened WireTheorems

  // ----- counting items -----

  /** A length-delimited field with the given number. */
  predicate IsPayload(item: Item, number: nat) {
    item.Raw? && item.number == number && item.value.Payload?
  }

  function Tally(items: seq<Item>, number: nat): nat {
    if items == [] then 0 else (if IsPayload(items[0], number) then 1 else 0) + Tally(items[1..], number)
  }

  /** The number of graphs in a model. */
  function Graphs(model: seq<Item>): nat {
    if model == [] then 0 else (if model[0].Nested? then 1 else 0) + Graphs(model[1..])
  }

  /** How many fields with the given number the graphs of a model hold. */
  function InGraphs(model: seq<Item>, number: nat): nat {
    if model == [] then 0
    else (if model[0].Nested? then Tally(model[0].items, number) else 0) + InGraphs(model[1..], number)
  }

  /** The operator names of a node, a graph and a model, in order, as bytes. */
  function NodeNames(node: seq<Item>): seq<Bytes> {
    if node == [] then [] else (if IsPayload(node[0], 4) then [node[0].value.bytes] else []) + NodeNames(node[1..])
  }

  function GraphNames(graph: seq<Item>): seq<Bytes> {
    if graph == [] then [] else (if graph[0].Nested? then NodeNames(graph[0].items) else []) + GraphNames(graph[1..])
  }

  function ModelNames(model: seq<Item>): seq<Bytes> {
    if model == [] then [] else (if model[0].Nested? then GraphNames(model[0].items) else []) + ModelNames(model[1..])
  }

  predicate AllDecode(names: seq<Bytes>, decode: Decoder) {
    forall i :: 0 <= i < |names| ==> decode(names[i]).Some?
  }

  function Decoded(names: seq<Bytes>, decode: Decoder): (r: seq<string>)
    requires AllDecode(names, decode)
    ensures |r| == |names|
  {
    seq(|names|, i requires 0 <= i < |names| => decode(names[i]).value)
  }

  // ----- the reader counts the same -----

  /** A report in which the names are decoded, or the error for a name that is no text. */
  function Report(names: seq<Bytes>, graphs: nat, inputs: nat, outputs: nat, opset: bool, decode: Decoder)
    : Result<Summary>
  {
    if AllDecode(names, decode) then Ok(Summary(graphs, Decoded(names, decode), inputs, outputs, opset))
    else Err(BadText)
  }

  lemma ReportsMerge(a: seq<Bytes>, b: seq<Bytes>, g: nat, h: nat, i: nat, j: nat, o: nat, p: nat, s: bool, t: bool,
                     decode: Decoder)
    ensures MergeResults(Report(a, g, i, o, s, decode), Report(b, h, j, p, t, decode))
         == Report(a + b, g + h, i + j, o + p, s || t, decode)
  {
    if AllDecode(a, decode) && AllDecode(b, decode) {
      assert Decoded(a + b, decode) == Decoded(a, decode) + Decoded(b, decode);
    } else if AllDecode(a + b, decode) {
      forall k | 0 <= k < |a| ensures decode(a[k]).Some? {
        assert (a + b)[k] == a[k];
      }
      forall k | 0 <= k < |b| ensures decode(b[k]).Some? {
        assert (a + b)[|a| + k] == b[k];
      }
      assert false;
    }
  }

  function Summed(events: Result<seq<Event>>): Result<Summary> {
    if events.Err? then Err(events.error) else Ok(Summarize(events.value))
  }

  lemma SummedBoth(a: Result<seq<Event>>, b: Result<seq<Event>>)
    ensures Summed(Both(a, b)) == MergeResults(Summed(a), Summed(b))
  {
    if a.Ok? && b.Ok? {
      SummarizeAppend(a.value, b.value);
    }
  }

  lemma Combine(a: Result<seq<Event>>, b: Result<seq<Event>>, names: seq<Bytes>, more: seq<Bytes>, g: nat, h: nat,
                i: nat, j: nat, o: nat, p: nat, s: bool, t: bool, decode: Decoder)
    requires Summed(a) == Report(names, g, i, o, s, decode) && Summed(b) == Report(more, h, j, p, t, decode)
    ensures Summed(Both(a, b)) == Report(names + more, g + h, i + j, o + p, s || t, decode)
  {
    SummedBoth(a, b);
    ReportsMerge(names, more, g, h, i, j, o, p, s, t, decode);
  }

  lemma FirstSays(level: Level, items: seq<Item>, decode: Decoder)
    requires items != []
    ensures Says(level, items, decode) == Both(ItemSays(level, items[0], decode), Says(level, items[1..], decode))
  {
  }

  lemma Nothing(decode: Decoder)
    ensures Summed(Ok([])) == Report([], 0, 0, 0, false, decode)
  {
    assert Decoded([], decode) == [];
  }

  lemma {:induction false} NodeCounts(node: seq<Item>, decode: Decoder)
    requires IsMessage(NodeLevel, node)
    ensures Summed(Says(NodeLevel, node, decode)) == Report(NodeNames(node), 0, 0, 0, false, decode)
  {
    Nothing(decode);
    if node != [] {
      var item := node[0];
      var names := if IsPayload(item, 4) then [item.value.bytes] else [];
      assert IsItem(NodeLevel, item);
      NodeItem(item, names, decode);
      NodeCounts(node[1..], decode);
      SummedBoth(ItemSays(NodeLevel, item, decode), Says(NodeLevel, node[1..], decode));
      ReportsMerge(names, NodeNames(node[1..]), 0, 0, 0, 0, 0, 0, false, false, decode);
    }
  }

  lemma NodeItem(item: Item, names: seq<Bytes>, decode: Decoder)
    requires IsItem(NodeLevel, item) && names == if IsPayload(item, 4) then [item.value.bytes] else []
    ensures Summed(ItemSays(NodeLevel, item, decode)) == Report(names, 0, 0, 0, false, decode)
  {
    Nothing(decode);
    if IsPayload(item, 4) {
      assert names[0] == item.value.bytes;
      if decode(item.value.bytes).Some? {
        SummarizeOne(SawOp(decode(item.value.bytes).value));
        assert Decoded(names, decode) == [decode(item.value.bytes).value];
      }
    }
  }

  lemma {:induction false} GraphCounts(graph: seq<Item>, decode: Decoder)
    requires IsMessage(GraphLevel, graph)
    ensures Summed(Says(GraphLevel, graph, decode)) == CountedGraph(graph, decode)
  {
    if graph == [] {
      Nothing(decode);
    } else {
      assert IsItem(GraphLevel, graph[0]);
      GraphCounts(graph[1..], decode);
      FirstGraphItem(graph, decode);
    }
  }

  function CountedGraph(graph: seq<Item>, decode: Decoder): Result<Summary> {
    Report(GraphNames(graph), 0, Tally(graph, 11), Tally(graph, 12), false, decode)
  }

  lemma FirstGraphItem(graph: seq<Item>, decode: Decoder)
    requires graph != [] && IsItem(GraphLevel, graph[0])
    requires Summed(Says(GraphLevel, graph[1..], decode)) == CountedGraph(graph[1..], decode)
    ensures Summed(Says(GraphLevel, graph, decode)) == CountedGraph(graph, decode)
  {
    var names := if graph[0].Nested? then NodeNames(graph[0].items) else [];
    var i, o := if IsPayload(graph[0], 11) then 1 else 0, if IsPayload(graph[0], 12) then 1 else 0;
    GraphItem(graph[0], names, decode);
    GraphStep(graph, names, i, o, decode);
    FirstSays(GraphLevel, graph, decode);
    SummedBoth(ItemSays(GraphLevel, graph[0], decode), Says(GraphLevel, graph[1..], decode));
  }

  lemma GraphFirst(graph: seq<Item>, names: seq<Bytes>, i: nat, o: nat)
    requires graph != [] && names == (if graph[0].Nested? then NodeNames(graph[0].items) else [])
    requires i == (if IsPayload(graph[0], 11) then 1 else 0) && o == if IsPayload(graph[0], 12) then 1 else 0
    ensures GraphNames(graph) == names + GraphNames(graph[1..])
    ensures Tally(graph, 11) == i + Tally(graph[1..], 11) && Tally(graph, 12) == o + Tally(graph[1..], 12)
  {
  }

  lemma GraphStep(graph: seq<Item>, names: seq<Bytes>, i: nat, o: nat, decode: Decoder)
    requires graph != [] && names == (if graph[0].Nested? then NodeNames(graph[0].items) else [])
    requires i == (if IsPayload(graph[0], 11) then 1 else 0) && o == if IsPayload(graph[0], 12) then 1 else 0
    ensures MergeResults(Report(names, 0, i, o, false, decode), CountedGraph(graph[1..], decode))
         == CountedGraph(graph, decode)
  {
    var rest := graph[1..];
    GraphFirst(graph, names, i, o);
    ReportsMerge(names, GraphNames(rest), 0, 0, i, Tally(rest, 11), o, Tally(rest, 12), false, false, decode);
  }

  lemma GraphItem(item: Item, names: seq<Bytes>, decode: Decoder)
    requires IsItem(GraphLevel, item) && names == if item.Nested? then NodeNames(item.items) else []
    ensures Summed(ItemSays(GraphLevel, item, decode))
         == Report(names, 0, if IsPayload(item, 11) then 1 else 0, if IsPayload(item, 12) then 1 else 0, false, decode)
  {
    Nothing(decode);
    assert Decoded([], decode) == [];
    if item.Nested? {
      NodeCounts(item.items, decode);
    } else if IsPayload(item, 11) {
      SummarizeOne(SawInput);
    } else if IsPayload(item, 12) {
      SummarizeOne(SawOutput);
    }
  }

  /** What the first item adds to a report. */
  predicate IsFirst(item: Item, names: seq<Bytes>, g: nat, i: nat, o: nat) {
    if item.Nested? then
      names == GraphNames(item.items) && g == 1 && i == Tally(item.items, 11) && o == Tally(item.items, 12)
    else names == [] && g == 0 && i == 0 && o == 0
  }

  lemma FirstCounts(model: seq<Item>, names: seq<Bytes>, g: nat, i: nat, o: nat)
    requires model != [] && IsFirst(model[0], names, g, i, o)
    ensures ModelNames(model) == names + ModelNames(model[1..]) && Graphs(model) == g + Graphs(model[1..])
    ensures InGraphs(model, 11) == i + InGraphs(model[1..], 11) && InGraphs(model, 12) == o + InGraphs(model[1..], 12)
    ensures Tally(model, 8) > 0 <==> IsPayload(model[0], 8) || Tally(model[1..], 8) > 0
  {
  }

  function Counted(model: seq<Item>, decode: Decoder): Result<Summary> {
    Report(ModelNames(model), Graphs(model), InGraphs(model, 11), InGraphs(model, 12), Tally(model, 8) > 0, decode)
  }

  lemma ModelStep(model: seq<Item>, names: seq<Bytes>, g: nat, i: nat, o: nat, decode: Decoder)
    requires model != [] && IsFirst(model[0], names, g, i, o)
    ensures MergeResults(Report(names, g, i, o, IsPayload(model[0], 8), decode), Counted(model[1..], decode))
         == Counted(model, decode)
  {
    var rest := model[1..];
    FirstCounts(model, names, g, i, o);
    ReportsMerge(names, ModelNames(rest), g, Graphs(rest), i, InGraphs(rest, 11), o, InGraphs(rest, 12),
                 IsPayload(model[0], 8), Tally(rest, 8) > 0, decode);
  }

  lemma {:induction false} ModelCounts(model: seq<Item>, decode: Decoder)
    requires IsMessage(ModelLevel, model)
    ensures Summed(Says(ModelLevel, model, decode)) == Counted(model, decode)
  {
    if model == [] {
      Nothing(decode);
    } else {
      assert IsItem(ModelLevel, model[0]);
      ModelCounts(model[1..], decode);
      FirstModelItem(model, decode);
    }
  }

  lemma FirstModelItem(model: seq<Item>, decode: Decoder)
    requires model != [] && IsItem(ModelLevel, model[0])
    requires Summed(Says(ModelLevel, model[1..], decode)) == Counted(model[1..], decode)
    ensures Summed(Says(ModelLevel, model, decode)) == Counted(model, decode)
  {
    var item := model[0];
    var names, g, i, o := [], 0, 0, 0;
    if item.Nested? {
      names, g, i, o := GraphNames(item.items), 1, Tally(item.items, 11), Tally(item.items, 12);
    }
    ModelItem(item, names, g, i, o, decode);
    ModelStep(model, names, g, i, o, decode);
    FirstSays(ModelLevel, model, decode);
    SummedBoth(ItemSays(ModelLevel, item, decode), Says(ModelLevel, model[1..], decode));
  }

  lemma OneMoreGraph(said: Result<seq<Event>>, names: seq<Bytes>, i: nat, o: nat, decode: Decoder)
    requires Summed(said) == Report(names, 0, i, o, false, decode)
    ensures Summed(Both(Ok([SawGraph]), said)) == Report(names, 1, i, o, false, decode)
  {
    SummarizeOne(SawGraph);
    assert Decoded([], decode) == [];
    Combine(Ok([SawGraph]), said, [], names, 1, 0, 0, i, 0, o, false, false, decode);
    assert [] + names == names;
  }

  lemma ModelItem(item: Item, names: seq<Bytes>, g: nat, i: nat, o: nat, decode: Decoder)
    requires IsItem(ModelLevel, item) && IsFirst(item, names, g, i, o)
    ensures Summed(ItemSays(ModelLevel, item, decode)) == Report(names, g, i, o, IsPayload(item, 8), decode)
  {
    if item.Nested? {
      GraphCounts(item.items, decode);
      OneMoreGraph(Says(GraphLevel, item.items, decode), names, i, o, decode);
    } else {
      RawModelItem(item, decode);
    }
  }

  lemma RawModelItem(item: Item, decode: Decoder)
    requires item.Raw?
    ensures Summed(ItemSays(ModelLevel, item, decode)) == Report([], 0, 0, 0, IsPayload(item, 8), decode)
  {
    Nothing(decode);
    assert Decoded([], decode) == [];
    if IsPayload(item, 8) {
      SummarizeOne(SawOpset);
    }
  }

  /** Every encoded model is reported as it is: the number of its graphs, the operator names of their
      nodes in order, the inputs and outputs of its graphs, and whether an operator set is imported.  A
      name that is no text is the only error. */
  lemma ModelIsReported(model: seq<Item>, decode: Decoder)
    requires IsMessage(ModelLevel, model)
    ensures Parse(Encode(ModelLevel, model), decode)
         == if AllDecode(ModelNames(model), decode)
            then Ok(Summary(Graphs(model), Decoded(ModelNames(model), decode), InGraphs(model, 11),
                            InGraphs(model, 12), Tally(model, 8) > 0))
            else Err(BadText)
  {
    ModelRoundTrip(model, decode);
    ModelCounts(model, decode);
  }

  lemma ShortField(number: nat, bytes: Bytes)
    requires 8 * number + 2 < 128 && |bytes| < 128
    ensures EncodeField(number, Payload(bytes)) == [8 * number + 2, |bytes|] + bytes
  {
    assert EncodeVarint(8 * number + 2) == [8 * number + 2] && EncodeVarint(|bytes|) == [|bytes|];
  }

  lemma FirstItem(level: Level, item: Item, rest: seq<Item>)
    ensures Encode(level, [item] + rest) == EncodeItem(level, item) + Encode(level, rest)
  {
    assert ([item] + rest)[1..] == rest;
  }

  // ----- a model in bytes -----

  /** A graph with one node, one input and one output, and an operator set. */
  const SMALL_MODEL: Bytes := [58, 12, 10, 6, 34, 4, 82, 101, 108, 117, 90, 0, 98, 0, 66, 0]

  const RELU: Bytes := [82, 101, 108, 117]

  lemma NodeBytes(node: seq<Item>, name: Bytes)
    requires node == [Raw(4, Payload(name))] && |name| == 4
    ensures Encode(NodeLevel, node) == [34, 4] + name && NodeNames(node) == [name] && IsMessage(NodeLevel, node)
  {
    ShortField(4, name);
    FirstItem(NodeLevel, node[0], []);
    assert node[1..] == [] && node == [node[0]] + [];
  }

  lemma NestedBytes(level: Level, items: seq<Item>, bytes: Bytes)
    requires level != NodeLevel && Encode(Below(level), items) == bytes && |bytes| < 128
    ensures EncodeItem(level, Nested(items)) == [if level.ModelLevel? then 58 else 10, |bytes|] + bytes
  {
    ShortField(NestedNumber(level), bytes);
  }

  lemma EmptyField(level: Level, number: nat)
    requires 8 * number + 2 < 128
    ensures Encode(level, [Raw(number, Payload([]))]) == [8 * number + 2, 0]
  {
    ShortField(number, []);
    FirstItem(level, Raw(number, Payload([])), []);
    assert [Raw(number, Payload([]))] == [Raw(number, Payload([]))] + [];
  }

  lemma GraphBytes(node: seq<Item>, graph: seq<Item>, bytes: Bytes)
    requires IsMessage(NodeLevel, node) && Encode(NodeLevel, node) == bytes && |bytes| == 6
    requires graph == [Nested(node)] + ([Raw(11, Payload([]))] + [Raw(12, Payload([]))])
    ensures Encode(GraphLevel, graph) == ([10, 6] + bytes) + ([90, 0] + [98, 0])
  {
    NestedBytes(GraphLevel, node, bytes);
    EmptyField(GraphLevel, 12);
    EmptyField(GraphLevel, 11);
    FirstItem(GraphLevel, Raw(11, Payload([])), []);
    FirstItem(GraphLevel, Raw(11, Payload([])), [Raw(12, Payload([]))]);
    FirstItem(GraphLevel, Nested(node), [Raw(11, Payload([]))] + [Raw(12, Payload([]))]);
    assert [Raw(11, Payload([]))] + [] == [Raw(11, Payload([]))];
  }

  lemma GraphOfOne(node: seq<Item>, graph: seq<Item>, name: Bytes)
    requires IsMessage(NodeLevel, node) && NodeNames(node) == [name]
    requires graph == [Nested(node)] + ([Raw(11, Payload([]))] + [Raw(12, Payload([]))])
    ensures IsMessage(GraphLevel, graph) && GraphNames(graph) == [name]
    ensures Tally(graph, 11) == 1 && Tally(graph, 12) == 1
  {
    var ends := [Raw(11, Payload([])), Raw(12, Payload([]))];
    assert graph[0] == Nested(node) && graph[1..] == ends && ends[1..] == [ends[1]] && ends[1..][1..] == [];
    assert IsItem(GraphLevel, Nested(node)) && IsItem(GraphLevel, ends[0]) && IsItem(GraphLevel, ends[1]);
    assert GraphNames(ends) == [] by {
      assert GraphNames(ends[1..]) == [];
    }
    TallyOfEnds(ends);
  }

  lemma TallyOfEnds(ends: seq<Item>)
    requires ends == [Raw(11, Payload([])), Raw(12, Payload([]))]
    ensures Tally(ends, 11) == 1 && Tally(ends, 12) == 1
  {
    var last := [Raw(12, Payload([]))];
    assert ends[1..] == last && last[1..] == [];
    assert IsPayload(ends[0], 11) && !IsPayload(ends[0], 12) && IsPayload(last[0], 12) && !IsPayload(last[0], 11);
    assert Tally(last, 11) == 0 && Tally(last, 12) == 1;
  }

  lemma ModelBytes(graph: seq<Item>, model: seq<Item>, bytes: Bytes)
    requires Encode(GraphLevel, graph) == bytes && |bytes| == 12 && model == [Nested(graph)] + [Raw(8, Payload([]))]
    ensures Encode(ModelLevel, model) == ([58, 12] + bytes) + [66, 0]
  {
    NestedBytes(ModelLevel, graph, bytes);
    EmptyField(ModelLevel, 8);
    FirstItem(ModelLevel, Nested(graph), [Raw(8, Payload([]))]);
  }

  lemma ModelOfOne(graph: seq<Item>, model: seq<Item>)
    requires IsMessage(GraphLevel, graph) && model == [Nested(graph)] + [Raw(8, Payload([]))]
    ensures IsMessage(ModelLevel, model) && ModelNames(model) == GraphNames(graph) && Graphs(model) == 1
    ensures InGraphs(model, 11) == Tally(graph, 11) && InGraphs(model, 12) == Tally(graph, 12) && Tally(model, 8) == 1
  {
    var last := [Raw(8, Payload([]))];
    assert model[0] == Nested(graph) && model[1..] == last && last[1..] == [];
    assert IsItem(ModelLevel, Nested(graph)) && IsItem(ModelLevel, last[0]);
    assert ModelNames(model) == GraphNames(graph) + [];
  }

  lemma SmallModelBytes(relu: Bytes, data: Bytes)
    requires relu == RELU && data == SMALL_MODEL
    ensures data == ([58, 12] + (([10, 6] + ([34, 4] + relu)) + ([90, 0] + [98, 0]))) + [66, 0]
  {
  }

  lemma SmallReport(relu: Bytes, data: Bytes, name: string, decode: Decoder)
    requires relu == RELU && data == SMALL_MODEL && decode(relu) == Some(name)
    ensures Parse(data, decode) == Ok(Summary(1, [name], 1, 1, true))
  {
    var node := [Raw(4, Payload(relu))];
    var graph := [Nested(node)] + ([Raw(11, Payload([]))] + [Raw(12, Payload([]))]);
    var model := [Nested(graph)] + [Raw(8, Payload([]))];
    NodeBytes(node, relu);
    GraphBytes(node, graph, [34, 4] + relu);
    GraphOfOne(node, graph, relu);
    ModelBytes(graph, model, Encode(GraphLevel, graph));
    ModelOfOne(graph, model);
    SmallModelBytes(relu, data);
    ReportOf(model, data, relu, name, decode);
  }

  lemma ReportOf(model: seq<Item>, data: Bytes, relu: Bytes, name: string, decode: Decoder)
    requires IsMessage(ModelLevel, model) && Encode(ModelLevel, model) == data && decode(relu) == Some(name)
    requires ModelNames(model) == [relu] && Graphs(model) == 1 && InGraphs(model, 11) == 1 && InGraphs(model, 12) == 1
    requires Tally(model, 8) == 1
    ensures Parse(data, decode) == Ok(Summary(1, [name], 1, 1, true))
  {
    ModelIsReported(model, decode);
    assert AllDecode([relu], decode) && Decoded([relu], decode) == [name];
  }

  /** The bytes of a small model, and what is reported of it. */
  lemma SmallModel(name: string, decode: Decoder)
    requires decode(RELU) == Some(name)
    ensures Parse(SMALL_MODEL, decode) == Ok(Summary(1, [name], 1, 1, true))
  {
    SmallReport(RELU, SMALL_MODEL, name, decode);
  }
}
