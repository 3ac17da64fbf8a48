/** The Protocol Buffers reader used on exported ONNX models: varints, length-delimited
    fields and skipped fields, nested three levels deep (model, graph, node). */
module WireFormat {
  import opened Wrappers
  import opened Bits

  datatype Error = TruncatedVarint | TruncatedField | UnsupportedWire(wire: nat) | BadText

  datatype Result<+T> = Ok(value: T) | Err(error: Error)

  // ----- varints -----

  datatype Varint = Varint(value: nat, size: nat)

  /** The base 128 varint at the front of `s`, its groups of seven bits weighted from
      `Pow2(shift)` upwards: the value and the length in bytes. */
  function VarintFrom(s: Bytes, shift: nat): (r: Result<Varint>)
    ensures r.Ok? ==> 1 <= r.value.size <= |s|
  {
    if s == [] then Err(TruncatedVarint)
    else if s[0] < 128 then Ok(Varint(s[0] * Pow2(shift), 1))
    else
      match VarintFrom(s[1..], shift + 7)
      case Err(e) => Err(e)
      case Ok(v) => Ok(Varint(s[0] % 128 * Pow2(shift) + v.value, v.size + 1))
  }

  function VarintAt(s: Bytes): (r: Result<Varint>)
    ensures r.Ok? ==> 1 <= r.value.size <= |s|
  {
    VarintFrom(s, 0)
  }

  /** `whole` is the varint whose first `size` bytes gave `value` and whose rest is `rest`. */
  ghost predicate Continues(whole: Result<Varint>, rest: Result<Varint>, value: nat, size: nat) {
    match rest
    case Ok(v) => whole == Ok(Varint(value + v.value, size + v.size))
    case Err(e) => whole == Err(e)
  }

  lemma SevenMoreBits(value: nat, x: nat, shift: nat)
    requires value < Pow2(shift) && x < 128
    ensures Or(value, x * Pow2(shift)) == value + x * Pow2(shift) < Pow2(shift + 7)
  {
    OrShiftedIsSum(value, x, shift);
    Pow2Plus7(shift);
    MulAtMost(x, 127, Pow2(shift));
  }

  lemma OneMoreByte(data: Bytes, index: nat, shift: nat, value: nat, whole: Result<Varint>, size: nat)
    requires index < |data| && value < Pow2(shift)
    requires Continues(whole, VarintFrom(data[index..], shift), value, size)
    ensures var next := Or(value, data[index] % 128 * Pow2(shift));
            && next < Pow2(shift + 7)
            && (data[index] < 128 ==> whole == Ok(Varint(next, size + 1)))
            && (data[index] >= 128 ==> Continues(whole, VarintFrom(data[index + 1..], shift + 7), next, size + 1))
  {
    SevenMoreBits(value, data[index] % 128, shift);
    assert data[index..][1..] == data[index + 1..];
  }

  /** `read_varint`: the value is or-ed together seven bits at a time. */
  method ReadVarint(data: Bytes, start: nat) returns (r: Result<(nat, nat)>)
    requires start <= |data|
    ensures match VarintAt(data[start..])
            case Ok(v) => r == Ok((v.value, start + v.size))
            case Err(e) => r == Err(e)
  {
    var shift: nat, value: nat, index: nat := 0, 0, start;
    ghost var whole := VarintAt(data[start..]);
    while index < |data|
      invariant start <= index <= |data|
      invariant value < Pow2(shift)
      invariant Continues(whole, VarintFrom(data[index..], shift), value, index - start)
    {
      var current := data[index];
      OneMoreByte(data, index, shift, value, whole, index - start);
      index := index + 1;
      value := Or(value, current % 128 * Pow2(shift));
      if current < 128 {
        return Ok((value, index));
      }
      shift := shift + 7;
    }
    r := Err(TruncatedVarint);
  }

  // ----- fields -----

  /** One field: number, wire type, the payload of a length-delimited field and the bytes
      the reader moves past.  A fixed-width field is skipped without looking at how many
      bytes are left, so `size` can exceed them. */
  datatype Field = Field(number: nat, wire: nat, payload: Bytes, size: nat)

  /** A length and that many bytes. */
  function PayloadAt(s: Bytes): (r: Result<(Bytes, nat)>)
    ensures r.Ok? ==> 1 <= r.value.1 <= |s|
  {
    match VarintAt(s)
    case Err(e) => Err(e)
    case Ok(v) =>
      if v.size + v.value > |s| then Err(TruncatedField)
      else Ok((s[v.size..v.size + v.value], v.size + v.value))
  }

  /** What follows a key of the given wire type: payload (if any) and size. */
  function BodyAt(s: Bytes, wire: nat): (r: Result<(Bytes, nat)>)
  {
    if wire == 0 then
      match VarintAt(s)
      case Err(e) => Err(e)
      case Ok(v) => Ok(([], v.size))
    else if wire == 1 then Ok(([], 8))
    else if wire == 2 then PayloadAt(s)
    else if wire == 5 then Ok(([], 4))
    else Err(UnsupportedWire(wire))
  }

  function FieldAt(s: Bytes): (r: Result<Field>)
    ensures r.Ok? ==> 1 <= r.value.size
  {
    match VarintAt(s)
    case Err(e) => Err(e)
    case Ok(key) =>
      var number, wire := key.value / 8, key.value % 8;
      match BodyAt(s[key.size..], wire)
      case Err(e) => Err(e)
      case Ok(body) => Ok(Field(number, wire, body.0, key.size + body.1))
  }

  /** `data[n:]`, which is empty when `n` is past the end. */
  function Drop(s: Bytes, n: nat): (r: Bytes)
    ensures n >= 1 && s != [] ==> |r| < |s|
  {
    if n <= |s| then s[n..] else []
  }

  /** The reader stops exactly at the end of `s`. */
  predicate EndsExactly(s: Bytes)
    decreases |s|
  {
    s == [] || (FieldAt(s).Ok? && FieldAt(s).value.size <= |s| && EndsExactly(s[FieldAt(s).value.size..]))
  }

  // ----- the three nested messages -----

  /** `bytes.decode("utf-8")`, or `None` where it raises. */
  type Decoder = Bytes -> Option<string>

  datatype Level = NodeLevel | GraphLevel | ModelLevel

  /** What the parser notes while reading, in reading order. */
  datatype Event = SawGraph | SawOp(name: string) | SawInput | SawOutput | SawOpset

  function Rank(level: Level): nat {
    match level case NodeLevel => 0 case GraphLevel => 1 case ModelLevel => 2
  }

  /** The fields that hold a message of the next level down. */
  predicate IsNested(level: Level, number: nat, wire: nat) {
    wire == 2 && ((level.GraphLevel? && number == 1) || (level.ModelLevel? && number == 7))
  }

  function Below(level: Level): Level {
    if level.ModelLevel? then GraphLevel else NodeLevel
  }

  /** Read every field of a message and note what it says, up to the first error. */
  function Walk(level: Level, s: Bytes, decode: Decoder): Result<seq<Event>>
    decreases Rank(level), |s|
  {
    if s == [] then Ok([])
    else
      var f := FieldAt(s);
      if f.Err? then Err(f.error)
      else
        var nested := if IsNested(level, f.value.number, f.value.wire)
                      then Walk(Below(level), f.value.payload, decode) else Ok([]);
        Both(Note(level, f.value.number, f.value.wire, f.value.payload, decode, nested),
             Walk(level, Drop(s, f.value.size), decode))
  }

  /** The first error wins. */
  function Both(a: Result<seq<Event>>, b: Result<seq<Event>>): Result<seq<Event>> {
    if a.Err? then a else if b.Err? then b else Ok(a.value + b.value)
  }

  /** What one field says, given what the message nested in it says (if there is one). */
  function Note(level: Level, number: nat, wire: nat, payload: Bytes, decode: Decoder,
                nested: Result<seq<Event>>): Result<seq<Event>>
  {
    if wire != 2 then Ok([])
    else
      match level
      case NodeLevel =>
        if number != 4 then Ok([])
        else if decode(payload).None? then Err(BadText)
        else Ok([SawOp(decode(payload).value)])
      case GraphLevel =>
        if number == 1 then nested
        else if number == 11 then Ok([SawInput])
        else if number == 12 then Ok([SawOutput])
        else Ok([])
      case ModelLevel =>
        if number == 7 then Both(Ok([SawGraph]), nested)
        else if number == 8 then Ok([SawOpset])
        else Ok([])
  }

  function NotePayload(level: Level, number: nat, wire: nat, payload: Bytes, decode: Decoder): Result<seq<Event>> {
    Note(level, number, wire, payload, decode,
         if IsNested(level, number, wire) then Walk(Below(level), payload, decode) else Ok([]))
  }

  function NoteField(level: Level, f: Field, decode: Decoder): Result<seq<Event>> {
    NotePayload(level, f.number, f.wire, f.payload, decode)
  }

  /** The dictionary that `parse_onnx` returns. */
  datatype Summary = Summary(graphs: nat, ops: seq<string>, inputs: nat, outputs: nat, opset: bool)

  const EMPTY := Summary(0, [], 0, 0, false)

  function Merge(a: Summary, b: Summary): Summary {
    Summary(a.graphs + b.graphs, a.ops + b.ops, a.inputs + b.inputs, a.outputs + b.outputs, a.opset || b.opset)
  }

  function Summarize(events: seq<Event>): Summary {
    if events == [] then EMPTY
    else Merge(Summarize(events[..|events| - 1]), Single(events[|events| - 1]))
  }

  function Single(event: Event): Summary {
    match event
    case SawGraph => EMPTY.(graphs := 1)
    case SawOp(name) => EMPTY.(ops := [name])
    case SawInput => EMPTY.(inputs := 1)
    case SawOutput => EMPTY.(outputs := 1)
    case SawOpset => EMPTY.(opset := true)
  }

  /** `parse_onnx` */
  function Parse(data: Bytes, decode: Decoder): Result<Summary> {
    match Walk(ModelLevel, data, decode)
    case Err(e) => Err(e)
    case Ok(events) => Ok(Summarize(events))
  }

  // ----- the reader's loops -----

  /** `read_len` */
  method ReadLen(data: Bytes, start: nat) returns (r: Result<(Bytes, nat)>)
    requires start <= |data|
    ensures match PayloadAt(data[start..])
            case Ok(p) => r == Ok((p.0, start + p.1))
            case Err(e) => r == Err(e)
  {
    var length := ReadVarint(data, start);
    match length
    case Err(e) => r := Err(e);
    case Ok((n, index)) =>
      var end := index + n;
      if end > |data| {
        r := Err(TruncatedField);
      } else {
        assert data[index..end] == data[start..][index - start..end - start];
        r := Ok((data[index..end], end));
      }
  }

  /** `skip` */
  method Skip(data: Bytes, start: nat, wire: nat) returns (r: Result<nat>)
    requires start <= |data|
    ensures match BodyAt(data[start..], wire)
            case Ok(body) => r == Ok(start + body.1)
            case Err(e) => r == Err(e)
  {
    if wire == 0 {
      var v := ReadVarint(data, start);
      match v
      case Err(e) => r := Err(e);
      case Ok((_, index)) => r := Ok(index);
    } else if wire == 1 {
      r := Ok(start + 8);
    } else if wire == 2 {
      var p := ReadLen(data, start);
      match p
      case Err(e) => r := Err(e);
      case Ok((_, index)) => r := Ok(index);
    } else if wire == 5 {
      r := Ok(start + 4);
    } else {
      r := Err(UnsupportedWire(wire));
    }
  }

  /** The loop has noted `events` and goes on at `index`. */
  ghost predicate WalkedTo(level: Level, data: Bytes, decode: Decoder, index: nat, events: seq<Event>) {
    Walk(level, data, decode) == Both(Ok(events), Walk(level, Drop(data, index), decode))
  }

  lemma BothAssociates(a: Result<seq<Event>>, b: Result<seq<Event>>, c: Result<seq<Event>>)
    ensures Both(a, Both(b, c)) == Both(Both(a, b), c)
  {
    if a.Ok? && b.Ok? && c.Ok? {
      assert a.value + (b.value + c.value) == (a.value + b.value) + c.value;
    }
  }

  lemma WalkOn(level: Level, data: Bytes, decode: Decoder, index: nat, events: seq<Event>)
    requires index < |data| && WalkedTo(level, data, decode, index, events)
    ensures var f := FieldAt(data[index..]);
            && (f.Err? ==> Walk(level, data, decode) == Err(f.error))
            && (f.Ok? ==> var more := NoteField(level, f.value, decode);
                          && (more.Err? ==> Walk(level, data, decode) == more)
                          && (more.Ok? ==> WalkedTo(level, data, decode, index + f.value.size, events + more.value)))
  {
    var s := data[index..];
    assert s != [];
    var f := FieldAt(s);
    if f.Ok? {
      assert Drop(s, f.value.size) == Drop(data, index + f.value.size);
      BothAssociates(Ok(events), NoteField(level, f.value, decode), Walk(level, Drop(s, f.value.size), decode));
    }
  }

  /** The reader takes a field apart in two steps: the key, then what the key announces. */
  lemma FieldInParts(data: Bytes, index: nat)
    requires index <= |data|
    ensures var key := VarintAt(data[index..]);
            && (key.Err? ==> FieldAt(data[index..]) == Err(key.error))
            && (key.Ok? ==>
                  var next, wire := index + key.value.size, key.value.value % 8;
                  var body := BodyAt(data[next..], wire);
                  FieldAt(data[index..]) ==
                    if body.Err? then Err(body.error)
                    else Ok(Field(key.value.value / 8, wire, body.value.0, key.value.size + body.value.1)))
  {
    var key := VarintAt(data[index..]);
    if key.Ok? {
      assert data[index..][key.value.size..] == data[index + key.value.size..];
    }
  }

  lemma WalkStarts(level: Level, data: Bytes, decode: Decoder)
    ensures WalkedTo(level, data, decode, 0, [])
  {
    var whole := Walk(level, data, decode);
    assert Drop(data, 0) == data;
    if whole.Ok? {
      assert [] + whole.value == whole.value;
    }
  }

  function OpEvents(ops: seq<string>): seq<Event> {
    seq(|ops|, i requires 0 <= i < |ops| => SawOp(ops[i]))
  }

  datatype Key = Key(field: nat, wire: nat, next: nat)

  /** The first lines of every loop: the key, split into field number and wire type. */
  method ReadKey(data: Bytes, index: nat) returns (r: Result<Key>)
    requires index < |data|
    ensures r.Err? ==> FieldAt(data[index..]) == Err(r.error)
    ensures r.Ok? ==> r.value.next <= |data| && index < r.value.next
    ensures r.Ok? ==> FieldFrom(data, index, r.value) == FieldAt(data[index..])
  {
    FieldInParts(data, index);
    var key := ReadVarint(data, index);
    if key.Err? {
      return Err(key.error);
    }
    r := Ok(Key(key.value.0 / 8, key.value.0 % 8, key.value.1));
  }

  ghost function FieldFrom(data: Bytes, index: nat, key: Key): Result<Field>
    requires index < key.next <= |data|
  {
    var body := BodyAt(data[key.next..], key.wire);
    if body.Err? then Err(body.error)
    else Ok(Field(key.field, key.wire, body.value.0, key.next - index + body.value.1))
  }

  /** Reading one field: what it notes and where the next one starts, or the error. */
  ghost predicate IsTurn(level: Level, data: Bytes, decode: Decoder, index: nat, r: Result<nat>, noted: seq<Event>)
    requires index < |data|
  {
    var f := FieldAt(data[index..]);
    if f.Err? then r == Err(f.error)
    else if NoteField(level, f.value, decode).Err? then r == Err(NoteField(level, f.value, decode).error)
    else r == Ok(index + f.value.size) && NoteField(level, f.value, decode) == Ok(noted)
  }

  lemma PayloadTurn(level: Level, data: Bytes, decode: Decoder, index: nat, key: Key, payload: Bytes, size: nat,
                    error: Option<Error>, noted: seq<Event>, r: Result<nat>)
    requires index < key.next <= |data| && key.wire == 2
    requires FieldFrom(data, index, key) == FieldAt(data[index..])
    requires PayloadAt(data[key.next..]) == Ok((payload, size))
    requires NotePayload(level, key.field, 2, payload, decode) == (if error.Some? then Err(error.value) else Ok(noted))
    requires r == if error.Some? then Err(error.value) else Ok(key.next + size)
    ensures IsTurn(level, data, decode, index, r, noted)
  {
    var f := FieldAt(data[index..]);
    assert f == Ok(Field(key.field, 2, payload, key.next - index + size));
    assert NoteField(level, f.value, decode) == NotePayload(level, key.field, 2, payload, decode);
  }

  lemma BrokenTurn(level: Level, data: Bytes, decode: Decoder, index: nat, key: Key, error: Error, noted: seq<Event>)
    requires index < key.next <= |data| && key.wire == 2
    requires FieldFrom(data, index, key) == FieldAt(data[index..])
    requires PayloadAt(data[key.next..]) == Err(error)
    ensures IsTurn(level, data, decode, index, Err(error), noted)
  {
  }

  lemma TakeTurn(level: Level, data: Bytes, decode: Decoder, index: nat, events: seq<Event>,
                 r: Result<nat>, noted: seq<Event>)
    requires index < |data| && WalkedTo(level, data, decode, index, events)
    requires IsTurn(level, data, decode, index, r, noted)
    ensures r.Err? ==> Walk(level, data, decode) == Err(r.error)
    ensures r.Ok? ==> r.value > index && WalkedTo(level, data, decode, r.value, events + noted)
  {
    WalkOn(level, data, decode, index, events);
  }

  lemma WalkEnds(level: Level, data: Bytes, decode: Decoder, index: nat, events: seq<Event>)
    requires index >= |data| && WalkedTo(level, data, decode, index, events)
    ensures Walk(level, data, decode) == Ok(events)
  {
    assert Drop(data, index) == [];
    assert events + [] == events;
  }

  /** The body of the loop of `node_ops`: the names it appends and the next index. */
  method NodeTurn(node: Bytes, decode: Decoder, index: nat) returns (r: Result<nat>, ops: seq<string>)
    requires index < |node|
    ensures IsTurn(NodeLevel, node, decode, index, r, OpEvents(ops))
  {
    ops := [];
    assert OpEvents([]) == [];
    var key := ReadKey(node, index);
    if key.Err? {
      r := Err(key.error);
    } else if key.value.field == 4 && key.value.wire == 2 {
      var raw := ReadLen(node, key.value.next);
      if raw.Err? {
        r := Err(raw.error);
      } else if decode(raw.value.0).None? {
        r := Err(BadText);
      } else {
        ops := [decode(raw.value.0).value];
        assert OpEvents(ops) == [SawOp(ops[0])];
        r := Ok(raw.value.1);
      }
    } else {
      r := Skip(node, key.value.next, key.value.wire);
    }
  }

  /** `node_ops` */
  method NodeOps(node: Bytes, decode: Decoder) returns (r: Result<seq<string>>)
    ensures r.Ok? ==> Walk(NodeLevel, node, decode) == Ok(OpEvents(r.value))
    ensures r.Err? ==> Walk(NodeLevel, node, decode) == Err(r.error)
  {
    var ops: seq<string>, index: nat := [], 0;
    WalkStarts(NodeLevel, node, decode);
    assert OpEvents([]) == [];
    while index < |node|
      invariant WalkedTo(NodeLevel, node, decode, index, OpEvents(ops))
      decreases |node| - index
    {
      var next, more := NodeTurn(node, decode, index);
      TakeTurn(NodeLevel, node, decode, index, OpEvents(ops), next, OpEvents(more));
      if next.Err? {
        return Err(next.error);
      }
      assert OpEvents(ops + more) == OpEvents(ops) + OpEvents(more);
      ops, index := ops + more, next.value;
    }
    WalkEnds(NodeLevel, node, decode, index, OpEvents(ops));
    r := Ok(ops);
  }

  // ----- graphs and models -----

  lemma {:induction false} SummarizeAppend(a: seq<Event>, b: seq<Event>)
    ensures Summarize(a + b) == Merge(Summarize(a), Summarize(b))
  {
    if b == [] {
      assert a + b == a;
    } else {
      var n := |b| - 1;
      assert (a + b)[..|a| + n] == a + b[..n];
      SummarizeAppend(a, b[..n]);
      MergeAssociates(Summarize(a), Summarize(b[..n]), Single(b[n]));
    }
  }

  lemma MergeAssociates(a: Summary, b: Summary, c: Summary)
    ensures Merge(a, Merge(b, c)) == Merge(Merge(a, b), c)
  {
  }

  lemma {:induction false} SummarizeOps(ops: seq<string>)
    ensures Summarize(OpEvents(ops)) == EMPTY.(ops := ops)
  {
    if ops != [] {
      var n := |ops| - 1;
      SummarizeOps(ops[..n]);
      assert OpEvents(ops)[..n] == OpEvents(ops[..n]);
      assert ops == ops[..n] + [ops[n]];
    }
  }

  lemma SummarizeOne(event: Event)
    ensures Summarize([event]) == Single(event)
  {
    assert [event][..0] == [];
  }

  /** The counters after a turn. */
  lemma CountersAdd(events: seq<Event>, noted: seq<Event>, s: Summary, added: Summary)
    requires Summarize(events) == s && Summarize(noted) == added
    ensures Summarize(events + noted)
         == Summary(s.graphs + added.graphs, s.ops + added.ops, s.inputs + added.inputs,
                    s.outputs + added.outputs, s.opset || added.opset)
  {
    SummarizeAppend(events, noted);
    assert Summarize(events + noted) == Merge(s, added);
  }

  /** The part of the inner loop that looks at a length-delimited payload. */
  method GraphPayload(field: nat, payload: Bytes, decode: Decoder)
    returns (error: Option<Error>, ops: seq<string>, inputs: nat, outputs: nat, ghost noted: seq<Event>)
    ensures NotePayload(GraphLevel, field, 2, payload, decode) == (if error.Some? then Err(error.value) else Ok(noted))
    ensures Summarize(noted) == Summary(0, ops, inputs, outputs, false)
  {
    error, ops, inputs, outputs, noted := None, [], 0, 0, [];
    if field == 1 {
      var names := NodeOps(payload, decode);
      if names.Err? {
        error := Some(names.error);
      } else {
        ops, noted := names.value, OpEvents(names.value);
        SummarizeOps(ops);
      }
    } else if field == 11 {
      inputs, noted := 1, [SawInput];
      SummarizeOne(SawInput);
    } else if field == 12 {
      outputs, noted := 1, [SawOutput];
      SummarizeOne(SawOutput);
    }
  }

  /** The body of the inner loop of `parse_onnx`. */
  method GraphTurn(graph: Bytes, decode: Decoder, gi: nat)
    returns (r: Result<nat>, ops: seq<string>, inputs: nat, outputs: nat, ghost noted: seq<Event>)
    requires gi < |graph|
    ensures IsTurn(GraphLevel, graph, decode, gi, r, noted)
    ensures Summarize(noted) == Summary(0, ops, inputs, outputs, false)
  {
    ops, inputs, outputs, noted := [], 0, 0, [];
    var key := ReadKey(graph, gi);
    if key.Err? {
      r := Err(key.error);
    } else if key.value.wire == 2 {
      var payload := ReadLen(graph, key.value.next);
      if payload.Err? {
        r := Err(payload.error);
      } else {
        var error;
        error, ops, inputs, outputs, noted := GraphPayload(key.value.field, payload.value.0, decode);
        r := if error.Some? then Err(error.value) else Ok(payload.value.1);
      }
    } else {
      r := Skip(graph, key.value.next, key.value.wire);
    }
  }

  /** The inner loop of `parse_onnx`, over one graph. */
  method ScanGraph(graph: Bytes, decode: Decoder)
    returns (r: Result<Summary>, ghost events: seq<Event>)
    ensures r.Ok? ==> Walk(GraphLevel, graph, decode) == Ok(events) && Summarize(events) == r.value
    ensures r.Err? ==> Walk(GraphLevel, graph, decode) == Err(r.error)
  {
    var ops: seq<string>, inputs: nat, outputs: nat, gi: nat := [], 0, 0, 0;
    events := [];
    WalkStarts(GraphLevel, graph, decode);
    while gi < |graph|
      invariant WalkedTo(GraphLevel, graph, decode, gi, events)
      invariant Summarize(events) == Summary(0, ops, inputs, outputs, false)
      decreases |graph| - gi
    {
      var next, moreOps, moreInputs, moreOutputs;
      ghost var noted;
      next, moreOps, moreInputs, moreOutputs, noted := GraphTurn(graph, decode, gi);
      TakeTurn(GraphLevel, graph, decode, gi, events, next, noted);
      if next.Err? {
        return Err(next.error), events;
      }
      CountersAdd(events, noted, Summary(0, ops, inputs, outputs, false),
                  Summary(0, moreOps, moreInputs, moreOutputs, false));
      ops, inputs, outputs, gi := ops + moreOps, inputs + moreInputs, outputs + moreOutputs, next.value;
      events := events + noted;
    }
    WalkEnds(GraphLevel, graph, decode, gi, events);
    r := Ok(Summary(0, ops, inputs, outputs, false));
  }

  lemma GraphNoted(events: seq<Event>, s: Summary)
    requires Summarize(events) == s
    ensures Summarize([SawGraph] + events) == s.(graphs := 1 + s.graphs)
  {
    SummarizeOne(SawGraph);
    CountersAdd([SawGraph], events, Single(SawGraph), s);
    assert [] + s.ops == s.ops;
  }

  /** The part of the outer loop that looks at the payload of field 7 or 8. */
  method ModelPayload(field: nat, payload: Bytes, decode: Decoder)
    returns (error: Option<Error>, added: Summary, ghost noted: seq<Event>)
    requires field == 7 || field == 8
    ensures NotePayload(ModelLevel, field, 2, payload, decode) == (if error.Some? then Err(error.value) else Ok(noted))
    ensures Summarize(noted) == added
  {
    if field == 7 {
      error, added, noted := ModelGraph(payload, decode);
    } else {
      error, added, noted := None, EMPTY.(opset := true), [SawOpset];
      SummarizeOne(SawOpset);
    }
  }

  method ModelGraph(payload: Bytes, decode: Decoder)
    returns (error: Option<Error>, added: Summary, ghost noted: seq<Event>)
    ensures NotePayload(ModelLevel, 7, 2, payload, decode) == (if error.Some? then Err(error.value) else Ok(noted))
    ensures Summarize(noted) == added
  {
    var inner;
    ghost var events;
    inner, events := ScanGraph(payload, decode);
    ghost var walked := Walk(GraphLevel, payload, decode);
    assert NotePayload(ModelLevel, 7, 2, payload, decode) == Both(Ok([SawGraph]), walked);
    if inner.Err? {
      error, added, noted := Some(inner.error), EMPTY, [];
    } else {
      GraphNoted(events, inner.value);
      error, added, noted := None, inner.value.(graphs := 1 + inner.value.graphs), [SawGraph] + events;
    }
  }

  /** The payload of field 7 or 8, once it has been cut out. */
  method ModelField(data: Bytes, decode: Decoder, ghost index: nat, key: Key, payload: Bytes, size: nat)
    returns (r: Result<nat>, added: Summary, ghost noted: seq<Event>)
    requires index < key.next <= |data| && key.wire == 2 && (key.field == 7 || key.field == 8)
    requires FieldFrom(data, index, key) == FieldAt(data[index..])
    requires PayloadAt(data[key.next..]) == Ok((payload, size))
    ensures IsTurn(ModelLevel, data, decode, index, r, noted)
    ensures Summarize(noted) == added
  {
    var error;
    error, added, noted := ModelPayload(key.field, payload, decode);
    r := if error.Some? then Err(error.value) else Ok(key.next + size);
    PayloadTurn(ModelLevel, data, decode, index, key, payload, size, error, noted, r);
  }

  /** The branches of the outer loop for fields 7 and 8. */
  method ModelMessage(data: Bytes, decode: Decoder, ghost index: nat, key: Key)
    returns (r: Result<nat>, added: Summary, ghost noted: seq<Event>)
    requires index < key.next <= |data| && key.wire == 2 && (key.field == 7 || key.field == 8)
    requires FieldFrom(data, index, key) == FieldAt(data[index..])
    ensures IsTurn(ModelLevel, data, decode, index, r, noted)
    ensures Summarize(noted) == added
  {
    added, noted := EMPTY, [];
    var payload := ReadLen(data, key.next);
    if payload.Err? {
      r := Err(payload.error);
      BrokenTurn(ModelLevel, data, decode, index, key, payload.error, noted);
    } else {
      r, added, noted := ModelField(data, decode, index, key, payload.value.0, payload.value.1 - key.next);
    }
  }

  /** The body of the outer loop of `parse_onnx`: what it adds to the counters. */
  method ModelTurn(data: Bytes, decode: Decoder, index: nat)
    returns (r: Result<nat>, added: Summary, ghost noted: seq<Event>)
    requires index < |data|
    ensures IsTurn(ModelLevel, data, decode, index, r, noted)
    ensures Summarize(noted) == added
  {
    added, noted := EMPTY, [];
    var key := ReadKey(data, index);
    if key.Err? {
      r := Err(key.error);
    } else if (key.value.field == 7 || key.value.field == 8) && key.value.wire == 2 {
      r, added, noted := ModelMessage(data, decode, index, key.value);
    } else {
      r := Skip(data, key.value.next, key.value.wire);
    }
  }

  /** `parse_onnx` on the bytes of a file. */
  method ParseOnnx(data: Bytes, decode: Decoder) returns (r: Result<Summary>)
    ensures r == Parse(data, decode)
  {
    var graphs: nat, ops: seq<string>, inputs: nat, outputs: nat, opset, index: nat := 0, [], 0, 0, false, 0;
    ghost var events: seq<Event> := [];
    WalkStarts(ModelLevel, data, decode);
    while index < |data|
      invariant WalkedTo(ModelLevel, data, decode, index, events)
      invariant Summarize(events) == Summary(graphs, ops, inputs, outputs, opset)
      decreases |data| - index
    {
      var next, added;
      ghost var noted;
      next, added, noted := ModelTurn(data, decode, index);
      TakeTurn(ModelLevel, data, decode, index, events, next, noted);
      if next.Err? {
        return Err(next.error);
      }
      CountersAdd(events, noted, Summary(graphs, ops, inputs, outputs, opset), added);
      graphs, ops, inputs := graphs + added.graphs, ops + added.ops, inputs + added.inputs;
      outputs, opset, index := outputs + added.outputs, opset || added.opset, next.value;
      events := events + noted;
    }
    WalkEnds(ModelLevel, data, decode, index, events);
    r := Ok(Summary(graphs, ops, inputs, outputs, opset));
  }
}
