/** The artifact container: a little-endian header, a manifest, a payload of arrays and a
    digest over everything in front of it. Writer, manifest rewriter and checker.

    The digest is any function with 32-byte results. The manifest codec is any pair of
    functions in which decoding undoes encoding; array checksums are kept as digests. */
module ArtifactContainer {
  import opened Wrappers
  import opened Bits

  type Hash = Bytes -> Bytes

  // ----- little-endian numbers -----

  function Pow256(n: nat): (p: nat)
    ensures p > 0
  {
    if n == 0 then 1 else 256 * Pow256(n - 1)
  }

  /** `value` in `width` bytes, lowest first. */
  function Little(value: nat, width: nat): (s: Bytes)
    ensures |s| == width
  {
    if width == 0 then [] else [value % 256] + Little(value / 256, width - 1)
  }

  function FromLittle(s: Bytes): nat {
    if s == [] then 0 else s[0] + 256 * FromLittle(s[1..])
  }

  // ----- arrays -----

  /** Integers are packed in two's complement; a double is its eight bytes. */
  datatype Values = Ints(ints: seq<int>) | Doubles(doubles: seq<Bytes>)

  datatype Array = Array(name: string, shape: seq<int>, values: Values)

  const HALF: int := 0x8000_0000_0000_0000
  const WORD: int := 0x1_0000_0000_0000_0000

  predicate FitsWord(value: int) {
    -HALF <= value < HALF
  }

  /** `struct.pack("<q", value)` */
  function PackInt(value: int): (s: Bytes)
    requires FitsWord(value)
    ensures |s| == 8
  {
    Little(if value < 0 then value + WORD else value, 8)
  }

  function UnpackInt(s: Bytes): int {
    var n := FromLittle(s);
    if n >= HALF then n - WORD else n
  }

  function PackInts(values: seq<int>): Option<Bytes> {
    if values == [] then Some([])
    else
      var rest := PackInts(values[1..]);
      if !FitsWord(values[0]) || rest.None? then None else Some(PackInt(values[0]) + rest.value)
  }

  function PackDoubles(values: seq<Bytes>): Bytes {
    if values == [] then [] else values[0] + PackDoubles(values[1..])
  }

  /** The raw bytes of an array; `None` where packing an integer raises. */
  function RawBytes(values: Values): Option<Bytes> {
    match values
    case Ints(ints) => PackInts(ints)
    case Doubles(doubles) => Some(PackDoubles(doubles))
  }

  predicate AreDoubles(values: Values) {
    values.Doubles? ==> forall i :: 0 <= i < |values.doubles| ==> |values.doubles[i]| == 8
  }

  function UnpackInts(s: Bytes): seq<int> {
    if |s| < 8 then [] else [UnpackInt(s[..8])] + UnpackInts(s[8..])
  }

  function UnpackDoubles(s: Bytes): seq<Bytes> {
    if |s| < 8 then [] else [s[..8]] + UnpackDoubles(s[8..])
  }

  /** The values in a stretch of the payload. */
  function Unpack(isInt: bool, s: Bytes): Values {
    if isInt then Ints(UnpackInts(s)) else Doubles(UnpackDoubles(s))
  }

  // ----- the manifest -----

  datatype ArrayEntry = ArrayEntry(name: string, isInt: bool, shape: seq<int>, offset: int, length: int,
                                   checksum: Bytes)

  /** The array table, and everything else the manifest holds. */
  datatype Manifest<M> = Manifest(info: M, arrays: seq<ArrayEntry>)

  datatype Codec<!M> = Codec(encode: Manifest<M> -> Bytes, decode: Bytes -> Option<Manifest<M>>)

  ghost predicate IsCodec<M(!new)>(codec: Codec<M>) {
    forall m: Manifest<M> :: codec.decode(codec.encode(m)) == Some(m)
  }

  ghost predicate IsHash(hash: Hash) {
    forall s: Bytes :: |hash(s)| == 32
  }

  function EntryOf(a: Array, raw: Bytes, offset: nat, hash: Hash): ArrayEntry {
    ArrayEntry(a.name, a.values.Ints?, a.shape, offset, |raw|, hash(raw))
  }

  // ----- writing -----

  /** Payload and table entries of the arrays written so far. */
  datatype Written = Written(payload: Bytes, entries: seq<ArrayEntry>)

  function WriteArrays(arrays: seq<Array>, hash: Hash): Option<Written> {
    if arrays == [] then Some(Written([], []))
    else
      var n := |arrays| - 1;
      var before, raw := WriteArrays(arrays[..n], hash), RawBytes(arrays[n].values);
      if before.None? || raw.None? then None
      else
        Some(Written(before.value.payload + raw.value,
                     before.value.entries + [EntryOf(arrays[n], raw.value, |before.value.payload|, hash)]))
  }

  const MAGIC: Bytes := [0x53, 0x50, 0x41, 0x52, 0x41, 0x52, 0x54, 0x31]

  const HEADER_SIZE: nat := 28
  const DIGEST_SIZE: nat := 32

  datatype Header = Header(magic: Bytes, version: nat, manifestLength: nat, payloadLength: nat)

  /** `HEADER.pack`; `None` where a length does not fit. */
  function PackHeader(h: Header): (r: Option<Bytes>)
    requires |h.magic| == 8 && h.version < Pow256(4)
    ensures r.Some? ==> |r.value| == HEADER_SIZE
  {
    if h.manifestLength >= Pow256(8) || h.payloadLength >= Pow256(8) then None
    else Some(h.magic + Little(h.version, 4) + Little(h.manifestLength, 8) + Little(h.payloadLength, 8))
  }

  /** `HEADER.unpack_from` */
  function UnpackHeader(data: Bytes): Header
    requires |data| >= HEADER_SIZE
  {
    Header(data[..8], FromLittle(data[8..12]), FromLittle(data[12..20]), FromLittle(data[20..28]))
  }

  /** Header, manifest and payload, sealed with their digest. */
  function Sealed(magic: Bytes, version: nat, encoded: Bytes, payload: Bytes, hash: Hash): Option<Bytes>
    requires |magic| == 8 && version < Pow256(4)
  {
    var header := PackHeader(Header(magic, version, |encoded|, |payload|));
    if header.None? then None
    else
      var body := header.value + encoded + payload;
      Some(body + hash(body))
  }

  /** `make_container`; `None` where it raises. */
  function Container<M>(info: M, arrays: seq<Array>, codec: Codec<M>, hash: Hash): Option<Bytes> {
    var written := WriteArrays(arrays, hash);
    if written.None? then None
    else Sealed(MAGIC, 1, codec.encode(Manifest(info, written.value.entries)), written.value.payload, hash)
  }

  method MakeContainer<M>(info: M, arrays: seq<Array>, codec: Codec<M>, hash: Hash) returns (r: Option<Bytes>)
    ensures r == Container(info, arrays, codec, hash)
  {
    var payload: Bytes := [];
    var entries: seq<ArrayEntry> := [];
    var i := 0;
    while i < |arrays|
      invariant 0 <= i <= |arrays|
      invariant WriteArrays(arrays[..i], hash) == Some(Written(payload, entries))
    {
      assert arrays[..i + 1][..i] == arrays[..i];
      var raw := RawBytes(arrays[i].values);
      if raw.None? {
        FailsLater(arrays, hash, i + 1);
        return None;
      }
      var offset := |payload|;
      payload := payload + raw.value;
      entries := entries + [EntryOf(arrays[i], raw.value, offset, hash)];
      i := i + 1;
    }
    assert arrays[..i] == arrays;
    var encoded := codec.encode(Manifest(info, entries));
    r := Sealed(MAGIC, 1, encoded, payload, hash);
  }

  /** A prefix that cannot be written spoils the whole list. */
  lemma {:induction false} FailsLater(arrays: seq<Array>, hash: Hash, i: nat)
    requires i <= |arrays| && WriteArrays(arrays[..i], hash).None?
    ensures WriteArrays(arrays, hash).None?
    decreases |arrays| - i
  {
    if i == |arrays| {
      assert arrays[..i] == arrays;
    } else {
      assert arrays[..i + 1][..i] == arrays[..i];
      FailsLater(arrays, hash, i + 1);
    }
  }

  // ----- checking -----

  function BodyLength(h: Header): nat {
    HEADER_SIZE + h.manifestLength + h.payloadLength
  }

  /** The checks of magic, version, length and digest. */
  predicate HasEnvelope(data: Bytes, hash: Hash) {
    && |data| >= HEADER_SIZE + DIGEST_SIZE
    && var h := UnpackHeader(data);
       && h.magic == MAGIC && h.version == 1
       && |data| == BodyLength(h) + DIGEST_SIZE
       && hash(data[..BodyLength(h)]) == data[BodyLength(h)..]
  }

  function ManifestBytes(data: Bytes): Bytes
    requires |data| >= HEADER_SIZE && |data| >= BodyLength(UnpackHeader(data))
  {
    data[HEADER_SIZE..HEADER_SIZE + UnpackHeader(data).manifestLength]
  }

  function PayloadBytes(data: Bytes): Bytes
    requires |data| >= HEADER_SIZE && |data| >= BodyLength(UnpackHeader(data))
  {
    data[HEADER_SIZE + UnpackHeader(data).manifestLength..BodyLength(UnpackHeader(data))]
  }

  predicate IsEntry(e: ArrayEntry, payload: Bytes, hash: Hash) {
    && 0 <= e.offset <= e.offset + e.length <= |payload|
    && hash(payload[e.offset..e.offset + e.length]) == e.checksum
  }

  /** The table by name: a later entry replaces an earlier one of the same name. */
  function Table(entries: seq<ArrayEntry>): map<string, ArrayEntry> {
    if entries == [] then map[]
    else
      var n := |entries| - 1;
      Table(entries[..n])[entries[n].name := entries[n]]
  }

  predicate IsTable(entries: seq<ArrayEntry>, payload: Bytes, hash: Hash) {
    forall name :: name in Table(entries) ==> IsEntry(Table(entries)[name], payload, hash)
  }

  /** The envelope and array checks of `validate_index`. */
  predicate Passes<M>(data: Bytes, codec: Codec<M>, hash: Hash) {
    && HasEnvelope(data, hash)
    && var manifest := codec.decode(ManifestBytes(data));
       manifest.Some? && IsTable(manifest.value.arrays, PayloadBytes(data), hash)
  }

  method CheckArrays(entries: seq<ArrayEntry>, payload: Bytes, hash: Hash) returns (ok: bool)
    ensures ok <==> IsTable(entries, payload, hash)
  {
    var table: map<string, ArrayEntry> := map[];
    var i := 0;
    while i < |entries|
      invariant 0 <= i <= |entries|
      invariant table == Table(entries[..i])
    {
      assert entries[..i + 1][..i] == entries[..i];
      table := table[entries[i].name := entries[i]];
      i := i + 1;
    }
    assert entries[..i] == entries;
    var left := table.Keys;
    while left != {}
      invariant left <= table.Keys
      invariant forall name :: name in table.Keys - left ==> IsEntry(table[name], payload, hash)
      decreases |left|
    {
      var name :| name in left;
      if !IsEntry(table[name], payload, hash) {
        return false;
      }
      left := left - {name};
    }
    ok := true;
  }

  method ValidateContainer<M>(data: Bytes, codec: Codec<M>, hash: Hash) returns (ok: bool)
    ensures ok <==> Passes(data, codec, hash)
  {
    if !HasEnvelope(data, hash) {
      return false;
    }
    var manifest := codec.decode(ManifestBytes(data));
    if manifest.None? {
      return false;
    }
    ok := CheckArrays(manifest.value.arrays, PayloadBytes(data), hash);
  }

  // ----- rewriting the manifest -----

  /** `rewrite_manifest`; `None` where it raises. Slices past the end are cut short. */
  function Rewrite<M>(data: Bytes, edit: Manifest<M> -> Manifest<M>, codec: Codec<M>, hash: Hash): Option<Bytes> {
    if |data| < HEADER_SIZE then None
    else
      var h := UnpackHeader(data);
      var manifest := codec.decode(Slice(data, HEADER_SIZE, HEADER_SIZE + h.manifestLength));
      if manifest.None? then None
      else
        VersionFits(data);
        Sealed(h.magic, h.version, codec.encode(edit(manifest.value)),
               Slice(data, HEADER_SIZE + h.manifestLength, BodyLength(h)), hash)
  }

  function Slice(s: Bytes, from: nat, to: nat): Bytes
    requires from <= to
  {
    s[if from <= |s| then from else |s|..if to <= |s| then to else |s|]
  }

  lemma {:induction false} FromLittleFits(s: Bytes)
    ensures FromLittle(s) < Pow256(|s|)
  {
    if s != [] {
      FromLittleFits(s[1..]);
    }
  }

  lemma VersionFits(data: Bytes)
    requires |data| >= HEADER_SIZE
    ensures UnpackHeader(data).version < Pow256(4)
  {
    FromLittleFits(data[8..12]);
  }
}
