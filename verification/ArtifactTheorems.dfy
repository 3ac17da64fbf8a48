/** Written containers pass, their arrays tile the payload and decode back, damaged ones are
    refused, and rewriting a manifest keeps the payload. */
module ArtifactTheorems {
  import opened Wrappers
  import opened Bits
  import opened ArtifactContainer

  // ----- numbers -----

  lemma {:induction false} LittleRoundTrip(value: nat, width: nat)
    requires value < Pow256(width)
    ensures FromLittle(Little(value, width)) == value
  {
    if width > 0 {
      var s := Little(value, width);
      assert s[1..] == Little(value / 256, width - 1);
      LittleRoundTrip(value / 256, width - 1);
    }
  }

  lemma EightBytes()
    ensures Pow256(8) == WORD
  {
    assert Pow256(4) == 0x1_0000_0000;
    assert Pow256(6) == 0x1_0000_0000_0000;
  }

  lemma IntRoundTrip(value: int)
    requires FitsWord(value)
    ensures UnpackInt(PackInt(value)) == value
  {
    EightBytes();
    LittleRoundTrip(if value < 0 then value + WORD else value, 8);
  }

  // ----- arrays -----

  lemma {:induction false} IntsRoundTrip(values: seq<int>)
    requires PackInts(values).Some?
    ensures UnpackInts(PackInts(values).value) == values
  {
    if values != [] {
      var raw, first := PackInts(values).value, PackInt(values[0]);
      assert raw[..8] == first && raw[8..] == PackInts(values[1..]).value;
      IntRoundTrip(values[0]);
      IntsRoundTrip(values[1..]);
    }
  }

  lemma {:induction false} DoublesRoundTrip(values: seq<Bytes>)
    requires forall i :: 0 <= i < |values| ==> |values[i]| == 8
    ensures UnpackDoubles(PackDoubles(values)) == values
  {
    if values != [] {
      var raw := PackDoubles(values);
      assert raw[..8] == values[0] && raw[8..] == PackDoubles(values[1..]);
      assert forall i :: 0 <= i < |values[1..]| ==> values[1..][i] == values[i + 1];
      DoublesRoundTrip(values[1..]);
    }
  }

  lemma ValuesRoundTrip(values: Values)
    requires AreDoubles(values) && RawBytes(values).Some?
    ensures Unpack(values.Ints?, RawBytes(values).value) == values
  {
    match values
    case Ints(ints) => IntsRoundTrip(ints);
    case Doubles(doubles) => DoublesRoundTrip(doubles);
  }

  // ----- the payload -----

  function End(e: ArrayEntry): int { e.offset + e.length }

  /** An entry starts where the one in front of it ends, the first at zero. */
  predicate FollowsOn(entries: seq<ArrayEntry>, i: nat)
    requires i < |entries|
  {
    entries[i].length >= 0 && entries[i].offset == if i == 0 then 0 else End(entries[i - 1])
  }

  /** The entries cut the payload into consecutive stretches without gap or overlap. */
  predicate Tiles(entries: seq<ArrayEntry>, payload: Bytes) {
    && (forall i :: 0 <= i < |entries| ==> FollowsOn(entries, i))
    && |payload| == if entries == [] then 0 else End(entries[|entries| - 1])
  }

  /** An entry describes an array that stands in the payload. */
  predicate Describes(e: ArrayEntry, a: Array, payload: Bytes, hash: Hash) {
    && e.name == a.name && e.shape == a.shape && e.isInt == a.values.Ints?
    && IsEntry(e, payload, hash)
    && RawBytes(a.values) == Some(payload[e.offset..End(e)])
  }

  lemma DescribesLonger(e: ArrayEntry, a: Array, payload: Bytes, more: Bytes, hash: Hash)
    requires Describes(e, a, payload, hash)
    ensures Describes(e, a, payload + more, hash)
  {
    assert (payload + more)[e.offset..End(e)] == payload[e.offset..End(e)];
  }

  lemma OneMoreTile(entries: seq<ArrayEntry>, payload: Bytes, e: ArrayEntry, raw: Bytes)
    requires Tiles(entries, payload) && e.offset == |payload| && e.length == |raw|
    ensures Tiles(entries + [e], payload + raw)
  {
    var more := entries + [e];
    forall i | 0 <= i < |more| ensures FollowsOn(more, i) {
      if i < |entries| {
        assert FollowsOn(entries, i);
      }
    }
  }

  lemma LastIsDescribed(a: Array, payload: Bytes, raw: Bytes, hash: Hash)
    requires RawBytes(a.values) == Some(raw)
    ensures Describes(EntryOf(a, raw, |payload|, hash), a, payload + raw, hash)
  {
    assert (payload + raw)[|payload|..|payload| + |raw|] == raw;
  }

  predicate AreDescribed(entries: seq<ArrayEntry>, arrays: seq<Array>, payload: Bytes, hash: Hash) {
    |entries| == |arrays| && forall i :: 0 <= i < |arrays| ==> Describes(entries[i], arrays[i], payload, hash)
  }

  lemma OneMoreDescribed(entries: seq<ArrayEntry>, arrays: seq<Array>, payload: Bytes, hash: Hash,
                         e: ArrayEntry, a: Array, raw: Bytes)
    requires AreDescribed(entries, arrays, payload, hash) && Describes(e, a, payload + raw, hash)
    ensures AreDescribed(entries + [e], arrays + [a], payload + raw, hash)
  {
    forall i | 0 <= i < |arrays| ensures Describes(entries[i], arrays[i], payload + raw, hash) {
      DescribesLonger(entries[i], arrays[i], payload, raw, hash);
    }
  }

  lemma {:induction false} WrittenTiles(arrays: seq<Array>, hash: Hash)
    requires WriteArrays(arrays, hash).Some?
    ensures var w := WriteArrays(arrays, hash).value;
            Tiles(w.entries, w.payload) && AreDescribed(w.entries, arrays, w.payload, hash)
  {
    if arrays != [] {
      var n := |arrays| - 1;
      var before, raw := WriteArrays(arrays[..n], hash).value, RawBytes(arrays[n].values).value;
      var e := EntryOf(arrays[n], raw, |before.payload|, hash);
      WrittenTiles(arrays[..n], hash);
      OneMoreTile(before.entries, before.payload, e, raw);
      LastIsDescribed(arrays[n], before.payload, raw, hash);
      OneMoreDescribed(before.entries, arrays[..n], before.payload, hash, e, arrays[n], raw);
      assert arrays[..n] + [arrays[n]] == arrays;
    }
  }

  lemma {:induction false} TableHolds(entries: seq<ArrayEntry>, name: string)
    ensures name in Table(entries) ==> Table(entries)[name] in entries
  {
    if entries != [] {
      TableHolds(entries[..|entries| - 1], name);
    }
  }

  lemma WrittenIsTable(arrays: seq<Array>, hash: Hash)
    requires WriteArrays(arrays, hash).Some?
    ensures var w := WriteArrays(arrays, hash).value; IsTable(w.entries, w.payload, hash)
  {
    var w := WriteArrays(arrays, hash).value;
    WrittenTiles(arrays, hash);
    forall name | name in Table(w.entries) ensures IsEntry(Table(w.entries)[name], w.payload, hash) {
      TableHolds(w.entries, name);
      var i :| 0 <= i < |w.entries| && w.entries[i] == Table(w.entries)[name];
      assert Describes(w.entries[i], arrays[i], w.payload, hash);
    }
  }

  // ----- the envelope -----

  lemma HeaderRoundTrip(h: Header, rest: Bytes)
    requires |h.magic| == 8 && h.version < Pow256(4) && PackHeader(h).Some?
    ensures UnpackHeader(PackHeader(h).value + rest) == h
  {
    var s := PackHeader(h).value + rest;
    var v, m, p := Little(h.version, 4), Little(h.manifestLength, 8), Little(h.payloadLength, 8);
    assert s[..8] == h.magic && s[8..12] == v && s[12..20] == m && s[20..28] == p;
    LittleRoundTrip(h.version, 4);
    LittleRoundTrip(h.manifestLength, 8);
    LittleRoundTrip(h.payloadLength, 8);
  }

  /** A sealed text has its parts in place and its digest behind them. */
  lemma SealedParts(magic: Bytes, version: nat, encoded: Bytes, payload: Bytes, hash: Hash)
    requires |magic| == 8 && version < Pow256(4) && IsHash(hash)
    requires Sealed(magic, version, encoded, payload, hash).Some?
    ensures var data := Sealed(magic, version, encoded, payload, hash).value;
            && |data| == HEADER_SIZE + |encoded| + |payload| + DIGEST_SIZE
            && UnpackHeader(data) == Header(magic, version, |encoded|, |payload|)
            && ManifestBytes(data) == encoded && PayloadBytes(data) == payload
            && hash(data[..|data| - DIGEST_SIZE]) == data[|data| - DIGEST_SIZE..]
  {
    var h := Header(magic, version, |encoded|, |payload|);
    var header := PackHeader(h).value;
    var body := header + encoded + payload;
    var data := body + hash(body);
    assert data == header + (encoded + payload + hash(body));
    HeaderRoundTrip(h, encoded + payload + hash(body));
    assert data[..|body|] == body && data[|body|..] == hash(body);
    assert data[HEADER_SIZE..HEADER_SIZE + |encoded|] == encoded;
    assert data[HEADER_SIZE + |encoded|..|body|] == payload;
  }

  lemma SealedHasEnvelope(encoded: Bytes, payload: Bytes, hash: Hash)
    requires IsHash(hash) && Sealed(MAGIC, 1, encoded, payload, hash).Some?
    ensures HasEnvelope(Sealed(MAGIC, 1, encoded, payload, hash).value, hash)
  {
    SealedParts(MAGIC, 1, encoded, payload, hash);
  }

  /** Every written container passes; its table tiles the payload and each entry's stretch
      decodes to the array it was written from. */
  lemma WrittenPasses<M(!new)>(info: M, arrays: seq<Array>, codec: Codec<M>, hash: Hash)
    requires IsCodec(codec) && IsHash(hash) && Container(info, arrays, codec, hash).Some?
    ensures var data := Container(info, arrays, codec, hash).value;
            && Passes(data, codec, hash)
            && var manifest, payload := codec.decode(ManifestBytes(data)).value, PayloadBytes(data);
               && manifest.info == info && Tiles(manifest.arrays, payload)
               && AreDescribed(manifest.arrays, arrays, payload, hash)
  {
    var w := WriteArrays(arrays, hash).value;
    var encoded := codec.encode(Manifest(info, w.entries));
    SealedParts(MAGIC, 1, encoded, w.payload, hash);
    SealedHasEnvelope(encoded, w.payload, hash);
    WrittenIsTable(arrays, hash);
    WrittenTiles(arrays, hash);
  }

  lemma DescribedDecodes(e: ArrayEntry, a: Array, payload: Bytes, hash: Hash)
    requires Describes(e, a, payload, hash) && AreDoubles(a.values)
    ensures Unpack(e.isInt, payload[e.offset..End(e)]) == a.values
  {
    ValuesRoundTrip(a.values);
  }

  /** Reading an array back from a written container gives the values it was written from. */
  lemma WrittenDecodes<M(!new)>(info: M, arrays: seq<Array>, codec: Codec<M>, hash: Hash, i: nat)
    requires IsCodec(codec) && IsHash(hash) && Container(info, arrays, codec, hash).Some?
    requires i < |arrays| && AreDoubles(arrays[i].values)
    ensures var data := Container(info, arrays, codec, hash).value;
            && Passes(data, codec, hash)
            && var manifest := codec.decode(ManifestBytes(data)).value;
               && |manifest.arrays| == |arrays|
               && var e := manifest.arrays[i];
                  && 0 <= e.offset <= End(e) <= |PayloadBytes(data)|
                  && Unpack(e.isInt, PayloadBytes(data)[e.offset..End(e)]) == arrays[i].values
  {
    WrittenPasses(info, arrays, codec, hash);
    var data := Container(info, arrays, codec, hash).value;
    DescribedDecodes(codec.decode(ManifestBytes(data)).value.arrays[i], arrays[i], PayloadBytes(data), hash);
  }

  // ----- damage -----

  /** No strict prefix of an accepted file is accepted. */
  lemma PrefixIsRefused(data: Bytes, n: nat, hash: Hash)
    requires HasEnvelope(data, hash) && n < |data|
    ensures !HasEnvelope(data[..n], hash)
  {
    if n >= HEADER_SIZE {
      SameHeader(data[..n], data);
    }
  }

  lemma SameHeader(a: Bytes, b: Bytes)
    requires |a| >= HEADER_SIZE && |b| >= HEADER_SIZE && a[..HEADER_SIZE] == b[..HEADER_SIZE]
    ensures UnpackHeader(a) == UnpackHeader(b)
  {
    assert a[..8] == a[..28][..8] && b[..8] == b[..28][..8];
    assert a[8..12] == a[..28][8..12] && b[8..12] == b[..28][8..12];
    assert a[12..20] == a[..28][12..20] && b[12..20] == b[..28][12..20];
    assert a[20..28] == a[..28][20..28] && b[20..28] == b[..28][20..28];
  }

  /** Nothing appended to an accepted file is accepted. */
  lemma ExtensionIsRefused(data: Bytes, more: Bytes, hash: Hash)
    requires HasEnvelope(data, hash) && more != []
    ensures !HasEnvelope(data + more, hash)
  {
    assert (data + more)[..HEADER_SIZE] == data[..HEADER_SIZE];
    SameHeader(data + more, data);
  }

  /** No other digest is accepted behind the same body. */
  lemma OtherDigestIsRefused(data: Bytes, digest: Bytes, hash: Hash)
    requires HasEnvelope(data, hash)
    requires |digest| == DIGEST_SIZE && digest != data[|data| - DIGEST_SIZE..]
    ensures !HasEnvelope(data[..|data| - DIGEST_SIZE] + digest, hash)
  {
    var n := |data| - DIGEST_SIZE;
    var other := data[..n] + digest;
    assert other[..HEADER_SIZE] == data[..HEADER_SIZE];
    SameHeader(other, data);
    assert other[..n] == data[..n] && other[n..] == digest;
  }

  // ----- rewriting -----

  /** Rewriting the manifest of an accepted file keeps the payload and seals the file again:
      it has the envelope, and its manifest is the edited one. It fails only if the new
      manifest's length does not fit the header. */
  lemma RewriteReseals<M(!new)>(data: Bytes, edit: Manifest<M> -> Manifest<M>, codec: Codec<M>, hash: Hash)
    requires IsCodec(codec) && IsHash(hash) && HasEnvelope(data, hash) && codec.decode(ManifestBytes(data)).Some?
    ensures var manifest := edit(codec.decode(ManifestBytes(data)).value);
            var r := Rewrite(data, edit, codec, hash);
            && (r.Some? <==> |codec.encode(manifest)| < Pow256(8))
            && (r.Some? ==>
                  && HasEnvelope(r.value, hash)
                  && PayloadBytes(r.value) == PayloadBytes(data)
                  && codec.decode(ManifestBytes(r.value)) == Some(manifest))
  {
    var h := UnpackHeader(data);
    var encoded := codec.encode(edit(codec.decode(ManifestBytes(data)).value));
    FromLittleFits(data[20..28]);
    assert Slice(data, HEADER_SIZE, HEADER_SIZE + h.manifestLength) == ManifestBytes(data);
    assert Slice(data, HEADER_SIZE + h.manifestLength, BodyLength(h)) == PayloadBytes(data);
    if |encoded| < Pow256(8) {
      SealedParts(MAGIC, 1, encoded, PayloadBytes(data), hash);
      SealedHasEnvelope(encoded, PayloadBytes(data), hash);
    }
  }

  /** An edit that leaves the array table alone keeps a passing file passing. */
  lemma RewriteKeepsArrays<M(!new)>(data: Bytes, edit: Manifest<M> -> Manifest<M>, codec: Codec<M>, hash: Hash)
    requires IsCodec(codec) && IsHash(hash) && Passes(data, codec, hash)
    requires forall m: Manifest<M> :: edit(m).arrays == m.arrays
    requires Rewrite(data, edit, codec, hash).Some?
    ensures Passes(Rewrite(data, edit, codec, hash).value, codec, hash)
  {
    RewriteReseals(data, edit, codec, hash);
  }
}
