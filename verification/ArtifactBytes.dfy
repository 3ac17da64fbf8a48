/** The artifact container byte by byte, and the files that the checker refuses. */
module ArtifactBytes {
  import opened Bits
  import opened ArtifactContainer
  import opened ArtifactTheorems

  // ----- numbers -----

  lemma {:induction false} LittleAt(value: nat, width: nat, i: nat)
    requires i < width
    ensures Little(value, width)[i] == value / Pow256(i) % 256
  {
    if i > 0 {
      LittleAt(value / 256, width - 1, i - 1);
      DivideTwice(value, Pow256(i - 1));
    }
  }

  /** Dividing by 256 and then by `p`. */
  lemma DivideTwice(v: int, p: nat)
    requires p > 0
    ensures v / 256 / p == v / (256 * p)
  {
    var q := v / 256 / p;
    var r, s := v % 256, v / 256 % p;
    assert v == 256 * (p * q + s) + r;
    assert 256 * (p * q + s) + r == 256 * p * q + (256 * s + r);
    QuotientIs(v, 256 * p, q, 256 * s + r);
  }

  lemma QuotientIs(v: int, d: nat, q: int, r: int)
    requires d > 0 && v == d * q + r && 0 <= r < d
    ensures v / d == q
  {
    var e := v / d - q;
    assert d * e == r - v % d;
    Multiples(d, e);
  }

  lemma Multiples(d: int, e: int)
    requires d > 0
    ensures (e >= 1 ==> d * e >= d) && (e <= -1 ==> d * e <= -d)
  {
  }

  /** The bytes determine the number: writing it again gives the same bytes. */
  lemma {:induction false} LittleOfNumber(s: Bytes)
    ensures Little(FromLittle(s), |s|) == s
  {
    if s != [] {
      LittleOfNumber(s[1..]);
      assert FromLittle(s) / 256 == FromLittle(s[1..]) && FromLittle(s) % 256 == s[0];
    }
  }

  lemma {:induction false} WholeTurns(v: int, i: nat, k: nat)
    requires i < k
    ensures (v + Pow256(k)) / Pow256(i) % 256 == v / Pow256(i) % 256
    decreases i
  {
    OneByteUp(v, Pow256(k - 1));
    if i > 0 {
      WholeTurns(v / 256, i - 1, k - 1);
      Lowered(v, i);
      Lowered(v + Pow256(k), i);
    }
  }

  lemma Lowered(v: int, i: nat)
    requires i > 0
    ensures v / Pow256(i) == v / 256 / Pow256(i - 1)
  {
    DivideTwice(v, Pow256(i - 1));
  }

  lemma OneByteUp(v: int, p: nat)
    ensures (v + 256 * p) / 256 == v / 256 + p && (v + 256 * p) % 256 == v % 256
  {
  }

  /** An integer is packed in two's complement, lowest byte first. */
  lemma PackedAt(value: int, i: nat)
    requires FitsWord(value) && i < 8
    ensures PackInt(value)[i] == value / Pow256(i) % 256
  {
    if value < 0 {
      EightBytes();
      LittleAt(value + WORD, 8, i);
      WholeTurns(value, i, 8);
    } else {
      LittleAt(value, 8, i);
    }
  }

  // ----- the file -----

  /** `SPARART1` and version 1, the lengths of manifest and payload in eight bytes each, manifest,
      payload, and the digest of all that. */
  predicate IsFile(data: Bytes, manifest: Bytes, payload: Bytes, hash: Hash) {
    && |data| >= 28
    && data[..8] == [0x53, 0x50, 0x41, 0x52, 0x41, 0x52, 0x54, 0x31]
    && data[8..12] == [1, 0, 0, 0]
    && (forall i :: 0 <= i < 8 ==> data[12 + i] == |manifest| / Pow256(i) % 256)
    && (forall i :: 0 <= i < 8 ==> data[20 + i] == |payload| / Pow256(i) % 256)
    && data[28..] == manifest + payload + hash(data[..28] + manifest + payload)
  }

  lemma SealedIsFile(encoded: Bytes, payload: Bytes, hash: Hash)
    requires Sealed(MAGIC, 1, encoded, payload, hash).Some?
    ensures IsFile(Sealed(MAGIC, 1, encoded, payload, hash).value, encoded, payload, hash)
  {
    var m, p := Little(|encoded|, 8), Little(|payload|, 8);
    var header := MAGIC + Little(1, 4) + m + p;
    VersionBytes();
    forall i | 0 <= i < 8 ensures m[i] == |encoded| / Pow256(i) % 256 && p[i] == |payload| / Pow256(i) % 256 {
      LittleAt(|encoded|, 8, i);
      LittleAt(|payload|, 8, i);
    }
    var data := Sealed(MAGIC, 1, encoded, payload, hash).value;
    FileInParts(data, header, m, p, encoded, payload, hash);
  }

  lemma VersionBytes()
    ensures Little(1, 4) == [1, 0, 0, 0]
  {
    assert Little(0, 3) == [0, 0, 0] by {
      assert Little(0, 2) == [0, 0];
    }
  }

  lemma FileInParts(data: Bytes, header: Bytes, m: Bytes, p: Bytes, encoded: Bytes, payload: Bytes, hash: Hash)
    requires |m| == |p| == 8 && header == MAGIC + [1, 0, 0, 0] + m + p
    requires data == header + encoded + payload + hash(header + encoded + payload)
    requires forall i :: 0 <= i < 8 ==> m[i] == |encoded| / Pow256(i) % 256
    requires forall i :: 0 <= i < 8 ==> p[i] == |payload| / Pow256(i) % 256
    ensures IsFile(data, encoded, payload, hash)
  {
    assert data[..28] == header;
    assert data[..8] == MAGIC && data[8..12] == [1, 0, 0, 0];
    assert data[28..] == encoded + payload + hash(header + encoded + payload);
    forall i | 0 <= i < 8 ensures data[12 + i] == m[i] && data[20 + i] == p[i] {
    }
  }

  /** What is written: the packed arrays one behind the other, with their manifest in front. */
  lemma WrittenIsFile<M>(info: M, arrays: seq<Array>, codec: Codec<M>, hash: Hash)
    requires Container(info, arrays, codec, hash).Some?
    ensures var w := WriteArrays(arrays, hash);
            && w.Some?
            && IsFile(Container(info, arrays, codec, hash).value, codec.encode(Manifest(info, w.value.entries)),
                      w.value.payload, hash)
  {
    var w := WriteArrays(arrays, hash).value;
    SealedIsFile(codec.encode(Manifest(info, w.entries)), w.payload, hash);
  }

  // ----- refusals -----

  /** A file that does not start with `SPARART1` and version 1 is refused. */
  lemma ForeignIsRefused<M>(data: Bytes, codec: Codec<M>, hash: Hash)
    requires |data| >= 12
    requires data[..8] != [0x53, 0x50, 0x41, 0x52, 0x41, 0x52, 0x54, 0x31] || data[8..12] != [1, 0, 0, 0]
    ensures !Passes(data, codec, hash)
  {
    if data[8..12] != [1, 0, 0, 0] {
      LittleOfNumber(data[8..12]);
      VersionBytes();
    }
  }

  /** The entry is the last one with its name. */
  predicate IsLast(entries: seq<ArrayEntry>, i: nat)
    requires i < |entries|
  {
    forall j :: i < j < |entries| ==> entries[j].name != entries[i].name
  }

  lemma {:induction false} LastIsInTable(entries: seq<ArrayEntry>, i: nat)
    requires i < |entries| && IsLast(entries, i)
    ensures entries[i].name in Table(entries) && Table(entries)[entries[i].name] == entries[i]
  {
    var n := |entries| - 1;
    if i < n {
      assert entries[n].name != entries[i].name;
      assert IsLast(entries[..n], i);
      LastIsInTable(entries[..n], i);
    }
  }

  /** An entry that counts is out of bounds, or its checksum is not the digest of its stretch. */
  predicate IsDamaged(e: ArrayEntry, payload: Bytes, hash: Hash) {
    || e.offset < 0 || e.length < 0 || e.offset + e.length > |payload|
    || hash(payload[e.offset..e.offset + e.length]) != e.checksum
  }

  lemma DamagedIsRefused<M>(data: Bytes, codec: Codec<M>, hash: Hash, i: nat)
    requires HasEnvelope(data, hash) && codec.decode(ManifestBytes(data)).Some?
    requires var entries := codec.decode(ManifestBytes(data)).value.arrays;
             i < |entries| && IsLast(entries, i) && IsDamaged(entries[i], PayloadBytes(data), hash)
    ensures !Passes(data, codec, hash)
  {
    var entries := codec.decode(ManifestBytes(data)).value.arrays;
    LastIsInTable(entries, i);
  }

  /** A file with envelope and manifest is accepted exactly when no entry that counts is damaged. */
  lemma AcceptedWhenUndamaged<M>(data: Bytes, codec: Codec<M>, hash: Hash)
    requires HasEnvelope(data, hash) && codec.decode(ManifestBytes(data)).Some?
    ensures var entries, payload := codec.decode(ManifestBytes(data)).value.arrays, PayloadBytes(data);
            Passes(data, codec, hash)
            <==> forall i :: 0 <= i < |entries| && IsLast(entries, i) ==> !IsDamaged(entries[i], payload, hash)
  {
    var entries, payload := codec.decode(ManifestBytes(data)).value.arrays, PayloadBytes(data);
    if Passes(data, codec, hash) {
      forall i | 0 <= i < |entries| && IsLast(entries, i) ensures !IsDamaged(entries[i], payload, hash) {
        LastIsInTable(entries, i);
      }
    } else {
      var name :| name in Table(entries) && !IsEntry(Table(entries)[name], payload, hash);
      var i := LastOfName(entries, name);
      assert IsDamaged(entries[i], payload, hash);
    }
  }

  lemma {:induction false} LastOfName(entries: seq<ArrayEntry>, name: string) returns (i: nat)
    requires name in Table(entries)
    ensures i < |entries| && IsLast(entries, i) && entries[i] == Table(entries)[name]
  {
    var n := |entries| - 1;
    if entries[n].name == name {
      i := n;
    } else {
      i := LastOfName(entries[..n], name);
      NameInTable(entries[..n], name);
      assert IsLast(entries, i);
    }
  }

  lemma {:induction false} NameInTable(entries: seq<ArrayEntry>, name: string)
    requires name in Table(entries)
    ensures Table(entries)[name].name == name
  {
    var n := |entries| - 1;
    if entries[n].name != name {
      NameInTable(entries[..n], name);
    }
  }
}
