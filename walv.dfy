/**
 * The Worms: Armageddon `waLV` PNG chunk: a 41-byte level record of
 * little-endian fields (the map-file layout documented on worms2d.info),
 * and its insertion into the PNG chunk list right after the header chunk.
 */
module Walv {
  import opened Wrappers
  import opened Colors

  /** A PNG chunk as composeWalvChunk builds it (no CRC: the encoder computes it). */
  datatype PngChunk = PngChunk(chunkType: string, data: seq<Byte>, length: nat)

  /** SOIL_SIGNED_VERSION: the record layout version, compatible from W:A 3.6.26.4. */
  const SoilSignedVersion: nat := 1

  /** The size of a waLV record in bytes. */
  const WalvLength: nat := 41

  // ---------------------------------------------------------------------
  // Little-endian integers

  function Pow256(n: nat): (r: nat)
    ensures r > 0
  {
    if n == 0 then 1 else 256 * Pow256(n - 1)
  }

  /** v as n bytes, least significant first. */
  function LE(v: nat, n: nat): (r: seq<Byte>)
    ensures |r| == n
  {
    if n == 0 then [] else [v % 256] + LE(v / 256, n - 1)
  }

  /** The number n little-endian bytes stand for. */
  function FromLE(b: seq<Byte>): (v: nat)
    ensures v < Pow256(|b|)
  {
    if b == [] then 0 else b[0] + 256 * FromLE(b[1..])
  }

  lemma {:induction false} FromLEOfLE(v: nat, n: nat)
    requires v < Pow256(n)
    ensures FromLE(LE(v, n)) == v
  {
    if n > 0 {
      var r := LE(v, n);
      assert r[1..] == LE(v / 256, n - 1);
      FromLEOfLE(v / 256, n - 1);
    }
  }

  lemma {:induction false} LEOfFromLE(b: seq<Byte>)
    ensures LE(FromLE(b), |b|) == b
  {
    if b != [] {
      var v := FromLE(b);
      assert v % 256 == b[0] && v / 256 == FromLE(b[1..]);
      LEOfFromLE(b[1..]);
    }
  }

  // ---------------------------------------------------------------------
  // The level record

  /** The fields of the record, in file order. */
  datatype LevelRecord = LevelRecord(
    landSeed: nat,                // 0x00, 4 bytes
    objectSeed: nat,              // 0x04, 4 bytes
    cavern: nat,                  // 0x08, 4 bytes
    style: nat,                   // 0x0C, 4 bytes
    noIndestructibleBorders: nat, // 0x10, 4 bytes
    objectPercentage: nat,        // 0x14, 4 bytes
    bridgePercentage: nat,        // 0x18, 4 bytes
    waterLevel: nat,              // 0x1C, 4 bytes
    soilTextureIndex: nat,        // 0x20, 2 bytes
    version: nat,                 // 0x22, 2 bytes
    waterColour: nat,             // 0x24, 4 bytes
    wormPlaces: nat)              // 0x28, 1 byte
  {
    /** Every field fits its width. */
    predicate Valid() {
      landSeed < Pow256(4) && objectSeed < Pow256(4) && cavern < Pow256(4) &&
      style < Pow256(4) && noIndestructibleBorders < Pow256(4) &&
      objectPercentage < Pow256(4) && bridgePercentage < Pow256(4) &&
      waterLevel < Pow256(4) && soilTextureIndex < Pow256(2) && version < Pow256(2) &&
      waterColour < Pow256(4) && wormPlaces < Pow256(1)
    }
  }

  function Encode(r: LevelRecord): (b: seq<Byte>)
    ensures |b| == WalvLength
  {
    LE(r.landSeed, 4) + LE(r.objectSeed, 4) + LE(r.cavern, 4) + LE(r.style, 4) +
    LE(r.noIndestructibleBorders, 4) + LE(r.objectPercentage, 4) + LE(r.bridgePercentage, 4) +
    LE(r.waterLevel, 4) + LE(r.soilTextureIndex, 2) + LE(r.version, 2) +
    LE(r.waterColour, 4) + LE(r.wormPlaces, 1)
  }

  function Decode(b: seq<Byte>): (r: LevelRecord)
    requires |b| == WalvLength
    ensures r.Valid()
  {
    LevelRecord(
      FromLE(b[0..4]), FromLE(b[4..8]), FromLE(b[8..12]), FromLE(b[12..16]),
      FromLE(b[16..20]), FromLE(b[20..24]), FromLE(b[24..28]), FromLE(b[28..32]),
      FromLE(b[32..34]), FromLE(b[34..36]), FromLE(b[36..40]), FromLE(b[40..41]))
  }

  /** Decoding an encoded record gives it back. */
  lemma DecodeEncode(r: LevelRecord)
    requires r.Valid()
    ensures Decode(Encode(r)) == r
  {
    var b := Encode(r);
    assert b[0..4] == LE(r.landSeed, 4);
    assert b[4..8] == LE(r.objectSeed, 4);
    assert b[8..12] == LE(r.cavern, 4);
    assert b[12..16] == LE(r.style, 4);
    assert b[16..20] == LE(r.noIndestructibleBorders, 4);
    assert b[20..24] == LE(r.objectPercentage, 4);
    assert b[24..28] == LE(r.bridgePercentage, 4);
    assert b[28..32] == LE(r.waterLevel, 4);
    assert b[32..34] == LE(r.soilTextureIndex, 2);
    assert b[34..36] == LE(r.version, 2);
    assert b[36..40] == LE(r.waterColour, 4);
    assert b[40..41] == LE(r.wormPlaces, 1);
    FromLEOfLE(r.landSeed, 4);
    FromLEOfLE(r.objectSeed, 4);
    FromLEOfLE(r.cavern, 4);
    FromLEOfLE(r.style, 4);
    FromLEOfLE(r.noIndestructibleBorders, 4);
    FromLEOfLE(r.objectPercentage, 4);
    FromLEOfLE(r.bridgePercentage, 4);
    FromLEOfLE(r.waterLevel, 4);
    FromLEOfLE(r.soilTextureIndex, 2);
    FromLEOfLE(r.version, 2);
    FromLEOfLE(r.waterColour, 4);
    FromLEOfLE(r.wormPlaces, 1);
  }

  /** Every 41-byte string is the encoding of the record it decodes to. */
  lemma EncodeDecode(b: seq<Byte>)
    requires |b| == WalvLength
    ensures Encode(Decode(b)) == b
  {
    LEOfFromLE(b[0..4]);
    LEOfFromLE(b[4..8]);
    LEOfFromLE(b[8..12]);
    LEOfFromLE(b[12..16]);
    LEOfFromLE(b[16..20]);
    LEOfFromLE(b[20..24]);
    LEOfFromLE(b[24..28]);
    LEOfFromLE(b[28..32]);
    LEOfFromLE(b[32..34]);
    LEOfFromLE(b[34..36]);
    LEOfFromLE(b[36..40]);
    LEOfFromLE(b[40..41]);
    assert b == b[0..4] + b[4..8] + b[8..12] + b[12..16] + b[16..20] + b[20..24] +
      b[24..28] + b[28..32] + b[32..34] + b[34..36] + b[36..40] + b[40..41];
  }

  // ---------------------------------------------------------------------
  // composeWalvChunk

  /**
   * The byte stored for the terrain index: `terrainIndex || 0` (a missing,
   * zero or NaN index gives 0), then narrowed to 8 bits by the Uint8Array.
   */
  function TerrainByte(terrainIndex: Option<int>): Byte {
    match terrainIndex
    case None => 0
    case Some(t) => t % 256
  }

  /** The record composeWalvChunk writes: fixed settings plus the soil texture. */
  function WalvLevel(t: Byte): (r: LevelRecord)
    ensures r.Valid() && r.soilTextureIndex == t && r.version == SoilSignedVersion
  {
    LevelRecord(0, 0, 0, 0, 1, 85, 30, 0, t, SoilSignedVersion, 0, 0)
  }

  lemma WalvBytes(t: Byte)
    ensures Encode(WalvLevel(t)) == [0, 0, 0, 0] + [0, 0, 0, 0] + [0, 0, 0, 0] + [0, 0, 0, 0] +
      [1, 0, 0, 0] + [85, 0, 0, 0] + [30, 0, 0, 0] + [0, 0, 0, 0] + [t, 0, 1, 0] + [0, 0, 0, 0] + [0]
  {
    assert LE(0, 4) == [0, 0, 0, 0];
    assert LE(1, 4) == [1, 0, 0, 0];
    assert LE(85, 4) == [85, 0, 0, 0];
    assert LE(30, 4) == [30, 0, 0, 0];
    assert LE(t, 2) == [t, 0];
    assert LE(1, 2) == [1, 0];
    assert LE(0, 1) == [0];
  }

  /** The record as bytes: 16 is 1, 20 is 85, 24 is 30, 32 is t, 34 is 1, all others 0. */
  lemma WalvLayout(t: Byte)
    ensures var b := Encode(WalvLevel(t));
      forall i :: 0 <= i < WalvLength ==>
        b[i] == (if i == 16 then 1 else if i == 20 then 85 else if i == 24 then 30
                 else if i == 32 then t else if i == 34 then 1 else 0)
  {
    WalvBytes(t);
  }

  /** `Uint8Array.set(values, offset)`: the bytes from offset on are replaced by values. */
  function Overwrite(s: seq<Byte>, values: seq<Byte>, offset: nat): (r: seq<Byte>)
    requires offset + |values| <= |s|
    ensures |r| == |s|
    ensures r[..offset + |values|] == s[..offset] + values
    ensures r[offset + |values|..] == s[offset + |values|..]
  {
    s[..offset] + values + s[offset + |values|..]
  }

  /** Uint8Array.set on the live array. */
  method SetBytes(a: array<Byte>, values: seq<Byte>, offset: nat)
    requires offset + |values| <= a.Length
    modifies a
    ensures a[..] == Overwrite(old(a[..]), values, offset)
  {
    var i := 0;
    while i < |values|
      invariant i <= |values|
      invariant forall k :: 0 <= k < a.Length ==>
        a[k] == if offset <= k < offset + i then values[k - offset] else old(a[k])
    {
      a[offset + i] := values[i];
      i := i + 1;
    }
    assert a[..] == Overwrite(old(a[..]), values, offset);
  }

  /** composeWalvChunk: a fresh 41-byte array filled field by field. */
  method ComposeWalvChunk(terrainIndex: Option<int>) returns (chunk: PngChunk)
    ensures chunk.chunkType == "waLV" && chunk.length == WalvLength == |chunk.data|
    ensures chunk.data == Encode(WalvLevel(TerrainByte(terrainIndex)))
    ensures Decode(chunk.data).soilTextureIndex == TerrainByte(terrainIndex)
  {
    var t := TerrainByte(terrainIndex);
    var v := SoilSignedVersion;
    var data := new Byte[WalvLength](_ => 0);
    SetBytes(data, [0, 0, 0, 0], 0);
    assert data[..4] == [0, 0, 0, 0];
    SetBytes(data, [0, 0, 0, 0], 4);
    assert data[..8] == [0, 0, 0, 0] + [0, 0, 0, 0];
    SetBytes(data, [0, 0, 0, 0], 8);
    ghost var g2 := data[..12];
    SetBytes(data, [0, 0, 0, 0], 12);
    ghost var g3 := data[..16];
    SetBytes(data, [1, 0, 0, 0], 16);
    ghost var g4 := data[..20];
    SetBytes(data, [85, 0, 0, 0], 20);
    ghost var g5 := data[..24];
    SetBytes(data, [30, 0, 0, 0], 24);
    ghost var g6 := data[..28];
    SetBytes(data, [0, 0, 0, 0], 28);
    ghost var g7 := data[..32];
    SetBytes(data, [t, 0, v, 0], 32);
    ghost var g8 := data[..36];
    SetBytes(data, [0, 0, 0, 0], 36);
    ghost var g9 := data[..40];
    SetBytes(data, [0], 40);
    assert data[..] == data[..41];
    assert data[..] == g9 + [0];
    assert g9 == g8 + [0, 0, 0, 0];
    assert g8 == g7 + [t, 0, v, 0];
    assert g7 == g6 + [0, 0, 0, 0];
    assert g6 == g5 + [30, 0, 0, 0];
    assert g5 == g4 + [85, 0, 0, 0];
    assert g4 == g3 + [1, 0, 0, 0];
    assert g3 == g2 + [0, 0, 0, 0];
    assert g2 == [0, 0, 0, 0] + [0, 0, 0, 0] + [0, 0, 0, 0];
    WalvBytes(t);
    DecodeEncode(WalvLevel(t));
    chunk := PngChunk("waLV", data[..], WalvLength);
  }

  // ---------------------------------------------------------------------
  // The chunk list

  /** `list.splice(i, 0, c)`: c goes in at index i, or at the end when i is past it. */
  function InsertAt<T>(s: seq<T>, i: nat, c: T): (r: seq<T>)
    ensures |r| == |s| + 1
    ensures var k := if i < |s| then i else |s|; r[k] == c && r[..k] == s[..k] && r[k + 1..] == s[k..]
  {
    var k := if i < |s| then i else |s|;
    s[..k] + [c] + s[k..]
  }

  /** Taking the inserted element out again gives the list back. */
  lemma InsertAtRemove<T>(s: seq<T>, i: nat, c: T)
    ensures var k := if i < |s| then i else |s|;
      var r := InsertAt(s, i, c);
      r[..k] + r[k + 1..] == s
  {
    var k := if i < |s| then i else |s|;
    assert s == s[..k] + s[k..];
  }

  /** The splice in convertOutputToIndexedPng: the waLV chunk goes right after the header chunk. */
  function InsertWalvChunk(chunks: seq<PngChunk>, walv: PngChunk): (r: seq<PngChunk>)
    ensures |r| == |chunks| + 1
    ensures |chunks| == 0 ==> r == [walv]
    ensures |chunks| > 0 ==> r[0] == chunks[0] && r[1] == walv && r[2..] == chunks[1..]
  {
    InsertAt(chunks, 1, walv)
  }
}
