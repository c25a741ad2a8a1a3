/** `RebuildRegionEncoder`: the values and byte fields the packet encoder
    asks of a region rebuild message. The bit builder the byte fields are
    written to is modelled as the sequence of `putBits(width, value)` calls
    it receives (`writeInt` being a 32-bit field), so that each writer is a
    loop proved against a function of the message. */
module RebuildRegionEncoder {
  import opened Common
  import opened RebuildRegionMessages

  const UNHANDLED_KEY: string := "Unhandled value key."

  const VALUE_KEYS: set<string> := {"chunkX", "chunkZ", "map_size", "force_reload", "unknown_byte"}

  const BYTES_KEYS: set<string> := {"player_regions", "chunks", "xteas"}

  // -----------------------------------------------------------------------
  // extract
  // -----------------------------------------------------------------------

  /** `extract`: the four header values by key, a constant 3 for the
      unknown byte, and an exception for any other key. */
  function Extract(m: RebuildRegionMessage, key: string): (r: Result<int>)
    ensures r.Success? <==> key in VALUE_KEYS
    ensures r.Failure? ==> r.message == UNHANDLED_KEY
  {
    if key == "chunkX" then Success(m.chunkX)
    else if key == "chunkZ" then Success(m.chunkZ)
    else if key == "map_size" then Success(m.mapSize)
    else if key == "force_reload" then Success(m.forceReload)
    else if key == "unknown_byte" then Success(3)
    else Failure(UNHANDLED_KEY)
  }

  /** The extracted values determine the message's header: two messages
      whose values agree on every key agree on the chunk coordinates, the
      map size and the force-reload flag, and the unknown byte is always 3. */
  lemma ExtractDeterminesHeader(m1: RebuildRegionMessage, m2: RebuildRegionMessage)
    requires forall k :: k in VALUE_KEYS ==> Extract(m1, k) == Extract(m2, k)
    ensures m1.chunkX == m2.chunkX && m1.chunkZ == m2.chunkZ
    ensures m1.mapSize == m2.mapSize && m1.forceReload == m2.forceReload
    ensures Extract(m1, "unknown_byte") == Success(3)
  {
    assert Extract(m1, "chunkX") == Extract(m2, "chunkX");
    assert Extract(m1, "chunkZ") == Extract(m2, "chunkZ");
    assert Extract(m1, "map_size") == Extract(m2, "map_size");
    assert Extract(m1, "force_reload") == Extract(m2, "force_reload");
  }

  // -----------------------------------------------------------------------
  // The fields written
  // -----------------------------------------------------------------------

  /** One `putBits(width, value)`. */
  datatype Field = Field(width: nat, value: int)

  /** The fields as they travel: `putBits` keeps the low `width` bits of
      the value. */
  function Wires(fields: seq<Field>): (r: seq<Field>)
    ensures |r| == |fields|
    ensures forall i :: 0 <= i < |fields| ==> r[i].width == fields[i].width && 0 <= r[i].value < Pow2(fields[i].width)
  {
    seq(|fields|, i requires 0 <= i < |fields| => Field(fields[i].width, fields[i].value % Pow2(fields[i].width)))
  }

  lemma WireAt(fields: seq<Field>, k: int)
    requires 0 <= k < |fields|
    ensures Wires(fields)[k] == Field(fields[k].width, fields[k].value % Pow2(fields[k].width))
  {
  }

  function Widths(fields: seq<Field>): seq<nat> {
    seq(|fields|, i requires 0 <= i < |fields| => fields[i].width)
  }

  /** The number of bits the fields take. */
  function TotalBits(fields: seq<Field>): nat {
    if fields == [] then 0 else fields[0].width + TotalBits(fields[1..])
  }

  lemma {:induction false} TotalBitsConcat(a: seq<Field>, b: seq<Field>)
    ensures TotalBits(a + b) == TotalBits(a) + TotalBits(b)
  {
    if a == [] {
      assert a + b == b;
    } else {
      assert (a + b)[1..] == a[1..] + b;
      TotalBitsConcat(a[1..], b);
    }
  }

  lemma TotalBitsOne(f: Field)
    ensures TotalBits([f]) == f.width
  {
    assert [f][1..] == [];
  }

  // -----------------------------------------------------------------------
  // player_regions
  // -----------------------------------------------------------------------

  /** The hint block is written only when the array, the tile and the
      index are all present. */
  predicate HasPlayerRegions(m: RebuildRegionMessage) {
    m.playerRegions.Some? && m.playerTile.Some? && m.playerIndex.Some?
  }

  /** An 18-bit field per slot of `regions`, in slot order, skipping the
      slot `playerIndex`. */
  function OtherRegions(regions: seq<int>, playerIndex: int): seq<Field> {
    if regions == [] then []
    else OtherRegions(regions[..|regions| - 1], playerIndex) +
         (if |regions| - 1 != playerIndex then [Field(18, regions[|regions| - 1])] else [])
  }

  /** The fields `player_regions` writes: the 30-bit tile, then the hints
      of the other players. */
  function PlayerRegionsFields(m: RebuildRegionMessage): seq<Field> {
    if HasPlayerRegions(m) then [Field(30, m.playerTile.value)] + OtherRegions(m.playerRegions.value, m.playerIndex.value)
    else []
  }

  /** The `player_regions` writer. */
  method PutPlayerRegions(m: RebuildRegionMessage) returns (fields: seq<Field>)
    ensures fields == PlayerRegionsFields(m)
  {
    fields := [];
    if m.playerRegions.Some? && m.playerTile.Some? && m.playerIndex.Some? {
      fields := fields + [Field(30, m.playerTile.value)];
      var regions := m.playerRegions.value;
      var index := 0;
      while index < |regions|
        invariant 0 <= index <= |regions|
        invariant fields == [Field(30, m.playerTile.value)] + OtherRegions(regions[..index], m.playerIndex.value)
      {
        assert regions[..index + 1][..index] == regions[..index];
        if index != m.playerIndex.value {
          fields := fields + [Field(18, regions[index])];
        }
        index := index + 1;
      }
      assert regions[..index] == regions;
    }
  }

  /** Every slot but the player's own is written once, in ascending slot
      order: slot `k` lands at position `k`, or `k - 1` past the skipped
      slot. */
  lemma {:induction false} OtherRegionsLayout(regions: seq<int>, playerIndex: int)
    ensures |OtherRegions(regions, playerIndex)| == |regions| - (if 0 <= playerIndex < |regions| then 1 else 0)
    ensures forall k :: 0 <= k < |regions| && k != playerIndex ==>
      OtherRegions(regions, playerIndex)[if 0 <= playerIndex < k then k - 1 else k] == Field(18, regions[k])
    ensures TotalBits(OtherRegions(regions, playerIndex)) == 18 * |OtherRegions(regions, playerIndex)|
  {
    if regions != [] {
      var p := regions[..|regions| - 1];
      OtherRegionsLayout(p, playerIndex);
      assert forall k :: 0 <= k < |p| ==> p[k] == regions[k];
      var last: seq<Field> := if |regions| - 1 != playerIndex then [Field(18, regions[|regions| - 1])] else [];
      TotalBitsConcat(OtherRegions(p, playerIndex), last);
      if last != [] {
        TotalBitsOne(last[0]);
      }
    }
  }

  /** Nothing is written unless all three nullable fields are present;
      otherwise the tile comes first and `30 + 18 * (n - 1)` bits are
      written for an array of `n > 0` slots holding the player's. */
  lemma PlayerRegionsFieldsLayout(m: RebuildRegionMessage)
    ensures !HasPlayerRegions(m) ==> PlayerRegionsFields(m) == []
    ensures HasPlayerRegions(m) ==> PlayerRegionsFields(m)[0] == Field(30, m.playerTile.value)
    ensures HasPlayerRegions(m) && 0 <= m.playerIndex.value < |m.playerRegions.value| ==>
      |PlayerRegionsFields(m)| == |m.playerRegions.value| &&
      TotalBits(PlayerRegionsFields(m)) == 30 + 18 * (|m.playerRegions.value| - 1)
  {
    if HasPlayerRegions(m) {
      var rest := OtherRegions(m.playerRegions.value, m.playerIndex.value);
      OtherRegionsLayout(m.playerRegions.value, m.playerIndex.value);
      TotalBitsConcat([Field(30, m.playerTile.value)], rest);
      TotalBitsOne(Field(30, m.playerTile.value));
    }
  }

  // -----------------------------------------------------------------------
  // chunks
  // -----------------------------------------------------------------------

  /** The fields `chunks` writes: per slot, the presence flag and the
      26-bit reference. The slots of an `IntArray` are never null, so the
      flag is 1 and the reference is written for every slot, -1 included. */
  function ChunkFields(chunks: seq<int>): seq<Field> {
    if chunks == [] then []
    else ChunkFields(chunks[..|chunks| - 1]) + [Field(1, 1), Field(26, chunks[|chunks| - 1])]
  }

  /** The `chunks` writer. */
  method PutChunks(chunks: seq<int>) returns (fields: seq<Field>)
    ensures fields == ChunkFields(chunks)
  {
    fields := [];
    var i := 0;
    while i < |chunks|
      invariant 0 <= i <= |chunks|
      invariant fields == ChunkFields(chunks[..i])
    {
      assert chunks[..i + 1][..i] == chunks[..i];
      var chunk := chunks[i];
      fields := fields + [Field(1, 1)];
      fields := fields + [Field(26, chunk)];
      i := i + 1;
    }
    assert chunks[..i] == chunks;
  }

  /** Every slot is written as two fields, 27 bits in all. */
  lemma {:induction false} ChunkFieldsCount(chunks: seq<int>)
    ensures |ChunkFields(chunks)| == 2 * |chunks|
    ensures TotalBits(ChunkFields(chunks)) == 27 * |chunks|
  {
    if chunks != [] {
      var p := chunks[..|chunks| - 1];
      var c := chunks[|chunks| - 1];
      ChunkFieldsCount(p);
      TotalBitsConcat(ChunkFields(p), [Field(1, 1), Field(26, c)]);
      assert [Field(1, 1), Field(26, c)][1..] == [Field(26, c)];
      TotalBitsOne(Field(26, c));
    }
  }

  /** Slot `i` is written as fields `2i`, the flag, which is always 1, and
      `2i + 1`, the slot's value. */
  lemma {:induction false} ChunkFieldAt(chunks: seq<int>, i: int)
    requires 0 <= i < |chunks|
    ensures 2 * i + 1 < |ChunkFields(chunks)|
    ensures ChunkFields(chunks)[2 * i] == Field(1, 1) && ChunkFields(chunks)[2 * i + 1] == Field(26, chunks[i])
  {
    var p := chunks[..|chunks| - 1];
    ChunkFieldsCount(p);
    if i < |p| {
      ChunkFieldAt(p, i);
      assert p[i] == chunks[i];
    }
  }

  /** How the client reads the chunk block back (as the commented-out
      full encoder of the same file writes it): a flag of 0 is an empty
      slot, a flag of 1 is followed by the 26-bit reference. */
  function ParseChunks(wires: seq<Field>): Option<seq<int>>
    decreases |wires|
  {
    if wires == [] then Some([])
    else if wires[0] == Field(1, 0) then
      var rest := ParseChunks(wires[1..]);
      if rest.Some? then Some([-1] + rest.value) else None
    else if wires[0] == Field(1, 1) && |wires| >= 2 && wires[1].width == 26 then
      var rest := ParseChunks(wires[2..]);
      if rest.Some? then Some([wires[1].value] + rest.value) else None
    else None
  }

  lemma Pow2_26()
    ensures Pow2(26) == 0x400_0000 && Pow2(1) == 2
  {
    Pow2Add(16, 10);
    Pow2_14_16();
    assert Pow2(10) == 1024;
  }

  /** Slot `i` of a block is a flag-1 field followed by a 26-bit field. */
  predicate FlaggedSlot(w: seq<Field>, i: nat)
    requires 2 * i + 1 < |w|
  {
    w[2 * i] == Field(1, 1) && w[2 * i + 1].width == 26
  }

  /** A block of flagged slots reads as the values of its 26-bit fields. */
  lemma {:induction false} ParseFlagged(w: seq<Field>, n: nat)
    requires |w| == 2 * n
    requires forall i: nat :: i < n ==> FlaggedSlot(w, i)
    ensures var p := ParseChunks(w);
      p.Some? && |p.value| == n && forall i :: 0 <= i < n ==> p.value[i] == w[2 * i + 1].value
  {
    if n > 0 {
      var t := w[2..];
      forall i: nat | i < n - 1 ensures FlaggedSlot(t, i) {
        assert FlaggedSlot(w, i + 1);
      }
      ParseFlagged(t, n - 1);
      assert FlaggedSlot(w, 0);
      var rest := ParseChunks(t).value;
      assert ParseChunks(w) == Some([w[1].value] + rest);
      forall i | 1 <= i < n ensures ([w[1].value] + rest)[i] == w[2 * i + 1].value {
        assert t[2 * (i - 1) + 1] == w[2 * i + 1];
      }
    }
  }

  /** As written, the client reads every slot back as its low 26 bits: an
      empty slot (-1) comes back as the reference `2^26 - 1`, since its flag
      says a chunk follows. */
  lemma ChunksAsWrittenReadBack(chunks: seq<int>)
    ensures var p := ParseChunks(Wires(ChunkFields(chunks)));
      p.Some? && |p.value| == |chunks| && forall i :: 0 <= i < |chunks| ==> p.value[i] == chunks[i] % 0x400_0000
  {
    Pow2_26();
    var f := ChunkFields(chunks);
    ChunkFieldsCount(chunks);
    var w := Wires(f);
    forall i: nat | i < |chunks| ensures FlaggedSlot(w, i) && w[2 * i + 1].value == chunks[i] % 0x400_0000 {
      ChunkFieldAt(chunks, i);
      WireAt(f, 2 * i);
      WireAt(f, 2 * i + 1);
    }
    ParseFlagged(w, |chunks|);
  }

  /** So a block holding an empty slot does not survive the trip. */
  lemma ChunkFlagAlwaysSet(chunks: seq<int>, i: int)
    requires 0 <= i < |chunks| && chunks[i] == -1
    ensures ParseChunks(Wires(ChunkFields(chunks))) != Some(chunks)
  {
    ChunksAsWrittenReadBack(chunks);
  }

  /** The chunk block with the flag set from the slot: an empty slot is
      written as the flag 0 alone. */
  function ChunkFieldsIntended(chunks: seq<int>): seq<Field> {
    if chunks == [] then []
    else (if chunks[0] == -1 then [Field(1, 0)] else [Field(1, 1), Field(26, chunks[0])]) +
         ChunkFieldsIntended(chunks[1..])
  }

  predicate ValidChunks(chunks: seq<int>) {
    forall i :: 0 <= i < |chunks| ==> chunks[i] == -1 || 0 <= chunks[i] < 0x400_0000
  }

  lemma WiresConcat(a: seq<Field>, b: seq<Field>)
    ensures Wires(a + b) == Wires(a) + Wires(b)
  {
  }

  /** Fields whose values already fit their widths travel unchanged. */
  lemma WiresFit(fields: seq<Field>)
    requires forall i :: 0 <= i < |fields| ==> 0 <= fields[i].value < Pow2(fields[i].width)
    ensures Wires(fields) == fields
  {
    forall i | 0 <= i < |fields| ensures Wires(fields)[i] == fields[i] {
      WireAt(fields, i);
      LemmaModUnique(fields[i].value, Pow2(fields[i].width), 0, fields[i].value);
    }
  }

  /** With the flag set from the slot, the client reads back every slot,
      empty or not. */
  lemma {:induction false} ChunkFieldsIntendedRoundTrip(chunks: seq<int>)
    requires ValidChunks(chunks)
    ensures ParseChunks(Wires(ChunkFieldsIntended(chunks))) == Some(chunks)
  {
    if chunks != [] {
      var c := chunks[0];
      assert chunks == [c] + chunks[1..];
      var head: seq<Field> := if c == -1 then [Field(1, 0)] else [Field(1, 1), Field(26, c)];
      var tail := ChunkFieldsIntended(chunks[1..]);
      assert ValidChunks(chunks[1..]) by {
        assert forall i :: 0 <= i < |chunks[1..]| ==> chunks[1..][i] == chunks[i + 1];
      }
      ChunkFieldsIntendedRoundTrip(chunks[1..]);
      WiresConcat(head, tail);
      Pow2_26();
      if c == -1 {
        WiresFit([Field(1, 0)]);
        ParseEmptySlot(Wires(tail));
      } else {
        assert 0 <= c < Pow2(26);
        WiresFit([Field(1, 1), Field(26, c)]);
        ParseFullSlot(c, Wires(tail));
      }
    }
  }

  lemma ParseEmptySlot(rest: seq<Field>)
    ensures ParseChunks([Field(1, 0)] + rest) ==
      if ParseChunks(rest).Some? then Some([-1] + ParseChunks(rest).value) else None
  {
    assert ([Field(1, 0)] + rest)[1..] == rest;
  }

  lemma ParseFullSlot(c: int, rest: seq<Field>)
    ensures ParseChunks([Field(1, 1), Field(26, c)] + rest) ==
      if ParseChunks(rest).Some? then Some([c] + ParseChunks(rest).value) else None
  {
    assert ([Field(1, 1), Field(26, c)] + rest)[2..] == rest;
  }

  // -----------------------------------------------------------------------
  // xteas
  // -----------------------------------------------------------------------

  /** A 32-bit field per key. */
  function KeyFields(keys: seq<int>): (r: seq<Field>)
    ensures |r| == |keys|
    ensures forall j :: 0 <= j < |keys| ==> r[j] == Field(32, keys[j])
  {
    if keys == [] then [] else KeyFields(keys[..|keys| - 1]) + [Field(32, keys[|keys| - 1])]
  }

  /** The fields `xteas` writes: every key of every key set, sets in list
      order and keys in array order. */
  function XteaFields(xteas: seq<seq<int>>): seq<Field> {
    if xteas == [] then [] else XteaFields(xteas[..|xteas| - 1]) + KeyFields(xteas[|xteas| - 1])
  }

  function TotalKeys(xteas: seq<seq<int>>): nat {
    if xteas == [] then 0 else TotalKeys(xteas[..|xteas| - 1]) + |xteas[|xteas| - 1]|
  }

  /** The `xteas` writer: `writeInt` for each key of each set. */
  method PutXteas(xteas: seq<seq<int>>) returns (fields: seq<Field>)
    ensures fields == XteaFields(xteas)
  {
    fields := [];
    var i := 0;
    while i < |xteas|
      invariant 0 <= i <= |xteas|
      invariant fields == XteaFields(xteas[..i])
    {
      assert xteas[..i + 1][..i] == xteas[..i];
      var xtea := xteas[i];
      ghost var before := fields;
      var j := 0;
      while j < |xtea|
        invariant 0 <= j <= |xtea|
        invariant fields == before + KeyFields(xtea[..j])
      {
        assert xtea[..j + 1][..j] == xtea[..j];
        fields := fields + [Field(32, xtea[j])];
        j := j + 1;
      }
      assert xtea[..j] == xtea;
      i := i + 1;
    }
    assert xteas[..i] == xteas;
  }

  /** Every key is written once, as 32 bits. */
  lemma {:induction false} XteaFieldsCount(xteas: seq<seq<int>>)
    ensures |XteaFields(xteas)| == TotalKeys(xteas)
    ensures TotalBits(XteaFields(xteas)) == 32 * TotalKeys(xteas)
  {
    if xteas != [] {
      var p := xteas[..|xteas| - 1];
      var last := xteas[|xteas| - 1];
      XteaFieldsCount(p);
      KeyFieldsBits(last);
      TotalBitsConcat(XteaFields(p), KeyFields(last));
    }
  }

  /** Key `j` of set `i` follows the keys of the sets before it. */
  lemma {:induction false} XteaFieldAt(xteas: seq<seq<int>>, i: int, j: int)
    requires 0 <= i < |xteas| && 0 <= j < |xteas[i]|
    ensures TotalKeys(xteas[..i]) + j < |XteaFields(xteas)|
    ensures XteaFields(xteas)[TotalKeys(xteas[..i]) + j] == Field(32, xteas[i][j])
  {
    var p := xteas[..|xteas| - 1];
    var last := xteas[|xteas| - 1];
    XteaFieldsCount(p);
    if i == |xteas| - 1 {
      assert xteas[..i] == p;
    } else {
      XteaFieldAt(p, i, j);
      assert p[..i] == xteas[..i];
      assert p[i] == xteas[i];
    }
  }

  lemma {:induction false} KeyFieldsBits(keys: seq<int>)
    ensures TotalBits(KeyFields(keys)) == 32 * |keys|
  {
    if keys != [] {
      KeyFieldsBits(keys[..|keys| - 1]);
      TotalBitsConcat(KeyFields(keys[..|keys| - 1]), [Field(32, keys[|keys| - 1])]);
      TotalBitsOne(Field(32, keys[|keys| - 1]));
    }
  }

  // -----------------------------------------------------------------------
  // extractBytes
  // -----------------------------------------------------------------------

  type Byte = b: int | 0 <= b < 256

  /** Whether the bit builder was switched back to byte access after the
      bits were put. */
  datatype Access = BitAccess | ByteAccess

  /** `extractBytes` as written: a fresh zero-filled array as long as the
      buffer holds readable bytes; the buffer's bytes are never copied into
      it. `readableBytes` stands for `GamePacketBuilder.readableBytes`
      after the given fields, which this model does not define; a Netty
      `writeInt` adds four readable bytes. */
  function Bytes(m: RebuildRegionMessage, key: string, readableBytes: (seq<Field>, Access) -> nat): (r: Result<seq<Byte>>)
    ensures r.Success? <==> key in BYTES_KEYS
    ensures r.Failure? ==> r.message == UNHANDLED_KEY
    ensures r.Success? ==> forall i :: 0 <= i < |r.value| ==> r.value[i] == 0
    ensures key == "xteas" ==> r.Success? && |r.value| == 4 * TotalKeys(m.xteas)
  {
    if key == "player_regions" then Success(seq(readableBytes(PlayerRegionsFields(m), ByteAccess), _ => 0))
    else if key == "chunks" then Success(seq(readableBytes(ChunkFields(m.chunks), BitAccess), _ => 0))
    else if key == "xteas" then
      XteaFieldsCount(m.xteas);
      Success(seq(4 * |XteaFields(m.xteas)|, _ => 0))
    else Failure(UNHANDLED_KEY)
  }

  /** `extractBytes`: the writer for the key is run and a `ByteArray` of
      the buffer's readable size returned. */
  method ExtractBytes(m: RebuildRegionMessage, key: string, readableBytes: (seq<Field>, Access) -> nat)
    returns (r: Result<seq<Byte>>)
    ensures r == Bytes(m, key, readableBytes)
  {
    var size: nat;
    if key == "player_regions" {
      var fields := PutPlayerRegions(m);
      size := readableBytes(fields, ByteAccess);
    } else if key == "chunks" {
      var fields := PutChunks(m.chunks);
      size := readableBytes(fields, BitAccess);
    } else if key == "xteas" {
      var fields := PutXteas(m.xteas);
      size := 4 * |fields|;
    } else {
      return Failure(UNHANDLED_KEY);
    }
    var bytes := new Byte[size](_ => 0);
    assert bytes[..] == seq(size, _ => 0);
    r := Success(bytes[..]);
  }

  /** As written the bytes say nothing about the keys: two messages with
      different key sets yield the same four zero bytes. */
  lemma BytesIgnoreContents(readableBytes: (seq<Field>, Access) -> nat)
    ensures var m1 := RebuildRegionMessage(0, 0, 0, 0, [], [[1]], None, None, None);
            var m2 := m1.(xteas := [[2]]);
            XteaFields(m1.xteas) != XteaFields(m2.xteas) &&
            Bytes(m1, "xteas", readableBytes) == Bytes(m2, "xteas", readableBytes) == Success([0, 0, 0, 0])
  {
    var m1 := RebuildRegionMessage(0, 0, 0, 0, [], [[1]], None, None, None);
    var m2 := m1.(xteas := [[2]]);
    assert [[1]][..0] == [] && [1][..0] == [];
    assert [[2]][..0] == [] && [2][..0] == [];
    assert XteaFields(m1.xteas) == [Field(32, 1)];
    assert XteaFields(m2.xteas) == [Field(32, 2)];
    assert TotalKeys(m1.xteas) == 1 && TotalKeys(m2.xteas) == 1;
    var zeros: seq<Byte> := seq(4, _ => 0);
    assert zeros == [0, 0, 0, 0];
    assert Bytes(m1, "xteas", readableBytes) == Success(zeros);
    assert Bytes(m2, "xteas", readableBytes) == Success(zeros);
  }

  // -----------------------------------------------------------------------
  // The bytes the encoder evidently means to return
  // -----------------------------------------------------------------------

  /** The low `width` bits of `v`, most significant first. */
  function BitsOf(width: nat, v: int): (bits: seq<bool>)
    ensures |bits| == width
  {
    if width == 0 then [] else BitsOf(width - 1, v / 2) + [v % 2 == 1]
  }

  /** The number the bits spell, most significant first. */
  function ValueOf(bits: seq<bool>): (v: nat)
    ensures v < Pow2(|bits|)
  {
    if bits == [] then 0 else 2 * ValueOf(bits[..|bits| - 1]) + (if bits[|bits| - 1] then 1 else 0)
  }

  lemma {:induction false} ValueOfBitsOf(width: nat, v: int)
    ensures ValueOf(BitsOf(width, v)) == v % Pow2(width)
  {
    if width > 0 {
      var b := BitsOf(width, v);
      ValueOfBitsOf(width - 1, v / 2);
      assert b[..width - 1] == BitsOf(width - 1, v / 2);
      DivModPow2(v, width);
    }
  }

  lemma {:induction false} BitsOfValueOf(bits: seq<bool>)
    ensures BitsOf(|bits|, ValueOf(bits)) == bits
  {
    if bits != [] {
      var p := bits[..|bits| - 1];
      var v := ValueOf(bits);
      BitsOfValueOf(p);
      assert v / 2 == ValueOf(p) && (v % 2 == 1 <==> bits[|bits| - 1]);
      assert bits == p + [bits[|bits| - 1]];
    }
  }

  /** The bits of the fields, one after the other. */
  function FieldBits(fields: seq<Field>): (bits: seq<bool>)
    ensures |bits| == TotalBits(fields)
  {
    if fields == [] then []
    else
      BitsOf(fields[0].width, fields[0].value) + FieldBits(fields[1..])
  }

  /** Eight bits to a byte, the first bit highest; the last byte is padded
      with zero bits (`switchToByteAccess`). */
  function Pack(bits: seq<bool>): (bytes: seq<Byte>)
    ensures |bytes| == (|bits| + 7) / 8
  {
    if bits == [] then []
    else if |bits| < 8 then [ToByte(bits + seq(8 - |bits|, _ => false))]
    else [ToByte(bits[..8])] + Pack(bits[8..])
  }

  function ToByte(bits: seq<bool>): Byte
    requires |bits| == 8
  {
    assert Pow2(8) == 256;
    ValueOf(bits)
  }

  function Unpack(bytes: seq<Byte>): (bits: seq<bool>)
    ensures |bits| == 8 * |bytes|
  {
    if bytes == [] then [] else BitsOf(8, bytes[0]) + Unpack(bytes[1..])
  }

  /** Unpacking the packed bytes gives the bits back, followed by the
      padding. */
  lemma {:induction false} UnpackPack(bits: seq<bool>)
    ensures Unpack(Pack(bits))[..|bits|] == bits
  {
    if bits != [] {
      if |bits| < 8 {
        var padded := bits + seq(8 - |bits|, _ => false);
        BitsOfValueOf(padded);
        assert Unpack(Pack(bits)) == padded;
      } else {
        BitsOfValueOf(bits[..8]);
        UnpackPack(bits[8..]);
        assert bits == bits[..8] + bits[8..];
      }
    }
  }

  /** How the client reads fields of the given widths off a bit stream. */
  function ReadFields(widths: seq<nat>, bits: seq<bool>): seq<Field> {
    if widths == [] then []
    else
      var w := if widths[0] <= |bits| then widths[0] else |bits|;
      [Field(widths[0], ValueOf(bits[..w]))] + ReadFields(widths[1..], bits[w..])
  }

  /** Reading the fields' widths off their bits, whatever follows, gives
      the fields as they travel. */
  lemma {:induction false} ReadFieldBits(fields: seq<Field>, pad: seq<bool>)
    ensures ReadFields(Widths(fields), FieldBits(fields) + pad) == Wires(fields)
  {
    if fields != [] {
      var f := fields[0];
      var head := BitsOf(f.width, f.value);
      var rest := FieldBits(fields[1..]);
      ReadFieldBits(fields[1..], pad);
      WidthsCons(fields);
      WiresCons(fields);
      ValueOfBitsOf(f.width, f.value);
      ConcatAssoc(head, rest, pad);
      ReadFieldsCons(f.width, Widths(fields[1..]), head, rest + pad);
    }
  }

  lemma WidthsCons(fields: seq<Field>)
    requires fields != []
    ensures Widths(fields) == [fields[0].width] + Widths(fields[1..])
  {
  }

  lemma WiresCons(fields: seq<Field>)
    requires fields != []
    ensures Wires(fields) == [Field(fields[0].width, fields[0].value % Pow2(fields[0].width))] + Wires(fields[1..])
  {
    assert fields == [fields[0]] + fields[1..];
    WiresConcat([fields[0]], fields[1..]);
    WireAt([fields[0]], 0);
  }

  /** Reading a field of width `w` off `head + tail`, `head` being `w` bits. */
  lemma ReadFieldsCons(w: nat, ws: seq<nat>, head: seq<bool>, tail: seq<bool>)
    requires |head| == w
    ensures ReadFields([w] + ws, head + tail) == [Field(w, ValueOf(head))] + ReadFields(ws, tail)
  {
    assert ([w] + ws)[0] == w && ([w] + ws)[1..] == ws;
    assert (head + tail)[..w] == head && (head + tail)[w..] == tail;
  }

  /** The fields each key writes, with the chunk flag set from the slot. */
  function IntendedFields(m: RebuildRegionMessage, key: string): Option<seq<Field>> {
    if key == "player_regions" then Some(PlayerRegionsFields(m))
    else if key == "chunks" then Some(ChunkFieldsIntended(m.chunks))
    else if key == "xteas" then Some(XteaFields(m.xteas))
    else None
  }

  /** `extractBytes` returning the bytes it wrote. */
  function IntendedBytes(m: RebuildRegionMessage, key: string): (r: Result<seq<Byte>>)
    ensures r.Success? <==> key in BYTES_KEYS
    ensures r.Failure? ==> r.message == UNHANDLED_KEY
  {
    var fields := IntendedFields(m, key);
    if fields.Some? then Success(Pack(FieldBits(fields.value))) else Failure(UNHANDLED_KEY)
  }

  /** The intended bytes carry the fields: the client reading the written
      widths off them gets every field's value back (its low `width` bits),
      and the array is as long as the bits need. */
  lemma IntendedBytesRoundTrip(m: RebuildRegionMessage, key: string)
    requires key in BYTES_KEYS
    ensures var fields := IntendedFields(m, key).value;
      var bytes := IntendedBytes(m, key).value;
      && |bytes| == (TotalBits(fields) + 7) / 8
      && ReadFields(Widths(fields), Unpack(bytes)) == Wires(fields)
  {
    var fields := IntendedFields(m, key).value;
    var bits := FieldBits(fields);
    var unpacked := Unpack(Pack(bits));
    UnpackPack(bits);
    assert unpacked == bits + unpacked[|bits|..];
    ReadFieldBits(fields, unpacked[|bits|..]);
  }

  /** End to end: a chunk block written with the intended flags and
      returned as its bytes lets the client recover every slot. */
  lemma IntendedChunksRecovered(m: RebuildRegionMessage)
    requires ValidChunks(m.chunks)
    ensures var fields := ChunkFieldsIntended(m.chunks);
      var bytes := IntendedBytes(m, "chunks").value;
      ParseChunks(ReadFields(Widths(fields), Unpack(bytes))) == Some(m.chunks)
  {
    IntendedBytesRoundTrip(m, "chunks");
    ChunkFieldsIntendedRoundTrip(m.chunks);
  }
}
