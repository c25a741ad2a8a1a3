/** The per-tick pre-synchronization of a player: its computed route is
    handed to the movement queue, the queue takes a step, and when the player
    has come near the edge of the map area its client holds (or holds none),
    the region base is recomputed and a rebuild message is written: the
    normal one outside an instance, the region one inside. */
module PlayerPreSync {
  import opened Common
  import opened PawnTypes
  import opened RebuildRegionMessages
  import Movement
  import Pawns

  /** What pre-synchronization reads from collaborators outside this model. */
  datatype Context = Context(
    /** `Chunk.MAX_VIEWPORT`. */
    maxViewport: int,
    /** `Player.NORMAL_VIEW_DISTANCE`. */
    normalViewDistance: int,
    /** `instanceAllocator.getMap(tile)?.getCoordinates(tile)`: the packed
        copied-chunk references around the tile, when it is in an instance. */
    instanceCoordinates: Tile -> Option<seq<int>>,
    /** `xteaKeyService.get(region)`. */
    xteaKeys: int -> seq<int>,
    /** `tile.chunkOffsetX`, `tile.chunkOffsetZ`, `tile.as30BitInteger`. */
    chunkOffsetX: Tile -> int,
    chunkOffsetZ: Tile -> int,
    as30BitInteger: Tile -> int,
    /** The online players, each with the index it holds in the world's
        player list and its `tile.asTileHashMultiplier`. */
    players: seq<PlayerHint>)

  datatype PlayerHint = PlayerHint(index: int, hint: int)

  // -----------------------------------------------------------------------
  // The rebuild decision and the region base
  // -----------------------------------------------------------------------

  /** `shouldRebuildRegion`: the player is within the normal view distance
      of the low edge, or within it (and one tile) of the high edge, of the
      map area whose base is `last`, in either axis. */
  predicate ShouldRebuildRegion(last: Coordinate, current: Tile, maxViewport: int, normalViewDistance: int) {
    var dx := current.x - last.x;
    var dz := current.z - last.z;
    dx <= normalViewDistance || dx >= maxViewport - normalViewDistance - 1 ||
    dz <= normalViewDistance || dz >= maxViewport - normalViewDistance - 1
  }

  /** The base of the map area centred on the tile's chunk:
      `((x shr 3) - (MAX_VIEWPORT shr 4)) shl 3`, and the same for z. */
  function RegionBase(current: Tile, maxViewport: int): Coordinate {
    Coordinate(Shl(Wrap32(Shr(current.x, 3) - Shr(maxViewport, 4)), 3),
               Shl(Wrap32(Shr(current.z, 3) - Shr(maxViewport, 4)), 3),
               current.height)
  }

  /** On map coordinates the base lies `8 * (MAX_VIEWPORT / 16)` tiles
      before the start of the tile's chunk. */
  lemma RegionBaseOffset(current: Tile, maxViewport: int)
    requires 0 <= current.x < 0x4000_0000 && 0 <= current.z < 0x4000_0000
    requires 0 <= maxViewport < 0x4000_0000
    ensures RegionBase(current, maxViewport).x == current.x - current.x % 8 - 8 * (maxViewport / 16)
    ensures RegionBase(current, maxViewport).z == current.z - current.z % 8 - 8 * (maxViewport / 16)
    ensures RegionBase(current, maxViewport).height == current.height
  {
    BaseAxis(current.x, maxViewport);
    BaseAxis(current.z, maxViewport);
  }

  /** One axis of the region base. */
  lemma BaseAxis(c: int, maxViewport: int)
    requires 0 <= c < 0x4000_0000 && 0 <= maxViewport < 0x4000_0000
    ensures Shl(Wrap32(Shr(c, 3) - Shr(maxViewport, 4)), 3) == c - c % 8 - 8 * (maxViewport / 16)
  {
    assert Pow2(3) == 8 && Pow2(4) == 16;
    var v := c / 8 - maxViewport / 16;
    assert Shr(c, 3) == c / 8 && Shr(maxViewport, 4) == maxViewport / 16;
    assert Wrap32(v) == v;
    assert c - c % 8 == (c / 8) * 8;
    assert Shl(v, 3) == Wrap32(v * 8);
    assert Wrap32(v * 8) == v * 8;
  }

  /** A fresh base stays good while the player walks: when the view
      distance and the viewport leave a margin of `d` tiles around the
      offset of a fresh base, a player at most `d` tiles (in each axis)
      from the tile the base was computed on needs no rebuild. */
  lemma RebuiltBaseHolds(at: Tile, now: Tile, maxViewport: int, normalViewDistance: int, d: nat)
    requires 0 <= at.x < 0x4000_0000 && 0 <= at.z < 0x4000_0000
    requires 0 <= maxViewport < 0x4000_0000
    requires normalViewDistance + d < 8 * (maxViewport / 16)
    requires 8 * (maxViewport / 16) + 7 + d < maxViewport - normalViewDistance - 1
    requires Abs(now.x - at.x) <= d && Abs(now.z - at.z) <= d
    ensures !ShouldRebuildRegion(RegionBase(at, maxViewport), now, maxViewport, normalViewDistance)
  {
    RegionBaseOffset(at, maxViewport);
  }

  // -----------------------------------------------------------------------
  // Copied chunks and their regions
  // -----------------------------------------------------------------------

  /** The region of a packed copied-chunk reference: chunk x in bits 14 to
      23, chunk z in bits 3 to 13, regions being 8 chunks wide. */
  function ChunkRegion(copiedCoords: int): int {
    var rx := And(Shr(copiedCoords, 14), 0x3FF);
    var rz := And(Shr(copiedCoords, 3), 0x7FF);
    Quot(rz, 8) + Shl(Quot(rx, 8), 8)
  }

  /** A reference that packs chunk `cx`, `cz` (with any plane bits above
      and rotation bits below) decodes to the region holding that chunk,
      and the region id holds the region's x in its high and its z in its
      low eight bits. */
  lemma {:induction false} ChunkRegionDecodes(high: int, cx: int, cz: int, low: int)
    requires 0 <= high < 128 && 0 <= cx < 1024 && 0 <= cz < 2048 && 0 <= low < 8
    ensures var r := ChunkRegion(high * 0x100_0000 + cx * 0x4000 + cz * 8 + low);
      && r == (cx / 8) * 256 + cz / 8
      && 0 <= r < 32768 && r / 256 == cx / 8 && r % 256 == cz / 8
  {
    var c := high * 0x100_0000 + cx * 0x4000 + cz * 8 + low;
    ChunkFieldX(high, cx, cz, low);
    ChunkFieldZ(high, cx, cz, low);
    var rx := cx / 8;
    var rz := cz / 8;
    assert Quot(cx, 8) == rx && Quot(cz, 8) == rz;
    ShlByte(rx);
    LemmaModUnique(rx * 256 + rz, 256, rx, rz);
  }

  /** Bits 14 to 23 of a packed reference hold the chunk x. */
  lemma ChunkFieldX(high: int, cx: int, cz: int, low: int)
    requires 0 <= high < 128 && 0 <= cx < 1024 && 0 <= cz < 2048 && 0 <= low < 8
    ensures And(Shr(high * 0x100_0000 + cx * 0x4000 + cz * 8 + low, 14), 0x3FF) == cx
  {
    Pow2_14_16();
    assert Pow2(10) == 0x400;
    var c := high * 0x100_0000 + cx * 0x4000 + cz * 8 + low;
    var q := high * 1024 + cx;
    assert c == q * Pow2(14) + (cz * 8 + low);
    ShrSplit(c, 14, q, cz * 8 + low);
    MaskSplit(q, 10, high, cx);
  }

  /** Bits 3 to 13 of a packed reference hold the chunk z. */
  lemma ChunkFieldZ(high: int, cx: int, cz: int, low: int)
    requires 0 <= high < 128 && 0 <= cx < 1024 && 0 <= cz < 2048 && 0 <= low < 8
    ensures And(Shr(high * 0x100_0000 + cx * 0x4000 + cz * 8 + low, 3), 0x7FF) == cz
  {
    Pow2_14_16();
    assert Pow2(3) == 8 && Pow2(11) == 0x800;
    var c := high * 0x100_0000 + cx * 0x4000 + cz * 8 + low;
    var q := high * 0x20_0000 + cx * 2048 + cz;
    assert c == q * Pow2(3) + low;
    ShrSplit(c, 3, q, low);
    MaskSplit(q, 11, high * 1024 + cx, cz);
  }

  lemma ShrSplit(c: int, k: nat, q: int, rem: int)
    requires 1 <= k <= 16 && IsInt32(c)
    requires c == q * Pow2(k) + rem && 0 <= rem < Pow2(k)
    ensures Shr(c, k) == q
  {
    LemmaModUnique(c, Pow2(k), q, rem);
  }

  lemma MaskSplit(v: int, k: nat, q: int, rem: int)
    requires 1 <= k <= 16 && v == q * Pow2(k) + rem && 0 <= rem < Pow2(k)
    ensures And(v, Pow2(k) - 1) == rem
  {
    AndLowMask(v, k);
    LemmaModUnique(v, Pow2(k), q, rem);
  }

  lemma ShlByte(v: int)
    requires 0 <= v < 256
    ensures Shl(v, 8) == v * 256
  {
    assert Pow2(8) == 256;
  }

  /** The regions of the slots that hold a copied chunk, in slot order; a
      slot of -1 holds none. */
  function ChunkRegions(chunks: seq<int>): seq<int> {
    if chunks == [] then []
    else ChunkRegions(chunks[..|chunks| - 1]) +
         (if chunks[|chunks| - 1] == -1 then [] else [ChunkRegion(chunks[|chunks| - 1])])
  }

  /** The distinct values of `s`, in the order they first appear. */
  function FirstSeen(s: seq<int>): seq<int> {
    if s == [] then []
    else
      var d := FirstSeen(s[..|s| - 1]);
      if s[|s| - 1] in d then d else d + [s[|s| - 1]]
  }

  /** The key set of each region, in the order of `regions`. */
  function KeysOf(regions: seq<int>, xteaKeys: int -> seq<int>): seq<seq<int>> {
    seq(|regions|, i requires 0 <= i < |regions| => xteaKeys(regions[i]))
  }

  /** `FirstSeen` lists every value of `s` exactly once. */
  lemma {:induction false} FirstSeenDistinct(s: seq<int>)
    ensures forall v :: v in FirstSeen(s) <==> v in s
    ensures forall i, j :: 0 <= i < j < |FirstSeen(s)| ==> FirstSeen(s)[i] != FirstSeen(s)[j]
  {
    if s != [] {
      FirstSeenDistinct(s[..|s| - 1]);
      assert s == s[..|s| - 1] + [s[|s| - 1]];
    }
  }

  /** ... and in the order of first appearance: of two listed values, the
      earlier one occurs in `s` before any occurrence of the later one. */
  lemma {:induction false} FirstSeenOrder(s: seq<int>, i: int, j: int, k: int)
    requires 0 <= i < j < |FirstSeen(s)|
    requires 0 <= k < |s| && s[k] == FirstSeen(s)[j]
    ensures exists m :: 0 <= m < k && s[m] == FirstSeen(s)[i]
  {
    var p := s[..|s| - 1];
    var d := FirstSeen(p);
    FirstSeenDistinct(p);
    if k == |s| - 1 {
      if s[|s| - 1] in d {
        FirstSeenOrder(p, i, j, IndexOf(p, s[k]));
      } else {
        assert FirstSeen(s)[i] in p;
        var m := IndexOf(p, FirstSeen(s)[i]);
        assert s[m] == p[m];
      }
    } else {
      assert s[k] == p[k];
      assert p[k] in d;
      assert j < |d|;
      FirstSeenOrder(p, i, j, k);
      var m :| 0 <= m < k && p[m] == FirstSeen(p)[i];
      assert s[m] == p[m];
    }
  }

  function IndexOf(s: seq<int>, v: int): (k: int)
    requires v in s
    ensures 0 <= k < |s| && s[k] == v
  {
    if s[0] == v then 0 else 1 + IndexOf(s[1..], v)
  }

  lemma ChunkRegionsStep(chunks: seq<int>, i: int)
    requires 0 <= i < |chunks|
    ensures ChunkRegions(chunks[..i + 1]) ==
      ChunkRegions(chunks[..i]) + (if chunks[i] == -1 then [] else [ChunkRegion(chunks[i])])
  {
    assert chunks[..i + 1][..i] == chunks[..i];
  }

  lemma FirstSeenStep(s: seq<int>, v: int)
    ensures FirstSeen(s + [v]) == if v in FirstSeen(s) then FirstSeen(s) else FirstSeen(s) + [v]
  {
    assert (s + [v])[..|s|] == s;
  }

  lemma KeysOfStep(regions: seq<int>, v: int, xteaKeys: int -> seq<int>)
    ensures KeysOf(regions + [v], xteaKeys) == KeysOf(regions, xteaKeys) + [xteaKeys(v)]
  {
  }

  /** The region of every slot holding a copied chunk is among the slots'
      regions ... */
  lemma {:induction false} ChunkRegionsComplete(chunks: seq<int>, i: nat)
    requires i < |chunks| && chunks[i] != -1
    ensures ChunkRegion(chunks[i]) in ChunkRegions(chunks)
  {
    var n := |chunks| - 1;
    var p := chunks[..n];
    var tail := if chunks[n] == -1 then [] else [ChunkRegion(chunks[n])];
    assert ChunkRegions(chunks) == ChunkRegions(p) + tail;
    if i < n {
      assert p[i] == chunks[i];
      ChunkRegionsComplete(p, i);
    } else {
      assert tail == [ChunkRegion(chunks[i])];
    }
  }

  /** ... and each of them is the region of such a slot. */
  lemma {:induction false} ChunkRegionsSound(chunks: seq<int>, v: int) returns (i: nat)
    requires v in ChunkRegions(chunks)
    ensures i < |chunks| && chunks[i] != -1 && ChunkRegion(chunks[i]) == v
  {
    var n := |chunks| - 1;
    var p := chunks[..n];
    var tail := if chunks[n] == -1 then [] else [ChunkRegion(chunks[n])];
    assert ChunkRegions(chunks) == ChunkRegions(p) + tail;
    if v in ChunkRegions(p) {
      i := ChunkRegionsSound(p, v);
      assert p[i] == chunks[i];
    } else {
      assert v in tail;
      i := n;
    }
  }

  /** The key sets sent with the chunks: every region a copied chunk refers
      to has exactly one entry, every entry belongs to such a region, and
      each entry holds the key set of its own region. */
  lemma XteasCoverChunks(chunks: seq<int>, xteaKeys: int -> seq<int>)
    ensures var regions := FirstSeen(ChunkRegions(chunks));
      var xteas := KeysOf(regions, xteaKeys);
      && |xteas| == |regions|
      && (forall i :: 0 <= i < |chunks| && chunks[i] != -1 ==> ChunkRegion(chunks[i]) in regions)
      && (forall j, k :: 0 <= j < k < |regions| ==> regions[j] != regions[k])
      && (forall j :: 0 <= j < |regions| ==>
            && xteas[j] == xteaKeys(regions[j])
            && exists i :: 0 <= i < |chunks| && chunks[i] != -1 && ChunkRegion(chunks[i]) == regions[j])
  {
    var all := ChunkRegions(chunks);
    var regions := FirstSeen(all);
    FirstSeenDistinct(all);
    forall i | 0 <= i < |chunks| && chunks[i] != -1 ensures ChunkRegion(chunks[i]) in regions {
      ChunkRegionsComplete(chunks, i);
    }
    forall j | 0 <= j < |regions|
      ensures exists i :: 0 <= i < |chunks| && chunks[i] != -1 && ChunkRegion(chunks[i]) == regions[j]
    {
      assert regions[j] in all;
      var i := ChunkRegionsSound(chunks, regions[j]);
    }
  }

  /** The `chunks.forEach` loop: one key set per distinct region, fetched
      the first time the region is seen. */
  method CollectXteas(chunks: seq<int>, xteaKeys: int -> seq<int>) returns (xteas: seq<seq<int>>)
    ensures xteas == KeysOf(FirstSeen(ChunkRegions(chunks)), xteaKeys)
  {
    var regions: set<int> := {};
    ghost var order: seq<int> := [];
    xteas := [];
    var i := 0;
    while i < |chunks|
      invariant 0 <= i <= |chunks|
      invariant order == FirstSeen(ChunkRegions(chunks[..i]))
      invariant forall r :: r in regions <==> r in order
      invariant xteas == KeysOf(order, xteaKeys)
    {
      var copiedCoords := chunks[i];
      ChunkRegionsStep(chunks, i);
      if copiedCoords == -1 {
        ConcatEmpty(ChunkRegions(chunks[..i]));
      } else {
        var region := ChunkRegion(copiedCoords);
        FirstSeenStep(ChunkRegions(chunks[..i]), region);
        KeysOfStep(order, region, xteaKeys);
        if region !in regions {
          regions := regions + {region};
          var keys := xteaKeys(region);
          xteas := xteas + [keys];
          order := order + [region];
        }
      }
      i := i + 1;
    }
    assert chunks[..i] == chunks;
  }

  // -----------------------------------------------------------------------
  // The player region hints
  // -----------------------------------------------------------------------

  /** `IntArray(2048 - 1)`. */
  const PLAYER_REGIONS_LENGTH: nat := 2047

  /** The message of the `ArrayIndexOutOfBoundsException` a store at
      `index` into the hint array throws. */
  function OutOfBounds(index: int): string {
    "Index " + IntToDecimal(index) + " out of bounds for length 2047"
  }

  predicate Fits(p: PlayerHint) {
    0 <= p.index < PLAYER_REGIONS_LENGTH
  }

  /** The hint array after the players up to `players` have written their
      slot; a player whose index is outside the array throws. */
  function Hints(players: seq<PlayerHint>): (r: Result<seq<int>>)
    ensures r.Success? ==> |r.value| == PLAYER_REGIONS_LENGTH
  {
    if players == [] then Success(seq(PLAYER_REGIONS_LENGTH, _ => 0))
    else
      var h := Hints(players[..|players| - 1]);
      var p := players[|players| - 1];
      if h.Failure? then h
      else if !Fits(p) then Failure(OutOfBounds(p.index))
      else Success(h.value[p.index := p.hint])
  }

  predicate IndicesFit(players: seq<PlayerHint>) {
    forall k :: 0 <= k < |players| ==> Fits(players[k])
  }

  /** The first player whose index does not fit the array. */
  function FirstMisfit(players: seq<PlayerHint>): (k: nat)
    requires !IndicesFit(players)
    ensures k < |players| && !Fits(players[k])
    ensures forall m :: 0 <= m < k ==> Fits(players[m])
  {
    if !Fits(players[0]) then 0
    else
      assert !IndicesFit(players[1..]) by {
        var k :| 0 <= k < |players| && !Fits(players[k]);
        assert players[1..][k - 1] == players[k];
      }
      1 + FirstMisfit(players[1..])
  }

  /** The array is built exactly when every index fits; it has 2047 slots;
      each player's slot holds its hint (the last one written, should two
      players share an index) and every other slot holds 0. */
  lemma {:induction false} HintsSlots(players: seq<PlayerHint>)
    ensures Hints(players).Success? <==> IndicesFit(players)
    ensures Hints(players).Success? ==>
      && |Hints(players).value| == PLAYER_REGIONS_LENGTH
      && (forall k :: 0 <= k < |players| && (forall m :: k < m < |players| ==> players[m].index != players[k].index) ==>
            Hints(players).value[players[k].index] == players[k].hint)
      && (forall i :: 0 <= i < PLAYER_REGIONS_LENGTH && (forall k :: 0 <= k < |players| ==> players[k].index != i) ==>
            Hints(players).value[i] == 0)
  {
    if players != [] {
      var p := players[..|players| - 1];
      HintsSlots(p);
      assert forall k :: 0 <= k < |p| ==> p[k] == players[k];
    }
  }

  /** Once a store has thrown, the later players change nothing. */
  lemma {:induction false} HintsFailurePersists(players: seq<PlayerHint>, k: nat)
    requires k <= |players| && Hints(players[..k]).Failure?
    ensures Hints(players) == Hints(players[..k])
    decreases |players| - k
  {
    if k == |players| {
      assert players[..k] == players;
    } else {
      assert players[..k + 1][..k] == players[..k];
      HintsFailurePersists(players, k + 1);
    }
  }

  /** A failed fill fails with the out-of-bounds message of the first
      player whose index does not fit. */
  lemma {:induction false} HintsFailureMessage(players: seq<PlayerHint>)
    requires !IndicesFit(players)
    ensures Hints(players) == Failure(OutOfBounds(players[FirstMisfit(players)].index))
  {
    var n := |players| - 1;
    var p := players[..n];
    var k := FirstMisfit(players);
    assert forall m :: 0 <= m < n ==> p[m] == players[m];
    HintsSlots(p);
    if IndicesFit(p) {
      assert k == n;
    } else {
      HintsFailureMessage(p);
      var kp := FirstMisfit(p);
      assert !Fits(players[kp]);
      assert k == kp;
    }
  }

  /** The `world.players.forEach` loop filling `playerRegions`. */
  method PlayerRegions(players: seq<PlayerHint>) returns (r: Result<seq<int>>)
    ensures r == Hints(players)
  {
    var playerRegions := new int[PLAYER_REGIONS_LENGTH](_ => 0);
    assert playerRegions[..] == seq(PLAYER_REGIONS_LENGTH, _ => 0);
    var k := 0;
    while k < |players|
      invariant 0 <= k <= |players|
      invariant Hints(players[..k]) == Success(playerRegions[..])
    {
      assert players[..k + 1][..k] == players[..k];
      var player := players[k];
      if !(0 <= player.index < playerRegions.Length) {
        HintsFailurePersists(players, k + 1);
        return Failure(OutOfBounds(player.index));
      }
      playerRegions[player.index] := player.hint;
      k := k + 1;
    }
    assert players[..k] == players;
    r := Success(playerRegions[..]);
  }

  // -----------------------------------------------------------------------
  // run
  // -----------------------------------------------------------------------

  /** The region message for a player in an instance. */
  function InstancedMessage(ctx: Context, tile: Tile, index: int, mapSize: int, chunks: seq<int>,
                            playerRegions: seq<int>): RebuildRegionMessage
  {
    RebuildRegionMessage(ctx.chunkOffsetX(tile), ctx.chunkOffsetZ(tile), 1, mapSize, chunks,
                         KeysOf(FirstSeen(ChunkRegions(chunks)), ctx.xteaKeys),
                         Some(index), Some(ctx.as30BitInteger(tile)), Some(playerRegions))
  }

  /** What the region half of `run` does on the tile after the step: the
      base it stores, the messages it writes and its result. */
  datatype RebuildOutcome = RebuildOutcome(base: Option<Coordinate>, writes: seq<OutMessage>, result: Result<bool>)

  function Rebuild(ctx: Context, last: Option<Coordinate>, current: Tile, index: int, mapSize: int,
                   forceMapRefresh: bool): RebuildOutcome
  {
    if !(last.None? || ShouldRebuildRegion(last.value, current, ctx.maxViewport, ctx.normalViewDistance)) then
      RebuildOutcome(last, [], Success(false))
    else
      var base := Some(RegionBase(current, ctx.maxViewport));
      match ctx.instanceCoordinates(current)
      case None =>
        RebuildOutcome(base, [RebuildNormal(mapSize, if forceMapRefresh then 1 else 0, Shr(current.x, 3), Shr(current.z, 3))],
                       Success(true))
      case Some(chunks) =>
        var hints := Hints(ctx.players);
        if hints.Failure? then RebuildOutcome(base, [], Failure(hints.message))
        else RebuildOutcome(base, [RebuildRegion(InstancedMessage(ctx, current, index, mapSize, chunks, hints.value))],
                            Success(true))
  }

  /** The cases of the region half: nothing is stored or written when no
      rebuild is needed; otherwise the fresh base is stored, and outside an
      instance the normal message is written; inside one the region message
      with force-reload set, one key set per distinct region and the hint
      array is written when every player index fits the array, and nothing
      is written (the array access throws) when one does not. At most one
      message is written, and one exactly when the result is `Success(true)`. */
  lemma RebuildCases(ctx: Context, last: Option<Coordinate>, current: Tile, index: int, mapSize: int,
                     forceMapRefresh: bool)
    ensures var o := Rebuild(ctx, last, current, index, mapSize, forceMapRefresh);
      var needed := last.None? || ShouldRebuildRegion(last.value, current, ctx.maxViewport, ctx.normalViewDistance);
      var chunks := ctx.instanceCoordinates(current);
      && (!needed ==> o.base == last && o.writes == [] && o.result == Success(false))
      && (needed ==> o.base == Some(RegionBase(current, ctx.maxViewport)))
      && (needed && chunks.None? ==>
            o.result == Success(true) &&
            o.writes == [RebuildNormal(mapSize, if forceMapRefresh then 1 else 0, Shr(current.x, 3), Shr(current.z, 3))])
      && (needed && chunks.Some? && IndicesFit(ctx.players) ==>
            o.result == Success(true) && |o.writes| == 1 && o.writes[0].RebuildRegion? &&
            var m := o.writes[0].msg;
            && m.forceReload == 1 && m.chunks == chunks.value && m.playerIndex == Some(index)
            && m.chunkX == ctx.chunkOffsetX(current) && m.chunkZ == ctx.chunkOffsetZ(current)
            && m.mapSize == mapSize
            && m.xteas == KeysOf(FirstSeen(ChunkRegions(chunks.value)), ctx.xteaKeys)
            && m.playerTile == Some(ctx.as30BitInteger(current))
            && m.playerRegions == Some(Hints(ctx.players).value)
            && |m.playerRegions.value| == PLAYER_REGIONS_LENGTH)
      && (needed && chunks.Some? && !IndicesFit(ctx.players) ==>
            o.result == Failure(OutOfBounds(ctx.players[FirstMisfit(ctx.players)].index)) && o.writes == [])
      && (|o.writes| == 1 <==> o.result == Success(true))
      && |o.writes| <= 1
  {
    HintsSlots(ctx.players);
    if !IndicesFit(ctx.players) {
      HintsFailureMessage(ctx.players);
    }
  }

  /** The region half of `run`, on the pawn's state after the step. */
  method RebuildIfNeeded(pawn: Pawns.Pawn, ctx: Context) returns (r: Result<bool>)
    modifies pawn`outbox, pawn`lastKnownRegionBase
    ensures var o := Rebuild(ctx, old(pawn.lastKnownRegionBase), pawn.tile, pawn.index, pawn.mapSize, pawn.forceMapRefresh);
      && pawn.lastKnownRegionBase == o.base && pawn.outbox == old(pawn.outbox) + o.writes && r == o.result
  {
    var last := pawn.lastKnownRegionBase;
    var current := pawn.tile;
    if last.None? || ShouldRebuildRegion(last.value, current, ctx.maxViewport, ctx.normalViewDistance) {
      pawn.lastKnownRegionBase := Some(RegionBase(current, ctx.maxViewport));
      var instance := ctx.instanceCoordinates(current);
      if instance.Some? {
        var chunks := instance.value;
        var xteas := CollectXteas(chunks, ctx.xteaKeys);
        var playerRegions := PlayerRegions(ctx.players);
        if playerRegions.Failure? {
          ConcatEmpty(pawn.outbox);
          return Failure(playerRegions.message);
        }
        var message := RebuildRegionMessage(ctx.chunkOffsetX(current), ctx.chunkOffsetZ(current), 1, pawn.mapSize,
                                            chunks, xteas, Some(pawn.index), Some(ctx.as30BitInteger(current)),
                                            Some(playerRegions.value));
        pawn.outbox := pawn.outbox + [RebuildRegion(message)];
      } else {
        pawn.outbox := pawn.outbox + [RebuildNormal(pawn.mapSize, if pawn.forceMapRefresh then 1 else 0,
                                                    Shr(current.x, 3), Shr(current.z, 3))];
      }
      r := Success(true);
    } else {
      ConcatEmpty(pawn.outbox);
      r := Success(false);
    }
  }

  /** `run`. The route is drained and the queue cycled before the region
      is looked at, so the decision and the message use the tile after the
      step. The result is `Success(true)` when a rebuild message was
      written, `Success(false)` when none was needed, and `Failure` when
      filling the hint array threw (the new base is then already stored). */
  method Run(pawn: Pawns.Pawn, ctx: Context) returns (r: Result<bool>)
    requires pawn.isPlayer
    modifies pawn`movementQueue, pawn`outbox, pawn`futureRoute, pawn`tile, pawn`lastKnownRegionBase
    ensures var fr := old(pawn.futureRoute);
      var routed := fr != null && fr.completed && !fr.cancel;
      var q := if routed then Movement.WalkPathQueue(old(pawn.tile), pawn.timers, old(pawn.movementQueue),
                                                     fr.route.path, fr.stepType, fr.detectCollision)
               else old(pawn.movementQueue);
      && pawn.futureRoute == (if routed then null else fr)
      && pawn.tile == (if q == [] then old(pawn.tile) else q[0].tile)
      && pawn.movementQueue == (if q == [] then [] else q[1..])
    ensures var fr := old(pawn.futureRoute);
      var routeWrites := if fr != null && fr.completed && !fr.cancel
        then Movement.WalkPathWrites(true, old(pawn.tile), pawn.timers, old(pawn.lastKnownRegionBase), fr.route.path)
        else [];
      var o := Rebuild(ctx, old(pawn.lastKnownRegionBase), pawn.tile, pawn.index, pawn.mapSize, pawn.forceMapRefresh);
      && pawn.lastKnownRegionBase == o.base && pawn.outbox == old(pawn.outbox) + routeWrites + o.writes && r == o.result
  {
    pawn.HandleFutureRoute();
    pawn.CycleMovement();
    r := RebuildIfNeeded(pawn, ctx);
  }
}
