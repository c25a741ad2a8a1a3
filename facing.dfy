/** The values the pawn's facing updates put in its update block buffer, and
    `Pawn.faces`, the test whether another pawn is in front of this one. */
module Facing {
  import opened Common
  import opened PawnTypes

  /** The index `facePawn` sends for a target: players are offset by 32768
      so that they do not clash with npcs. */
  function FacePawnIndex(target: PawnRef): int {
    if target.isPlayer then target.index + 32768 else target.index
  }

  /** The index `resetFacePawn` sends: no target. */
  const NO_FACE_PAWN: int := -1

  /** The facing part of a pawn: its target and the face values and
      flagged blocks of its update block buffer. */
  datatype FaceState = FaceState(facingPawn: Option<PawnRef>, faceDegrees: int, facePawnIndex: int,
                                 blocks: set<UpdateBlockType>)

  /** The facing after `resetFacePawn`: no target, and the face-pawn block
      flagged only if there was one before. */
  function Reset(s: FaceState): (r: FaceState)
    ensures r.facingPawn == None && r.facePawnIndex == NO_FACE_PAWN && r.faceDegrees == 0
    ensures r.blocks - {FACE_PAWN} == s.blocks - {FACE_PAWN}
    ensures FACE_PAWN in r.blocks <==> FACE_PAWN in s.blocks || s.facePawnIndex != NO_FACE_PAWN
  {
    FaceState(None, 0, NO_FACE_PAWN, s.blocks + (if s.facePawnIndex != NO_FACE_PAWN then {FACE_PAWN} else {}))
  }

  /** The facing after `facePawn(target)`. */
  function FaceTarget(s: FaceState, target: PawnRef): (r: FaceState)
    ensures r.facingPawn == Some(target) && r.facePawnIndex == FacePawnIndex(target) && r.faceDegrees == 0
    ensures r.blocks - {FACE_PAWN} == s.blocks - {FACE_PAWN}
    ensures FACE_PAWN in r.blocks <==> FACE_PAWN in s.blocks || s.facePawnIndex != FacePawnIndex(target)
  {
    var index := FacePawnIndex(target);
    FaceState(Some(target), 0, index, s.blocks + (if s.facePawnIndex != index then {FACE_PAWN} else {}))
  }

  /** Facing the same target, or resetting, a second time flags nothing
      new and changes nothing. */
  lemma FacingIdempotent(s: FaceState, target: PawnRef)
    ensures FaceTarget(FaceTarget(s, target), target) == FaceTarget(s, target)
    ensures Reset(Reset(s)) == Reset(s)
  {
  }

  /** The client can read the target back from the sent index. */
  lemma FaceTargetDecodes(s: FaceState, target: PawnRef)
    requires 0 <= target.index < 32768
    ensures DecodeFacePawnIndex(FaceTarget(s, target).facePawnIndex) == Some(target)
    ensures Reset(FaceTarget(s, target)).blocks == FaceTarget(s, target).blocks + {FACE_PAWN}
  {
    FacePawnIndexRoundTrip(target);
  }

  /** The client's inverse of `FacePawnIndex`. */
  function DecodeFacePawnIndex(encoded: int): (r: Option<PawnRef>)
    ensures r.Some? ==> FacePawnIndex(r.value) == encoded
  {
    if encoded < 0 then None
    else if encoded >= 32768 then Some(PawnRef(true, encoded - 32768))
    else Some(PawnRef(false, encoded))
  }

  /** Pawn list indices stay below 32768, so the encoding is lossless and
      never collides with "no target". */
  lemma FacePawnIndexRoundTrip(target: PawnRef)
    requires 0 <= target.index < 32768
    ensures FacePawnIndex(target) != NO_FACE_PAWN
    ensures DecodeFacePawnIndex(FacePawnIndex(target)) == Some(target)
  {
  }

  lemma FacePawnIndexInjective(a: PawnRef, b: PawnRef)
    requires 0 <= a.index < 32768 && 0 <= b.index < 32768
    requires FacePawnIndex(a) == FacePawnIndex(b)
    ensures a == b
  {
    FacePawnIndexRoundTrip(a);
    FacePawnIndexRoundTrip(b);
  }

  /** `faceDegrees` for an npc facing `face`: the doubled-plus-one tile
      centre coordinates, x shifted into the high half-word and or-ed with z,
      in 32-bit `Int` arithmetic. */
  function NpcFaceDegrees(face: Tile): int {
    Or(Shl(Wrap32(face.x * 2 + 1), 16), Wrap32(face.z * 2 + 1))
  }

  /** `faceDegrees` for a player, given the truncated `atan2` angle (in
      client units) that the double arithmetic yields: masked to 14 bits. */
  function PlayerFaceDegrees(angle: int): int {
    And(angle, 0x3fff)
  }

  /** On map coordinates below 16384 the npc value packs x into the high
      and z into the low 16 bits, and both tile coordinates can be read back. */
  lemma {:induction false} NpcFaceDegreesPacks(face: Tile)
    requires 0 <= face.x < 16384 && 0 <= face.z < 16384
    ensures NpcFaceDegrees(face) == (face.x * 2 + 1) * 65536 + (face.z * 2 + 1)
    ensures (NpcFaceDegrees(face) / 65536 - 1) / 2 == face.x
    ensures (NpcFaceDegrees(face) % 65536 - 1) / 2 == face.z
  {
    Pow2_14_16();
    Pow2_32();
    var fx := face.x * 2 + 1;
    var fz := face.z * 2 + 1;
    assert 0 < fx < 32768 && 0 < fz < 32768;
    assert Wrap32(fx) == fx && Wrap32(fz) == fz;
    var hi := fx * 65536;
    assert 0 <= hi < TWO_31;
    assert Shl(fx, 16) == hi;
    LemmaModUnique(hi, 65536, fx, 0);
    OrDisjoint16(hi, fz);
    var n := hi + fz;
    assert NpcFaceDegrees(face) == n;
    LemmaModUnique(n, 65536, fx, fz);
    assert (fx - 1) / 2 == face.x && (fz - 1) / 2 == face.z;
  }

  /** Or-ing a value below 65536 into one whose low 16 bits are clear
      adds the two. */
  lemma OrDisjoint16(hi: int, lo: int)
    requires 0 <= hi < TWO_31 && hi % 65536 == 0 && 0 <= lo < 65536
    ensures Or(hi, lo) == hi + lo
  {
    Pow2_14_16();
    Pow2_32();
    LemmaModUnique(hi, TWO_32, 0, hi);
    LemmaModUnique(lo, TWO_32, 0, lo);
    assert Unsigned(hi) == hi && Unsigned(lo) == lo;
    BitOrDisjoint(hi, lo, 16, 32);
    LemmaModUnique(hi + lo, TWO_32, 0, hi + lo);
    var u := BitOr(hi, lo, 32);
    assert u == hi + lo;
    assert Or(hi, lo) == Signed(u);
  }

  /** The player value is the angle reduced modulo 16384 (a full turn), so
      it always lies in 0 until 16384. */
  lemma {:induction false} PlayerFaceDegreesIsModulo(angle: int)
    ensures PlayerFaceDegrees(angle) == angle % 16384
    ensures 0 <= PlayerFaceDegrees(angle) < 16384
  {
    Pow2_14_16();
    Pow2_32();
    var u := Unsigned(angle);
    assert Unsigned(0x3fff) == Pow2(14) - 1;
    BitAndLowMask(u, 14, 32);
    var q := angle / TWO_32;
    assert angle == q * TWO_32 + u;
    assert q * TWO_32 == (q * 262144) * 16384;
    assert u == (u / 16384) * 16384 + u % 16384;
    LemmaModUnique(angle, 16384, q * 262144 + u / 16384, u % 16384);
  }

  /** `Pawn.faces` on the two pawns' tiles. `distance` is what
      `tile.getDistance(other.tile)` gives. */
  function Faces(self: Tile, faceDirection: Direction, other: Tile, distance: int, maximumDistance: int): bool {
    if self.height != other.height then false
    else if SameAs(self, other) then true
    else if distance > maximumDistance then false
    else
      var dx := other.x - self.x;
      var dz := other.z - self.z;
      match faceDirection
      case NORTH_WEST => dz >= dx
      case NORTH => dz >= 0
      case NORTH_EAST => dz >= dx * -1
      case WEST => dx <= 0
      case EAST => dx >= 0
      case SOUTH_WEST => dz <= dx * -1
      case SOUTH => dz <= 0
      case SOUTH_EAST => dx >= dz
      case NONE_DIRECTION => false
  }

  /** The unit step of each compass direction (x east, z north). */
  function DirectionX(d: Direction): int {
    match d
    case NORTH_WEST => -1 case WEST => -1 case SOUTH_WEST => -1
    case NORTH_EAST => 1 case EAST => 1 case SOUTH_EAST => 1
    case NORTH => 0 case SOUTH => 0 case NONE_DIRECTION => 0
  }

  function DirectionZ(d: Direction): int {
    match d
    case NORTH_WEST => 1 case NORTH => 1 case NORTH_EAST => 1
    case SOUTH_WEST => -1 case SOUTH => -1 case SOUTH_EAST => -1
    case WEST => 0 case EAST => 0 case NONE_DIRECTION => 0
  }

  function Opposite(d: Direction): Direction {
    match d
    case NORTH_WEST => SOUTH_EAST case NORTH => SOUTH case NORTH_EAST => SOUTH_WEST
    case WEST => EAST case EAST => WEST
    case SOUTH_WEST => NORTH_EAST case SOUTH => NORTH case SOUTH_EAST => NORTH_WEST
    case NONE_DIRECTION => NONE_DIRECTION
  }

  /** A pawn faces another on its plane and within range exactly when the
      other lies in the closed half-plane in front of it: the offset has a
      non-negative dot product with the facing direction. A pawn on the same
      tile is always faced; a pawn without a direction faces nobody else. */
  lemma FacesIsHalfPlane(self: Tile, d: Direction, other: Tile, distance: int, maximumDistance: int)
    ensures Faces(self, d, other, distance, maximumDistance) <==>
      && self.height == other.height
      && (SameAs(self, other) ||
          (distance <= maximumDistance && d != NONE_DIRECTION &&
           DirectionX(d) * (other.x - self.x) + DirectionZ(d) * (other.z - self.z) >= 0))
  {
  }

  /** Of two opposite directions, one always faces a pawn in range. */
  lemma FacesFrontOrBack(self: Tile, d: Direction, other: Tile, distance: int, maximumDistance: int)
    requires d != NONE_DIRECTION
    requires self.height == other.height && distance <= maximumDistance
    ensures Faces(self, d, other, distance, maximumDistance) || Faces(self, Opposite(d), other, distance, maximumDistance)
  {
    FacesIsHalfPlane(self, d, other, distance, maximumDistance);
    FacesIsHalfPlane(self, Opposite(d), other, distance, maximumDistance);
  }
}
