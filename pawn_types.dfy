/** The values a pawn's per-tick state is made of. The classes that hold
    them (the pawn, its update block buffer, its future route) are in module
    Pawns. */
module PawnTypes {
  import opened Common
  import opened RebuildRegionMessages

  /** One damage splat of a hit. `hitsCycle` clamps `damage` in place. */
  datatype Hitmark = Hitmark(damage: int, kind: int)

  /** A pending hit. `id` names the hit object; `cancelled` is the value its
      `cancelCondition` yields on the cycle being modelled. Its post-apply
      actions are opaque and show up as a `HitActionsRun` event. */
  datatype Hit = Hit(id: nat, damageDelay: int, hitmarks: seq<Hitmark>, cancelled: bool)

  /** The lock states a pawn can be in. Only `NONE` and `FULL` are named in
      the pawn's code; any other state carries the answer its
      `delaysDamage()` gives. */
  datatype LockState = NONE | FULL | Other(name: string, delays: bool)
  {
    predicate DelaysDamage() {
      Other? && delays
    }
  }

  /** A timer key: timers with `tickForward` count up, the others count down
      and fire when they reach zero. */
  datatype TimerKey = TimerKey(name: string, tickForward: bool, removeOnZero: bool)

  const FROZEN_TIMER := TimerKey("frozen", false, true)
  const STUN_TIMER := TimerKey("stun", false, true)
  const RESET_PAWN_FACING_TIMER := TimerKey("reset_pawn_face", false, true)

  /** `TimerMap.has`: the timer is present and still running. */
  predicate HasTimer(timers: map<TimerKey, int>, key: TimerKey) {
    key in timers && timers[key] > 0
  }

  datatype StepType = NORMAL | FORCED_WALK | FORCED_RUN

  /** One queued step of the movement queue. */
  datatype Step = Step(tile: Tile, stepType: StepType, detectCollision: bool)

  /** The result of a path search: the tiles to walk, whether the
      destination was reached, and the last reachable tile. */
  datatype Route = Route(path: seq<Tile>, success: bool, tail: Tile)

  /** A frozen copy of what a path search was asked: where the pawn stood
      when the request was made, and the destination. */
  datatype PathRequest = PathRequest(start: Tile, destX: int, destZ: int, projectile: bool, detectCollision: bool)

  datatype Direction =
    | NONE_DIRECTION | NORTH_WEST | NORTH | NORTH_EAST | WEST | EAST | SOUTH_WEST | SOUTH | SOUTH_EAST

  datatype UpdateBlockType =
    | HITMARK | FACE_PAWN | FACE_TILE | MOVEMENT | MOVEMENT_TYPE | ANIMATION | GFX | FORCE_CHAT | APPEARANCE

  /** A non-owning reference to another pawn: its kind and its list index. */
  datatype PawnRef = PawnRef(isPlayer: bool, index: int)

  /** Plugins and callbacks the pawn runs, recorded in order. */
  datatype Event =
    | HitActionsRun(hit: Hit)
    | PlayerDeathPlugin
    | NpcDeathPlugin
    | TimerPlugin(key: TimerKey)

  /** A chunk-aligned position: the last region base sent to a client. */
  datatype Coordinate = Coordinate(x: int, z: int, height: int)

  /** Messages written to a player's client. `MagicStopsYouFromMoving` is
      the chat message `writeMessage(MAGIC_STOPS_YOU_FROM_MOVING)` sends. */
  datatype OutMessage =
    | SetMapFlag(x: int, z: int)
    | MagicStopsYouFromMoving
    | RebuildNormal(mapSize: int, forceReload: int, chunkX: int, chunkZ: int)
    | RebuildRegion(msg: RebuildRegionMessage)
}
