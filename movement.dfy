/** What `walkPath` and `walkTo` do to the movement queue and the client, as
    functions of the pawn's tile, timers and queue and the path handed over. */
module Movement {
  import opened Common
  import opened PawnTypes

  predicate Frozen(timers: map<TimerKey, int>) { HasTimer(timers, FROZEN_TIMER) }

  predicate Stunned(timers: map<TimerKey, int>) { HasTimer(timers, STUN_TIMER) }

  /** The steps `movementQueue.addStep` queues for the tiles of `path`, in
      the order they are polled. */
  function Steps(path: seq<Tile>, stepType: StepType, detectCollision: bool): seq<Step> {
    if path == [] then []
    else Steps(path[..|path| - 1], stepType, detectCollision) + [Step(path[|path| - 1], stepType, detectCollision)]
  }

  /** The movement queue after `walkPath`. */
  function WalkPathQueue(tile: Tile, timers: map<TimerKey, int>, queue: seq<Step>,
                         path: seq<Tile>, stepType: StepType, detectCollision: bool): seq<Step>
  {
    if path == [] || Frozen(timers) || Stunned(timers) then queue
    else if SameAs(path[|path| - 1], tile) then []
    else Steps(path, stepType, detectCollision)
  }

  /** The messages `walkPath` writes to a player's client: the map flag is
      cleared (255, 255) when there is nowhere to go, set to the tail's
      offset from the region base otherwise; a frozen player is told so.
      Non-players are written nothing. */
  function WalkPathWrites(isPlayer: bool, tile: Tile, timers: map<TimerKey, int>,
                          regionBase: Option<Coordinate>, path: seq<Tile>): seq<OutMessage>
  {
    if !isPlayer then []
    else if path == [] then [SetMapFlag(255, 255)]
    else if Frozen(timers) then [MagicStopsYouFromMoving]
    else if Stunned(timers) then []
    else if SameAs(path[|path| - 1], tile) then [SetMapFlag(255, 255)]
    else if regionBase.Some? then
      [SetMapFlag(path[|path| - 1].x - regionBase.value.x, path[|path| - 1].z - regionBase.value.z)]
    else []
  }

  /** `walkTo` does anything at all only when the destination differs from
      the current tile in x or z (height is ignored) and the pawn is neither
      frozen nor stunned. */
  predicate WalkToProceeds(tile: Tile, timers: map<TimerKey, int>, x: int, z: int) {
    !(tile.x == x && tile.z == z) && !Frozen(timers) && !Stunned(timers)
  }

  /** The messages `walkTo` itself writes: only a frozen player asked to
      go somewhere else is told it cannot move. */
  function WalkToWrites(isPlayer: bool, tile: Tile, timers: map<TimerKey, int>, x: int, z: int): seq<OutMessage> {
    if isPlayer && !(tile.x == x && tile.z == z) && Frozen(timers) then [MagicStopsYouFromMoving] else []
  }

  lemma {:induction false} StepsFollowPath(path: seq<Tile>, stepType: StepType, detectCollision: bool)
    ensures |Steps(path, stepType, detectCollision)| == |path|
    ensures forall i :: 0 <= i < |path| ==>
              Steps(path, stepType, detectCollision)[i] == Step(path[i], stepType, detectCollision)
  {
    if path != [] {
      StepsFollowPath(path[..|path| - 1], stepType, detectCollision);
    }
  }

  /** An empty path, or a frozen or stunned pawn, leaves the queue as it
      was. Otherwise the path replaces the queue by one step per path tile,
      in path order, unless the path ends where the pawn stands, in which
      case the queue ends empty. */
  lemma WalkPathReplacesQueue(tile: Tile, timers: map<TimerKey, int>, queue: seq<Step>,
                              path: seq<Tile>, stepType: StepType, detectCollision: bool)
    ensures var q := WalkPathQueue(tile, timers, queue, path, stepType, detectCollision);
      var free := path != [] && !Frozen(timers) && !Stunned(timers);
      && (!free ==> q == queue)
      && (free && SameAs(path[|path| - 1], tile) ==> q == [])
      && (free && !SameAs(path[|path| - 1], tile) ==>
            |q| == |path| && forall i :: 0 <= i < |path| ==> q[i] == Step(path[i], stepType, detectCollision))
  {
    StepsFollowPath(path, stepType, detectCollision);
  }

  /** `walkPath` writes a player at most one message and an npc none. An
      empty path, or a walk that ends where the pawn stands, clears the
      map flag; a frozen player is told so. Otherwise, with a region base
      known, the flag sent is the tail's offset from that base, so the
      client adds it to the base and marks the tail tile. */
  lemma WalkPathMapFlag(isPlayer: bool, tile: Tile, timers: map<TimerKey, int>,
                        regionBase: Option<Coordinate>, path: seq<Tile>)
    ensures var w := WalkPathWrites(isPlayer, tile, timers, regionBase, path);
      var free := path != [] && !Frozen(timers) && !Stunned(timers);
      && |w| <= 1
      && (!isPlayer ==> w == [])
      && (isPlayer && path == [] ==> w == [SetMapFlag(255, 255)])
      && (isPlayer && path != [] && Frozen(timers) ==> w == [MagicStopsYouFromMoving])
      && (isPlayer && free && SameAs(path[|path| - 1], tile) ==> w == [SetMapFlag(255, 255)])
      && (isPlayer && free && !SameAs(path[|path| - 1], tile) && regionBase.Some? ==>
            && |w| == 1 && w[0].SetMapFlag?
            && regionBase.value.x + w[0].x == path[|path| - 1].x
            && regionBase.value.z + w[0].z == path[|path| - 1].z)
      && (free && !SameAs(path[|path| - 1], tile) && regionBase.None? ==> w == [])
  {
  }
}
