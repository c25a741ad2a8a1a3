/** The pawn (a player or an npc) and the two objects it updates besides
    itself: its update block buffer and the route a path-finding worker is
    computing for it. Each method changes only the fields its `modifies`
    clause names, and its postcondition ties the new state to the functions
    of modules Hits, Timers, Movement and Facing, where the properties of
    those functions are proved. */
module Pawns {
  import opened Common
  import opened PawnTypes
  import Hits
  import Timers
  import Movement
  import Facing

  /** The per-tick change flags and values the synchronization tasks send. */
  class UpdateBlockBuffer {
    var teleport: bool
    var faceDegrees: int
    var facePawnIndex: int
    var hits: seq<Hit>
    var blocks: set<UpdateBlockType>

    constructor ()
      ensures !teleport && faceDegrees == 0 && facePawnIndex == Facing.NO_FACE_PAWN
      ensures hits == [] && blocks == {}
    {
      teleport := false;
      faceDegrees := 0;
      facePawnIndex := Facing.NO_FACE_PAWN;
      hits := [];
      blocks := {};
    }
  }

  /** A route being computed on another thread. `cancel` is the `cancel`
      flag of its path-finding strategy. */
  class FutureRoute {
    const request: PathRequest
    const stepType: StepType
    const detectCollision: bool
    var cancel: bool
    var completed: bool
    var route: Route

    /** `FutureRoute.of`: the search is started and not yet done. */
    constructor Of(request: PathRequest, stepType: StepType, detectCollision: bool)
      ensures this.request == request && this.stepType == stepType && this.detectCollision == detectCollision
      ensures !cancel && !completed
    {
      this.request := request;
      this.stepType := stepType;
      this.detectCollision := detectCollision;
      cancel := false;
      completed := false;
      route := Route([], false, request.start);
    }

    /** The worker finishing the search with route `r`. */
    method Complete(r: Route)
      modifies this`completed, this`route
      ensures completed && route == r
    {
      route := r;
      completed := true;
    }
  }

  class Pawn {
    const isPlayer: bool
    var index: int
    var tile: Tile
    var lifepoints: int
    /** The infinite-health debug variable is set. */
    var infiniteHp: bool
    var lock: LockState
    var pendingHits: seq<Hit>
    const blockBuffer: UpdateBlockBuffer
    var timers: map<TimerKey, int>
    var movementQueue: seq<Step>
    var futureRoute: FutureRoute?
    var moved: bool
    var teleported: bool
    var invisible: bool
    var faceDirection: Direction
    /** The weak reference stored under the facing-pawn attribute. */
    var facingPawn: Option<PawnRef>
    /** Plugins and callbacks run, in order. */
    var events: seq<Event>
    /** Messages written to this pawn's client (players only). */
    var outbox: seq<OutMessage>
    var lastKnownRegionBase: Option<Coordinate>
    var mapSize: int
    var forceMapRefresh: bool

    constructor (isPlayer: bool, index: int, tile: Tile, lifepoints: int)
      ensures this.isPlayer == isPlayer && this.index == index && this.tile == tile
      ensures this.lifepoints == lifepoints && !infiniteHp && lock == NONE
      ensures pendingHits == [] && timers == map[] && movementQueue == [] && futureRoute == null
      ensures facingPawn == None && events == [] && outbox == [] && lastKnownRegionBase == None
      ensures fresh(blockBuffer) && blockBuffer.facePawnIndex == Facing.NO_FACE_PAWN && blockBuffer.blocks == {}
      ensures faceDirection == SOUTH && !moved && !teleported && !invisible
      ensures mapSize == 0 && !forceMapRefresh
    {
      this.isPlayer := isPlayer;
      this.index := index;
      this.tile := tile;
      this.lifepoints := lifepoints;
      infiniteHp := false;
      lock := NONE;
      pendingHits := [];
      blockBuffer := new UpdateBlockBuffer();
      timers := map[];
      movementQueue := [];
      futureRoute := null;
      moved := false;
      teleported := false;
      invisible := false;
      faceDirection := SOUTH;
      facingPawn := None;
      events := [];
      outbox := [];
      lastKnownRegionBase := None;
      mapSize := 0;
      forceMapRefresh := false;
    }

    predicate IsDead()
      reads this
    {
      lifepoints == 0
    }

    method Lock()
      modifies this`lock
      ensures lock == FULL && IsLocked()
    {
      lock := FULL;
    }

    method Unlock()
      modifies this`lock
      ensures lock == NONE && !IsLocked()
    {
      lock := NONE;
    }

    /** Any lock state but `NONE` counts as locked, in particular every
        state that delays damage. */
    function IsLocked(): (r: bool)
      reads this
      ensures lock.DelaysDamage() ==> r
      ensures lock == FULL ==> r
      ensures !r ==> lock == NONE
    {
      lock != NONE
    }

    // ---------------------------------------------------------------------
    // hitsCycle
    // ---------------------------------------------------------------------

    /** The hitmark loop of one due hit: each mark is clamped to the
        lifepoints left, subtracted unless health is infinite, and the loop
        stops at the first mark that leaves the pawn at or below zero. */
    method ApplyHitmarks(marks: seq<Hitmark>) returns (clamped: seq<Hitmark>, fatal: bool)
      modifies this`lifepoints
      ensures var r := Hits.ApplyHitmarks(infiniteHp, old(lifepoints), marks);
        clamped == r.marks && fatal == r.fatal && lifepoints == r.lifepoints
    {
      ghost var target := Hits.ApplyHitmarks(infiniteHp, lifepoints, marks);
      clamped := [];
      fatal := false;
      var j := 0;
      Hits.MarksBehindNothing(target);
      while j < |marks|
        invariant 0 <= j <= |marks|
        invariant target == Hits.MarksBehind(clamped, Hits.ApplyHitmarks(infiniteHp, lifepoints, marks[j..]))
      {
        Hits.ApplyHitmarksStep(infiniteHp, lifepoints, marks[j..]);
        assert marks[j..][0] == marks[j] && marks[j..][1..] == marks[j + 1..];
        var hp := lifepoints;
        var mark := marks[j];
        if mark.damage > hp {
          mark := mark.(damage := hp);
        }
        if !infiniteHp {
          lifepoints := hp - mark.damage;
        }
        Hits.MarksBehindBehind(clamped, [mark], Hits.ApplyHitmarks(infiniteHp, lifepoints, marks[j + 1..]));
        ConcatAssoc(clamped, [mark], marks[j + 1..]);
        clamped := clamped + [mark];
        if lifepoints <= 0 {
          clamped := clamped + marks[j + 1..];
          fatal := true;
          return;
        }
        j := j + 1;
      }
      assert marks[j..] == [];
      ConcatEmpty(clamped);
    }

    /** One turn of the `hitsCycle` loop on `hit`, the alive pawn's next
        pending hit: `Hits.Turn`. `kept` is what stays pending of it;
        `stop` is the `break@iterator` after a fatal hitmark. */
    method HitTurn(hit: Hit, delays: bool) returns (kept: seq<Hit>, stop: bool)
      modifies this`lifepoints, this`events, blockBuffer`hits, blockBuffer`blocks
      ensures var t := Hits.Turn(delays, infiniteHp, isPlayer, old(lifepoints), hit);
        && lifepoints == t.lifepoints && kept == t.kept && stop == t.stop
        && events == old(events) + t.events
        && blockBuffer.hits == old(blockBuffer.hits) + t.shown
        && blockBuffer.blocks == Hits.Flagged(old(blockBuffer.blocks), t.shown)
    {
      kept := [];
      stop := false;
      if delays {
        kept := [hit.(damageDelay := if hit.damageDelay - 1 < 0 then 0 else hit.damageDelay - 1)];
        return;
      }
      if hit.damageDelay != 0 {
        kept := [hit.(damageDelay := hit.damageDelay - 1)];
        return;
      }
      if !hit.cancelled {
        var marks, fatal := ApplyHitmarks(hit.hitmarks);
        var applied := hit.(damageDelay := -1, hitmarks := marks);
        blockBuffer.hits := blockBuffer.hits + [applied];
        blockBuffer.blocks := blockBuffer.blocks + {HITMARK};
        events := events + [HitActionsRun(applied)];
        if fatal {
          events := events + [if isPlayer then PlayerDeathPlugin else NpcDeathPlugin];
          stop := true;
        }
      }
    }

    /** The iterator loop of `hitsCycle`: `Hits.ProcessHits`. */
    method ProcessPendingHits() returns (ghost r: Hits.HitsOutcome)
      modifies this`lifepoints, this`pendingHits, this`events, blockBuffer`hits, blockBuffer`blocks
      ensures r == Hits.ProcessHits(lock.DelaysDamage(), infiniteHp, isPlayer, old(lifepoints), old(pendingHits))
      ensures && lifepoints == r.lifepoints
        && pendingHits == r.pending
        && events == old(events) + r.events
        && blockBuffer.hits == old(blockBuffer.hits) + r.shown
        && blockBuffer.blocks == Hits.Flagged(old(blockBuffer.blocks), r.shown)
    {
      var hits := pendingHits;
      var delays := lock.DelaysDamage();
      ghost var e0, s0, b0 := events, blockBuffer.hits, blockBuffer.blocks;
      ghost var newEvents: seq<Event> := [];
      ghost var shown: seq<Hit> := [];
      r := Hits.ProcessHits(delays, infiniteHp, isPlayer, lifepoints, hits);
      // What the loop has still to do, from the current lifepoints on.
      ghost var rest := r;
      var kept: seq<Hit> := [];
      var todo := hits;
      var stopped := false;
      Hits.JoinedNothing(r);
      while todo != [] && !stopped && !IsDead()
        invariant pendingHits == kept + todo
        invariant events == e0 + newEvents && blockBuffer.hits == s0 + shown
        invariant blockBuffer.blocks == Hits.Flagged(b0, shown)
        invariant r == Hits.Joined(kept, shown, newEvents, rest)
        invariant rest == Hits.Resume(delays, infiniteHp, isPlayer, stopped, lifepoints, todo)
        decreases |todo|
      {
        var hit := todo[0];
        assert todo == [hit] + todo[1..];
        todo := todo[1..];
        Hits.ProcessHitsTurn(delays, infiniteHp, isPlayer, lifepoints, hit, todo);
        ghost var t := Hits.Turn(delays, infiniteHp, isPlayer, lifepoints, hit);
        ghost var after := Hits.Resume(delays, infiniteHp, isPlayer, t.stop, t.lifepoints, todo);
        assert rest == Hits.Joined(t.kept, t.shown, t.events, after);
        Hits.JoinedJoined(kept, shown, newEvents, t.kept, t.shown, t.events, after);
        var k, stop := HitTurn(hit, delays);
        assert k == t.kept && stop == t.stop && lifepoints == t.lifepoints;
        Hits.FlaggedTwice(b0, shown, t.shown);
        ConcatAssoc(e0, newEvents, t.events);
        ConcatAssoc(s0, shown, t.shown);
        kept := kept + k;
        shown := shown + t.shown;
        newEvents := newEvents + t.events;
        pendingHits := kept + todo;
        stopped := stop;
        rest := after;
      }
      assert rest == Hits.HitsOutcome(lifepoints, todo, [], []);
      Hits.JoinedDone(kept, shown, newEvents, lifepoints, todo);
    }

    /** `hitsCycle`: exactly `Hits.HitsCycle` of the lock state, the
        lifepoints and the pending hits. The block buffer receives every hit
        that was applied, with its hitmarks as they were clamped. */
    method HitsCycle()
      modifies this`lifepoints, this`pendingHits, this`events, blockBuffer`hits, blockBuffer`blocks
      ensures var r := Hits.HitsCycle(lock.DelaysDamage(), infiniteHp, isPlayer, old(lifepoints), old(pendingHits));
        && lifepoints == r.lifepoints
        && pendingHits == r.pending
        && events == old(events) + r.events
        && blockBuffer.hits == old(blockBuffer.hits) + r.shown
        && blockBuffer.blocks == Hits.Flagged(old(blockBuffer.blocks), r.shown)
      ensures IsDead() ==> pendingHits == []
    {
      ghost var r := ProcessPendingHits();
      if IsDead() && pendingHits != [] {
        pendingHits := [];
      }
    }

    // ---------------------------------------------------------------------
    // timerCycle
    // ---------------------------------------------------------------------

    /** The facing part of this pawn's state. */
    function Face(): Facing.FaceState
      reads this, blockBuffer
    {
      Facing.FaceState(facingPawn, blockBuffer.faceDegrees, blockBuffer.facePawnIndex, blockBuffer.blocks)
    }

    /** `timerCycle`, with `rearm` the values fired timer plugins set. The
        timer map becomes `Timers.TimerCycle`; each fired plugin runs exactly
        once, the facing timer resets the facing instead. */
    method TimerCycle(rearm: map<TimerKey, int>)
      modifies this`timers, this`events, this`facingPawn
      modifies blockBuffer`faceDegrees, blockBuffer`facePawnIndex, blockBuffer`blocks
      ensures timers == Timers.TimerCycle(old(timers), rearm)
      ensures |events| >= |old(events)| && events[..|old(events)|] == old(events)
      ensures forall i :: |old(events)| <= i < |events| ==>
                events[i].TimerPlugin? && events[i].key in Timers.FiredPlugins(old(timers))
      ensures forall k :: k in Timers.FiredPlugins(old(timers)) ==> TimerPlugin(k) in events[|old(events)|..]
      ensures forall i, j :: |old(events)| <= i < j < |events| ==> events[i] != events[j]
      ensures Face() == if Timers.ResetFires(old(timers)) then Facing.Reset(old(Face())) else old(Face())
    {
      var t0 := timers;
      ghost var e0 := events;
      ghost var face0 := Face();
      ghost var fired: seq<Event> := [];
      var todo := t0.Keys;
      Timers.PartialStart(t0, rearm);
      Timers.FiredStart(t0);
      while todo != {}
        invariant todo <= t0.Keys && timers == Timers.Partial(t0, todo, rearm)
        invariant events == e0 + fired && Timers.FiredSoFar(t0, todo, fired)
        invariant Face() == if Timers.ResetFires(t0) && RESET_PAWN_FACING_TIMER !in todo then Facing.Reset(face0) else face0
        decreases |todo|
      {
        var key :| key in todo;
        Timers.PartialStep(t0, todo, rearm, key);
        Timers.FiredStep(t0, todo, fired, key);
        TickTimer(key, rearm);
        ConcatAssoc(e0, fired, Timers.VisitEvents(t0, key));
        fired := fired + Timers.VisitEvents(t0, key);
        todo := todo - {key};
      }
      Timers.PartialEnd(t0, rearm);
      assert events[|e0|..] == fired;
    }

    /** One entry of the `timerCycle` iteration: the timer ticks; if it ran
        out its plugin runs, or the facing resets, and it is removed when
        its key asks for it and it was not set again. */
    method TickTimer(key: TimerKey, rearm: map<TimerKey, int>)
      requires key in timers
      modifies this`timers, this`events, this`facingPawn
      modifies blockBuffer`faceDegrees, blockBuffer`facePawnIndex, blockBuffer`blocks
      ensures timers == if Timers.Removed(key, old(timers[key]), rearm) then old(timers) - {key}
                        else old(timers)[key := Timers.AfterTick(key, old(timers[key]), rearm)]
      ensures events == old(events) +
                (if Timers.Fires(key, old(timers[key])) && key != RESET_PAWN_FACING_TIMER then [TimerPlugin(key)] else [])
      ensures Face() == if Timers.Fires(key, old(timers[key])) && key == RESET_PAWN_FACING_TIMER
                        then Facing.Reset(old(Face())) else old(Face())
    {
      var time := timers[key];
      var updatedTime := if key.tickForward then time + 1 else time - 1;
      timers := timers[key := updatedTime];
      if updatedTime <= 0 && !key.tickForward {
        if key == RESET_PAWN_FACING_TIMER {
          ResetFacePawn();
        } else {
          events := events + [TimerPlugin(key)];
          if key in rearm {
            timers := timers[key := rearm[key]];
          }
        }
        if !HasTimer(timers, key) && key.removeOnZero {
          timers := timers - {key};
        }
      }
    }

    // ---------------------------------------------------------------------
    // Facing
    // ---------------------------------------------------------------------

    /** `facePawn`: the target's encoded index is sent, and the block is
        flagged only when that index changes. */
    method FacePawn(target: PawnRef)
      modifies this`facingPawn, blockBuffer`faceDegrees, blockBuffer`facePawnIndex, blockBuffer`blocks
      ensures Face() == Facing.FaceTarget(old(Face()), target)
    {
      blockBuffer.faceDegrees := 0;
      var index := if target.isPlayer then target.index + 32768 else target.index;
      if blockBuffer.facePawnIndex != index {
        blockBuffer.faceDegrees := 0;
        blockBuffer.facePawnIndex := index;
        blockBuffer.blocks := blockBuffer.blocks + {FACE_PAWN};
      }
      facingPawn := Some(target);
    }

    /** `resetFacePawn`: as `facePawn` with no target. */
    method ResetFacePawn()
      modifies this`facingPawn, blockBuffer`faceDegrees, blockBuffer`facePawnIndex, blockBuffer`blocks
      ensures Face() == Facing.Reset(old(Face()))
    {
      blockBuffer.faceDegrees := 0;
      var index := -1;
      if blockBuffer.facePawnIndex != index {
        blockBuffer.faceDegrees := 0;
        blockBuffer.facePawnIndex := index;
        blockBuffer.blocks := blockBuffer.blocks + {FACE_PAWN};
      }
      facingPawn := None;
    }

    /** `faceTile`. `angle` is the truncated `atan2` value a player's
        double arithmetic yields for the offset to `face`. A player's value
        is a 14-bit angle; an npc's packs the tile centre on the map. */
    method FaceTile(face: Tile, angle: int)
      modifies blockBuffer`faceDegrees, blockBuffer`facePawnIndex, blockBuffer`blocks
      ensures blockBuffer.faceDegrees ==
                (if isPlayer then Facing.PlayerFaceDegrees(angle) else Facing.NpcFaceDegrees(face))
      ensures isPlayer ==> blockBuffer.faceDegrees == angle % 16384
      ensures !isPlayer && 0 <= face.x < 16384 && 0 <= face.z < 16384 ==>
                blockBuffer.faceDegrees == (face.x * 2 + 1) * 65536 + (face.z * 2 + 1)
      ensures blockBuffer.facePawnIndex == Facing.NO_FACE_PAWN
      ensures blockBuffer.blocks == old(blockBuffer.blocks) + {FACE_TILE}
    {
      if isPlayer {
        blockBuffer.faceDegrees := Facing.PlayerFaceDegrees(angle);
        Facing.PlayerFaceDegreesIsModulo(angle);
      } else {
        blockBuffer.faceDegrees := Facing.NpcFaceDegrees(face);
        if 0 <= face.x < 16384 && 0 <= face.z < 16384 {
          Facing.NpcFaceDegreesPacks(face);
        }
      }
      blockBuffer.facePawnIndex := -1;
      blockBuffer.blocks := blockBuffer.blocks + {FACE_TILE};
    }

    // ---------------------------------------------------------------------
    // Movement
    // ---------------------------------------------------------------------

    /** `walkPath`: the queue and the client messages are those of
        `Movement.WalkPathQueue` and `Movement.WalkPathWrites`. */
    method WalkPath(path: seq<Tile>, stepType: StepType, detectCollision: bool)
      modifies this`movementQueue, this`outbox
      ensures movementQueue == Movement.WalkPathQueue(tile, timers, old(movementQueue), path, stepType, detectCollision)
      ensures outbox == old(outbox) + Movement.WalkPathWrites(isPlayer, tile, timers, lastKnownRegionBase, path)
    {
      if path == [] {
        if isPlayer {
          outbox := outbox + [SetMapFlag(255, 255)];
        }
        return;
      }
      if HasTimer(timers, FROZEN_TIMER) {
        if isPlayer {
          outbox := outbox + [MagicStopsYouFromMoving];
        }
        return;
      }
      if HasTimer(timers, STUN_TIMER) {
        return;
      }
      movementQueue := [];
      var tail: Option<Tile> := None;
      var head := 1;
      var next: Option<Tile> := Some(path[0]);
      while next.Some?
        invariant 1 <= head <= |path| && outbox == old(outbox)
        invariant next.Some? ==>
                    next.value == path[head - 1] && tail.None? &&
                    movementQueue == Movement.Steps(path[..head - 1], stepType, detectCollision)
        invariant next.None? ==>
                    head == |path| && tail == Some(path[|path| - 1]) &&
                    movementQueue == Movement.Steps(path, stepType, detectCollision)
        decreases |path| - head, if next.Some? then 1 else 0
      {
        assert path[..head][..head - 1] == path[..head - 1];
        movementQueue := movementQueue + [Step(next.value, stepType, detectCollision)];
        var poll: Option<Tile> := None;
        if head < |path| {
          poll := Some(path[head]);
          head := head + 1;
        }
        if poll.None? {
          assert path[..head] == path;
          tail := next;
        }
        next := poll;
      }
      if tail.None? || SameAs(tail.value, tile) {
        if isPlayer {
          outbox := outbox + [SetMapFlag(255, 255)];
        }
        movementQueue := [];
        return;
      }
      if isPlayer && lastKnownRegionBase.Some? {
        outbox := outbox + [SetMapFlag(tail.value.x - lastKnownRegionBase.value.x,
                                       tail.value.z - lastKnownRegionBase.value.z)];
      }
    }

    /** The non-suspending `walkTo`. `multiThread` is the world's
        multi-thread path-finding switch; `route` is what the strategy
        computes for the request when the search runs on this thread. A
        previous future route is cancelled whenever the walk goes ahead. */
    method WalkTo(x: int, z: int, stepType: StepType, detectCollision: bool, multiThread: bool, route: Route)
      modifies this`movementQueue, this`outbox, this`futureRoute, futureRoute
      ensures !Movement.WalkToProceeds(tile, timers, x, z) ==>
                && movementQueue == old(movementQueue)
                && futureRoute == old(futureRoute)
                && (futureRoute != null ==> futureRoute.cancel == old(futureRoute.cancel))
                && outbox == old(outbox) + Movement.WalkToWrites(isPlayer, tile, timers, x, z)
      ensures Movement.WalkToProceeds(tile, timers, x, z) && old(futureRoute) != null ==> old(futureRoute).cancel
      ensures old(futureRoute) != null ==>
                old(futureRoute).completed == old(futureRoute.completed) && old(futureRoute).route == old(futureRoute.route)
      ensures Movement.WalkToProceeds(tile, timers, x, z) && multiThread ==>
                && futureRoute != null && fresh(futureRoute)
                && futureRoute.request == PathRequest(tile, x, z, false, detectCollision)
                && futureRoute.stepType == stepType && futureRoute.detectCollision == detectCollision
                && !futureRoute.cancel && !futureRoute.completed
                && movementQueue == [] && outbox == old(outbox)
      ensures Movement.WalkToProceeds(tile, timers, x, z) && !multiThread ==>
                && futureRoute == old(futureRoute)
                && movementQueue == Movement.WalkPathQueue(tile, timers, old(movementQueue), route.path, stepType, detectCollision)
                && outbox == old(outbox) + Movement.WalkPathWrites(isPlayer, tile, timers, lastKnownRegionBase, route.path)
    {
      if tile.x == x && tile.z == z {
        return;
      }
      if HasTimer(timers, FROZEN_TIMER) {
        if isPlayer {
          outbox := outbox + [MagicStopsYouFromMoving];
        }
        return;
      }
      if HasTimer(timers, STUN_TIMER) {
        return;
      }
      var request := PathRequest(tile, x, z, false, detectCollision);
      if multiThread {
        movementQueue := [];
      }
      if futureRoute != null {
        futureRoute.cancel := true;
      }
      if multiThread {
        futureRoute := new FutureRoute.Of(request, stepType, detectCollision);
      } else {
        WalkPath(route.path, stepType, detectCollision);
      }
    }

    /** `handleFutureRoute`: a completed, uncancelled route is walked and
        dropped; otherwise nothing happens. */
    method HandleFutureRoute()
      modifies this`movementQueue, this`outbox, this`futureRoute
      ensures var fr := old(futureRoute);
        if fr != null && fr.completed && !fr.cancel then
          && futureRoute == null
          && movementQueue == Movement.WalkPathQueue(tile, timers, old(movementQueue), fr.route.path, fr.stepType, fr.detectCollision)
          && outbox == old(outbox) + Movement.WalkPathWrites(isPlayer, tile, timers, lastKnownRegionBase, fr.route.path)
        else
          futureRoute == fr && movementQueue == old(movementQueue) && outbox == old(outbox)
    {
      if futureRoute != null && futureRoute.completed && !futureRoute.cancel {
        var fr := futureRoute;
        WalkPath(fr.route.path, fr.stepType, fr.detectCollision);
        futureRoute := null;
      }
    }

    /** One `movementQueue.cycle()`: the first queued step, if any, is taken. */
    method CycleMovement()
      modifies this`tile, this`movementQueue
      ensures old(movementQueue) == [] ==> tile == old(tile) && movementQueue == []
      ensures old(movementQueue) != [] ==>
                tile == old(movementQueue)[0].tile && movementQueue == old(movementQueue)[1..]
    {
      if movementQueue != [] {
        tile := movementQueue[0].tile;
        movementQueue := movementQueue[1..];
      }
    }

    /** `teleportTo`: the pawn is placed on the tile, its queue dropped, and
        the movement blocks flagged as a teleport. */
    method TeleportTo(x: int, z: int, height: int)
      modifies this`moved, this`tile, this`movementQueue, blockBuffer`teleport, blockBuffer`blocks
      ensures moved && blockBuffer.teleport && tile == Tile(x, z, height) && movementQueue == []
      ensures blockBuffer.blocks == old(blockBuffer.blocks) + {MOVEMENT_TYPE, MOVEMENT}
    {
      moved := true;
      blockBuffer.teleport := true;
      tile := Tile(x, z, height);
      movementQueue := [];
      blockBuffer.blocks := blockBuffer.blocks + {MOVEMENT_TYPE};
      blockBuffer.blocks := blockBuffer.blocks + {MOVEMENT};
    }

    /** `teleportNpc`: as `teleportTo`, but the npc is also marked teleported
        and invisible, and no update block is flagged. */
    method TeleportNpc(x: int, z: int, height: int)
      modifies this`moved, this`teleported, this`invisible, this`tile, this`movementQueue, blockBuffer`teleport
      ensures moved && teleported && invisible && blockBuffer.teleport
      ensures tile == Tile(x, z, height) && movementQueue == []
    {
      moved := true;
      teleported := true;
      invisible := true;
      blockBuffer.teleport := true;
      tile := Tile(x, z, height);
      movementQueue := [];
    }

    /** `moveTo`: a move is sent as a teleport only when the new tile is out
        of the normal view distance of the old one (or on another plane). */
    method MoveTo(x: int, z: int, height: int, normalViewDistance: int)
      modifies this`moved, this`tile, this`movementQueue, blockBuffer`teleport, blockBuffer`blocks
      ensures moved && tile == Tile(x, z, height) && movementQueue == []
      ensures blockBuffer.teleport == !IsWithinRadius(old(tile), x, z, height, normalViewDistance)
      ensures old(tile).height != height ==> blockBuffer.teleport
      ensures (old(tile).height == height && Abs(old(tile).x - x) <= normalViewDistance &&
               Abs(old(tile).z - z) <= normalViewDistance) ==> !blockBuffer.teleport
      ensures blockBuffer.blocks == old(blockBuffer.blocks) + {MOVEMENT_TYPE, MOVEMENT}
    {
      moved := true;
      blockBuffer.teleport := !IsWithinRadius(tile, x, z, height, normalViewDistance);
      tile := Tile(x, z, height);
      movementQueue := [];
      blockBuffer.blocks := blockBuffer.blocks + {MOVEMENT_TYPE};
      blockBuffer.blocks := blockBuffer.blocks + {MOVEMENT};
    }
  }
}
