# rsmod pawn cycle, player pre-synchronization and region rebuild, in Dafny

This project models part of the rsmod game server (Kotlin):

- **The pawn.** Its per-tick hit and timer cycles, its movement entry points (`walkPath`, the non-suspending `walkTo`, `handleFutureRoute`), its facing setters, its teleports, its lock, and `faces`, the test whether another pawn is in front of it.
- **The player pre-synchronization task.** It hands the computed route to the movement queue and steps the queue. When the player nears the edge of the map area its client holds, it recomputes the region base and writes a rebuild message: the normal one outside an instance, the region one inside.
- **The region rebuild message.** Its hand-written `equals` and `hashCode`, and the encoder that extracts its values and byte fields.
- **The instanced-map configuration builder.**

How the pieces are modelled:

- The pawn is a `class` (`Pawns.Pawn`) whose methods change the fields the Kotlin methods change. Each method's postcondition ties the new state to a function of the old one:
  - `Hits.HitsCycle` for `hitsCycle`;
  - `Timers.TimerCycle` for `timerCycle`;
  - `Facing.Reset` and `Facing.FaceTarget` for the facing setters;
  - `Movement.WalkPathQueue` and `Movement.WalkPathWrites` for `walkPath`.
- Lemmas prove what the source promises about each of these functions.
- The pre-synchronization task is a method taking the pawn (`PlayerPreSync.Run`) specified by the function `PlayerPreSync.Rebuild`. The loop that collects one key set per region and the loop that fills the player hint array are methods with loops, proved against `FirstSeen`/`KeysOf` and `Hints`.
- The builder is a class (`InstancedMaps.Builder`).
- The message, its equality, its hash and the encoder are values and functions. The encoder's writers are methods with loops proved against field-list functions.
- Kotlin `Int` arithmetic (shifts, masks, 32-bit wrap-around, truncating division) is written out in `Common`.

Collaborators outside this model are parameters:

- world lookups, pawn attributes, plugins, the xtea key service, the instance allocator, tile packing and the path finder (`PlayerPreSync.Context`, `rearm`, `route`, `angle`, `distance`);
- the packet builder's `readableBytes`.

## Model

| member | source | states |
|---|---|---|
| Pawns.Pawn.constructor | game/src/main/kotlin/gg/rsmod/game/model/entity/Pawn.kt:81-150 | a new pawn faces SOUTH, is unlocked, not moved, teleported or invisible, has no pending hits, timers, queued steps, route, facing target, events, messages or region base, a map size of 0 and no forced map refresh |
| Pawns.FutureRoute.Of | game/src/main/kotlin/gg/rsmod/game/model/entity/Pawn.kt:475 | a route request that is started is neither cancelled nor completed, and carries the request, the step type and the collision flag |
| Pawns.Pawn.Lock | game/src/main/kotlin/gg/rsmod/game/model/entity/Pawn.kt:182-184 | the lock state becomes FULL, and the pawn is locked |
| Pawns.Pawn.Unlock | game/src/main/kotlin/gg/rsmod/game/model/entity/Pawn.kt:189-191 | the lock state becomes NONE, and the pawn is not locked |
| Pawns.Pawn.IsLocked | game/src/main/kotlin/gg/rsmod/game/model/entity/Pawn.kt:196 | every lock state that delays damage, and FULL, counts as locked; only NONE does not |
| Pawns.Pawn.IsDead | game/src/main/kotlin/gg/rsmod/game/model/entity/Pawn.kt:161 | a pawn is dead exactly when its lifepoints are 0; `Pawns.Pawn.HitsCycle` shows a pawn dead after the cycle holds no pending hits |
| Pawns.Pawn.ApplyHitmarks | game/src/main/kotlin/gg/rsmod/game/model/entity/Pawn.kt:325-351 | the hitmark loop of one due hit: each mark is clamped to the lifepoints left, subtracted unless health is infinite, and the loop stops at the first mark that kills |
| Pawns.Pawn.HitTurn | game/src/main/kotlin/gg/rsmod/game/model/entity/Pawn.kt:313-355 | one iteration over a pending hit does exactly what `Hits.Turn` prescribes to the lifepoints, block buffer and callbacks |
| Pawns.Pawn.ProcessPendingHits | game/src/main/kotlin/gg/rsmod/game/model/entity/Pawn.kt:308-356 | the iterator loop leaves the lifepoints, pending hits, shown hits, flagged blocks and callbacks of `Hits.ProcessHits` |
| Pawns.Pawn.HitsCycle | game/src/main/kotlin/gg/rsmod/game/model/entity/Pawn.kt:307-360 | `hitsCycle` is `Hits.HitsCycle` of the lock state; a pawn dead afterwards holds no pending hits |
| Pawns.Pawn.TimerCycle | game/src/main/kotlin/gg/rsmod/game/model/entity/Pawn.kt:282-302 | the timers become `Timers.TimerCycle` of the old map; each fired timer's plugin runs once, and only those run; the facing is reset exactly when the facing timer runs out |
| Pawns.Pawn.TickTimer | game/src/main/kotlin/gg/rsmod/game/model/entity/Pawn.kt:286-300 | one entry of the timer iteration: the timer ticks, its plugin or the facing reset runs when it fires, and it is removed when it runs out and its key asks for it |
| Pawns.Pawn.FacePawn | game/src/main/kotlin/gg/rsmod/game/model/entity/Pawn.kt:646-657 | the facing becomes `Facing.FaceTarget` of the old facing |
| Pawns.Pawn.ResetFacePawn | game/src/main/kotlin/gg/rsmod/game/model/entity/Pawn.kt:659-670 | the facing becomes `Facing.Reset` of the old facing |
| Pawns.Pawn.FaceTile | game/src/main/kotlin/gg/rsmod/game/model/entity/Pawn.kt:621-644 | a player's face value is the angle modulo 16384; an npc's packs the doubled-plus-one tile coordinates into the high and low half-words; FACE_TILE is flagged, and the face-pawn index is cleared |
| Pawns.Pawn.WalkPath | game/src/main/kotlin/gg/rsmod/game/model/entity/Pawn.kt:377-427 | the queue and the client messages become `Movement.WalkPathQueue` and `Movement.WalkPathWrites` of the old state and the path |
| Pawns.Pawn.WalkTo | game/src/main/kotlin/gg/rsmod/game/model/entity/Pawn.kt:429-480 | on the same tile, or when frozen or stunned, nothing changes except a frozen player being told so. Otherwise the old route is cancelled, its completion flag and route left as they were: with multi-threading a fresh route request is stored; without it the route found is walked at once |
| Pawns.Pawn.HandleFutureRoute | game/src/main/kotlin/gg/rsmod/game/model/entity/Pawn.kt:365-375 | a completed, uncancelled route is walked and dropped; any other route is kept and nothing else changes |
| Pawns.Pawn.CycleMovement | game/src/main/kotlin/gg/rsmod/game/sync/task/PlayerPreSynchronizationTask.kt:19 | one movement-queue cycle takes the first queued step, if there is one |
| Pawns.Pawn.TeleportTo | game/src/main/kotlin/gg/rsmod/game/model/entity/Pawn.kt:522-533 | the pawn is placed on the tile with its queue dropped, the teleport flag set and the movement blocks flagged |
| Pawns.Pawn.TeleportNpc | game/src/main/kotlin/gg/rsmod/game/model/entity/Pawn.kt:539-550 | the npc is placed on the tile with its queue dropped and the teleport flag set, and is marked moved, teleported and invisible; no update block is flagged |
| Pawns.Pawn.MoveTo | game/src/main/kotlin/gg/rsmod/game/model/entity/Pawn.kt:556-567 | the move counts as a teleport exactly when the new tile is out of view distance or on another plane |
| Hits.ApplyHitmarks | game/src/main/kotlin/gg/rsmod/game/model/entity/Pawn.kt:325-351 | the hitmark loop of one due hit on values; `Hits.ApplyHitmarksBounds` and `Hits.ApplyHitmarksClamps` state what it yields |
| Hits.Turn | game/src/main/kotlin/gg/rsmod/game/model/entity/Pawn.kt:313-355 | one iteration over a pending hit: held under a delaying lock, counted down while not due, dropped when cancelled, otherwise applied and shown, stopping the loop with the death plugin when fatal; the cycle lemmas below state its effect |
| Hits.ProcessHits | game/src/main/kotlin/gg/rsmod/game/model/entity/Pawn.kt:308-356 | the iterator loop on values, which stops once lifepoints are 0 or a hit is fatal; `Hits.SurvivingCycle`, `Hits.FatalProcess` and `Hits.DelayedHitsAreHeld` state its outcomes |
| Hits.HitsCycle | game/src/main/kotlin/gg/rsmod/game/model/entity/Pawn.kt:307-360 | `hitsCycle` on values: processing, then dropping the pending hits of a pawn at 0 lifepoints; `Hits.DeadPawnProcessesNothing`, `Hits.SurvivingCycle`, `Hits.FatalCycle` and `Hits.FatalMarkKills` state its outcomes |
| Hits.ApplyHitmarksBounds | game/src/main/kotlin/gg/rsmod/game/model/entity/Pawn.kt:325-351 | every hitmark keeps its kind and its damage never grows; a fatal outcome leaves lifepoints at or below 0 (exactly 0 from non-negative lifepoints without infinite health), a non-fatal one from positive lifepoints leaves them positive; with infinite health nothing is fatal and lifepoints stay; without it a survived hit costs exactly the damage of the marks returned |
| Hits.ApplyHitmarksClamps | game/src/main/kotlin/gg/rsmod/game/model/entity/Pawn.kt:325-351 | each mark, in order, gets the damage clamped to the lifepoints left after the marks before it; with a survived hit every mark is clamped and the lifepoints are what the clamped marks leave; with a fatal one the loop stops at the first mark that leaves lifepoints at 0 or below, every earlier mark left them positive, and the marks after it are returned untouched |
| Hits.Flagged | game/src/main/kotlin/gg/rsmod/game/model/entity/Pawn.kt:322-323 | HITMARK is flagged exactly when it was flagged before or some hit was shown; no other block changes |
| Hits.FlaggedTwice | game/src/main/kotlin/gg/rsmod/game/model/entity/Pawn.kt:322-323 | flagging the hits shown in two batches is the same as flagging them all at once |
| Hits.DelayedHitsAreHeld | game/src/main/kotlin/gg/rsmod/game/model/entity/Pawn.kt:315-318 | while the lock delays damage, nothing is applied, shown or removed; every hit stays pending with its delay lowered by one, down to 0 at the least |
| Hits.DeadPawnProcessesNothing | game/src/main/kotlin/gg/rsmod/game/model/entity/Pawn.kt:307-360 | a pawn already dead when the cycle starts processes nothing and ends with no pending hits |
| Hits.SurvivingCycle | game/src/main/kotlin/gg/rsmod/game/model/entity/Pawn.kt:308-360 | when damage is not delayed and the pawn survives: exactly the due, uncancelled hits are shown, in order, each hit's marks clamped in turn from the lifepoints the hits before it left; lifepoints fall by the damage shown; the hits not due stay pending, counted down, in order; the shown hits' actions are the only callbacks |
| Hits.SurvivingPending | game/src/main/kotlin/gg/rsmod/game/model/entity/Pawn.kt:315-354 | in a cycle the pawn survives, the hits left pending are the ones not due, counted down, in order |
| Hits.SurvivingShown | game/src/main/kotlin/gg/rsmod/game/model/entity/Pawn.kt:320-351 | in a cycle the pawn survives, the hits shown are the due, uncancelled ones in order, each with its id and cancel flag kept and its marks clamped in turn, starting from the lifepoints left after the hits shown before it; the shown hits' actions are the only callbacks |
| Hits.SurvivingDamage | game/src/main/kotlin/gg/rsmod/game/model/entity/Pawn.kt:325-336 | in a cycle the pawn survives, lifepoints fall by exactly the damage shown |
| Hits.FatalCycle | game/src/main/kotlin/gg/rsmod/game/model/entity/Pawn.kt:341-360 | when a hit brings the lifepoints to zero, the fatal hit is shown last; its actions run and then exactly one death plugin; no hit is left pending |
| Hits.FatalProcess | game/src/main/kotlin/gg/rsmod/game/model/entity/Pawn.kt:341-350 | the loop ends at the fatal hit: the events end with that hit's actions and the player or npc death plugin, and exactly one death plugin runs |
| Hits.FatalMarkKills | game/src/main/kotlin/gg/rsmod/game/model/entity/Pawn.kt:313-360 | without delay or infinite health, when the first due, uncancelled hit opens with a mark at least the lifepoints left: that hit alone is shown, its first mark cut to the lifepoints, its later marks untouched; lifepoints become 0, nothing stays pending, and its actions run, then exactly one death plugin |
| Hits.LifepointsStayNonNegative | game/src/main/kotlin/gg/rsmod/game/model/entity/Pawn.kt:325-336 | damage never drives lifepoints below zero, and with infinite health they do not change |
| Timers.TimerCycle | game/src/main/kotlin/gg/rsmod/game/model/entity/Pawn.kt:282-302 | the cycle never adds a timer |
| Timers.TimerCycleKeys | game/src/main/kotlin/gg/rsmod/game/model/entity/Pawn.kt:289-299 | a count-up timer stays and goes up by one; a count-down timer above 1 stays and goes down by one; a timer that runs out and is not set again (the facing timer never is) is removed exactly when its key asks for removal, and otherwise keeps its ticked value; one its plugin sets again takes that value, and is removed only when its key asks for removal and the value is 0 or below |
| Facing.FacePawnIndex | game/src/main/kotlin/gg/rsmod/game/model/entity/Pawn.kt:649 | the index sent for a face target: players offset by 32768; `Facing.FacePawnIndexRoundTrip` and `Facing.FacePawnIndexInjective` state that it decodes back and is injective |
| Facing.NpcFaceDegrees | game/src/main/kotlin/gg/rsmod/game/model/entity/Pawn.kt:637-639 | the npc face value in 32-bit arithmetic; `Facing.NpcFaceDegreesPacks` states its layout |
| Facing.PlayerFaceDegrees | game/src/main/kotlin/gg/rsmod/game/model/entity/Pawn.kt:635 | the player face value, the angle masked to 14 bits; `Facing.PlayerFaceDegreesIsModulo` states it is the angle modulo a full turn |
| Facing.Reset | game/src/main/kotlin/gg/rsmod/game/model/entity/Pawn.kt:659-670 | no target, index -1, degrees 0; FACE_PAWN is flagged only if a target was set before; no other block changes |
| Facing.FaceTarget | game/src/main/kotlin/gg/rsmod/game/model/entity/Pawn.kt:646-657 | the target is stored and its encoded index sent; FACE_PAWN is flagged only when the index changes; no other block changes |
| Facing.FacingIdempotent | game/src/main/kotlin/gg/rsmod/game/model/entity/Pawn.kt:646-670 | facing the same target, or resetting, a second time changes nothing |
| Facing.FaceTargetDecodes | game/src/main/kotlin/gg/rsmod/game/model/entity/Pawn.kt:646-670 | the client decodes the sent index back to the target, and a reset after facing always flags FACE_PAWN |
| Facing.DecodeFacePawnIndex | game/src/main/kotlin/gg/rsmod/game/model/entity/Pawn.kt:649 | the decoder is a right inverse of the player-offset encoding |
| Facing.FacePawnIndexRoundTrip | game/src/main/kotlin/gg/rsmod/game/model/entity/Pawn.kt:649 | for indices below 32768 the encoding never equals -1 and decodes back to the target |
| Facing.FacePawnIndexInjective | game/src/main/kotlin/gg/rsmod/game/model/entity/Pawn.kt:649 | distinct targets get distinct indices |
| Facing.NpcFaceDegreesPacks | game/src/main/kotlin/gg/rsmod/game/model/entity/Pawn.kt:637-639 | on map coordinates, the npc face value is (2x+1)·65536 + (2z+1) in 32-bit arithmetic, and both tile coordinates can be read back |
| Facing.PlayerFaceDegreesIsModulo | game/src/main/kotlin/gg/rsmod/game/model/entity/Pawn.kt:635 | masking with 0x3fff reduces the angle modulo 16384, a full turn |
| Facing.Faces | game/src/main/kotlin/gg/rsmod/game/model/entity/Pawn.kt:787-817 | `faces` on values, with the distance a parameter; `Facing.FacesIsHalfPlane` and `Facing.FacesFrontOrBack` state what it decides |
| Facing.FacesIsHalfPlane | game/src/main/kotlin/gg/rsmod/game/model/entity/Pawn.kt:787-817 | a pawn faces another exactly when both are on the same plane and either share a tile, or the other is in range and in the closed half-plane ahead of the facing direction |
| Facing.FacesFrontOrBack | game/src/main/kotlin/gg/rsmod/game/model/entity/Pawn.kt:787-817 | of two opposite directions, one always faces a pawn in range on the same plane |
| Movement.WalkPathQueue | game/src/main/kotlin/gg/rsmod/game/model/entity/Pawn.kt:382-422 | the movement queue `walkPath` leaves; `Movement.WalkPathReplacesQueue` states it |
| Movement.WalkPathWrites | game/src/main/kotlin/gg/rsmod/game/model/entity/Pawn.kt:382-427 | the client messages `walkPath` writes; `Movement.WalkPathMapFlag` states them |
| Movement.WalkPathMapFlag | game/src/main/kotlin/gg/rsmod/game/model/entity/Pawn.kt:382-427 | a player gets at most one message and an npc none; an empty path or a walk ending where the pawn stands clears the map flag, a frozen player is told so, and otherwise, with a region base known, the flag added to the base gives the path's tail |
| Movement.WalkToProceeds | game/src/main/kotlin/gg/rsmod/game/model/entity/Pawn.kt:444-457 | `walkTo` goes on exactly when the target's x or z differs from the pawn's tile and the pawn is neither frozen nor stunned; `Pawns.Pawn.WalkTo` states both outcomes |
| Movement.StepsFollowPath | game/src/main/kotlin/gg/rsmod/game/model/entity/Pawn.kt:400-410 | one step is queued per path tile, in path order, with the given step type and collision flag |
| Movement.WalkPathReplacesQueue | game/src/main/kotlin/gg/rsmod/game/model/entity/Pawn.kt:382-422 | an empty path, or a frozen or stunned pawn, leaves the queue as it was; otherwise the path replaces the queue with its steps, or empties it when the path ends where the pawn stands |
| PlayerPreSync.ShouldRebuildRegion | game/src/main/kotlin/gg/rsmod/game/sync/task/PlayerPreSynchronizationTask.kt:84-90 | the view-margin test on the offset from the stored base; `PlayerPreSync.RebuiltBaseHolds` states that a fresh base passes it |
| PlayerPreSync.RegionBase | game/src/main/kotlin/gg/rsmod/game/sync/task/PlayerPreSynchronizationTask.kt:25-28 | the region base computed from the tile; `PlayerPreSync.RegionBaseOffset` states where it lies |
| PlayerPreSync.RegionBaseOffset | game/src/main/kotlin/gg/rsmod/game/sync/task/PlayerPreSynchronizationTask.kt:25-28 | on map coordinates, the base lies 8·(MAX_VIEWPORT/16) tiles before the start of the tile's chunk, on the tile's plane |
| PlayerPreSync.RebuiltBaseHolds | game/src/main/kotlin/gg/rsmod/game/sync/task/PlayerPreSynchronizationTask.kt:84-90 | under view margins of d tiles, a player at most d tiles from where a base was computed needs no rebuild |
| PlayerPreSync.ChunkRegion | game/src/main/kotlin/gg/rsmod/game/sync/task/PlayerPreSynchronizationTask.kt:48-50 | the region of a copied-chunk reference; `PlayerPreSync.ChunkRegionDecodes` states its layout |
| PlayerPreSync.ChunkRegionDecodes | game/src/main/kotlin/gg/rsmod/game/sync/task/PlayerPreSynchronizationTask.kt:48-50 | a packed copied-chunk reference decodes to the region holding its chunk; the region's x is in the high eight bits and its z in the low eight |
| PlayerPreSync.ChunkRegionsComplete | game/src/main/kotlin/gg/rsmod/game/sync/task/PlayerPreSynchronizationTask.kt:44-50 | the region of every non-empty chunk slot is among the regions collected |
| PlayerPreSync.ChunkRegionsSound | game/src/main/kotlin/gg/rsmod/game/sync/task/PlayerPreSynchronizationTask.kt:44-50 | every region collected is the region of some non-empty chunk slot |
| PlayerPreSync.FirstSeenDistinct | game/src/main/kotlin/gg/rsmod/game/sync/task/PlayerPreSynchronizationTask.kt:43-55 | the regions keyed are exactly the regions of the chunks, each once |
| PlayerPreSync.FirstSeenOrder | game/src/main/kotlin/gg/rsmod/game/sync/task/PlayerPreSynchronizationTask.kt:43-55 | regions are keyed in order of their first occurrence among the chunks |
| PlayerPreSync.XteasCoverChunks | game/src/main/kotlin/gg/rsmod/game/sync/task/PlayerPreSynchronizationTask.kt:43-55 | there is one key set per listed region; every non-empty chunk slot's region is listed, each region once and only if some chunk lies in it, and its set is the key service's keys for it |
| PlayerPreSync.CollectXteas | game/src/main/kotlin/gg/rsmod/game/sync/task/PlayerPreSynchronizationTask.kt:39-55 | the loop skips empty slots and collects, for each distinct region in order of first appearance, its key set |
| PlayerPreSync.Hints | game/src/main/kotlin/gg/rsmod/game/sync/task/PlayerPreSynchronizationTask.kt:57-60 | a built hint array has 2047 slots |
| PlayerPreSync.HintsSlots | game/src/main/kotlin/gg/rsmod/game/sync/task/PlayerPreSynchronizationTask.kt:57-60 | the array is built exactly when every player index fits; each player's slot holds its hint (the last written, for a shared index); every other slot holds 0 |
| PlayerPreSync.HintsFailurePersists | game/src/main/kotlin/gg/rsmod/game/sync/task/PlayerPreSynchronizationTask.kt:57-60 | once the fill has thrown on some prefix of the players, the later players change nothing |
| PlayerPreSync.HintsFailureMessage | game/src/main/kotlin/gg/rsmod/game/sync/task/PlayerPreSynchronizationTask.kt:57-60 | a failed fill fails with the out-of-bounds error for length 2047 naming the index of the first player that does not fit |
| PlayerPreSync.FirstMisfit | game/src/main/kotlin/gg/rsmod/game/sync/task/PlayerPreSynchronizationTask.kt:57-60 | the position of a player whose index does not fit, every player before it fitting |
| Common.IntToDecimalRoundTrip | game/src/main/kotlin/gg/rsmod/game/sync/task/PlayerPreSynchronizationTask.kt:59 | the decimal text of an index in the error message is a sign and digits that read back as the index |
| PlayerPreSync.PlayerRegions | game/src/main/kotlin/gg/rsmod/game/sync/task/PlayerPreSynchronizationTask.kt:57-60 | the array-filling loop yields exactly `Hints` of the players, throwing on the first index that does not fit |
| PlayerPreSync.Rebuild | game/src/main/kotlin/gg/rsmod/game/sync/task/PlayerPreSynchronizationTask.kt:21-81 | the region half of the pre-synchronization task on values; `PlayerPreSync.RebuildCases` states its outcomes |
| PlayerPreSync.RebuildCases | game/src/main/kotlin/gg/rsmod/game/sync/task/PlayerPreSynchronizationTask.kt:21-81 | without the need for a rebuild nothing is stored or written. Otherwise the fresh base is stored, and either the normal message is written or the region message is: chunk offsets of the tile, force-reload 1, the map size, the chunks, the player index, one key set per distinct region, the 30-bit tile and the hint array of `Hints` (2047 slots). An index overflow writes nothing and fails naming the first index that does not fit. At most one message is written, and one exactly on `Success(true)` |
| PlayerPreSync.RebuildIfNeeded | game/src/main/kotlin/gg/rsmod/game/sync/task/PlayerPreSynchronizationTask.kt:21-81 | the stored base, the messages written and the result are those of `Rebuild` on the pawn's state |
| PlayerPreSync.Run | game/src/main/kotlin/gg/rsmod/game/sync/task/PlayerPreSynchronizationTask.kt:17-82 | the route is walked and dropped if complete, the queue takes one step, and then the region half runs on the tile after the step; the route messages come before the rebuild message |
| RebuildRegionEncoder.Extract | game/src/main/kotlin/gg/rsmod/game/message/encoder/RebuildRegionEncoder.kt:13-20 | succeeds exactly on the five value keys; any other key fails with "Unhandled value key." |
| RebuildRegionEncoder.ExtractDeterminesHeader | game/src/main/kotlin/gg/rsmod/game/message/encoder/RebuildRegionEncoder.kt:13-20 | the extracted values determine chunk x, chunk z, map size and force-reload; the unknown byte is always 3 |
| RebuildRegionEncoder.PutPlayerRegions | game/src/main/kotlin/gg/rsmod/game/message/encoder/RebuildRegionEncoder.kt:23-36 | the writer loop puts exactly `PlayerRegionsFields` |
| RebuildRegionEncoder.OtherRegionsLayout | game/src/main/kotlin/gg/rsmod/game/message/encoder/RebuildRegionEncoder.kt:28-32 | every slot but the player's own is written once, as 18 bits, in slot order |
| RebuildRegionEncoder.PlayerRegionsFieldsLayout | game/src/main/kotlin/gg/rsmod/game/message/encoder/RebuildRegionEncoder.kt:25-34 | nothing is written unless the hints, the tile and the index are all present; otherwise the 30-bit tile comes first, then the other slots |
| RebuildRegionEncoder.PutChunks | game/src/main/kotlin/gg/rsmod/game/message/encoder/RebuildRegionEncoder.kt:37-46 | the writer loop puts exactly `ChunkFields` |
| RebuildRegionEncoder.ChunkFieldsCount | game/src/main/kotlin/gg/rsmod/game/message/encoder/RebuildRegionEncoder.kt:40-45 | each slot is two fields, 27 bits in all |
| RebuildRegionEncoder.ChunkFieldAt | game/src/main/kotlin/gg/rsmod/game/message/encoder/RebuildRegionEncoder.kt:40-45 | slot i is the flag 1 at field 2i and its value in 26 bits at field 2i+1 |
| RebuildRegionEncoder.ChunksAsWrittenReadBack | game/src/main/kotlin/gg/rsmod/game/message/encoder/RebuildRegionEncoder.kt:40-45 | as written, the client reads every slot back as its low 26 bits, an empty slot included |
| RebuildRegionEncoder.ChunkFlagAlwaysSet | game/src/main/kotlin/gg/rsmod/game/message/encoder/RebuildRegionEncoder.kt:41 | a block holding an empty slot (-1) does not read back as itself |
| RebuildRegionEncoder.ChunkFieldsIntendedRoundTrip | game/src/main/kotlin/gg/rsmod/game/message/encoder/RebuildRegionEncoder.kt:87-90 | with the flag set from the slot, every valid block reads back exactly |
| RebuildRegionEncoder.PutXteas | game/src/main/kotlin/gg/rsmod/game/message/encoder/RebuildRegionEncoder.kt:52-56 | the nested writer loops put exactly `XteaFields` |
| RebuildRegionEncoder.XteaFieldsCount | game/src/main/kotlin/gg/rsmod/game/message/encoder/RebuildRegionEncoder.kt:52-56 | every key is written once, as 32 bits |
| RebuildRegionEncoder.XteaFieldAt | game/src/main/kotlin/gg/rsmod/game/message/encoder/RebuildRegionEncoder.kt:52-56 | key j of set i comes right after the keys of the sets before it |
| RebuildRegionEncoder.Bytes | game/src/main/kotlin/gg/rsmod/game/message/encoder/RebuildRegionEncoder.kt:22-60 | succeeds exactly on the three byte keys, with "Unhandled value key." otherwise; every byte returned is 0; the xteas array has four bytes per key |
| RebuildRegionEncoder.ExtractBytes | game/src/main/kotlin/gg/rsmod/game/message/encoder/RebuildRegionEncoder.kt:22-60 | the method returns exactly `Bytes`: a fresh zero-filled array of the written length |
| RebuildRegionEncoder.BytesIgnoreContents | game/src/main/kotlin/gg/rsmod/game/message/encoder/RebuildRegionEncoder.kt:49-58 | two messages with different keys get the same xteas bytes |
| RebuildRegionEncoder.ValueOfBitsOf | game/src/main/kotlin/gg/rsmod/game/message/encoder/RebuildRegionEncoder.kt:26-45 | the bits of a field spell its low `width` bits |
| RebuildRegionEncoder.UnpackPack | game/src/main/kotlin/gg/rsmod/game/message/encoder/RebuildRegionEncoder.kt:33-35 | unpacking the packed bytes gives back the bits, then the padding |
| RebuildRegionEncoder.ReadFieldBits | game/src/main/kotlin/gg/rsmod/game/message/encoder/RebuildRegionEncoder.kt:26-35 | reading fields of the written widths off the written bits, whatever follows, gives the fields as they travel |
| RebuildRegionEncoder.IntendedBytes | game/src/main/kotlin/gg/rsmod/game/message/encoder/RebuildRegionEncoder.kt:22-60 | the written bytes: success exactly on the byte keys, with the unhandled-key error otherwise |
| RebuildRegionEncoder.IntendedBytesRoundTrip | game/src/main/kotlin/gg/rsmod/game/message/encoder/RebuildRegionEncoder.kt:22-59 | the written bytes are as many as the bits need, and reading the fields off them gives back every field written |
| RebuildRegionEncoder.IntendedChunksRecovered | game/src/main/kotlin/gg/rsmod/game/message/encoder/RebuildRegionEncoder.kt:37-48 | end to end, a valid chunk block sent as bytes is recovered by the client |
| RebuildRegionMessages.Equals | game/src/main/kotlin/gg/rsmod/game/message/impl/RebuildRegionMessage.kt:24-44 | the same object is equal; a non-message is not; another message object is equal exactly when it holds the same message value |
| RebuildRegionMessages.FieldsEqualIsValueEquality | game/src/main/kotlin/gg/rsmod/game/message/impl/RebuildRegionMessage.kt:28-43 | the field comparisons amount to equality of the message's contents |
| RebuildRegionMessages.EqualsIffSameContents | game/src/main/kotlin/gg/rsmod/game/message/impl/RebuildRegionMessage.kt:24-44 | two message objects are equal exactly when they hold the same contents |
| RebuildRegionMessages.EqualsReflexive | game/src/main/kotlin/gg/rsmod/game/message/impl/RebuildRegionMessage.kt:24-44 | a distinct object holding the same contents is equal |
| RebuildRegionMessages.EqualsSymmetric | game/src/main/kotlin/gg/rsmod/game/message/impl/RebuildRegionMessage.kt:24-44 | equality is symmetric |
| RebuildRegionMessages.EqualsTransitive | game/src/main/kotlin/gg/rsmod/game/message/impl/RebuildRegionMessage.kt:24-44 | equality is transitive |
| RebuildRegionMessages.HashCodeAsWritten | game/src/main/kotlin/gg/rsmod/game/message/impl/RebuildRegionMessage.kt:46-57 | `hashCode` as written, with the chunks array's identity hash a parameter: a 32-bit value |
| RebuildRegionMessages.HashCode | game/src/main/kotlin/gg/rsmod/game/message/impl/RebuildRegionMessage.kt:46-57 | `hashCode` with the chunks hashed by content: a 32-bit value; `RebuildRegionMessages.HashCodeAgreesWithEquals` states it agrees with `equals` |
| RebuildRegionMessages.HashCodeAsWrittenBreaksEquals | game/src/main/kotlin/gg/rsmod/game/message/impl/RebuildRegionMessage.kt:51 | as written, two equal messages whose chunk arrays are distinct objects can hash differently |
| RebuildRegionMessages.HashCodeAgreesWithEquals | game/src/main/kotlin/gg/rsmod/game/message/impl/RebuildRegionMessage.kt:46-57 | with chunks hashed by content, equal messages hash equally |
| RebuildRegionMessages.HashCodeNullContributesZero | game/src/main/kotlin/gg/rsmod/game/message/impl/RebuildRegionMessage.kt:53 | a null player index contributes 0, like an index of 0 |
| InstancedMaps.Builder.constructor | game/src/main/kotlin/gg/rsmod/game/model/instance/InstancedMapConfiguration.kt:43-51 | a new builder has no exit tile, no owner, no attributes, no npcs, and bypass off |
| InstancedMaps.Builder.Build | game/src/main/kotlin/gg/rsmod/game/model/instance/InstancedMapConfiguration.kt:53-66 | fails with the exit-tile message when none is set, and with the owner message when an owner-requiring attribute is set without an owner; succeeds exactly otherwise, carrying every builder field |
| InstancedMaps.Builder.SetExitTile | game/src/main/kotlin/gg/rsmod/game/model/instance/InstancedMapConfiguration.kt:68-71 | only the exit tile changes; the builder itself is returned |
| InstancedMaps.Builder.SetOwner | game/src/main/kotlin/gg/rsmod/game/model/instance/InstancedMapConfiguration.kt:73-76 | only the owner changes; the builder itself is returned |
| InstancedMaps.Builder.AddAttribute | game/src/main/kotlin/gg/rsmod/game/model/instance/InstancedMapConfiguration.kt:78-85 | the attribute and all the others are added to the set, and nothing else changes |
| InstancedMaps.Builder.AddNpc | game/src/main/kotlin/gg/rsmod/game/model/instance/InstancedMapConfiguration.kt:92-94 | the npc is appended to the list |
| InstancedMaps.Builder.AddNpcAt | game/src/main/kotlin/gg/rsmod/game/model/instance/InstancedMapConfiguration.kt:96-104 | an npc with the id on the given relative tile is appended |
| InstancedMaps.Builder.SetBypassObjectChunkBounds | game/src/main/kotlin/gg/rsmod/game/model/instance/InstancedMapConfiguration.kt:109-112 | only the bypass flag changes; the builder itself is returned |
| InstancedMaps.OwnerRequiredForLogout | game/src/main/kotlin/gg/rsmod/game/model/instance/InstancedMapConfiguration.kt:53-66 | an exit tile with deallocate-on-logout fails to build until an owner is set, and then succeeds |
| InstancedMaps.AddAttributeTwice | game/src/main/kotlin/gg/rsmod/game/model/instance/InstancedMapConfiguration.kt:78-85 | adding the same attributes twice leaves the set as after adding them once |

## Left out

- Printing "Sending 128" before the region message is left out; it is console output.
- The atan2 of `faceTile` for players is left out. It is on doubles, so the truncated angle is a parameter.
- `getFrontFacingTile`, `animate`, graphics and chat are left out. They are not among the operations modelled.
- The distance `faces` compares is a parameter. `Tile.getDistance` is not part of this model.
- Path finding is left out; the route found is a parameter of `WalkTo`.
- Pawns.Pawn.WalkPath: the source drains the caller's path queue in place with `path.poll()` (Pawn.kt:400-410, `Queue<Tile>`); the model takes the path as a sequence value, so the caller's queue being left empty is not modelled.
- The suspending `walkTo` and the queue and coroutine machinery are left out. They suspend on the world's scheduler.
- The worker thread that completes a `FutureRoute` is modelled only as the method `Pawns.FutureRoute.Complete`. FutureRoute.kt is not part of this model.
- Timer plugins are left out. `rearm` holds the value each fired plugin sets its own timer to; plugins that change other pawn state are not modelled.
- The world's player list, the xtea key service, the instance allocator and tile packing are parameters (`PlayerPreSync.Context`). So are `as30BitInteger`, `asTileHashMultiplier`, `chunkOffsetX/Z`, `Chunk.MAX_VIEWPORT` and `Player.NORMAL_VIEW_DISTANCE`.
- The packet builder's internals are left out. The byte count it reports for the bits written is the parameter `readableBytes`; its bit-to-byte packing is modelled, as the model would have it, only in the intended-bytes half of the findings.
- RebuildRegionEncoder.Bytes: does not model the capacity of the `Unpooled` buffer, since only its readable length reaches the result.
- The commented-out `data` writer is not modelled as an operation. Only its flag rule is used, as the corrected chunk writer.
- RebuildRegionMessages.HashCodeAsWritten takes the identity hash of the chunks array as a parameter, because object identity is outside the model.
- `LockState`, `TimerMap`, `Tile`, `MovementQueue`, `UpdateBlockBuffer` and `InstancedMapAttribute` are modelled only as far as the core uses them; their files are not part of this model. Attributes other than the two deallocating ones are `OtherAttribute(ordinal)`.
- InstancedMaps.Builder.Build: the built configuration holds copies of the attribute set and npc list, while the Kotlin one shares the builder's mutable collections. Later mutation through the builder is not modelled.
- InstancedMaps.Builder.AddNpcAt: the npc's world is not modelled.
- `TimerMap.has(key)` is taken to hold while the timer's value is above 0. That is how a fired timer whose plugin set it again is kept, and TimerMap.kt is not part of this model.
- Kotlin's signed bytes are modelled as 0..255; all bytes returned are 0 or padded bits, so no sign is observable.
- Concurrency between the tick and the path-finding thread is left out; `cancel` and `completed` are plain fields.

## Findings

| source | as written | input that shows it | evidently intended | confidence | as-written member | corrected member |
|---|---|---|---|---|---|---|
| game/src/main/kotlin/gg/rsmod/game/message/encoder/RebuildRegionEncoder.kt:41 | `chunks` is an `IntArray`, so `chunk != null` always holds. Every slot is written with flag 1 and its value, and an empty slot (-1) goes out as a present chunk. | a chunk block `[-1]` reads back as `[0x3FFFFFF]`, not `[-1]` | the flag is `copiedCoords != -1` and an empty slot writes only the 0 flag, as the commented-out writer at lines 87-90 does | not executed | RebuildRegionEncoder.ChunkFlagAlwaysSet | RebuildRegionEncoder.ChunkFieldsIntendedRoundTrip |
| game/src/main/kotlin/gg/rsmod/game/message/encoder/RebuildRegionEncoder.kt:22-60 | each branch returns `ByteArray(readableBytes)`, a fresh array of zeros of the right length; the bits and keys written are discarded | xteas `[[1]]` and `[[2]]` both give the bytes `[0, 0, 0, 0]` | the bytes written to the buffer are returned | not executed | RebuildRegionEncoder.BytesIgnoreContents | RebuildRegionEncoder.IntendedBytesRoundTrip |
| game/src/main/kotlin/gg/rsmod/game/message/impl/RebuildRegionMessage.kt:51 | `chunks.hashCode()` is the identity hash of the array, while `equals` compares chunks by content | two messages with the same contents whose chunk arrays are distinct objects with different identity hashes | `chunks.contentHashCode()`, like the other array fields | not executed | RebuildRegionMessages.HashCodeAsWrittenBreaksEquals | RebuildRegionMessages.HashCodeAgreesWithEquals |
