/** `Pawn.timerCycle` as a function of the timer map. A timer plugin that
    fires may set its timer again; `rearm` holds the value each such plugin
    sets (a key absent from `rearm` is left as the tick set it). */
module Timers {
  import opened PawnTypes

  /** The value `entry.setValue` stores: count-up timers go up by one, all
      others down by one. */
  function Ticked(key: TimerKey, time: int): int {
    if key.tickForward then time + 1 else time - 1
  }

  /** A count-down timer fires on the tick it reaches zero or below. */
  predicate Fires(key: TimerKey, time: int) {
    !key.tickForward && Ticked(key, time) <= 0
  }

  /** The timer's value once the tick and, if it fired, its plugin are done.
      The facing timer runs `resetFacePawn` instead of a plugin. */
  function AfterTick(key: TimerKey, time: int, rearm: map<TimerKey, int>): int {
    if Fires(key, time) && key != RESET_PAWN_FACING_TIMER && key in rearm then rearm[key]
    else Ticked(key, time)
  }

  /** A fired timer is removed when its key asks for it and it is no longer
      running after its plugin. */
  predicate Removed(key: TimerKey, time: int, rearm: map<TimerKey, int>) {
    Fires(key, time) && key.removeOnZero && AfterTick(key, time, rearm) <= 0
  }

  /** The timer map after one `timerCycle`. */
  function TimerCycle(timers: map<TimerKey, int>, rearm: map<TimerKey, int>): (r: map<TimerKey, int>)
    ensures r.Keys <= timers.Keys
  {
    map k | k in timers && !Removed(k, timers[k], rearm) :: AfterTick(k, timers[k], rearm)
  }

  /** The map part-way through the cycle: the keys in `todo` are not yet
      visited, the others have been. */
  function Partial(timers: map<TimerKey, int>, todo: set<TimerKey>, rearm: map<TimerKey, int>): map<TimerKey, int> {
    map k | k in timers && (k in todo || !Removed(k, timers[k], rearm)) ::
      if k in todo then timers[k] else AfterTick(k, timers[k], rearm)
  }

  lemma PartialStart(timers: map<TimerKey, int>, rearm: map<TimerKey, int>)
    ensures Partial(timers, timers.Keys, rearm) == timers
  {
  }

  lemma PartialEnd(timers: map<TimerKey, int>, rearm: map<TimerKey, int>)
    ensures Partial(timers, {}, rearm) == TimerCycle(timers, rearm)
  {
  }

  /** Visiting one more key ticks that timer alone, and removes it when it
      runs out and its key asks for that. */
  lemma PartialStep(timers: map<TimerKey, int>, todo: set<TimerKey>, rearm: map<TimerKey, int>, key: TimerKey)
    requires key in todo && todo <= timers.Keys
    ensures var p := Partial(timers, todo, rearm);
      && key in p && p[key] == timers[key]
      && Partial(timers, todo - {key}, rearm) ==
           if Removed(key, timers[key], rearm) then p - {key} else p[key := AfterTick(key, timers[key], rearm)]
  {
    var p := Partial(timers, todo, rearm);
    var q := Partial(timers, todo - {key}, rearm);
    if Removed(key, timers[key], rearm) {
      assert q == p - {key};
    } else {
      assert q == p[key := AfterTick(key, timers[key], rearm)];
    }
  }

  /** The keys whose timer plugin runs this cycle. */
  function FiredPlugins(timers: map<TimerKey, int>): set<TimerKey> {
    set k | k in timers && Fires(k, timers[k]) && k != RESET_PAWN_FACING_TIMER
  }

  /** The plugin events of the cycle so far, `todo` being the keys not yet
      visited: each event is the plugin of a visited key that fires, each
      such key has its event, and no event repeats. */
  ghost predicate FiredSoFar(timers: map<TimerKey, int>, todo: set<TimerKey>, fired: seq<Event>) {
    && (forall i :: 0 <= i < |fired| ==>
          fired[i].TimerPlugin? && fired[i].key in FiredPlugins(timers) && fired[i].key !in todo)
    && (forall k :: k in FiredPlugins(timers) && k !in todo ==> TimerPlugin(k) in fired)
    && (forall i, j :: 0 <= i < j < |fired| ==> fired[i] != fired[j])
  }

  /** The events a visit of `key` adds. */
  function VisitEvents(timers: map<TimerKey, int>, key: TimerKey): seq<Event>
    requires key in timers
  {
    if Fires(key, timers[key]) && key != RESET_PAWN_FACING_TIMER then [TimerPlugin(key)] else []
  }

  lemma FiredStart(timers: map<TimerKey, int>)
    ensures FiredSoFar(timers, timers.Keys, [])
  {
  }

  lemma FiredStep(timers: map<TimerKey, int>, todo: set<TimerKey>, fired: seq<Event>, key: TimerKey)
    requires key in todo && todo <= timers.Keys && FiredSoFar(timers, todo, fired)
    ensures FiredSoFar(timers, todo - {key}, fired + VisitEvents(timers, key))
  {
    var added := VisitEvents(timers, key);
    var f := fired + added;
    forall i | 0 <= i < |f|
      ensures f[i].TimerPlugin? && f[i].key in FiredPlugins(timers) && f[i].key !in todo - {key}
    {
      if i < |fired| { assert f[i] == fired[i]; }
    }
    forall k | k in FiredPlugins(timers) && k !in todo - {key} ensures TimerPlugin(k) in f {
      if k == key {
        assert f[|fired|] == TimerPlugin(k);
      } else {
        var i :| 0 <= i < |fired| && fired[i] == TimerPlugin(k);
        assert f[i] == fired[i];
      }
    }
    forall i, j | 0 <= i < j < |f| ensures f[i] != f[j] {
      if j >= |fired| {
        assert f[i] == fired[i] && fired[i].key !in todo && f[j] == TimerPlugin(key);
      }
    }
  }

  /** The facing timer runs out this cycle, so `resetFacePawn` runs. */
  predicate ResetFires(timers: map<TimerKey, int>) {
    RESET_PAWN_FACING_TIMER in timers && Fires(RESET_PAWN_FACING_TIMER, timers[RESET_PAWN_FACING_TIMER])
  }

  /** A count-up timer is never removed and goes up by one; a count-down
      timer that does not reach zero stays and goes down by one. A fired
      timer that is not set again (no plugin value, or the facing timer,
      which has no plugin) is removed exactly when its key asks for it, and
      otherwise keeps the ticked value. A fired timer its plugin sets again
      takes that value, and is removed only when its key asks for it and the
      value leaves it not running. */
  lemma TimerCycleKeys(timers: map<TimerKey, int>, rearm: map<TimerKey, int>, k: TimerKey)
    requires k in timers
    ensures k.tickForward ==> k in TimerCycle(timers, rearm) && TimerCycle(timers, rearm)[k] == timers[k] + 1
    ensures !k.tickForward && timers[k] > 1 ==>
              k in TimerCycle(timers, rearm) && TimerCycle(timers, rearm)[k] == timers[k] - 1
    ensures !k.tickForward && timers[k] <= 1 && (k !in rearm || k == RESET_PAWN_FACING_TIMER) ==>
              && (k in TimerCycle(timers, rearm) <==> !k.removeOnZero)
              && (!k.removeOnZero ==> TimerCycle(timers, rearm)[k] == timers[k] - 1)
    ensures !k.tickForward && timers[k] <= 1 && k in rearm && k != RESET_PAWN_FACING_TIMER ==>
              && (k in TimerCycle(timers, rearm) <==> !(k.removeOnZero && rearm[k] <= 0))
              && (k in TimerCycle(timers, rearm) ==> TimerCycle(timers, rearm)[k] == rearm[k])
  {
  }
}
