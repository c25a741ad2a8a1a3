/** The pending-hit pipeline of `Pawn.hitsCycle`, as functions of the values
    it reads: whether the lock state delays damage, the infinite-health
    flag, the pawn kind, the current lifepoints and the pending hits. The
    method `Pawns.Pawn.HitsCycle` is proved to compute exactly this. */
module Hits {
  import opened Common
  import opened PawnTypes

  /** What the hitmark loop of one due hit leaves: lifepoints, the hitmarks
      (clamped up to and including the fatal one, untouched after it), and
      whether the lifepoints fell to zero or below. */
  datatype MarksOutcome = MarksOutcome(lifepoints: int, marks: seq<Hitmark>, fatal: bool)

  /** Damage is clamped to the lifepoints the pawn has at that moment. */
  function Clamp(damage: int, hp: int): (r: int)
    ensures r <= damage && r <= hp && (r == damage || r == hp)
  {
    if damage > hp then hp else damage
  }

  function MarkDamage(marks: seq<Hitmark>): int {
    if marks == [] then 0 else marks[0].damage + MarkDamage(marks[1..])
  }

  /** The lifepoints once the hitmarks `done` have been applied from `lp`;
      infinite health keeps them where they were. */
  function LpAfter(infiniteHp: bool, lp: int, done: seq<Hitmark>): int {
    if infiniteHp then lp else lp - MarkDamage(done)
  }

  /** Mark `k` of `out` is mark `k` of `marks` with its damage clamped to the
      lifepoints left after the marks before it. */
  predicate ClampedAt(infiniteHp: bool, lp: int, marks: seq<Hitmark>, out: seq<Hitmark>, k: nat)
    requires k < |marks| == |out|
  {
    out[k] == marks[k].(damage := Clamp(marks[k].damage, LpAfter(infiniteHp, lp, out[..k])))
  }

  /** The first `n` marks were applied in turn, each clamped, with the pawn
      still above zero after every one but the last of them; the marks from
      `n` on are untouched. */
  predicate MarksApplied(infiniteHp: bool, lp: int, marks: seq<Hitmark>, out: seq<Hitmark>, n: nat) {
    && |out| == |marks| && n <= |marks|
    && (forall k :: 0 <= k < n ==> ClampedAt(infiniteHp, lp, marks, out, k))
    && (forall k :: 0 < k < n ==> LpAfter(infiniteHp, lp, out[..k]) > 0)
    && (forall k :: n <= k < |marks| ==> out[k] == marks[k])
  }

  /** The `for (hitmark in hit.hitmarks)` loop. */
  function ApplyHitmarks(infiniteHp: bool, lp: int, marks: seq<Hitmark>): MarksOutcome
    decreases |marks|
  {
    if marks == [] then MarksOutcome(lp, [], false)
    else
      var d := Clamp(marks[0].damage, lp);
      var after := if infiniteHp then lp else lp - d;
      var m := marks[0].(damage := d);
      if after <= 0 then MarksOutcome(after, [m] + marks[1..], true)
      else
        var rest := ApplyHitmarks(infiniteHp, after, marks[1..]);
        MarksOutcome(rest.lifepoints, [m] + rest.marks, rest.fatal)
  }

  /** Every hitmark keeps its kind and never grows; the loop stops exactly
      when the lifepoints reach zero or below, and then (for a pawn that
      had lifepoints left and takes damage) at exactly zero; a surviving
      pawn lost exactly the clamped damage; infinite health never dies. */
  lemma {:induction false} ApplyHitmarksBounds(infiniteHp: bool, lp: int, marks: seq<Hitmark>)
    decreases |marks|
    ensures var r := ApplyHitmarks(infiniteHp, lp, marks);
      && |r.marks| == |marks|
      && (forall k :: 0 <= k < |marks| ==>
            r.marks[k].kind == marks[k].kind && r.marks[k].damage <= marks[k].damage)
      && (r.fatal ==> r.lifepoints <= 0)
      && (lp > 0 && !r.fatal ==> r.lifepoints > 0)
      && (lp >= 0 && !infiniteHp && r.fatal ==> r.lifepoints == 0)
      && (lp > 0 && infiniteHp ==> !r.fatal && r.lifepoints == lp)
      && (!infiniteHp && !r.fatal ==> lp - r.lifepoints == MarkDamage(r.marks))
  {
    if marks != [] {
      var d := Clamp(marks[0].damage, lp);
      var after := if infiniteHp then lp else lp - d;
      var m := marks[0].(damage := d);
      if after > 0 {
        ApplyHitmarksBounds(infiniteHp, after, marks[1..]);
        var rest := ApplyHitmarks(infiniteHp, after, marks[1..]);
        assert ([m] + rest.marks)[1..] == rest.marks;
      }
    }
  }

  /** The hitmark loop applied every mark, and ends on the lifepoints they
      leave, above zero when there was a mark. */
  predicate Survived(infiniteHp: bool, lp: int, marks: seq<Hitmark>, r: MarksOutcome) {
    && MarksApplied(infiniteHp, lp, marks, r.marks, |marks|)
    && r.lifepoints == LpAfter(infiniteHp, lp, r.marks)
    && (marks != [] ==> r.lifepoints > 0)
  }

  /** The hitmark loop applied the marks up to and including mark `n - 1`,
      which left the pawn at zero or below, and ends on those lifepoints. */
  predicate DiedAt(infiniteHp: bool, lp: int, marks: seq<Hitmark>, r: MarksOutcome, n: nat) {
    && 1 <= n <= |marks|
    && MarksApplied(infiniteHp, lp, marks, r.marks, n)
    && r.lifepoints == LpAfter(infiniteHp, lp, r.marks[..n]) <= 0
  }

  /** The hitmark loop clamps each mark it reaches to the lifepoints left
      at that moment and stops at the first mark that leaves the pawn at zero
      or below: a surviving loop applied every mark, a fatal one stopped at
      some mark and left the marks after it as they were. */
  lemma {:induction false} ApplyHitmarksClamps(infiniteHp: bool, lp: int, marks: seq<Hitmark>)
    decreases |marks|
    ensures var r := ApplyHitmarks(infiniteHp, lp, marks);
      && (!r.fatal ==> Survived(infiniteHp, lp, marks, r))
      && (r.fatal ==> exists n :: DiedAt(infiniteHp, lp, marks, r, n))
  {
    if marks == [] {
      assert Survived(infiniteHp, lp, marks, ApplyHitmarks(infiniteHp, lp, marks));
    } else {
      var m := marks[0].(damage := Clamp(marks[0].damage, lp));
      var after := LpAfter(infiniteHp, lp, [m]);
      if after <= 0 {
        FirstMarkFatal(infiniteHp, lp, marks);
      } else {
        ApplyHitmarksClamps(infiniteHp, after, marks[1..]);
        var rest := ApplyHitmarks(infiniteHp, after, marks[1..]);
        if rest.fatal {
          var n :| DiedAt(infiniteHp, after, marks[1..], rest, n);
          DiedLater(infiniteHp, lp, marks, n);
        } else {
          SurvivedCons(infiniteHp, lp, marks);
        }
      }
    }
  }

  /** The first mark is fatal: the loop died at it. */
  lemma FirstMarkFatal(infiniteHp: bool, lp: int, marks: seq<Hitmark>)
    requires marks != []
    requires LpAfter(infiniteHp, lp, [marks[0].(damage := Clamp(marks[0].damage, lp))]) <= 0
    ensures var r := ApplyHitmarks(infiniteHp, lp, marks);
      r.fatal && DiedAt(infiniteHp, lp, marks, r, 1)
  {
    var m := marks[0].(damage := Clamp(marks[0].damage, lp));
    LpAfterCons(infiniteHp, lp, m, []);
    MarkDamageNothing();
    var r := ApplyHitmarks(infiniteHp, lp, marks);
    assert r.marks == [m] + marks[1..];
    FirstMarkApplied(infiniteHp, lp, marks, m);
    assert r.marks[..1] == [m];
  }

  /** The first mark leaves the pawn above zero and the rest of the loop
      died at its mark `n - 1`: the loop died at mark `n`. */
  lemma DiedLater(infiniteHp: bool, lp: int, marks: seq<Hitmark>, n: nat)
    requires marks != []
    requires var m := marks[0].(damage := Clamp(marks[0].damage, lp));
      var after := LpAfter(infiniteHp, lp, [m]);
      var rest := ApplyHitmarks(infiniteHp, after, marks[1..]);
      after > 0 && rest.fatal && DiedAt(infiniteHp, after, marks[1..], rest, n)
    ensures var r := ApplyHitmarks(infiniteHp, lp, marks);
      r.fatal && DiedAt(infiniteHp, lp, marks, r, n + 1)
  {
    var m := marks[0].(damage := Clamp(marks[0].damage, lp));
    var after := LpAfter(infiniteHp, lp, [m]);
    LpAfterCons(infiniteHp, lp, m, []);
    MarkDamageNothing();
    var rest := ApplyHitmarks(infiniteHp, after, marks[1..]);
    var r := ApplyHitmarks(infiniteHp, lp, marks);
    assert r.marks == [m] + rest.marks;
    MarksAppliedCons(infiniteHp, lp, marks, m, rest.marks, n);
    assert r.marks[..n + 1] == [m] + rest.marks[..n];
    LpAfterCons(infiniteHp, lp, m, rest.marks[..n]);
  }

  /** The first mark leaves the pawn above zero and the rest of the loop
      survived: so did the whole loop. */
  lemma SurvivedCons(infiniteHp: bool, lp: int, marks: seq<Hitmark>)
    requires marks != []
    requires var m := marks[0].(damage := Clamp(marks[0].damage, lp));
      var after := LpAfter(infiniteHp, lp, [m]);
      var rest := ApplyHitmarks(infiniteHp, after, marks[1..]);
      after > 0 && !rest.fatal && Survived(infiniteHp, after, marks[1..], rest)
    ensures var r := ApplyHitmarks(infiniteHp, lp, marks);
      !r.fatal && Survived(infiniteHp, lp, marks, r)
  {
    var m := marks[0].(damage := Clamp(marks[0].damage, lp));
    var after := LpAfter(infiniteHp, lp, [m]);
    LpAfterCons(infiniteHp, lp, m, []);
    MarkDamageNothing();
    var rest := ApplyHitmarks(infiniteHp, after, marks[1..]);
    var r := ApplyHitmarks(infiniteHp, lp, marks);
    assert r.marks == [m] + rest.marks;
    MarksAppliedCons(infiniteHp, lp, marks, m, rest.marks, |marks| - 1);
    LpAfterCons(infiniteHp, lp, m, rest.marks);
  }

  lemma MarkDamageNothing()
    ensures MarkDamage([]) == 0
  {
  }

  lemma LpAfterCons(infiniteHp: bool, lp: int, m: Hitmark, done: seq<Hitmark>)
    ensures LpAfter(infiniteHp, lp, [m] + done) == LpAfter(infiniteHp, LpAfter(infiniteHp, lp, [m]), done)
  {
    assert ([m] + done)[0] == m && ([m] + done)[1..] == done;
    assert MarkDamage([m] + done) == m.damage + MarkDamage(done);
    assert [m][0] == m && [m][1..] == [];
    assert MarkDamage([m]) == m.damage + MarkDamage([]);
  }

  /** A fatal first mark: it alone was applied. */
  lemma FirstMarkApplied(infiniteHp: bool, lp: int, marks: seq<Hitmark>, m: Hitmark)
    requires marks != [] && m == marks[0].(damage := Clamp(marks[0].damage, lp))
    ensures MarksApplied(infiniteHp, lp, marks, [m] + marks[1..], 1)
  {
    var out := [m] + marks[1..];
    assert out[..0] == [];
    assert ClampedAt(infiniteHp, lp, marks, out, 0);
    forall k | 1 <= k < |marks| ensures out[k] == marks[k] {
      assert out[k] == marks[1..][k - 1];
    }
  }

  /** A first mark that leaves the pawn above zero, in front of the rest of
      the loop. */
  lemma MarksAppliedCons(infiniteHp: bool, lp: int, marks: seq<Hitmark>, m: Hitmark, rest: seq<Hitmark>, n: nat)
    requires marks != [] && m == marks[0].(damage := Clamp(marks[0].damage, lp))
    requires LpAfter(infiniteHp, lp, [m]) > 0
    requires MarksApplied(infiniteHp, LpAfter(infiniteHp, lp, [m]), marks[1..], rest, n)
    ensures MarksApplied(infiniteHp, lp, marks, [m] + rest, n + 1)
  {
    var after := LpAfter(infiniteHp, lp, [m]);
    var out := [m] + rest;
    assert out[..0] == [];
    assert ClampedAt(infiniteHp, lp, marks, out, 0);
    forall k | 1 <= k <= n
      ensures out[..k] == [m] + rest[..k - 1]
      ensures LpAfter(infiniteHp, lp, out[..k]) == LpAfter(infiniteHp, after, rest[..k - 1])
    {
      assert out[..k] == [m] + rest[..k - 1];
      LpAfterCons(infiniteHp, lp, m, rest[..k - 1]);
    }
    forall k | 1 <= k < n + 1 ensures ClampedAt(infiniteHp, lp, marks, out, k) {
      assert ClampedAt(infiniteHp, after, marks[1..], rest, k - 1);
      assert out[k] == rest[k - 1] && marks[k] == marks[1..][k - 1];
    }
    forall k | 1 < k < n + 1 ensures LpAfter(infiniteHp, lp, out[..k]) > 0 {
      if k - 1 > 0 {
        assert LpAfter(infiniteHp, after, rest[..k - 1]) > 0;
      }
    }
    forall k | n + 1 <= k < |marks| ensures out[k] == marks[k] {
      assert out[k] == rest[k - 1] && marks[k] == marks[1..][k - 1];
    }
  }

  /** The outcome `o` of the rest of the hitmark loop, behind the marks
      already clamped. */
  function MarksBehind(done: seq<Hitmark>, o: MarksOutcome): MarksOutcome {
    MarksOutcome(o.lifepoints, done + o.marks, o.fatal)
  }

  lemma MarksBehindNothing(o: MarksOutcome)
    ensures MarksBehind([], o) == o
  {
    ConcatEmpty(o.marks);
  }

  lemma MarksBehindBehind(d1: seq<Hitmark>, d2: seq<Hitmark>, o: MarksOutcome)
    ensures MarksBehind(d1, MarksBehind(d2, o)) == MarksBehind(d1 + d2, o)
  {
    ConcatAssoc(d1, d2, o.marks);
  }

  /** One turn of the hitmark loop, for the method that runs it. */
  lemma ApplyHitmarksStep(infiniteHp: bool, lp: int, marks: seq<Hitmark>)
    requires marks != []
    ensures var m := marks[0].(damage := Clamp(marks[0].damage, lp));
      var after := if infiniteHp then lp else lp - m.damage;
      ApplyHitmarks(infiniteHp, lp, marks) ==
        if after <= 0 then MarksOutcome(after, [m] + marks[1..], true)
        else MarksBehind([m], ApplyHitmarks(infiniteHp, after, marks[1..]))
  {
  }

  /** What `hitsCycle` leaves: lifepoints, the hits still pending, the hits
      added to the block buffer (in order) and the callbacks run. */
  datatype HitsOutcome = HitsOutcome(lifepoints: int, pending: seq<Hit>, shown: seq<Hit>, events: seq<Event>)

  function DeathPlugin(isPlayer: bool): Event {
    if isPlayer then PlayerDeathPlugin else NpcDeathPlugin
  }

  /** A hit held by a damage-delaying lock: its delay goes down but not
      below zero. */
  function Held(h: Hit): Hit {
    h.(damageDelay := if h.damageDelay - 1 < 0 then 0 else h.damageDelay - 1)
  }

  /** A hit that is not yet due counts down by one. */
  function CountedDown(h: Hit): Hit {
    h.(damageDelay := h.damageDelay - 1)
  }

  /** The flagged update blocks once the hits `shown` are added to the
      block buffer: the hitmark block is flagged by any of them. */
  function Flagged(blocks: set<UpdateBlockType>, shown: seq<Hit>): (r: set<UpdateBlockType>)
    ensures r - {HITMARK} == blocks - {HITMARK}
    ensures HITMARK in r <==> HITMARK in blocks || shown != []
  {
    if shown == [] then blocks else blocks + {HITMARK}
  }

  lemma FlaggedTwice(blocks: set<UpdateBlockType>, s1: seq<Hit>, s2: seq<Hit>)
    ensures Flagged(Flagged(blocks, s1), s2) == Flagged(blocks, s1 + s2)
  {
  }

  /** What one turn of the iterator loop does with one hit: the
      lifepoints after it, the hit as it stays pending (if it does), the hit
      as the block buffer shows it (if it was applied), the callbacks run,
      and whether the loop stops (`break@iterator`). */
  datatype HitTurn = HitTurn(lifepoints: int, kept: seq<Hit>, shown: seq<Hit>, events: seq<Event>, stop: bool)

  function Turn(delays: bool, infiniteHp: bool, isPlayer: bool, lp: int, h: Hit): HitTurn {
    if delays then HitTurn(lp, [Held(h)], [], [], false)
    else if h.damageDelay != 0 then HitTurn(lp, [CountedDown(h)], [], [], false)
    else if h.cancelled then HitTurn(lp, [], [], [], false)
    else
      var mo := ApplyHitmarks(infiniteHp, lp, h.hitmarks);
      var shownHit := h.(damageDelay := -1, hitmarks := mo.marks);
      HitTurn(mo.lifepoints, [], [shownHit],
              [HitActionsRun(shownHit)] + (if mo.fatal then [DeathPlugin(isPlayer)] else []), mo.fatal)
  }

  /** The iterator loop over the pending hits, from the first hit on: it
      ends when the hits run out, when the pawn is dead at the top of a
      turn, or after a fatal hit, which leaves the hits behind it pending. */
  function ProcessHits(delays: bool, infiniteHp: bool, isPlayer: bool, lp: int, hits: seq<Hit>): HitsOutcome
    decreases |hits|
  {
    if hits == [] || lp == 0 then HitsOutcome(lp, hits, [], [])
    else
      var t := Turn(delays, infiniteHp, isPlayer, lp, hits[0]);
      if t.stop then HitsOutcome(t.lifepoints, t.kept + hits[1..], t.shown, t.events)
      else
        var rest := ProcessHits(delays, infiniteHp, isPlayer, t.lifepoints, hits[1..]);
        HitsOutcome(rest.lifepoints, t.kept + rest.pending, t.shown + rest.shown, t.events + rest.events)
  }

  /** The outcome `o` of the rest of the loop, behind what earlier turns
      kept, showed and ran. */
  function Joined(kept: seq<Hit>, shown: seq<Hit>, events: seq<Event>, o: HitsOutcome): HitsOutcome {
    HitsOutcome(o.lifepoints, kept + o.pending, shown + o.shown, events + o.events)
  }

  lemma JoinedJoined(k1: seq<Hit>, s1: seq<Hit>, e1: seq<Event>, k2: seq<Hit>, s2: seq<Hit>, e2: seq<Event>, o: HitsOutcome)
    ensures Joined(k1, s1, e1, Joined(k2, s2, e2, o)) == Joined(k1 + k2, s1 + s2, e1 + e2, o)
  {
    ConcatAssoc(k1, k2, o.pending);
    ConcatAssoc(s1, s2, o.shown);
    ConcatAssoc(e1, e2, o.events);
  }

  lemma JoinedNothing(o: HitsOutcome)
    ensures Joined([], [], [], o) == o
  {
    ConcatEmpty(o.pending);
    ConcatEmpty(o.shown);
    ConcatEmpty(o.events);
  }

  lemma JoinedDone(kept: seq<Hit>, shown: seq<Hit>, events: seq<Event>, lp: int, todo: seq<Hit>)
    ensures Joined(kept, shown, events, HitsOutcome(lp, todo, [], [])) == HitsOutcome(lp, kept + todo, shown, events)
  {
    ConcatEmpty(shown);
    ConcatEmpty(events);
  }

  /** What the loop still does with `todo` from lifepoints `lp`: nothing once
      a turn has stopped it. */
  function Resume(delays: bool, infiniteHp: bool, isPlayer: bool, stopped: bool, lp: int, todo: seq<Hit>): HitsOutcome {
    if stopped then HitsOutcome(lp, todo, [], [])
    else ProcessHits(delays, infiniteHp, isPlayer, lp, todo)
  }

  /** One turn of the loop, for the method that runs it. */
  lemma ProcessHitsTurn(delays: bool, infiniteHp: bool, isPlayer: bool, lp: int, h: Hit, todo: seq<Hit>)
    requires lp != 0
    ensures var t := Turn(delays, infiniteHp, isPlayer, lp, h);
      ProcessHits(delays, infiniteHp, isPlayer, lp, [h] + todo) ==
        Joined(t.kept, t.shown, t.events, Resume(delays, infiniteHp, isPlayer, t.stop, t.lifepoints, todo))
  {
    assert ([h] + todo)[0] == h && ([h] + todo)[1..] == todo;
  }

  /** The whole of `hitsCycle`: the loop, then a dead pawn drops what is
      still pending. */
  function HitsCycle(delays: bool, infiniteHp: bool, isPlayer: bool, lp: int, hits: seq<Hit>): HitsOutcome {
    var o := ProcessHits(delays, infiniteHp, isPlayer, lp, hits);
    if o.lifepoints == 0 && o.pending != [] then o.(pending := []) else o
  }

  // -----------------------------------------------------------------------
  // Reference definitions
  // -----------------------------------------------------------------------

  /** The hits that are not due this cycle, counted down, in order. */
  function Waiting(hits: seq<Hit>): seq<Hit> {
    if hits == [] then []
    else if hits[0].damageDelay != 0 then [CountedDown(hits[0])] + Waiting(hits[1..])
    else Waiting(hits[1..])
  }

  /** The hits that are due this cycle and not cancelled, in order. */
  function Due(hits: seq<Hit>): seq<Hit> {
    if hits == [] then []
    else if hits[0].damageDelay == 0 && !hits[0].cancelled then [hits[0]] + Due(hits[1..])
    else Due(hits[1..])
  }

  /** `s` is what the block buffer shows of the due hit `h`, applied to a
      pawn with `hp` lifepoints that survived it: the same hit object, its
      delay spent, every hitmark clamped in turn to the lifepoints left. */
  predicate AppliedFrom(infiniteHp: bool, hp: int, s: Hit, h: Hit) {
    && s.id == h.id
    && s.cancelled == h.cancelled
    && s.damageDelay == -1
    && MarksApplied(infiniteHp, hp, h.hitmarks, s.hitmarks, |h.hitmarks|)
  }

  function ShownDamage(shown: seq<Hit>): int {
    if shown == [] then 0 else MarkDamage(shown[0].hitmarks) + ShownDamage(shown[1..])
  }

  /** The lifepoints before the next hit, once the hits `shown` were
      applied from `lp`. */
  function HpBefore(infiniteHp: bool, lp: int, shown: seq<Hit>): int {
    if infiniteHp then lp else lp - ShownDamage(shown)
  }

  lemma HpBeforeCons(infiniteHp: bool, lp: int, sh: Hit, shown: seq<Hit>)
    ensures HpBefore(infiniteHp, lp, [sh] + shown) == HpBefore(infiniteHp, HpBefore(infiniteHp, lp, [sh]), shown)
  {
    assert ([sh] + shown)[0] == sh && ([sh] + shown)[1..] == shown;
    assert ShownDamage([sh] + shown) == MarkDamage(sh.hitmarks) + ShownDamage(shown);
    assert [sh][0] == sh && [sh][1..] == [];
    assert ShownDamage([sh]) == MarkDamage(sh.hitmarks) + ShownDamage([]);
  }

  // -----------------------------------------------------------------------
  // Properties
  // -----------------------------------------------------------------------

  /** While the lock state delays damage nothing is applied or removed and
      no callback runs: every hit is held, its delay lowered by one but not
      below zero. A dead pawn still drops its hits. */
  lemma {:induction false} DelayedHitsAreHeld(infiniteHp: bool, isPlayer: bool, lp: int, hits: seq<Hit>)
    ensures var r := HitsCycle(true, infiniteHp, isPlayer, lp, hits);
      && r.lifepoints == lp && r.shown == [] && r.events == []
      && (lp != 0 ==> |r.pending| == |hits| && forall i :: 0 <= i < |hits| ==> r.pending[i] == Held(hits[i]))
      && (lp == 0 ==> r.pending == [])
  {
    if lp != 0 {
      ProcessDelayed(infiniteHp, isPlayer, lp, hits);
    }
  }

  lemma {:induction false} ProcessDelayed(infiniteHp: bool, isPlayer: bool, lp: int, hits: seq<Hit>)
    requires lp != 0
    ensures var r := ProcessHits(true, infiniteHp, isPlayer, lp, hits);
      && r.lifepoints == lp && r.shown == [] && r.events == []
      && |r.pending| == |hits| && forall i :: 0 <= i < |hits| ==> r.pending[i] == Held(hits[i])
  {
    if hits != [] {
      ProcessDelayed(infiniteHp, isPlayer, lp, hits[1..]);
      var rest := ProcessHits(true, infiniteHp, isPlayer, lp, hits[1..]);
      assert forall i :: 1 <= i < |hits| ==> ([Held(hits[0])] + rest.pending)[i] == Held(hits[i]);
    }
  }

  /** A pawn already dead when the loop starts processes nothing and ends
      the cycle with no pending hits. */
  lemma DeadPawnProcessesNothing(delays: bool, infiniteHp: bool, isPlayer: bool, hits: seq<Hit>)
    ensures HitsCycle(delays, infiniteHp, isPlayer, 0, hits) == HitsOutcome(0, [], [], [])
  {
  }

  /** The callbacks that run for hits shown in this order: each hit's
      actions, once, in the same order. */
  function ActionsRun(shown: seq<Hit>): seq<Event> {
    if shown == [] then [] else [HitActionsRun(shown[0])] + ActionsRun(shown[1..])
  }

  /** One turn of a cycle the pawn survives: the loop carries on, and the
      rest of the cycle is survived too. */
  lemma SurvivingTurn(infiniteHp: bool, isPlayer: bool, lp: int, hits: seq<Hit>)
    requires lp > 0 && hits != []
    requires ProcessHits(false, infiniteHp, isPlayer, lp, hits).lifepoints > 0
    ensures var t := Turn(false, infiniteHp, isPlayer, lp, hits[0]);
      && !t.stop && t.lifepoints > 0
      && ProcessHits(false, infiniteHp, isPlayer, lp, hits) ==
           Joined(t.kept, t.shown, t.events, ProcessHits(false, infiniteHp, isPlayer, t.lifepoints, hits[1..]))
  {
    var h := hits[0];
    if h.damageDelay == 0 && !h.cancelled {
      ApplyHitmarksBounds(infiniteHp, lp, h.hitmarks);
    }
  }

  lemma {:induction false} SurvivingPending(infiniteHp: bool, isPlayer: bool, lp: int, hits: seq<Hit>)
    requires lp > 0
    requires ProcessHits(false, infiniteHp, isPlayer, lp, hits).lifepoints > 0
    decreases |hits|
    ensures ProcessHits(false, infiniteHp, isPlayer, lp, hits).pending == Waiting(hits)
  {
    if hits != [] {
      SurvivingTurn(infiniteHp, isPlayer, lp, hits);
      var t := Turn(false, infiniteHp, isPlayer, lp, hits[0]);
      SurvivingPending(infiniteHp, isPlayer, t.lifepoints, hits[1..]);
      ConcatEmpty(Waiting(hits[1..]));
    }
  }

  /** A due, uncancelled hit that does not kill is shown once, as applied,
      with its actions run and nothing kept. */
  lemma DueTurn(infiniteHp: bool, isPlayer: bool, lp: int, h: Hit)
    requires h.damageDelay == 0 && !h.cancelled && !Turn(false, infiniteHp, isPlayer, lp, h).stop
    ensures var t := Turn(false, infiniteHp, isPlayer, lp, h);
      && t.kept == [] && |t.shown| == 1 && AppliedFrom(infiniteHp, lp, t.shown[0], h)
      && t.events == [HitActionsRun(t.shown[0])]
      && t.lifepoints == HpBefore(infiniteHp, lp, t.shown)
  {
    ApplyHitmarksClamps(infiniteHp, lp, h.hitmarks);
    var t := Turn(false, infiniteHp, isPlayer, lp, h);
    var sh := t.shown[0];
    assert [sh][0] == sh && [sh][1..] == [];
    assert ShownDamage([sh]) == MarkDamage(sh.hitmarks) + ShownDamage([]);
  }

  lemma ActionsRunCons(sh: Hit, shown: seq<Hit>)
    ensures ActionsRun([sh] + shown) == [HitActionsRun(sh)] + ActionsRun(shown)
  {
    assert ([sh] + shown)[0] == sh && ([sh] + shown)[1..] == shown;
  }

  lemma AppliedCons(infiniteHp: bool, lp: int, sh: Hit, h: Hit, shown: seq<Hit>, due: seq<Hit>)
    requires AppliedFrom(infiniteHp, lp, sh, h) && |shown| == |due|
    requires forall j :: 0 <= j < |shown| ==>
      AppliedFrom(infiniteHp, HpBefore(infiniteHp, HpBefore(infiniteHp, lp, [sh]), shown[..j]), shown[j], due[j])
    ensures forall j :: 0 <= j < |shown| + 1 ==>
      AppliedFrom(infiniteHp, HpBefore(infiniteHp, lp, ([sh] + shown)[..j]), ([sh] + shown)[j], ([h] + due)[j])
  {
    var all := [sh] + shown;
    forall j | 0 <= j < |shown| + 1
      ensures AppliedFrom(infiniteHp, HpBefore(infiniteHp, lp, all[..j]), all[j], ([h] + due)[j])
    {
      if j == 0 {
        assert all[..0] == [];
        assert HpBefore(infiniteHp, lp, []) == lp;
      } else {
        assert all[..j] == [sh] + shown[..j - 1];
        HpBeforeCons(infiniteHp, lp, sh, shown[..j - 1]);
        assert all[j] == shown[j - 1] && ([h] + due)[j] == due[j - 1];
      }
    }
  }

  lemma {:induction false} SurvivingShown(infiniteHp: bool, isPlayer: bool, lp: int, hits: seq<Hit>)
    requires lp > 0
    requires ProcessHits(false, infiniteHp, isPlayer, lp, hits).lifepoints > 0
    decreases |hits|
    ensures var r := ProcessHits(false, infiniteHp, isPlayer, lp, hits);
      && |r.shown| == |Due(hits)|
      && (forall j :: 0 <= j < |r.shown| ==>
            AppliedFrom(infiniteHp, HpBefore(infiniteHp, lp, r.shown[..j]), r.shown[j], Due(hits)[j]))
      && r.events == ActionsRun(r.shown)
  {
    if hits != [] {
      SurvivingTurn(infiniteHp, isPlayer, lp, hits);
      var h := hits[0];
      var t := Turn(false, infiniteHp, isPlayer, lp, h);
      SurvivingShown(infiniteHp, isPlayer, t.lifepoints, hits[1..]);
      var rest := ProcessHits(false, infiniteHp, isPlayer, t.lifepoints, hits[1..]);
      if h.damageDelay != 0 || h.cancelled {
        ConcatEmpty(rest.shown);
        ConcatEmpty(rest.events);
      } else {
        DueTurn(infiniteHp, isPlayer, lp, h);
        var sh := t.shown[0];
        ActionsRunCons(sh, rest.shown);
        AppliedCons(infiniteHp, lp, sh, h, rest.shown, Due(hits[1..]));
      }
    }
  }

  lemma {:induction false} SurvivingDamage(infiniteHp: bool, isPlayer: bool, lp: int, hits: seq<Hit>)
    requires lp > 0
    requires ProcessHits(false, infiniteHp, isPlayer, lp, hits).lifepoints > 0
    decreases |hits|
    ensures var r := ProcessHits(false, infiniteHp, isPlayer, lp, hits);
      && (!infiniteHp ==> lp - r.lifepoints == ShownDamage(r.shown))
      && (infiniteHp ==> r.lifepoints == lp)
  {
    if hits != [] {
      SurvivingTurn(infiniteHp, isPlayer, lp, hits);
      var h := hits[0];
      var t := Turn(false, infiniteHp, isPlayer, lp, h);
      SurvivingDamage(infiniteHp, isPlayer, t.lifepoints, hits[1..]);
      var rest := ProcessHits(false, infiniteHp, isPlayer, t.lifepoints, hits[1..]);
      if h.damageDelay != 0 || h.cancelled {
        ConcatEmpty(rest.shown);
      } else {
        ApplyHitmarksBounds(infiniteHp, lp, h.hitmarks);
        var shown := t.shown + rest.shown;
        assert shown[0] == t.shown[0] && shown[1..] == rest.shown;
      }
    }
  }

  /** When damage is not delayed and the pawn survives the cycle: exactly
      the hits whose delay was not zero on entry stay pending, counted down;
      exactly the due, uncancelled hits are applied, in order, each shown
      once with its actions run once, in the same order; and the lifepoints
      lost are the clamped damage shown. */
  lemma SurvivingCycle(infiniteHp: bool, isPlayer: bool, lp: int, hits: seq<Hit>)
    requires lp > 0
    requires ProcessHits(false, infiniteHp, isPlayer, lp, hits).lifepoints > 0
    ensures var r := HitsCycle(false, infiniteHp, isPlayer, lp, hits);
      && r.pending == Waiting(hits)
      && |r.shown| == |Due(hits)|
      && (forall j :: 0 <= j < |r.shown| ==>
            AppliedFrom(infiniteHp, HpBefore(infiniteHp, lp, r.shown[..j]), r.shown[j], Due(hits)[j]))
      && r.events == ActionsRun(r.shown)
      && (!infiniteHp ==> lp - r.lifepoints == ShownDamage(r.shown))
      && (infiniteHp ==> r.lifepoints == lp)
  {
    SurvivingPending(infiniteHp, isPlayer, lp, hits);
    SurvivingShown(infiniteHp, isPlayer, lp, hits);
    SurvivingDamage(infiniteHp, isPlayer, lp, hits);
  }

  /** Number of death plugins among the events. */
  function DeathCount(events: seq<Event>): nat {
    if events == [] then 0
    else (if events[0] == PlayerDeathPlugin || events[0] == NpcDeathPlugin then 1 else 0) + DeathCount(events[1..])
  }

  /** When a hit takes the lifepoints to zero: the fatal hit's actions run,
      then exactly one death plugin of the pawn's kind runs and is the last
      callback of the cycle; lifepoints end at exactly zero (never below),
      and no hit is left pending. */
  lemma FatalCycle(delays: bool, infiniteHp: bool, isPlayer: bool, lp: int, hits: seq<Hit>)
    requires lp > 0
    requires ProcessHits(delays, infiniteHp, isPlayer, lp, hits).lifepoints <= 0
    ensures var r := HitsCycle(delays, infiniteHp, isPlayer, lp, hits);
      && !delays && !infiniteHp
      && r.lifepoints == 0 && r.pending == []
      && |r.shown| >= 1 && |r.events| == |r.shown| + 1
      && r.events[|r.events| - 1] == DeathPlugin(isPlayer)
      && r.events[|r.events| - 2] == HitActionsRun(r.shown[|r.shown| - 1])
      && DeathCount(r.events) == 1
  {
    if delays {
      ProcessDelayed(infiniteHp, isPlayer, lp, hits);
      assert false;
    }
    FatalProcess(infiniteHp, isPlayer, lp, hits);
  }

  /** The cycle ends with the fatal hit shown last, its actions and then
      the death plugin as the last two callbacks. */
  predicate EndsInDeath(isPlayer: bool, shown: seq<Hit>, events: seq<Event>) {
    && |shown| >= 1 && |events| == |shown| + 1
    && events[|events| - 1] == DeathPlugin(isPlayer)
    && events[|events| - 2] == HitActionsRun(shown[|shown| - 1])
  }

  /** A turn that shows one non-fatal hit keeps the death at the end. */
  lemma EndsInDeathCons(isPlayer: bool, sh: Hit, shown: seq<Hit>, events: seq<Event>)
    requires EndsInDeath(isPlayer, shown, events)
    ensures EndsInDeath(isPlayer, [sh] + shown, [HitActionsRun(sh)] + events)
  {
    assert ([sh] + shown)[|shown|] == shown[|shown| - 1];
    assert ([HitActionsRun(sh)] + events)[|events|] == events[|events| - 1];
    assert ([HitActionsRun(sh)] + events)[|events| - 1] == events[|events| - 2];
  }

  /** One turn of a cycle that ends in death: either this hit is the fatal
      one, shown with its actions and the death plugin after them, or the
      loop carries on with lifepoints left, having shown at most this hit. */
  lemma FatalTurn(infiniteHp: bool, isPlayer: bool, lp: int, hits: seq<Hit>)
    requires lp > 0
    requires ProcessHits(false, infiniteHp, isPlayer, lp, hits).lifepoints <= 0
    ensures hits != []
    ensures var t := Turn(false, infiniteHp, isPlayer, lp, hits[0]);
      var r := ProcessHits(false, infiniteHp, isPlayer, lp, hits);
      && (t.stop ==>
            && !infiniteHp && r.lifepoints == 0 && |t.shown| == 1 && r.shown == t.shown
            && r.events == [HitActionsRun(t.shown[0])] + [DeathPlugin(isPlayer)])
      && (!t.stop ==>
            && t.lifepoints > 0
            && r == Joined(t.kept, t.shown, t.events, ProcessHits(false, infiniteHp, isPlayer, t.lifepoints, hits[1..]))
            && ((t.shown == [] && t.events == []) ||
                (|t.shown| == 1 && t.events == [HitActionsRun(t.shown[0])])))
  {
    var h := hits[0];
    if h.damageDelay == 0 && !h.cancelled {
      ApplyHitmarksBounds(infiniteHp, lp, h.hitmarks);
    }
  }

  lemma {:induction false} FatalProcess(infiniteHp: bool, isPlayer: bool, lp: int, hits: seq<Hit>)
    requires lp > 0
    requires ProcessHits(false, infiniteHp, isPlayer, lp, hits).lifepoints <= 0
    decreases |hits|
    ensures var r := ProcessHits(false, infiniteHp, isPlayer, lp, hits);
      && !infiniteHp
      && r.lifepoints == 0
      && EndsInDeath(isPlayer, r.shown, r.events)
      && DeathCount(r.events) == 1
  {
    FatalTurn(infiniteHp, isPlayer, lp, hits);
    var t := Turn(false, infiniteHp, isPlayer, lp, hits[0]);
    var r := ProcessHits(false, infiniteHp, isPlayer, lp, hits);
    if t.stop {
      assert |r.events| == 2 && r.events[1] == DeathPlugin(isPlayer) && r.events[0] == HitActionsRun(r.shown[0]);
      DeathCountCons(HitActionsRun(t.shown[0]), [DeathPlugin(isPlayer)]);
      DeathCountCons(DeathPlugin(isPlayer), []);
    } else {
      FatalProcess(infiniteHp, isPlayer, t.lifepoints, hits[1..]);
      var rest := ProcessHits(false, infiniteHp, isPlayer, t.lifepoints, hits[1..]);
      if t.shown == [] {
        ConcatEmpty(rest.shown);
        ConcatEmpty(rest.events);
        assert r.shown == rest.shown && r.events == rest.events;
      } else {
        assert t.shown == [t.shown[0]];
        EndsInDeathCons(isPlayer, t.shown[0], rest.shown, rest.events);
        DeathCountCons(HitActionsRun(t.shown[0]), rest.events);
      }
    }
  }

  lemma DeathCountCons(e: Event, s: seq<Event>)
    ensures DeathCount([e] + s) == (if e == PlayerDeathPlugin || e == NpcDeathPlugin then 1 else 0) + DeathCount(s)
  {
    assert ([e] + s)[1..] == s;
  }

  /** With damage not delayed and no infinite health, a living pawn whose
      hit `i` is due, not cancelled and has a first hitmark of at least its
      lifepoints, every earlier hit being not yet due or cancelled, dies in
      this cycle: only that hit is shown, its first mark clamped to exactly
      the lifepoints and the marks after it untouched, its actions run and then one death plugin, the
      lifepoints end at exactly zero and nothing stays pending. */
  lemma FatalMarkKills(isPlayer: bool, lp: int, hits: seq<Hit>, i: nat)
    requires lp > 0 && i < |hits|
    requires forall j :: 0 <= j < i ==> hits[j].damageDelay != 0 || hits[j].cancelled
    requires hits[i].damageDelay == 0 && !hits[i].cancelled
    requires hits[i].hitmarks != [] && hits[i].hitmarks[0].damage >= lp
    ensures var r := HitsCycle(false, false, isPlayer, lp, hits);
      && r.lifepoints == 0 && r.pending == []
      && |r.shown| == 1 && r.shown[0].id == hits[i].id
      && r.shown[0].hitmarks == [hits[i].hitmarks[0].(damage := lp)] + hits[i].hitmarks[1..]
      && r.events == [HitActionsRun(r.shown[0]), DeathPlugin(isPlayer)]
      && DeathCount(r.events) == 1
  {
    FatalMarkProcess(isPlayer, lp, hits, i);
    var r := ProcessHits(false, false, isPlayer, lp, hits);
    DeathCountCons(HitActionsRun(r.shown[0]), [DeathPlugin(isPlayer)]);
    DeathCountCons(DeathPlugin(isPlayer), []);
  }

  lemma {:induction false} FatalMarkProcess(isPlayer: bool, lp: int, hits: seq<Hit>, i: nat)
    requires lp > 0 && i < |hits|
    requires forall j :: 0 <= j < i ==> hits[j].damageDelay != 0 || hits[j].cancelled
    requires hits[i].damageDelay == 0 && !hits[i].cancelled
    requires hits[i].hitmarks != [] && hits[i].hitmarks[0].damage >= lp
    decreases i
    ensures var r := ProcessHits(false, false, isPlayer, lp, hits);
      && r.lifepoints == 0
      && |r.shown| == 1 && r.shown[0].id == hits[i].id
      && r.shown[0].hitmarks == [hits[i].hitmarks[0].(damage := lp)] + hits[i].hitmarks[1..]
      && r.events == [HitActionsRun(r.shown[0]), DeathPlugin(isPlayer)]
  {
    var h := hits[0];
    if i == 0 {
      var mo := ApplyHitmarks(false, lp, h.hitmarks);
      assert Clamp(h.hitmarks[0].damage, lp) == lp;
      assert mo.fatal && mo.lifepoints == 0;
    } else {
      var t := Turn(false, false, isPlayer, lp, h);
      assert !t.stop && t.lifepoints == lp && t.shown == [] && t.events == [];
      assert hits[1..][i - 1] == hits[i];
      FatalMarkProcess(isPlayer, lp, hits[1..], i - 1);
      var rest := ProcessHits(false, false, isPlayer, lp, hits[1..]);
      ConcatEmpty(rest.shown);
      ConcatEmpty(rest.events);
    }
  }

  /** Damage never drives lifepoints below zero, and with infinite health
      they do not change at all. */
  lemma {:induction false} LifepointsStayNonNegative(delays: bool, infiniteHp: bool, isPlayer: bool,
                                                     lp: int, hits: seq<Hit>)
    requires lp >= 0
    ensures HitsCycle(delays, infiniteHp, isPlayer, lp, hits).lifepoints >= 0
    ensures infiniteHp ==> HitsCycle(delays, infiniteHp, isPlayer, lp, hits).lifepoints == lp
  {
    if lp > 0 {
      var r := ProcessHits(delays, infiniteHp, isPlayer, lp, hits);
      if r.lifepoints <= 0 {
        FatalCycle(delays, infiniteHp, isPlayer, lp, hits);
      } else if infiniteHp {
        if delays {
          ProcessDelayed(infiniteHp, isPlayer, lp, hits);
        } else {
          SurvivingCycle(infiniteHp, isPlayer, lp, hits);
        }
      }
    }
  }
}
