/** Timeline events of an animation and the fold that summarises them into
    attack windows and a recovery start (Program.cs, the `Aggregate` in `Main`). */
module Events {
  import opened Wrappers
  import opened Seqs

  /** Event type code of a jump-table event (a possible recovery marker). */
  const JumpTableEventType: int := 0
  /** Event type code of an attack (hitbox) event. */
  const AttackEventType: int := 1
  /** Jump-table ids that mark the start of combo recovery, in scan order. */
  const ComboBehSubIds: seq<int> := [4, 116]
  /** Recovery start of an animation without a qualifying marker. */
  const NoRecovery: real := -1.0

  /** One timeline event with the parameters its template decodes:
      `unk04` is read only on attack events, `jumpTableId` only on jump-table events. */
  datatype TaeEvent = TaeEvent(eventType: int, startTime: real, endTime: real, unk04: int, jumpTableId: int)

  /** An animation of a weapon's timeline file. */
  datatype Animation = Animation(id: int, animFileName: string, events: seq<TaeEvent>)

  /** An attack window `(attackStart, attackEnd)`. */
  datatype Window = Window(attackStart: real, attackEnd: real)

  /** What an `AttackInfo` accumulates: its windows and its recovery start. */
  datatype Summary = Summary(attacks: seq<Window>, recoveryStart: real)

  /** The state of a freshly constructed `AttackInfo`. */
  const Fresh: Summary := Summary([], NoRecovery)

  /** An event the per-animation filter keeps (type 1 or type 0). */
  predicate IsRelevant(e: TaeEvent) {
    e.eventType == AttackEventType || e.eventType == JumpTableEventType
  }

  /** An attack event that is a genuine hitbox. */
  predicate IsHit(e: TaeEvent) {
    e.eventType == AttackEventType && e.unk04 == 0
  }

  /** A jump-table event whose id is one of the combo recovery ids. */
  predicate IsComboMarker(e: TaeEvent) {
    e.eventType == JumpTableEventType && e.jumpTableId in ComboBehSubIds
  }

  /** The events the per-animation filter keeps, in timeline order. */
  function Relevant(es: seq<TaeEvent>): (r: seq<TaeEvent>)
    ensures forall e :: e in r <==> e in es && IsRelevant(e)
  {
    WhereExactly(es, IsRelevant);
    Where(es, IsRelevant)
  }

  /** One step of the fold: the accumulator after seeing event `e`. */
  function Step(acc: Summary, e: TaeEvent): Summary {
    var attacks := if IsHit(e) then acc.attacks + [Window(e.startTime, e.endTime)] else acc.attacks;
    var recovery := if IsComboMarker(e) then e.startTime else acc.recoveryStart;
    Summary(attacks, recovery)
  }

  /** `Aggregate` from accumulator `acc` over `es`, front to back. */
  function FoldFrom(acc: Summary, es: seq<TaeEvent>): Summary
    decreases |es|
  {
    if es == [] then acc else FoldFrom(Step(acc, es[0]), es[1..])
  }

  /** The summary of a timeline, folded from a fresh accumulator. */
  function Fold(es: seq<TaeEvent>): Summary {
    FoldFrom(Fresh, es)
  }

  /** The summary of one animation, or None when the animation has no type-0
      or type-1 event at all and is dropped before the fold. */
  function Summarize(anim: Animation): Option<Summary> {
    var kept := Relevant(anim.events);
    if kept == [] then None else Some(Fold(kept))
  }

  /** Reference definition: the hit windows of `es`, in event order. */
  function Hits(es: seq<TaeEvent>): seq<Window> {
    if es == [] then []
    else (if IsHit(es[0]) then [Window(es[0].startTime, es[0].endTime)] else []) + Hits(es[1..])
  }

  /** A type-1 event adds its window exactly when `unk04 == 0`; any other event
      leaves the windows alone. */
  lemma StepAttacks(acc: Summary, e: TaeEvent)
    ensures IsHit(e) ==> Step(acc, e).attacks == acc.attacks + [Window(e.startTime, e.endTime)]
    ensures !IsHit(e) ==> Step(acc, e).attacks == acc.attacks
    ensures |Step(acc, e).attacks| == |acc.attacks| + 1 <==> IsHit(e)
  {
  }

  /** A jump-table event moves the recovery start exactly when its id is a
      combo id; the time it moves to is the event's start. */
  lemma StepRecovery(acc: Summary, e: TaeEvent)
    ensures IsComboMarker(e) ==> Step(acc, e).recoveryStart == e.startTime
    ensures !IsComboMarker(e) ==> Step(acc, e).recoveryStart == acc.recoveryStart
  {
  }

  /** The folded windows are the accumulator's, followed by the hit windows in order. */
  lemma {:induction false} FoldAttacks(acc: Summary, es: seq<TaeEvent>)
    ensures FoldFrom(acc, es).attacks == acc.attacks + Hits(es)
    decreases |es|
  {
    if es != [] {
      FoldAttacks(Step(acc, es[0]), es[1..]);
    }
  }

  /** The folded recovery start is the start time of the LAST combo marker, or
      the accumulator's own value when there is none. */
  lemma {:induction false} FoldRecovery(acc: Summary, es: seq<TaeEvent>)
    ensures (forall i :: 0 <= i < |es| ==> !IsComboMarker(es[i])) ==>
      FoldFrom(acc, es).recoveryStart == acc.recoveryStart
    ensures (exists i :: 0 <= i < |es| && IsComboMarker(es[i])) ==>
      exists i :: 0 <= i < |es| && IsComboMarker(es[i]) && FoldFrom(acc, es).recoveryStart == es[i].startTime
        && forall j :: i < j < |es| ==> !IsComboMarker(es[j])
    decreases |es|
  {
    if es != [] {
      var rest := es[1..];
      FoldRecovery(Step(acc, es[0]), rest);
      var r := FoldFrom(acc, es).recoveryStart;
      if exists k :: 0 <= k < |rest| && IsComboMarker(rest[k]) {
        var k :| 0 <= k < |rest| && IsComboMarker(rest[k]) && r == rest[k].startTime
          && forall j :: k < j < |rest| ==> !IsComboMarker(rest[j]);
        assert IsComboMarker(es[k + 1]) && r == es[k + 1].startTime;
        assert forall j :: k + 1 < j < |es| ==> es[j] == rest[j - 1];
      } else {
        assert forall j :: 0 < j < |es| ==> es[j] == rest[j - 1];
        if IsComboMarker(es[0]) {
          assert r == es[0].startTime;
        }
      }
    }
  }

  /** Events of other types never influence the fold. */
  lemma {:induction false} FoldIgnoresOtherTypes(acc: Summary, es: seq<TaeEvent>)
    ensures FoldFrom(acc, Relevant(es)) == FoldFrom(acc, es)
    decreases |es|
  {
    if es != [] {
      FoldIgnoresOtherTypes(Step(acc, es[0]), es[1..]);
      FoldIgnoresOtherTypes(acc, es[1..]);
      if IsRelevant(es[0]) {
        assert ([es[0]] + Relevant(es[1..]))[1..] == Relevant(es[1..]);
      } else {
        assert Relevant(es) == Relevant(es[1..]);
        assert Step(acc, es[0]) == acc;
      }
    }
  }

  /** No hit window in `es` means `Hits` is empty, and conversely. */
  lemma {:induction false} HitsEmpty(es: seq<TaeEvent>)
    ensures Hits(es) == [] <==> forall i :: 0 <= i < |es| ==> !IsHit(es[i])
  {
    if es != [] {
      HitsEmpty(es[1..]);
      assert forall i :: 0 < i < |es| ==> es[i] == es[1..][i - 1];
    }
  }

  /** A timeline whose events all fail their discriminator checks folds to a
      fresh accumulator: no windows and recovery start -1. */
  lemma NothingQualifies(es: seq<TaeEvent>)
    requires forall i :: 0 <= i < |es| ==> !IsHit(es[i]) && !IsComboMarker(es[i])
    ensures Fold(es) == Fresh
  {
    FoldAttacks(Fresh, es);
    FoldRecovery(Fresh, es);
    HitsEmpty(es);
  }

  /** The summary of an animation: None exactly when no event is of type 0 or 1;
      otherwise the hit windows of the whole timeline in order and the start of
      its last combo marker (or -1). */
  lemma SummarizeSpec(anim: Animation)
    ensures Summarize(anim).None? <==> forall i :: 0 <= i < |anim.events| ==> !IsRelevant(anim.events[i])
    ensures Summarize(anim).Some? ==> Summarize(anim).value.attacks == Hits(anim.events)
    ensures Summarize(anim).Some? ==> Summarize(anim).value == Fold(anim.events)
  {
    var es := anim.events;
    if Relevant(es) == [] {
      forall i | 0 <= i < |es| ensures !IsRelevant(es[i]) {
        assert es[i] in es;
      }
    } else {
      assert Relevant(es)[0] in Relevant(es);
    }
    FoldIgnoresOtherTypes(Fresh, es);
    FoldAttacks(Fresh, es);
  }

  /** Worked cases: a hit and a combo marker; the same with a non-combo id;
      an attack variant with `unk04` set; and only events of other types. */
  lemma Scenarios()
    ensures Summarize(Animation(0, "a000_003000.hkt",
      [TaeEvent(AttackEventType, 0.2, 0.5, 0, 0), TaeEvent(JumpTableEventType, 0.6, 0.7, 0, 4)]))
      == Some(Summary([Window(0.2, 0.5)], 0.6))
    ensures Summarize(Animation(0, "a000_003000.hkt",
      [TaeEvent(AttackEventType, 0.2, 0.5, 0, 0), TaeEvent(JumpTableEventType, 0.6, 0.7, 0, 999)]))
      == Some(Summary([Window(0.2, 0.5)], NoRecovery))
    ensures Summarize(Animation(0, "a000_003000.hkt",
      [TaeEvent(AttackEventType, 0.2, 0.5, 1, 0), TaeEvent(JumpTableEventType, 0.6, 0.7, 0, 116)]))
      == Some(Summary([], 0.6))
    ensures Summarize(Animation(0, "a000_003000.hkt", [TaeEvent(5, 0.1, 0.3, 0, 4)])) == None
  {
    var hit := TaeEvent(AttackEventType, 0.2, 0.5, 0, 0);
    var graze := TaeEvent(AttackEventType, 0.2, 0.5, 1, 0);
    TwoEvents(hit, TaeEvent(JumpTableEventType, 0.6, 0.7, 0, 4));
    assert ComboBehSubIds[0] == 4 && ComboBehSubIds[1] == 116;
    assert Step(Fresh, hit).attacks == [Window(0.2, 0.5)];
    TwoEvents(hit, TaeEvent(JumpTableEventType, 0.6, 0.7, 0, 999));
    assert 999 !in ComboBehSubIds;
    TwoEvents(graze, TaeEvent(JumpTableEventType, 0.6, 0.7, 0, 116));
    var other := [TaeEvent(5, 0.1, 0.3, 0, 4)];
    assert Relevant(other) == [] by {
      assert other[1..] == [];
    }
  }

  lemma TwoEvents(a: TaeEvent, b: TaeEvent)
    requires IsRelevant(a) && IsRelevant(b)
    ensures Summarize(Animation(0, "a000_003000.hkt", [a, b])) == Some(Step(Step(Fresh, a), b))
  {
    var es := [a, b];
    assert es[1..] == [b] && [b][1..] == [];
    assert Relevant([b]) == [b] + Relevant([]);
    assert Relevant(es) == [a] + Relevant([b]);
    assert Relevant(es) == es;
    assert Fold(es) == FoldFrom(Step(Fresh, a), [b]);
    assert FoldFrom(Step(Fresh, a), [b]) == FoldFrom(Step(Step(Fresh, a), b), []);
  }
}
