/** The mutable `AttackInfo` accumulator of Program.cs, its comparator, and the
    per-animation `Aggregate` that fills one from an animation's timeline. */
module AttackInfos {
  import opened Wrappers
  import opened Text
  import opened Events

  /** What `CompareTo` can throw. */
  datatype CompareError = NullReference

  class AttackInfo {
    /** Never assigned by the analyzer, so it stays `null` (None). */
    var animName: Option<string>
    var attacks: seq<Window>
    var recoveryStart: real
    /** The animation this record was folded from; `null` until the first step. */
    var anim: Option<Animation>

    /** The accumulated windows and recovery start. */
    function Summary(): Events.Summary
      reads this
    {
      Events.Summary(attacks, recoveryStart)
    }

    /** A fresh accumulator: no windows, recovery start -1, no name, no animation. */
    constructor ()
      ensures Summary() == Fresh
      ensures animName == None && anim == None
    {
      animName := None;
      attacks := [];
      recoveryStart := NoRecovery;
      anim := None;
    }

    /** One step of the fold over `source`'s timeline, applied to this accumulator in place. */
    method Apply(source: Animation, e: TaeEvent)
      modifies this
      ensures Summary() == Step(old(Summary()), e)
      ensures anim == Some(source) && animName == old(animName)
    {
      anim := Some(source);
      if e.eventType == AttackEventType {
        if e.unk04 == 0 {
          attacks := attacks + [Window(e.startTime, e.endTime)];
        }
      }
      if e.eventType == JumpTableEventType {
        // Scan the combo ids in order; the first match sets the recovery start
        // and ends the scan for this event only.
        var i := 0;
        while i < |ComboBehSubIds|
          invariant 0 <= i <= |ComboBehSubIds|
          invariant forall k :: 0 <= k < i ==> ComboBehSubIds[k] != e.jumpTableId
          invariant Summary() == old(Summary()) && anim == Some(source) && animName == old(animName)
        {
          if e.jumpTableId == ComboBehSubIds[i] {
            recoveryStart := e.startTime;
            break;
          }
          i := i + 1;
        }
      }
    }

    /** `CompareTo`: only the comparison of `animName` is reachable; the
        time-based branches after its unconditional return are dead. A null
        receiver name throws; any name sorts after a null other name. */
    function CompareTo(other: AttackInfo): (r: Result<int, CompareError>)
      reads this, other
      ensures r.Failure? <==> animName.None?
      ensures r.Success? ==> -1 <= r.value <= 1
      ensures r.Success? ==> (r.value == 0 <==> animName == other.animName)
      ensures r.Success? && other.animName.None? ==> r.value > 0
    {
      match animName
      case None => Failure(NullReference)
      case Some(mine) =>
        match other.animName
        case None => Success(1)
        case Some(theirs) =>
          OrdinalZeroIff(mine, theirs);
          Success(Ordinal(mine, theirs))
    }
  }

  /** `CompareTo` reads nothing but the two names: records with equal names
      compare equally whatever their windows and recovery starts. */
  lemma CompareToOnlyNames(a: AttackInfo, b: AttackInfo, c: AttackInfo, d: AttackInfo)
    requires a.animName == c.animName && b.animName == d.animName
    ensures a.CompareTo(b) == c.CompareTo(d)
  {
  }

  /** With both names present, `CompareTo` is antisymmetric like the string comparison. */
  lemma CompareToAntisymmetric(a: AttackInfo, b: AttackInfo)
    requires a.animName.Some? && b.animName.Some?
    ensures a.CompareTo(b).Success? && b.CompareTo(a).Success?
    ensures a.CompareTo(b).value == -b.CompareTo(a).value
  {
    OrdinalAntisymmetric(a.animName.value, b.animName.value);
  }

  /** With both names present, `CompareTo` is transitive. */
  lemma CompareToTransitive(a: AttackInfo, b: AttackInfo, c: AttackInfo)
    requires a.animName.Some? && b.animName.Some? && c.animName.Some?
    requires a.CompareTo(b).value <= 0 && b.CompareTo(c).value <= 0
    ensures a.CompareTo(c).value <= 0
  {
    OrdinalTransitive(a.animName.value, b.animName.value, c.animName.value);
  }

  /** The per-animation pipeline: keep the type-0 and type-1 events, drop the
      animation if none remain, otherwise fold them into a fresh `AttackInfo`. */
  method Aggregate(source: Animation) returns (info: Option<AttackInfo>)
    ensures info.None? <==> Summarize(source).None?
    ensures info.Some? ==> fresh(info.value) && Some(info.value.Summary()) == Summarize(source)
    ensures info.Some? ==> info.value.anim == Some(source) && info.value.animName == None
  {
    var kept := Relevant(source.events);
    if kept == [] {
      return None;
    }
    var acc := new AttackInfo();
    var i := 0;
    while i < |kept|
      invariant 0 <= i <= |kept|
      invariant FoldFrom(acc.Summary(), kept[i..]) == Fold(kept)
      invariant acc.animName == None && (i > 0 ==> acc.anim == Some(source))
    {
      assert kept[i..][1..] == kept[i + 1..];
      acc.Apply(source, kept[i]);
      i := i + 1;
    }
    return Some(acc);
  }
}
