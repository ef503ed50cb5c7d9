/**
 What a serial CreateVolume leaves on the NAS whatever is answered, fails or is
 lost on the way. Which of the possible remains it is can be told from the events.
 */
module SagaLosses {
  import opened Wrappers
  import opened Nas
  import opened Saga
  import opened SagaSafety
  import opened SagaSerial

  // ------------------------------------------------------ what the events decide

  /** The attach is not acknowledged, and the LUN neither stays attached nor is removed. */
  predicate AttachStrands(script: seq<Event>) {
    var attach, undoTarget, undoLun := NextEvent(script), NextEvent(Rest(script)), NextEvent(Rest(Rest(script)));
    && attach.fate != Done && undoLun.fate == NoEffect
    && !(attach.fate == EffectLost && undoTarget.fate == NoEffect)
  }

  /** The attach takes effect unacknowledged, the target stays, and the LUN goes without being unmapped. */
  predicate AttachBreaks(script: seq<Event>) {
    var attach, undoTarget, undoLun := NextEvent(script), NextEvent(Rest(script)), NextEvent(Rest(Rest(script)));
    attach.fate == EffectLost && undoTarget.fate == NoEffect && undoLun.fate != NoEffect && !undoLun.unmaps
  }

  /** The events from the attach on, once all polls are answered; None when one is not. */
  function AfterPolls(script: seq<Event>): Option<seq<Event>>
    decreases |script|
  {
    if NextEvent(script).fate != Done then None
    else if StillCreating(NextEvent(script).status) then AfterPolls(Rest(script))
    else Some(Rest(script))
  }

  /** The events from the creation of the LUN on, once all calls before it are answered; None when one is not. */
  function AfterInitiator(script: seq<Event>): Option<seq<Event>> {
    var s1 := Rest(script);
    var s2 := Rest(s1);
    var s3 := Rest(s2);
    if NextEvent(script).fate == NextEvent(s1).fate == NextEvent(s2).fate == NextEvent(s3).fate == Done then
      Some(Rest(s3))
    else
      None
  }

  /** From the creation of the LUN on: the LUN is made and left attached to nothing. */
  predicate LunStrands(script: seq<Event>) {
    match NextEvent(script).fate
    case NoEffect => false
    case EffectLost => true
    case Done =>
      match AfterPolls(Rest(script))
      case None => true
      case Some(later) => AttachStrands(later)
  }

  /** From the creation of the LUN on: a mapping is left without its LUN. */
  predicate LunBreaks(script: seq<Event>) {
    NextEvent(script).fate == Done && AfterPolls(Rest(script)).Some? && AttachBreaks(AfterPolls(Rest(script)).value)
  }

  predicate CreateStrands(script: seq<Event>) {
    AfterInitiator(script).Some? && LunStrands(AfterInitiator(script).value)
  }

  predicate CreateBreaks(script: seq<Event>) {
    AfterInitiator(script).Some? && LunBreaks(AfterInitiator(script).value)
  }

  // ------------------------------------------------------------------ what remains

  /** A target more that maps a LUN which does not exist. */
  ghost predicate DanglingMore(n: Nas, n': Nas, x: string) {
    exists t, l :: TargetMore(n, n', x, t, [l]) && l !in n.luns && n'.luns == n.luns
  }

  ghost predicate Leaves(n: Nas, n': Nas, x: string, gib: int, strands: bool, breaks: bool) {
    if breaks then DanglingMore(n, n', x)
    else if strands then BareLunMore(n, n', x, gib) || Detached(n, n', x, gib)
    else SameMaps(n, n') || BareTargetMore(n, n', x) || SomeVolumeMore(n, n', x, gib)
  }

  /** The target of the create is there without LUNs, or is not there. */
  ghost predicate MaybeTarget(n: Nas, n1: Nas, x: string, t: int) {
    TargetMore(n, n1, x, t, []) || (t !in n.targets && n1.targets == n.targets)
  }

  /** The last removal, of a LUN that no list has. */
  lemma UndoesUnlisted(n: Nas, x: string, gib: int, t: int, l: int, n1: Nas, script: seq<Event>)
    requires ListsExist(n) && MaybeTarget(n, n1, x, t) && LunMore(n, n1, x, gib, l)
    ensures Leaves(n, Serial(x, UndoLun(l), n1, script).nas, x, gib, NextEvent(script).fate == NoEffect, false)
  {
    SerialStep(x, UndoLun(l), n1, script);
    FreshUnlisted(n, n1, x, t, l);
    NotUnmapped(n1, l);
    assert n1.luns - {l} == n.luns;
    var n2 := Serial(x, UndoLun(l), n1, script).nas;
    assert n2.targets == n1.targets && n2.luns == if NextEvent(script).fate == NoEffect then n1.luns else n.luns;
    assert TargetMore(n, n1, x, t, []) ==> TargetMore(n, n2, x, t, []);
    assert LunMore(n, n1, x, gib, l) && (NextEvent(script).fate == NoEffect ==> LunMore(n, n2, x, gib, l));
  }

  /** The last removal, of a LUN that the target still maps. */
  lemma UndoesListed(n: Nas, x: string, gib: int, t: int, l: int, n1: Nas, script: seq<Event>)
    requires ListsExist(n) && VolumeMore(n, n1, x, gib, t, l)
    ensures var e := NextEvent(script);
            Leaves(n, Serial(x, UndoLun(l), n1, script).nas, x, gib, false, e.fate != NoEffect && !e.unmaps)
  {
    SerialStep(x, UndoLun(l), n1, script);
    var e := NextEvent(script);
    var n2 := Serial(x, UndoLun(l), n1, script).nas;
    if e.fate == NoEffect {
      assert VolumeMore(n, n2, x, gib, t, l);
    } else {
      assert n1.luns - {l} == n.luns;
      if e.unmaps {
        UnmapsOwn(n, x, t, l, n1);
        assert TargetMore(n, n2, x, t, []);
      } else {
        assert TargetMore(n, n2, x, t, [l]);
      }
    }
  }

  lemma UnmapsOwn(n: Nas, x: string, t: int, l: int, n1: Nas)
    requires ListsExist(n) && TargetMore(n, n1, x, t, [l]) && l !in n.luns
    ensures var targets := Unmapped(n1.targets, l);
            targets == n.targets[t := n1.targets[t].(luns := [])]
  {
    var targets := Unmapped(n1.targets, l);
    assert [l][1..] == [] && Without([l], l) == Without([], l) == [];
    forall i | i in n.targets
      ensures targets[i] == n.targets[i]
    {
      assert i != t && (l in n.targets[i].luns ==> l in n.luns);
    }
  }

  /** Both removals after a failed attach; `n1` is the state after the attach. */
  lemma UndoesBoth(n: Nas, x: string, gib: int, t: int, l: int, n1: Nas, attached: bool, script: seq<Event>)
    requires ListsExist(n)
    requires if attached then VolumeMore(n, n1, x, gib, t, l)
             else TargetMore(n, n1, x, t, []) && LunMore(n, n1, x, gib, l)
    ensures var undoTarget, undoLun := NextEvent(script), NextEvent(Rest(script));
            var kept := attached && undoTarget.fate == NoEffect;
            Leaves(n, Serial(x, UndoBoth(t, l), n1, script).nas, x, gib,
                   undoLun.fate == NoEffect && !kept, kept && undoLun.fate != NoEffect && !undoLun.unmaps)
  {
    SerialStep(x, UndoBoth(t, l), n1, script);
    var a := Serve(n1, RemoveTarget(t), NextEvent(script));
    if NextEvent(script).fate != NoEffect {
      assert n1.targets - {t} == n.targets;
      UndoesUnlisted(n, x, gib, t, l, a.nas, Rest(script));
    } else if attached {
      UndoesListed(n, x, gib, t, l, a.nas, Rest(script));
    } else {
      UndoesUnlisted(n, x, gib, t, l, a.nas, Rest(script));
    }
  }

  lemma AttachLeaves(n: Nas, x: string, gib: int, t: int, l: int, n1: Nas, script: seq<Event>)
    requires ListsExist(n) && Standing(n, n1, x, t) && n1.targets[t].initiator && LunMore(n, n1, x, gib, l)
    ensures Leaves(n, Serial(x, Attach(t, l), n1, script).nas, x, gib, AttachStrands(script), AttachBreaks(script))
  {
    SerialStep(x, Attach(t, l), n1, script);
    var e := NextEvent(script);
    var n2 := Serve(n1, AttachLun(l, t), e).nas;
    AttachTakesEffect(n, x, gib, t, l, n1, e);
    if e.fate == Done {
      SerialStep(x, FindIqn, n2, Rest(script));
      assert VolumeMore(n, n2, x, gib, t, l);
    } else {
      UndoesBoth(n, x, gib, t, l, n2, e.fate == EffectLost, Rest(script));
    }
  }

  lemma AttachTakesEffect(n: Nas, x: string, gib: int, t: int, l: int, n1: Nas, e: Event)
    requires Standing(n, n1, x, t) && n1.targets[t].initiator && LunMore(n, n1, x, gib, l)
    ensures var a := Serve(n1, AttachLun(l, t), e);
            && (a.reply.Ack? <==> e.fate == Done)
            && (if e.fate == NoEffect then a.nas == n1 else VolumeMore(n, a.nas, x, gib, t, l))
  {
  }

  lemma {:induction false} PollsLeave(n: Nas, x: string, gib: int, t: int, l: int, n1: Nas, script: seq<Event>)
    requires ListsExist(n) && Standing(n, n1, x, t) && n1.targets[t].initiator && LunMore(n, n1, x, gib, l)
    ensures var later := AfterPolls(script);
            Leaves(n, Serial(x, AwaitLun(t, l), n1, script).nas, x, gib,
                   later.Some? ==> AttachStrands(later.value), later.Some? && AttachBreaks(later.value))
    decreases |script|
  {
    SerialStep(x, AwaitLun(t, l), n1, script);
    var e := NextEvent(script);
    if e.fate != Done {
      assert Detached(n, n1, x, gib);
    } else if StillCreating(e.status) {
      PollsLeave(n, x, gib, t, l, n1, Rest(script));
    } else {
      AttachLeaves(n, x, gib, t, l, n1, Rest(script));
    }
  }

  /** Removing the target again, with or without a LUN that was made beside it. */
  lemma UndoneTarget(n: Nas, x: string, t: int, cause: SagaError, n1: Nas, script: seq<Event>)
    requires TargetMore(n, n1, x, t, [])
    ensures var n2 := Serial(x, UndoTarget(t, cause), n1, script).nas;
            MaybeTarget(n, n2, x, t) && n2.luns == n1.luns
  {
    SerialStep(x, UndoTarget(t, cause), n1, script);
    assert n1.targets - {t} == n.targets;
  }

  lemma LunLeaves(n: Nas, x: string, gib: int, t: int, n1: Nas, script: seq<Event>)
    requires ListsExist(n) && Standing(n, n1, x, t) && n1.targets[t].initiator && n1.luns == n.luns
    ensures var free := !LunNameInUse(n, x);
            Leaves(n, Serial(x, MakeLun(t, gib), n1, script).nas, x, gib,
                   free && LunStrands(script), free && LunBreaks(script))
  {
    SerialStep(x, MakeLun(t, gib), n1, script);
    var e := NextEvent(script);
    var n2 := Serve(n1, AddLun(x, gib), e).nas;
    var l := FreeSlot(n.luns.Keys, e.slot);
    var made := e.fate != NoEffect && !LunNameInUse(n, x);
    assert if made then LunMore(n, n2, x, gib, l) else n2 == n1;
    if e.fate == Done && made {
      PollsLeave(n, x, gib, t, l, n2, Rest(script));
    } else {
      UndoneTarget(n, x, t, LunFailed, n2, Rest(script));
      var n3 := Serial(x, UndoTarget(t, LunFailed), n2, Rest(script)).nas;
      assert made ==> LunMore(n, n3, x, gib, l);
    }
  }

  lemma InitiatorLeaves(n: Nas, x: string, gib: int, t: int, n1: Nas, script: seq<Event>)
    requires ListsExist(n) && Standing(n, n1, x, t) && n1.luns == n.luns
    ensures var done := NextEvent(script).fate == Done && !LunNameInUse(n, x);
            Leaves(n, Serial(x, MakeInitiator(t, gib), n1, script).nas, x, gib,
                   done && LunStrands(Rest(script)), done && LunBreaks(Rest(script)))
  {
    SerialStep(x, MakeInitiator(t, gib), n1, script);
    var n2 := Serve(n1, AddInitiator(t), NextEvent(script)).nas;
    assert Standing(n, n2, x, t) && n2.luns == n.luns;
    if NextEvent(script).fate == Done {
      LunLeaves(n, x, gib, t, n2, Rest(script));
    } else {
      UndoneTarget(n, x, t, InitiatorFailed, n2, Rest(script));
    }
  }

  lemma TargetLeaves(n: Nas, x: string, gib: int, script: seq<Event>)
    requires ListsExist(n) && NoTarget(n, x)
    ensures var done := NextEvent(script).fate == NextEvent(Rest(script)).fate == Done && !LunNameInUse(n, x);
            var later := Rest(Rest(script));
            Leaves(n, Serial(x, MakeTarget(gib), n, script).nas, x, gib,
                   done && LunStrands(later), done && LunBreaks(later))
  {
    SerialStep(x, MakeTarget(gib), n, script);
    var e := NextEvent(script);
    var n1 := Serve(n, AddTarget(x), e).nas;
    var t := FreeSlot(n.targets.Keys, e.slot);
    assert e.fate != NoEffect ==> Standing(n, n1, x, t) && n1.luns == n.luns;
    if e.fate == Done {
      InitiatorLeaves(n, x, gib, t, n1, Rest(script));
    }
  }

  /**
   What every serial create leaves, whatever fails or is lost. When the name has no
   target: a target that maps a LUN that is gone, or a LUN that is attached to
   nothing, or neither, that is nothing, a bare target or a complete volume; and
   which of the three it is depends on the events as `CreateBreaks` and
   `CreateStrands` say, but no LUN is made when one of the name is there already.
   When the name has a target: nothing.
   */
  lemma CreateEffect(n: Nas, x: string, gib: int, script: seq<Event>)
    requires ListsExist(n)
    ensures var n' := RunCreate(x, gib, n, script).nas;
            var free := !LunNameInUse(n, x);
            if NoTarget(n, x) then Leaves(n, n', x, gib, free && CreateStrands(script), free && CreateBreaks(script))
            else SameMaps(n, n')
  {
    SerialStep(x, CreateLogin(gib), n, script);
    if NextEvent(script).fate == Done {
      var s1 := Rest(script);
      SerialStep(x, CreateCheck(gib), n, s1);
      FindInListing(n, NextEvent(s1).order, x);
      if NextEvent(s1).fate == Done && NoTarget(n, x) {
        TargetLeaves(n, x, gib, Rest(s1));
      }
    }
  }
}
