/**
 What one CreateVolume or DeleteVolume request leaves behind when no other
 request is served meanwhile, and what follows for series of such requests.
 Everything is about the two maps of the NAS; its creation counter only names
 objects apart.
 */
module SagaSerial {
  import opened Lists
  import opened Nas
  import opened Saga
  import opened SagaSafety

  ghost predicate SameMaps(n: Nas, n': Nas) {
    n'.targets == n.targets && n'.luns == n.luns
  }

  /** No call takes effect while its caller is told it failed. */
  ghost predicate Lossless(script: seq<Event>) {
    forall k | 0 <= k < |script| :: script[k].fate != EffectLost
  }

  lemma LosslessRest(script: seq<Event>)
    requires Lossless(script)
    ensures Lossless(Rest(script)) && NextEvent(script).fate != EffectLost
  {
  }

  /** Every removal the request asked for was acknowledged. */
  ghost predicate Compensated(log: seq<Exchange>) {
    forall k | 0 <= k < |log| :: log[k].call.RemoveTarget? || log[k].call.RemoveLun? ==> log[k].reply.Ack?
  }

  lemma CompensatedCons(e: Exchange, log: seq<Exchange>)
    ensures Compensated([e] + log) <==>
            (e.call.RemoveTarget? || e.call.RemoveLun? ==> e.reply.Ack?) && Compensated(log)
  {
    var all := [e] + log;
    assert all[0] == e && forall k | 0 <= k < |log| :: log[k] == all[k + 1];
    if Compensated(all) {
      assert forall k | 0 <= k < |log| :: log[k] == all[k + 1];
    } else if e.call.RemoveTarget? || e.call.RemoveLun? ==> e.reply.Ack? {
      var k :| 0 <= k < |all| && (all[k].call.RemoveTarget? || all[k].call.RemoveLun?) && !all[k].reply.Ack?;
      assert log[k - 1] == all[k];
    }
  }

  /** One more target, `t`, of the name `x` and with these LUNs; no other changes. */
  ghost predicate TargetMore(n: Nas, n': Nas, x: string, t: int, luns: seq<int>) {
    && t !in n.targets && t in n'.targets && n'.targets == n.targets[t := n'.targets[t]]
    && n'.targets[t].name == x && n'.targets[t].luns == luns
  }

  /** One more LUN, `l`, of the name `x` and this capacity; no other changes. */
  ghost predicate LunMore(n: Nas, n': Nas, x: string, gib: int, l: int) {
    && l !in n.luns && l in n'.luns && n'.luns == n.luns[l := n'.luns[l]]
    && n'.luns[l].name == x && n'.luns[l].gib == gib
  }

  /** A complete volume more: a target open to initiators, with the one new LUN attached. */
  ghost predicate VolumeMore(n: Nas, n': Nas, x: string, gib: int, t: int, l: int) {
    TargetMore(n, n', x, t, [l]) && n'.targets[t].initiator && LunMore(n, n', x, gib, l)
  }

  ghost predicate SomeVolumeMore(n: Nas, n': Nas, x: string, gib: int) {
    exists t, l :: VolumeMore(n, n', x, gib, t, l)
  }

  /** A complete volume more, whose target has this IQN. */
  ghost predicate CreatedWith(n: Nas, n': Nas, x: string, gib: int, iqn: string) {
    exists t, l :: VolumeMore(n, n', x, gib, t, l) && n'.targets[t].iqn == iqn
  }

  ghost predicate BareTargetMore(n: Nas, n': Nas, x: string) {
    exists t :: TargetMore(n, n', x, t, []) && n'.luns == n.luns
  }

  ghost predicate BareLunMore(n: Nas, n': Nas, x: string, gib: int) {
    exists l :: LunMore(n, n', x, gib, l) && n'.targets == n.targets
  }

  ghost predicate Detached(n: Nas, n': Nas, x: string, gib: int) {
    exists t, l :: TargetMore(n, n', x, t, []) && LunMore(n, n', x, gib, l)
  }

  /** Whether the last call of the request was acknowledged. */
  ghost predicate LastAcked(log: seq<Exchange>) {
    log != [] && log[|log| - 1].reply.Ack?
  }

  /** What is left when the target alone was there to be removed again. */
  ghost predicate UndoResidue(n: Nas, x: string, r: Ran) {
    if Compensated(r.log) then SameMaps(n, r.nas) else BareTargetMore(n, r.nas, x)
  }

  /** What a failed attach leaves when no effect is lost, by which of the two removals failed. */
  ghost predicate AttachResidue(n: Nas, x: string, gib: int, r: Ran) {
    if Compensated(r.log) then SameMaps(n, r.nas)
    else if LastAcked(r.log) then BareTargetMore(n, r.nas, x)
    else BareLunMore(n, r.nas, x, gib) || Detached(n, r.nas, x, gib)
  }

  /**
   The outcomes of a create from the second listing on, or before the first one,
   each with what it leaves on the NAS; for the failures that come after an
   unanswered change, when that change had no effect.
   */
  ghost predicate CreateEnding(n: Nas, x: string, gib: int, r: Ran, lossless: bool) {
    match r.outcome
    case Created(iqn) => NoTarget(n, x) && iqn != "" && CreatedWith(n, r.nas, x, gib, iqn)
    case Deleted => false
    case Refused(error) =>
      match error
      case LoginFailed => SameMaps(n, r.nas)
      case AlreadyExists => SameMaps(n, r.nas) && !NoTarget(n, x)
      case TargetFailed => NoTarget(n, x) && (lossless ==> SameMaps(n, r.nas))
      case InitiatorFailed => NoTarget(n, x) && (lossless ==> UndoResidue(n, x, r))
      case LunFailed => NoTarget(n, x) && (lossless ==> UndoResidue(n, x, r))
      case ReadinessFailed => NoTarget(n, x) && Detached(n, r.nas, x, gib)
      case AttachFailed => NoTarget(n, x) && (lossless ==> AttachResidue(n, x, gib, r))
      case ListFailed => NoTarget(n, x) && SomeVolumeMore(n, r.nas, x, gib)
      case IqnMissing => NoTarget(n, x) && SomeVolumeMore(n, r.nas, x, gib)
      case _ => false
  }

  /**
   The outcomes of a whole create. There are two listings: when the first one
   fails, with the second call of the log, nothing was done; when the later one
   does, the volume is complete.
   */
  ghost predicate CreateResult(n: Nas, x: string, gib: int, r: Ran, lossless: bool) {
    if r.outcome == Refused(ListFailed) && |r.log| == 2 then SameMaps(n, r.nas)
    else CreateEnding(n, x, gib, r, lossless)
  }

  /** Putting a call other than a removal before what follows changes nothing about the ending. */
  lemma EndingCons(n: Nas, x: string, gib: int, r: Ran, e: Exchange, lossless: bool)
    requires CreateEnding(n, x, gib, r, lossless)
    requires !e.call.RemoveTarget? && !e.call.RemoveLun?
    requires r.log == [] ==> !r.outcome.Refused? || r.outcome.error != AttachFailed
    ensures CreateEnding(n, x, gib, r.(log := [e] + r.log), lossless)
  {
    CompensatedCons(e, r.log);
  }

  // -------------------------------------------------- from each position to the end

  /** Position after the target was made; `n` was the state before. */
  ghost predicate Standing(n: Nas, n1: Nas, x: string, t: int) {
    NoTarget(n, x) && TargetMore(n, n1, x, t, [])
  }

  /** One call of a serial run, and the rest. */
  lemma SerialStep(x: string, job: Job, n: Nas, script: seq<Event>)
    requires Pending(job)
    ensures var (n1, next) := Next(n, x, job, NextEvent(script));
            var ex := Exchange(Issue(x, job), Serve(n, Issue(x, job), NextEvent(script)).reply);
            var r1 := Serial(x, next, n1, Rest(script));
            && Serial(x, job, n, script) == r1.(log := [ex] + r1.log)
            && (next.Finished? ==> Serial(x, job, n, script) == Ran(next.outcome, n1, Rest(script), [ex]))
  {
    var (n1, next) := Next(n, x, job, NextEvent(script));
    var ex := Exchange(Issue(x, job), Serve(n, Issue(x, job), NextEvent(script)).reply);
    assert next.Finished? ==> [ex] + [] == [ex];
  }

  lemma FromFindIqn(n: Nas, x: string, gib: int, t: int, l: int, n1: Nas, script: seq<Event>, lossless: bool)
    requires NoTarget(n, x) && VolumeMore(n, n1, x, gib, t, l)
    ensures CreateEnding(n, x, gib, Serial(x, FindIqn, n1, script), lossless)
    ensures Serial(x, FindIqn, n1, script).log != []
  {
    SerialStep(x, FindIqn, n1, script);
    FindIqnOutcome(x, n1, t, NextEvent(script));
    assert VolumeMore(n, n1, x, gib, t, l);
  }

  lemma FromUndoTarget(n: Nas, x: string, gib: int, t: int, cause: SagaError, n1: Nas, script: seq<Event>)
    requires Standing(n, n1, x, t) && n1.luns == n.luns
    requires cause == InitiatorFailed || cause == LunFailed
    ensures CreateEnding(n, x, gib, Serial(x, UndoTarget(t, cause), n1, script), Lossless(script))
  {
    SerialStep(x, UndoTarget(t, cause), n1, script);
    assert n1.targets - {t} == n.targets;
    var r := Serial(x, UndoTarget(t, cause), n1, script);
    if r.log[0].reply.Ack? {
      assert Compensated(r.log) && SameMaps(n, r.nas);
    } else {
      assert !Compensated(r.log);
      assert Lossless(script) ==> r.nas == n1;
    }
  }

  lemma NotUnmapped(n: Nas, l: int)
    requires Unlisted(n, l)
    ensures Unmapped(n.targets, l) == n.targets
  {
    var u := Unmapped(n.targets, l);
    assert u.Keys == n.targets.Keys;
    assert forall i | i in n.targets :: u[i] == n.targets[i];
  }

  lemma FromUndoLun(x: string, l: int, n1: Nas, script: seq<Event>)
    requires Unlisted(n1, l)
    ensures var r := Serial(x, UndoLun(l), n1, script);
            && r.outcome == Refused(AttachFailed) && |r.log| == 1 && r.log[0].call == RemoveLun(l)
            && (Lossless(script) ==>
                  && r.nas.targets == n1.targets
                  && r.nas.luns == if r.log[0].reply.Ack? then n1.luns - {l} else n1.luns)
  {
    SerialStep(x, UndoLun(l), n1, script);
    NotUnmapped(n1, l);
  }

  /** A fresh LUN that was not attached is on no list. */
  lemma FreshUnlisted(n: Nas, n1: Nas, x: string, t: int, l: int)
    requires ListsExist(n) && l !in n.luns
    requires TargetMore(n, n1, x, t, []) || n1.targets == n.targets
    ensures Unlisted(n1, l)
  {
    forall i | i in n1.targets
      ensures l !in n1.targets[i].luns
    {
      assert i in n.targets && l in n.targets[i].luns ==> l in n.luns;
    }
  }

  lemma FromUndoBoth(n: Nas, x: string, gib: int, t: int, l: int, n1: Nas, script: seq<Event>)
    requires ListsExist(n)
    requires Standing(n, n1, x, t) && LunMore(n, n1, x, gib, l)
    ensures CreateEnding(n, x, gib, Serial(x, UndoBoth(t, l), n1, script), Lossless(script))
    ensures Serial(x, UndoBoth(t, l), n1, script).log != []
  {
    SerialStep(x, UndoBoth(t, l), n1, script);
    var a := Serve(n1, RemoveTarget(t), NextEvent(script));
    assert n1.targets - {t} == n.targets && n1.luns - {l} == n.luns;
    FreshUnlisted(n, a.nas, x, t, l);
    FromUndoLun(x, l, a.nas, Rest(script));
    var r1 := Serial(x, UndoLun(l), a.nas, Rest(script));
    var r := Serial(x, UndoBoth(t, l), n1, script);
    var ex := Exchange(RemoveTarget(t), a.reply);
    assert r.log == [ex] + r1.log && r1.log == [r1.log[0]];
    CompensatedCons(ex, r1.log);
    assert Compensated(r1.log) <==> r1.log[0].reply.Ack?;
    assert LastAcked(r.log) <==> r1.log[0].reply.Ack?;
    if Lossless(script) {
      LosslessRest(script);
      if a.reply.Ack? {
        assert a.nas.targets == n.targets;
        assert r1.log[0].reply.Ack? || LunMore(n, r.nas, x, gib, l);
      } else {
        assert a.nas == n1;
        assert TargetMore(n, r.nas, x, t, []);
        assert r1.log[0].reply.Ack? || LunMore(n, r.nas, x, gib, l);
      }
    }
  }

  lemma AttachAcked(n: Nas, x: string, gib: int, t: int, l: int, n1: Nas, e: Event)
    requires Standing(n, n1, x, t) && n1.targets[t].initiator && LunMore(n, n1, x, gib, l)
    ensures var a := Serve(n1, AttachLun(l, t), e);
            && (a.reply.Ack? ==> VolumeMore(n, a.nas, x, gib, t, l))
            && (e.fate == NoEffect ==> a.nas == n1 && a.reply == Failed)
            && (a.reply.Ack? <==> e.fate == Done)
  {
  }

  lemma FromAttach(n: Nas, x: string, gib: int, t: int, l: int, n1: Nas, script: seq<Event>)
    requires ListsExist(n)
    requires Standing(n, n1, x, t) && n1.targets[t].initiator && LunMore(n, n1, x, gib, l)
    ensures CreateEnding(n, x, gib, Serial(x, Attach(t, l), n1, script), Lossless(script))
    ensures Serial(x, Attach(t, l), n1, script).log != []
  {
    SerialStep(x, Attach(t, l), n1, script);
    var a := Serve(n1, AttachLun(l, t), NextEvent(script));
    var ex := Exchange(AttachLun(l, t), a.reply);
    AttachAcked(n, x, gib, t, l, n1, NextEvent(script));
    if a.reply.Ack? {
      FromFindIqn(n, x, gib, t, l, a.nas, Rest(script), Lossless(script));
      EndingCons(n, x, gib, Serial(x, FindIqn, a.nas, Rest(script)), ex, Lossless(script));
    } else if Lossless(script) {
      LosslessRest(script);
      FromUndoBoth(n, x, gib, t, l, n1, Rest(script));
      EndingCons(n, x, gib, Serial(x, UndoBoth(t, l), n1, Rest(script)), ex, true);
    } else {
      UndoBothRefused(x, t, l, a.nas, Rest(script));
    }
  }

  lemma UndoBothRefused(x: string, t: int, l: int, n1: Nas, script: seq<Event>)
    ensures Serial(x, UndoBoth(t, l), n1, script).outcome == Refused(AttachFailed)
  {
    SerialStep(x, UndoBoth(t, l), n1, script);
    var a := Serve(n1, RemoveTarget(t), NextEvent(script));
    SerialStep(x, UndoLun(l), a.nas, Rest(script));
  }

  lemma {:induction false} FromAwaitLun(n: Nas, x: string, gib: int, t: int, l: int, n1: Nas, script: seq<Event>)
    requires ListsExist(n)
    requires Standing(n, n1, x, t) && n1.targets[t].initiator && LunMore(n, n1, x, gib, l)
    ensures CreateEnding(n, x, gib, Serial(x, AwaitLun(t, l), n1, script), Lossless(script))
    ensures Serial(x, AwaitLun(t, l), n1, script).log != []
    decreases |script|
  {
    SerialStep(x, AwaitLun(t, l), n1, script);
    var a := Serve(n1, LunStatus(l), NextEvent(script));
    var ex := Exchange(LunStatus(l), a.reply);
    assert a.nas == n1;
    if !a.reply.Status? {
      assert TargetMore(n, n1, x, t, []) && LunMore(n, n1, x, gib, l);
    } else {
      var next := if StillCreating(a.reply.status) then AwaitLun(t, l) else Attach(t, l);
      if StillCreating(a.reply.status) {
        FromAwaitLun(n, x, gib, t, l, n1, Rest(script));
      } else {
        FromAttach(n, x, gib, t, l, n1, Rest(script));
      }
      var r1 := Serial(x, next, n1, Rest(script));
      EndingCons(n, x, gib, r1, ex, Lossless(Rest(script)));
      EndingWeakens(n, x, gib, Serial(x, AwaitLun(t, l), n1, script), Lossless(Rest(script)), Lossless(script));
    }
  }

  lemma EndingWeakens(n: Nas, x: string, gib: int, r: Ran, had: bool, have: bool)
    requires CreateEnding(n, x, gib, r, had) && (have ==> had)
    ensures CreateEnding(n, x, gib, r, have)
  {
  }

  lemma UndoTargetRefused(x: string, t: int, cause: SagaError, n1: Nas, script: seq<Event>)
    ensures Serial(x, UndoTarget(t, cause), n1, script).outcome == Refused(cause)
    ensures Serial(x, UndoTarget(t, cause), n1, script).log != []
  {
    SerialStep(x, UndoTarget(t, cause), n1, script);
  }

  lemma FromMakeLun(n: Nas, x: string, gib: int, t: int, n1: Nas, script: seq<Event>)
    requires ListsExist(n)
    requires Standing(n, n1, x, t) && n1.targets[t].initiator && n1.luns == n.luns
    ensures CreateEnding(n, x, gib, Serial(x, MakeLun(t, gib), n1, script), Lossless(script))
    ensures Serial(x, MakeLun(t, gib), n1, script).log != []
  {
    SerialStep(x, MakeLun(t, gib), n1, script);
    var a := Serve(n1, AddLun(x, gib), NextEvent(script));
    var ex := Exchange(AddLun(x, gib), a.reply);
    if a.reply.Index? {
      assert LunMore(n, a.nas, x, gib, a.reply.index);
      FromAwaitLun(n, x, gib, t, a.reply.index, a.nas, Rest(script));
      EndingCons(n, x, gib, Serial(x, AwaitLun(t, a.reply.index), a.nas, Rest(script)), ex, Lossless(script));
    } else {
      UndoTargetRefused(x, t, LunFailed, a.nas, Rest(script));
      if Lossless(script) {
        LosslessRest(script);
        assert a.nas == n1;
        FromUndoTarget(n, x, gib, t, LunFailed, n1, Rest(script));
        EndingCons(n, x, gib, Serial(x, UndoTarget(t, LunFailed), n1, Rest(script)), ex, true);
      }
    }
  }

  lemma FromMakeInitiator(n: Nas, x: string, gib: int, t: int, n1: Nas, script: seq<Event>)
    requires ListsExist(n)
    requires Standing(n, n1, x, t) && n1.luns == n.luns
    ensures CreateEnding(n, x, gib, Serial(x, MakeInitiator(t, gib), n1, script), Lossless(script))
    ensures Serial(x, MakeInitiator(t, gib), n1, script).log != []
  {
    SerialStep(x, MakeInitiator(t, gib), n1, script);
    var a := Serve(n1, AddInitiator(t), NextEvent(script));
    var ex := Exchange(AddInitiator(t), a.reply);
    if a.reply.Ack? {
      assert Standing(n, a.nas, x, t);
      FromMakeLun(n, x, gib, t, a.nas, Rest(script));
      EndingCons(n, x, gib, Serial(x, MakeLun(t, gib), a.nas, Rest(script)), ex, Lossless(script));
    } else {
      UndoTargetRefused(x, t, InitiatorFailed, a.nas, Rest(script));
      if Lossless(script) {
        LosslessRest(script);
        assert a.nas == n1;
        FromUndoTarget(n, x, gib, t, InitiatorFailed, n1, Rest(script));
        EndingCons(n, x, gib, Serial(x, UndoTarget(t, InitiatorFailed), n1, Rest(script)), ex, true);
      }
    }
  }

  lemma FromMakeTarget(n: Nas, x: string, gib: int, script: seq<Event>)
    requires ListsExist(n) && NoTarget(n, x)
    ensures CreateEnding(n, x, gib, Serial(x, MakeTarget(gib), n, script), Lossless(script))
    ensures Serial(x, MakeTarget(gib), n, script).log != []
  {
    SerialStep(x, MakeTarget(gib), n, script);
    var a := Serve(n, AddTarget(x), NextEvent(script));
    var ex := Exchange(AddTarget(x), a.reply);
    if a.reply.Index? {
      assert Standing(n, a.nas, x, a.reply.index);
      FromMakeInitiator(n, x, gib, a.reply.index, a.nas, Rest(script));
      EndingCons(n, x, gib, Serial(x, MakeInitiator(a.reply.index, gib), a.nas, Rest(script)), ex, Lossless(script));
    }
  }

  lemma FromCreateCheck(n: Nas, x: string, gib: int, script: seq<Event>)
    requires ListsExist(n)
    ensures var r := Serial(x, CreateCheck(gib), n, script);
            && r.log != []
            && if r.outcome == Refused(ListFailed) && |r.log| == 1 then SameMaps(n, r.nas)
               else CreateEnding(n, x, gib, r, Lossless(script))
  {
    SerialStep(x, CreateCheck(gib), n, script);
    var a := Serve(n, ListTargets, NextEvent(script));
    var ex := Exchange(ListTargets, a.reply);
    assert a.nas == n;
    if a.reply.Listing? {
      FindInListing(n, NextEvent(script).order, x);
      if NoTarget(n, x) {
        FromMakeTarget(n, x, gib, Rest(script));
        EndingCons(n, x, gib, Serial(x, MakeTarget(gib), n, Rest(script)), ex, Lossless(script));
      }
    }
  }

  // --------------------------------------------------------------- the theorems

  /**
   How every serial create ends. On success exactly one complete volume is new:
   a target of the name, open to initiators, with one LUN of the requested
   capacity attached; and the IQN reported is that target's own. A refusal leaves
   exactly what `CreateResult` lists for it, provided that no effect was lost when it
   follows a call that makes something.
   */
  lemma CreateResidue(n: Nas, x: string, gib: int, script: seq<Event>)
    requires ListsExist(n)
    ensures CreateResult(n, x, gib, RunCreate(x, gib, n, script), Lossless(script))
  {
    SerialStep(x, CreateLogin(gib), n, script);
    var a := Serve(n, Login, NextEvent(script));
    var ex := Exchange(Login, a.reply);
    if a.reply.Ack? {
      FromCreateCheck(n, x, gib, Rest(script));
      var r1 := Serial(x, CreateCheck(gib), n, Rest(script));
      if r1.outcome != Refused(ListFailed) || |r1.log| != 1 {
        EndingCons(n, x, gib, r1, ex, Lossless(script));
      }
    }
  }

  // ----------------------------------------------------------------- deleting

  ghost predicate AllUnlisted(n: Nas, luns: seq<int>) {
    forall k | 0 <= k < |luns| :: Unlisted(n, luns[k])
  }

  lemma ElementsOfPrefix(luns: seq<int>, count: nat)
    requires luns != [] && 0 < count <= |luns|
    ensures Elements(luns[..count]) == {luns[0]} + Elements(luns[1..][..count - 1])
  {
    assert luns[..count] == [luns[0]] + luns[1..][..count - 1];
    ElementsOfCons(luns[0], luns[1..][..count - 1]);
  }

  /** The first `count` of these LUNs are gone, and nothing else. */
  ghost predicate LunsGone(n: Nas, n': Nas, luns: seq<int>, count: nat) {
    count <= |luns| && n'.targets == n.targets && n'.luns == n.luns - Elements(luns[..count])
  }

  /** How many of `m` LUNs go, one removal after the other up to the first that is not acknowledged. */
  function Dropped(script: seq<Event>, m: nat): (count: nat)
    ensures count <= m
  {
    if m == 0 then 0
    else
      match NextEvent(script).fate
      case Done => 1 + Dropped(Rest(script), m - 1)
      case NoEffect => 0
      case EffectLost => 1
  }

  /** The removal of the LUN with this number in the list is the last call of the log. */
  ghost predicate StoppedAt(log: seq<Exchange>, luns: seq<int>, number: int) {
    0 <= number < |luns| && log != [] && log[|log| - 1].call == RemoveLun(luns[number])
  }

  /**
   The outcomes of removing these LUNs in order. Whatever fails, exactly the first
   ones are gone, as many as the events say; without lost effects these are the
   ones before the LUN at which it stopped.
   */
  ghost predicate DropEnding(n: Nas, luns: seq<int>, r: Ran, script: seq<Event>) {
    && LunsGone(n, r.nas, luns, Dropped(script, |luns|))
    && match r.outcome
       case Created(_) => false
       case Deleted => Dropped(script, |luns|) == |luns| == |r.log|
       case Refused(error) =>
         && error == DeleteLunFailed && StoppedAt(r.log, luns, |r.log| - 1)
         && (Lossless(script) ==> Dropped(script, |luns|) == |r.log| - 1)
  }

  lemma LunDropped(n: Nas, luns: seq<int>, e: Event)
    requires AllUnlisted(n, luns) && luns != []
    ensures var n' := Effect(n, RemoveLun(luns[0]), e).nas;
            && n'.targets == n.targets && n'.luns == n.luns - {luns[0]}
            && LunsGone(n, n', luns, 1) && AllUnlisted(n', luns[1..])
  {
    NotUnmapped(n, luns[0]);
    assert luns[..1] == [luns[0]];
    assert Elements(luns[..1]) == {luns[0]};
    assert forall k | 0 <= k < |luns[1..]| :: luns[1..][k] == luns[k + 1];
  }

  lemma NoneGone(n: Nas, luns: seq<int>)
    ensures LunsGone(n, n, luns, 0)
  {
    assert n.luns - Elements(luns[..0]) == n.luns;
  }

  lemma {:induction false} FromDropRest(x: string, luns: seq<int>, n: Nas, script: seq<Event>)
    requires AllUnlisted(n, luns)
    ensures DropEnding(n, luns, Serial(x, DropRest(luns), n, script), script)
    decreases |luns|
  {
    if luns == [] {
      NoneGone(n, luns);
    } else if NextEvent(script).fate == Done {
      var n1 := Effect(n, RemoveLun(luns[0]), NextEvent(script)).nas;
      LunDropped(n, luns, NextEvent(script));
      FromDropRest(x, luns[1..], n1, Rest(script));
      DropAcked(x, luns, n, script);
      var r1 := Serial(x, DropRest(luns[1..]), n1, Rest(script));
      DropShift(n, n1, luns, r1, Exchange(RemoveLun(luns[0]), Ack), script);
    } else {
      DropStops(x, luns, n, script);
    }
  }

  lemma DropAcked(x: string, luns: seq<int>, n: Nas, script: seq<Event>)
    requires luns != [] && NextEvent(script).fate == Done
    ensures var n1 := Effect(n, RemoveLun(luns[0]), NextEvent(script)).nas;
            var r1 := Serial(x, DropRest(luns[1..]), n1, Rest(script));
            Serial(x, DropRest(luns), n, script) == r1.(log := [Exchange(RemoveLun(luns[0]), Ack)] + r1.log)
  {
    SerialStep(x, DropLuns(luns), n, script);
  }

  lemma DropStops(x: string, luns: seq<int>, n: Nas, script: seq<Event>)
    requires AllUnlisted(n, luns) && luns != [] && NextEvent(script).fate != Done
    ensures DropEnding(n, luns, Serial(x, DropRest(luns), n, script), script)
  {
    SerialStep(x, DropLuns(luns), n, script);
    NoneGone(n, luns);
    LunDropped(n, luns, NextEvent(script));
    if Lossless(script) {
      LosslessRest(script);
    }
  }

  lemma DropShift(n: Nas, n1: Nas, luns: seq<int>, r1: Ran, ex: Exchange, script: seq<Event>)
    requires luns != [] && n1.targets == n.targets && n1.luns == n.luns - {luns[0]}
    requires NextEvent(script).fate == Done && DropEnding(n1, luns[1..], r1, Rest(script))
    ensures DropEnding(n, luns, r1.(log := [ex] + r1.log), script)
  {
    var count := Dropped(Rest(script), |luns| - 1);
    ElementsOfPrefix(luns, count + 1);
    assert n.luns - {luns[0]} - Elements(luns[1..][..count]) == n.luns - Elements(luns[..count + 1]);
    if Lossless(script) {
      LosslessRest(script);
    }
  }

  /** The state once the target `t` alone is gone. */
  function WithoutTarget(n: Nas, t: int): Nas {
    n.(targets := n.targets - {t})
  }

  /**
   The outcomes of a delete that makes `before` calls ahead of the first removal
   of a LUN, each with what it leaves on the NAS.
   */
  ghost predicate DeleteEnding(n: Nas, x: string, r: Ran, lossless: bool, before: nat) {
    match r.outcome
    case Created(_) => false
    case Deleted =>
      && (NoTarget(n, x) ==> SameMaps(n, r.nas))
      && (forall t | t in n.targets && n.targets[t].name == x ::
            LunsGone(WithoutTarget(n, t), r.nas, n.targets[t].luns, |n.targets[t].luns|))
    case Refused(error) =>
      lossless ==>
      match error
      case LoginFailed => SameMaps(n, r.nas)
      case ListFailed => SameMaps(n, r.nas)
      case DeleteTargetFailed => SameMaps(n, r.nas) && !NoTarget(n, x)
      case DeleteLunFailed =>
        && !NoTarget(n, x)
        && forall t | t in n.targets && n.targets[t].name == x ::
             FailedAt(n, r, t, |r.log| - before - 1)
      case _ => false
  }

  /** One more call ahead, and perhaps less known about the events. */
  lemma DeleteEndingCons(n: Nas, x: string, r: Ran, ex: Exchange, had: bool, have: bool, before: nat)
    requires DeleteEnding(n, x, r, had, before) && (have ==> had)
    ensures DeleteEnding(n, x, r.(log := [ex] + r.log), have, before + 1)
  {
    forall t | t in n.targets && FailedAt(n, r, t, |r.log| - before - 1)
      ensures FailedAt(n, r.(log := [ex] + r.log), t, |r.log| - before - 1)
    {
      assert ([ex] + r.log)[|r.log|] == r.log[|r.log| - 1];
    }
  }

  /** The request failed at the LUN with this number; just the target and the LUNs before it are gone. */
  ghost predicate FailedAt(n: Nas, r: Ran, t: int, number: int)
    requires t in n.targets
  {
    && StoppedAt(r.log, n.targets[t].luns, number)
    && LunsGone(WithoutTarget(n, t), r.nas, n.targets[t].luns, number)
  }

  /** What is left of the target `t` and its LUNs when these events decide about the removals. */
  ghost predicate Removed(n: Nas, n': Nas, t: int, script: seq<Event>)
    requires t in n.targets
  {
    var luns := n.targets[t].luns;
    match NextEvent(script).fate
    case NoEffect => SameMaps(n, n')
    case EffectLost => LunsGone(WithoutTarget(n, t), n', luns, 0)
    case Done => LunsGone(WithoutTarget(n, t), n', luns, Dropped(Rest(script), |luns|))
  }

  /** How a delete goes on from the removal of the target. */
  lemma DropTargetLeads(n: Nas, x: string, t: int, script: seq<Event>)
    requires NasOk(n) && t in n.targets && n.targets[t].name == x
    ensures var luns, n1 := n.targets[t].luns, WithoutTarget(n, t);
            var r := Serial(x, DropTarget(t, luns), n, script);
            match NextEvent(script).fate
            case NoEffect => r.outcome == Refused(DeleteTargetFailed) && r.nas == n
            case EffectLost => r.outcome == Refused(DeleteTargetFailed) && r.nas == n1
            case Done =>
              var r1 := Serial(x, DropRest(luns), n1, Rest(script));
              r == r1.(log := [Exchange(RemoveTarget(t), Ack)] + r1.log) && AllUnlisted(n1, luns)
  {
    SerialStep(x, DropTarget(t, n.targets[t].luns), n, script);
    hide Serial;
    LunsOfRemoved(n, t);
  }

  /** The LUNs of a target that is removed are on no other list. */
  lemma LunsOfRemoved(n: Nas, t: int)
    requires NasOk(n) && t in n.targets
    ensures AllUnlisted(WithoutTarget(n, t), n.targets[t].luns)
  {
  }

  /** With the target gone, what the removals of its LUNs come to is what the delete comes to. */
  lemma DropsEndDelete(n: Nas, x: string, t: int, r: Ran, ex: Exchange, script: seq<Event>)
    requires UniqueNames(n) && t in n.targets && n.targets[t].name == x
    requires DropEnding(WithoutTarget(n, t), n.targets[t].luns, r, script)
    ensures DeleteEnding(n, x, r.(log := [ex] + r.log), Lossless(script), 1)
  {
    assert forall i | i in n.targets && n.targets[i].name == x :: i == t;
    var log := [ex] + r.log;
    assert r.log != [] ==> log[|log| - 1] == r.log[|r.log| - 1];
  }

  lemma FromDropTarget(n: Nas, x: string, t: int, script: seq<Event>)
    requires NasOk(n) && t in n.targets && n.targets[t].name == x
    ensures var r := Serial(x, DropTarget(t, n.targets[t].luns), n, script);
            DeleteEnding(n, x, r, Lossless(script), 1) && Removed(n, r.nas, t, script)
  {
    hide Serial;
    var luns, n1 := n.targets[t].luns, WithoutTarget(n, t);
    DropTargetLeads(n, x, t, script);
    if Lossless(script) {
      LosslessRest(script);
    }
    if NextEvent(script).fate == Done {
      FromDropRest(x, luns, n1, Rest(script));
      var r1 := Serial(x, DropRest(luns), n1, Rest(script));
      DropsEndDelete(n, x, t, r1, Exchange(RemoveTarget(t), Ack), Rest(script));
    } else {
      NoneGone(n1, luns);
    }
  }

  /** Whether a delete gets as far as removing the target of its name. */
  predicate RemovesTarget(script: seq<Event>) {
    && NextEvent(script).fate == Done && NextEvent(Rest(script)).fate == Done
    && NextEvent(Rest(Rest(script))).fate != NoEffect
  }

  /** How many of the `m` LUNs of the target a delete removes when it removes the target. */
  function LunsRemoved(script: seq<Event>, m: nat): (count: nat)
    ensures count <= m
  {
    var later := Rest(Rest(script));
    if NextEvent(later).fate == Done then Dropped(Rest(later), m) else 0
  }

  /** How a delete goes on from its listing when there is a target of the name. */
  lemma DeleteFindLeads(n: Nas, x: string, t: int, script: seq<Event>)
    requires UniqueNames(n) && t in n.targets && n.targets[t].name == x
    ensures var r := Serial(x, DeleteFind, n, script);
            var ex := Exchange(ListTargets, Serve(n, ListTargets, NextEvent(script)).reply);
            if NextEvent(script).fate == Done then
              var r1 := Serial(x, DropTarget(t, n.targets[t].luns), n, Rest(script));
              r == r1.(log := [ex] + r1.log)
            else
              r.outcome == Refused(ListFailed) && r.nas == n
  {
    SerialStep(x, DeleteFind, n, script);
    DeleteFindOutcome(n, x, NextEvent(script));
  }

  lemma FromDeleteFind(n: Nas, x: string, script: seq<Event>)
    requires NasOk(n)
    ensures DeleteEnding(n, x, Serial(x, DeleteFind, n, script), Lossless(script), 2)
  {
    if NoTarget(n, x) {
      FindNothing(n, x, script);
    } else {
      var t :| t in n.targets && n.targets[t].name == x;
      DeleteFindLeads(n, x, t, script);
      if NextEvent(script).fate == Done {
        var later := Rest(script);
        var ex := Exchange(ListTargets, Serve(n, ListTargets, NextEvent(script)).reply);
        FromDropTarget(n, x, t, later);
        var r1 := Serial(x, DropTarget(t, n.targets[t].luns), n, later);
        DeleteEndingCons(n, x, r1, ex, Lossless(later), Lossless(script), 1);
      }
    }
  }

  /** How a delete goes on from its login. */
  lemma DeleteLoginLeads(n: Nas, x: string, script: seq<Event>)
    ensures var r := RunDelete(x, n, script);
            var r1 := Serial(x, DeleteFind, n, Rest(script));
            if NextEvent(script).fate == Done then r == r1.(log := [Exchange(Login, Ack)] + r1.log)
            else r.outcome == Refused(LoginFailed) && r.nas == n
  {
    SerialStep(x, DeleteLogin, n, script);
  }

  /**
   How every serial delete ends. Success removes the target of that name and
   exactly the LUNs attached to it, or nothing when there is none. A failure at
   the i-th LUN without effect leaves exactly the target and the LUNs before it
   gone, and i is the number of calls after the first three less one.
   */
  lemma DeleteResidue(n: Nas, x: string, script: seq<Event>)
    requires NasOk(n)
    ensures DeleteEnding(n, x, RunDelete(x, n, script), Lossless(script), 3)
  {
    DeleteLoginLeads(n, x, script);
    hide Serial, RunDelete;
    var a := Serve(n, Login, NextEvent(script));
    if a.reply.Ack? {
      FromDeleteFind(n, x, Rest(script));
      var r1 := Serial(x, DeleteFind, n, Rest(script));
      DeleteEndingCons(n, x, r1, Exchange(Login, a.reply), Lossless(Rest(script)), Lossless(script), 2);
    }
  }

  /**
   What every serial delete does to the target of its name, whatever is answered,
   fails or is lost on the way: nothing at all unless login and listing are
   answered and the removal of the target takes effect; otherwise the target goes,
   with exactly the LUNs whose removals took effect.
   */
  lemma DeleteEffect(n: Nas, x: string, t: int, script: seq<Event>)
    requires NasOk(n) && t in n.targets && n.targets[t].name == x
    ensures var n' := RunDelete(x, n, script).nas;
            var luns := n.targets[t].luns;
            if RemovesTarget(script) then LunsGone(WithoutTarget(n, t), n', luns, LunsRemoved(script, |luns|))
            else SameMaps(n, n')
  {
    DeleteLoginLeads(n, x, script);
    hide Serial, RunDelete;
    if NextEvent(script).fate == Done {
      DeleteFindLeads(n, x, t, Rest(script));
      if NextEvent(Rest(script)).fate == Done {
        FromDropTarget(n, x, t, Rest(Rest(script)));
      }
    }
  }

  /** Deleting a name no target has succeeds once login and listing do, and changes nothing. */
  lemma DeleteAbsent(n: Nas, x: string, script: seq<Event>)
    requires NoTarget(n, x)
    ensures SameMaps(n, RunDelete(x, n, script).nas)
    ensures |script| >= 2 && script[0].fate == Done && script[1].fate == Done ==>
              RunDelete(x, n, script).outcome == Deleted
  {
    SerialStep(x, DeleteLogin, n, script);
    FindNothing(n, x, Rest(script));
  }

  lemma FindNothing(n: Nas, x: string, script: seq<Event>)
    requires NoTarget(n, x)
    ensures var r := Serial(x, DeleteFind, n, script);
            r.nas == n && r.outcome == if NextEvent(script).fate == Done then Deleted else Refused(ListFailed)
  {
    SerialStep(x, DeleteFind, n, script);
    DeleteFindOutcome(n, x, NextEvent(script));
  }
}
