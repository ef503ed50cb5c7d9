/** What the two requests promise together: round trips, series of requests, and where the promises end. */
module SagaTheorems {
  import opened Lists
  import opened Nas
  import opened Saga
  import opened SagaSafety
  import opened SagaSerial
  import opened SagaLosses

  // ---------------------------------------------------- create and delete again

  lemma TargetMoreOk(n: Nas, n': Nas, x: string, t: int, luns: seq<int>)
    requires NasOk(n) && NoTarget(n, x) && TargetMore(n, n', x, t, luns)
    requires n.luns.Keys <= n'.luns.Keys
    requires Distinct(luns) && forall k | 0 <= k < |luns| :: luns[k] in n'.luns && luns[k] !in n.luns
    ensures NasOk(n')
  {
    forall i, l | i in n.targets && l in luns
      ensures l !in n.targets[i].luns
    {
      assert l in n.targets[i].luns ==> l in n.luns;
    }
  }

  lemma VolumeMoreOk(n: Nas, n': Nas, x: string, gib: int, t: int, l: int)
    requires NasOk(n) && NoTarget(n, x) && VolumeMore(n, n', x, gib, t, l)
    ensures NasOk(n')
  {
    TargetMoreOk(n, n', x, t, [l]);
  }

  /** Deleting a volume that is exactly what came on top of a state restores that state. */
  lemma DeleteRestores(n: Nas, n': Nas, x: string, gib: int, script: seq<Event>)
    requires NasOk(n) && NoTarget(n, x) && SomeVolumeMore(n, n', x, gib)
    ensures RunDelete(x, n', script).outcome == Deleted ==> SameMaps(n, RunDelete(x, n', script).nas)
  {
    var t, l :| VolumeMore(n, n', x, gib, t, l);
    VolumeMoreOk(n, n', x, gib, t, l);
    DeleteResidue(n', x, script);
    var r := RunDelete(x, n', script);
    if r.outcome == Deleted {
      assert LunsGone(WithoutTarget(n', t), r.nas, [l], 1);
      assert [l][..1] == [l];
      assert Elements([l]) == {l};
      assert n'.targets - {t} == n.targets && n'.luns - {l} == n.luns;
    }
  }

  /**
   A volume created and then deleted by the returned id leaves the NAS as it was,
   whatever other volumes there are, and deleting it once more changes nothing.
   */
  lemma CreateThenDelete(n: Nas, x: string, gib: int, first: seq<Event>, second: seq<Event>, third: seq<Event>)
    requires NasOk(n)
    requires RunCreate(x, gib, n, first).outcome.Created?
    requires RunDelete(x, RunCreate(x, gib, n, first).nas, second).outcome == Deleted
    ensures var n2 := RunDelete(x, RunCreate(x, gib, n, first).nas, second).nas;
            && SameMaps(n, n2)
            && SameMaps(n, RunDelete(x, n2, third).nas)
            && (|third| >= 2 && third[0].fate == Done && third[1].fate == Done ==>
                  RunDelete(x, n2, third).outcome == Deleted)
  {
    CreateResidue(n, x, gib, first);
    var r := RunCreate(x, gib, n, first);
    assert SomeVolumeMore(n, r.nas, x, gib) by {
      var t, l :| VolumeMore(n, r.nas, x, gib, t, l) && r.nas.targets[t].iqn == r.outcome.iqn;
    }
    DeleteRestores(n, r.nas, x, gib, second);
    DeleteAbsent(RunDelete(x, r.nas, second).nas, x, third);
  }

  /**
   A create that fails only after the attach leaves a complete volume behind,
   which one successful delete of that name removes.
   */
  lemma LateFailureThenDelete(n: Nas, x: string, gib: int, first: seq<Event>, second: seq<Event>)
    requires NasOk(n)
    requires var r := RunCreate(x, gib, n, first);
             r.outcome == Refused(IqnMissing) || (r.outcome == Refused(ListFailed) && |r.log| > 2)
    ensures SomeVolumeMore(n, RunCreate(x, gib, n, first).nas, x, gib)
    ensures var r := RunDelete(x, RunCreate(x, gib, n, first).nas, second);
            r.outcome == Deleted ==> SameMaps(n, r.nas)
  {
    CreateResidue(n, x, gib, first);
    DeleteRestores(n, RunCreate(x, gib, n, first).nas, x, gib, second);
  }

  /**
   Whatever is answered, fails or is lost: the target of the name survives a delete
   if and only if login or listing failed or its own removal had no effect, and then
   nothing has changed. Otherwise it is gone with the LUNs whose removals took
   effect, and no later delete of that id does anything: it succeeds as soon as login
   and listing do, and the remaining LUNs stay.
   */
  lemma DeleteNeverResumes(n: Nas, x: string, t: int, first: seq<Event>, second: seq<Event>)
    requires NasOk(n) && t in n.targets && n.targets[t].name == x
    ensures var n1 := RunDelete(x, n, first).nas;
            && (t in n1.targets <==> !RemovesTarget(first))
            && (t in n1.targets ==> SameMaps(n, n1))
            && (t !in n1.targets ==>
                  && NoTarget(n1, x)
                  && LunsGone(WithoutTarget(n, t), n1, n.targets[t].luns, LunsRemoved(first, |n.targets[t].luns|))
                  && SameMaps(n1, RunDelete(x, n1, second).nas)
                  && (|second| >= 2 && second[0].fate == Done && second[1].fate == Done ==>
                        RunDelete(x, n1, second).outcome == Deleted))
  {
    DeleteEffect(n, x, t, first);
    var n1 := RunDelete(x, n, first).nas;
    if RemovesTarget(first) {
      assert NoTarget(n1, x);
      DeleteAbsent(n1, x, second);
    }
  }

  // ------------------------------------------------------------ series of requests

  ghost predicate HasHome(n: Nas, l: int) {
    exists t :: t in n.targets && l in n.targets[t].luns && l in n.luns && n.targets[t].name == n.luns[l].name
  }

  /** Every LUN is attached to a target of its own name. */
  ghost predicate Homed(n: Nas) {
    forall l | l in n.luns :: HasHome(n, l)
  }

  /** The request asked the NAS for a new LUN. */
  ghost predicate AsksForLun(log: seq<Exchange>) {
    exists k :: 0 <= k < |log| && log[k].call.AddLun?
  }

  /** A create asks for a LUN name that is in use, which makes the NAS misbehave. */
  ghost predicate UnsafeCreate(n: Nas, x: string, gib: int, script: seq<Event>) {
    AsksForLun(RunCreate(x, gib, n, script).log) && LunNameInUse(n, x)
  }

  lemma NoAskWhenRefused(x: string, gib: int, n: Nas, script: seq<Event>)
    requires !NoTarget(n, x)
    ensures !AsksForLun(RunCreate(x, gib, n, script).log)
  {
    SerialStep(x, CreateLogin(gib), n, script);
    SerialStep(x, CreateCheck(gib), n, Rest(script));
    FindInListing(n, NextEvent(Rest(script)).order, x);
  }

  lemma HomedNameFree(n: Nas, x: string)
    requires Homed(n) && NoTarget(n, x)
    ensures !LunNameInUse(n, x)
  {
    forall l | l in n.luns
      ensures n.luns[l].name != x
    {
      assert HasHome(n, l);
    }
  }

  /** From a state where every LUN is at home, no create asks for a LUN name in use. */
  lemma HomedIsSafe(n: Nas, x: string, gib: int, script: seq<Event>)
    requires Homed(n)
    ensures !UnsafeCreate(n, x, gib, script)
  {
    if NoTarget(n, x) {
      HomedNameFree(n, x);
    } else {
      NoAskWhenRefused(x, gib, n, script);
    }
  }

  lemma HomedWithMore(n: Nas, n': Nas)
    requires Homed(n)
    requires forall i | i in n.targets :: i in n'.targets && n'.targets[i] == n.targets[i]
    requires forall l | l in n.luns :: l in n'.luns && n'.luns[l] == n.luns[l]
    requires forall l | l in n'.luns && l !in n.luns :: HasHome(n', l)
    ensures Homed(n')
  {
    forall l | l in n.luns
      ensures HasHome(n', l)
    {
      var t :| t in n.targets && l in n.targets[t].luns && n.targets[t].name == n.luns[l].name;
      assert t in n'.targets && l in n'.targets[t].luns;
    }
  }

  /** A create that leaves its LUN unattached: the poll failed, or the attach did and the LUN stayed. */
  ghost predicate StrandsLun(r: Ran) {
    || r.outcome == Refused(ReadinessFailed)
    || (r.outcome == Refused(AttachFailed) && !Compensated(r.log) && !LastAcked(r.log))
  }

  lemma HomedAfterVolume(n: Nas, n': Nas, x: string, gib: int)
    requires NasOk(n) && Homed(n) && NoTarget(n, x) && SomeVolumeMore(n, n', x, gib)
    ensures NasOk(n') && Homed(n')
  {
    var t, l :| VolumeMore(n, n', x, gib, t, l);
    VolumeMoreOk(n, n', x, gib, t, l);
    assert l in n'.targets[t].luns && HasHome(n', l);
    HomedWithMore(n, n');
  }

  lemma HomedAfterBareTarget(n: Nas, n': Nas, x: string)
    requires NasOk(n) && Homed(n) && NoTarget(n, x) && BareTargetMore(n, n', x)
    ensures NasOk(n') && Homed(n')
  {
    var t :| TargetMore(n, n', x, t, []) && n'.luns == n.luns;
    TargetMoreOk(n, n', x, t, []);
    HomedWithMore(n, n');
  }

  lemma StrandedAfterDetached(n: Nas, n': Nas, x: string, gib: int)
    requires NasOk(n) && NoTarget(n, x) && (Detached(n, n', x, gib) || BareLunMore(n, n', x, gib))
    ensures NasOk(n') && !Homed(n')
  {
    if BareLunMore(n, n', x, gib) {
      var l :| LunMore(n, n', x, gib, l) && n'.targets == n.targets;
      assert !HasHome(n', l);
    } else {
      var t, l :| TargetMore(n, n', x, t, []) && LunMore(n, n', x, gib, l);
      TargetMoreOk(n, n', x, t, []);
      assert !HasHome(n', l);
    }
  }

  lemma DanglingBreaks(n: Nas, n': Nas, x: string)
    requires NasOk(n) && Homed(n) && DanglingMore(n, n', x)
    ensures !NasOk(n') && Homed(n')
  {
    var t, l :| TargetMore(n, n', x, t, [l]) && l !in n.luns && n'.luns == n.luns;
    assert n'.targets[t].luns[0] == l && l !in n'.luns;
    HomedWithMore(n, n');
  }

  /**
   Whatever fails or is lost: a create of a name without a target keeps every LUN at
   home if and only if it does not strand its own, and keeps the NAS well formed if
   and only if it leaves no mapping without its LUN, as `CreateStrands` and
   `CreateBreaks` tell from the events. A create of a taken name keeps both. When no
   effect is lost, the log tells the first, and the second is sure.
   */
  lemma HomedAfterCreate(n: Nas, x: string, gib: int, script: seq<Event>)
    requires NasOk(n) && Homed(n)
    ensures Homed(RunCreate(x, gib, n, script).nas) <==> !(NoTarget(n, x) && CreateStrands(script))
    ensures NasOk(RunCreate(x, gib, n, script).nas) <==> !(NoTarget(n, x) && CreateBreaks(script))
    ensures Lossless(script) ==>
              var r := RunCreate(x, gib, n, script);
              NasOk(r.nas) && (Homed(r.nas) <==> !StrandsLun(r))
  {
    CreateEffect(n, x, gib, script);
    var n' := RunCreate(x, gib, n, script).nas;
    if NoTarget(n, x) {
      HomedNameFree(n, x);
      HomedAfterLeaves(n, n', x, gib, CreateStrands(script), CreateBreaks(script));
      StrandsOrBreaks(script);
    } else {
      SameMapsHomed(n, n');
    }
    if Lossless(script) {
      CreateResidue(n, x, gib, script);
      LosslessCreate(n, x, gib, RunCreate(x, gib, n, script));
    }
  }

  lemma StrandsOrBreaks(script: seq<Event>)
    ensures !(CreateStrands(script) && CreateBreaks(script))
  {
  }

  lemma HomedAfterLeaves(n: Nas, n': Nas, x: string, gib: int, strands: bool, breaks: bool)
    requires NasOk(n) && Homed(n) && NoTarget(n, x) && Leaves(n, n', x, gib, strands, breaks)
    requires !(strands && breaks)
    ensures (Homed(n') <==> !strands) && (NasOk(n') <==> !breaks)
  {
    if breaks {
      DanglingBreaks(n, n', x);
    } else if strands {
      StrandedAfterDetached(n, n', x, gib);
    } else if SameMaps(n, n') {
      SameMapsHomed(n, n');
    } else if BareTargetMore(n, n', x) {
      HomedAfterBareTarget(n, n', x);
    } else {
      HomedAfterVolume(n, n', x, gib);
    }
  }

  /** Without lost effects, the outcome and the log tell whether the LUN was stranded. */
  lemma LosslessCreate(n: Nas, x: string, gib: int, r: Ran)
    requires NasOk(n) && Homed(n) && CreateResult(n, x, gib, r, true)
    ensures NasOk(r.nas) && (Homed(r.nas) <==> !StrandsLun(r))
  {
    if SameMaps(n, r.nas) {
      SameMapsHomed(n, r.nas);
      if StrandsLun(r) {
        StrandedAfterDetached(n, r.nas, x, gib);
      }
    } else if r.outcome.Created? {
      var t, l :| VolumeMore(n, r.nas, x, gib, t, l) && r.nas.targets[t].iqn == r.outcome.iqn;
      HomedAfterVolume(n, r.nas, x, gib);
    } else if r.outcome == Refused(ListFailed) || r.outcome == Refused(IqnMissing) {
      HomedAfterVolume(n, r.nas, x, gib);
    } else if StrandsLun(r) {
      StrandedAfterDetached(n, r.nas, x, gib);
    } else {
      HomedAfterBareTarget(n, r.nas, x);
    }
  }

  lemma SameMapsHomed(n: Nas, n': Nas)
    requires NasOk(n) && Homed(n) && SameMaps(n, n')
    ensures NasOk(n') && Homed(n')
  {
    assert forall l | l in n'.luns :: HasHome(n, l) ==> HasHome(n', l);
  }

  lemma LunsGoneOk(n: Nas, n': Nas, t: int, count: nat)
    requires NasOk(n) && t in n.targets
    requires LunsGone(WithoutTarget(n, t), n', n.targets[t].luns, count)
    ensures NasOk(n')
    ensures Homed(n) ==> (Homed(n') <==> count == |n.targets[t].luns|)
  {
    var luns := n.targets[t].luns;
    forall i, l | i in n'.targets && l in n'.targets[i].luns
      ensures l in n'.luns
    {
      assert l in n.luns && l !in luns;
    }
    if Homed(n) && count == |luns| {
      assert luns[..count] == luns;
      forall l | l in n'.luns
        ensures HasHome(n', l)
      {
        assert HasHome(n, l);
        var i :| i in n.targets && l in n.targets[i].luns && n.targets[i].name == n.luns[l].name;
        assert i != t && i in n'.targets;
      }
    }
    if count < |luns| {
      var l := luns[count];
      assert l !in luns[..count] && l in n.luns;
      assert l in n'.luns && !HasHome(n', l);
    }
  }

  /** The delete removes the target of the name but not all of its LUNs. */
  ghost predicate StrandsLuns(n: Nas, x: string, script: seq<Event>) {
    exists t :: t in n.targets && n.targets[t].name == x && LeavesLuns(n.targets[t].luns, script)
  }

  ghost predicate LeavesLuns(luns: seq<int>, script: seq<Event>) {
    RemovesTarget(script) && LunsRemoved(script, |luns|) < |luns|
  }

  /**
   Whatever fails or is lost, a delete keeps every LUN at home if and only if it
   does not remove the target without all of its LUNs. When no effect is lost, that
   is to say if and only if it does not fail at a LUN.
   */
  lemma HomedAfterDelete(n: Nas, x: string, script: seq<Event>)
    requires NasOk(n) && Homed(n)
    ensures NasOk(RunDelete(x, n, script).nas)
    ensures Homed(RunDelete(x, n, script).nas) <==> !StrandsLuns(n, x, script)
    ensures Lossless(script) ==>
              (StrandsLuns(n, x, script) <==> RunDelete(x, n, script).outcome == Refused(DeleteLunFailed))
  {
    var r := RunDelete(x, n, script);
    DeleteResidue(n, x, script);
    if NoTarget(n, x) {
      DeleteAbsent(n, x, script);
      SameMapsHomed(n, r.nas);
    } else {
      var t :| t in n.targets && n.targets[t].name == x;
      assert StrandsLuns(n, x, script) <==> LeavesLuns(n.targets[t].luns, script);
      DeleteEffect(n, x, t, script);
      if RemovesTarget(script) {
        LunsGoneOk(n, r.nas, t, LunsRemoved(script, |n.targets[t].luns|));
      } else {
        SameMapsHomed(n, r.nas);
      }
      if Lossless(script) {
        LosslessDelete(n, x, t, r);
      }
    }
  }

  /** Without lost effects, the refusal for a LUN is the one ending that leaves LUNs without a home. */
  lemma LosslessDelete(n: Nas, x: string, t: int, r: Ran)
    requires NasOk(n) && Homed(n) && t in n.targets && n.targets[t].name == x && DeleteEnding(n, x, r, true, 3)
    ensures Homed(r.nas) <==> r.outcome != Refused(DeleteLunFailed)
  {
    if r.outcome == Deleted {
      LunsGoneOk(n, r.nas, t, |n.targets[t].luns|);
    } else if r.outcome == Refused(DeleteLunFailed) {
      assert FailedAt(n, r, t, |r.log| - 4);
      LunsGoneOk(n, r.nas, t, |r.log| - 4);
    } else {
      SameMapsHomed(n, r.nas);
    }
  }

  /** One serial request of a series. */
  datatype Turn = Turn(name: string, request: Request, script: seq<Event>)

  function RunTurn(n: Nas, turn: Turn): Ran {
    Serial(turn.name, FirstJob(turn.request), n, turn.script)
  }

  /** No create strands its LUN or leaves a mapping without one, and no delete strands one it should remove. */
  ghost predicate Orderly(n: Nas, turns: seq<Turn>)
    decreases |turns|
  {
    turns == [] ||
    (var turn, r := turns[0], RunTurn(n, turns[0]);
     && (if turn.request.Create? then
           NoTarget(n, turn.name) ==> !CreateStrands(turn.script) && !CreateBreaks(turn.script)
         else
           !StrandsLuns(n, turn.name, turn.script))
     && Orderly(r.nas, turns[1..]))
  }

  /** No create of the series asks for a LUN name in use. */
  ghost predicate NeverUnsafe(n: Nas, turns: seq<Turn>)
    decreases |turns|
  {
    turns == [] ||
    ((turns[0].request.Create? ==> !UnsafeCreate(n, turns[0].name, turns[0].request.gib, turns[0].script))
     && NeverUnsafe(RunTurn(n, turns[0]).nas, turns[1..]))
  }

  function AfterTurns(n: Nas, turns: seq<Turn>): Nas
    decreases |turns|
  {
    if turns == [] then n else AfterTurns(RunTurn(n, turns[0]).nas, turns[1..])
  }

  /** Over every orderly series of requests, LUNs stay at home and no create is unsafe. */
  lemma {:induction false} OrderlySeriesIsSafe(n: Nas, turns: seq<Turn>)
    requires NasOk(n) && Homed(n) && Orderly(n, turns)
    ensures NeverUnsafe(n, turns)
    ensures NasOk(AfterTurns(n, turns)) && Homed(AfterTurns(n, turns))
    decreases |turns|
  {
    if turns != [] {
      var turn := turns[0];
      match turn.request {
        case Create(gib) =>
          HomedIsSafe(n, turn.name, gib, turn.script);
          HomedAfterCreate(n, turn.name, gib, turn.script);
        case Delete =>
          HomedAfterDelete(n, turn.name, turn.script);
      }
      OrderlySeriesIsSafe(RunTurn(n, turn).nas, turns[1..]);
    }
  }

  // --------------------------------------------------- following one run forwards

  ghost predicate AllDone(script: seq<Event>, count: nat) {
    count <= |script| && forall k | 0 <= k < count :: script[k].fate == Done
  }

  lemma AllDoneRest(script: seq<Event>, count: nat)
    requires AllDone(script, count) && count > 0
    ensures AllDone(Rest(script), count - 1) && NextEvent(script) == script[0] && script[0].fate == Done
  {
  }

  /** Up to the LUN, a create whose calls are all answered goes straight on when the name is free. */
  lemma ReachesLun(n: Nas, x: string, gib: int, script: seq<Event>)
    requires AllDone(script, 4) && NoTarget(n, x)
    ensures var t := FreeSlot(n.targets.Keys, script[2].slot);
            var made := Target(x, script[2].iqn, true, [], n.created);
            var n1 := n.(targets := n.targets[t := made], created := n.created + 1);
            var r1 := Serial(x, MakeLun(t, gib), n1, script[4..]);
            var r := RunCreate(x, gib, n, script);
            && r.outcome == r1.outcome && r.nas == r1.nas
            && |r.log| == 4 + |r1.log| && r.log[4..] == r1.log
  {
    SerialStep(x, CreateLogin(gib), n, script);
    AllDoneRest(script, 4);
    var s1 := Rest(script);
    SerialStep(x, CreateCheck(gib), n, s1);
    FindInListing(n, NextEvent(s1).order, x);
    AllDoneRest(s1, 3);
    var s2 := Rest(s1);
    AllDoneRest(s2, 2);
    MakesTarget(n, x, gib, s2);
    assert Rest(Rest(s2)) == script[4..];
    assert s2[0] == script[2];
  }

  lemma MakesTarget(n: Nas, x: string, gib: int, s2: seq<Event>)
    requires AllDone(s2, 2)
    ensures var t := FreeSlot(n.targets.Keys, s2[0].slot);
            var made := Target(x, s2[0].iqn, true, [], n.created);
            var n1 := n.(targets := n.targets[t := made], created := n.created + 1);
            var r1 := Serial(x, MakeLun(t, gib), n1, Rest(Rest(s2)));
            var r := Serial(x, MakeTarget(gib), n, s2);
            && r.outcome == r1.outcome && r.nas == r1.nas
            && |r.log| == 2 + |r1.log| && r.log[2..] == r1.log
  {
    var t := FreeSlot(n.targets.Keys, s2[0].slot);
    AllDoneRest(s2, 2);
    SerialStep(x, MakeTarget(gib), n, s2);
    var n0 := Effect(n, AddTarget(x), s2[0]).nas;
    AllDoneRest(Rest(s2), 1);
    SerialStep(x, MakeInitiator(t, gib), n0, Rest(s2));
    var n1 := Effect(n0, AddInitiator(t), Rest(s2)[0]).nas;
    assert n1.targets == n.targets[t := Target(x, s2[0].iqn, true, [], n.created)];
  }

  /**
   When its first four calls are answered, a create asks for a LUN name in use if
   and only if no target has the name but a LUN does.
   */
  lemma UnsafeExactlyWhen(n: Nas, x: string, gib: int, script: seq<Event>)
    requires AllDone(script, 4)
    ensures UnsafeCreate(n, x, gib, script) <==> NoTarget(n, x) && LunNameInUse(n, x)
  {
    if NoTarget(n, x) {
      ReachesLun(n, x, gib, script);
      var t := FreeSlot(n.targets.Keys, script[2].slot);
      var n1 := n.(targets := n.targets[t := Target(x, script[2].iqn, true, [], n.created)], created := n.created + 1);
      SerialStep(x, MakeLun(t, gib), n1, script[4..]);
      var log := RunCreate(x, gib, n, script).log;
      assert log[4..][0].call.AddLun? && log[4] == log[4..][0];
    } else {
      NoAskWhenRefused(x, gib, n, script);
    }
  }

  /**
   From a state where every LUN is at home, a delete leads the next create of the
   name, once its first four calls are answered, straight into the unsafe call if and
   only if it removed the target without all of its LUNs.
   */
  lemma PartialDeleteThenUnsafe(n: Nas, x: string, gib: int, first: seq<Event>, second: seq<Event>)
    requires NasOk(n) && Homed(n) && AllDone(second, 4)
    ensures UnsafeCreate(RunDelete(x, n, first).nas, x, gib, second) <==> StrandsLuns(n, x, first)
  {
    var n1 := RunDelete(x, n, first).nas;
    HomedAfterDelete(n, x, first);
    if StrandsLuns(n, x, first) {
      var t :| t in n.targets && n.targets[t].name == x && LeavesLuns(n.targets[t].luns, first);
      DeleteNeverResumes(n, x, t, first, []);
      var luns, count := n.targets[t].luns, LunsRemoved(first, |n.targets[t].luns|);
      assert luns[count] !in luns[..count] && luns[count] in n1.luns;
      assert HasHome(n, luns[count]);
      assert n1.luns[luns[count]].name == x;
      UnsafeExactlyWhen(n1, x, gib, second);
    } else {
      HomedIsSafe(n1, x, gib, second);
    }
  }

  /** The LUN is reported as still being created `polls` times, and then otherwise. */
  ghost predicate ReadyAfter(script: seq<Event>, from: nat, polls: nat) {
    && from + polls < |script|
    && (forall k | from <= k < from + polls :: StillCreating(script[k].status))
    && !StillCreating(script[from + polls].status)
  }

  lemma {:induction false} PollsThrough(x: string, t: int, l: int, n: Nas, script: seq<Event>, polls: nat)
    requires AllDone(script, polls + 1) && ReadyAfter(script, 0, polls)
    ensures var r := Serial(x, AwaitLun(t, l), n, script);
            var r1 := Serial(x, Attach(t, l), n, script[polls + 1..]);
            r.outcome == r1.outcome && r.nas == r1.nas
    decreases polls
  {
    SerialStep(x, AwaitLun(t, l), n, script);
    if polls == 0 {
      assert Rest(script) == script[1..];
    } else {
      PollsThrough(x, t, l, n, Rest(script), polls - 1);
      assert Rest(script)[polls..] == script[polls + 1..];
    }
  }

  /** The index the new LUN of a create gets, and that of its target. */
  function NewLun(n: Nas, script: seq<Event>): int
    requires |script| > 4
  {
    FreeSlot(n.luns.Keys, script[4].slot)
  }

  function NewTarget(n: Nas, script: seq<Event>): int
    requires |script| > 2
  {
    FreeSlot(n.targets.Keys, script[2].slot)
  }

  lemma LunMade(n: Nas, x: string, gib: int, t: int, script: seq<Event>) returns (n1: Nas)
    requires !LunNameInUse(n, x) && AllDone(script, 1)
    ensures var l := FreeSlot(n.luns.Keys, script[0].slot);
            && n1.targets == n.targets && LunMore(n, n1, x, gib, l)
            && var r := Serial(x, MakeLun(t, gib), n, script);
               var r1 := Serial(x, AwaitLun(t, l), n1, script[1..]);
               r.outcome == r1.outcome && r.nas == r1.nas
  {
    SerialStep(x, MakeLun(t, gib), n, script);
    n1 := Effect(n, AddLun(x, gib), script[0]).nas;
  }

  /** From the LUN to the attach, when the LUN name is free and every call is answered. */
  lemma MakesLun(n: Nas, x: string, gib: int, t: int, script: seq<Event>, polls: nat) returns (n1: Nas)
    requires !LunNameInUse(n, x) && AllDone(script, polls + 2) && ReadyAfter(script, 1, polls)
    ensures var l := FreeSlot(n.luns.Keys, script[0].slot);
            && n1.targets == n.targets && LunMore(n, n1, x, gib, l)
            && var r := Serial(x, MakeLun(t, gib), n, script);
               var r1 := Serial(x, Attach(t, l), n1, script[polls + 2..]);
               r.outcome == r1.outcome && r.nas == r1.nas
  {
    var l := FreeSlot(n.luns.Keys, script[0].slot);
    n1 := LunMade(n, x, gib, t, script);
    PollsThrough(x, t, l, n1, script[1..], polls);
    assert script[1..][polls + 1..] == script[polls + 2..];
  }

  /** Up to the attach, when the name is free and every call is answered. */
  lemma ReachesAttach(n: Nas, x: string, gib: int, script: seq<Event>, polls: nat)
    returns (n1: Nas)
    requires NoTarget(n, x) && !LunNameInUse(n, x)
    requires AllDone(script, polls + 6) && ReadyAfter(script, 5, polls)
    ensures var t, l := NewTarget(n, script), NewLun(n, script);
            && TargetMore(n, n1, x, t, []) && n1.targets[t].initiator && n1.targets[t].iqn == script[2].iqn
            && LunMore(n, n1, x, gib, l)
            && var r := RunCreate(x, gib, n, script);
               var r1 := Serial(x, Attach(t, l), n1, script[polls + 6..]);
               r.outcome == r1.outcome && r.nas == r1.nas
  {
    ReachesLun(n, x, gib, script);
    var t := NewTarget(n, script);
    var made := Target(x, script[2].iqn, true, [], n.created);
    var n0 := n.(targets := n.targets[t := made], created := n.created + 1);
    var later := script[4..];
    assert forall k | 0 <= k < |later| :: later[k] == script[k + 4];
    n1 := MakesLun(n0, x, gib, t, later, polls);
    assert later[polls + 2..] == script[polls + 6..];
  }

  /**
   A create succeeds for a name that neither a target nor a LUN has, when every
   call is answered, the LUN stops being "creating" after any number of polls,
   and the target got an IQN.
   */
  lemma CreateSucceeds(n: Nas, x: string, gib: int, script: seq<Event>, polls: nat)
    requires NoTarget(n, x) && !LunNameInUse(n, x)
    requires AllDone(script, polls + 8) && ReadyAfter(script, 5, polls) && script[2].iqn != ""
    ensures var r := RunCreate(x, gib, n, script);
            && r.outcome == Created(script[2].iqn)
            && VolumeMore(n, r.nas, x, gib, NewTarget(n, script), NewLun(n, script))
  {
    var n1 := ReachesAttach(n, x, gib, script, polls);
    AttachesAndFinds(x, NewTarget(n, script), NewLun(n, script), n1, script[polls + 6..]);
  }

  lemma AttachesAndFinds(x: string, t: int, l: int, n: Nas, script: seq<Event>)
    requires AllDone(script, 2) && t in n.targets && n.targets[t].name == x && l in n.luns
    requires forall i | i in n.targets && n.targets[i].name == x :: i == t
    requires n.targets[t].iqn != "" && n.targets[t].luns == []
    ensures var r := Serial(x, Attach(t, l), n, script);
            && r.outcome == Created(n.targets[t].iqn)
            && r.nas == n.(targets := n.targets[t := n.targets[t].(luns := [l])])
  {
    SerialStep(x, Attach(t, l), n, script);
    AllDoneRest(script, 2);
    var n' := n.(targets := n.targets[t := n.targets[t].(luns := [l])]);
    AttachedOnce(n, t, l, script[0]);
    SerialStep(x, FindIqn, n', Rest(script));
    FindIqnOutcome(x, n', t, NextEvent(Rest(script)));
  }

  lemma AttachedOnce(n: Nas, t: int, l: int, e: Event)
    requires t in n.targets && l in n.luns && n.targets[t].luns == []
    ensures Effect(n, AttachLun(l, t), e) == Answer(Ack, n.(targets := n.targets[t := n.targets[t].(luns := [l])]))
  {
    assert n.targets[t].luns + [l] == [l];
  }

  // ------------------------------------------------------------- what is reported

  /** Once login and listing work, a create is turned away as existing exactly when a target has the name. */
  lemma RefusedExactlyWhen(n: Nas, x: string, gib: int, script: seq<Event>)
    requires AllDone(script, 2)
    ensures RunCreate(x, gib, n, script).outcome == Refused(AlreadyExists) <==> !NoTarget(n, x)
  {
    SerialStep(x, CreateLogin(gib), n, script);
    AllDoneRest(script, 2);
    SerialStep(x, CreateCheck(gib), n, Rest(script));
    FindInListing(n, NextEvent(Rest(script)).order, x);
    if NoTarget(n, x) {
      NeverExistsLater(x, gib, n, Rest(Rest(script)));
    }
  }

  lemma NeverExistsLater(x: string, gib: int, n: Nas, script: seq<Event>)
    ensures Serial(x, MakeTarget(gib), n, script).outcome != Refused(AlreadyExists)
  {
    LaterOutcome(x, MakeTarget(gib), n, script);
  }

  /** Past the check for an existing target, no outcome says that it exists. */
  lemma {:induction false} LaterOutcome(x: string, job: Job, n: Nas, script: seq<Event>)
    requires Proper(job)
    requires job.MakeTarget? || job.MakeInitiator? || job.MakeLun? || job.AwaitLun? || job.Attach? || job.UndoBoth?
             || job.UndoLun? || job.FindIqn? || (job.UndoTarget? && job.cause != AlreadyExists)
             || (job.Finished? && job.outcome != Refused(AlreadyExists))
    ensures Serial(x, job, n, script).outcome != Refused(AlreadyExists)
    decreases |script|, Rank(job)
  {
    if !job.Finished? {
      SerialStep(x, job, n, script);
      var (n1, next) := Next(n, x, job, NextEvent(script));
      LaterOutcome(x, next, n1, Rest(script));
    }
  }

  // --------------------------------------------------------------- deletes that work

  lemma {:induction false} DropsSucceed(x: string, luns: seq<int>, n: Nas, script: seq<Event>)
    requires AllDone(script, |luns|)
    ensures Serial(x, DropRest(luns), n, script).outcome == Deleted && Dropped(script, |luns|) == |luns|
    decreases |luns|
  {
    if luns != [] {
      AllDoneRest(script, |luns|);
      DropAcked(x, luns, n, script);
      DropsSucceed(x, luns[1..], Effect(n, RemoveLun(luns[0]), NextEvent(script)).nas, Rest(script));
    }
  }

  /** A delete succeeds when all its calls are answered, and then just the target and its LUNs are gone. */
  lemma DeleteSucceeds(n: Nas, x: string, t: int, script: seq<Event>)
    requires NasOk(n) && t in n.targets && n.targets[t].name == x
    requires AllDone(script, 3 + |n.targets[t].luns|)
    ensures var r := RunDelete(x, n, script);
            && r.outcome == Deleted
            && r.nas.targets == n.targets - {t} && r.nas.luns == n.luns - Elements(n.targets[t].luns)
  {
    var luns := n.targets[t].luns;
    var s1, s2 := Rest(script), Rest(Rest(script));
    AllDoneRest(script, 3 + |luns|);
    AllDoneRest(s1, 2 + |luns|);
    AllDoneRest(s2, 1 + |luns|);
    DeleteEffect(n, x, t, script);
    DropsSucceed(x, luns, WithoutTarget(n, t), Rest(s2));
    assert luns[..|luns|] == luns;
    SerialStep(x, DeleteLogin, n, script);
    DeleteFindLeads(n, x, t, s1);
    DropTargetLeads(n, x, t, s2);
  }
}
