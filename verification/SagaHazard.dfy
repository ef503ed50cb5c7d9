/**
 What the one hazardous step costs: from wherever it is taken, requests that all
 succeed can lead a delete to the LUN of another volume.
 */
module SagaHazard {
  import opened Nas
  import opened Saga
  import opened SagaSafety
  import opened SagaOwnership
  import opened SagaSerial
  import opened SagaTheorems

  // ------------------------------------------------------- from any state whatever

  /** Some request is about to remove a LUN that is attached to a target of another name. */
  ghost predicate ForeignRemoval(s: System, x: string, l: int) {
    && x in s.jobs && Pending(s.jobs[x]) && Issue(x, s.jobs[x]) == RemoveLun(l) && l in s.nas.luns
    && exists i :: i in s.nas.targets && l in s.nas.targets[i].luns && s.nas.targets[i].name != x
  }

  /** A run of harmless steps leads to such a removal. */
  ghost predicate Endangered(s: System) {
    exists actions, x, l :: HazardFree(s, actions) && ForeignRemoval(Exec(s, actions), x, l)
  }

  lemma {:induction false} ExecConcat(s: System, a: seq<Action>, b: seq<Action>)
    ensures Exec(s, a + b) == Exec(Exec(s, a), b)
    ensures HazardFree(s, a + b) <==> HazardFree(s, a) && HazardFree(Exec(s, a), b)
    decreases |a|
  {
    if a == [] {
      assert a + b == b;
    } else {
      assert (a + b)[0] == a[0] && (a + b)[1..] == a[1..] + b;
      ExecConcat(Act(s, a[0]), a[1..], b);
    }
  }

  /** What comes after a run of harmless steps comes after its start, too. */
  lemma EndangeredBefore(s: System, actions: seq<Action>)
    requires HazardFree(s, actions) && Endangered(Exec(s, actions))
    ensures Endangered(s)
  {
    var later, x, l :| HazardFree(Exec(s, actions), later) && ForeignRemoval(Exec(Exec(s, actions), later), x, l);
    ExecConcat(s, actions, later);
    assert HazardFree(s, actions + later) && ForeignRemoval(Exec(s, actions + later), x, l);
  }

  lemma EndangeredStep(s: System, a: Action)
    requires !Hazard(s, a) && Endangered(Act(s, a))
    ensures Endangered(s)
  {
    assert [a][0] == a && [a][1..] == [];
    assert Exec(Act(s, a), []) == Act(s, a) && HazardFree(Act(s, a), []);
    EndangeredBefore(s, [a]);
  }

  /** An answered call, whatever it is; a LUN that is removed is unmapped, too. */
  function Obliging(slot: int): Event {
    Event(Done, slot, "iqn", [], "1", true)
  }

  /** A name longer than each of these. */
  lemma {:induction false} FreshName(names: set<string>) returns (name: string)
    ensures forall y | y in names :: |y| < |name|
    decreases names
  {
    name := "a";
    if names != {} {
      var y :| y in names;
      var other := FreshName(names - {y});
      name := if |other| > |y| then other else y + "a";
      assert forall z | z in names :: z == y || z in names - {y};
    }
  }

  lemma {:induction false} AdvancesHarmless(s: System, x: string, script: seq<Event>, count: nat)
    requires forall k | 0 <= k < |script| :: script[k].unmaps
    ensures HazardFree(s, Advances(x, script, count))
    decreases count
  {
    if count > 0 {
      var actions := Advances(x, script, count);
      assert actions[0] == Advance(x, NextEvent(script)) && actions[1..] == Advances(x, Rest(script), count - 1);
      AdvancesHarmless(Act(s, actions[0]), x, Rest(script), count - 1);
    }
  }

  /** A create of a new name that is given the free LUN index `l`, run while the others wait. */
  lemma CreatedAt(s: System, y: string, l: int) returns (actions: seq<Action>, t: int)
    requires y !in s.jobs && NoTarget(s.nas, y) && !LunNameInUse(s.nas, y) && l !in s.nas.luns
    ensures HazardFree(s, actions)
    ensures var s' := Exec(s, actions);
            && s'.jobs == s.jobs && VolumeMore(s.nas, s'.nas, y, 1, t, l)
  {
    var script := seq(8, _ => Obliging(l));
    assert forall k | 0 <= k < 8 :: script[k] == Obliging(l);
    CreateSucceeds(s.nas, y, 1, script, 0);
    t := NewTarget(s.nas, script);
    var s1 := Act(s, Begin(y, Create(1)));
    var r := RunCreate(y, 1, s.nas, script);
    SerialIsARun(s1, y, script);
    AdvancesHarmless(s1, y, script, |r.log|);
    actions := [Begin(y, Create(1))] + Advances(y, script, |r.log|);
    assert actions[0] == Begin(y, Create(1)) && actions[1..] == Advances(y, script, |r.log|);
    assert s1.jobs - {y} == s.jobs;
  }

  /** A delete on its way through its list comes to the LUN that is another's by now. */
  lemma {:induction false} DropsEndanger(s: System, x: string, luns: seq<int>, l: int, i: int)
    requires x in s.jobs && s.jobs[x] == DropLuns(luns) && l in luns && l in s.nas.luns
    requires i in s.nas.targets && l in s.nas.targets[i].luns && s.nas.targets[i].name != x
    ensures Endangered(s)
    decreases |luns|
  {
    if luns[0] == l {
      assert HazardFree(s, []) && ForeignRemoval(Exec(s, []), x, l);
    } else {
      var a := Advance(x, Obliging(0).(unmaps := false));
      var s1 := Act(s, a);
      assert l in luns[1..];
      assert s1.jobs == s.jobs[x := DropLuns(luns[1..])];
      DropsEndanger(s1, x, luns[1..], l, i);
      EndangeredStep(s, a);
    }
  }

  /** The target `t`, the only one of the name `x`, and another one have the LUN attached. */
  ghost predicate Shared(n: Nas, x: string, t: int, l: int, i: int) {
    && t in n.targets && n.targets[t].name == x && l in n.targets[t].luns
    && (forall j | j in n.targets && n.targets[j].name == x :: j == t)
    && i in n.targets && l in n.targets[i].luns && n.targets[i].name != x && l in n.luns
  }

  lemma DropEndangers(s: System, x: string, t: int, l: int, i: int)
    requires Shared(s.nas, x, t, l, i) && x in s.jobs && s.jobs[x] == DropTarget(t, s.nas.targets[t].luns)
    ensures Endangered(s)
  {
    var a := Advance(x, Obliging(0));
    var luns, s1 := s.nas.targets[t].luns, Act(s, a);
    assert s1.nas == WithoutTarget(s.nas, t) && s1.jobs == s.jobs[x := DropLuns(luns)];
    DropsEndanger(s1, x, luns, l, i);
    EndangeredStep(s, a);
  }

  lemma FindsOnly(n: Nas, x: string, t: int, e: Event)
    requires t in n.targets && n.targets[t].name == x && e.fate == Done
    requires forall j | j in n.targets && n.targets[j].name == x :: j == t
    ensures Next(n, x, DeleteFind, e) == (n, DropTarget(t, n.targets[t].luns))
  {
    DeleteFindOutcome(n, x, e);
  }

  lemma ActNext(s: System, x: string, e: Event)
    requires x in s.jobs && Pending(s.jobs[x])
    ensures var (n', next) := Next(s.nas, x, s.jobs[x], e);
            Act(s, Advance(x, e)) == System(n', if next.Finished? then s.jobs - {x} else s.jobs[x := next])
  {
  }

  lemma FindEndangers(s: System, x: string, t: int, l: int, i: int)
    requires Shared(s.nas, x, t, l, i) && x in s.jobs && s.jobs[x] == DeleteFind
    ensures Endangered(s)
  {
    var a := Advance(x, Obliging(0));
    var s1 := Act(s, a);
    FindsOnly(s.nas, x, t, Obliging(0));
    ActNext(s, x, Obliging(0));
    hide Act, Next;
    DropEndangers(s1, x, t, l, i);
    EndangeredStep(s, a);
  }

  /** Deleting `x` leads there when its target lists a LUN that another target has attached. */
  lemma DeleteEndangers(s: System, x: string, t: int, l: int, i: int)
    requires Shared(s.nas, x, t, l, i) && x !in s.jobs
    ensures Endangered(s)
  {
    var a := Advance(x, Obliging(0));
    var s1 := Act(s, Begin(x, Delete));
    var s2 := Act(s1, a);
    assert s2.nas == s.nas && s2.jobs == s.jobs[x := DeleteFind];
    FindEndangers(s2, x, t, l, i);
    EndangeredStep(s1, a);
    EndangeredStep(s, Begin(x, Delete));
  }

  function NamesIn(s: System): set<string> {
    s.jobs.Keys + (set i | i in s.nas.targets :: s.nas.targets[i].name)
    + (set l | l in s.nas.luns :: s.nas.luns[l].name)
  }

  lemma HazardEndangers(s: System, a: Action)
    requires Inv(s) && Hazard(s, a)
    ensures Endangered(Act(s, a))
  {
    var x, l, s1 := a.name, s.jobs[a.name].lun, Act(s, a);
    var t :| t in s.nas.targets && l in s.nas.targets[t].luns;
    assert s1.nas.targets == s.nas.targets && l !in s1.nas.luns && x !in s1.jobs;
    assert s.nas.targets[t].name == x;
    var y := FreshName(NamesIn(s1) + {x});
    FreshMeansFree(s1, y);
    var actions, i := CreatedAt(s1, y, l);
    var s2 := Exec(s1, actions);
    DeleteEndangers(s2, x, t, l, i);
    EndangeredBefore(s1, actions);
  }

  lemma FreshMeansFree(s: System, y: string)
    requires forall z | z in NamesIn(s) :: |z| < |y|
    ensures y !in s.jobs && NoTarget(s.nas, y) && !LunNameInUse(s.nas, y)
  {
    assert forall i | i in s.nas.targets :: s.nas.targets[i].name in NamesIn(s);
    assert forall l | l in s.nas.luns :: s.nas.luns[l].name in NamesIn(s);
  }

  /**
   From every good state: after a step, some run of harmless steps makes a delete
   remove a LUN attached to a target of another name if and only if the step was the
   hazardous one. So the guarantee about deletes fails exactly where the invariant does.
   */
  lemma EndangersExactlyWhen(s: System, a: Action)
    requires Inv(s)
    ensures Endangered(Act(s, a)) <==> Hazard(s, a)
  {
    if Hazard(s, a) {
      HazardEndangers(s, a);
    } else {
      StepKeepsInv(s, a);
      var s1 := Act(s, a);
      forall actions, x, l | HazardFree(s1, actions)
        ensures !ForeignRemoval(Exec(s1, actions), x, l)
      {
        if ForeignRemoval(Exec(s1, actions), x, l) {
          DeletesHitOwnObjects(s1, actions, x);
        }
      }
    }
  }

  // ------------------------------------------------------ one request after another

  /** An answered call; removing a LUN does not drop its mapping. */
  function Plain(slot: int): Event {
    Event(Done, slot, "iqn", [], "1", false)
  }

  /** The attach takes effect and is reported as failed, then the removal of the target fails. */
  const LOST_ATTACH: seq<Event> :=
    [Plain(0), Plain(0), Plain(0), Plain(0), Plain(0), Plain(0),
     Plain(0).(fate := EffectLost), UNREACHABLE, Plain(0)]

  function Answered(slot: int): seq<Event> {
    [Plain(0), Plain(0), Plain(0), Plain(0), Plain(slot), Plain(0), Plain(0), Plain(0)]
  }

  /** The attach and its compensation under the three events that make up the hazard. */
  lemma LostAttachUndone(x: string, t: int, l: int, n: Nas, script: seq<Event>)
    requires t in n.targets && l in n.luns && n.targets[t].luns == [] && |script| >= 3
    requires script[0].fate == EffectLost && script[1].fate == NoEffect && script[2].fate == Done && !script[2].unmaps
    ensures var r := Serial(x, Attach(t, l), n, script);
            && r.outcome == Refused(AttachFailed)
            && r.nas.targets == n.targets[t := n.targets[t].(luns := [l])] && r.nas.luns == n.luns - {l}
  {
    AttachedOnce(n, t, l, script[0]);
    SerialStep(x, Attach(t, l), n, script);
    var n' := n.(targets := n.targets[t := n.targets[t].(luns := [l])]);
    var s1, s2 := Rest(script), Rest(Rest(script));
    assert NextEvent(s1) == script[1] && NextEvent(s2) == script[2];
    SerialStep(x, UndoBoth(t, l), n', s1);
    SerialStep(x, UndoLun(l), n', s2);
  }

  /** After such a run the target is left mapping a LUN index that is free again. */
  lemma LostAttachLeaves(n: Nas, a: string, gib: int, script: seq<Event>)
    requires NasOk(n) && NoTarget(n, a) && !LunNameInUse(n, a)
    requires script == LOST_ATTACH
    ensures var t, l := NewTarget(n, script), NewLun(n, script);
            var r := RunCreate(a, gib, n, script);
            && r.outcome == Refused(AttachFailed)
            && TargetMore(n, r.nas, a, t, [l]) && r.nas.luns == n.luns && l !in n.luns
  {
    var t, l := NewTarget(n, script), NewLun(n, script);
    var n1 := ReachesAttach(n, a, gib, script, 0);
    LostAttachUndone(a, t, l, n1, script[6..]);
    assert n1.luns - {l} == n.luns;
  }

  /**
   The guarantee that deletes hit only the request's own objects does not survive
   the hazardous step, even when requests come one after the other: for any two
   free names, create `a` with that step in it, create `b`, which is given the
   freed LUN index, and delete `a`. All calls of the last two are answered, both
   succeed, and the LUN of `b` is gone.
   */
  lemma ForeignLunLost(n: Nas, a: string, b: string, gib: int)
    requires NasOk(n) && a != b && NoTarget(n, a) && NoTarget(n, b)
    requires !LunNameInUse(n, a) && !LunNameInUse(n, b)
    ensures var l := NewLun(n, LOST_ATTACH);
            var r1 := RunCreate(a, gib, n, LOST_ATTACH);
            && var r2 := RunCreate(b, gib, r1.nas, Answered(l));
               var r3 := RunDelete(a, r2.nas, Answered(0));
               && r1.outcome == Refused(AttachFailed) && r2.outcome == Created("iqn") && r3.outcome == Deleted
               && (exists t :: t in r3.nas.targets && r3.nas.targets[t].name == b && r3.nas.targets[t].luns == [l])
               && l in r2.nas.luns && r2.nas.luns[l].name == b && l !in r3.nas.luns
  {
    LostAttachLeaves(n, a, gib, LOST_ATTACH);
    var t, l := NewTarget(n, LOST_ATTACH), NewLun(n, LOST_ATTACH);
    var n1 := RunCreate(a, gib, n, LOST_ATTACH).nas;
    assert NoTarget(n1, b) && !LunNameInUse(n1, b);
    CreateSucceeds(n1, b, gib, Answered(l), 0);
    var n2 := RunCreate(b, gib, n1, Answered(l)).nas;
    var t2 := NewTarget(n1, Answered(l));
    assert NewLun(n1, Answered(l)) == l;
    assert t2 in n2.targets && n2.targets[t2].name == b && t2 != t;
    DeleteTakesListed(n2, a, t, l, Answered(0));
    var n3 := RunDelete(a, n2, Answered(0)).nas;
    assert t2 in n3.targets && n3.targets[t2] == n2.targets[t2];
  }

  /** A delete that is answered removes whatever LUN the target of its name lists. */
  lemma DeleteTakesListed(n: Nas, x: string, t: int, l: int, script: seq<Event>)
    requires t in n.targets && n.targets[t].name == x && n.targets[t].luns == [l]
    requires forall i | i in n.targets && n.targets[i].name == x :: i == t
    requires AllDone(script, 4) && !script[3].unmaps
    ensures var r := RunDelete(x, n, script);
            r.outcome == Deleted && r.nas.targets == n.targets - {t} && r.nas.luns == n.luns - {l}
  {
    SerialStep(x, DeleteLogin, n, script);
    AllDoneRest(script, 4);
    FindsListed(n, x, t, [l], Rest(script));
    AllDoneRest(Rest(script), 3);
    DropsBoth(n, x, t, l, Rest(Rest(script)));
  }

  /** An answered listing leads the delete to the only target of its name. */
  lemma FindsListed(n: Nas, x: string, t: int, luns: seq<int>, script: seq<Event>)
    requires t in n.targets && n.targets[t].name == x && n.targets[t].luns == luns
    requires forall i | i in n.targets && n.targets[i].name == x :: i == t
    requires AllDone(script, 1)
    ensures var r := Serial(x, DeleteFind, n, script);
            var r1 := Serial(x, DropTarget(t, luns), n, Rest(script));
            r.outcome == r1.outcome && r.nas == r1.nas
  {
    SerialStep(x, DeleteFind, n, script);
    DeleteFindOutcome(n, x, NextEvent(script));
  }

  lemma DropsBoth(n: Nas, x: string, t: int, l: int, script: seq<Event>)
    requires t in n.targets && AllDone(script, 2) && !script[1].unmaps
    ensures var r := Serial(x, DropTarget(t, [l]), n, script);
            r.outcome == Deleted && r.nas.targets == n.targets - {t} && r.nas.luns == n.luns - {l}
  {
    SerialStep(x, DropTarget(t, [l]), n, script);
    AllDoneRest(script, 2);
    SerialStep(x, DropLuns([l]), WithoutTarget(n, t), Rest(script));
    assert [l][1..] == [];
  }
}
