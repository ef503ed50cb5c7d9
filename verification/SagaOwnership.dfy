/**
 Whose objects the requests of an interleaving touch: every LUN a request removes
 bears its name, the volumes of a name that is not in flight are untouched, and a
 request that reports success has done what it says.
 */
module SagaOwnership {
  import opened Wrappers
  import opened Nas
  import opened Saga
  import opened SagaSafety

  // ------------------------------------------------------------ LUNs and their names

  /** Every LUN on the list of a target bears the name of the target. */
  ghost predicate ListsBearName(n: Nas) {
    forall i, l | i in n.targets && l in n.targets[i].luns && l in n.luns :: n.luns[l].name == n.targets[i].name
  }

  ghost predicate BearName(n: Nas, x: string, held: set<int>) {
    forall l | l in held && l in n.luns :: n.luns[l].name == x
  }

  /** Listed LUNs bear the name of their target, and those a request holds bear its name. */
  ghost predicate Named(s: System) {
    ListsBearName(s.nas) && forall x | x in s.jobs :: BearName(s.nas, x, HeldLuns(s.jobs[x]))
  }

  /** No call changes the record of a LUN, and a new LUN bears the name of the request. */
  ghost predicate RecordsKept(n: Nas, n': Nas, x: string) {
    && (forall l | l in n.luns && l in n'.luns :: n'.luns[l] == n.luns[l])
    && (forall l | l in n'.luns && l !in n.luns :: n'.luns[l].name == x)
  }

  lemma StepRecords(n: Nas, x: string, job: Job, e: Event)
    requires Pending(job)
    ensures RecordsKept(n, Next(n, x, job, e).0, x)
  {
  }

  lemma NamedOwnStep(n: Nas, x: string, job: Job, n': Nas, next: Job)
    requires NasOk(n) && GoodStep(n, x, job, n', next) && RecordsKept(n, n', x)
    requires ListsBearName(n) && BearName(n, x, HeldLuns(job))
    ensures ListsBearName(n') && BearName(n', x, HeldLuns(next))
  {
    forall i, l | i in n'.targets && l in n'.targets[i].luns && l in n'.luns
      ensures n'.luns[l].name == n'.targets[i].name
    {
      if n'.targets[i].name == x {
        assert l in HeldLuns(job) || ListedUnder(n, x, l);
      } else {
        assert i in n.targets && n.targets[i] == n'.targets[i];
        assert l in n.luns;
      }
    }
    forall l | l in HeldLuns(next) && l in n'.luns
      ensures n'.luns[l].name == x
    {
      assert l in HeldLuns(job) || l !in n.luns || ListedUnder(n, x, l);
    }
  }

  lemma NamedStep(s: System, a: Action)
    requires Inv(s) && Named(s) && !Hazard(s, a)
    ensures Named(Act(s, a))
  {
    if a.Advance? && a.name in s.jobs {
      var x, job := a.name, s.jobs[a.name];
      var (n', next) := Next(s.nas, x, job, a.event);
      OneStep(s.nas, x, job, a.event);
      StepRecords(s.nas, x, job, a.event);
      NamedOwnStep(s.nas, x, job, n', next);
      AdvanceKeeps(s, x, a.event);
      forall y | y in s.jobs && y != x
        ensures BearName(n', y, HeldLuns(s.jobs[y]))
      {
        assert HeldKept(s, Act(s, a), y);
      }
    }
  }

  lemma {:induction false} RunKeepsNamed(s: System, actions: seq<Action>)
    requires Inv(s) && Named(s) && HazardFree(s, actions)
    ensures Named(Exec(s, actions))
    decreases |actions|
  {
    if actions != [] {
      StepKeepsInv(s, actions[0]);
      NamedStep(s, actions[0]);
      RunKeepsNamed(Act(s, actions[0]), actions[1..]);
    }
  }

  /**
   Whatever the driver is about to delete by index belongs to the request that
   deletes it. The target bears its name. The LUN exists, is attached to no target of
   another name and is held by no other request; and it bears the request's name too,
   in every run from a state where LUNs bear the names of their targets, such as any
   with no request in flight in which only this driver created volumes.
   */
  lemma DeletesHitOwnObjects(s: System, actions: seq<Action>, x: string)
    requires Inv(s) && HazardFree(s, actions)
    requires x in Exec(s, actions).jobs && Pending(Exec(s, actions).jobs[x])
    ensures var s' := Exec(s, actions);
            match Issue(x, s'.jobs[x])
            case RemoveTarget(t) => t in s'.nas.targets && s'.nas.targets[t].name == x
            case RemoveLun(l) =>
              && l in s'.nas.luns
              && (Named(s) ==> s'.nas.luns[l].name == x)
              && (forall i | i in s'.nas.targets && l in s'.nas.targets[i].luns :: s'.nas.targets[i].name == x)
              && (forall y | y in s'.jobs && y != x :: l !in HeldLuns(s'.jobs[y]))
            case _ => true
  {
    RunKeepsInv(s, actions);
    if Named(s) {
      RunKeepsNamed(s, actions);
    }
    var s' := Exec(s, actions);
    var job := s'.jobs[x];
    assert JobOk(s'.nas, x, job);
    if job.DropLuns? {
      assert Holds(s'.nas, x, job.luns[0]) && job.luns[0] in HeldLuns(job);
    }
  }

  // ------------------------------------------------------------- uninvolved volumes

  /** The targets of the name `z`, and the LUNs attached to them, are the same in both states. */
  ghost predicate SameVolumes(n: Nas, n': Nas, z: string) {
    && (forall i | i in n.targets && n.targets[i].name == z :: i in n'.targets && n'.targets[i] == n.targets[i])
    && (forall i | i in n'.targets && n'.targets[i].name == z :: i in n.targets && n'.targets[i] == n.targets[i])
    && (forall i, l | i in n.targets && n.targets[i].name == z && l in n.targets[i].luns ::
          l in n.luns && l in n'.luns && n'.luns[l] == n.luns[l])
  }

  /** The LUNs of the name `z`, attached or not, are the same in both states. */
  ghost predicate SameLuns(n: Nas, n': Nas, z: string) {
    && (forall l | l in n.luns && n.luns[l].name == z :: l in n'.luns && n'.luns[l] == n.luns[l])
    && (forall l | l in n'.luns && n'.luns[l].name == z :: l in n.luns && n'.luns[l] == n.luns[l])
  }

  ghost predicate NeverBegins(actions: seq<Action>, z: string) {
    forall k | 0 <= k < |actions| :: actions[k].Begin? ==> actions[k].name != z
  }

  lemma OtherVolumesKept(s: System, a: Action, z: string)
    requires Inv(s) && !Hazard(s, a) && z !in s.jobs && (a.Begin? ==> a.name != z)
    ensures SameVolumes(s.nas, Act(s, a).nas, z) && z !in Act(s, a).jobs
    ensures Named(s) ==> SameLuns(s.nas, Act(s, a).nas, z)
  {
    if a.Advance? && a.name in s.jobs {
      var x, job := a.name, s.jobs[a.name];
      OneStep(s.nas, x, job, a.event);
      StepRecords(s.nas, x, job, a.event);
      HeldBelong(s.nas, x, job);
      assert forall i, l | i in s.nas.targets && s.nas.targets[i].name == z && l in s.nas.targets[i].luns ::
          l in s.nas.luns;
    }
  }

  /** What a request holds exists, and is attached to no target of another name. */
  lemma HeldBelong(n: Nas, x: string, job: Job)
    requires JobOk(n, x, job)
    ensures forall l | l in HeldLuns(job) :: Holds(n, x, l)
  {
    if job.DropTarget? || job.DropLuns? {
      assert forall k | 0 <= k < |job.luns| :: Holds(n, x, job.luns[k]);
    }
  }

  /**
   Over every run, the volumes of a name that is never in flight are untouched, and
   so are all LUNs of that name, attached or not, when LUNs bear the names of their
   targets to begin with.
   */
  lemma {:induction false} UninvolvedVolumesKept(s: System, actions: seq<Action>, z: string)
    requires Inv(s) && HazardFree(s, actions) && z !in s.jobs && NeverBegins(actions, z)
    ensures SameVolumes(s.nas, Exec(s, actions).nas, z)
    ensures Named(s) ==> SameLuns(s.nas, Exec(s, actions).nas, z)
    decreases |actions|
  {
    if actions == [] {
      assert forall i, l | i in s.nas.targets && l in s.nas.targets[i].luns :: l in s.nas.luns;
    } else {
      var rest := actions[1..];
      assert forall k | 0 <= k < |rest| :: rest[k] == actions[k + 1];
      OtherVolumesKept(s, actions[0], z);
      StepKeepsInv(s, actions[0]);
      if Named(s) {
        NamedStep(s, actions[0]);
      }
      UninvolvedVolumesKept(Act(s, actions[0]), rest, z);
    }
  }

  // ---------------------------------------------------------- what success stands for

  ghost predicate OpenTarget(n: Nas, x: string, t: int, luns: seq<int>) {
    Owns(n, x, t, luns) && n.targets[t].initiator
  }

  ghost predicate LunIs(n: Nas, l: int, x: string, gib: int) {
    l in n.luns && n.luns[l].name == x && n.luns[l].gib == gib
  }

  /** A target of the name, open to initiators, with exactly one LUN, of the name and this capacity. */
  ghost predicate CompleteVolume(n: Nas, x: string, gib: int, t: int, l: int) {
    OpenTarget(n, x, t, [l]) && LunIs(n, l, x, gib)
  }

  ghost predicate HasVolume(n: Nas, x: string, gib: int) {
    exists t, l :: CompleteVolume(n, x, gib, t, l)
  }

  /** A complete volume, whose target has this IQN and is the only one of the name. */
  ghost predicate HasVolumeWith(n: Nas, x: string, gib: int, iqn: string) {
    exists t, l :: CompleteVolume(n, x, gib, t, l) && n.targets[t].iqn == iqn
                   && forall i | i in n.targets && n.targets[i].name == x :: i == t
  }

  /** What a create of this capacity has done by the time it stands here. */
  ghost predicate Progress(n: Nas, x: string, gib: int, job: Job) {
    match job
    case CreateLogin(g) => g == gib
    case CreateCheck(g) => g == gib
    case MakeTarget(g) => g == gib
    case MakeInitiator(_, g) => g == gib
    case MakeLun(t, g) => g == gib && OpenTarget(n, x, t, [])
    case AwaitLun(t, l) => OpenTarget(n, x, t, []) && LunIs(n, l, x, gib)
    case Attach(t, l) => OpenTarget(n, x, t, []) && LunIs(n, l, x, gib)
    case FindIqn => HasVolume(n, x, gib)
    case UndoTarget(_, _) => true
    case UndoBoth(_, _) => true
    case UndoLun(_) => true
    case Finished(Created(iqn)) => iqn != "" && HasVolumeWith(n, x, gib, iqn)
    case Finished(Refused(_)) => true
    case _ => false
  }

  lemma ProgressOwnStep(n: Nas, x: string, gib: int, job: Job, e: Event)
    requires NasOk(n) && JobOk(n, x, job) && Pending(job) && Progress(n, x, gib, job)
    ensures Progress(Next(n, x, job, e).0, x, gib, Next(n, x, job, e).1)
  {
    if job.Attach? {
      AttachCompletes(n, x, gib, job.target, job.lun, e);
    } else if job.FindIqn? {
      IqnFound(n, x, gib, e);
    }
  }

  lemma AttachCompletes(n: Nas, x: string, gib: int, t: int, l: int, e: Event)
    requires OpenTarget(n, x, t, []) && LunIs(n, l, x, gib)
    ensures Progress(Next(n, x, Attach(t, l), e).0, x, gib, Next(n, x, Attach(t, l), e).1)
  {
    var n' := Next(n, x, Attach(t, l), e).0;
    assert e.fate == Done ==> CompleteVolume(n', x, gib, t, l);
  }

  lemma IqnFound(n: Nas, x: string, gib: int, e: Event)
    requires UniqueNames(n) && HasVolume(n, x, gib)
    ensures Progress(Next(n, x, FindIqn, e).0, x, gib, Next(n, x, FindIqn, e).1)
  {
    var t, l :| CompleteVolume(n, x, gib, t, l);
    FindIqnOutcome(x, n, t, e);
    assert HasVolumeWith(n, x, gib, n.targets[t].iqn);
  }

  lemma ProgressUndisturbed(s: System, a: Action, x: string, gib: int)
    requires Inv(s) && !Hazard(s, a) && x in s.jobs && a.name != x
    requires Progress(s.nas, x, gib, s.jobs[x])
    ensures x in Act(s, a).jobs && Progress(Act(s, a).nas, x, gib, Act(s, a).jobs[x])
  {
    if a.Advance? && a.name in s.jobs {
      AdvanceKeeps(s, a.name, a.event);
      var s', y := Act(s, a), a.name;
      assert HeldKept(s, s', x);
      if s.jobs[x].FindIqn? {
        var t, l :| CompleteVolume(s.nas, x, gib, t, l);
        OneStep(s.nas, y, s.jobs[y], a.event);
        HeldBelong(s.nas, y, s.jobs[y]);
        assert l in s.nas.targets[t].luns;
        assert CompleteVolume(s'.nas, x, gib, t, l);
      }
    }
  }

  /** `x` is in flight in every state of the run, so it is the same request all along. */
  ghost predicate InFlight(s: System, actions: seq<Action>, x: string)
    decreases |actions|
  {
    x in s.jobs && (actions == [] || InFlight(Act(s, actions[0]), actions[1..], x))
  }

  lemma {:induction false} ProgressKept(s: System, actions: seq<Action>, x: string, gib: int)
    requires Inv(s) && HazardFree(s, actions) && InFlight(s, actions, x) && Progress(s.nas, x, gib, s.jobs[x])
    ensures var s' := Exec(s, actions);
            Inv(s') && x in s'.jobs && Progress(s'.nas, x, gib, s'.jobs[x])
    decreases |actions|
  {
    if actions != [] {
      var a := actions[0];
      StepKeepsInv(s, a);
      if a.name != x {
        ProgressUndisturbed(s, a, x, gib);
      } else if a.Advance? {
        ProgressOwnStep(s.nas, x, gib, s.jobs[x], a.event);
      }
      ProgressKept(Act(s, a), actions[1..], x, gib);
    }
  }

  /** The outcome that the answer `e` to its pending call makes the request `x` report, if it ends with it. */
  function Reported(s: System, x: string, e: Event): Option<Outcome> {
    if x !in s.jobs || !Pending(s.jobs[x]) then None
    else
      var next := Next(s.nas, x, s.jobs[x], e).1;
      if next.Finished? then Some(next.outcome) else None
  }

  /**
   In every interleaving: a create that reports success leaves a complete volume at
   that moment, of its name and the requested capacity, in the only target of that
   name, and the IQN it reports is that target's. It never reports a deletion.
   */
  lemma CreatedInAnyInterleaving(s: System, x: string, gib: int, actions: seq<Action>, e: Event)
    requires Inv(s) && x !in s.jobs
    requires var s1 := Act(s, Begin(x, Create(gib))); HazardFree(s1, actions) && InFlight(s1, actions, x)
    ensures var s2 := Exec(Act(s, Begin(x, Create(gib))), actions);
            match Reported(s2, x, e)
            case Some(Created(iqn)) => iqn != "" && HasVolumeWith(Act(s2, Advance(x, e)).nas, x, gib, iqn)
            case Some(Deleted) => false
            case _ => true
  {
    var s1 := Act(s, Begin(x, Create(gib)));
    StepKeepsInv(s, Begin(x, Create(gib)));
    ProgressKept(s1, actions, x, gib);
    var s2 := Exec(s1, actions);
    ProgressOwnStep(s2.nas, x, gib, s2.jobs[x], e);
  }

  /** No LUN of the name `x` has this index. */
  ghost predicate Gone(n: Nas, x: string, l: int) {
    l in n.luns ==> n.luns[l].name != x
  }

  /** What a delete that found these LUNs on its target has done by the time it stands here. */
  ghost predicate Clearing(n: Nas, x: string, found: seq<int>, job: Job) {
    match job
    case DropTarget(_, luns) => luns == found
    case DropLuns(luns) =>
      && |luns| <= |found| && luns == found[|found| - |luns|..]
      && forall k | 0 <= k < |found| - |luns| :: Gone(n, x, found[k])
    case Finished(Deleted) => forall k | 0 <= k < |found| :: Gone(n, x, found[k])
    case Finished(Refused(_)) => true
    case _ => false
  }

  lemma ClearingOwnStep(n: Nas, x: string, found: seq<int>, job: Job, e: Event)
    requires Pending(job) && Clearing(n, x, found, job)
    ensures Clearing(Next(n, x, job, e).0, x, found, Next(n, x, job, e).1)
  {
    if job.DropLuns? {
      assert job.luns[0] == found[|found| - |job.luns|];
      assert job.luns[1..] == found[|found| - |job.luns| + 1..];
    }
  }

  lemma ClearingUndisturbed(s: System, a: Action, x: string, found: seq<int>)
    requires x in s.jobs && a.name != x && Clearing(s.nas, x, found, s.jobs[x])
    ensures x in Act(s, a).jobs && Clearing(Act(s, a).nas, x, found, Act(s, a).jobs[x])
  {
    if a.Advance? && a.name in s.jobs && Pending(s.jobs[a.name]) {
      StepRecords(s.nas, a.name, s.jobs[a.name], a.event);
      assert forall l | Gone(s.nas, x, l) :: Gone(Act(s, a).nas, x, l);
    }
  }

  lemma {:induction false} ClearingKept(s: System, actions: seq<Action>, x: string, found: seq<int>)
    requires Inv(s) && HazardFree(s, actions) && InFlight(s, actions, x) && Clearing(s.nas, x, found, s.jobs[x])
    ensures var s' := Exec(s, actions);
            Inv(s') && x in s'.jobs && Clearing(s'.nas, x, found, s'.jobs[x])
    decreases |actions|
  {
    if actions != [] {
      var a := actions[0];
      StepKeepsInv(s, a);
      if a.name != x {
        ClearingUndisturbed(s, a, x, found);
      } else if a.Advance? {
        ClearingOwnStep(s.nas, x, found, s.jobs[x], a.event);
      }
      ClearingKept(Act(s, a), actions[1..], x, found);
    }
  }

  /**
   In every interleaving: a delete that reports success leaves no target of its name
   at that moment, and under none of the indexes it found on the target a LUN of the
   name, although the indexes may have been given to others meanwhile.
   */
  lemma DeletedInAnyInterleaving(s: System, x: string, actions: seq<Action>, e: Event)
    requires Inv(s) && HazardFree(s, actions) && InFlight(s, actions, x)
    ensures var s2 := Exec(s, actions);
            Reported(s2, x, e) == Some(Deleted) ==>
              var s3 := Act(s2, Advance(x, e));
              && NoTarget(s3.nas, x)
              && (s.jobs[x].DropTarget? ==> forall k | 0 <= k < |s.jobs[x].luns| :: Gone(s3.nas, x, s.jobs[x].luns[k]))
  {
    RunKeepsInv(s, actions);
    var s2 := Exec(s, actions);
    if Reported(s2, x, e) == Some(Deleted) {
      DeletedMeansGone(s2.nas, x, s2.jobs[x], e);
      if s.jobs[x].DropTarget? {
        ClearingKept(s, actions, x, s.jobs[x].luns);
        ClearingOwnStep(s2.nas, x, s.jobs[x].luns, s2.jobs[x], e);
      }
    }
  }

  lemma LunUnmappedNames(n: Nas, l: int)
    ensures Unmapped(n.targets, l).Keys == n.targets.Keys
    ensures forall i | i in n.targets :: Unmapped(n.targets, l)[i].name == n.targets[i].name
  {
  }

  lemma DeletedMeansGone(n: Nas, x: string, job: Job, e: Event)
    requires NasOk(n) && JobOk(n, x, job) && Pending(job)
    requires Next(n, x, job, e).1 == Finished(Deleted)
    ensures NoTarget(Next(n, x, job, e).0, x)
  {
    if job.DeleteFind? {
      DeleteFindOutcome(n, x, e);
    } else if job.DropLuns? {
      LunUnmappedNames(n, job.luns[0]);
    } else if job.DropTarget? {
      TargetRemoved(n, x, job.target, [], e);
    }
  }
}
