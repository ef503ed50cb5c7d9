/**
 Any number of CreateVolume and DeleteVolume requests served at the same time:
 every interleaving of their calls, with indexes reused and any call failing with
 or without effect. At most one request works on a name at a time.
 */
module SagaSafety {
  import opened Wrappers
  import opened Lists
  import opened Nas
  import opened Saga

  datatype System = System(nas: Nas, jobs: map<string, Job>)

  datatype Request = Create(gib: int) | Delete

  /** A new request arrives, or the NAS answers the pending call of one. */
  datatype Action = Begin(name: string, request: Request) | Advance(name: string, event: Event)

  function FirstJob(request: Request): Job {
    match request
    case Create(gib) => CreateLogin(gib)
    case Delete => DeleteLogin
  }

  predicate Pending(job: Job) {
    Proper(job) && !job.Finished?
  }

  /** A request whose name is in flight waits; so does an answer nobody waits for. */
  function Act(s: System, a: Action): System {
    match a
    case Begin(x, request) =>
      if x in s.jobs then s else s.(jobs := s.jobs[x := FirstJob(request)])
    case Advance(x, e) =>
      if x !in s.jobs || !Pending(s.jobs[x]) then s
      else
        var answer := Serve(s.nas, Issue(x, s.jobs[x]), e);
        var next := Resume(x, s.jobs[x], answer.reply);
        System(answer.nas, if next.Finished? then s.jobs - {x} else s.jobs[x := next])
  }

  function Exec(s: System, actions: seq<Action>): System
    decreases |actions|
  {
    if actions == [] then s else Exec(Act(s, actions[0]), actions[1..])
  }

  // ---------------------------------------------------------------- invariants

  ghost predicate UniqueNames(n: Nas) {
    forall i, j | i in n.targets && j in n.targets && n.targets[i].name == n.targets[j].name :: i == j
  }

  /** No list names a LUN twice, and every LUN listed exists. */
  ghost predicate ListsExist(n: Nas) {
    forall i | i in n.targets ::
      && Distinct(n.targets[i].luns)
      && forall k | 0 <= k < |n.targets[i].luns| :: n.targets[i].luns[k] in n.luns
  }

  /** No LUN is attached to two targets. */
  ghost predicate Exclusive(n: Nas) {
    forall i, j, l | i in n.targets && j in n.targets && l in n.targets[i].luns && l in n.targets[j].luns :: i == j
  }

  ghost predicate NasOk(n: Nas) {
    UniqueNames(n) && ListsExist(n) && Exclusive(n)
  }

  ghost predicate NoTarget(n: Nas, x: string) {
    forall i | i in n.targets :: n.targets[i].name != x
  }

  ghost predicate Owns(n: Nas, x: string, t: int, luns: seq<int>) {
    t in n.targets && n.targets[t].name == x && n.targets[t].luns == luns
  }

  /** The LUN exists, and only a target of the name `x` can have it attached. */
  ghost predicate Holds(n: Nas, x: string, l: int) {
    l in n.luns && forall i | i in n.targets && l in n.targets[i].luns :: n.targets[i].name == x
  }

  ghost predicate HoldsAll(n: Nas, x: string, luns: seq<int>) {
    Distinct(luns) && forall k | 0 <= k < |luns| :: Holds(n, x, luns[k])
  }

  /** What the indexes a request remembers stand for. */
  ghost predicate JobOk(n: Nas, x: string, job: Job) {
    match job
    case MakeTarget(_) => NoTarget(n, x)
    case MakeInitiator(t, _) => Owns(n, x, t, [])
    case MakeLun(t, _) => Owns(n, x, t, [])
    case UndoTarget(t, _) => Owns(n, x, t, [])
    case AwaitLun(t, l) => Owns(n, x, t, []) && Holds(n, x, l)
    case Attach(t, l) => Owns(n, x, t, []) && Holds(n, x, l)
    case UndoBoth(t, l) => (Owns(n, x, t, []) || Owns(n, x, t, [l])) && Holds(n, x, l)
    case UndoLun(l) => Holds(n, x, l)
    case DropTarget(t, luns) => Owns(n, x, t, luns) && HoldsAll(n, x, luns)
    case DropLuns(luns) => NoTarget(n, x) && HoldsAll(n, x, luns)
    case _ => true
  }

  function HeldLuns(job: Job): set<int> {
    match job
    case AwaitLun(_, l) => {l}
    case Attach(_, l) => {l}
    case UndoBoth(_, l) => {l}
    case UndoLun(l) => {l}
    case DropTarget(_, luns) => set l | l in luns
    case DropLuns(luns) => set l | l in luns
    case _ => {}
  }

  function HeldTargets(job: Job): set<int> {
    match job
    case MakeInitiator(t, _) => {t}
    case MakeLun(t, _) => {t}
    case UndoTarget(t, _) => {t}
    case AwaitLun(t, _) => {t}
    case Attach(t, _) => {t}
    case UndoBoth(t, _) => {t}
    case DropTarget(t, _) => {t}
    case _ => {}
  }

  ghost predicate Disjoint(jobs: map<string, Job>) {
    forall x, y | x in jobs && y in jobs && x != y :: HeldLuns(jobs[x]) !! HeldLuns(jobs[y])
  }

  ghost predicate Inv(s: System) {
    && NasOk(s.nas)
    && (forall x | x in s.jobs :: Pending(s.jobs[x]) && JobOk(s.nas, x, s.jobs[x]))
    && Disjoint(s.jobs)
  }

  /**
   The one step that breaks the invariant. A create gives up after a failed
   attach: the attach had taken effect nevertheless, the compensating removal of
   the target did not, and now the LUN is removed although the target still maps
   it, by a NAS that does not drop the mapping.
   */
  ghost predicate Hazard(s: System, a: Action) {
    && a.Advance? && a.name in s.jobs && s.jobs[a.name].UndoLun?
    && a.event.fate != NoEffect && !a.event.unmaps
    && exists i :: i in s.nas.targets && s.jobs[a.name].lun in s.nas.targets[i].luns
  }

  // --------------------------------------------------- what one step may change

  /** Targets of other names stay, and no new ones appear. */
  ghost predicate OthersKept(n: Nas, n': Nas, x: string) {
    && (forall i | i in n.targets && n.targets[i].name != x :: i in n'.targets && n'.targets[i] == n.targets[i])
    && (forall i | i in n'.targets && n'.targets[i].name != x :: i in n.targets && n'.targets[i] == n.targets[i])
  }

  /** A target of the name `x` lists only what it or another of that name listed before, or what `held` holds. */
  ghost predicate ListsKept(n: Nas, n': Nas, x: string, held: set<int>) {
    forall i, l | i in n'.targets && n'.targets[i].name == x && l in n'.targets[i].luns ::
      l in held || exists j :: j in n.targets && n.targets[j].name == x && l in n.targets[j].luns
  }

  /** Only held LUNs disappear; the others keep their record. */
  ghost predicate LunsKept(n: Nas, n': Nas, held: set<int>) {
    forall l | l in n.luns && l !in held :: l in n'.luns && n'.luns[l] == n.luns[l]
  }

  ghost predicate Frame(n: Nas, n': Nas, x: string, held: set<int>) {
    OthersKept(n, n', x) && ListsKept(n, n', x, held) && LunsKept(n, n', held)
  }

  /** The step of `x` leaves good what it finds good. */
  ghost predicate GoodStep(n: Nas, x: string, job: Job, n': Nas, next: Job) {
    && NasOk(n') && JobOk(n', x, next) && Frame(n, n', x, HeldLuns(job))
    && NewlyHeld(n, x, HeldLuns(job), HeldLuns(next))
  }

  /** A request comes to hold a LUN by creating it, or by finding it on a target of its name. */
  ghost predicate NewlyHeld(n: Nas, x: string, before: set<int>, after: set<int>) {
    forall l | l in after :: l in before || l !in n.luns || ListedUnder(n, x, l)
  }

  ghost predicate ListedUnder(n: Nas, x: string, l: int) {
    exists i :: i in n.targets && n.targets[i].name == x && l in n.targets[i].luns
  }

  // ------------------------------------------------------- the effect of a call

  lemma TargetAdded(n: Nas, x: string, e: Event)
    requires NasOk(n) && NoTarget(n, x)
    ensures var a := Effect(n, AddTarget(x), e);
            NasOk(a.nas) && Owns(a.nas, x, a.reply.index, []) && Frame(n, a.nas, x, {})
  {
  }

  lemma InitiatorAdded(n: Nas, x: string, t: int, e: Event)
    requires NasOk(n) && Owns(n, x, t, [])
    ensures var n' := Effect(n, AddInitiator(t), e).nas;
            NasOk(n') && Owns(n', x, t, []) && Frame(n, n', x, {})
  {
  }

  lemma LunAdded(n: Nas, x: string, gib: int, t: int, e: Event)
    requires NasOk(n) && Owns(n, x, t, [])
    ensures var a := Effect(n, AddLun(x, gib), e);
            && NasOk(a.nas) && Owns(a.nas, x, t, []) && Frame(n, a.nas, x, {})
            && (a.reply.Index? ==> Holds(a.nas, x, a.reply.index) && a.reply.index !in n.luns)
            && (a.reply.Index? || a.reply.Failed?)
  {
  }

  lemma LunAttached(n: Nas, x: string, l: int, t: int, e: Event)
    requires NasOk(n) && Owns(n, x, t, []) && Holds(n, x, l)
    ensures var a := Effect(n, AttachLun(l, t), e);
            && NasOk(a.nas) && Owns(a.nas, x, t, [l]) && Holds(a.nas, x, l) && Frame(n, a.nas, x, {l})
  {
    var n' := Effect(n, AttachLun(l, t), e).nas;
    assert forall i | i in n.targets && l in n.targets[i].luns :: i == t;
    assert Exclusive(n');
  }

  lemma TargetRemoved(n: Nas, x: string, t: int, luns: seq<int>, e: Event)
    requires NasOk(n) && t in n.targets && n.targets[t].name == x
    ensures var n' := Effect(n, RemoveTarget(t), e).nas;
            && NasOk(n') && NoTarget(n', x) && n'.luns == n.luns
            && Frame(n, n', x, {})
            && (forall l | Holds(n, x, l) :: Holds(n', x, l))
            && (HoldsAll(n, x, luns) ==> HoldsAll(n', x, luns))
  {
  }

  ghost predicate Unlisted(n: Nas, l: int) {
    forall i | i in n.targets :: l !in n.targets[i].luns
  }

  lemma {:induction false} WithoutSpec(list: seq<int>, l: int)
    ensures forall k | 0 <= k < |Without(list, l)| :: Without(list, l)[k] in list && Without(list, l)[k] != l
    ensures forall m | m in list && m != l :: m in Without(list, l)
    ensures Distinct(list) ==> Distinct(Without(list, l))
  {
    if list != [] {
      WithoutSpec(list[1..], l);
      if Distinct(list) && list[0] != l {
        var rest := Without(list[1..], l);
        forall k | 0 <= k < |rest|
          ensures rest[k] != list[0]
        {
          var j :| 0 <= j < |list[1..]| && list[1..][j] == rest[k];
          assert list[j + 1] != list[0];
        }
      }
    }
  }

  lemma UnmappedSpec(n: Nas, l: int)
    requires ListsExist(n)
    ensures var targets := Unmapped(n.targets, l);
            && targets.Keys == n.targets.Keys
            && forall i | i in targets ::
                 && targets[i].name == n.targets[i].name
                 && (l !in n.targets[i].luns ==> targets[i] == n.targets[i])
                 && l !in targets[i].luns && Distinct(targets[i].luns)
                 && (forall k | 0 <= k < |targets[i].luns| :: targets[i].luns[k] in n.targets[i].luns)
                 && forall m | m in n.targets[i].luns && m != l :: m in targets[i].luns
  {
    forall i | i in n.targets
      ensures var luns := Unmapped(n.targets, l)[i].luns;
              && l !in luns && Distinct(luns)
              && (forall k | 0 <= k < |luns| :: luns[k] in n.targets[i].luns)
              && forall m | m in n.targets[i].luns && m != l :: m in luns
    {
      WithoutSpec(n.targets[i].luns, l);
    }
  }

  lemma LunRemoved(n: Nas, x: string, l: int, e: Event)
    requires NasOk(n) && Holds(n, x, l)
    requires e.unmaps || Unlisted(n, l)
    ensures var n' := Effect(n, RemoveLun(l), e).nas;
            && NasOk(n') && Frame(n, n', x, {l})
            && (NoTarget(n, x) ==> NoTarget(n', x))
            && (forall m | m != l && Holds(n, x, m) :: Holds(n', x, m))
  {
    if e.unmaps {
      UnmappedSpec(n, l);
    }
  }

  // ------------------------------------------------------------ one step of one

  /** The step of a request that the answer to its pending call makes. */
  function Next(n: Nas, x: string, job: Job, e: Event): (Nas, Job)
    requires Pending(job)
  {
    var a := Serve(n, Issue(x, job), e);
    (a.nas, Resume(x, job, a.reply))
  }

  lemma Unchanged(n: Nas, x: string, held: set<int>)
    ensures Frame(n, n, x, held)
  {
  }

  lemma FrameWidens(n: Nas, n': Nas, x: string, held: set<int>, more: set<int>)
    requires Frame(n, n', x, held) && held <= more
    ensures Frame(n, n', x, more)
  {
  }

  /** The loops over the target list find a target of the name exactly when there is one. */
  lemma FindInListing(n: Nas, order: seq<int>, x: string)
    ensures var found := Find(ListingOf(n.targets, order), x);
            && (found.None? <==> NoTarget(n, x))
            && (found.Some? ==> && Owns(n, x, found.value.index, found.value.luns)
                                && found.value == InfoOf(found.value.index, n.targets[found.value.index]))
  {
    ListingSpec(n.targets, order);
    var list := ListingOf(n.targets, order);
    var found := Find(list, x);
    if found.None? {
      forall i | i in n.targets
        ensures n.targets[i].name != x
      {
        var info := InfoOf(i, n.targets[i]);
        assert info in list;
      }
    } else {
      var k :| 0 <= k < |list| && list[k] == found.value;
    }
  }

  lemma FoundTarget(n: Nas, x: string, t: int)
    requires NasOk(n) && t in n.targets && n.targets[t].name == x
    ensures HoldsAll(n, x, n.targets[t].luns)
    ensures forall l | l in n.targets[t].luns :: ListedUnder(n, x, l)
  {
  }

  /** A call without effect is a good step whenever the next position is justified. */
  lemma StandStill(n: Nas, x: string, job: Job, next: Job)
    requires NasOk(n) && JobOk(n, x, next) && NewlyHeld(n, x, HeldLuns(job), HeldLuns(next))
    ensures GoodStep(n, x, job, n, next)
  {
    Unchanged(n, x, HeldLuns(job));
  }

  lemma CreateCallStep(n: Nas, x: string, job: Job, e: Event)
    requires NasOk(n)
    requires job.CreateLogin? || job.CreateCheck? || job.FindIqn?
    ensures GoodStep(n, x, job, Next(n, x, job, e).0, Next(n, x, job, e).1)
  {
    var next := Next(n, x, job, e).1;
    assert Next(n, x, job, e).0 == n;
    if job.CreateCheck? && e.fate == Done {
      FindInListing(n, e.order, x);
      assert next.MakeTarget? ==> NoTarget(n, x);
    }
    StandStill(n, x, job, next);
  }

  lemma MakeTargetStep(n: Nas, x: string, job: Job, e: Event)
    requires NasOk(n) && JobOk(n, x, job) && job.MakeTarget?
    ensures GoodStep(n, x, job, Next(n, x, job, e).0, Next(n, x, job, e).1)
  {
    TargetAdded(n, x, e);
    if e.fate == NoEffect {
      StandStill(n, x, job, Next(n, x, job, e).1);
    }
  }

  lemma OwnedTargetStep(n: Nas, x: string, job: Job, e: Event)
    requires NasOk(n) && JobOk(n, x, job)
    requires job.MakeInitiator? || job.MakeLun? || job.UndoTarget?
    ensures GoodStep(n, x, job, Next(n, x, job, e).0, Next(n, x, job, e).1)
  {
    if e.fate == NoEffect {
      StandStill(n, x, job, Next(n, x, job, e).1);
    } else {
      match job
      case MakeInitiator(t, _) => InitiatorAdded(n, x, t, e);
      case MakeLun(t, gib) => LunAdded(n, x, gib, t, e);
      case UndoTarget(t, _) => TargetRemoved(n, x, t, [], e);
    }
  }

  lemma OwnedLunStep(n: Nas, x: string, job: Job, e: Event)
    requires NasOk(n) && JobOk(n, x, job)
    requires job.AwaitLun? || job.Attach? || job.UndoBoth?
    ensures GoodStep(n, x, job, Next(n, x, job, e).0, Next(n, x, job, e).1)
  {
    if job.AwaitLun? || e.fate == NoEffect {
      StandStill(n, x, job, Next(n, x, job, e).1);
    } else if job.Attach? {
      LunAttached(n, x, job.lun, job.target, e);
    } else {
      TargetRemoved(n, x, job.target, [], e);
      FrameWidens(n, Effect(n, RemoveTarget(job.target), e).nas, x, {}, HeldLuns(job));
    }
  }

  lemma UndoLunStep(n: Nas, x: string, job: Job, e: Event)
    requires NasOk(n) && JobOk(n, x, job) && job.UndoLun?
    requires e.fate == NoEffect || e.unmaps || Unlisted(n, job.lun)
    ensures GoodStep(n, x, job, Next(n, x, job, e).0, Next(n, x, job, e).1)
  {
    Unchanged(n, x, HeldLuns(job));
    if e.fate != NoEffect {
      LunRemoved(n, x, job.lun, e);
    }
  }

  /** Searching by name finds the only target of the name. */
  lemma OnlyTargetFound(x: string, n1: Nas, t: int, order: seq<int>)
    requires t in n1.targets && n1.targets[t].name == x
    requires forall i | i in n1.targets && n1.targets[i].name == x :: i == t
    ensures Find(ListingOf(n1.targets, order), x) == Some(InfoOf(t, n1.targets[t]))
  {
    FindInListing(n1, order, x);
  }

  lemma FindIqnOutcome(x: string, n1: Nas, t: int, e: Event)
    requires t in n1.targets && n1.targets[t].name == x
    requires forall i | i in n1.targets && n1.targets[i].name == x :: i == t
    ensures var (n2, next) := Next(n1, x, FindIqn, e);
            && n2 == n1
            && next == if e.fate != Done then Refuse(ListFailed)
                       else if n1.targets[t].iqn == "" then Refuse(IqnMissing)
                       else Finished(Created(n1.targets[t].iqn))
  {
    OnlyTargetFound(x, n1, t, e.order);
  }

  lemma DeleteFindOutcome(n: Nas, x: string, e: Event)
    ensures var (n', next) := Next(n, x, DeleteFind, e);
            && n' == n
            && if e.fate != Done then next == Refuse(ListFailed)
               else if NoTarget(n, x) then next == Finished(Deleted)
               else && next.DropTarget? && next.target in n.targets && n.targets[next.target].name == x
                    && next.luns == n.targets[next.target].luns
  {
    FindInListing(n, e.order, x);
    var a := Serve(n, ListTargets, e);
    assert a.nas == n && a.reply == if e.fate == Done then Listing(ListingOf(n.targets, e.order)) else Failed;
  }

  lemma DeleteFindStep(n: Nas, x: string, job: Job, e: Event)
    requires NasOk(n) && (job.DeleteFind? || job.DeleteLogin?)
    ensures GoodStep(n, x, job, Next(n, x, job, e).0, Next(n, x, job, e).1)
  {
    if job.DeleteFind? {
      DeleteFindOutcome(n, x, e);
    }
    var next := Next(n, x, job, e).1;
    assert Next(n, x, job, e).0 == n;
    if next.DropTarget? {
      FoundTarget(n, x, next.target);
    }
    StandStill(n, x, job, next);
  }

  lemma DropTargetStep(n: Nas, x: string, job: Job, e: Event)
    requires NasOk(n) && JobOk(n, x, job) && job.DropTarget?
    ensures GoodStep(n, x, job, Next(n, x, job, e).0, Next(n, x, job, e).1)
  {
    Unchanged(n, x, HeldLuns(job));
    TargetRemoved(n, x, job.target, job.luns, e);
    FrameWidens(n, Effect(n, RemoveTarget(job.target), e).nas, x, {}, HeldLuns(job));
  }

  lemma DropLunsStep(n: Nas, x: string, job: Job, e: Event)
    requires NasOk(n) && JobOk(n, x, job) && job.DropLuns? && Pending(job)
    ensures GoodStep(n, x, job, Next(n, x, job, e).0, Next(n, x, job, e).1)
  {
    Unchanged(n, x, HeldLuns(job));
    var l, rest := job.luns[0], job.luns[1..];
    assert forall k | 0 <= k < |rest| :: rest[k] == job.luns[k + 1];
    assert Unlisted(n, l) by {
      assert Holds(n, x, l);
    }
    LunRemoved(n, x, l, e);
    var n' := Effect(n, RemoveLun(l), e).nas;
    FrameWidens(n, n', x, {l}, HeldLuns(job));
    forall k | 0 <= k < |rest|
      ensures Holds(n', x, rest[k])
    {
      assert Holds(n, x, job.luns[k + 1]) && job.luns[k + 1] != l;
    }
  }

  lemma OneStep(n: Nas, x: string, job: Job, e: Event)
    requires NasOk(n) && JobOk(n, x, job) && Pending(job)
    requires job.UndoLun? ==> e.fate == NoEffect || e.unmaps || Unlisted(n, job.lun)
    ensures GoodStep(n, x, job, Next(n, x, job, e).0, Next(n, x, job, e).1)
  {
    if job.CreateLogin? || job.CreateCheck? || job.FindIqn? {
      CreateCallStep(n, x, job, e);
    } else if job.MakeTarget? {
      MakeTargetStep(n, x, job, e);
    } else if job.MakeInitiator? || job.MakeLun? || job.UndoTarget? {
      OwnedTargetStep(n, x, job, e);
    } else if job.AwaitLun? || job.Attach? || job.UndoBoth? {
      OwnedLunStep(n, x, job, e);
    } else if job.UndoLun? {
      UndoLunStep(n, x, job, e);
    } else if job.DropTarget? {
      DropTargetStep(n, x, job, e);
    } else if job.DropLuns? {
      DropLunsStep(n, x, job, e);
    } else {
      DeleteFindStep(n, x, job, e);
    }
  }

  /** The step of one request leaves what the others rely on as it was. */
  lemma OthersUndisturbed(n: Nas, n': Nas, x: string, held: set<int>, y: string, job: Job)
    requires Frame(n, n', x, held) && x != y
    requires JobOk(n, y, job) && HeldLuns(job) !! held
    ensures JobOk(n', y, job)
    ensures forall t | t in HeldTargets(job) :: t in n.targets && t in n'.targets && n'.targets[t] == n.targets[t]
    ensures forall l | l in HeldLuns(job) :: l in n.luns && l in n'.luns && n'.luns[l] == n.luns[l]
  {
    forall l | l in HeldLuns(job) && Holds(n, y, l)
      ensures Holds(n', y, l)
    {
      forall i | i in n'.targets && l in n'.targets[i].luns
        ensures n'.targets[i].name == y
      {
        assert n'.targets[i].name == x ==> l in held || ListedUnder(n, x, l);
      }
    }
    if job.DropTarget? || job.DropLuns? {
      assert forall k | 0 <= k < |job.luns| :: job.luns[k] in HeldLuns(job);
      assert HoldsAll(n', y, job.luns);
    }
  }

  // ------------------------------------------------------- one step of the whole

  lemma BeginKeeps(s: System, x: string, request: Request)
    requires Inv(s)
    ensures Inv(Act(s, Begin(x, request)))
  {
  }

  /** The held LUNs of the request that moved stay apart from those of the others. */
  lemma StaysDisjoint(s: System, x: string, next: Job, y: string)
    requires Inv(s) && x in s.jobs && y in s.jobs && x != y
    requires NewlyHeld(s.nas, x, HeldLuns(s.jobs[x]), HeldLuns(next))
    ensures HeldLuns(next) !! HeldLuns(s.jobs[y])
  {
    var job := s.jobs[y];
    if job.DropTarget? || job.DropLuns? {
      assert forall l | l in HeldLuns(job) :: exists k :: 0 <= k < |job.luns| && job.luns[k] == l;
    }
    assert forall l | l in HeldLuns(job) :: Holds(s.nas, y, l);
    assert forall l | ListedUnder(s.nas, x, l) :: !Holds(s.nas, y, l);
  }

  lemma AdvanceKeeps(s: System, x: string, e: Event)
    requires Inv(s) && x in s.jobs && !Hazard(s, Advance(x, e))
    ensures Inv(Act(s, Advance(x, e)))
    ensures forall y | y in s.jobs && y != x :: HeldKept(s, Act(s, Advance(x, e)), y)
  {
    var job := s.jobs[x];
    OneStep(s.nas, x, job, e);
    var s' := Act(s, Advance(x, e));
    var next := Next(s.nas, x, job, e).1;
    forall y | y in s.jobs && y != x
      ensures y in s'.jobs && s'.jobs[y] == s.jobs[y] && JobOk(s'.nas, y, s.jobs[y]) && HeldKept(s, s', y)
      ensures HeldLuns(next) !! HeldLuns(s.jobs[y])
    {
      OthersUndisturbed(s.nas, s'.nas, x, HeldLuns(job), y, s.jobs[y]);
      StaysDisjoint(s, x, next, y);
    }
  }

  /** The indexes `y` remembers denote the same objects after the step as before it. */
  ghost predicate HeldKept(s: System, s': System, y: string) {
    y in s.jobs && y in s'.jobs && s'.jobs[y] == s.jobs[y] &&
    (forall t | t in HeldTargets(s.jobs[y]) ::
      t in s.nas.targets && t in s'.nas.targets && s'.nas.targets[t] == s.nas.targets[t]) &&
    (forall l | l in HeldLuns(s.jobs[y]) ::
      l in s.nas.luns && l in s'.nas.luns && s'.nas.luns[l] == s.nas.luns[l])
  }

  /**
   Every step keeps the invariant except the hazardous one, and that one always
   breaks it: a target is left mapping a LUN that is gone.
   */
  lemma StepKeepsInv(s: System, a: Action)
    requires Inv(s)
    ensures Inv(Act(s, a)) <==> !Hazard(s, a)
  {
    match a
    case Begin(x, request) => BeginKeeps(s, x, request);
    case Advance(x, e) =>
      if Hazard(s, a) {
        var i :| i in s.nas.targets && s.jobs[x].lun in s.nas.targets[i].luns;
        var s' := Act(s, a);
        assert s'.nas.targets == s.nas.targets && s.jobs[x].lun !in s'.nas.luns;
        var k :| 0 <= k < |s.nas.targets[i].luns| && s.nas.targets[i].luns[k] == s.jobs[x].lun;
        assert s'.nas.targets[i].luns[k] !in s'.nas.luns;
      } else if x in s.jobs {
        AdvanceKeeps(s, x, e);
      }
  }

  // ----------------------------------------------------------------- whole runs

  ghost predicate HazardFree(s: System, actions: seq<Action>)
    decreases |actions|
  {
    actions == [] || (!Hazard(s, actions[0]) && HazardFree(Act(s, actions[0]), actions[1..]))
  }

  ghost predicate AlwaysInv(s: System, actions: seq<Action>)
    decreases |actions|
  {
    Inv(s) && (actions == [] || AlwaysInv(Act(s, actions[0]), actions[1..]))
  }

  /**
   Over every run from a good state, the invariant holds in every state the run
   goes through if and only if the hazardous step is not among its steps.
   */
  lemma {:induction false} RunKeepsInv(s: System, actions: seq<Action>)
    requires Inv(s)
    ensures AlwaysInv(s, actions) <==> HazardFree(s, actions)
    ensures HazardFree(s, actions) ==> Inv(Exec(s, actions))
    decreases |actions|
  {
    if actions != [] {
      StepKeepsInv(s, actions[0]);
      if Inv(Act(s, actions[0])) {
        RunKeepsInv(Act(s, actions[0]), actions[1..]);
      }
    }
  }

  /** A request's own step keeps the objects it still remembers afterwards. */
  lemma OwnObjectsKept(n: Nas, x: string, job: Job, e: Event)
    requires NasOk(n) && JobOk(n, x, job) && Pending(job)
    requires job.UndoLun? ==> e.fate == NoEffect || e.unmaps || Unlisted(n, job.lun)
    ensures var (n', next) := Next(n, x, job, e);
            && (forall l | l in HeldLuns(job) && l in HeldLuns(next) ::
                  l in n.luns && l in n'.luns && n'.luns[l] == n.luns[l])
            && (forall t | t in HeldTargets(job) && t in HeldTargets(next) ::
                  t in n.targets && t in n'.targets && n'.targets[t].serial == n.targets[t].serial)
  {
    var (n', next) := Next(n, x, job, e);
    if job.DropLuns? && next.DropLuns? {
      forall l | l in HeldLuns(next)
        ensures l != job.luns[0] && l in n.luns
      {
        var k :| 0 <= k < |next.luns| && next.luns[k] == l;
        assert job.luns[k + 1] == l && Holds(n, x, job.luns[k + 1]);
      }
    }
  }

  /** `x` is in flight and remembers the LUN index `l` in every state of the run. */
  ghost predicate HoldsLunThroughout(s: System, actions: seq<Action>, x: string, l: int)
    decreases |actions|
  {
    && x in s.jobs && l in HeldLuns(s.jobs[x])
    && (actions == [] || HoldsLunThroughout(Act(s, actions[0]), actions[1..], x, l))
  }

  ghost predicate HoldsTargetThroughout(s: System, actions: seq<Action>, x: string, t: int)
    decreases |actions|
  {
    && x in s.jobs && t in HeldTargets(s.jobs[x])
    && (actions == [] || HoldsTargetThroughout(Act(s, actions[0]), actions[1..], x, t))
  }

  /** One step, whoever makes it, keeps the object behind an index that stays remembered. */
  lemma HeldObjectsKept(s: System, a: Action, x: string)
    requires Inv(s) && !Hazard(s, a)
    requires x in s.jobs && x in Act(s, a).jobs
    ensures var s' := Act(s, a);
            && (forall l | l in HeldLuns(s.jobs[x]) && l in HeldLuns(s'.jobs[x]) ::
                  l in s.nas.luns && l in s'.nas.luns && s'.nas.luns[l] == s.nas.luns[l])
            && (forall t | t in HeldTargets(s.jobs[x]) && t in HeldTargets(s'.jobs[x]) ::
                  t in s.nas.targets && t in s'.nas.targets && s'.nas.targets[t].serial == s.nas.targets[t].serial)
  {
    match a
    case Begin(y, request) =>
      BeginHeld(s, x);
    case Advance(y, e) =>
      if y == x {
        OwnObjectsKept(s.nas, x, s.jobs[x], e);
      } else if y in s.jobs {
        AdvanceKeeps(s, y, e);
      } else {
        BeginHeld(s, x);
      }
  }

  lemma BeginHeld(s: System, x: string)
    requires Inv(s) && x in s.jobs
    ensures forall l | l in HeldLuns(s.jobs[x]) :: l in s.nas.luns
    ensures forall t | t in HeldTargets(s.jobs[x]) :: t in s.nas.targets
  {
    var job := s.jobs[x];
    assert JobOk(s.nas, x, job);
    if job.DropTarget? || job.DropLuns? {
      forall l | l in HeldLuns(job)
        ensures l in s.nas.luns
      {
        var k :| 0 <= k < |job.luns| && job.luns[k] == l;
        assert Holds(s.nas, x, job.luns[k]);
      }
    }
  }

  /**
   For as long as a request remembers a LUN index, the index denotes one and the
   same LUN, though indexes are reused and others create and delete meanwhile.
   */
  lemma {:induction false} LunIndexStaysValid(s: System, actions: seq<Action>, x: string, l: int)
    requires Inv(s) && HazardFree(s, actions) && HoldsLunThroughout(s, actions, x, l)
    ensures var s' := Exec(s, actions);
            l in s.nas.luns && l in s'.nas.luns && s'.nas.luns[l] == s.nas.luns[l]
    decreases |actions|
  {
    if actions == [] {
      BeginHeld(s, x);
    } else {
      StepKeepsInv(s, actions[0]);
      HeldObjectsKept(s, actions[0], x);
      LunIndexStaysValid(Act(s, actions[0]), actions[1..], x, l);
    }
  }

  /** The same for a target index; the list of LUNs of the target may change. */
  lemma {:induction false} TargetIndexStaysValid(s: System, actions: seq<Action>, x: string, t: int)
    requires Inv(s) && HazardFree(s, actions) && HoldsTargetThroughout(s, actions, x, t)
    ensures var s' := Exec(s, actions);
            && t in s.nas.targets && t in s'.nas.targets
            && s'.nas.targets[t].serial == s.nas.targets[t].serial
    decreases |actions|
  {
    if actions == [] {
      BeginHeld(s, x);
    } else {
      StepKeepsInv(s, actions[0]);
      HeldObjectsKept(s, actions[0], x);
      TargetIndexStaysValid(Act(s, actions[0]), actions[1..], x, t);
    }
  }

  // ------------------------------------------- a serial request is such a run too

  function Advances(x: string, script: seq<Event>, count: nat): seq<Action> {
    if count == 0 then [] else [Advance(x, NextEvent(script))] + Advances(x, Rest(script), count - 1)
  }

  /** Running one request alone is the interleaving in which no other one moves. */
  lemma {:induction false} SerialIsARun(s: System, x: string, script: seq<Event>)
    requires x in s.jobs && Pending(s.jobs[x])
    ensures var r := Serial(x, s.jobs[x], s.nas, script);
            Exec(s, Advances(x, script, |r.log|)) == System(r.nas, s.jobs - {x})
    decreases |script|, Rank(s.jobs[x])
  {
    var r := Serial(x, s.jobs[x], s.nas, script);
    var s1 := Act(s, Advance(x, NextEvent(script)));
    var next := Next(s.nas, x, s.jobs[x], NextEvent(script)).1;
    var r1 := Serial(x, next, s1.nas, Rest(script));
    assert |r.log| == 1 + |r1.log|;
    var actions := Advances(x, script, |r.log|);
    assert actions[0] == Advance(x, NextEvent(script)) && actions[1..] == Advances(x, Rest(script), |r1.log|);
    if next.Finished? {
      assert r1.log == [];
    } else {
      SerialIsARun(s1, x, Rest(script));
      assert s1.jobs - {x} == s.jobs - {x};
    }
  }
}
