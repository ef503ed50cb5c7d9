/**
 CreateVolume and DeleteVolume (driver/controller.go) as step machines: which
 call a request makes next, and how it goes on with the reply. A request is known
 by the name it works on: the cleaned name of a create, the raw id of a delete.
 */
module Saga {
  import opened Wrappers
  import opened Nas

  datatype SagaError =
    | LoginFailed
    | ListFailed
    | AlreadyExists
    | TargetFailed
    | InitiatorFailed
    | LunFailed
    | ReadinessFailed
    | AttachFailed
    | IqnMissing
    | DeleteTargetFailed
    | DeleteLunFailed

  datatype Outcome = Created(iqn: string) | Deleted | Refused(error: SagaError)

  /** Where a request stands, and what it remembers there. */
  datatype Job =
    | CreateLogin(gib: int)
    | CreateCheck(gib: int)
    | MakeTarget(gib: int)
    | MakeInitiator(target: int, gib: int)
    | MakeLun(target: int, gib: int)
    | AwaitLun(target: int, lun: int)
    | Attach(target: int, lun: int)
    | UndoTarget(target: int, cause: SagaError)
    | UndoBoth(target: int, lun: int)
    | UndoLun(lun: int)
    | FindIqn
    | DeleteLogin
    | DeleteFind
    | DropTarget(target: int, luns: seq<int>)
    | DropLuns(luns: seq<int>)
    | Finished(outcome: Outcome)

  /** The first entry with this name, as the loops over the target list find it. */
  function Find(list: seq<TargetInfo>, name: string): (found: Option<TargetInfo>)
    ensures found.Some? ==> found.value in list && found.value.name == name
    ensures found.None? <==> forall k | 0 <= k < |list| :: list[k].name != name
  {
    if list == [] then None
    else if list[0].name == name then Some(list[0])
    else Find(list[1..], name)
  }

  function Issue(name: string, job: Job): Call
    requires !job.Finished? && (job.DropLuns? ==> job.luns != [])
  {
    match job
    case CreateLogin(_) => Login
    case CreateCheck(_) => ListTargets
    case MakeTarget(_) => AddTarget(name)
    case MakeInitiator(t, _) => AddInitiator(t)
    case MakeLun(_, gib) => AddLun(name, gib)
    case AwaitLun(_, l) => LunStatus(l)
    case Attach(t, l) => AttachLun(l, t)
    case UndoTarget(t, _) => RemoveTarget(t)
    case UndoBoth(t, _) => RemoveTarget(t)
    case UndoLun(l) => RemoveLun(l)
    case FindIqn => ListTargets
    case DeleteLogin => Login
    case DeleteFind => ListTargets
    case DropTarget(t, _) => RemoveTarget(t)
    case DropLuns(luns) => RemoveLun(luns[0])
  }

  /** What is left to do once the target is gone. */
  function DropRest(luns: seq<int>): Job {
    if luns == [] then Finished(Deleted) else DropLuns(luns)
  }

  function Refuse(error: SagaError): Job {
    Finished(Refused(error))
  }

  /** StatusString of a LUN is "creating" exactly for the status code "0". */
  predicate StillCreating(status: string) {
    status == "0"
  }

  function Resume(name: string, job: Job, reply: Reply): (next: Job)
    requires !job.Finished? && (job.DropLuns? ==> job.luns != [])
    ensures next.DropLuns? ==> next.luns != []
  {
    match job
    case CreateLogin(gib) => if reply.Ack? then CreateCheck(gib) else Refuse(LoginFailed)
    case CreateCheck(gib) =>
      if !reply.Listing? then Refuse(ListFailed)
      else if Find(reply.targets, name).Some? then Refuse(AlreadyExists)
      else MakeTarget(gib)
    case MakeTarget(gib) => if reply.Index? then MakeInitiator(reply.index, gib) else Refuse(TargetFailed)
    case MakeInitiator(t, gib) => if reply.Ack? then MakeLun(t, gib) else UndoTarget(t, InitiatorFailed)
    case MakeLun(t, _) => if reply.Index? then AwaitLun(t, reply.index) else UndoTarget(t, LunFailed)
    case AwaitLun(t, l) =>
      if !reply.Status? then Refuse(ReadinessFailed)
      else if StillCreating(reply.status) then job
      else Attach(t, l)
    case Attach(t, l) => if reply.Ack? then FindIqn else UndoBoth(t, l)
    case UndoTarget(_, cause) => Refuse(cause)
    case UndoBoth(_, l) => UndoLun(l)
    case UndoLun(_) => Refuse(AttachFailed)
    case FindIqn =>
      if !reply.Listing? then Refuse(ListFailed)
      else
        var found := Find(reply.targets, name);
        if found.None? || found.value.iqn == "" then Refuse(IqnMissing) else Finished(Created(found.value.iqn))
    case DeleteLogin => if reply.Ack? then DeleteFind else Refuse(LoginFailed)
    case DeleteFind =>
      if !reply.Listing? then Refuse(ListFailed)
      else
        var found := Find(reply.targets, name);
        if found.None? then Finished(Deleted) else DropTarget(found.value.index, found.value.luns)
    case DropTarget(_, luns) => if reply.Ack? then DropRest(luns) else Refuse(DeleteTargetFailed)
    case DropLuns(luns) => if reply.Ack? then DropRest(luns[1..]) else Refuse(DeleteLunFailed)
  }

  /** A place a request can stand at. */
  predicate Proper(job: Job) {
    job.DropLuns? ==> job.luns != []
  }

  /** How many calls a request can still make when all of them fail. */
  function Rank(job: Job): nat {
    match job
    case Finished(_) => 0
    case UndoTarget(_, _) => 1
    case UndoLun(_) => 1
    case UndoBoth(_, _) => 2
    case _ => 3
  }

  datatype Exchange = Exchange(call: Call, reply: Reply)

  /** How a request went: its outcome, the NAS and the script afterwards, and the calls it made. */
  datatype Ran = Ran(outcome: Outcome, nas: Nas, script: seq<Event>, log: seq<Exchange>)

  /** A request run from `job` to its end while no other request is served. */
  function Serial(name: string, job: Job, nas: Nas, script: seq<Event>): Ran
    requires Proper(job)
    decreases |script|, Rank(job)
  {
    if job.Finished? then Ran(job.outcome, nas, script, [])
    else
      var call := Issue(name, job);
      var a := Serve(nas, call, NextEvent(script));
      var r := Serial(name, Resume(name, job, a.reply), a.nas, Rest(script));
      r.(log := [Exchange(call, a.reply)] + r.log)
  }

  function RunCreate(name: string, gib: int, nas: Nas, script: seq<Event>): Ran {
    Serial(name, CreateLogin(gib), nas, script)
  }

  function RunDelete(id: string, nas: Nas, script: seq<Event>): Ran {
    Serial(id, DeleteLogin, nas, script)
  }

  /** The entry found is the first one of the name. */
  lemma {:induction false} FindFirst(list: seq<TargetInfo>, name: string)
    ensures Find(list, name).Some? ==>
              exists k :: 0 <= k < |list| && list[k] == Find(list, name).value
                          && forall j | 0 <= j < k :: list[j].name != name
  {
    if list != [] {
      if list[0].name == name {
        assert list[0] == Find(list, name).value;
      } else {
        FindFirst(list[1..], name);
        if Find(list, name).Some? {
          var k :| 0 <= k < |list[1..]| && list[1..][k] == Find(list, name).value
                   && forall j | 0 <= j < k :: list[1..][j].name != name;
          assert list[k + 1] == Find(list, name).value;
          assert forall j | 0 < j < k + 1 :: list[j] == list[1..][j - 1];
        }
      }
    }
  }

  /** A LUN is polled again for as long as its status is "0", and attached at any other status. */
  lemma PolledWhileCreating(name: string, t: int, l: int, status: string)
    ensures Resume(name, AwaitLun(t, l), Status(status)) == if status == "0" then AwaitLun(t, l) else Attach(t, l)
    ensures Issue(name, AwaitLun(t, l)) == LunStatus(l) && Issue(name, Attach(t, l)) == AttachLun(l, t)
  {
  }

  // ------------------------------------------------------- what an outcome reports

  /** The error that stands for the failure of this call. */
  function CauseOf(call: Call): SagaError {
    match call
    case Login => LoginFailed
    case ListTargets => ListFailed
    case AddTarget(_) => TargetFailed
    case AddInitiator(_) => InitiatorFailed
    case AddLun(_, _) => LunFailed
    case LunStatus(_) => ReadinessFailed
    case AttachLun(_, _) => AttachFailed
    case RemoveTarget(_) => DeleteTargetFailed
    case RemoveLun(_) => DeleteLunFailed
  }

  /** The first call of the log that was answered as failed. */
  function FirstFailed(log: seq<Exchange>): (failed: Option<Call>)
    ensures failed.None? <==> forall k | 0 <= k < |log| :: !log[k].reply.Failed?
  {
    if log == [] then None
    else if log[0].reply.Failed? then Some(log[0].call)
    else FirstFailed(log[1..])
  }

  predicate IsCreate(job: Job) {
    && !job.DeleteLogin? && !job.DeleteFind? && !job.DropTarget? && !job.DropLuns? && !job.Finished?
  }

  predicate IsUndo(job: Job) {
    job.UndoTarget? || job.UndoBoth? || job.UndoLun?
  }

  /** How the outcome is to be told from the log. */
  predicate Reports(create: bool, outcome: Outcome, log: seq<Exchange>) {
    match FirstFailed(log)
    case Some(call) => outcome == Refused(CauseOf(call))
    case None =>
      if create then outcome.Created? || outcome == Refused(AlreadyExists) || outcome == Refused(IqnMissing)
      else outcome == Deleted
  }

  lemma {:induction false} UndoReports(name: string, job: Job, nas: Nas, script: seq<Event>)
    requires IsUndo(job)
    ensures var cause := if job.UndoTarget? then job.cause else AttachFailed;
            Serial(name, job, nas, script).outcome == Refused(cause)
    decreases Rank(job)
  {
    if job.UndoBoth? {
      var a := Serve(nas, Issue(name, job), NextEvent(script));
      UndoReports(name, UndoLun(job.lun), a.nas, Rest(script));
    }
  }

  /** One call that is not answered as failed, ahead of the rest. */
  lemma ReportsCons(create: bool, r: Ran, ex: Exchange)
    requires !ex.reply.Failed? && Reports(create, r.outcome, r.log)
    ensures Reports(create, r.outcome, [ex] + r.log)
  {
    assert ([ex] + r.log)[1..] == r.log;
  }

  lemma ReplyFits(nas: Nas, call: Call, e: Event)
    ensures var reply := Serve(nas, call, e).reply;
            reply.Failed? || match call
                             case ListTargets => reply.Listing?
                             case AddTarget(_) => reply.Index?
                             case AddLun(_, _) => reply.Index?
                             case LunStatus(_) => reply.Status?
                             case _ => reply.Ack?
  {
  }

  lemma {:induction false} ReportsFrom(name: string, job: Job, nas: Nas, script: seq<Event>)
    requires Proper(job) && !job.Finished? && !IsUndo(job)
    ensures var r := Serial(name, job, nas, script);
            Reports(IsCreate(job), r.outcome, r.log)
    decreases |script|
  {
    var call, e := Issue(name, job), NextEvent(script);
    var a := Serve(nas, call, e);
    ReplyFits(nas, call, e);
    var next, ex := Resume(name, job, a.reply), Exchange(call, a.reply);
    var r1 := Serial(name, next, a.nas, Rest(script));
    if a.reply.Failed? {
      if IsUndo(next) {
        UndoReports(name, next, a.nas, Rest(script));
      }
    } else if next.Finished? {
      assert [ex][1..] == [];
    } else {
      ReportsFrom(name, next, a.nas, Rest(script));
      ReportsCons(IsCreate(job), r1, ex);
    }
  }

  /**
   Every request reports the first of its calls that failed, whatever happens in the
   compensation after it; and when no call failed, a delete succeeds, and a create does
   unless the name has a target already or the new target has no IQN.
   */
  lemma FirstFailureReported(name: string, gib: int, nas: Nas, script: seq<Event>)
    ensures var r := RunCreate(name, gib, nas, script); Reports(true, r.outcome, r.log)
    ensures var r := RunDelete(name, nas, script); Reports(false, r.outcome, r.log)
  {
    ReportsFrom(name, CreateLogin(gib), nas, script);
    ReportsFrom(name, DeleteLogin, nas, script);
  }
}
