/**
 The controller service (driver/controller.go) call by call: CreateVolume,
 DeleteVolume and ListVolumes against a NAS client, in the order and with the
 early returns of the source, proved to follow the step machines of `Saga`.
 */
module Controller {
  import opened Wrappers
  import opened Text
  import opened Lists
  import opened Nas
  import opened Saga
  import opened Paging
  import opened SeenToken
  import opened Capacity
  import opened Names
  import S = SagaSafety
  import R = SagaSerial
  import T = SagaTheorems

  /** The client of the NAS: each call uses up one event of the script. */
  class Client {
    var nas: Nas
    var script: seq<Event>
    ghost var log: seq<Exchange>

    constructor (nas: Nas, script: seq<Event>)
      ensures this.nas == nas && this.script == script && log == []
    {
      this.nas, this.script, this.log := nas, script, [];
    }

    method Send(call: Call) returns (reply: Reply)
      modifies this
      ensures var a := Serve(old(nas), call, NextEvent(old(script)));
              reply == a.reply && nas == a.nas
      ensures script == Rest(old(script)) && log == old(log) + [Exchange(call, reply)]
    {
      var a := Serve(nas, call, NextEvent(script));
      reply := a.reply;
      nas, script, log := a.nas, Rest(script), log + [Exchange(call, reply)];
    }
  }

  datatype AccessType = BlockAccess | MountAccess | OtherAccess

  const SINGLE_NODE_WRITER: int := 1

  datatype Capability = Capability(mode: int, access: AccessType)

  datatype Violation = UnsupportedMode(mode: int) | UnsupportedType

  datatype CreateRequest = CreateRequest(name: string, capabilities: seq<Capability>, range: Option<CapacityRange>)

  datatype CreateResponse = CreateResponse(volumeId: string, capacityBytes: int, context: map<string, string>)

  datatype RequestError =
    | NameMissing
    | CapabilitiesMissing
    | CapabilitiesUnsupported(violations: set<Violation>)
    | RangeRefused(error: RangeError)
    | VolumeIdMissing
    | Stopped(cause: SagaError)

  datatype Code = InvalidArgument | OutOfRange | Conflict | Internal

  /** The gRPC status code of an error; the AlreadyExists code is called Conflict. */
  function CodeOf(error: RequestError): Code {
    match error
    case NameMissing => InvalidArgument
    case CapabilitiesMissing => InvalidArgument
    case CapabilitiesUnsupported(_) => InvalidArgument
    case RangeRefused(_) => OutOfRange
    case VolumeIdMissing => InvalidArgument
    case Stopped(cause) => if cause == AlreadyExists then Conflict else Internal
  }

  predicate Supported(c: Capability) {
    c.mode == SINGLE_NODE_WRITER && c.access != OtherAccess
  }

  predicate AllSupported(caps: seq<Capability>) {
    forall k | 0 <= k < |caps| :: Supported(caps[k])
  }

  ghost predicate AsksFor(caps: seq<Capability>, mode: int) {
    exists k :: 0 <= k < |caps| && caps[k].mode == mode
  }

  /** Every mode that some capability asks for and that is not supported, and whether some access type is not. */
  ghost predicate AreViolations(violations: set<Violation>, caps: seq<Capability>) {
    && (forall mode :: UnsupportedMode(mode) in violations <==> mode != 1 && AsksFor(caps, mode))
    && (UnsupportedType in violations <==> exists k :: 0 <= k < |caps| && caps[k].access == OtherAccess)
  }

  lemma OneMoreCapability(caps: seq<Capability>, i: nat, before: set<Violation>, after: set<Violation>)
    requires i < |caps| && AreViolations(before, caps[..i])
    requires after == before + (if caps[i].mode != 1 then {UnsupportedMode(caps[i].mode)} else {})
                      + (if caps[i].access == OtherAccess then {UnsupportedType} else {})
    ensures AreViolations(after, caps[..i + 1])
  {
    var some, more := caps[..i], caps[..i + 1];
    assert more == some + [caps[i]] && more[i] == caps[i];
    forall mode
      ensures AsksFor(more, mode) <==> caps[i].mode == mode || AsksFor(some, mode)
    {
      assert forall k | 0 <= k < |some| :: more[k] == some[k];
    }
    assert (exists k :: 0 <= k < |more| && more[k].access == OtherAccess)
           <==> caps[i].access == OtherAccess || exists k :: 0 <= k < |some| && some[k].access == OtherAccess by {
      assert forall k | 0 <= k < |some| :: more[k] == some[k];
    }
  }

  /** validateCapabilities: every violation once, and none exactly when all capabilities are supported. */
  method ValidateCapabilities(caps: seq<Capability>) returns (violations: set<Violation>)
    ensures AreViolations(violations, caps)
    ensures violations == {} <==> AllSupported(caps)
  {
    violations := {};
    for i := 0 to |caps|
      invariant AreViolations(violations, caps[..i])
      invariant violations == {} <==> forall k | 0 <= k < i :: Supported(caps[k])
    {
      ghost var before := violations;
      if caps[i].mode != SINGLE_NODE_WRITER {
        violations := violations + {UnsupportedMode(caps[i].mode)};
      }
      if caps[i].access == OtherAccess {
        violations := violations + {UnsupportedType};
      }
      OneMoreCapability(caps, i, before, violations);
    }
    assert caps[..|caps|] == caps;
  }

  /** Why DeleteVolume refuses an id before it asks the NAS anything. */
  function DeleteGuard(volumeId: string): Option<RequestError> {
    if volumeId == "" then Some(VolumeIdMissing) else None
  }

  /** What the driver hands to the node about a volume. */
  function ContextOf(portal: string, iqn: string): map<string, string> {
    map["targetPortal" := portal, "iqn" := iqn, "lun" := "0", "portals" := "[]"]
  }

  ghost predicate Acceptable(req: CreateRequest) {
    && req.name != "" && req.capabilities != [] && AllSupported(req.capabilities)
    && ExtractStorage(req.range).Success?
  }

  /** The error stands for the first thing that is wrong with the request. */
  ghost predicate RefusedFor(req: CreateRequest, error: RequestError) {
    match error
    case NameMissing => req.name == ""
    case CapabilitiesMissing => req.name != "" && req.capabilities == []
    case CapabilitiesUnsupported(violations) =>
      && req.name != "" && req.capabilities != [] && !AllSupported(req.capabilities)
      && AreViolations(violations, req.capabilities)
    case RangeRefused(cause) =>
      && req.name != "" && req.capabilities != [] && AllSupported(req.capabilities)
      && ExtractStorage(req.range) == Failure(cause)
    case _ => false
  }

  /** The answer to a create that reached the NAS. */
  function AnswerOf(name: string, size: int, portal: string, outcome: Outcome): Result<CreateResponse, RequestError>
    requires outcome.Created? || outcome.Refused?
  {
    match outcome
    case Created(iqn) => Success(CreateResponse(name, size, ContextOf(portal, iqn)))
    case Refused(cause) => Failure(Stopped(cause))
  }

  /**
   What the answer to a successful create says is true of the NAS: the target of that
   id, open to initiators, has the one LUN `l`, of that capacity, and the context
   holds its IQN, the LUN number 0, the portal, and no further portals.
   */
  ghost predicate StandsFor(answer: CreateResponse, portal: string, n: Nas, t: int, l: int) {
    && t in n.targets && n.targets[t].name == answer.volumeId && n.targets[t].initiator && n.targets[t].luns == [l]
    && l in n.luns && n.luns[l].name == answer.volumeId && n.luns[l].gib * 1_073_741_824 == answer.capacityBytes
    && answer.context == map["targetPortal" := portal, "iqn" := n.targets[t].iqn, "lun" := "0", "portals" := "[]"]
  }

  /** The volume an answer stands for is all that is new on the NAS. */
  ghost predicate IsNew(answer: CreateResponse, portal: string, n: Nas, n': Nas) {
    && (forall i | i in n.targets :: n.targets[i].name != answer.volumeId)
    && exists t, l ::
         && StandsFor(answer, portal, n', t, l) && t !in n.targets && l !in n.luns
         && n'.targets == n.targets[t := n'.targets[t]] && n'.luns == n.luns[l := n'.luns[l]]
  }

  /** The capacity meets the bounds that the request sets; without any it is 16 GiB. */
  ghost predicate Fits(capacityBytes: int, range: Option<CapacityRange>) {
    if range.None? || (range.value.requiredBytes <= 0 && range.value.limitBytes <= 0) then
      capacityBytes == 17_179_869_184
    else
      WithinRange(capacityBytes, range.value)
  }

  lemma AnswerIsTrue(req: CreateRequest, portal: string, n: Nas, script: seq<Event>)
    requires Acceptable(req) && S.ListsExist(n)
    ensures var size := ExtractStorage(req.range).value;
            var x := CleanISCSIName(req.name);
            var r := RunCreate(x, size / GIB, n, script);
            r.outcome.Created? ==>
              var answer := AnswerOf(x, size, portal, r.outcome).value;
              answer.volumeId == x && Fits(answer.capacityBytes, req.range) && IsNew(answer, portal, n, r.nas)
  {
    var size := ExtractStorage(req.range).value;
    var x := CleanISCSIName(req.name);
    R.CreateResidue(n, x, size / GIB, script);
    var r := RunCreate(x, size / GIB, n, script);
    if r.outcome.Created? {
      var t, l :| R.VolumeMore(n, r.nas, x, size / GIB, t, l) && r.nas.targets[t].iqn == r.outcome.iqn;
      assert StandsFor(AnswerOf(x, size, portal, r.outcome).value, portal, r.nas, t, l);
    }
  }

  /** The target of the id and its LUNs are gone, and nothing else. */
  ghost predicate IsGone(id: string, n: Nas, n': Nas) {
    forall t | t in n.targets && n.targets[t].name == id ::
      n'.targets == n.targets - {t} && n'.luns == n.luns - Elements(n.targets[t].luns)
  }

  /** All the calls it takes to delete the volume of the id are answered. */
  ghost predicate DeleteAnswered(id: string, n: Nas, script: seq<Event>) {
    exists t :: t in n.targets && n.targets[t].name == id && T.AllDone(script, 3 + |n.targets[t].luns|)
  }

  lemma AnsweredDeleteWorks(id: string, n: Nas, script: seq<Event>)
    requires S.NasOk(n) && DeleteAnswered(id, n, script)
    ensures RunDelete(id, n, script).outcome == Deleted && IsGone(id, n, RunDelete(id, n, script).nas)
  {
    var t :| t in n.targets && n.targets[t].name == id && T.AllDone(script, 3 + |n.targets[t].luns|);
    T.DeleteSucceeds(n, id, t, script);
  }

  lemma DeleteFailsInternally(id: string, n: Nas, script: seq<Event>)
    ensures var outcome := RunDelete(id, n, script).outcome;
            outcome == Deleted || (outcome.Refused? && CodeOf(Stopped(outcome.error)) == Internal)
  {
    FirstFailureReported(id, 0, n, script);
  }

  /** The loops over the target list: the first target of the name. */
  method FindTarget(targets: seq<TargetInfo>, name: string) returns (found: Option<TargetInfo>)
    ensures found == Find(targets, name)
    ensures if found.None? then forall k | 0 <= k < |targets| :: targets[k].name != name
            else exists k :: 0 <= k < |targets| && targets[k] == found.value && targets[k].name == name
                             && forall j | 0 <= j < k :: targets[j].name != name
  {
    FindFirst(targets, name);
    for i := 0 to |targets|
      invariant Find(targets[i..], name) == Find(targets, name)
    {
      if targets[i].name == name {
        return Some(targets[i]);
      }
      assert targets[i..][1..] == targets[i + 1..];
    }
    found := None;
  }

  datatype ListResult = NotListed(error: SagaError) | Panicked | Listed(volumeIds: seq<string>, nextToken: string)

  function NamesOf(list: seq<TargetInfo>): (names: seq<string>)
    ensures |names| == |list| && forall k | 0 <= k < |list| :: names[k] == list[k].name
  {
    seq(|list|, k requires 0 <= k < |list| => list[k].name)
  }

  /** The answer that the target list, the limit and the token make. */
  function ListAnswer(targets: seq<TargetInfo>, maxEntries: int, token: string): ListResult {
    match StartingSet(token)
    case None => if targets == [] then Listed([], "") else Panicked
    case Some(seen) =>
      var page := PageOf(targets, seen, maxEntries);
      Listed(NamesOf(page.chosen), NextToken(page))
  }

  /**
   The page ListVolumes makes, as it is written: with an empty starting token the
   seen set is a nil pointer, and looking at the first target dereferences it.
   */
  method ListPage(targets: seq<TargetInfo>, maxEntries: int, startingToken: string) returns (result: ListResult)
    ensures result == ListAnswer(targets, maxEntries, startingToken)
  {
    var seenIds: Option<set<int>> := None;
    if startingToken != "" {
      seenIds := Base64SeenIndexesToMap(startingToken);
      if seenIds.None? {
        seenIds := Some({});
      }
    }
    ghost var start := StartingSet(startingToken);
    assert seenIds == start;
    hide StartingSet, SeenOf;
    var entries: seq<string> := [];
    ghost var chosen: seq<TargetInfo> := [];
    var max := maxEntries;
    var nextToken := "";
    if max == 0 {
      max := ToInt32(|targets|);
    }
    assert targets[0..] == targets;
    for i := 0 to |targets|
      invariant entries == NamesOf(chosen) && nextToken == ""
      invariant seenIds.None? ==> i == 0 && start.None? && chosen == []
      invariant seenIds.Some? ==>
                  && start.Some?
                  && Scan(targets[i..], chosen, seenIds.value, max) == PageOf(targets, start.value, maxEntries)
    {
      if seenIds.None? {
        return Panicked;
      }
      assert targets[i..][1..] == targets[i + 1..];
      if targets[i].index in seenIds.value {
        continue;
      }
      if ToInt32(|entries|) >= max {
        nextToken := SeenIndexesToBase64String(SortedList(seenIds.value));
        break;
      }
      entries := entries + [targets[i].name];
      chosen := chosen + [targets[i]];
      seenIds := Some(seenIds.value + {targets[i].index});
    }
    result := Listed(entries, nextToken);
  }

  /** A request on its way: where it stands, and how the whole of it is to end. */
  datatype Tracked = Tracked(name: string, job: Job, goal: Ran)

  lemma LogStep(x: string, job: Job, nas: Nas, script: seq<Event>, log: seq<Exchange>)
    requires Proper(job) && !job.Finished?
    ensures var call := Issue(x, job);
            var a := Serve(nas, call, NextEvent(script));
            var r := Serial(x, job, nas, script);
            var r1 := Serial(x, Resume(x, job, a.reply), a.nas, Rest(script));
            r.(log := log + r.log) == r1.(log := (log + [Exchange(call, a.reply)]) + r1.log)
  {
    var call := Issue(x, job);
    var a := Serve(nas, call, NextEvent(script));
    var r1 := Serial(x, Resume(x, job, a.reply), a.nas, Rest(script));
    assert log + ([Exchange(call, a.reply)] + r1.log) == (log + [Exchange(call, a.reply)]) + r1.log;
  }

  class Driver {
    const client: Client
    const portal: string

    constructor (client: Client, portal: string)
      ensures this.client == client && this.portal == portal
    {
      this.client, this.portal := client, portal;
    }

    /** Continuing from where the request stands leads to its goal. */
    ghost predicate OnTrack(t: Tracked)
      reads client
    {
      && Proper(t.job)
      && var r := Serial(t.name, t.job, client.nas, client.script);
         t.goal == r.(log := client.log + r.log)
    }

    lemma Begins(name: string, job: Job, r: Ran)
      requires Proper(job) && r == Serial(name, job, client.nas, client.script)
      ensures OnTrack(Tracked(name, job, r.(log := client.log + r.log)))
    {
    }

    lemma Arrives(t: Tracked)
      requires OnTrack(t) && t.job.Finished?
      ensures t.goal == Ran(t.job.outcome, client.nas, client.script, client.log)
    {
      assert client.log + [] == client.log;
    }

    /** One call of a request. */
    method Ask(call: Call, ghost t: Tracked) returns (reply: Reply, ghost next: Tracked)
      requires OnTrack(t) && !t.job.Finished? && call == Issue(t.name, t.job)
      modifies client
      ensures OnTrack(next) && next == t.(job := Resume(t.name, t.job, reply))
      ensures client.script == Rest(old(client.script))
      ensures reply == Failed || old(client.script) != []
    {
      LogStep(t.name, t.job, client.nas, client.script, client.log);
      reply := client.Send(call);
      next := t.(job := Resume(t.name, t.job, reply));
    }

    /**
     CreateVolume. A request that is not acceptable is refused before the NAS is
     asked anything; any other one runs the create of its cleaned name to the end,
     and the answer, the NAS and the calls made are those of `RunCreate`.
     */
    method CreateVolume(req: CreateRequest) returns (result: Result<CreateResponse, RequestError>)
      modifies client
      ensures !Acceptable(req) ==> result.Failure? && RefusedFor(req, result.error)
                                   && CodeOf(result.error) ==
                                      (if result.error.RangeRefused? then OutOfRange else InvalidArgument)
                                   && client.nas == old(client.nas) && client.log == old(client.log)
      ensures Acceptable(req) ==>
                var size := ExtractStorage(req.range).value;
                var r := RunCreate(CleanISCSIName(req.name), size / GIB, old(client.nas), old(client.script));
                && (r.outcome.Created? || r.outcome.Refused?)
                && result == AnswerOf(CleanISCSIName(req.name), size, portal, r.outcome)
                && client.nas == r.nas && client.script == r.script && client.log == old(client.log) + r.log
      ensures Acceptable(req) && result.Failure? ==>
                if result.error == Stopped(AlreadyExists) then CodeOf(result.error) == Conflict
                else CodeOf(result.error) == Internal
      ensures Acceptable(req) && T.AllDone(old(client.script), 2) ==>
                (result.Failure? && CodeOf(result.error) == Conflict <==>
                   exists i :: i in old(client.nas).targets
                               && old(client.nas).targets[i].name == CleanISCSIName(req.name))
      ensures result.Success? && S.ListsExist(old(client.nas)) ==>
                && Acceptable(req) && result.value.volumeId == CleanISCSIName(req.name)
                && Fits(result.value.capacityBytes, req.range)
                && IsNew(result.value, portal, old(client.nas), client.nas)
    {
      if req.name == "" {
        return Failure(NameMissing);
      }
      if |req.capabilities| == 0 {
        return Failure(CapabilitiesMissing);
      }
      var violations := ValidateCapabilities(req.capabilities);
      if violations != {} {
        return Failure(CapabilitiesUnsupported(violations));
      }
      var extracted := ExtractStorage(req.range);
      if extracted.Failure? {
        return Failure(RangeRefused(extracted.error));
      }
      var size := extracted.value;
      if S.ListsExist(client.nas) {
        AnswerIsTrue(req, portal, client.nas, client.script);
      }
      if T.AllDone(client.script, 2) {
        T.RefusedExactlyWhen(client.nas, CleanISCSIName(req.name), size / GIB, client.script);
      }
      var outcome := Provision(CleanISCSIName(req.name), size / GIB);
      result := AnswerOf(CleanISCSIName(req.name), size, portal, outcome);
    }

    /** The calls of CreateVolume to the NAS, in order, with the compensating ones. */
    method Provision(name: string, sizeGB: int) returns (outcome: Outcome)
      modifies client
      ensures var r := RunCreate(name, sizeGB, old(client.nas), old(client.script));
              && outcome == r.outcome && (outcome.Created? || outcome.Refused?)
              && client.nas == r.nas && client.script == r.script && client.log == old(client.log) + r.log
    {
      ghost var r := RunCreate(name, sizeGB, client.nas, client.script);
      ghost var t := Tracked(name, CreateLogin(sizeGB), r.(log := client.log + r.log));
      Begins(name, CreateLogin(sizeGB), r);
      hide OnTrack, Serial, RunCreate;

      var reply;
      reply, t := Ask(Login, t);
      if !reply.Ack? {
        Arrives(t);
        return Refused(LoginFailed);
      }

      // The volume must not have a target yet.
      reply, t := Ask(ListTargets, t);
      if !reply.Listing? {
        Arrives(t);
        return Refused(ListFailed);
      }
      var found := FindTarget(reply.targets, name);
      if found.Some? {
        Arrives(t);
        return Refused(AlreadyExists);
      }
      outcome := MakeVolume(name, sizeGB, t);
    }

    /** A target, an initiator and a LUN. */
    method MakeVolume(name: string, sizeGB: int, ghost start: Tracked) returns (outcome: Outcome)
      requires OnTrack(start) && start.name == name && start.job == MakeTarget(sizeGB)
      modifies client
      ensures start.goal == Ran(outcome, client.nas, client.script, client.log)
      ensures outcome.Created? || outcome.Refused?
    {
      hide OnTrack;
      ghost var t := start;
      var reply;
      reply, t := Ask(AddTarget(name), t);
      if !reply.Index? {
        Arrives(t);
        return Refused(TargetFailed);
      }
      var targetIndex := reply.index;

      reply, t := Ask(AddInitiator(targetIndex), t);
      if !reply.Ack? {
        reply, t := Ask(RemoveTarget(targetIndex), t);
        Arrives(t);
        return Refused(InitiatorFailed);
      }

      reply, t := Ask(AddLun(name, sizeGB), t);
      if !reply.Index? {
        reply, t := Ask(RemoveTarget(targetIndex), t);
        Arrives(t);
        return Refused(LunFailed);
      }
      var lunIndex := reply.index;
      var ready;
      ready, t := AwaitReady(name, targetIndex, lunIndex, t);
      if !ready {
        return Refused(ReadinessFailed);
      }
      outcome := AttachVolume(name, targetIndex, lunIndex, t);
    }

    /** Polls until the LUN is no longer being created, or a poll fails. */
    method AwaitReady(name: string, targetIndex: int, lunIndex: int, ghost start: Tracked)
      returns (ready: bool, ghost t: Tracked)
      requires OnTrack(start) && start.name == name && start.job == AwaitLun(targetIndex, lunIndex)
      modifies client
      ensures ready ==> OnTrack(t) && t == start.(job := Attach(targetIndex, lunIndex))
      ensures !ready ==> start.goal == Ran(Refused(ReadinessFailed), client.nas, client.script, client.log)
    {
      t := start;
      hide OnTrack;
      while true
        invariant OnTrack(t) && t == start
        decreases |client.script|
      {
        var reply;
        reply, t := Ask(LunStatus(lunIndex), t);
        if !reply.Status? {
          Arrives(t);
          return false, t;
        }
        if StillCreating(reply.status) {
          continue;
        }
        break;
      }
      ready := true;
    }

    /** The attach, with both removals when it fails, and the search for the IQN. */
    method AttachVolume(name: string, targetIndex: int, lunIndex: int, ghost start: Tracked) returns (outcome: Outcome)
      requires OnTrack(start) && start.name == name && start.job == Attach(targetIndex, lunIndex)
      modifies client
      ensures start.goal == Ran(outcome, client.nas, client.script, client.log)
      ensures outcome.Created? || outcome.Refused?
    {
      hide OnTrack;
      ghost var t := start;
      var reply;
      reply, t := Ask(AttachLun(lunIndex, targetIndex), t);
      if !reply.Ack? {
        reply, t := Ask(RemoveTarget(targetIndex), t);
        reply, t := Ask(RemoveLun(lunIndex), t);
        Arrives(t);
        return Refused(AttachFailed);
      }
      reply, t := Ask(ListTargets, t);
      if !reply.Listing? {
        Arrives(t);
        return Refused(ListFailed);
      }
      var found := FindTarget(reply.targets, name);
      var iqn := if found.Some? then found.value.iqn else "";
      Arrives(t);
      if iqn == "" {
        return Refused(IqnMissing);
      }
      outcome := Created(iqn);
    }

    /** DeleteVolume. An empty id is refused; any other runs `RunDelete` to the end. */
    method DeleteVolume(volumeId: string) returns (result: Result<(), RequestError>)
      modifies client
      ensures DeleteGuard(volumeId).Some? ==> result == Failure(DeleteGuard(volumeId).value)
                                              && client.nas == old(client.nas) && client.log == old(client.log)
      ensures DeleteGuard(volumeId).None? ==>
                var r := RunDelete(volumeId, old(client.nas), old(client.script));
                && (r.outcome == Deleted || r.outcome.Refused?)
                && result == (if r.outcome == Deleted then Success(()) else Failure(Stopped(r.outcome.error)))
                && client.nas == r.nas && client.script == r.script && client.log == old(client.log) + r.log
      ensures result.Failure? ==> CodeOf(result.error) == if volumeId == "" then InvalidArgument else Internal
      ensures volumeId != "" && S.NasOk(old(client.nas))
              && DeleteAnswered(volumeId, old(client.nas), old(client.script)) ==>
                result.Success? && IsGone(volumeId, old(client.nas), client.nas)
    {
      if volumeId == "" {
        return Failure(VolumeIdMissing);
      }
      DeleteFailsInternally(volumeId, client.nas, client.script);
      if S.NasOk(client.nas) && DeleteAnswered(volumeId, client.nas, client.script) {
        AnsweredDeleteWorks(volumeId, client.nas, client.script);
      }
      hide RunDelete, CodeOf, DeleteAnswered, IsGone;
      result := Unprovision(volumeId);
    }

    /** The calls of DeleteVolume to the NAS, in order. */
    method Unprovision(volumeId: string) returns (result: Result<(), RequestError>)
      modifies client
      ensures var r := RunDelete(volumeId, old(client.nas), old(client.script));
              && (r.outcome == Deleted || r.outcome.Refused?)
              && result == (if r.outcome == Deleted then Success(()) else Failure(Stopped(r.outcome.error)))
              && client.nas == r.nas && client.script == r.script && client.log == old(client.log) + r.log
    {
      ghost var r := RunDelete(volumeId, client.nas, client.script);
      ghost var t := Tracked(volumeId, DeleteLogin, r.(log := client.log + r.log));
      Begins(volumeId, DeleteLogin, r);
      hide OnTrack, Serial, RunDelete;

      var reply;
      reply, t := Ask(Login, t);
      if !reply.Ack? {
        Arrives(t);
        return Failure(Stopped(LoginFailed));
      }
      reply, t := Ask(ListTargets, t);
      if !reply.Listing? {
        Arrives(t);
        return Failure(Stopped(ListFailed));
      }
      var found := FindTarget(reply.targets, volumeId);
      if found.None? {
        Arrives(t);
        return Success(());
      }
      result := DropVolume(volumeId, found.value.index, found.value.luns, t);
    }

    /** Removes the target, and then each LUN it had. */
    method DropVolume(volumeId: string, targetIndex: int, luns: seq<int>, ghost start: Tracked)
      returns (result: Result<(), RequestError>)
      requires OnTrack(start) && start.name == volumeId && start.job == DropTarget(targetIndex, luns)
      modifies client
      ensures var r := start.goal;
              && (r.outcome == Deleted || r.outcome.Refused?)
              && result == (if r.outcome == Deleted then Success(()) else Failure(Stopped(r.outcome.error)))
              && client.nas == r.nas && client.script == r.script && client.log == r.log
    {
      hide OnTrack;
      ghost var t := start;
      var reply;
      reply, t := Ask(RemoveTarget(targetIndex), t);
      if !reply.Ack? {
        Arrives(t);
        return Failure(Stopped(DeleteTargetFailed));
      }
      assert luns[0..] == luns;
      for j := 0 to |luns|
        invariant OnTrack(t) && t == start.(job := DropRest(luns[j..]))
      {
        assert luns[j..][1..] == luns[j + 1..];
        reply, t := Ask(RemoveLun(luns[j]), t);
        if !reply.Ack? {
          Arrives(t);
          return Failure(Stopped(DeleteLunFailed));
        }
      }
      Arrives(t);
      result := Success(());
    }

    /** ListVolumes: the answer is made from the target list the NAS shows, which stays as it is. */
    method ListVolumes(maxEntries: int, startingToken: string) returns (result: ListResult)
      modifies client
      ensures client.nas == old(client.nas) && |client.log| <= |old(client.log)| + 2
      ensures if client.log == old(client.log) + [Exchange(Login, Failed)] then result == NotListed(LoginFailed)
              else if client.log == old(client.log) + [Exchange(Login, Ack), Exchange(ListTargets, Failed)] then
                result == NotListed(ListFailed)
              else exists order ::
                var targets := ListingOf(client.nas.targets, order);
                && client.log == old(client.log) + [Exchange(Login, Ack), Exchange(ListTargets, Listing(targets))]
                && result == ListAnswer(targets, maxEntries, startingToken)
    {
      ghost var order := NextEvent(Rest(client.script)).order;
      var reply := client.Send(Login);
      if reply == Failed {
        return NotListed(LoginFailed);
      }
      assert reply == Ack;
      reply := client.Send(ListTargets);
      assert client.log == old(client.log) + [Exchange(Login, Ack), Exchange(ListTargets, reply)];
      assert client.log[|old(client.log)| + 1] == Exchange(ListTargets, reply);
      if !reply.Listing? {
        return NotListed(ListFailed);
      }
      assert reply.targets == ListingOf(client.nas.targets, order);
      result := ListPage(reply.targets, maxEntries, startingToken);
    }
  }

  /**
   ListVolumes panics if and only if the starting token is empty and there is a
   target; in every other case its answer is the page with the evident intent,
   which is what the properties of `Paging` are about.
   */
  lemma PanicsExactlyWhen(targets: seq<TargetInfo>, maxEntries: int, token: string)
    ensures ListAnswer(targets, maxEntries, token) == Panicked <==> token == "" && targets != []
    ensures var page := PageOf(targets, IntendedSet(token), maxEntries);
            ListAnswer(targets, maxEntries, token) != Panicked ==>
              ListAnswer(targets, maxEntries, token) == Listed(NamesOf(page.chosen), NextToken(page))
  {
    assert NamesOf([]) == [];
  }

  /** The answers to a client that passes each token back until it gets an empty one, or none. */
  function AnswerRun(asks: seq<Ask>, token: string): seq<ListResult> {
    if asks == [] then []
    else
      var answer := ListAnswer(asks[0].targets, asks[0].maxEntries, token);
      [answer] + if answer.Listed? && answer.nextToken != "" then AnswerRun(asks[1..], answer.nextToken) else []
  }

  function AnswerTo(page: Page): ListResult {
    Listed(NamesOf(page.chosen), NextToken(page))
  }

  /**
   The code as written, over whole runs: from any first token but the empty one, even
   one that cannot be read, no call panics and the answers are the pages of `Run`,
   which all properties of runs are about. From the empty token the first call panics
   unless there is no target, and then it ends the listing.
   */
  lemma {:induction false} AnswersAreTheRun(asks: seq<Ask>, token: string)
    ensures token != "" ==>
              && |AnswerRun(asks, token)| == |Run(asks, token)|
              && forall k | 0 <= k < |Run(asks, token)| :: AnswerRun(asks, token)[k] == AnswerTo(Run(asks, token)[k])
    ensures token == "" && asks != [] ==>
              AnswerRun(asks, token) == [if asks[0].targets == [] then Listed([], "") else Panicked]
    decreases |asks|
  {
    if asks != [] {
      var page := PageOf(asks[0].targets, IntendedSet(token), asks[0].maxEntries);
      PanicsExactlyWhen(asks[0].targets, asks[0].maxEntries, token);
      if token != "" && NextToken(page) != "" {
        AnswersAreTheRun(asks[1..], NextToken(page));
      }
    }
  }

  /**
   So a token that cannot be read is what a client can list everything with: without a
   limit, the one answer names all the targets, in order.
   */
  lemma UnreadableTokenListsAll(asks: seq<Ask>, token: string)
    requires token != "" && SeenOf(token).None?
    requires ProperAsks(asks) && asks != [] && asks[0].maxEntries == 0
    ensures AnswerRun(asks, token) == [Listed(NamesOf(asks[0].targets), "")]
  {
    var pages := Run(asks, token);
    NoLimit(asks, token);
    AnswersAreTheRun(asks, token);
    assert pages[0].chosen + Returned(pages[1..]) == pages[0].chosen;
  }
}
