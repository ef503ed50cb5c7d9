/**
 The node service (driver/node.go) and the disk operations it calls
 (driver/iscsi_util.go), in the order and with the early returns of the source,
 proved to follow the steps of `Host`.
 */
module NodeDriver {
  import opened Wrappers
  import opened Host
  import R = HostResults
  import H = Handoff

  /** The node the driver runs on: each call uses up one event of the script. */
  class Machine {
    var host: Host
    var script: seq<HostEvent>

    constructor (host: Host, script: seq<HostEvent>)
      ensures this.host == host && this.script == script
    {
      this.host, this.script := host, script;
    }

    method Send(call: HostCall) returns (reply: HostReply)
      modifies this
      ensures var a := HostServe(old(host), call, NextHostEvent(old(script)));
              reply == a.reply && host == a.host
      ensures script == RestHost(old(script))
    {
      var a := HostServe(host, call, NextHostEvent(script));
      reply := a.reply;
      host, script := a.host, RestHost(script);
    }
  }

  datatype NodeError =
    | CapabilityMissing
    | VolumeIdMissing
    | TargetPathMissing
    | BadContext(error: H.InfoError)
    | DiskFailed

  datatype PublishRequest = PublishRequest(hasCapability: bool, volumeId: string, targetPath: string,
                                           context: map<string, string>)

  /** The first thing that is wrong with a publish request apart from its context. */
  function PublishGuard(req: PublishRequest): Option<NodeError> {
    if !req.hasCapability then Some(CapabilityMissing)
    else if req.volumeId == "" then Some(VolumeIdMissing)
    else if req.targetPath == "" then Some(TargetPathMissing)
    else None
  }

  function UnpublishGuard(volumeId: string, targetPath: string): Option<NodeError> {
    if volumeId == "" then Some(VolumeIdMissing)
    else if targetPath == "" then Some(TargetPathMissing)
    else None
  }

  /**
   A publish request passes the guards if and only if it has a capability, a volume id
   and a target path, and an unpublish if and only if it has the last two; otherwise
   the error names the first of them that is missing, in this order.
   */
  lemma GuardsExactly(req: PublishRequest)
    ensures PublishGuard(req) == None <==> req.hasCapability && req.volumeId != "" && req.targetPath != ""
    ensures PublishGuard(req) == Some(CapabilityMissing) <==> !req.hasCapability
    ensures PublishGuard(req) == Some(VolumeIdMissing) <==> req.hasCapability && |req.volumeId| == 0
    ensures PublishGuard(req) == Some(TargetPathMissing) <==>
            req.hasCapability && |req.volumeId| > 0 && |req.targetPath| == 0
    ensures UnpublishGuard(req.volumeId, req.targetPath) == None <==> req.volumeId != "" && req.targetPath != ""
    ensures UnpublishGuard(req.volumeId, req.targetPath) == Some(VolumeIdMissing) <==> |req.volumeId| == 0
    ensures UnpublishGuard(req.volumeId, req.targetPath) == Some(TargetPathMissing) <==>
            |req.volumeId| > 0 && |req.targetPath| == 0
  {
  }

  /** An operation under way, and how it is to end; the number of calls does not matter. */
  datatype TrackedOp = TrackedOp(volume: string, path: string, op: Op, goal: OpRan)

  class NodeService {
    const machine: Machine
    const json: H.Json

    constructor (machine: Machine, json: H.Json)
      ensures this.machine == machine && this.json == json
    {
      this.machine, this.json := machine, json;
    }

    ghost predicate OnTrack(t: TrackedOp)
      reads machine
    {
      var r := RunOp(t.volume, t.path, t.op, machine.host, machine.script);
      t.goal.ok == r.ok && t.goal.host == r.host && t.goal.script == r.script
    }

    lemma Begins(v: string, p: string, op: Op, r: OpRan)
      requires r == RunOp(v, p, op, machine.host, machine.script)
      ensures OnTrack(TrackedOp(v, p, op, r))
    {
    }

    lemma Arrives(t: TrackedOp)
      requires OnTrack(t) && t.op.Ended?
      ensures t.goal.ok == t.op.ok && t.goal.host == machine.host && t.goal.script == machine.script
    {
    }

    /** One call of an operation. */
    method Ask(call: HostCall, ghost t: TrackedOp) returns (reply: HostReply, ghost next: TrackedOp)
      requires OnTrack(t) && !t.op.Ended? && call == OpCall(t.volume, t.path, t.op)
      modifies machine
      ensures OnTrack(next) && next == t.(op := OpResume(t.op, reply))
    {
      reply := machine.Send(call);
      next := t.(op := OpResume(t.op, reply));
    }

    /** AttachDisk. The connector is dereferenced at once, so it must not be nil. */
    method AttachDisk(connector: Option<H.Connector>, volume: string, targetPath: string) returns (ok: bool)
      requires connector.Some?
      modifies machine
      ensures var r := RunOp(volume, targetPath, Connecting, old(machine.host), old(machine.script));
              ok == r.ok && machine.host == r.host && machine.script == r.script
      ensures ok ==>
                && targetPath in machine.host.mounts
                && volume in machine.host.sessions && volume in machine.host.devices
                && (targetPath !in old(machine.host).mounts ==>
                      machine.host.mounts[targetPath] == volume && volume in machine.host.files)
    {
      ghost var r := RunOp(volume, targetPath, Connecting, machine.host, machine.script);
      if r.ok {
        R.PublishSucceeded(volume, targetPath, machine.host, machine.script);
      }
      ghost var t := TrackedOp(volume, targetPath, Connecting, r);
      Begins(volume, targetPath, Connecting, r);
      hide OnTrack, RunOp;

      var reply;
      reply, t := Ask(Connect(volume), t);
      if reply != Ok {
        // The connect failed, or reported success without a device path.
        Arrives(t);
        return false;
      }
      reply, t := Ask(CheckMount(targetPath), t);
      if reply != Yes && reply != No {
        Arrives(t);
        return false;
      }
      if reply == Yes {
        Arrives(t);
        return true;
      }
      ok := MountDisk(volume, targetPath, t);
    }

    /** The part of AttachDisk for a path that is not mounted yet. */
    method MountDisk(volume: string, targetPath: string, ghost start: TrackedOp) returns (ok: bool)
      requires OnTrack(start) && start.volume == volume && start.path == targetPath && start.op == MakingDir
      modifies machine
      ensures ok == start.goal.ok && machine.host == start.goal.host && machine.script == start.goal.script
    {
      hide OnTrack;
      ghost var t := start;
      var reply;
      reply, t := Ask(MakeDir(targetPath), t);
      if reply != Ok {
        Arrives(t);
        return false;
      }
      // The connector is persisted before the mount, for DetachDisk.
      reply, t := Ask(Persist(volume), t);
      if reply != Ok {
        Arrives(t);
        return false;
      }
      reply, t := Ask(Mount(volume, targetPath), t);
      Arrives(t);
      ok := reply == Ok;
    }

    /** DetachDisk, with the count of references taken before the unmount. */
    method DetachDisk(volume: string, targetPath: string) returns (ok: bool)
      modifies machine
      ensures var r := RunOp(volume, targetPath, Counting, old(machine.host), old(machine.script));
              ok == r.ok && machine.host == r.host && machine.script == r.script
      ensures ok && targetPath in old(machine.host).dirs && volume in old(machine.host).files ==>
                && targetPath !in machine.host.mounts
                && machine.host.mounts == old(machine.host).mounts - {targetPath}
                && (PathsOf(old(machine.host).mounts, volume) == {targetPath} ==>
                      volume !in machine.host.files && volume !in machine.host.devices)
    {
      ghost var r := RunOp(volume, targetPath, Counting, machine.host, machine.script);
      if r.ok && targetPath in machine.host.dirs && volume in machine.host.files {
        R.UnpublishSucceeded(volume, targetPath, machine.host, machine.script);
      }
      ghost var t := TrackedOp(volume, targetPath, Counting, r);
      Begins(volume, targetPath, Counting, r);
      hide OnTrack, RunOp;

      var reply;
      reply, t := Ask(CountRefs(targetPath), t);
      if !reply.Refs? {
        Arrives(t);
        return false;
      }
      var cnt := reply.count;
      reply, t := Ask(PathExists(targetPath), t);
      if reply != Yes && reply != No {
        Arrives(t);
        return false;
      }
      if reply == No {
        Arrives(t);
        return true;
      }
      ok := UnmountDisk(volume, targetPath, cnt, t);
    }

    /** The part of DetachDisk for a path that exists; `refs` are the references before the unmount. */
    method UnmountDisk(volume: string, targetPath: string, refs: int, ghost start: TrackedOp) returns (ok: bool)
      requires OnTrack(start) && start.volume == volume && start.path == targetPath && start.op == Loading(refs)
      modifies machine
      ensures ok == start.goal.ok && machine.host == start.goal.host && machine.script == start.goal.script
    {
      hide OnTrack;
      ghost var t := start;
      var cnt := refs;
      var reply;
      reply, t := Ask(LoadFile(volume), t);
      if reply != Ok {
        Arrives(t);
        return reply == Missing;
      }
      reply, t := Ask(Unmount(targetPath), t);
      if reply != Ok {
        Arrives(t);
        return false;
      }
      cnt := cnt - 1;
      if cnt != 0 {
        Arrives(t);
        return true;
      }
      ok := Disconnect(volume, targetPath, t);
    }

    /** The part of DetachDisk after the last unmount. */
    method Disconnect(volume: string, targetPath: string, ghost start: TrackedOp) returns (ok: bool)
      requires OnTrack(start) && start.volume == volume && start.path == targetPath && start.op == RemovingDevice
      modifies machine
      ensures ok == start.goal.ok && machine.host == start.goal.host && machine.script == start.goal.script
    {
      hide OnTrack;
      ghost var t := start;
      var reply;
      reply, t := Ask(RemoveDevice(volume), t);
      if reply != Ok {
        Arrives(t);
        return false;
      }
      reply, t := Ask(Logout(volume), t);
      reply, t := Ask(RemoveDir(targetPath), t);
      reply, t := Ask(RemoveFile(volume), t);
      Arrives(t);
      ok := reply == Ok;
    }

    /**
     NodePublishVolume: guards, the context, then the attach. A request that fails
     a guard or has a bad context leaves the node untouched; whenever both pass, the
     connector is not nil and the publish runs to its end.
     */
    method NodePublishVolume(req: PublishRequest) returns (result: Result<(), NodeError>)
      modifies machine
      ensures PublishGuard(req).Some? ==> result == Failure(PublishGuard(req).value)
      ensures var guarded := PublishGuard(req).None?;
              var info := H.InfoOf(json, req.volumeId, req.context);
              if guarded && info.Success? then
                var r := RunOp(req.volumeId, req.targetPath, Connecting, old(machine.host), old(machine.script));
                && machine.host == r.host && machine.script == r.script
                && result == (if r.ok then Success(()) else Failure(DiskFailed))
              else
                && machine.host == old(machine.host) && machine.script == old(machine.script)
                && (guarded ==> result == Failure(BadContext(info.error)))
      ensures var mounted := req.targetPath in old(machine.host).mounts;
              result.Success? ==>
                && H.InfoOf(json, req.volumeId, req.context).Success?
                && req.targetPath in machine.host.mounts
                && req.volumeId in machine.host.sessions && req.volumeId in machine.host.devices
                && (!mounted ==>
                      machine.host.mounts[req.targetPath] == req.volumeId && req.volumeId in machine.host.files)
    {
      if !req.hasCapability {
        return Failure(CapabilityMissing);
      }
      if req.volumeId == "" {
        return Failure(VolumeIdMissing);
      }
      if req.targetPath == "" {
        return Failure(TargetPathMissing);
      }
      var info := H.GetISCSIInfo(json, req.volumeId, req.context);
      if info.Failure? {
        return Failure(BadContext(info.error));
      }
      H.ConnectorDefined(json, req.volumeId, req.context);
      var ok := AttachDisk(H.BuildConnector(info.value), req.volumeId, req.targetPath);
      result := if ok then Success(()) else Failure(DiskFailed);
    }

    /** NodeUnpublishVolume: guards, then the detach. */
    method NodeUnpublishVolume(volumeId: string, targetPath: string) returns (result: Result<(), NodeError>)
      modifies machine
      ensures var guard := UnpublishGuard(volumeId, targetPath);
              if guard.Some? then
                && result == Failure(guard.value)
                && machine.host == old(machine.host) && machine.script == old(machine.script)
              else
                var r := RunOp(volumeId, targetPath, Counting, old(machine.host), old(machine.script));
                && machine.host == r.host && machine.script == r.script
                && result == (if r.ok then Success(()) else Failure(DiskFailed))
      ensures result.Success? && targetPath in old(machine.host).dirs && volumeId in old(machine.host).files ==>
                && targetPath !in machine.host.mounts
                && machine.host.mounts == old(machine.host).mounts - {targetPath}
                && (PathsOf(old(machine.host).mounts, volumeId) == {targetPath} ==>
                      volumeId !in machine.host.files && volumeId !in machine.host.devices)
    {
      if volumeId == "" {
        return Failure(VolumeIdMissing);
      }
      if targetPath == "" {
        return Failure(TargetPathMissing);
      }
      var ok := DetachDisk(volumeId, targetPath);
      result := if ok then Success(()) else Failure(DiskFailed);
    }
  }
}
