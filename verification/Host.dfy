/**
 One node: its iSCSI sessions and block devices, the persisted connector files
 (one per volume, driver/driver.go:144), the mount table and the directories; and
 the steps of AttachDisk and DetachDisk (driver/iscsi_util.go) on them.

 What the host is free to decide about one call is a `HostEvent`. A path is
 mounted from the device of at most one volume; each volume has its own device.
 */
module Host {

  datatype Host = Host(sessions: set<string>, devices: set<string>, files: set<string>,
                       mounts: map<string, string>, dirs: set<string>)

  datatype HostCall =
    | Connect(volume: string)
    | CheckMount(path: string)
    | MakeDir(path: string)
    | Persist(volume: string)
    | Mount(volume: string, path: string)
    | CountRefs(path: string)
    | PathExists(path: string)
    | LoadFile(volume: string)
    | Unmount(path: string)
    | RemoveDevice(volume: string)
    | Logout(volume: string)
    | RemoveDir(path: string)
    | RemoveFile(volume: string)

  datatype HostReply =
    | Failed
    | Ok
    | NoDevicePath
    | Missing
    | Yes
    | No
    | Refs(count: int)

  /** A call succeeds, fails without effect, or takes effect although it reports failure. */
  datatype Fate = Done | NoEffect | EffectLost

  /** `quirk`: a connect reports success without a device path; an unmount of nothing reports success. */
  datatype HostEvent = HostEvent(fate: Fate, quirk: bool)

  /** How many paths are mounted from the device of the volume. */
  function PathsOf(mounts: map<string, string>, v: string): set<string> {
    set p | p in mounts && mounts[p] == v
  }

  /** The path is `p` or lies below it. */
  predicate Within(path: string, p: string) {
    path == p || p + "/" <= path
  }

  /** A path lies below `p` exactly when it is `p`, a slash, and more. */
  lemma WithinExactlyWhen(path: string, p: string)
    ensures Within(path, p) <==> path == p || exists more :: path == p + "/" + more
  {
    if Within(path, p) && path != p {
      assert path == p + "/" + path[|p| + 1..];
    }
  }

  /** What a recursive removal takes away: all that is there, except what is mounted and the way to it. */
  function Swept(dirs: set<string>, mounted: set<string>, p: string): set<string> {
    set d | d in dirs && Within(d, p) && forall m | m in mounted :: !Within(m, d)
  }

  datatype HostAnswer = HostAnswer(reply: HostReply, host: Host)

  /** The effect of a call that reaches its end. */
  function HostEffect(h: Host, call: HostCall, e: HostEvent): HostAnswer {
    match call
    case Connect(v) =>
      HostAnswer(if e.quirk then NoDevicePath else Ok, h.(sessions := h.sessions + {v}, devices := h.devices + {v}))
    case CheckMount(p) => HostAnswer(if p in h.mounts then Yes else No, h)
    case MakeDir(p) => HostAnswer(Ok, h.(dirs := h.dirs + {p}))
    case Persist(v) => HostAnswer(Ok, h.(files := h.files + {v}))
    case Mount(v, p) =>
      if v in h.devices && p in h.dirs && p !in h.mounts then HostAnswer(Ok, h.(mounts := h.mounts[p := v]))
      else HostAnswer(Failed, h)
    case CountRefs(p) =>
      // A path that is not mounted has no device, and nothing is mounted from no device.
      HostAnswer(Refs(if p in h.mounts then |PathsOf(h.mounts, h.mounts[p])| else 0), h)
    case PathExists(p) => HostAnswer(if p in h.dirs then Yes else No, h)
    case LoadFile(v) => HostAnswer(if v in h.files then Ok else Missing, h)
    case Unmount(p) =>
      if p in h.mounts then HostAnswer(Ok, h.(mounts := h.mounts - {p}))
      else HostAnswer(if e.quirk then Ok else Failed, h)
    case RemoveDevice(v) => HostAnswer(Ok, h.(devices := h.devices - {v}))
    case Logout(v) => HostAnswer(Ok, h.(sessions := h.sessions - {v}, devices := h.devices - {v}))
    case RemoveDir(p) => HostAnswer(Ok, h.(dirs := h.dirs - Swept(h.dirs, h.mounts.Keys, p)))
    case RemoveFile(v) => if v in h.files then HostAnswer(Ok, h.(files := h.files - {v})) else HostAnswer(Failed, h)
  }

  function HostServe(h: Host, call: HostCall, e: HostEvent): HostAnswer {
    match e.fate
    case Done => HostEffect(h, call, e)
    case NoEffect => HostAnswer(Failed, h)
    case EffectLost => HostAnswer(Failed, HostEffect(h, call, e).host)
  }

  /** Where a publish or an unpublish stands. */
  datatype Op =
    | Connecting
    | Checking
    | MakingDir
    | Persisting
    | Mounting
    | Counting
    | Probing(count: int)
    | Loading(count: int)
    | Unmounting(count: int)
    | RemovingDevice
    | LoggingOut
    | RemovingDir
    | RemovingFile
    | Ended(ok: bool)

  function OpCall(v: string, p: string, op: Op): HostCall
    requires !op.Ended?
  {
    match op
    case Connecting => Connect(v)
    case Checking => CheckMount(p)
    case MakingDir => MakeDir(p)
    case Persisting => Persist(v)
    case Mounting => Mount(v, p)
    case Counting => CountRefs(p)
    case Probing(_) => PathExists(p)
    case Loading(_) => LoadFile(v)
    case Unmounting(_) => Unmount(p)
    case RemovingDevice => RemoveDevice(v)
    case LoggingOut => Logout(v)
    case RemovingDir => RemoveDir(p)
    case RemovingFile => RemoveFile(v)
  }

  function OpResume(op: Op, reply: HostReply): Op
    requires !op.Ended?
  {
    match op
    case Connecting => if reply == Ok then Checking else Ended(false)
    case Checking => if reply == Yes then Ended(true) else if reply == No then MakingDir else Ended(false)
    case MakingDir => if reply == Ok then Persisting else Ended(false)
    case Persisting => if reply == Ok then Mounting else Ended(false)
    case Mounting => Ended(reply == Ok)
    case Counting => if reply.Refs? then Probing(reply.count) else Ended(false)
    case Probing(c) => if reply == Yes then Loading(c) else Ended(reply == No)
    case Loading(c) => if reply == Ok then Unmounting(c) else Ended(reply == Missing)
    case Unmounting(c) =>
      if reply != Ok then Ended(false) else if c - 1 != 0 then Ended(true) else RemovingDevice
    case RemovingDevice => if reply == Ok then LoggingOut else Ended(false)
    case LoggingOut => RemovingDir
    case RemovingDir => RemovingFile
    case RemovingFile => Ended(reply == Ok)
  }

  /** How many calls are left at most. */
  function OpRank(op: Op): nat {
    match op
    case Connecting => 5
    case Checking => 4
    case MakingDir => 3
    case Persisting => 2
    case Mounting => 1
    case Counting => 8
    case Probing(_) => 7
    case Loading(_) => 6
    case Unmounting(_) => 5
    case RemovingDevice => 4
    case LoggingOut => 3
    case RemovingDir => 2
    case RemovingFile => 1
    case Ended(_) => 0
  }

  /** A host that no longer answers. */
  const SILENT: HostEvent := HostEvent(NoEffect, false)

  function NextHostEvent(script: seq<HostEvent>): HostEvent {
    if script == [] then SILENT else script[0]
  }

  function RestHost(script: seq<HostEvent>): seq<HostEvent> {
    if script == [] then [] else script[1..]
  }

  /** How an operation went: its result, the host and the script afterwards, and the number of calls. */
  datatype OpRan = OpRan(ok: bool, host: Host, script: seq<HostEvent>, calls: nat)

  /** An operation run from `op` to its end while no other one moves. */
  function RunOp(v: string, p: string, op: Op, h: Host, script: seq<HostEvent>): OpRan
    decreases OpRank(op)
  {
    if op.Ended? then OpRan(op.ok, h, script, 0)
    else
      var a := HostServe(h, OpCall(v, p, op), NextHostEvent(script));
      var r := RunOp(v, p, OpResume(op, a.reply), a.host, RestHost(script));
      r.(calls := r.calls + 1)
  }

  /** One call of an operation, and the rest. */
  lemma RunOpStep(v: string, p: string, op: Op, h: Host, script: seq<HostEvent>)
    requires !op.Ended?
    ensures var a := HostServe(h, OpCall(v, p, op), NextHostEvent(script));
            var r := RunOp(v, p, OpResume(op, a.reply), a.host, RestHost(script));
            RunOp(v, p, op, h, script) == r.(calls := r.calls + 1)
  {
  }

  /**
   A recursive removal that works leaves nothing at or below the path unless something
   is mounted there; it never takes away what is mounted or lies elsewhere.
   */
  lemma RemovedRecursively(h: Host, p: string, quirk: bool)
    ensures var end := HostServe(h, RemoveDir(p), HostEvent(Done, quirk)).host;
            && ((forall m | m in h.mounts :: !Within(m, p)) ==> forall d | d in end.dirs :: !Within(d, p))
            && end.dirs <= h.dirs
            && (forall d | d in h.dirs && (!Within(d, p) || d in h.mounts) :: d in end.dirs)
            && end.mounts == h.mounts && end.files == h.files
  {
    forall d, m | d in h.dirs && Within(d, p) && m in h.mounts && Within(m, d)
      ensures Within(m, p)
    {
      WithinTransitive(m, d, p);
    }
  }

  lemma WithinTransitive(m: string, d: string, p: string)
    requires Within(m, d) && Within(d, p)
    ensures Within(m, p)
  {
    if m != d && d != p {
      assert p + "/" <= d <= m;
    }
  }

  /** What else the calls that work leave: a connect the session and the device, even when it names none. */
  lemma ConnectAndLogout(h: Host, v: string, quirk: bool)
    ensures var a := HostServe(h, Connect(v), HostEvent(Done, quirk));
            && a.reply == (if quirk then NoDevicePath else Ok)
            && a.host.sessions == h.sessions + {v} && a.host.devices == h.devices + {v}
            && a.host.files == h.files && a.host.mounts == h.mounts && a.host.dirs == h.dirs
    ensures var a := HostServe(h, Logout(v), HostEvent(Done, quirk));
            && a.reply == Ok && v !in a.host.sessions && v !in a.host.devices
            && a.host.files == h.files && a.host.mounts == h.mounts && a.host.dirs == h.dirs
            && forall w | w != v ::
                 (w in a.host.sessions <==> w in h.sessions) && (w in a.host.devices <==> w in h.devices)
  {
  }
}
