/**
 Every interleaving of publish and unpublish operations on one node, with a
 failure after any call and a crash of the driver at any moment. Operations on one
 volume are serialised, and each target path is used for one volume only.
 */
module HostSafety {
  import opened Host

  datatype Running = Running(path: string, op: Op)

  /** `ops`: the operation in flight on a volume, if any. `home`: the volume a path was first used for. */
  datatype NodeState = NodeState(host: Host, ops: map<string, Running>, home: map<string, string>)

  datatype NodeAction =
    | Publish(volume: string, path: string)
    | Unpublish(volume: string, path: string)
    | Proceed(volume: string, event: HostEvent)
    | Crash

  predicate CanStart(s: NodeState, v: string, p: string) {
    v !in s.ops && (p in s.home ==> s.home[p] == v)
  }

  function Start(s: NodeState, v: string, p: string, op: Op): NodeState {
    if CanStart(s, v, p) then s.(ops := s.ops[v := Running(p, op)], home := s.home[p := v]) else s
  }

  function NodeAct(s: NodeState, a: NodeAction): NodeState {
    match a
    case Publish(v, p) => Start(s, v, p, Connecting)
    case Unpublish(v, p) => Start(s, v, p, Counting)
    case Proceed(v, e) =>
      if v !in s.ops || s.ops[v].op.Ended? then s
      else
        var r := s.ops[v];
        var answer := HostServe(s.host, OpCall(v, r.path, r.op), e);
        var next := OpResume(r.op, answer.reply);
        s.(host := answer.host, ops := if next.Ended? then s.ops - {v} else s.ops[v := r.(op := next)])
    case Crash => s.(ops := map[])
  }

  function NodeExec(s: NodeState, actions: seq<NodeAction>): NodeState
    decreases |actions|
  {
    if actions == [] then s else NodeExec(NodeAct(s, actions[0]), actions[1..])
  }

  /**
   The invariant to keep: whenever a path is mounted from the device of a volume,
   the connector file of the volume exists, its session is connected and its
   device present; the path exists and is used for that volume.
   */
  ghost predicate Backed(s: NodeState) {
    forall p | p in s.host.mounts ::
      var v := s.host.mounts[p];
      && v in s.host.files && v in s.host.sessions && v in s.host.devices
      && p in s.host.dirs && p in s.home && s.home[p] == v
  }

  /** The reference count an unpublish works with. */
  function RefCount(h: Host, v: string, p: string): int {
    if p in h.mounts then |PathsOf(h.mounts, v)| else 0
  }

  /** What an operation in flight has made sure of. */
  ghost predicate OpOk(s: NodeState, v: string, r: Running) {
    && r.path in s.home && s.home[r.path] == v && !r.op.Ended?
    && match r.op
       case Checking => v in s.host.sessions && v in s.host.devices
       case MakingDir => v in s.host.sessions && v in s.host.devices && r.path !in s.host.mounts
       case Persisting => v in s.host.sessions && v in s.host.devices && r.path !in s.host.mounts
       case Mounting =>
         v in s.host.sessions && v in s.host.devices && v in s.host.files && r.path !in s.host.mounts
       case Probing(c) => c == RefCount(s.host, v, r.path)
       case Loading(c) => c == RefCount(s.host, v, r.path)
       case Unmounting(c) => c == RefCount(s.host, v, r.path) && v in s.host.files
       case RemovingDevice => PathsOf(s.host.mounts, v) == {}
       case LoggingOut => PathsOf(s.host.mounts, v) == {} && v !in s.host.devices
       case RemovingDir => PathsOf(s.host.mounts, v) == {} && v !in s.host.devices
       case RemovingFile => PathsOf(s.host.mounts, v) == {} && v !in s.host.devices
       case _ => true
  }

  ghost predicate NodeInv(s: NodeState) {
    Backed(s) && forall v | v in s.ops :: OpOk(s, v, s.ops[v])
  }

  // ------------------------------------------------------------- steps of one volume

  /** The step of `v` at `p` changes nothing that belongs to another volume or path. */
  ghost predicate OthersApart(h: Host, h': Host, v: string, p: string) {
    && (forall w | w != v :: (w in h'.sessions <==> w in h.sessions) && (w in h'.devices <==> w in h.devices)
                             && (w in h'.files <==> w in h.files))
    && (forall q | q != p :: (q in h'.mounts <==> q in h.mounts) && (q in h.mounts ==> h'.mounts[q] == h.mounts[q]))
    && (p in h'.mounts ==> (p in h.mounts && h'.mounts[p] == h.mounts[p]) || h'.mounts[p] == v)
  }

  lemma StepApart(h: Host, v: string, p: string, op: Op, e: HostEvent)
    requires !op.Ended?
    ensures OthersApart(h, HostServe(h, OpCall(v, p, op), e).host, v, p)
  {
  }

  lemma UnmountedCount(mounts: map<string, string>, v: string, p: string)
    requires p in mounts && mounts[p] == v
    ensures |PathsOf(mounts - {p}, v)| == |PathsOf(mounts, v)| - 1
  {
    assert PathsOf(mounts - {p}, v) == PathsOf(mounts, v) - {p};
  }

  /** What the step of `v` must establish: its own operation stays justified, and its mounts stay backed. */
  ghost predicate OwnStepOk(s: NodeState, h': Host, v: string, p: string, next: Op) {
    && (next.Ended? || OpOk(s.(host := h'), v, Running(p, next)))
    && Backed(s.(host := h'))
  }

  lemma PublishStep(s: NodeState, v: string, e: HostEvent)
    requires NodeInv(s) && v in s.ops
    requires var op := s.ops[v].op; op.Connecting? || op.Checking? || op.MakingDir? || op.Persisting? || op.Mounting?
    ensures var r := s.ops[v];
            var a := HostServe(s.host, OpCall(v, r.path, r.op), e);
            OwnStepOk(s, a.host, v, r.path, OpResume(r.op, a.reply))
  {
  }

  lemma ProbeStep(s: NodeState, v: string, e: HostEvent)
    requires NodeInv(s) && v in s.ops
    requires var op := s.ops[v].op; op.Counting? || op.Probing? || op.Loading?
    ensures var r := s.ops[v];
            var a := HostServe(s.host, OpCall(v, r.path, r.op), e);
            OwnStepOk(s, a.host, v, r.path, OpResume(r.op, a.reply))
  {
  }

  lemma UnmountStep(s: NodeState, v: string, e: HostEvent)
    requires NodeInv(s) && v in s.ops && s.ops[v].op.Unmounting?
    ensures var r := s.ops[v];
            var a := HostServe(s.host, OpCall(v, r.path, r.op), e);
            OwnStepOk(s, a.host, v, r.path, OpResume(r.op, a.reply))
  {
    var p := s.ops[v].path;
    if p in s.host.mounts {
      UnmountedCount(s.host.mounts, v, p);
    }
  }

  lemma TeardownStep(s: NodeState, v: string, e: HostEvent)
    requires NodeInv(s) && v in s.ops
    requires var op := s.ops[v].op; op.RemovingDevice? || op.LoggingOut? || op.RemovingDir? || op.RemovingFile?
    ensures var r := s.ops[v];
            var a := HostServe(s.host, OpCall(v, r.path, r.op), e);
            OwnStepOk(s, a.host, v, r.path, OpResume(r.op, a.reply))
  {
    forall q | q in s.host.mounts
      ensures s.host.mounts[q] != v && q != s.ops[v].path
    {
      assert s.host.mounts[q] == v ==> q in PathsOf(s.host.mounts, v);
      assert s.home[q] == s.host.mounts[q];
    }
  }

  /** Another volume's operation relies on nothing the step may change. */
  lemma OtherOpKept(s: NodeState, h': Host, v: string, p: string, w: string)
    requires NodeInv(s) && w in s.ops && w != v
    requires p in s.home && s.home[p] == v && OthersApart(s.host, h', v, p)
    requires p in s.host.mounts ==> s.host.mounts[p] == v
    ensures OpOk(s.(host := h'), w, s.ops[w])
  {
    assert PathsOf(h'.mounts, w) == PathsOf(s.host.mounts, w);
  }

  lemma ProceedKeeps(s: NodeState, v: string, e: HostEvent)
    requires NodeInv(s) && v in s.ops
    ensures NodeInv(NodeAct(s, Proceed(v, e)))
  {
    var r := s.ops[v];
    var h' := HostServe(s.host, OpCall(v, r.path, r.op), e).host;
    StepApart(s.host, v, r.path, r.op, e);
    var op := r.op;
    if op.Connecting? || op.Checking? || op.MakingDir? || op.Persisting? || op.Mounting? {
      PublishStep(s, v, e);
    } else if op.Counting? || op.Probing? || op.Loading? {
      ProbeStep(s, v, e);
    } else if op.Unmounting? {
      UnmountStep(s, v, e);
    } else {
      TeardownStep(s, v, e);
    }
    forall w | w in s.ops && w != v
      ensures OpOk(s.(host := h'), w, s.ops[w])
    {
      OtherOpKept(s, h', v, r.path, w);
    }
  }

  lemma NodeStepKeeps(s: NodeState, a: NodeAction)
    requires NodeInv(s)
    ensures NodeInv(NodeAct(s, a))
  {
    if a.Proceed? && a.volume in s.ops {
      ProceedKeeps(s, a.volume, a.event);
    }
  }

  // ------------------------------------------------------------------ whole runs

  ghost predicate AlwaysNodeInv(s: NodeState, actions: seq<NodeAction>)
    decreases |actions|
  {
    NodeInv(s) && (actions == [] || AlwaysNodeInv(NodeAct(s, actions[0]), actions[1..]))
  }

  /**
   Over every run of publishes and unpublishes, with failures and crashes anywhere,
   whatever is mounted from a volume's device has its connector file, its session
   and its device behind it, in every state.
   */
  lemma {:induction false} MountsStayBacked(s: NodeState, actions: seq<NodeAction>)
    requires NodeInv(s)
    ensures AlwaysNodeInv(s, actions)
    ensures NodeInv(NodeExec(s, actions)) && Backed(NodeExec(s, actions))
    decreases |actions|
  {
    if actions != [] {
      NodeStepKeeps(s, actions[0]);
      MountsStayBacked(NodeAct(s, actions[0]), actions[1..]);
    }
  }

  /** No path lies below another one. */
  ghost predicate Unnested(paths: set<string>) {
    forall p, q | p in paths && q in paths && p != q :: !Within(q, p)
  }

  /**
   In every state of every run: a device or session is taken down only when nothing
   is mounted from it, the connector file goes only after the last mount, and a
   directory is removed recursively only when nothing is mounted there, nor anywhere
   below it as long as the target paths used so far do not nest.
   */
  lemma TeardownIsSafe(s: NodeState, actions: seq<NodeAction>, v: string)
    requires NodeInv(s) && v in NodeExec(s, actions).ops && !NodeExec(s, actions).ops[v].op.Ended?
    ensures var s' := NodeExec(s, actions);
            match OpCall(v, s'.ops[v].path, s'.ops[v].op)
            case RemoveDevice(w) => w == v && PathsOf(s'.host.mounts, v) == {}
            case Logout(w) => w == v && PathsOf(s'.host.mounts, v) == {}
            case RemoveFile(w) => w == v && PathsOf(s'.host.mounts, v) == {}
            case RemoveDir(q) =>
              && q !in s'.host.mounts
              && (Unnested(s'.home.Keys) ==> forall m | m in s'.host.mounts :: !Within(m, q))
            case _ => true
  {
    MountsStayBacked(s, actions);
    var s' := NodeExec(s, actions);
    var r := s'.ops[v];
    assert OpOk(s', v, r);
    assert r.path in s'.host.mounts ==> r.path in PathsOf(s'.host.mounts, v);
  }

  /**
   When target paths nest, it does happen: from every state in which the unpublish of
   the last mount of `v` at `p` is about to unmount while something is mounted at a
   path below, three calls that work bring it to the recursive removal of `p`.
   */
  lemma NestedPathReached(s: NodeState, v: string, p: string, q: string)
    requires v in s.ops && s.ops[v] == Running(p, Unmounting(1))
    requires p in s.host.mounts && q in s.host.mounts && p != q && Within(q, p)
    ensures var done := Proceed(v, HostEvent(Done, false));
            var s' := NodeExec(s, [done, done, done]);
            && v in s'.ops && s'.ops[v] == Running(p, RemovingDir)
            && q in s'.host.mounts && Within(q, p)
  {
    var done := Proceed(v, HostEvent(Done, false));
    var s1 := NodeAct(s, done);
    assert s1.ops[v] == Running(p, RemovingDevice) && q in s1.host.mounts;
    var s2 := NodeAct(s1, done);
    assert s2.ops[v] == Running(p, LoggingOut) && s2.host.mounts == s1.host.mounts;
    ThreeSteps(s, done);
  }

  lemma ThreeSteps(s: NodeState, a: NodeAction)
    ensures NodeExec(s, [a, a, a]) == NodeAct(NodeAct(NodeAct(s, a), a), a)
  {
    hide NodeAct;
    var s1 := NodeAct(s, a);
    var s2 := NodeAct(s1, a);
    assert [a, a, a][1..] == [a, a] && [a, a][1..] == [a] && [a][1..] == [];
    assert NodeExec(s2, [a]) == NodeAct(s2, a);
    assert NodeExec(s1, [a, a]) == NodeExec(s2, [a]);
  }

  /**
   The count an unpublish is left with after its unmount is the number of mounts
   that remain exactly when the path was mounted; otherwise it is -1, so nothing is
   taken down then.
   */
  lemma CountIsExact(s: NodeState, actions: seq<NodeAction>, v: string, e: HostEvent)
    requires NodeInv(s) && v in NodeExec(s, actions).ops && NodeExec(s, actions).ops[v].op.Unmounting?
    requires var s' := NodeExec(s, actions);
             HostServe(s'.host, Unmount(s'.ops[v].path), e).reply == Ok
    ensures var s' := NodeExec(s, actions);
            var left := s'.ops[v].op.count - 1;
            var remaining := |PathsOf(HostServe(s'.host, Unmount(s'.ops[v].path), e).host.mounts, v)|;
            && (left == remaining <==> s'.ops[v].path in s'.host.mounts)
            && (s'.ops[v].path !in s'.host.mounts ==> left == -1)
  {
    MountsStayBacked(s, actions);
    var s' := NodeExec(s, actions);
    assert OpOk(s', v, s'.ops[v]);
    if s'.ops[v].path in s'.host.mounts {
      UnmountedCount(s'.host.mounts, v, s'.ops[v].path);
    }
  }

  function Proceeds(v: string, script: seq<HostEvent>, count: nat): seq<NodeAction> {
    if count == 0 then [] else [Proceed(v, NextHostEvent(script))] + Proceeds(v, RestHost(script), count - 1)
  }

  lemma RankFalls(op: Op, reply: HostReply)
    requires !op.Ended?
    ensures OpRank(OpResume(op, reply)) < OpRank(op)
  {
  }

  /** An operation run alone is the interleaving in which no other one moves. */
  lemma {:induction false} OpIsARun(s: NodeState, v: string, script: seq<HostEvent>)
    requires v in s.ops && !s.ops[v].op.Ended?
    ensures var r := RunOp(v, s.ops[v].path, s.ops[v].op, s.host, script);
            NodeExec(s, Proceeds(v, script, r.calls)) == s.(host := r.host, ops := s.ops - {v})
    decreases OpRank(s.ops[v].op)
  {
    hide HostEffect, OpResume, OpRank;
    var p, op := s.ops[v].path, s.ops[v].op;
    var s1 := NodeAct(s, Proceed(v, NextHostEvent(script)));
    var next := OpResume(op, HostServe(s.host, OpCall(v, p, op), NextHostEvent(script)).reply);
    RankFalls(op, HostServe(s.host, OpCall(v, p, op), NextHostEvent(script)).reply);
    var r1 := RunOp(v, p, next, s1.host, RestHost(script));
    RunOpStep(v, p, op, s.host, script);
    var actions := Proceeds(v, script, r1.calls + 1);
    assert actions[0] == Proceed(v, NextHostEvent(script)) && actions[1..] == Proceeds(v, RestHost(script), r1.calls);
    if !next.Ended? {
      OpIsARun(s1, v, RestHost(script));
      assert s1.ops - {v} == s.ops - {v};
    }
  }
}
