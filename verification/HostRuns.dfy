/** Publishes and unpublishes of one volume, one after the other: what a series of them does in all. */
module HostRuns {
  import opened Host
  import opened HostSafety

  /** The first `count` calls work as they should. */
  ghost predicate Fine(script: seq<HostEvent>, count: nat) {
    count <= |script| && forall k | 0 <= k < count :: script[k] == HostEvent(Done, false)
  }

  lemma FineRest(script: seq<HostEvent>, count: nat)
    requires Fine(script, count) && count > 0
    ensures NextHostEvent(script) == HostEvent(Done, false) && Fine(RestHost(script), count - 1)
  {
  }

  function RunPublish(v: string, p: string, h: Host, script: seq<HostEvent>): OpRan {
    RunOp(v, p, Connecting, h, script)
  }

  function RunUnpublish(v: string, p: string, h: Host, script: seq<HostEvent>): OpRan {
    RunOp(v, p, Counting, h, script)
  }

  /** One call of an operation, and the rest. */
  lemma OpStep(v: string, p: string, op: Op, h: Host, script: seq<HostEvent>, count: nat)
    requires !op.Ended? && Fine(script, count) && count > 0
    ensures var a := HostEffect(h, OpCall(v, p, op), HostEvent(Done, false));
            var r := RunOp(v, p, OpResume(op, a.reply), a.host, RestHost(script));
            && RunOp(v, p, op, h, script).ok == r.ok && RunOp(v, p, op, h, script).host == r.host
            && var next := OpResume(op, a.reply);
               next.Ended? ==> r.ok == next.ok && r.host == a.host
    ensures Fine(RestHost(script), count - 1)
  {
    FineRest(script, count);
  }

  /** A publish whose calls all work connects the volume and, unless the path is mounted, mounts it there. */
  lemma FinePublish(v: string, p: string, h: Host, script: seq<HostEvent>)
    requires Fine(script, 5)
    ensures var r := RunPublish(v, p, h, script);
            && r.ok
            && r.host == if p in h.mounts then h.(sessions := h.sessions + {v}, devices := h.devices + {v})
                         else Host(h.sessions + {v}, h.devices + {v}, h.files + {v}, h.mounts[p := v], h.dirs + {p})
  {
    hide RunOp;
    var h1 := h.(sessions := h.sessions + {v}, devices := h.devices + {v});
    OpStep(v, p, Connecting, h, script, 5);
    OpStep(v, p, Checking, h1, RestHost(script), 4);
    if p !in h.mounts {
      FineMount(v, p, h1, RestHost(RestHost(script)));
    }
  }

  lemma FineMount(v: string, p: string, h: Host, script: seq<HostEvent>)
    requires Fine(script, 3) && p !in h.mounts && v in h.devices
    ensures var r := RunOp(v, p, MakingDir, h, script);
            r.ok && r.host == h.(files := h.files + {v}, mounts := h.mounts[p := v], dirs := h.dirs + {p})
  {
    hide RunOp;
    var h1 := h.(dirs := h.dirs + {p});
    OpStep(v, p, MakingDir, h, script, 3);
    OpStep(v, p, Persisting, h1, RestHost(script), 2);
    OpStep(v, p, Mounting, h1.(files := h.files + {v}), RestHost(RestHost(script)), 1);
  }

  /** The host once the volume, mounted at `p` last, is unmounted there and taken down. */
  function Down(h: Host, v: string, p: string): Host {
    TornDown(h.(mounts := h.mounts - {p}), v, p)
  }

  function TornDown(h: Host, v: string, p: string): Host {
    Host(h.sessions - {v}, h.devices - {v}, h.files - {v}, h.mounts, h.dirs - Swept(h.dirs, h.mounts.Keys, p))
  }

  /**
   An unpublish of a mounted path whose calls all work unmounts it; it disconnects
   the volume and removes the directory and the connector file if and only if that
   was the last mount.
   */
  lemma FineUnpublish(v: string, p: string, h: Host, script: seq<HostEvent>)
    requires Fine(script, 8) && p in h.mounts && h.mounts[p] == v && p in h.dirs && v in h.files
    ensures var r := RunUnpublish(v, p, h, script);
            r.ok && r.host == if |PathsOf(h.mounts, v)| != 1 then h.(mounts := h.mounts - {p}) else Down(h, v, p)
  {
    FineDetach(v, p, h, script);
  }

  /** What an unpublish does goes by the number of mounts of whatever is mounted at the path. */
  lemma FineDetach(v: string, p: string, h: Host, script: seq<HostEvent>)
    requires Fine(script, 8) && p in h.mounts && p in h.dirs && v in h.files
    ensures var r := RunUnpublish(v, p, h, script);
            && r.ok
            && r.host == if |PathsOf(h.mounts, h.mounts[p])| != 1 then h.(mounts := h.mounts - {p}) else Down(h, v, p)
  {
    hide RunOp;
    var c := |PathsOf(h.mounts, h.mounts[p])|;
    var s1 := RestHost(script);
    OpStep(v, p, Counting, h, script, 8);
    OpStep(v, p, Probing(c), h, s1, 7);
    FineUnmount(v, p, c, h, RestHost(s1));
  }

  lemma FineUnmount(v: string, p: string, c: int, h: Host, script: seq<HostEvent>)
    requires Fine(script, 6) && p in h.mounts && v in h.files
    ensures var r := RunOp(v, p, Loading(c), h, script);
            r.ok && r.host == if c != 1 then h.(mounts := h.mounts - {p}) else Down(h, v, p)
  {
    hide RunOp;
    OpStep(v, p, Loading(c), h, script, 6);
    var s1 := RestHost(script);
    OpStep(v, p, Unmounting(c), h, s1, 5);
    if c == 1 {
      FineTeardown(v, p, h.(mounts := h.mounts - {p}), RestHost(s1));
    }
  }

  lemma FineTeardown(v: string, p: string, h: Host, script: seq<HostEvent>)
    requires Fine(script, 4) && v in h.files
    ensures var r := RunOp(v, p, RemovingDevice, h, script);
            r.ok && r.host == TornDown(h, v, p)
  {
    hide RunOp;
    OpStep(v, p, RemovingDevice, h, script, 4);
    FineLogout(v, p, h.(devices := h.devices - {v}), RestHost(script));
  }

  lemma FineLogout(v: string, p: string, h: Host, script: seq<HostEvent>)
    requires Fine(script, 3) && v in h.files && v !in h.devices
    ensures var r := RunOp(v, p, LoggingOut, h, script);
            r.ok && r.host == TornDown(h, v, p)
  {
    hide RunOp;
    OpStep(v, p, LoggingOut, h, script, 3);
    assert h.devices - {v} == h.devices;
    FineRemoval(v, p, h.(sessions := h.sessions - {v}), RestHost(script));
  }

  lemma FineRemoval(v: string, p: string, h: Host, script: seq<HostEvent>)
    requires Fine(script, 2) && v in h.files
    ensures var r := RunOp(v, p, RemovingDir, h, script);
            r.ok && r.host == h.(dirs := h.dirs - Swept(h.dirs, h.mounts.Keys, p), files := h.files - {v})
  {
    hide RunOp;
    OpStep(v, p, RemovingDir, h, script, 2);
    var h1 := h.(dirs := h.dirs - Swept(h.dirs, h.mounts.Keys, p));
    OpStep(v, p, RemovingFile, h1, RestHost(script), 1);
  }

  /**
   An unpublish of a path that is not mounted, whatever fails on the way, takes
   nothing down: neither sessions nor devices nor files nor mounts change.
   */
  lemma UnpublishOfUnmounted(v: string, p: string, h: Host, script: seq<HostEvent>)
    requires p !in h.mounts
    ensures RunUnpublish(v, p, h, script).host == h
  {
    UnmountedFrom(v, p, Counting, h, script);
  }

  lemma UnmountedStep(v: string, p: string, op: Op, h: Host, e: HostEvent)
    requires p !in h.mounts && (op == Counting || op == Probing(0) || op == Loading(0) || op == Unmounting(0))
    ensures var a := HostServe(h, OpCall(v, p, op), e);
            var next := OpResume(op, a.reply);
            && a.host == h
            && (next.Ended? || next == Probing(0) || next == Loading(0) || next == Unmounting(0))
  {
  }

  lemma UnmountedFrom(v: string, p: string, op: Op, h: Host, script: seq<HostEvent>)
    requires p !in h.mounts && (op == Counting || op == Probing(0) || op == Loading(0) || op == Unmounting(0))
    ensures RunOp(v, p, op, h, script).host == h
    decreases OpRank(op)
  {
    UnmountedStep(v, p, op, h, NextHostEvent(script));
    var a := HostServe(h, OpCall(v, p, op), NextHostEvent(script));
    var next := OpResume(op, a.reply);
    if !next.Ended? {
      UnmountedFrom(v, p, next, h, RestHost(script));
    }
  }

  // ------------------------------------------------------------------- a series

  datatype Visit = Visit(path: string, script: seq<HostEvent>)

  function PublishAll(v: string, visits: seq<Visit>, h: Host): Host
    decreases |visits|
  {
    if visits == [] then h
    else PublishAll(v, visits[1..], RunPublish(v, visits[0].path, h, visits[0].script).host)
  }

  function UnpublishAll(v: string, visits: seq<Visit>, h: Host): Host
    decreases |visits|
  {
    if visits == [] then h
    else UnpublishAll(v, visits[1..], RunUnpublish(v, visits[0].path, h, visits[0].script).host)
  }

  function Paths(visits: seq<Visit>): set<string> {
    set k | 0 <= k < |visits| :: visits[k].path
  }

  ghost predicate DistinctPaths(visits: seq<Visit>) {
    forall j, k | 0 <= j < k < |visits| :: visits[j].path != visits[k].path
  }

  ghost predicate AllFine(visits: seq<Visit>) {
    forall k | 0 <= k < |visits| :: Fine(visits[k].script, 8)
  }

  /** The host with the volume connected and mounted at these paths besides, and these directories besides. */
  function Up(h: Host, v: string, at: set<string>, dirs: set<string>): Host {
    Host(h.sessions + {v}, h.devices + {v}, h.files + {v}, h.mounts + (map p | p in at :: v), h.dirs + dirs)
  }

  ghost predicate NotMounted(h: Host, v: string, paths: set<string>) {
    h.mounts.Keys !! paths && forall p | p in h.mounts :: h.mounts[p] != v
  }

  lemma PathsCons(visits: seq<Visit>)
    requires visits != [] && DistinctPaths(visits)
    ensures Paths(visits) == {visits[0].path} + Paths(visits[1..]) && visits[0].path !in Paths(visits[1..])
    ensures DistinctPaths(visits[1..])
  {
    var rest := visits[1..];
    assert forall k | 0 <= k < |rest| :: rest[k] == visits[k + 1];
    assert visits[0].path in Paths(visits);
    forall p | p in Paths(visits)
      ensures p == visits[0].path || p in Paths(rest)
    {
      var k :| 0 <= k < |visits| && visits[k].path == p;
      assert k > 0 ==> rest[k - 1].path == p;
    }
  }

  lemma UpMounts(h: Host, v: string, at: set<string>, p: string)
    requires p !in h.mounts && p !in at
    ensures Up(h, v, at, at).mounts[p := v] == Up(h, v, at + {p}, at + {p}).mounts
    ensures p !in Up(h, v, at, at).mounts
  {
  }

  lemma UpPublish(h: Host, v: string, at: set<string>, p: string, script: seq<HostEvent>)
    requires Fine(script, 8) && NotMounted(h, v, at + {p}) && p !in at
    ensures RunPublish(v, p, Up(h, v, at, at), script).host == Up(h, v, at + {p}, at + {p})
  {
    var u := Up(h, v, at, at);
    FinePublish(v, p, u, script);
    UpMounts(h, v, at, p);
    assert u.sessions + {v} == u.sessions && u.devices + {v} == u.devices && u.files + {v} == u.files;
    assert u.dirs + {p} == h.dirs + (at + {p});
  }

  lemma {:induction false} PublishesMount(h: Host, v: string, at: set<string>, visits: seq<Visit>)
    requires AllFine(visits) && DistinctPaths(visits) && at !! Paths(visits) && NotMounted(h, v, at + Paths(visits))
    ensures PublishAll(v, visits, Up(h, v, at, at)) == Up(h, v, at + Paths(visits), at + Paths(visits))
    decreases |visits|
  {
    if visits == [] {
      assert at + Paths(visits) == at;
    } else {
      PathsCons(visits);
      var p := visits[0].path;
      UpPublish(h, v, at, p, visits[0].script);
      assert at + Paths(visits) == (at + {p}) + Paths(visits[1..]);
      assert forall k | 0 <= k < |visits[1..]| :: visits[1..][k] == visits[k + 1];
      PublishesMount(h, v, at + {p}, visits[1..]);
    }
  }

  lemma UpCount(h: Host, v: string, at: set<string>, dirs: set<string>)
    requires NotMounted(h, v, at)
    ensures PathsOf(Up(h, v, at, dirs).mounts, v) == at
  {
  }

  lemma UpUnpublish(h: Host, v: string, at: set<string>, dirs: set<string>, p: string, script: seq<HostEvent>)
    requires Fine(script, 8) && NotMounted(h, v, at) && p in at && at <= dirs && at != {p}
    ensures RunUnpublish(v, p, Up(h, v, at, dirs), script).host == Up(h, v, at - {p}, dirs)
  {
    var u := Up(h, v, at, dirs);
    UpCount(h, v, at, dirs);
    MoreThanOne(at, p);
    FineUnpublish(v, p, u, script);
    assert u.mounts - {p} == Up(h, v, at - {p}, dirs).mounts;
  }

  lemma MoreThanOne(at: set<string>, p: string)
    requires p in at && at != {p}
    ensures |at| != 1
  {
    assert at == {p} + (at - {p});
    assert |at| == 1 + |at - {p}|;
    assert at - {p} != {};
  }

  /** Unpublishes that leave some path mounted change nothing but the mounts. */
  lemma {:induction false} EarlyUnpublishes(h: Host, v: string, at: set<string>, dirs: set<string>, visits: seq<Visit>)
    requires AllFine(visits) && DistinctPaths(visits) && Paths(visits) < at <= dirs && NotMounted(h, v, at)
    ensures UnpublishAll(v, visits, Up(h, v, at, dirs)) == Up(h, v, at - Paths(visits), dirs)
    decreases |visits|
  {
    if visits == [] {
      assert at - Paths(visits) == at;
    } else {
      PathsCons(visits);
      var p := visits[0].path;
      UpUnpublish(h, v, at, dirs, p, visits[0].script);
      assert at - Paths(visits) == (at - {p}) - Paths(visits[1..]);
      assert Paths(visits[1..]) < at - {p};
      assert forall k | 0 <= k < |visits[1..]| :: visits[1..][k] == visits[k + 1];
      EarlyUnpublishes(h, v, at - {p}, dirs, visits[1..]);
    }
  }

  /** The unpublish of the last path takes everything down. */
  lemma LastUnpublish(h: Host, v: string, dirs: set<string>, p: string, script: seq<HostEvent>)
    requires Fine(script, 8) && NotMounted(h, v, {p}) && p in dirs
    ensures RunUnpublish(v, p, Up(h, v, {p}, dirs), script).host ==
            TornDown(h.(dirs := h.dirs + dirs), v, p)
  {
    var u := Up(h, v, {p}, dirs);
    UpCount(h, v, {p}, dirs);
    FineUnpublish(v, p, u, script);
    assert u.mounts - {p} == h.mounts;
    assert u.sessions - {v} == h.sessions - {v} && u.devices - {v} == h.devices - {v} && u.files - {v} == h.files - {v};
  }

  lemma FirstPublish(h: Host, v: string, p: string, script: seq<HostEvent>)
    requires Fine(script, 8) && p !in h.mounts
    ensures RunPublish(v, p, h, script).host == Up(h, v, {p}, {p})
  {
    FinePublish(v, p, h, script);
    OneMount(h, v, p, {p});
  }

  lemma OneMount(h: Host, v: string, p: string, at: set<string>)
    requires at == {p}
    ensures h.mounts[p := v] == Up(h, v, at, at).mounts
  {
  }

  /** A series of publishes, from a host where nothing is mounted from the volume. */
  lemma PublishesLeadUp(h: Host, v: string, visits: seq<Visit>)
    requires visits != [] && AllFine(visits) && DistinctPaths(visits) && NotMounted(h, v, Paths(visits))
    ensures PublishAll(v, visits, h) == Up(h, v, Paths(visits), Paths(visits))
  {
    PathsCons(visits);
    var p := visits[0].path;
    FirstPublish(h, v, p, visits[0].script);
    assert forall k | 0 <= k < |visits[1..]| :: visits[1..][k] == visits[k + 1];
    PublishesMount(h, v, {p}, visits[1..]);
  }

  ghost predicate NothingElseWithin(paths: set<string>, p: string) {
    forall d | d in paths && Within(d, p) :: d == p
  }

  lemma SweptAlone(dirs: set<string>, mounted: set<string>, p: string)
    requires p in dirs && p !in mounted && NothingElseWithin(dirs + mounted, p)
    ensures Swept(dirs, mounted, p) == {p}
  {
    assert forall m | m in mounted :: m in dirs + mounted;
  }

  /**
   Any number of publishes of one volume at distinct paths, then unpublishes of
   the same paths in any order, without failures. As long as a path is left the
   volume stays connected with its connector file; the last unpublish takes down
   session, device, file and its own directory, with whatever directories lie below.
   In the end the mount table is what it was, and all that is left over are the
   directories of the other paths.
   */
  lemma PublishAllThenUnpublishAll(h: Host, v: string, ups: seq<Visit>, early: seq<Visit>, last: Visit, k: nat)
    requires ups != [] && AllFine(ups) && DistinctPaths(ups) && NotMounted(h, v, Paths(ups))
    requires AllFine(early) && Fine(last.script, 8) && DistinctPaths(early) && last.path !in Paths(early)
    requires Paths(early) + {last.path} == Paths(ups) && k <= |early|
    ensures var up := PublishAll(v, ups, h);
            var part := UnpublishAll(v, early[..k], up);
            && v in part.sessions && v in part.devices && v in part.files
            && PathsOf(part.mounts, v) == Paths(ups) - Paths(early[..k])
    ensures var up := PublishAll(v, ups, h);
            var end := RunUnpublish(v, last.path, UnpublishAll(v, early, up), last.script).host;
            && end == TornDown(h.(dirs := h.dirs + Paths(ups)), v, last.path)
            && (NothingElseWithin(h.dirs + Paths(ups) + h.mounts.Keys, last.path) ==>
                  end.dirs == h.dirs + Paths(ups) - {last.path})
  {
    var at := Paths(ups);
    PublishesLeadUp(h, v, ups);
    var part := early[..k];
    assert forall i | 0 <= i < |part| :: part[i] == early[i];
    assert Paths(part) <= Paths(early) by {
      forall p | p in Paths(part)
        ensures p in Paths(early)
      {
        var i :| 0 <= i < |part| && part[i].path == p;
        assert early[i].path in Paths(early);
      }
    }
    EarlyUnpublishes(h, v, at, at, part);
    UpCount(h, v, at - Paths(part), at);
    EarlyUnpublishes(h, v, at, at, early);
    assert at - Paths(early) == {last.path};
    LastUnpublish(h, v, at, last.path, last.script);
    if NothingElseWithin(h.dirs + at + h.mounts.Keys, last.path) {
      SweptAlone(h.dirs + at, h.mounts.Keys, last.path);
    }
  }

  /** Something is mounted from the volume, but it has no session. */
  predicate CutOff(h: Host, v: string) {
    PathsOf(h.mounts, v) != {} && v !in h.sessions
  }

  /**
   Why a path must be used for one volume only. Unpublishing a connected volume `v` at
   a mounted path, with all calls working, leaves `v` mounted without a session if and
   only if another volume is mounted at the path and nowhere else, and `v` is mounted
   somewhere; device and connector file are then gone, too.
   */
  lemma MisdirectedUnpublish(h: Host, v: string, p: string, script: seq<HostEvent>)
    requires p in h.mounts && p in h.dirs && Fine(script, 8)
    requires v in h.files && v in h.sessions && v in h.devices
    ensures var end := RunUnpublish(v, p, h, script).host;
            && (CutOff(end, v) <==>
                  h.mounts[p] != v && |PathsOf(h.mounts, h.mounts[p])| == 1 && PathsOf(h.mounts, v) != {})
            && (CutOff(end, v) ==> v !in end.devices && v !in end.files)
  {
    FineDetach(v, p, h, script);
    var w := h.mounts[p];
    assert PathsOf(h.mounts - {p}, v) == PathsOf(h.mounts, v) - {p};
    if w == v && |PathsOf(h.mounts, v)| == 1 {
      assert PathsOf(h.mounts, v) == {p} by {
        assert PathsOf(h.mounts, v) == {p} + (PathsOf(h.mounts, v) - {p});
      }
    }
  }

  /**
   A publish or unpublish of a volume that has none in flight, at a path of its own or
   a new one, is one of the interleavings: it starts, makes its calls, and leaves the
   host that it leaves when it is run alone. Others in flight are as before.
   */
  lemma OperationStarts(s: NodeState, v: string, p: string, script: seq<HostEvent>)
    requires v !in s.ops && (p in s.home ==> s.home[p] == v)
    ensures var r := RunPublish(v, p, s.host, script);
            NodeExec(NodeAct(s, Publish(v, p)), Proceeds(v, script, r.calls)) ==
            NodeState(r.host, s.ops, s.home[p := v])
    ensures var r := RunUnpublish(v, p, s.host, script);
            NodeExec(NodeAct(s, Unpublish(v, p)), Proceeds(v, script, r.calls)) ==
            NodeState(r.host, s.ops, s.home[p := v])
  {
    hide NodeExec, Proceeds, RunOp;
    var s1, s2 := NodeAct(s, Publish(v, p)), NodeAct(s, Unpublish(v, p));
    OpIsARun(s1, v, script);
    OpIsARun(s2, v, script);
    assert s1.ops - {v} == s.ops && s2.ops - {v} == s.ops;
  }

  /** A crash ends every operation where it stands and leaves the host as it is, to any operation that comes. */
  lemma CrashLeavesHost(s: NodeState, v: string, p: string)
    ensures var s' := NodeAct(s, Crash);
            && s'.host == s.host && s'.home == s.home && v !in s'.ops
            && ((p in s.home ==> s.home[p] == v) ==> v in NodeAct(s', Publish(v, p)).ops)
  {
  }
}
