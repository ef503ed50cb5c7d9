/**
 What the result of a publish or an unpublish means: exactly when it reports
 success, and what holds of the node then, run alone and in every interleaving.
 */
module HostResults {
  import opened Wrappers
  import opened Host
  import opened HostSafety
  import opened HostRuns

  /** The event that decides about the call with this number; beyond the script nothing answers. */
  function EventAt(script: seq<HostEvent>, k: nat): HostEvent {
    if k < |script| then script[k] else SILENT
  }

  predicate Works(script: seq<HostEvent>, k: nat) {
    EventAt(script, k).fate == Done
  }

  lemma EventsFrom(script: seq<HostEvent>)
    ensures NextHostEvent(script) == EventAt(script, 0)
    ensures forall k: nat :: EventAt(RestHost(script), k) == EventAt(script, k + 1)
  {
  }

  /** One call of an operation, and the rest, which is nothing when the operation ends. */
  lemma CallThen(v: string, p: string, op: Op, h: Host, script: seq<HostEvent>)
    requires !op.Ended?
    ensures var a := HostServe(h, OpCall(v, p, op), NextHostEvent(script));
            var next := OpResume(op, a.reply);
            var r, r1 := RunOp(v, p, op, h, script), RunOp(v, p, next, a.host, RestHost(script));
            && r.ok == r1.ok && r.host == r1.host
            && (next.Ended? ==> r.ok == next.ok && r.host == a.host)
  {
    RunOpStep(v, p, op, h, script);
  }

  // ---------------------------------------------------------------------- publish

  /** The part of a publish after it found the path not mounted. */
  lemma MountPartOk(v: string, p: string, h: Host, script: seq<HostEvent>)
    requires p !in h.mounts && v in h.devices
    ensures var r := RunOp(v, p, MakingDir, h, script);
            && (r.ok <==> Works(script, 0) && Works(script, 1) && Works(script, 2))
            && (r.ok ==> r.host == h.(dirs := h.dirs + {p}, files := h.files + {v}, mounts := h.mounts[p := v]))
  {
    hide RunOp;
    var s1 := RestHost(script);
    EventsFrom(script);
    EventsFrom(s1);
    EventsFrom(RestHost(s1));
    CallThen(v, p, MakingDir, h, script);
    if Works(script, 0) {
      var h1 := h.(dirs := h.dirs + {p});
      CallThen(v, p, Persisting, h1, s1);
      if Works(script, 1) {
        CallThen(v, p, Mounting, h1.(files := h.files + {v}), RestHost(s1));
      }
    }
  }

  /**
   A publish reports success if and only if each of its calls is answered, two when
   the path is mounted already and five otherwise, and the connect names a device.
   */
  lemma PublishOkExactlyWhen(v: string, p: string, h: Host, script: seq<HostEvent>)
    ensures RunPublish(v, p, h, script).ok <==>
            && Works(script, 0) && !EventAt(script, 0).quirk && Works(script, 1)
            && (p in h.mounts || (Works(script, 2) && Works(script, 3) && Works(script, 4)))
  {
    PublishOutcome(v, p, h, script);
  }

  /** The host after a publish that reported success. */
  function Published(v: string, p: string, h: Host): Host {
    if p in h.mounts then h.(sessions := h.sessions + {v}, devices := h.devices + {v})
    else Host(h.sessions + {v}, h.devices + {v}, h.files + {v}, h.mounts[p := v], h.dirs + {p})
  }

  lemma PublishOutcome(v: string, p: string, h: Host, script: seq<HostEvent>)
    ensures var r := RunPublish(v, p, h, script);
            && (r.ok <==>
                  && Works(script, 0) && !EventAt(script, 0).quirk && Works(script, 1)
                  && (p in h.mounts || (Works(script, 2) && Works(script, 3) && Works(script, 4))))
            && (r.ok ==> r.host == Published(v, p, h))
  {
    hide RunOp;
    var s1 := RestHost(script);
    EventsFrom(script);
    EventsFrom(s1);
    CallThen(v, p, Connecting, h, script);
    if Works(script, 0) && !EventAt(script, 0).quirk {
      var h1 := h.(sessions := h.sessions + {v}, devices := h.devices + {v});
      CallThen(v, p, Checking, h1, s1);
      if Works(script, 1) && p !in h.mounts {
        MountPartOk(v, p, h1, RestHost(s1));
        EventsFrom(RestHost(s1));
      }
    }
  }

  /**
   What success of a publish means, on every host and with any failures: something is
   mounted at the path; when nothing was before, the volume is mounted there, with its
   connector file, session and device behind it; and no other mount has changed.
   */
  lemma PublishSucceeded(v: string, p: string, h: Host, script: seq<HostEvent>)
    requires RunPublish(v, p, h, script).ok
    ensures var end := RunPublish(v, p, h, script).host;
            && p in end.mounts && v in end.sessions && v in end.devices
            && (p !in h.mounts ==> end.mounts[p] == v && v in end.files && p in end.dirs)
            && end.mounts - {p} == h.mounts - {p} && (p in h.mounts ==> end.mounts == h.mounts)
  {
    PublishOutcome(v, p, h, script);
  }

  // -------------------------------------------------------------------- unpublish

  /** The host when everything of the volume but perhaps its session was taken down. */
  ghost predicate TakenDown(v: string, p: string, h: Host, end: Host, loggedOut: bool) {
    && v !in end.devices && v !in end.files && end.mounts == h.mounts
    && (v in end.sessions <==> v in h.sessions && !loggedOut)
  }

  /** The part of an unpublish after the last unmount. */
  lemma TeardownPartOk(v: string, p: string, h: Host, script: seq<HostEvent>)
    requires v in h.files
    ensures var r := RunOp(v, p, RemovingDevice, h, script);
            && (r.ok <==> Works(script, 0) && Works(script, 3))
            && (r.ok ==> TakenDown(v, p, h, r.host, EventAt(script, 1).fate != NoEffect))
            && r.host.mounts == h.mounts
  {
    hide RunOp;
    var s1 := RestHost(script);
    EventsFrom(script);
    CallThen(v, p, RemovingDevice, h, script);
    var h1 := HostServe(h, RemoveDevice(v), NextHostEvent(script)).host;
    if Works(script, 0) {
      EventsFrom(s1);
      CallThen(v, p, LoggingOut, h1, s1);
      var h2 := HostServe(h1, Logout(v), NextHostEvent(s1)).host;
      RemovalPartOk(v, p, h2, RestHost(s1));
      EventsFrom(RestHost(s1));
    }
  }

  lemma RemovalPartOk(v: string, p: string, h: Host, script: seq<HostEvent>)
    requires v in h.files
    ensures var r := RunOp(v, p, RemovingDir, h, script);
            && (r.ok <==> Works(script, 1))
            && (r.ok ==> v !in r.host.files)
            && r.host.mounts == h.mounts && r.host.devices == h.devices && r.host.sessions == h.sessions
  {
    hide RunOp;
    EventsFrom(script);
    CallThen(v, p, RemovingDir, h, script);
    var h1 := HostServe(h, RemoveDir(p), NextHostEvent(script)).host;
    EventsFrom(RestHost(script));
    CallThen(v, p, RemovingFile, h1, RestHost(script));
  }

  /** The references an unpublish counts. */
  function Count(h: Host, p: string): nat {
    if p in h.mounts then |PathsOf(h.mounts, h.mounts[p])| else 0
  }

  /** When the unmount of an unpublish, and what comes after it, reports success. */
  predicate UnmountReports(p: string, h: Host, script: seq<HostEvent>) {
    && Works(script, 3) && (p in h.mounts || EventAt(script, 3).quirk)
    && (Count(h, p) == 1 ==> Works(script, 4) && Works(script, 7))
  }

  /** What is left when the path exists, the connector file was there, and success was reported. */
  ghost predicate Unpublished(v: string, p: string, h: Host, end: Host, script: seq<HostEvent>) {
    && end.mounts == h.mounts - {p}
    && (Count(h, p) == 1 ==> TakenDown(v, p, h.(mounts := h.mounts - {p}), end, EventAt(script, 5).fate != NoEffect))
  }

  /** The part of an unpublish from the unmount on; the calls are numbered from the start of it all. */
  lemma UnmountPartOk(v: string, p: string, h: Host, script: seq<HostEvent>, rest: seq<HostEvent>)
    requires v in h.files && forall k: nat :: EventAt(rest, k) == EventAt(script, k + 3)
    ensures var r := RunOp(v, p, Unmounting(Count(h, p)), h, rest);
            && (r.ok <==> UnmountReports(p, h, script))
            && (r.ok ==> Unpublished(v, p, h, r.host, script))
  {
    hide RunOp;
    EventsFrom(rest);
    CallThen(v, p, Unmounting(Count(h, p)), h, rest);
    assert p !in h.mounts ==> h.mounts - {p} == h.mounts;
    if Works(rest, 0) && Count(h, p) == 1 {
      TeardownPartOk(v, p, h.(mounts := h.mounts - {p}), RestHost(rest));
      assert EventAt(rest, 1) == EventAt(script, 4) && EventAt(rest, 2) == EventAt(script, 5);
      assert EventAt(rest, 4) == EventAt(script, 7);
    }
  }

  lemma UnpublishOutcome(v: string, p: string, h: Host, script: seq<HostEvent>)
    ensures var r := RunUnpublish(v, p, h, script);
            && (r.ok <==>
                  && Works(script, 0) && Works(script, 1)
                  && (p in h.dirs ==> Works(script, 2) && (v in h.files ==> UnmountReports(p, h, script))))
            && (r.ok && p in h.dirs && v in h.files ==> Unpublished(v, p, h, r.host, script))
            && (r.ok && (p !in h.dirs || v !in h.files) ==> r.host == h)
  {
    hide RunOp;
    var c, s1, s2 := Count(h, p), RestHost(script), RestHost(RestHost(script));
    EventsFrom(script);
    EventsFrom(s1);
    EventsFrom(s2);
    CallThen(v, p, Counting, h, script);
    if Works(script, 0) {
      CallThen(v, p, Probing(c), h, s1);
      if Works(script, 1) && p in h.dirs {
        CallThen(v, p, Loading(c), h, s2);
        if Works(script, 2) && v in h.files {
          UnmountPartOk(v, p, h, script, RestHost(s2));
        }
      }
    }
  }

  /**
   An unpublish reports success if and only if its calls are answered: two when the
   path does not exist, three when there is no connector file, and otherwise four, the
   last being an unmount of a mounted path or one that is reported to have worked; and
   after the last reference the removals of the device and of the connector file, but
   not the logout and the removal of the directory.
   */
  lemma UnpublishOkExactlyWhen(v: string, p: string, h: Host, script: seq<HostEvent>)
    ensures RunUnpublish(v, p, h, script).ok <==>
            && Works(script, 0) && Works(script, 1)
            && (p in h.dirs ==> Works(script, 2) && (v in h.files ==> UnmountReports(p, h, script)))
  {
    UnpublishOutcome(v, p, h, script);
  }

  /**
   What success of an unpublish means, on every host and with any failures, when the
   path exists and the connector file is there: nothing is mounted at the path, the
   other mounts are as before, and if it was the last mount of the volume, connector
   file and device are gone. The session is gone too unless the logout had no effect,
   which nobody is told.
   */
  lemma UnpublishSucceeded(v: string, p: string, h: Host, script: seq<HostEvent>)
    requires RunUnpublish(v, p, h, script).ok && p in h.dirs && v in h.files
    ensures var end := RunUnpublish(v, p, h, script).host;
            && p !in end.mounts && end.mounts == h.mounts - {p}
            && (PathsOf(h.mounts, v) == {p} ==>
                  && v !in end.files && v !in end.devices
                  && (v in end.sessions <==> v in h.sessions && EventAt(script, 5).fate == NoEffect))
  {
    UnpublishOutcome(v, p, h, script);
    if PathsOf(h.mounts, v) == {p} {
      assert p in PathsOf(h.mounts, v);
      assert Count(h, p) == 1;
    }
  }

  // ------------------------------------------------------------- any interleaving

  predicate IsPublish(op: Op) {
    op.Connecting? || op.Checking? || op.MakingDir? || op.Persisting? || op.Mounting?
  }

  /** The result that the answer `e` makes the operation on `v` report, if it ends with it. */
  function Result(s: NodeState, v: string, e: HostEvent): Option<bool> {
    if v !in s.ops || s.ops[v].op.Ended? then None
    else
      var r := s.ops[v];
      var next := OpResume(r.op, HostServe(s.host, OpCall(v, r.path, r.op), e).reply);
      if next.Ended? then Some(next.ok) else None
  }

  lemma PublishEndsWell(s: NodeState, v: string, e: HostEvent)
    requires NodeInv(s) && Result(s, v, e) == Some(true) && IsPublish(s.ops[v].op)
    ensures var s', p := NodeAct(s, Proceed(v, e)), s.ops[v].path;
            && p in s'.host.mounts && s'.host.mounts[p] == v
            && v in s'.host.files && v in s'.host.sessions && v in s'.host.devices
  {
    assert OpOk(s, v, s.ops[v]);
  }

  lemma UnpublishEndsWell(s: NodeState, v: string, e: HostEvent)
    requires NodeInv(s) && Result(s, v, e) == Some(true) && !IsPublish(s.ops[v].op)
    ensures var s', r := NodeAct(s, Proceed(v, e)), s.ops[v];
            && r.path !in s'.host.mounts
            && (r.op.RemovingFile? ==>
                  v !in s'.host.files && v !in s'.host.devices && PathsOf(s'.host.mounts, v) == {})
            && (r.op.Unmounting? && r.path in s.host.mounts ==> PathsOf(s'.host.mounts, v) != {})
  {
    var s', r := NodeAct(s, Proceed(v, e)), s.ops[v];
    assert OpOk(s, v, r);
    if r.path in s.host.mounts {
      assert r.path in PathsOf(s.host.mounts, v);
      if r.op.Unmounting? {
        UnmountedCount(s.host.mounts, v, r.path);
        assert PathsOf(s'.host.mounts, v) == {} ==> |PathsOf(s'.host.mounts, v)| == 0;
      }
    }
  }

  /**
   In every interleaving, with failures and crashes anywhere: a publish that reports
   success leaves its own volume mounted at its path, with connector file, session and
   device; an unpublish that reports success leaves nothing mounted at its path, and it
   has either taken down device and connector file, with no mount of the volume left,
   or left another mount of it, or found nothing to unmount.
   */
  lemma ResultsInAnyInterleaving(s: NodeState, actions: seq<NodeAction>, v: string, e: HostEvent)
    requires NodeInv(s) && Result(NodeExec(s, actions), v, e) == Some(true)
    ensures var s1 := NodeExec(s, actions);
            var s2, r := NodeAct(s1, Proceed(v, e)), s1.ops[v];
            if IsPublish(r.op) then
              && r.path in s2.host.mounts && s2.host.mounts[r.path] == v
              && v in s2.host.files && v in s2.host.sessions && v in s2.host.devices
            else
              && r.path !in s2.host.mounts
              && (|| (v !in s2.host.files && v !in s2.host.devices && PathsOf(s2.host.mounts, v) == {})
                  || PathsOf(s2.host.mounts, v) != {}
                  || r.path !in s1.host.mounts)
              && (r.op.RemovingFile? ==> v !in s2.host.files && v !in s2.host.devices)
  {
    MountsStayBacked(s, actions);
    var s1 := NodeExec(s, actions);
    if IsPublish(s1.ops[v].op) {
      PublishEndsWell(s1, v, e);
    } else {
      UnpublishEndsWell(s1, v, e);
    }
  }
}
