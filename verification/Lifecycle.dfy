/** What the controller returns, used again: by the node, by DeleteVolume, and by the next CreateVolume. */
module Lifecycle {
  import opened Wrappers
  import opened Text
  import opened Lists
  import opened Nas
  import opened Saga
  import opened SagaSafety
  import opened SagaOwnership
  import opened SagaSerial
  import opened SagaTheorems
  import opened Names
  import opened Controller
  import H = Handoff
  import N = NodeDriver

  /** encoding/json on the two texts a created volume leads to: the empty list, and a secret that is not there. */
  ghost predicate ReadsJson(json: H.Json) {
    json.list("[]") == Some([]) && json.table("") == None
  }

  /**
   The context of a created volume is accepted by the node if and only if a portal
   is configured; the connector then points at the volume's own target, LUN 0, and
   that one portal.
   */
  lemma ContextAcceptedExactlyWhen(json: H.Json, volumeId: string, portal: string, iqn: string)
    requires ReadsJson(json) && iqn != ""
    ensures var info := H.InfoOf(json, volumeId, ContextOf(portal, iqn));
            && (info.Success? <==> portal != "")
            && (info.Success? && volumeId != "" ==>
                  var connector := H.BuildConnector(info.value);
                  && connector.Some? && connector.value.targetIqn == iqn && connector.value.lun == 0
                  && connector.value.targetPortals == [H.PortalMounter(portal)]
                  && connector.value.sessionSecrets == H.NO_SECRETS)
  {
    var context := ContextOf(portal, iqn);
    assert H.Lookup(context, "lun") == "0" && H.Lookup(context, "portals") == "[]";
    assert H.Lookup(context, "targetPortal") == portal && H.Lookup(context, "iqn") == iqn;
    assert H.Lookup(context, "secret") == "";
    ItoaRoundTrip(0);
    assert Itoa(0) == "0";
    H.AcceptedExactlyWhen(json, volumeId, context);
    if portal != "" {
      assert [H.PortalMounter(portal)] + H.Mounted([]) == [H.PortalMounter(portal)];
    }
  }

  /**
   Every serial create that succeeds hands over a context the node accepts, given a
   configured portal, and the IQN in it is the one of the target it created.
   */
  lemma CreatedVolumeIsAccepted(n: Nas, name: string, gib: int, script: seq<Event>, json: H.Json, portal: string)
    requires ListsExist(n) && ReadsJson(json) && portal != ""
    requires RunCreate(CleanISCSIName(name), gib, n, script).outcome.Created?
    ensures var r := RunCreate(CleanISCSIName(name), gib, n, script);
            && H.InfoOf(json, CleanISCSIName(name), ContextOf(portal, r.outcome.iqn)).Success?
            && CreatedWith(n, r.nas, CleanISCSIName(name), gib, r.outcome.iqn)
  {
    CreateResidue(n, CleanISCSIName(name), gib, script);
    var iqn := RunCreate(CleanISCSIName(name), gib, n, script).outcome.iqn;
    ContextAcceptedExactlyWhen(json, CleanISCSIName(name), portal, iqn);
  }

  /**
   The same in every interleaving, with other requests served all the while: the IQN
   handed over is that of the complete volume the create leaves.
   */
  lemma CreatedMeanwhileIsAccepted(s: System, name: string, gib: int, actions: seq<Action>, e: Event,
                                   json: H.Json, portal: string, iqn: string)
    requires Inv(s) && CleanISCSIName(name) !in s.jobs && ReadsJson(json) && portal != ""
    requires var x := CleanISCSIName(name);
             var s1 := Act(s, Begin(x, Create(gib)));
             && HazardFree(s1, actions) && InFlight(s1, actions, x)
             && Reported(Exec(s1, actions), x, e) == Some(Created(iqn))
    ensures var x := CleanISCSIName(name);
            var s2 := Exec(Act(s, Begin(x, Create(gib))), actions);
            && H.InfoOf(json, x, ContextOf(portal, iqn)).Success?
            && HasVolumeWith(Act(s2, Advance(x, e)).nas, x, gib, iqn)
  {
    var x := CleanISCSIName(name);
    CreatedInAnyInterleaving(s, x, gib, actions, e);
    ContextAcceptedExactlyWhen(json, x, portal, iqn);
  }

  /**
   Whatever CreateVolume answered when it succeeded: a delete of the id in the answer,
   with all its calls answered, restores the maps of the NAS.
   */
  lemma AnsweredVolumeDeletes(answer: CreateResponse, portal: string, n: Nas, n': Nas, script: seq<Event>)
    requires NasOk(n) && IsNew(answer, portal, n, n') && AllDone(script, 4)
    ensures var r := RunDelete(answer.volumeId, n', script);
            r.outcome == Deleted && SameMaps(n, r.nas)
  {
    var x := answer.volumeId;
    var t, l :| && StandsFor(answer, portal, n', t, l) && t !in n.targets && l !in n.luns
                && n'.targets == n.targets[t := n'.targets[t]] && n'.luns == n.luns[l := n'.luns[l]];
    TargetMoreOk(n, n', x, t, [l]);
    DeleteSucceeds(n', x, t, script);
    assert Elements([l]) == {l};
    assert n'.targets - {t} == n.targets && n'.luns - {l} == n.luns;
  }

  /**
   CreateVolume accepts names that clean to the empty string, such as "---". The
   volume then has an empty id, which DeleteVolume, NodePublishVolume and
   NodeUnpublishVolume refuse at their guards; this happens exactly for the names
   without any character that leaves something; other ids pass all three guards.
   */
  lemma UndeletableExactlyWhen(name: string, size: int, portal: string, iqn: string, path: string)
    requires path != ""
    ensures var answer := AnswerOf(CleanISCSIName(name), size, portal, Created(iqn)).value;
            var id := answer.volumeId;
            var nothingLeft := forall k | 0 <= k < |name| :: !LeavesSomething(name[k]);
            && (DeleteGuard(id) == Some(VolumeIdMissing) <==> nothingLeft)
            && var publish := N.PublishGuard(N.PublishRequest(true, id, path, answer.context));
               var unpublish := N.UnpublishGuard(id, path);
               if nothingLeft then publish == unpublish == Some(N.VolumeIdMissing)
               else DeleteGuard(id) == None && publish == unpublish == None
    ensures CleanISCSIName("---") == ""
  {
    CleanedEmpty(name);
    CleanedEmpty("---");
  }

  /**
   After a volume was created for the name `a`, a create for the name `b` that no
   other target stands for is turned away as existing, once login and listing
   work, if and only if the cleaned names are equal.
   */
  lemma NamesCollideExactlyWhen(n: Nas, a: string, b: string, gib: int, first: seq<Event>, second: seq<Event>)
    requires ListsExist(n) && NoTarget(n, CleanISCSIName(b)) && AllDone(second, 2)
    requires RunCreate(CleanISCSIName(a), gib, n, first).outcome.Created?
    ensures var n1 := RunCreate(CleanISCSIName(a), gib, n, first).nas;
            RunCreate(CleanISCSIName(b), gib, n1, second).outcome == Refused(AlreadyExists)
            <==> CleanISCSIName(a) == CleanISCSIName(b)
  {
    var x, y := CleanISCSIName(a), CleanISCSIName(b);
    CreateResidue(n, x, gib, first);
    var r := RunCreate(x, gib, n, first);
    var t, l :| VolumeMore(n, r.nas, x, gib, t, l) && r.nas.targets[t].iqn == r.outcome.iqn;
    assert NoTarget(r.nas, y) <==> x != y;
    RefusedExactlyWhen(r.nas, y, gib, second);
  }
}
