/**
 The NAS as the driver sees it through its client (qnap/api.go): iSCSI targets
 and LUNs under numeric indexes that are reused, and one effect per API call.

 Whatever the NAS and the network are free to decide about one call is an
 `Event`: whether the call takes effect and whether the caller learns of it,
 which free index a new object gets, the IQN, the order of a listing, the status
 of a LUN, and whether removing a LUN also drops it from the target that maps it.
 */
module Nas {
  import opened Lists

  /** `serial` tells objects apart that have the same index at different times; no call shows it. */
  datatype Target = Target(name: string, iqn: string, initiator: bool, luns: seq<int>, serial: nat)

  datatype Lun = Lun(name: string, gib: int, serial: nat)

  datatype Nas = Nas(targets: map<int, Target>, luns: map<int, Lun>, created: nat)

  /** One entry of the target list. */
  datatype TargetInfo = TargetInfo(index: int, name: string, iqn: string, luns: seq<int>)

  datatype Call =
    | Login
    | ListTargets
    | AddTarget(name: string)
    | AddInitiator(target: int)
    | AddLun(name: string, gib: int)
    | LunStatus(lun: int)
    | AttachLun(lun: int, target: int)
    | RemoveTarget(target: int)
    | RemoveLun(lun: int)

  datatype Reply =
    | Failed
    | Ack
    | Index(index: int)
    | Listing(targets: seq<TargetInfo>)
    | Status(status: string)

  /** A call succeeds, fails without effect, or takes effect although the caller is told it failed. */
  datatype Fate = Done | NoEffect | EffectLost

  datatype Event = Event(fate: Fate, slot: int, iqn: string, order: seq<int>, status: string, unmaps: bool)

  datatype Answer = Answer(reply: Reply, nas: Nas)

  /** The first index from `hint` on that is free: any free index is the answer to some hint. */
  function FreeSlot(used: set<int>, hint: int): (slot: int)
    ensures slot !in used && slot >= hint
    ensures hint !in used ==> slot == hint
    decreases used
  {
    if hint in used then FreeSlot(used - {hint}, hint + 1) else hint
  }

  /** The order in which the indexes are listed: the one proposed when it lists each index once. */
  function Arranged(order: seq<int>, keys: set<int>): seq<int> {
    if Distinct(order) && Elements(order) == keys then order else SortedList(keys)
  }

  lemma ArrangedSpec(order: seq<int>, keys: set<int>)
    ensures var list := Arranged(order, keys);
            Distinct(list) && Elements(list) == keys && forall k | 0 <= k < |list| :: list[k] in keys
  {
    var list := Arranged(order, keys);
    assert forall k | 0 <= k < |list| :: list[k] in Elements(list);
  }

  function InfoOf(index: int, t: Target): TargetInfo {
    TargetInfo(index, t.name, t.iqn, t.luns)
  }

  function ListingOf(targets: map<int, Target>, order: seq<int>): seq<TargetInfo> {
    var indexes := Arranged(order, targets.Keys);
    ArrangedSpec(order, targets.Keys);
    seq(|indexes|, k requires 0 <= k < |indexes| => InfoOf(indexes[k], targets[indexes[k]]))
  }

  /** A listing shows every target once, as it is, in whatever order the NAS chooses. */
  lemma ListingSpec(targets: map<int, Target>, order: seq<int>)
    ensures var list := ListingOf(targets, order);
            && (forall k | 0 <= k < |list| ::
                  list[k].index in targets && list[k] == InfoOf(list[k].index, targets[list[k].index]))
            && (forall i | i in targets :: InfoOf(i, targets[i]) in list)
            && (forall j, k | 0 <= j < k < |list| :: list[j].index != list[k].index)
            && (Distinct(order) && Elements(order) == targets.Keys ==>
                  |list| == |order| && forall k | 0 <= k < |list| :: list[k].index == order[k])
  {
    var list := ListingOf(targets, order);
    var indexes := Arranged(order, targets.Keys);
    ArrangedSpec(order, targets.Keys);
    forall i | i in targets
      ensures InfoOf(i, targets[i]) in list
    {
      assert i in Elements(indexes);
      var k :| 0 <= k < |indexes| && indexes[k] == i;
      assert list[k] == InfoOf(i, targets[i]);
    }
  }

  function Without(list: seq<int>, l: int): seq<int> {
    if list == [] then []
    else if list[0] == l then Without(list[1..], l)
    else [list[0]] + Without(list[1..], l)
  }

  /** Drops a LUN from every target that maps it. */
  function Unmapped(targets: map<int, Target>, l: int): map<int, Target> {
    map i | i in targets ::
      if l in targets[i].luns then targets[i].(luns := Without(targets[i].luns, l)) else targets[i]
  }

  predicate LunNameInUse(nas: Nas, name: string) {
    exists l :: l in nas.luns && nas.luns[l].name == name
  }

  /** What a call does when it reaches the NAS, and the reply it produces there. */
  function Effect(nas: Nas, call: Call, e: Event): Answer {
    match call
    case Login => Answer(Ack, nas)
    case ListTargets => Answer(Listing(ListingOf(nas.targets, e.order)), nas)
    case AddTarget(name) =>
      // The same name may be used for several targets.
      var i := FreeSlot(nas.targets.Keys, e.slot);
      var t := Target(name, e.iqn, false, [], nas.created);
      Answer(Index(i), nas.(targets := nas.targets[i := t], created := nas.created + 1))
    case AddInitiator(i) =>
      // The index is not checked.
      if i in nas.targets then
        Answer(Ack, nas.(targets := nas.targets[i := nas.targets[i].(initiator := true)]))
      else
        Answer(Ack, nas)
    case AddLun(name, gib) =>
      // A name in use makes the NAS misbehave; the call cannot succeed then.
      if LunNameInUse(nas, name) then Answer(Failed, nas)
      else
        var l := FreeSlot(nas.luns.Keys, e.slot);
        Answer(Index(l), nas.(luns := nas.luns[l := Lun(name, gib, nas.created)], created := nas.created + 1))
    case LunStatus(l) => Answer(Status(e.status), nas)
    case AttachLun(l, i) =>
      if i in nas.targets && l in nas.luns then
        var t := nas.targets[i];
        var luns := if l in t.luns then t.luns else t.luns + [l];
        Answer(Ack, nas.(targets := nas.targets[i := t.(luns := luns)]))
      else
        Answer(Failed, nas)
    case RemoveTarget(i) =>
      // The LUNs of the target stay behind.
      if i in nas.targets then Answer(Ack, nas.(targets := nas.targets - {i})) else Answer(Failed, nas)
    case RemoveLun(l) =>
      // An index that does not exist is removed successfully.
      Answer(Ack, nas.(luns := nas.luns - {l},
                       targets := if e.unmaps then Unmapped(nas.targets, l) else nas.targets))
  }

  function Serve(nas: Nas, call: Call, e: Event): Answer {
    match e.fate
    case Done => Effect(nas, call, e)
    case NoEffect => Answer(Failed, nas)
    case EffectLost => Answer(Failed, Effect(nas, call, e).nas)
  }

  /** The event of a NAS that no longer answers. */
  const UNREACHABLE: Event := Event(NoEffect, 0, "", [], "", false)

  /** A script is what the NAS decides about a series of calls; once it is used up the NAS is unreachable. */
  function NextEvent(script: seq<Event>): Event {
    if script == [] then UNREACHABLE else script[0]
  }

  function Rest(script: seq<Event>): seq<Event> {
    if script == [] then [] else script[1..]
  }

  // ------------------------------------------- what the client code says of the calls

  /** A name can be given to several targets, but a LUN name in use cannot be given again. */
  lemma NamesOfNewObjects(nas: Nas, name: string, gib: int, e: Event)
    ensures var a := Serve(nas, AddTarget(name), e.(fate := Done));
            && a.reply.Index? && a.reply.index !in nas.targets && a.nas.luns == nas.luns
            && a.nas.targets.Keys == nas.targets.Keys + {a.reply.index}
            && a.nas.targets[a.reply.index].name == name && a.nas.targets[a.reply.index].luns == []
            && forall i | i in nas.targets :: a.nas.targets[i] == nas.targets[i]
    ensures var a := Serve(nas, AddLun(name, gib), e.(fate := Done));
            && a.nas.targets == nas.targets
            && (a.reply.Index? <==> forall l | l in nas.luns :: nas.luns[l].name != name)
            && (a.reply.Index? ==>
                  && a.reply.index !in nas.luns && a.nas.luns.Keys == nas.luns.Keys + {a.reply.index}
                  && a.nas.luns[a.reply.index].name == name && a.nas.luns[a.reply.index].gib == gib)
            && (!a.reply.Index? ==> a.reply == Failed && a.nas.luns == nas.luns)
  {
  }

  /** An initiator can be given to any index; attaching needs both objects and adds to the list of the target. */
  lemma ChangesOfTargets(nas: Nas, l: int, t: int, e: Event)
    ensures var a := Serve(nas, AddInitiator(t), e.(fate := Done));
            && a.reply == Ack && a.nas.luns == nas.luns && a.nas.targets.Keys == nas.targets.Keys
            && (t in nas.targets ==>
                  && a.nas.targets[t].initiator && a.nas.targets[t].name == nas.targets[t].name
                  && a.nas.targets[t].iqn == nas.targets[t].iqn && a.nas.targets[t].luns == nas.targets[t].luns)
            && forall i | i in nas.targets && i != t :: a.nas.targets[i] == nas.targets[i]
    ensures var a := Serve(nas, AttachLun(l, t), e.(fate := Done));
            && (a.reply == Ack <==> t in nas.targets && l in nas.luns) && a.nas.luns == nas.luns
            && a.nas.targets.Keys == nas.targets.Keys
            && (a.reply == Ack ==>
                  var luns := nas.targets[t].luns;
                  a.nas.targets[t].luns == if l in luns then luns else luns + [l])
            && (a.reply != Ack ==> a.reply == Failed && a.nas == nas)
            && forall i | i in nas.targets && i != t :: a.nas.targets[i] == nas.targets[i]
  {
  }

  /** Removing a target leaves its LUNs and fails when it is not there; removing a LUN never does. */
  lemma RemovalsOfObjects(nas: Nas, index: int, e: Event)
    ensures var a := Serve(nas, RemoveTarget(index), e.(fate := Done));
            && (a.reply == Ack <==> index in nas.targets) && (a.reply != Ack ==> a.reply == Failed)
            && a.nas.luns == nas.luns && index !in a.nas.targets
            && forall i | i in nas.targets && i != index :: i in a.nas.targets && a.nas.targets[i] == nas.targets[i]
    ensures var a := Serve(nas, RemoveLun(index), e.(fate := Done));
            && a.reply == Ack && index !in a.nas.luns && a.nas.targets.Keys == nas.targets.Keys
            && forall l | l in nas.luns && l != index :: l in a.nas.luns && a.nas.luns[l] == nas.luns[l]
  {
  }
}
