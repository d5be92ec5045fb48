/** The message handlers on the heap, each run to its end without interference and proved against
    its reaction in `Reactions`. What `ngap.Encoder` makes of a PDU is abstract; encoding succeeds. */
module Handlers {
  import Admission
  import AmfManager
  import opened ConnectProtocol
  import opened Dispatch
  import opened Entities
  import GnbManager
  import opened Ngap
  import opened NgapHeap
  import opened Options
  import opened Reactions
  import S = Service
  import opened UeTables

  twostate lemma OnlyCells(pdu: Pdu<IeRef>)
    ensures forall o :: o in CellsOf(Ies(pdu.payload)) ==> old(allocated(o)) && (o is RanCell || o is AmfCell)
  {
    var ies := Ies(pdu.payload);
    assert forall i :: 0 <= i < |ies| ==> old(allocated(ies[i]));
  }

  lemma SameRoute(pdu: Pdu<IeRef>)
    ensures GnbRouteOf(ViewPdu(pdu)) == GnbRouteOf(pdu) && AmfRouteOf(ViewPdu(pdu)) == AmfRouteOf(pdu)
  {
  }

  class Proxy {
    const service: S.Service
    const amfs: AmfManager.Manager
    const gnbs: GnbManager.Manager
    const admission: Admission.AdmissionManager
    const wire: Wire

    constructor (service: S.Service, amfs: AmfManager.Manager, gnbs: GnbManager.Manager,
                 admission: Admission.AdmissionManager, wire: Wire)
      ensures this.service == service && this.amfs == amfs && this.gnbs == gnbs
      ensures this.admission == admission && this.wire == wire
    {
      this.service, this.amfs, this.gnbs, this.admission, this.wire := service, amfs, gnbs, admission, wire;
    }

    /** Every AMF and gNB listed is one the service knows. */
    ghost predicate AmfsKnown()
      reads this, service, amfs
    {
      forall info :: info in amfs.amfList && amfs.amfList[info] != null ==> service.KnowsAmf(amfs.amfList[info])
    }

    ghost predicate GnbsKnown()
      reads this, service, gnbs
    {
      forall c :: c in gnbs.gnbList ==> gnbs.gnbList[c].id == c && service.KnowsGnb(gnbs.gnbList[c])
    }

    /** What a pick may answer in the manager's present state. */
    ghost predicate MayPick(pick: PickOutcome)
      reads amfs, amfs.amfList.Values
    {
      match pick
      case NoPick => amfs.amfList == map[]
      case PickDies => exists info :: info in amfs.amfList && amfs.amfList[info] == null
      case Picks(a) =>
        exists info :: info in amfs.amfList && amfs.amfList[info] != null && amfs.amfList[info].id == a &&
          forall other :: other in amfs.amfList ==>
            amfs.amfList[other] != null && |amfs.amfList[info].ueList| <= |amfs.amfList[other].ueList|
    }

    /** A pick is a listed AMF, and no listed one has a smaller load. */
    lemma LeastPicked(pick: PickOutcome, other: AmfInfo)
      requires MayPick(pick) && pick.Picks? && other in amfs.amfList
      ensures exists info :: info in amfs.amfList && amfs.amfList[info] != null && amfs.amfList[info].id == pick.amf &&
                amfs.amfList[other] != null && |amfs.amfList[info].ueList| <= |amfs.amfList[other].ueList|
    {
    }

    // ---------- newcomers ----------

    method Greet(conn: int) returns (gnb: Gnb)
      requires service.Valid() && conn !in service.gnbs
      modifies service`gnbs
      ensures service.Valid() && service.gnbs == old(service.gnbs)[conn := gnb]
      ensures fresh(gnb) && gnb.id == conn && gnb.ueList == map[] && gnb.open
    {
      gnb := new Gnb(conn);
      service.Untouched();
      service.MeetGnb(gnb);
    }

    method List(gnb: Gnb)
      requires service.Valid() && gnbs.Valid() && gnb.id !in gnbs.gnbList
      modifies gnbs, gnbs.runtime`active
      ensures service.Valid() && gnbs.Valid() && gnbs.gnbList == old(gnbs.gnbList)[gnb.id := gnb]
    {
      gnbs.Add(gnb);
      service.Untouched();
    }

    /** A new gNB connection, accepted or turned away: `conn` identifies it. */
    method OnGnBConnection(conn: int) returns (gnb: Gnb?)
      requires service.Valid() && gnbs.Valid() && GnbsKnown() && conn !in service.gnbs
      modifies service`gnbs, gnbs, gnbs.runtime`active
      ensures service.Valid() && gnbs.Valid() && GnbsKnown()
      ensures gnb == null <==> gnbs.runtime.draining
      ensures gnb == null ==> unchanged(gnbs) && service.gnbs == old(service.gnbs)
      ensures gnb != null ==>
                && fresh(gnb) && gnb.id == conn && gnb.ueList == map[] && gnb.open
                && gnbs.gnbList == old(gnbs.gnbList)[conn := gnb] && service.KnowsGnb(gnb)
    {
      if gnbs.runtime.draining {
        return null;
      }
      assert conn !in gnbs.gnbList;
      gnb := Greet(conn);
      List(gnb);
    }

    /** A discovered AMF, connected or not; `identity` is the new object's. */
    method ConnectAmf(info: AmfInfo, identity: int, dials: bool, setupSent: bool) returns (amf: Amf?)
      requires service.Valid() && AmfsKnown() && identity !in service.amfs
      modifies service`amfs, amfs
      ensures service.Valid() && AmfsKnown()
      ensures amf != null <==> info !in old(amfs.amfList) && dials && setupSent
      ensures amf != null ==>
                && fresh(amf) && amf.id == identity && amf.ueList == map[] && service.KnowsAmf(amf)
                && amfs.View() == Added(old(amfs.View()), info, amf)
      ensures info in old(amfs.amfList) || !dials ==> amfs.View() == old(amfs.View())
      ensures info !in old(amfs.amfList) && dials && !setupSent ==> amfs.View() == Withdrawn(old(amfs.View()), info)
    {
      amf := amfs.ConnectAmf(info, identity, dials, setupSent);
      service.Untouched();
      if amf != null {
        service.MeetAmf(amf);
      }
    }

    lemma Apart(pdu: Pdu<IeRef>)
      ensures service.Footprint() !! CellsOf(Ies(pdu.payload)) + {wire}
    {
      OnlyCells(pdu);
    }

    /** Rewrites the PDU in place and sends it; when modification reports an error, the original. */
    method SendModified(to: Node, pdu: Pdu<IeRef>, ran: int, amf: int) returns (status: Status)
      requires Separate(Ies(pdu.payload))
      modifies wire, CellsOf(Ies(pdu.payload))
      ensures var r := SendRewritten(to, old(ViewPdu(pdu)), ran, amf);
              Outcome(wire.frames, status) == OutcomeOf(r, old(wire.frames), wire.healthy, [])
      ensures status == if MeetsNil(old(ViewPdu(pdu))) then Panicked
                        else if to in wire.healthy then Forwarded else Errored
      ensures wire.frames == old(wire.frames) +
                if MeetsNil(old(ViewPdu(pdu))) then []
                else [Frame(to, Rewrite(old(ViewPdu(pdu)), ran, amf), to in wire.healthy)]
    {
      OnlyCells(pdu);
      var outcome := ModifyUeIdsInMessage(pdu, ran, amf);
      if outcome.Crashed? {
        return Panicked;
      }
      var ok := wire.SendNgap(to, ViewPdu(pdu));
      status := if ok then Forwarded else Errored;
    }

    /** The service's objects are not concerned. */
    method SendBeside(to: Node, pdu: Pdu<IeRef>, ran: int, amf: int) returns (status: Status)
      requires service.Valid() && Separate(Ies(pdu.payload))
      modifies wire, CellsOf(Ies(pdu.payload))
      ensures service.Valid() && service.tables == old(service.tables)
      ensures var r := SendRewritten(to, old(ViewPdu(pdu)), ran, amf);
              Outcome(wire.frames, status) == OutcomeOf(r, old(wire.frames), wire.healthy, [])
    {
      Apart(pdu);
      status := SendModified(to, pdu, ran, amf);
      service.Untouched();
    }

    method ReadIds(pdu: Pdu<IeRef>) returns (ids: Extraction)
      requires service.Valid()
      ensures service.Valid() && ViewPdu(pdu) == old(ViewPdu(pdu))
      ensures ids == Extract(old(ViewPdu(pdu)))
    {
      OnlyCells(pdu);
      ids := ExtractUeIdsFromMessage(pdu);
      service.Untouched();
    }

    // ---------- from a gNB ----------

    method RelayToAnyAmf(pdu: Pdu<IeRef>) returns (status: Status, ghost pick: PickOutcome)
      requires service.Valid()
      modifies wire
      ensures service.Valid()
      ensures old(MayPick(pick))
      ensures var r := RelayReaction(old(ViewPdu(pdu)), pick);
              Outcome(wire.frames, status) == OutcomeOf(r, old(wire.frames), wire.healthy, [])
    {
      var picked := amfs.Pick();
      match picked {
        case NoAmf => return Errored, NoPick;
        case Died => return Panicked, PickDies;
        case Picked(amf) =>
          pick := Picks(amf.id);
          OnlyCells(pdu);
          var ok := wire.SendNgap(AmfNode(amf.id), ViewPdu(pdu));
          service.Untouched();
          status := if ok then Forwarded else Errored;
      }
    }

    method NasRanKey(pdu: Pdu<IeRef>) returns (key: Option<int>)
      ensures key == if Extract(ViewPdu(pdu)).UeIds? then Some(NasKey(Extract(ViewPdu(pdu)))) else None
    {
      var ids := ExtractUeIdsFromMessage(pdu);
      if ids.ExtractCrash? {
        return None;
      }
      var ranUeId := ids.ran;
      if !ids.found {
        ranUeId := 1;
      }
      key := Some(ranUeId);
    }

    method AnswerSetup(gnb: Gnb) returns (status: Status)
      requires service.Valid()
      modifies wire
      ensures service.Valid()
      ensures var r := SendTo(GnbNode(gnb.id), SETUP_RESPONSE);
              Outcome(wire.frames, status) == OutcomeOf(r, old(wire.frames), wire.healthy, [])
    {
      var ok := wire.SendNgap(GnbNode(gnb.id), SETUP_RESPONSE);
      status := if ok then Forwarded else Errored;
      service.Untouched();
    }

    method HandleUplinkNas(gnb: Gnb, pdu: Pdu<IeRef>) returns (status: Status)
      requires service.Valid() && service.KnowsGnb(gnb) && Separate(Ies(pdu.payload)) && GnbRouteOf(pdu).UplinkNas?
      modifies wire, CellsOf(Ies(pdu.payload))
      ensures service.Valid()
      ensures var r := UplinkNasReaction(old(service.tables), gnb.id, old(ViewPdu(pdu)));
              Outcome(wire.frames, status) == OutcomeOf(r, old(wire.frames), wire.healthy, [])
    {
      OnlyCells(pdu);
      ghost var view, t := ViewPdu(pdu), service.tables;
      var key := NasRanKey(pdu);
      if key.None? {
        return Panicked;
      }
      service.Untouched();
      assert ViewPdu(pdu) == view && service.tables == t;
      var ue := service.FindUeCtxByRanUeId(gnb, key.value);
      service.FoundByRanUeId(gnb, key.value);
      if ue.None? {
        return Errored;
      }
      status := SendBeside(AmfNode(ue.value.amf.id), pdu, ue.value.lbId, ue.value.amfUeId);
    }

    /** To the AMF of the context under the key; without a context, to any AMF. */
    method SendBoundOrRelay(gnb: Gnb, pdu: Pdu<IeRef>, key: Option<int>)
      returns (status: Status, ghost pick: PickOutcome)
      requires service.Valid() && service.KnowsGnb(gnb) && Separate(Ies(pdu.payload))
      modifies wire, CellsOf(Ies(pdu.payload))
      ensures service.Valid()
      ensures (key.Some? ==> FindByRan(old(service.tables), gnb.id, key.value).None?) ==> old(MayPick(pick))
      ensures var ue := if key.Some? then FindByRan(old(service.tables), gnb.id, key.value) else None;
              var r := if ue.Some? && ue.value in old(service.tables).ues
                       then ToBoundAmf(old(service.tables), ue.value, old(ViewPdu(pdu)))
                       else RelayReaction(old(ViewPdu(pdu)), pick);
              Outcome(wire.frames, status) == OutcomeOf(r, old(wire.frames), wire.healthy, [])
    {
      var ue := None;
      if key.Some? {
        ue := service.FindUeCtxByRanUeId(gnb, key.value);
        service.FoundByRanUeId(gnb, key.value);
      }
      if ue.None? {
        status, pick := RelayToAnyAmf(pdu);
      } else {
        pick := NoPick;
        status := SendBeside(AmfNode(ue.value.amf.id), pdu, ue.value.lbId, ue.value.amfUeId);
      }
    }

    method ForwardToAmf(gnb: Gnb, pdu: Pdu<IeRef>) returns (status: Status, ghost pick: PickOutcome)
      requires service.Valid() && service.KnowsGnb(gnb) && Separate(Ies(pdu.payload))
      modifies wire, CellsOf(Ies(pdu.payload))
      ensures service.Valid()
      ensures old(Extract(ViewPdu(pdu)).UeIds? && UplinkUe(service.tables, gnb.id, ViewPdu(pdu)).None?) ==>
                old(MayPick(pick))
      ensures var r := ForwardToAmfReaction(old(service.tables), gnb.id, old(ViewPdu(pdu)), pick);
              Outcome(wire.frames, status) == OutcomeOf(r, old(wire.frames), wire.healthy, [])
    {
      var ids := ReadIds(pdu);
      if ids.ExtractCrash? {
        return Panicked, NoPick;
      }
      status, pick := SendBoundOrRelay(gnb, pdu, if ids.found then Some(ids.ran) else None);
    }

    /** Picks an AMF and creates the context with it. */
    method Bind(gnb: Gnb, ranUeId: int) returns (ue: Option<Context>, status: Status, ghost pick: PickOutcome)
      requires service.Valid() && AmfsKnown() && service.KnowsGnb(gnb)
      modifies service`lbUeId, service`ueList, service`tables, gnb
      ensures service.Valid() && old(MayPick(pick))
      ensures ue.Some? <==> pick.Picks?
      ensures service.tables == if pick.Picks? then Create(old(service.tables), pick.amf, gnb.id, ranUeId)
                                else old(service.tables)
      ensures ue.Some? ==>
                ue.value.amf.id == pick.amf && ue.value.lbId == old(service.tables).next && ue.value.amfUeId == 0
      ensures ue.None? ==> status == if pick.PickDies? then Panicked else Errored
    {
      var picked := amfs.Pick();
      match picked {
        case NoAmf => return None, Errored, NoPick;
        case Died => return None, Panicked, PickDies;
        case Picked(amf) =>
          var created := service.CreateUeContext(amf, gnb, ranUeId);
          return Some(created), Forwarded, Picks(amf.id);
      }
    }

    method BindAndSend(gnb: Gnb, pdu: Pdu<IeRef>, ranUeId: int) returns (status: Status, ghost pick: PickOutcome)
      requires service.Valid() && AmfsKnown() && service.KnowsGnb(gnb) && Separate(Ies(pdu.payload))
      modifies service`lbUeId, service`ueList, service`tables, gnb, wire, CellsOf(Ies(pdu.payload))
      ensures service.Valid() && old(MayPick(pick))
      ensures service.tables == if pick.Picks? then Create(old(service.tables), pick.amf, gnb.id, ranUeId)
                                else old(service.tables)
      ensures var r := StartReaction(old(service.tables), old(ViewPdu(pdu)), pick);
              Outcome(wire.frames, status) == OutcomeOf(r, old(wire.frames), wire.healthy, [])
    {
      OnlyCells(pdu);
      Apart(pdu);
      ghost var view := ViewPdu(pdu);
      var ue;
      ue, status, pick := Bind(gnb, ranUeId);
      assert ViewPdu(pdu) == view;
      if ue.Some? {
        ghost var t := service.tables;
        status := SendBeside(AmfNode(ue.value.amf.id), pdu, ue.value.lbId, ue.value.amfUeId);
        assert service.tables == t;
      }
    }

    method StartUe(gnb: Gnb, pdu: Pdu<IeRef>) returns (status: Status, ghost pick: PickOutcome)
      requires service.Valid() && AmfsKnown() && service.KnowsGnb(gnb) && Separate(Ies(pdu.payload))
      modifies service`lbUeId, service`ueList, service`tables, gnb, wire, CellsOf(Ies(pdu.payload))
      ensures service.Valid()
      ensures old(Extract(ViewPdu(pdu)).UeIds?) ==> old(MayPick(pick))
      ensures service.tables == old(InitialTables(service.tables, gnb.id, ViewPdu(pdu), pick))
      ensures var r := old(InitialReaction(service.tables, ViewPdu(pdu), pick));
              Outcome(wire.frames, status) == OutcomeOf(r, old(wire.frames), wire.healthy, [])
    {
      OnlyCells(pdu);
      ghost var view, t := ViewPdu(pdu), service.tables;
      var key := NasRanKey(pdu);
      if key.None? {
        return Panicked, NoPick;
      }
      assert ViewPdu(pdu) == view && service.tables == t;
      status, pick := BindAndSend(gnb, pdu, key.value);
    }

    method PassGate(pdu: Pdu<IeRef>, grant: Option<nat>) returns (passed: bool)
      requires service.Valid() && admission.Valid()
      modifies admission
      ensures service.Valid() && admission.Valid() && ViewPdu(pdu) == old(ViewPdu(pdu))
      ensures service.tables == old(service.tables)
      ensures forall pick :: MayPick(pick) ==> old(MayPick(pick))
      ensures passed <==> old(!admission.policy.enabled || grant.Some?)
      ensures admission.admitted == old(admission.admitted) + if passed then 1 else 0
    {
      OnlyCells(pdu);
      passed := admission.Wait(grant);
      service.Untouched();
    }

    method HandleInitialUe(gnb: Gnb, pdu: Pdu<IeRef>, grant: Option<nat>)
      returns (status: Status, ghost admitted: bool, ghost pick: PickOutcome)
      requires service.Valid() && AmfsKnown() && admission.Valid()
      requires service.KnowsGnb(gnb) && Separate(Ies(pdu.payload))
      modifies admission, service`lbUeId, service`ueList, service`tables, gnb, wire, CellsOf(Ies(pdu.payload))
      ensures service.Valid() && admission.Valid()
      ensures admitted <==> old(!admission.policy.enabled || grant.Some?)
      ensures admission.admitted == old(admission.admitted) + if admitted then 1 else 0
      ensures admitted && old(Extract(ViewPdu(pdu)).UeIds?) ==> old(MayPick(pick))
      ensures service.tables == if admitted then old(InitialTables(service.tables, gnb.id, ViewPdu(pdu), pick))
                                else old(service.tables)
      ensures var r := if admitted then old(InitialReaction(service.tables, ViewPdu(pdu), pick)) else Fails;
              Outcome(wire.frames, status) == OutcomeOf(r, old(wire.frames), wire.healthy, [])
    {
      OnlyCells(pdu);
      pick := NoPick;
      var passed := PassGate(pdu, grant);
      admitted := passed;
      if !passed {
        status := Errored;
        return;
      }
      status, pick := StartUe(gnb, pdu);
    }

    /** Everything but InitialUEMessage: neither the gate nor the tables are concerned. */
    method DispatchKnown(gnb: Gnb, pdu: Pdu<IeRef>, ghost admitted: bool)
      returns (status: Status, ghost pick: PickOutcome)
      requires service.Valid() && service.KnowsGnb(gnb) && Separate(Ies(pdu.payload)) && !GnbRouteOf(pdu).Initial?
      modifies wire, CellsOf(Ies(pdu.payload))
      ensures service.Valid() && service.tables == old(service.tables)
      ensures old(Picking(service.tables, gnb.id, ViewPdu(pdu), admitted)) ==> old(MayPick(pick))
      ensures var r := old(GnbReaction(service.tables, gnb.id, ViewPdu(pdu), admitted, pick));
              Outcome(wire.frames, status) == OutcomeOf(r, old(wire.frames), wire.healthy, [])
    {
      OnlyCells(pdu);
      SameRoute(pdu);
      GnbSwitchForwards(pdu);
      ghost var t := service.tables;
      pick := NoPick;
      var route := SwitchFromGnb(pdu).GetOr(GnbRoute.ForwardToAmf);
      if route.GnbRejects? {
        status := Errored;
      } else if route.SetupReply? {
        status := AnswerSetup(gnb);
      } else if route.UplinkNas? {
        status := HandleUplinkNas(gnb, pdu);
      } else {
        status, pick := ForwardToAmf(gnb, pdu);
      }
      assert service.tables == t;
    }

    method DispatchFromGnb(gnb: Gnb, pdu: Pdu<IeRef>, grant: Option<nat>)
      returns (status: Status, ghost admitted: bool, ghost pick: PickOutcome)
      requires service.Valid() && AmfsKnown() && admission.Valid()
      requires service.KnowsGnb(gnb) && Separate(Ies(pdu.payload))
      modifies admission, service`lbUeId, service`ueList, service`tables, gnb, wire, CellsOf(Ies(pdu.payload))
      ensures service.Valid() && admission.Valid()
      ensures admitted <==> old(!admission.policy.enabled || grant.Some?)
      ensures admission.admitted ==
              old(admission.admitted) + if IsInitiating(pdu, InitialUEMessage) && admitted then 1 else 0
      ensures old(Picking(service.tables, gnb.id, ViewPdu(pdu), admitted)) ==> old(MayPick(pick))
      ensures service.tables == old(GnbTables(service.tables, gnb.id, ViewPdu(pdu), admitted, pick))
      ensures var r := old(GnbReaction(service.tables, gnb.id, ViewPdu(pdu), admitted, pick));
              Outcome(wire.frames, status) == OutcomeOf(r, old(wire.frames), wire.healthy, [])
    {
      OnlyCells(pdu);
      SameRoute(pdu);
      GnbSwitchForwards(pdu);
      if SwitchFromGnb(pdu) == Some(GnbRoute.Initial) {
        status, admitted, pick := HandleInitialUe(gnb, pdu, grant);
      } else {
        admitted := !admission.policy.enabled || grant.Some?;
        ghost var before := admission.admitted;
        status, pick := DispatchKnown(gnb, pdu, admitted);
        assert admission.admitted == before;
      }
    }

    /** One send and no more, or none; NG Setup is answered with a successful outcome of that procedure. The
        gate is asked once for an InitialUEMessage, and for nothing else. */
    method HandleFromGnb(gnb: Gnb, pdu: Pdu<IeRef>, grant: Option<nat>)
      returns (status: Status, ghost admitted: bool, ghost pick: PickOutcome)
      requires service.Valid() && AmfsKnown() && admission.Valid()
      requires service.KnowsGnb(gnb) && Separate(Ies(pdu.payload))
      modifies admission, service`lbUeId, service`ueList, service`tables, gnb, wire, CellsOf(Ies(pdu.payload))
      ensures service.Valid() && admission.Valid()
      ensures admitted <==> old(!admission.policy.enabled || grant.Some?)
      ensures admission.admitted ==
              old(admission.admitted) + if IsInitiating(pdu, InitialUEMessage) && admitted then 1 else 0
      ensures old(Picking(service.tables, gnb.id, ViewPdu(pdu), admitted)) ==> old(MayPick(pick))
      ensures service.tables == old(GnbTables(service.tables, gnb.id, ViewPdu(pdu), admitted, pick))
      ensures var r := old(GnbReaction(service.tables, gnb.id, ViewPdu(pdu), admitted, pick));
              Outcome(wire.frames, status) == OutcomeOf(r, old(wire.frames), wire.healthy, [])
      ensures match old(GnbReaction(service.tables, gnb.id, ViewPdu(pdu), admitted, pick))
              case SendTo(to, out) =>
                && wire.frames == old(wire.frames) + [Frame(to, out, to in wire.healthy)]
                && status == (if to in wire.healthy then Forwarded else Errored)
                && (IsInitiating(pdu, NGSetup) ==>
                      && to == GnbNode(gnb.id) && out.present.PresentSuccessful?
                      && out.payload.Some? && out.payload.value.procedure == pdu.payload.value.procedure)
              case Fails => wire.frames == old(wire.frames) && status == Errored && !IsInitiating(pdu, NGSetup)
              case Dies => wire.frames == old(wire.frames) && status == Panicked && !IsInitiating(pdu, NGSetup)
              case Broadcast(_) => false
    {
      ghost var view, t := ViewPdu(pdu), service.tables;
      status, admitted, pick := DispatchFromGnb(gnb, pdu, grant);
      GnbSends(t, gnb.id, view, admitted, pick, old(wire.frames), wire.healthy);
    }

    // ---------- from an AMF ----------

    method SetAndAdd(amf: Amf, ue: Context, id: int)
      requires service.Valid() && service.KnowsAmf(amf) && service.Stored(ue) && ue.lbId in service.tables.ues
      modifies service`tables, ue, amf
      ensures service.Valid() && service.Stored(ue)
      ensures service.tables == AddToAmf(SetAmfUeId(old(service.tables), ue.lbId, id), amf.id, ue.lbId)
    {
      ue.SetAmfUeId(id);
      amf.Add(ue);
      service.tables := AddToAmf(SetAmfUeId(service.tables, ue.lbId, id), amf.id, ue.lbId);
      service.FiledValid(ue.lbId, amf.id, id);
    }

    /** Files the context named by LB ID under the AMF ID. */
    method File(amf: Amf, lb: int, id: int) returns (ue: Option<Context>)
      requires service.Valid() && service.KnowsAmf(amf)
      modifies service`tables, service.ueList.Values, amf
      ensures service.Valid()
      ensures ue.Some? <==> lb in old(service.tables).ues
      ensures ue.Some? ==> service.Stored(ue.value) && ue.value.lbId == lb
      ensures service.tables == if lb in old(service.tables).ues
                                then AddToAmf(SetAmfUeId(old(service.tables), lb, id), amf.id, lb)
                                else old(service.tables)
    {
      ue := service.FindUeCtx(lb);
      service.FoundByLbId(lb);
      if ue.Some? {
        SetAndAdd(amf, ue.value, id);
      }
    }

    method FindTarget(ue: Context) returns (target: Option<int>)
      requires service.Valid() && GnbsKnown() && service.Stored(ue)
      ensures ue.lbId in service.tables.ues && service.tables.ues[ue.lbId] == ue.View()
      ensures Finds(service.tables, gnbs.gnbList.Keys, ue.lbId, target)
    {
      var found := gnbs.FindGnBByUeContext(ue);
      if found.None? {
        target := None;
        forall g | g in gnbs.gnbList ensures !HasUeContext(service.tables, g, ue.lbId) {
          assert service.GnbTied(g);
        }
      } else {
        target := Some(found.value.id);
        assert service.GnbTied(found.value.id);
      }
    }

    /** One attempted copy per listed gNB. */
    method SendCopies(list: map<int, Gnb>, encoded: Pdu<Ie>) returns (successCount: nat, ghost order: seq<int>)
      requires forall c :: c in list ==> list[c].id == c
      modifies wire
      ensures Enumerates(order, list.Keys)
      ensures wire.frames == old(wire.frames) + CopiesTo(order, encoded, wire.healthy)
      ensures successCount > 0 <==> exists i | 0 <= i < |order| :: GnbNode(order[i]) in wire.healthy
    {
      order, successCount := [], 0;
      var rest := list.Keys;
      while exists c :: c in rest
        invariant rest <= list.Keys
        invariant Enumerates(order, list.Keys - rest)
        invariant wire.frames == old(wire.frames) + CopiesTo(order, encoded, wire.healthy)
        invariant successCount > 0 <==> exists i | 0 <= i < |order| :: GnbNode(order[i]) in wire.healthy
        decreases rest
      {
        var c :| c in rest;
        rest := rest - {c};
        var ok := wire.SendNgap(GnbNode(list[c].id), encoded);
        if ok {
          successCount := successCount + 1;
        }
        ghost var longer := order + [c];
        assert longer[|order|] == c && forall i | 0 <= i < |order| :: longer[i] == order[i];
        order := longer;
      }
    }

    method BroadcastToAllGnBs(pdu: Pdu<IeRef>) returns (status: Status, ghost order: seq<int>)
      requires service.Valid() && GnbsKnown()
      modifies wire
      ensures service.Valid() && Enumerates(order, gnbs.gnbList.Keys)
      ensures var r := Broadcast(old(ViewPdu(pdu)));
              Outcome(wire.frames, status) == OutcomeOf(r, old(wire.frames), wire.healthy, order)
      ensures status == if exists g :: g in gnbs.gnbList && GnbNode(g) in wire.healthy then Forwarded else Errored
      ensures old(wire.frames) <= wire.frames && |wire.frames| == |old(wire.frames)| + |gnbs.gnbList|
      ensures forall g :: g in gnbs.gnbList ==>
                multiset(wire.frames[|old(wire.frames)|..])[
                  Frame(GnbNode(g), old(ViewPdu(pdu)), GnbNode(g) in wire.healthy)] == 1
    {
      ghost var view, members := ViewPdu(pdu), gnbs.gnbList.Keys;
      if |gnbs.gnbList| == 0 {
        assert members == {};
        return Errored, [];
      }
      var successCount;
      successCount, order := SendCopies(gnbs.gnbList, ViewPdu(pdu));
      service.Untouched();
      BroadcastSends(view, old(wire.frames), wire.healthy, order, members);
      status := if successCount == 0 then Errored else Forwarded;
    }

    /** To the gNB found for the context; nothing is sent when there is none. */
    method SendToTarget(ue: Context, pdu: Pdu<IeRef>) returns (status: Status, target: Option<int>)
      requires service.Valid() && GnbsKnown() && service.Stored(ue) && Separate(Ies(pdu.payload))
      modifies wire, CellsOf(Ies(pdu.payload))
      ensures service.Valid() && service.tables == old(service.tables) && ue.lbId in service.tables.ues
      ensures Finds(service.tables, gnbs.gnbList.Keys, ue.lbId, target)
      ensures target.None? ==> ViewPdu(pdu) == old(ViewPdu(pdu))
      ensures var r := if target.None? then Fails
                       else ToGnb(old(service.tables), ue.lbId, target.value, old(ViewPdu(pdu)));
              Outcome(wire.frames, status) == OutcomeOf(r, old(wire.frames), wire.healthy, [])
    {
      OnlyCells(pdu);
      ghost var view, t := ViewPdu(pdu), service.tables;
      target := FindTarget(ue);
      service.Untouched();
      assert ViewPdu(pdu) == view && service.tables == t;
      if target.None? {
        status := Errored;
        return;
      }
      status := SendBeside(GnbNode(target.value), pdu, ue.gnbUeId, ue.lbId);
    }

    /** The message is not concerned. */
    method FileBeside(amf: Amf, pdu: Pdu<IeRef>, lb: int, id: int) returns (ue: Option<Context>)
      requires service.Valid() && GnbsKnown() && service.KnowsAmf(amf)
      modifies service`tables, service.ueList.Values, amf
      ensures service.Valid() && GnbsKnown() && ViewPdu(pdu) == old(ViewPdu(pdu))
      ensures ue.Some? <==> lb in old(service.tables).ues
      ensures ue.Some? ==> service.Stored(ue.value) && ue.value.lbId == lb
      ensures service.tables == if lb in old(service.tables).ues
                                then AddToAmf(SetAmfUeId(old(service.tables), lb, id), amf.id, lb)
                                else old(service.tables)
    {
      OnlyCells(pdu);
      Apart(pdu);
      ue := File(amf, lb, id);
    }

    method FileAndSend(amf: Amf, pdu: Pdu<IeRef>, lb: int, id: int) returns (status: Status, ghost target: Option<int>)
      requires service.Valid() && GnbsKnown() && service.KnowsAmf(amf) && Separate(Ies(pdu.payload))
      modifies service`tables, service.ueList.Values, amf, wire, CellsOf(Ies(pdu.payload))
      ensures service.Valid()
      ensures service.tables == if lb in old(service.tables).ues
                                then AddToAmf(SetAmfUeId(old(service.tables), lb, id), amf.id, lb)
                                else old(service.tables)
      ensures lb in old(service.tables).ues ==> Finds(service.tables, gnbs.gnbList.Keys, lb, target)
      ensures var r := if lb in old(service.tables).ues && target.Some?
                       then ToGnb(old(service.tables), lb, target.value, old(ViewPdu(pdu))) else Fails;
              Outcome(wire.frames, status) == OutcomeOf(r, old(wire.frames), wire.healthy, [])
    {
      var ue := FileBeside(amf, pdu, lb, id);
      if ue.None? {
        return Errored, None;
      }
      status, target := SendToTarget(ue.value, pdu);
    }

    method HandleDownlinkNas(amf: Amf, pdu: Pdu<IeRef>) returns (status: Status, ghost target: Option<int>)
      requires service.Valid() && GnbsKnown() && service.KnowsAmf(amf) && Separate(Ies(pdu.payload))
      modifies service`tables, service.ueList.Values, amf, wire, CellsOf(Ies(pdu.payload))
      ensures service.Valid()
      ensures service.tables == DownlinkNasTables(old(service.tables), amf.id, old(ViewPdu(pdu)))
      ensures var lb := DownlinkUe(old(service.tables), old(ViewPdu(pdu)));
              lb.Some? ==> Finds(service.tables, gnbs.gnbList.Keys, lb.value, target)
      ensures var r := DownlinkNasReaction(old(service.tables), old(ViewPdu(pdu)), target);
              Outcome(wire.frames, status) == OutcomeOf(r, old(wire.frames), wire.healthy, [])
    {
      OnlyCells(pdu);
      Apart(pdu);
      ghost var view, t := ViewPdu(pdu), service.tables;
      var ids := ExtractUeIdsFromMessage(pdu);
      service.Untouched();
      assert ViewPdu(pdu) == view && service.tables == t;
      if ids.ExtractCrash? {
        status, target := Panicked, None;
      } else if !ids.found {
        status, target := Errored, None;
      } else {
        status, target := FileAndSend(amf, pdu, ids.ran, ids.amf);
      }
    }

    function FindByAmfUeId(amf: Amf, id: int): Option<Context>
      reads amf
    {
      if id in amf.ueList then Some(amf.ueList[id]) else None
    }

    lemma FoundByAmfUeId(amf: Amf, id: int)
      requires service.Valid() && service.KnowsAmf(amf)
      ensures var ue := FindByAmfUeId(amf, id);
              && FindByAmfId(service.tables, amf.id, id) == (if ue.Some? then Some(ue.value.lbId) else None)
              && (ue.Some? ==> service.Stored(ue.value) && ue.value.lbId in service.tables.ues)
    {
      assert service.AmfTied(amf.id);
    }

    /** Sends to the gNB of the context filed under the AMF ID; `done` when there are both. */
    method SendToOwner(amf: Amf, pdu: Pdu<IeRef>, id: int)
      returns (done: bool, status: Status, ghost target: Option<int>)
      requires service.Valid() && GnbsKnown() && service.KnowsAmf(amf) && Separate(Ies(pdu.payload))
      modifies wire, CellsOf(Ies(pdu.payload))
      ensures service.Valid()
      ensures var lb := FindByAmfId(old(service.tables), amf.id, id);
              && (lb.Some? ==> lb.value in old(service.tables).ues)
              && (lb.Some? ==> Finds(old(service.tables), gnbs.gnbList.Keys, lb.value, target))
              && (done <==> lb.Some? && target.Some?)
              && (done ==>
                    var r := ToGnb(old(service.tables), lb.value, target.value, old(ViewPdu(pdu)));
                    Outcome(wire.frames, status) == OutcomeOf(r, old(wire.frames), wire.healthy, []))
      ensures !done ==> wire.frames == old(wire.frames) && ViewPdu(pdu) == old(ViewPdu(pdu))
    {
      var ue := FindByAmfUeId(amf, id);
      FoundByAmfUeId(amf, id);
      if ue.None? {
        return false, Errored, None;
      }
      var found;
      status, found := SendToTarget(ue.value, pdu);
      return found.Some?, status, found;
    }

    method ForwardFound(amf: Amf, pdu: Pdu<IeRef>, id: int)
      returns (status: Status, ghost target: Option<int>, ghost order: seq<int>)
      requires service.Valid() && GnbsKnown() && service.KnowsAmf(amf) && Separate(Ies(pdu.payload))
      modifies wire, CellsOf(Ies(pdu.payload))
      ensures service.Valid()
      ensures var lb := FindByAmfId(old(service.tables), amf.id, id);
              lb.Some? ==> Finds(old(service.tables), gnbs.gnbList.Keys, lb.value, target)
      ensures var lb := FindByAmfId(old(service.tables), amf.id, id);
              var r := ToOwnerOrAll(old(service.tables), lb, old(ViewPdu(pdu)), target);
              && (r.Broadcast? ==> Enumerates(order, gnbs.gnbList.Keys))
              && Outcome(wire.frames, status) == OutcomeOf(r, old(wire.frames), wire.healthy, order)
    {
      var done;
      done, status, target := SendToOwner(amf, pdu, id);
      order := [];
      if !done {
        status, order := BroadcastToAllGnBs(pdu);
      }
    }

    method ForwardOrBroadcast(amf: Amf, pdu: Pdu<IeRef>)
      returns (status: Status, ghost target: Option<int>, ghost order: seq<int>)
      requires service.Valid() && GnbsKnown() && service.KnowsAmf(amf) && Separate(Ies(pdu.payload))
      modifies wire, CellsOf(Ies(pdu.payload))
      ensures service.Valid()
      ensures var lb := UeOfAmfId(old(service.tables), amf.id, old(ViewPdu(pdu)));
              lb.Some? ==> Finds(old(service.tables), gnbs.gnbList.Keys, lb.value, target)
      ensures var r := ForwardToGnbReaction(old(service.tables), amf.id, old(ViewPdu(pdu)), target);
              && (r.Broadcast? ==> Enumerates(order, gnbs.gnbList.Keys))
              && Outcome(wire.frames, status) == OutcomeOf(r, old(wire.frames), wire.healthy, order)
    {
      OnlyCells(pdu);
      ghost var view, t := ViewPdu(pdu), service.tables;
      var ids := ExtractUeIdsFromMessage(pdu);
      service.Untouched();
      assert ViewPdu(pdu) == view && service.tables == t;
      target, order := None, [];
      if ids.ExtractCrash? {
        status := Panicked;
      } else if ids.found {
        status, target, order := ForwardFound(amf, pdu, ids.amf);
      } else {
        status, order := BroadcastToAllGnBs(pdu);
      }
    }

    /** A broadcast succeeds when one gNB listed can be reached, a targeted send when its gNB can. */
    method ForwardToGnb(amf: Amf, pdu: Pdu<IeRef>)
      returns (status: Status, ghost target: Option<int>, ghost order: seq<int>)
      requires service.Valid() && GnbsKnown() && service.KnowsAmf(amf) && Separate(Ies(pdu.payload))
      modifies wire, CellsOf(Ies(pdu.payload))
      ensures service.Valid() && service.tables == old(service.tables)
      ensures var lb := UeOfAmfId(old(service.tables), amf.id, old(ViewPdu(pdu)));
              lb.Some? ==> Finds(old(service.tables), gnbs.gnbList.Keys, lb.value, target)
      ensures var r := ForwardToGnbReaction(old(service.tables), amf.id, old(ViewPdu(pdu)), target);
              && (r.Broadcast? ==> Enumerates(order, gnbs.gnbList.Keys))
              && Outcome(wire.frames, status) == OutcomeOf(r, old(wire.frames), wire.healthy, order)
              && (r.Broadcast? ==>
                    status == if exists g :: g in gnbs.gnbList && GnbNode(g) in wire.healthy then Forwarded
                              else Errored)
              && (r.SendTo? ==> status == if r.to in wire.healthy then Forwarded else Errored)
    {
      ghost var view, t, list := ViewPdu(pdu), service.tables, gnbs.gnbList.Keys;
      OnlyCells(pdu);
      status, target, order := ForwardOrBroadcast(amf, pdu);
      assert gnbs.gnbList.Keys == list;
      ForwardSends(t, amf.id, view, target, old(wire.frames), wire.healthy, order, list);
    }

    /** An NG Setup response registers the AMF before it is forwarded like any other message. */
    method RegisterOnSetup(amf: Amf, pdu: Pdu<IeRef>)
      requires service.Valid()
      modifies amfs
      ensures service.Valid() && ViewPdu(pdu) == old(ViewPdu(pdu))
      ensures if RegistersAmf(pdu) then amfs.View() == Added(old(amfs.View()), amf.info, amf) else unchanged(amfs)
    {
      OnlyCells(pdu);
      if RegistersAmf(pdu) {
        amfs.Add(amf);
        service.Untouched();
      }
    }

    method DispatchFromAmf(amf: Amf, pdu: Pdu<IeRef>)
      returns (status: Status, ghost target: Option<int>, ghost order: seq<int>)
      requires service.Valid() && GnbsKnown() && service.KnowsAmf(amf) && Separate(Ies(pdu.payload))
      modifies service`tables, service.ueList.Values, amf, wire, CellsOf(Ies(pdu.payload))
      ensures service.Valid()
      ensures service.tables == AmfTables(old(service.tables), amf.id, old(ViewPdu(pdu)))
      ensures var lb := Sought(old(service.tables), amf.id, old(ViewPdu(pdu)));
              lb.Some? ==> Finds(service.tables, gnbs.gnbList.Keys, lb.value, target)
      ensures var r := AmfReaction(old(service.tables), amf.id, old(ViewPdu(pdu)), target);
              && (r.Broadcast? ==> Enumerates(order, gnbs.gnbList.Keys))
              && Outcome(wire.frames, status) == OutcomeOf(r, old(wire.frames), wire.healthy, order)
    {
      OnlyCells(pdu);
      SameRoute(pdu);
      AmfSwitchForwards(pdu);
      ghost var view, t := ViewPdu(pdu), service.tables;
      target, order := None, [];
      var route := SwitchFromAmf(pdu).GetOr(AmfRoute.ForwardToGnb);
      assert route == AmfRouteOf(view);
      if route.AmfRejects? {
        return Errored, None, [];
      }
      if route.DownlinkNas? {
        status, target := HandleDownlinkNas(amf, pdu);
        assert AmfReaction(t, amf.id, view, target) == DownlinkNasReaction(t, view, target);
        return;
      }
      status, target, order := ForwardToGnb(amf, pdu);
      assert AmfReaction(t, amf.id, view, target) == ForwardToGnbReaction(t, amf.id, view, target);
    }

    /** One send and no more, one copy to each gNB listed, or none. */
    method AnswerAmf(amf: Amf, pdu: Pdu<IeRef>)
      returns (status: Status, ghost target: Option<int>, ghost order: seq<int>)
      requires service.Valid() && GnbsKnown() && service.KnowsAmf(amf) && Separate(Ies(pdu.payload))
      modifies service`tables, service.ueList.Values, amf, wire, CellsOf(Ies(pdu.payload))
      ensures service.Valid()
      ensures unchanged(amfs)
      ensures service.tables == AmfTables(old(service.tables), amf.id, old(ViewPdu(pdu)))
      ensures var lb := Sought(old(service.tables), amf.id, old(ViewPdu(pdu)));
              lb.Some? ==> Finds(service.tables, gnbs.gnbList.Keys, lb.value, target)
      ensures var r := AmfReaction(old(service.tables), amf.id, old(ViewPdu(pdu)), target);
              && (r.Broadcast? ==> Enumerates(order, gnbs.gnbList.Keys))
              && Outcome(wire.frames, status) == OutcomeOf(r, old(wire.frames), wire.healthy, order)
      ensures var r := AmfReaction(old(service.tables), amf.id, old(ViewPdu(pdu)), target);
              Shows(r, old(wire.frames), wire.frames, wire.healthy, gnbs.gnbList.Keys, status)
    {
      OnlyCells(pdu);
      ghost var view, t, list := ViewPdu(pdu), service.tables, gnbs.gnbList.Keys;
      status, target, order := DispatchFromAmf(amf, pdu);
      assert unchanged(amfs);
      assert gnbs.gnbList.Keys == list;
      AmfSends(t, amf.id, view, target, old(wire.frames), wire.healthy, order, list);
    }

    /** An NG Setup response registers the AMF as well. */
    method HandleFromAmf(amf: Amf, pdu: Pdu<IeRef>)
      returns (status: Status, ghost target: Option<int>, ghost order: seq<int>)
      requires service.Valid() && GnbsKnown() && service.KnowsAmf(amf) && Separate(Ies(pdu.payload))
      modifies amfs, service`tables, service.ueList.Values, amf, wire, CellsOf(Ies(pdu.payload))
      ensures service.Valid()
      ensures if pdu.present.PresentSuccessful? && pdu.payload.Some? && pdu.payload.value.procedure == NGSetup
              then amfs.View() == Added(old(amfs.View()), amf.info, amf) else unchanged(amfs)
      ensures service.tables == AmfTables(old(service.tables), amf.id, old(ViewPdu(pdu)))
      ensures var lb := Sought(old(service.tables), amf.id, old(ViewPdu(pdu)));
              lb.Some? ==> Finds(service.tables, gnbs.gnbList.Keys, lb.value, target)
      ensures var r := AmfReaction(old(service.tables), amf.id, old(ViewPdu(pdu)), target);
              && (r.Broadcast? ==> Enumerates(order, gnbs.gnbList.Keys))
              && Outcome(wire.frames, status) == OutcomeOf(r, old(wire.frames), wire.healthy, order)
      ensures match AmfReaction(old(service.tables), amf.id, old(ViewPdu(pdu)), target)
              case SendTo(to, out) =>
                && wire.frames == old(wire.frames) + [Frame(to, out, to in wire.healthy)]
                && status == if to in wire.healthy then Forwarded else Errored
              case Broadcast(out) =>
                && OneCopyEach(old(wire.frames), wire.frames, out, wire.healthy, gnbs.gnbList.Keys)
                && status == if exists g :: g in gnbs.gnbList && GnbNode(g) in wire.healthy then Forwarded else Errored
              case Fails => wire.frames == old(wire.frames) && status == Errored
              case Dies => wire.frames == old(wire.frames) && status == Panicked
    {
      OnlyCells(pdu);
      ghost var view, t := ViewPdu(pdu), service.tables;
      RegisterOnSetup(amf, pdu);
      assert ViewPdu(pdu) == view && service.tables == t && wire.frames == old(wire.frames);
      status, target, order := AnswerAmf(amf, pdu);
    }
  }
}
