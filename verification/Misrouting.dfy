/** Where a message does not reach the UE that its IEs name, and exactly when it does. */
module Misrouting {
  import opened Dispatch
  import opened Naming
  import opened Ngap
  import opened Options
  import opened Reactions
  import opened UeTables

  function RanIe(id: int): Ie {
    Ie(RanUeNgapId, Some(id), None, None, None, [])
  }

  function AmfIe(id: int): Ie {
    Ie(AmfUeNgapId, None, Some(id), None, None, [])
  }

  lemma OneIe(pdu: Pdu<Ie>, ie: Ie)
    requires pdu.Payload().Some? && pdu.Payload().value.body == Some([ie])
    ensures OwnId(pdu, RanField) == if ie.id.RanUeNgapId? then ie.ran else None
    ensures OwnId(pdu, AmfField) == if ie.id.AmfUeNgapId? then ie.amf else None
    ensures ChoiceId(pdu, RanField) == InChoice(ie, RanField) && ChoiceId(pdu, AmfField) == InChoice(ie, AmfField)
  {
    var ies := pdu.Payload().value.body.value;
    assert ies == [ie] && ies[..0] == [];
    assert LastHeld(ALL_IDS, RanField, ies[..0]) == None && LastHeld(ALL_IDS, AmfField, ies[..0]) == None;
    assert LastInChoice(RanField, ies[..0]) == None && LastInChoice(AmfField, ies[..0]) == None;
  }

  lemma TwoIes(pdu: Pdu<Ie>, a: int, r: int)
    requires pdu.Payload().Some? && pdu.Payload().value.body == Some([AmfIe(a), RanIe(r)])
    ensures OwnId(pdu, RanField) == Some(r) && OwnId(pdu, AmfField) == Some(a)
  {
    var ies := [AmfIe(a), RanIe(r)];
    assert ies[..1] == [AmfIe(a)] && [AmfIe(a)][..0] == [];
    assert LastHeld(ALL_IDS, AmfField, ies[..1]) == Some(a);
  }

  // ---------- messages whose row does not cover the ID they name ----------

  /** The message goes to the AMF of the context and names it there by LB ID. */
  predicate ReachesAmf(t: Tables, lb: int, r: Reaction)
    requires lb in t.ues
  {
    r.SendTo? && r.to == AmfNode(t.ues[lb].amf) && NamedRan(r.pdu) == Some(lb)
  }

  /** A message that names the RAN ID of a context reaches that context's AMF under its LB ID exactly when
      its procedure's row covers the RAN ID and rewriting meets no nil cell. (Were the two IDs equal, there
      would be nothing to rename.) */
  lemma ReachesAmfExactly(t: Tables, g: int, pdu: Pdu<Ie>, admitted: bool, pick: PickOutcome, lb: int)
    requires Coherent(t) && !GnbRouteOf(pdu).Initial?
    requires NamedRan(pdu).Some? && FindByRan(t, g, NamedRan(pdu).value) == Some(lb) && NamedRan(pdu) != Some(lb)
    ensures lb in t.ues
    ensures ReachesAmf(t, lb, GnbReaction(t, g, pdu, admitted, pick)) <==>
            Covers(pdu, RanField) && !MeetsNil(pdu)
  {
    assert Names(t, lb, g, NamedRan(pdu).value);
    var r := GnbReaction(t, g, pdu, admitted, pick);
    if Covers(pdu, RanField) {
      CoveredRanIsKey(pdu);
    }
    if r.SendTo? && r.pdu != pdu && !GnbRouteOf(pdu).SetupReply? {
      var ue := if GnbRouteOf(pdu).UplinkNas? then FindByRan(t, g, NasKey(Extract(pdu))) else UplinkUe(t, g, pdu);
      RewriteRenames(pdu, t.ues[ue.value].lbId, t.ues[ue.value].amfUeId);
    } else if Covers(pdu, RanField) && r.SendTo? {
      RewriteRenames(pdu, t.ues[lb].lbId, t.ues[lb].amfUeId);
    }
  }

  /** The same towards a gNB, for a forwarded message whose gNB was found. */
  lemma ReachesGnbExactly(t: Tables, a: int, pdu: Pdu<Ie>, g: int, lb: int)
    requires Coherent(t) && AmfRouteOf(pdu).ForwardToGnb?
    requires NamedAmf(pdu).Some? && FindByAmfId(t, a, NamedAmf(pdu).value) == Some(lb) && NamedAmf(pdu) != Some(lb)
    ensures var r := AmfReaction(t, a, pdu, Some(g));
            r.SendTo? && r.to == GnbNode(g) && NamedAmf(r.pdu) == Some(lb) <==> Covers(pdu, AmfField) && !MeetsNil(pdu)
  {
    assert a in t.amfUes && lb in t.ues;
    var r := AmfReaction(t, a, pdu, Some(g));
    if Covers(pdu, AmfField) {
      CoveredAmfIsFound(pdu);
    }
    if r.SendTo? {
      var ue := UeOfAmfId(t, a, pdu).value;
      RewriteRenames(pdu, t.ues[ue].ranUeId, t.ues[ue].lbId);
    }
  }

  /** A message none of whose IDs is covered is relayed to any AMF, or broadcast to all gNBs, as it is. */
  lemma UncoveredGoesAnywhere(t: Tables, pdu: Pdu<Ie>)
    requires !Covers(pdu, RanField) && !Covers(pdu, AmfField) && !IsContextRelease(pdu)
    ensures GnbRouteOf(pdu).ForwardToAmf? ==>
              forall g, admitted, pick :: GnbReaction(t, g, pdu, admitted, pick) == RelayReaction(pdu, pick)
    ensures AmfRouteOf(pdu).ForwardToGnb? ==> forall a, target :: AmfReaction(t, a, pdu, target) == Broadcast(pdu)
  {
    ReadExactlyCovered(pdu, RanField);
    ReadExactlyCovered(pdu, AmfField);
  }

  /** ERROR INDICATION (procedure 9) naming both IDs of a UE. */
  function ErrorIndication(amf: int, ran: int): Pdu<Ie> {
    Pdu(PresentInitiating, Some(Message(OtherProcedure(9), Some([AmfIe(amf), RanIe(ran)]))))
  }

  /** No row covers an ERROR INDICATION, from either side. */
  lemma ErrorIndicationUncovered(amf: int, ran: int)
    ensures var pdu := ErrorIndication(amf, ran);
            && NamedRan(pdu) == Some(ran) && NamedAmf(pdu) == Some(amf)
            && !Covers(pdu, RanField) && !Covers(pdu, AmfField)
  {
    TwoIes(ErrorIndication(amf, ran), amf, ran);
  }

  /** A gNB's ERROR INDICATION is relayed unrenamed to any AMF, which may so read the LB ID of another
      AMF's UE; an AMF's is broadcast with its own IDs. */
  lemma ErrorIndicationLeaks()
    ensures var t, up, down := Create(EMPTY, 8, 1, 7), ErrorIndication(4, 0), ErrorIndication(5, 0);
            && Coherent(t) && t.ues[0].amf == 8 && t.ues[0].lbId == 0
            && GnbReaction(t, 2, up, true, Picks(9)) == SendTo(AmfNode(9), up) && NamedRan(up) == Some(0)
            && AmfReaction(t, 8, down, None) == Broadcast(down) && NamedAmf(down) == Some(5)
  {
    var t := Create(EMPTY, 8, 1, 7);
    CreateCoherent(EMPTY, 8, 1, 7);
    ErrorIndicationUncovered(4, 0);
    ErrorIndicationUncovered(5, 0);
    UncoveredGoesAnywhere(t, ErrorIndication(4, 0));
    UncoveredGoesAnywhere(t, ErrorIndication(5, 0));
  }

  // ---------- lookups under the ID that was not read ----------

  /** All IDs that the message names are those of the gNB's context `lb`. */
  predicate UplinkIdentifies(t: Tables, g: int, pdu: Pdu<Ie>, lb: int) {
    && lb in t.ues && t.ues[lb].gnb == g && FindByRan(t, g, t.ues[lb].ranUeId) == Some(lb)
    && (NamedRan(pdu).Some? ==> NamedRan(pdu).value == t.ues[lb].ranUeId)
    && (NamedAmf(pdu).Some? ==> NamedAmf(pdu).value == lb)
  }

  /** The context that an uplink message is bound to. */
  function UplinkBinding(t: Tables, g: int, pdu: Pdu<Ie>): Option<int>
    requires Extract(pdu).UeIds?
  {
    if GnbRouteOf(pdu).UplinkNas? then FindByRan(t, g, NasKey(Extract(pdu))) else UplinkUe(t, g, pdu)
  }

  /** The lookup is by RAN ID alone: a message in which IDs were found is bound to the UE that its IDs name
      exactly when a RAN ID was read, or that UE's RAN ID happens to be 0. */
  lemma UplinkBoundExactly(t: Tables, g: int, pdu: Pdu<Ie>, lb: int)
    requires Coherent(t) && UplinkIdentifies(t, g, pdu, lb)
    requires !GnbRouteOf(pdu).Initial? && !IsReleaseCommand(pdu) && Extract(pdu).UeIds? && Extract(pdu).found
    ensures UplinkBinding(t, g, pdu) == Some(lb) <==> Carries(pdu, RanField) || t.ues[lb].ranUeId == 0
  {
    ReadIsNamed(pdu, RanField);
    var key := Extract(pdu).ran;
    if FindByRan(t, g, key) == Some(lb) {
      assert Names(t, lb, g, key);
    }
  }

  /** HANDOVER FAILURE names its UE by the AMF ID alone, which towards a gNB is the LB ID. */
  function HandoverFailure(amf: int): Pdu<Ie> {
    Pdu(PresentUnsuccessful, Some(Message(HandoverResourceAllocation, Some([AmfIe(amf)]))))
  }

  lemma HandoverFailureIds(amf: int)
    ensures var pdu := HandoverFailure(amf);
            && NamedRan(pdu) == None && NamedAmf(pdu) == Some(amf) && Covers(pdu, AmfField)
            && Extract(pdu) == UeIds(0, amf, true)
  {
    var pdu := HandoverFailure(amf);
    OneIe(pdu, AmfIe(amf));
    ReadExactlyCovered(pdu, RanField);
    ReadExactlyCovered(pdu, AmfField);
  }

  /** A HANDOVER FAILURE is bound to the gNB's UE with RAN ID 0, if it has one. */
  lemma HandoverFailureBound(t: Tables, g: int, amf: int, lb: int)
    requires Coherent(t) && FindByRan(t, g, 0) == Some(lb)
    ensures lb in t.ues
    ensures var r := GnbReaction(t, g, HandoverFailure(amf), true, NoPick);
            r.SendTo? && r.to == AmfNode(t.ues[lb].amf) && NamedAmf(r.pdu) == Some(t.ues[lb].amfUeId)
  {
    assert Names(t, lb, g, 0);
    HandoverFailureIds(amf);
    RewriteRenames(HandoverFailure(amf), t.ues[lb].lbId, t.ues[lb].amfUeId);
  }

  /** UE 1 of gNB 1 belongs to AMF 9; its HANDOVER FAILURE is looked up under RAN ID 0, so it goes to AMF 8
      as a message about UE 0. */
  lemma HandoverFailureMisbinds()
    ensures var t := SetAmfUeId(Create(Create(EMPTY, 8, 1, 0), 9, 1, 7), 0, 55);
            var r := GnbReaction(t, 1, HandoverFailure(1), true, NoPick);
            && Coherent(t) && UplinkIdentifies(t, 1, HandoverFailure(1), 1) && t.ues[1].amf == 9
            && r.SendTo? && r.to == AmfNode(8) && NamedAmf(r.pdu) == Some(55)
  {
    CreateCoherent(EMPTY, 8, 1, 0);
    CreateCoherent(Create(EMPTY, 8, 1, 0), 9, 1, 7);
    SetAmfUeIdCoherent(Create(Create(EMPTY, 8, 1, 0), 9, 1, 7), 0, 55);
    HandoverFailureIds(1);
    HandoverFailureBound(SetAmfUeId(Create(Create(EMPTY, 8, 1, 0), 9, 1, 7), 0, 55), 1, 1, 0);
  }

  ghost predicate DownlinkIdentifies(t: Tables, a: int, pdu: Pdu<Ie>, lb: int) {
    && lb in t.ues && t.ues[lb].amf == a && FindByAmfId(t, a, t.ues[lb].amfUeId) == Some(lb)
    && (forall x :: FindByAmfId(t, a, x) == Some(lb) ==> x == t.ues[lb].amfUeId)
    && (NamedRan(pdu).Some? ==> NamedRan(pdu).value == lb)
    && (NamedAmf(pdu).Some? ==> NamedAmf(pdu).value == t.ues[lb].amfUeId)
  }

  /** Downlink NAS is looked up by LB ID, any other message by AMF ID; an ID not read counts as 0. */
  lemma DownlinkBoundExactly(t: Tables, a: int, pdu: Pdu<Ie>, lb: int)
    requires Coherent(t) && DownlinkIdentifies(t, a, pdu, lb)
    requires !AmfRouteOf(pdu).AmfRejects? && !IsReleaseCommand(pdu) && Extract(pdu).UeIds? && Extract(pdu).found
    ensures Sought(t, a, pdu) == Some(lb) <==>
            if AmfRouteOf(pdu).DownlinkNas? then Carries(pdu, RanField) || lb == 0
            else Carries(pdu, AmfField) || t.ues[lb].amfUeId == 0
  {
    ReadIsNamed(pdu, RanField);
    ReadIsNamed(pdu, AmfField);
  }

  // ---------- UEs that are not introduced ----------

  /** A forwarded message that names an AMF ID in a covered IE is broadcast unrenamed exactly when the ID
      is not filed with that AMF or no gNB was found. */
  lemma BroadcastExactly(t: Tables, a: int, pdu: Pdu<Ie>, target: Option<int>)
    requires Coherent(t) && AmfRouteOf(pdu).ForwardToGnb? && Covers(pdu, AmfField)
    ensures AmfReaction(t, a, pdu, target) == Broadcast(pdu) <==>
            FindByAmfId(t, a, NamedAmf(pdu).value).None? || target.None?
  {
    CoveredAmfIsFound(pdu);
    AmfDelivery(t, a, pdu, target);
  }

  // ---------- UE Context Release Command ----------

  lemma {:induction false} CommandHolds(ies: seq<Ie>)
    ensures LastHeld(ReadReleaseCommand, RanField, ies).Some? <==>
            exists i :: 0 <= i < |ies| && ProbeIe(ReadReleaseCommand, RanField, ies[i]).Holds?
  {
    if ies != [] {
      var front := ies[..|ies| - 1];
      CommandHolds(front);
      assert forall i :: 0 <= i < |front| ==> front[i] == ies[i];
    }
  }

  lemma {:induction false} NothingHeldForAmf(ies: seq<Ie>)
    ensures LastHeld(ReadReleaseCommand, AmfField, ies) == None
  {
    if ies != [] {
      NothingHeldForAmf(ies[..|ies| - 1]);
    }
  }

  /** The command's IDs are looked for in a RAN ID IE that holds a UE-NGAP-IDs choice: exactly then
      extraction finds something or dereferences nil. */
  lemma ReleaseCommandReadExactly(pdu: Pdu<Ie>)
    requires IsReleaseCommand(pdu) && pdu.payload.value.body.Some?
    ensures Extract(pdu) == UeIds(0, 0, false) <==>
            forall i :: 0 <= i < |pdu.payload.value.body.value| ==>
              var ie := pdu.payload.value.body.value[i]; !(ie.id.RanUeNgapId? && ie.ueNgapIds.Some?)
  {
    var ies := pdu.payload.value.body.value;
    CommandHolds(ies);
    NothingHeldForAmf(ies);
  }

  /** The standard command, with its IDs in a UE-NGAP-IDs IE. */
  function ReleaseCommand(amf: int, ran: int): Pdu<Ie> {
    Pdu(PresentInitiating,
        Some(Message(UEContextRelease, Some([Ie(UeNgapIds, None, None, Some(None), Some((amf, ran)), [])]))))
  }

  /** The standard command is never recognised: whatever the tables, it is broadcast with the AMF's own
      IDs. */
  lemma ReleaseCommandBroadcast(t: Tables, a: int, amf: int, ran: int, target: Option<int>)
    ensures var pdu := ReleaseCommand(amf, ran);
            && NamedAmf(pdu) == Some(amf) && NamedRan(pdu) == Some(ran)
            && AmfReaction(t, a, pdu, target) == Broadcast(pdu)
  {
    var pdu := ReleaseCommand(amf, ran);
    OneIe(pdu, pdu.payload.value.body.value[0]);
    ReleaseCommandReadExactly(pdu);
  }

  // ---------- UE Context Release Complete ----------

  /** A Release Complete that names the RAN ID of a context is sent to its AMF as it is. */
  lemma ReleaseCompleteUnrenamed(t: Tables, g: int, pdu: Pdu<Ie>, admitted: bool, pick: PickOutcome, lb: int)
    requires Coherent(t) && IsContextRelease(pdu) && pdu.Class().Successful?
    requires OwnId(pdu, RanField).Some? && FindByRan(t, g, OwnId(pdu, RanField).value) == Some(lb)
    ensures lb in t.ues && GnbReaction(t, g, pdu, admitted, pick) == SendTo(AmfNode(t.ues[lb].amf), pdu)
  {
    assert Names(t, lb, g, OwnId(pdu, RanField).value);
    HeldAsOwn(ReadIds(true, true), RanField, pdu.payload.value.body.value);
    ReadIsNamed(pdu, RanField);
  }

  function ReleaseComplete(amf: int, ran: int): Pdu<Ie> {
    Pdu(PresentSuccessful, Some(Message(UEContextRelease, Some([AmfIe(amf), RanIe(ran)]))))
  }

  /** There its RAN ID may be the LB ID of another UE: the Release Complete of UE 0, which its gNB numbers 1,
      reads as one of UE 1. */
  lemma ReleaseCompleteMisnames()
    ensures var t, pdu := Create(Create(EMPTY, 9, 1, 1), 9, 1, 7), ReleaseComplete(0, 1);
            && Coherent(t) && UplinkIdentifies(t, 1, pdu, 0) && t.ues[1].amf == 9
            && GnbReaction(t, 1, pdu, true, NoPick) == SendTo(AmfNode(9), pdu) && NamedRan(pdu) == Some(1)
  {
    var t := Create(Create(EMPTY, 9, 1, 1), 9, 1, 7);
    CreateCoherent(EMPTY, 9, 1, 1);
    CreateCoherent(Create(EMPTY, 9, 1, 1), 9, 1, 7);
    TwoIes(ReleaseComplete(0, 1), 0, 1);
    ReleaseCompleteUnrenamed(t, 1, ReleaseComplete(0, 1), true, NoPick, 0);
  }

  // ---------- the fallback to RAN ID 1 ----------

  /** The context is found under its gNB and RAN ID. */
  predicate Found(t: Tables, lb: int) {
    lb in t.ues && FindByRan(t, t.ues[lb].gnb, t.ues[lb].ranUeId) == Some(lb)
  }

  /** An InitialUEMessage without a RAN ID is filed under RAN ID 1, and so hides a context exactly when that
      gNB has one with RAN ID 1. */
  lemma InitialWithoutRanId(t: Tables, g: int, pdu: Pdu<Ie>, amf: int)
    requires Coherent(t) && GnbRouteOf(pdu).Initial? && !Covers(pdu, RanField)
    ensures var t' := GnbTables(t, g, pdu, true, Picks(amf));
            && FindByRan(t', g, 1) == Some(t.next) && t'.ues.Keys == t.ues.Keys + {t.next}
            && ((exists lb :: Found(t, lb) && !Found(t', lb)) <==> FindByRan(t, g, 1).Some?)
            && (forall lb :: Found(t, lb) && !Found(t', lb) ==> FindByRan(t, g, 1) == Some(lb))
  {
    ReadExactlyCovered(pdu, RanField);
    ReadExactlyCovered(pdu, AmfField);
    CreateCoherent(t, amf, g, 1);
    var t' := GnbTables(t, g, pdu, true, Picks(amf));
    if FindByRan(t, g, 1).Some? {
      assert Names(t, FindByRan(t, g, 1).value, g, 1);
      assert !Found(t', FindByRan(t, g, 1).value);
    }
  }

  /** An Uplink NAS message with no covered ID is sent to the AMF of the gNB's UE with RAN ID 1, if it has
      one. */
  lemma UplinkNasWithoutIds(t: Tables, g: int, pdu: Pdu<Ie>, admitted: bool, pick: PickOutcome)
    requires Coherent(t) && GnbRouteOf(pdu).UplinkNas? && !Covers(pdu, RanField) && !Covers(pdu, AmfField)
    ensures var r, lb := GnbReaction(t, g, pdu, admitted, pick), FindByRan(t, g, 1);
            && (r.Fails? <==> lb.None?)
            && (lb.Some? && !MeetsNil(pdu) ==>
                  && lb.value in t.ues && r.SendTo? && r.to == AmfNode(t.ues[lb.value].amf)
                  && NamedRan(r.pdu) == NamedRan(pdu) && Content(r.pdu) == Content(pdu))
  {
    ReadExactlyCovered(pdu, RanField);
    ReadExactlyCovered(pdu, AmfField);
    var lb := FindByRan(t, g, 1);
    if lb.Some? && !MeetsNil(pdu) {
      assert Names(t, lb.value, g, 1);
      RewriteRenames(pdu, t.ues[lb.value].lbId, t.ues[lb.value].amfUeId);
    }
  }

  // ---------- the debug print ----------

  /** An Uplink NAS message with the given RAN ID and a nil AMF ID cell. */
  function NilAmfId(ran: int): Pdu<Ie> {
    Pdu(PresentInitiating,
        Some(Message(UplinkNASTransport, Some([Ie(AmfUeNgapId, None, None, None, None, []), RanIe(ran)]))))
  }

  lemma NilAmfIdCovered(ran: int)
    ensures Covers(NilAmfId(ran), RanField) && NamedRan(NilAmfId(ran)) == Some(ran)
  {
    var ies := NilAmfId(ran).payload.value.body.value;
    assert LastHeld(ALL_IDS, RanField, ies) == Some(ran);
  }

  lemma NilAmfIdCrashes(ran: int, newRan: int, newAmf: int)
    ensures Modify(NilAmfId(ran), newRan, newAmf).ModifyCrash?
  {
    var ies := NilAmfId(ran).payload.value.body.value;
    assert WriteCrashesAt(WriteIds(true, true, true), ies[0]);
  }

  /** Such a message of a known UE ends the process. */
  lemma UplinkNasPrintDies(t: Tables, g: int, ran: int)
    requires Coherent(t) && FindByRan(t, g, ran).Some?
    ensures GnbReaction(t, g, NilAmfId(ran), true, NoPick) == Dies
  {
    var lb := FindByRan(t, g, ran).value;
    assert Names(t, lb, g, ran);
    NilAmfIdCovered(ran);
    CoveredRanIsKey(NilAmfId(ran));
    NilAmfIdCrashes(ran, t.ues[lb].lbId, t.ues[lb].amfUeId);
  }
}
