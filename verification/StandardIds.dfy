/** The UE ID IEs that TS 38.413 gives each message, and what becomes of them: the proxy treats exactly
    these, save in two messages, and a message that carries them leaves under the renamed IDs. */
module StandardIds {
  import opened Dispatch
  import opened Naming
  import opened Ngap
  import opened Options
  import opened Reactions
  import opened UeTables

  // ---------- the standard ----------

  /** The IDs that a message carries in IEs of their own. */
  datatype Carried = NoIds | RanId | AmfId | BothIds

  /** NoIds also where the procedure has no such message. */
  datatype Messages = Messages(initiating: Carried, successful: Carried, unsuccessful: Carried)

  /** The messages of a procedure, by the subsections of section 9.2 of TS 38.413. */
  function MessagesOf(p: Procedure): Messages {
    match p
    // 9.2.1, PDU sessions
    case PDUSessionResourceSetup => Messages(BothIds, BothIds, NoIds)
    case PDUSessionResourceRelease => Messages(BothIds, BothIds, NoIds)
    case PDUSessionResourceModify => Messages(BothIds, BothIds, NoIds)
    case PDUSessionResourceModifyIndication => Messages(BothIds, BothIds, NoIds)
    case PDUSessionResourceNotify => Messages(BothIds, NoIds, NoIds)
    // 9.2.2, UE contexts; the Release Command has the UE NGAP IDs choice instead
    case InitialContextSetup => Messages(BothIds, BothIds, BothIds)
    case UEContextModification => Messages(BothIds, BothIds, BothIds)
    case UEContextRelease => Messages(NoIds, BothIds, NoIds)
    case UEContextReleaseRequest => Messages(BothIds, NoIds, NoIds)
    case RRCInactiveTransitionReport => Messages(BothIds, NoIds, NoIds)
    // 9.2.3, mobility; the Path Switch Request has the Source AMF UE NGAP ID instead of an AMF UE NGAP ID
    case HandoverPreparation => Messages(BothIds, BothIds, BothIds)
    case HandoverResourceAllocation => Messages(AmfId, BothIds, AmfId)
    case PathSwitchRequest => Messages(RanId, BothIds, BothIds)
    case HandoverCancel => Messages(BothIds, BothIds, NoIds)
    case HandoverNotification => Messages(BothIds, NoIds, NoIds)
    case UplinkRANStatusTransfer => Messages(BothIds, NoIds, NoIds)
    case DownlinkRANStatusTransfer => Messages(BothIds, NoIds, NoIds)
    // 9.2.5, NAS
    case InitialUEMessage => Messages(RanId, NoIds, NoIds)
    case UplinkNASTransport => Messages(BothIds, NoIds, NoIds)
    case DownlinkNASTransport => Messages(BothIds, NoIds, NoIds)
    case NASNonDeliveryIndication => Messages(BothIds, NoIds, NoIds)
    case RerouteNASRequest => Messages(BothIds, NoIds, NoIds)
    // 9.2.9, NRPPa
    case UplinkUEAssociatedNRPPaTransport => Messages(BothIds, NoIds, NoIds)
    case DownlinkUEAssociatedNRPPaTransport => Messages(BothIds, NoIds, NoIds)
    // 9.2.10, traces
    case TraceStart => Messages(BothIds, NoIds, NoIds)
    case TraceFailureIndication => Messages(BothIds, NoIds, NoIds)
    case DeactivateTrace => Messages(BothIds, NoIds, NoIds)
    case CellTrafficTrace => Messages(BothIds, NoIds, NoIds)
    // 9.2.11, location reporting
    case LocationReportingControl => Messages(BothIds, NoIds, NoIds)
    case LocationReportingFailureIndication => Messages(BothIds, NoIds, NoIds)
    case LocationReport => Messages(BothIds, NoIds, NoIds)
    // 9.2.12 to 9.2.14, TNLA binding, radio capability, data usage
    case UETNLABindingRelease => Messages(BothIds, NoIds, NoIds)
    case UERadioCapabilityInfoIndication => Messages(BothIds, NoIds, NoIds)
    case UERadioCapabilityCheck => Messages(BothIds, BothIds, NoIds)
    case SecondaryRATDataUsageReport => Messages(BothIds, NoIds, NoIds)
    // 9.2.6, ERROR INDICATION
    case OtherProcedure(9) => Messages(BothIds, NoIds, NoIds)
    // paging, interface management, configuration transfer, warnings
    case _ => Messages(NoIds, NoIds, NoIds)
  }

  predicate Gives(c: PduClass, p: Procedure, f: Field) {
    var ids := match c
      case Initiating => MessagesOf(p).initiating
      case Successful => MessagesOf(p).successful
      case Unsuccessful => MessagesOf(p).unsuccessful;
    ids.BothIds? || (if f.RanField? then ids.RanId? else ids.AmfId?)
  }

  /** ERROR INDICATION and UE CONTEXT RELEASE COMPLETE. */
  const UNTREATED: set<(PduClass, Procedure)> :=
    {(Initiating, OtherProcedure(9)), (Successful, UEContextRelease)}

  /** The ID IE of the field, with a value. */
  predicate HoldsId(ie: Ie, f: Field) {
    if f.RanField? then ie.id.RanUeNgapId? && ie.ran.Some? else ie.id.AmfUeNgapId? && ie.amf.Some?
  }

  predicate Holds(pdu: Pdu<Ie>, f: Field) {
    match pdu.Payload()
    case Some(Message(_, Some(ies))) => exists i | 0 <= i < |ies| :: HoldsId(ies[i], f)
    case _ => false
  }

  /** The message carries the field's ID as the standard lays down, and is not one of the two. */
  predicate Treated(pdu: Pdu<Ie>, f: Field) {
    && Holds(pdu, f)
    && Gives(pdu.Class(), pdu.Payload().value.procedure, f)
    && (pdu.Class(), pdu.Payload().value.procedure) !in UNTREATED
  }

  // ---------- the proxy treats what the standard gives ----------

  lemma {:induction false} HeldExactly(f: Field, ies: seq<Ie>)
    ensures LastHeld(ALL_IDS, f, ies).Some? <==> exists i :: 0 <= i < |ies| && HoldsId(ies[i], f)
  {
    if ies != [] {
      var front := ies[..|ies| - 1];
      HeldExactly(f, front);
      assert forall i :: 0 <= i < |front| ==> front[i] == ies[i];
    }
  }

  /** The rule that rewrites the IDs given. */
  predicate Serves(rule: WriteRule, ids: Carried) {
    match ids
    case BothIds => rule.WriteIds? && rule.ran && rule.amf
    case RanId => rule.WriteIds? && rule.ran && !rule.amf
    case AmfId => rule.WriteIds? && !rule.ran && rule.amf
    case NoIds => !rule.WriteIds?
  }

  lemma InitiatingRows(p: Procedure)
    ensures p != OtherProcedure(9) ==> Serves(WriteRuleOf(Initiating, p), MessagesOf(p).initiating)
    ensures p == OtherProcedure(9) ==> WriteRuleOf(Initiating, p) == WriteError
  {
    match p { case _ => }
  }

  lemma SuccessfulRows(p: Procedure)
    ensures p != UEContextRelease ==> Serves(WriteRuleOf(Successful, p), MessagesOf(p).successful)
    ensures p == UEContextRelease ==> WriteRuleOf(Successful, p) == WriteError
  {
    match p { case _ => }
  }

  lemma UnsuccessfulRows(p: Procedure)
    ensures Serves(WriteRuleOf(Unsuccessful, p), MessagesOf(p).unsuccessful)
  {
    match p { case _ => }
  }

  /** For every message and every PDU: an ID is covered exactly when the standard gives that message an IE
      for it, the IE has a value, and the message is neither ERROR INDICATION nor Release Complete. */
  lemma CoveredExactly(pdu: Pdu<Ie>, f: Field)
    ensures Covers(pdu, f) <==> Treated(pdu, f)
  {
    match pdu.Payload() {
      case Some(Message(p, Some(ies))) =>
        HeldExactly(f, ies);
        TablesAgree(pdu.Class(), p);
        match pdu.Class() {
          case Initiating => InitiatingRows(p);
          case Successful => SuccessfulRows(p);
          case Unsuccessful => UnsuccessfulRows(p);
        }
      case _ =>
    }
  }

  /** Extraction reads such an ID, and modification replaces it unless it meets nil. */
  lemma TreatedIds(pdu: Pdu<Ie>, f: Field, ran: int, amf: int)
    requires Treated(pdu, f)
    ensures Extract(pdu).UeIds? && Extract(pdu).found
    ensures OwnId(pdu, f) == Some(if f.RanField? then Extract(pdu).ran else Extract(pdu).amf)
    ensures !MeetsNil(pdu) ==>
              && Modify(pdu, ran, amf).Modified?
              && OwnId(Modify(pdu, ran, amf).pdu, f) == Some(if f.RanField? then ran else amf)
  {
    CoveredExactly(pdu, f);
    ReadExactlyCovered(pdu, f);
    if !MeetsNil(pdu) {
      RewriteNames(pdu, ran, amf, f);
    }
  }

  // ---------- nil dereferences ----------

  predicate EmptyIdIe(ie: Ie) {
    (ie.id.RanUeNgapId? && ie.ran.None?) || (ie.id.AmfUeNgapId? && ie.amf.None?)
  }

  predicate WithoutChoice(ie: Ie) {
    ie.id.AmfUeNgapId? && ie.ueNgapIds.None?
  }

  predicate EmptyChoice(ie: Ie) {
    ie.id.RanUeNgapId? && ie.ueNgapIds == Some(None)
  }

  lemma PrintsExactly(c: PduClass, p: Procedure)
    ensures var rule := WriteRuleOf(c, p);
            && (rule.WriteIds? && rule.prints <==> c.Initiating? && p.UplinkNASTransport?)
            && (rule.WriteReleaseCommand? <==> c.Initiating? && p.UEContextRelease?)
  {
    match c {
      case Initiating => match p { case _ => }
      case Successful => match p { case _ => }
      case Unsuccessful => match p { case _ => }
    }
  }

  lemma CommandRow(c: PduClass, p: Procedure)
    ensures ReadRuleOf(c, p).ReadReleaseCommand? <==> c.Initiating? && p.UEContextRelease?
  {
    match c {
      case Initiating => match p { case _ => }
      case Successful => match p { case _ => }
      case Unsuccessful => match p { case _ => }
    }
  }

  /** Modification dereferences nil in two messages only: an Uplink NAS message with an empty ID IE, and a
      Release Command with an AMF ID IE that holds no choice. */
  lemma NilMetExactly(pdu: Pdu<Ie>)
    ensures MeetsNil(pdu) <==>
              && pdu.present.PresentInitiating? && pdu.payload.Some? && pdu.payload.value.body.Some?
              && var p, ies := pdu.payload.value.procedure, pdu.payload.value.body.value;
                 || (p.UplinkNASTransport? && exists i :: 0 <= i < |ies| && EmptyIdIe(ies[i]))
                 || (p.UEContextRelease? && exists i :: 0 <= i < |ies| && WithoutChoice(ies[i]))
  {
    match pdu.Payload() {
      case Some(Message(p, Some(ies))) =>
        var rule := WriteRuleOf(pdu.Class(), p);
        PrintsExactly(pdu.Class(), p);
        assert forall i :: 0 <= i < |ies| && rule.WriteIds? && rule.prints ==>
                 (WriteCrashesAt(rule, ies[i]) <==> EmptyIdIe(ies[i]));
        assert forall i :: 0 <= i < |ies| && rule.WriteReleaseCommand? ==>
                 (WriteCrashesAt(rule, ies[i]) <==> WithoutChoice(ies[i]));
      case _ =>
    }
  }

  /** Extraction does so in a Release Command with an empty choice only. */
  lemma ExtractionDiesExactly(pdu: Pdu<Ie>)
    ensures Extract(pdu).ExtractCrash? <==>
              && pdu.present.PresentInitiating? && pdu.payload.Some? && pdu.payload.value.body.Some?
              && pdu.payload.value.procedure.UEContextRelease?
              && exists i :: 0 <= i < |pdu.payload.value.body.value| && EmptyChoice(pdu.payload.value.body.value[i])
  {
    match pdu.Payload() {
      case Some(Message(p, Some(ies))) =>
        var rule := ReadRuleOf(pdu.Class(), p);
        CommandRow(pdu.Class(), p);
        assert forall i :: 0 <= i < |ies| && rule.ReadReleaseCommand? ==>
                 (ProbeIe(rule, RanField, ies[i]).Crash? <==> EmptyChoice(ies[i]));
      case _ =>
    }
  }

  // ---------- messages of a UE that is in all tables ----------

  /** One send of the same content, with the treated IDs replaced. */
  predicate Renamed(r: Reaction, to: Node, pdu: Pdu<Ie>, ran: int, amf: int) {
    && r.SendTo? && r.to == to && Content(r.pdu) == Content(pdu)
    && (Treated(pdu, RanField) ==> OwnId(r.pdu, RanField) == Some(ran))
    && (Treated(pdu, AmfField) ==> OwnId(r.pdu, AmfField) == Some(amf))
  }

  lemma SentRenamed(to: Node, pdu: Pdu<Ie>, ran: int, amf: int)
    requires (Treated(pdu, RanField) || Treated(pdu, AmfField)) && !MeetsNil(pdu)
    ensures Renamed(SendRewritten(to, pdu, ran, amf), to, pdu, ran, amf)
  {
    RewriteKeepsContent(pdu, ran, amf);
    if Treated(pdu, RanField) {
      TreatedIds(pdu, RanField, ran, amf);
    }
    if Treated(pdu, AmfField) {
      TreatedIds(pdu, AmfField, ran, amf);
    }
  }

  /** Every message to which the standard gives a RAN ID, the opening and the two untreated ones excepted,
      leaves for the UE's AMF as (LB ID, AMF ID). */
  lemma UplinkLeaves(t: Tables, lb: int, pdu: Pdu<Ie>, admitted: bool, pick: PickOutcome)
    requires Settled(t, lb) && Treated(pdu, RanField) && OwnId(pdu, RanField) == Some(t.ues[lb].ranUeId)
    requires pdu.Payload().value.procedure != InitialUEMessage && !MeetsNil(pdu)
    ensures var r, u := GnbReaction(t, t.ues[lb].gnb, pdu, admitted, pick), t.ues[lb];
            Renamed(r, AmfNode(u.amf), pdu, lb, u.amfUeId)
  {
    CoveredExactly(pdu, RanField);
    CoveredRanIsKey(pdu);
    SentRenamed(AmfNode(t.ues[lb].amf), pdu, lb, t.ues[lb].amfUeId);
  }

  /** What the AMF side looks the UE up by. */
  lemma DownlinkFinds(t: Tables, lb: int, pdu: Pdu<Ie>, g: int)
    requires Settled(t, lb) && Treated(pdu, AmfField) && OwnId(pdu, AmfField) == Some(t.ues[lb].amfUeId)
    requires pdu.Payload().value.procedure == DownlinkNASTransport ==> OwnId(pdu, RanField) == Some(lb)
    ensures AmfReaction(t, t.ues[lb].amf, pdu, Some(g)) == ToGnb(t, lb, g, pdu)
  {
    TreatedIds(pdu, AmfField, 0, 0);
    if pdu.Payload().value.procedure == DownlinkNASTransport {
      HeldExactly(RanField, pdu.Payload().value.body.value);
      TreatedIds(pdu, RanField, 0, 0);
    }
  }

  /** Every message to which the standard gives an AMF ID, the two untreated ones excepted, leaves for the
      gNB found as (RAN ID, LB ID). Downlink NAS names the UE by its LB ID too. */
  lemma DownlinkLeaves(t: Tables, lb: int, pdu: Pdu<Ie>, g: int)
    requires Settled(t, lb) && Treated(pdu, AmfField) && OwnId(pdu, AmfField) == Some(t.ues[lb].amfUeId)
    requires pdu.Payload().value.procedure == DownlinkNASTransport ==> OwnId(pdu, RanField) == Some(lb)
    requires !MeetsNil(pdu)
    ensures var r, u := AmfReaction(t, t.ues[lb].amf, pdu, Some(g)), t.ues[lb];
            Renamed(r, GnbNode(g), pdu, u.ranUeId, lb)
  {
    DownlinkFinds(t, lb, pdu, g);
    SentRenamed(GnbNode(g), pdu, t.ues[lb].ranUeId, lb);
  }

  /** The opening leaves for the AMF picked under the new LB ID, and its context gets the RAN ID it names. */
  lemma OpeningLeaves(t: Tables, g: int, pdu: Pdu<Ie>, ran: int, a: int)
    requires Coherent(t) && pdu.present.PresentInitiating? && Treated(pdu, RanField)
    requires pdu.payload.value.procedure == InitialUEMessage && OwnId(pdu, RanField) == Some(ran)
    ensures var r, t' := GnbReaction(t, g, pdu, true, Picks(a)), GnbTables(t, g, pdu, true, Picks(a));
            && Renamed(r, AmfNode(a), pdu, t.next, 0)
            && t'.ues == t.ues[t.next := Ue(a, 0, g, ran, t.next)] && FindByRan(t', g, ran) == Some(t.next)
  {
    NilMetExactly(pdu);
    TreatedIds(pdu, RanField, t.next, 0);
    SentRenamed(AmfNode(a), pdu, t.next, 0);
  }

  // ---------- the Release Command's own IEs ----------

  lemma {:induction false} SameProbes(xs: seq<Ie>, ys: seq<Ie>, f: Field)
    requires |xs| == |ys|
    requires forall i :: 0 <= i < |xs| ==>
               ProbeIe(ReadReleaseCommand, f, xs[i]) == ProbeIe(ReadReleaseCommand, f, ys[i])
    ensures LastHeld(ReadReleaseCommand, f, xs) == LastHeld(ReadReleaseCommand, f, ys)
  {
    if xs != [] {
      SameProbes(xs[..|xs| - 1], ys[..|ys| - 1], f);
    }
  }

  lemma WrittenUnnoticed(ies: seq<Ie>, ran: int, amf: int)
    ensures ExtractIes(ReadReleaseCommand, WriteIes(WriteReleaseCommand, ies, ran, amf)) ==
            ExtractIes(ReadReleaseCommand, ies)
  {
    var out := WriteIes(WriteReleaseCommand, ies, ran, amf);
    SameProbes(ies, out, RanField);
    SameProbes(ies, out, AmfField);
    assert forall i :: 0 <= i < |ies| ==>
             ProbeIe(ReadReleaseCommand, RanField, out[i]) == ProbeIe(ReadReleaseCommand, RanField, ies[i]);
  }

  /** Modification of a Release Command writes the AMF ID into every filled choice of an AMF ID IE, and
      nothing else; extraction looks at other IEs, so it does not notice. */
  lemma ReleaseCommandWritten(pdu: Pdu<Ie>, ran: int, amf: int)
    requires IsReleaseCommand(pdu) && pdu.payload.value.body.Some? && !MeetsNil(pdu)
    ensures Modify(pdu, ran, amf).Modified?
    ensures var ies, out := pdu.payload.value.body.value, Modify(pdu, ran, amf).pdu;
            && out.payload.Some? && out.payload.value.body.Some? && |out.payload.value.body.value| == |ies|
            && (forall i :: 0 <= i < |ies| ==>
                  out.payload.value.body.value[i] ==
                    if ies[i].id.AmfUeNgapId? && ies[i].ueNgapIds.value.Some? then
                      ies[i].(ueNgapIds := Some(Some(amf)))
                    else ies[i])
            && Extract(out) == Extract(pdu)
  {
    var ies := pdu.payload.value.body.value;
    assert forall i :: 0 <= i < |ies| && ies[i].id.AmfUeNgapId? ==> !WriteCrashesAt(WriteReleaseCommand, ies[i]);
    WrittenUnnoticed(ies, ran, amf);
  }
}
