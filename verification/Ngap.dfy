/** NGAP PDUs as the proxy sees them, and the get/put pair on UE NGAP IDs.

    A PDU is a class, a procedure code and a list of information elements (IEs).
    Encoding is left abstract: two PDUs that are equal here have the same encoding.
    The seventy per-procedure loops of the source are two tables, `ReadRuleOf` and
    `WriteRuleOf`, and one loop each. */
module Ngap {
  import opened Options

  datatype PduClass = Initiating | Successful | Unsuccessful

  datatype Procedure =
    | AMFConfigurationUpdate | AMFStatusIndication | CellTrafficTrace | DeactivateTrace
    | DownlinkNASTransport | DownlinkNonUEAssociatedNRPPaTransport | DownlinkRANConfigurationTransfer
    | DownlinkRANStatusTransfer | DownlinkUEAssociatedNRPPaTransport
    | HandoverCancel | HandoverNotification | HandoverPreparation | HandoverResourceAllocation
    | InitialContextSetup | InitialUEMessage
    | LocationReport | LocationReportingControl | LocationReportingFailureIndication
    | NASNonDeliveryIndication | NGSetup | OverloadStart | OverloadStop | Paging | PathSwitchRequest
    | PDUSessionResourceModify | PDUSessionResourceModifyIndication | PDUSessionResourceNotify
    | PDUSessionResourceRelease | PDUSessionResourceSetup
    | PWSCancel | PWSFailureIndication | PWSRestartIndication | RANConfigurationUpdate
    | RerouteNASRequest | RRCInactiveTransitionReport | SecondaryRATDataUsageReport
    | TraceFailureIndication | TraceStart | UEContextModification | UEContextRelease | UEContextReleaseRequest
    | UERadioCapabilityCheck | UERadioCapabilityInfoIndication | UETNLABindingRelease
    | UplinkNASTransport | UplinkNonUEAssociatedNRPPaTransport | UplinkRANConfigurationTransfer
    | UplinkRANStatusTransfer | UplinkUEAssociatedNRPPaTransport | WriteReplaceWarning
    | OtherProcedure(code: int)

  /** `UeNgapIds` is the IE of that name in the UE Context Release Command. */
  datatype IeId = RanUeNgapId | AmfUeNgapId | UeNgapIds | OtherIe(id: int)

  /** One IE: `ran` and `amf` are the nullable ID cells, `ueNgapIds` the nullable UE-NGAP-IDs choice
      with its nullable AMF cell, `pair` the choice's other alternative (AMF ID, RAN ID), which no code
      touches, and `rest` everything else (criticality and other content). */
  datatype Ie = Ie(id: IeId, ran: Option<int>, amf: Option<int>, ueNgapIds: Option<Option<int>>,
                   pair: Option<(int, int)>, rest: seq<int>)

  /** `body` is None when the body that the procedure code selects is a nil pointer. */
  datatype Message<+I> = Message(procedure: Procedure, body: Option<seq<I>>)

  datatype Present = PresentInitiating | PresentSuccessful | PresentUnsuccessful | PresentOther(n: int)

  /** `payload` is the message pointer that `present` selects; the other two are never looked at. */
  datatype Pdu<+I> = Pdu(present: Present, payload: Option<Message<I>>) {
    function Payload(): Option<Message<I>> {
      if present.PresentOther? then None else payload
    }

    function Class(): PduClass {
      match present
      case PresentSuccessful => Successful
      case PresentUnsuccessful => Unsuccessful
      case _ => Initiating
    }
  }

  // ---------- the two dispatch tables ----------

  datatype ReadRule = ReadIds(ran: bool, amf: bool) | ReadReleaseCommand | ReadNothing

  /** `prints` marks the one loop that dereferences the cell again after its nil test. */
  datatype WriteRule = WriteIds(ran: bool, amf: bool, prints: bool) | WriteReleaseCommand | WriteError

  function ReadRuleOf(c: PduClass, p: Procedure): ReadRule {
    match c
    case Initiating => (
      match p
      case InitialUEMessage | PathSwitchRequest => ReadIds(true, false)
      case HandoverResourceAllocation => ReadIds(false, true)
      case UEContextRelease => ReadReleaseCommand
      case UplinkNASTransport | DownlinkNASTransport | UEContextReleaseRequest
         | PDUSessionResourceSetup | PDUSessionResourceRelease | InitialContextSetup
         | CellTrafficTrace | DeactivateTrace | DownlinkRANStatusTransfer
         | HandoverCancel | HandoverNotification | HandoverPreparation
         | LocationReport | LocationReportingControl | LocationReportingFailureIndication
         | NASNonDeliveryIndication | PDUSessionResourceModifyIndication | PDUSessionResourceModify
         | PDUSessionResourceNotify | RerouteNASRequest | SecondaryRATDataUsageReport
         | TraceFailureIndication | TraceStart | UEContextModification | UETNLABindingRelease
         | UplinkRANStatusTransfer | UplinkUEAssociatedNRPPaTransport | UERadioCapabilityCheck
         | DownlinkUEAssociatedNRPPaTransport | RRCInactiveTransitionReport
         | UERadioCapabilityInfoIndication => ReadIds(true, true)
      case _ => ReadNothing
    )
    case Successful => (
      match p
      case InitialContextSetup | PDUSessionResourceSetup | PDUSessionResourceRelease | UEContextRelease
         | HandoverCancel | HandoverPreparation | HandoverResourceAllocation
         | PDUSessionResourceModifyIndication | PDUSessionResourceModify | UEContextModification
         | UERadioCapabilityCheck | PathSwitchRequest => ReadIds(true, true)
      case _ => ReadNothing
    )
    case Unsuccessful => (
      match p
      case HandoverResourceAllocation => ReadIds(false, true)
      case InitialContextSetup | HandoverPreparation | UEContextModification
         | PathSwitchRequest => ReadIds(true, true)
      case _ => ReadNothing
    )
  }

  function WriteRuleOf(c: PduClass, p: Procedure): WriteRule {
    match c
    case Initiating => (
      match p
      case InitialUEMessage | PathSwitchRequest => WriteIds(true, false, false)
      case HandoverResourceAllocation => WriteIds(false, true, false)
      case UEContextRelease => WriteReleaseCommand
      case UplinkNASTransport => WriteIds(true, true, true)
      case DownlinkNASTransport | UEContextReleaseRequest
         | PDUSessionResourceSetup | PDUSessionResourceRelease | InitialContextSetup
         | CellTrafficTrace | DeactivateTrace | DownlinkRANStatusTransfer
         | HandoverCancel | HandoverNotification | HandoverPreparation
         | LocationReport | LocationReportingControl | LocationReportingFailureIndication
         | NASNonDeliveryIndication | PDUSessionResourceModifyIndication | PDUSessionResourceModify
         | PDUSessionResourceNotify | RerouteNASRequest | SecondaryRATDataUsageReport
         | TraceFailureIndication | TraceStart | UEContextModification | UETNLABindingRelease
         | UplinkRANStatusTransfer | UplinkUEAssociatedNRPPaTransport | UERadioCapabilityCheck
         | DownlinkUEAssociatedNRPPaTransport | RRCInactiveTransitionReport
         | UERadioCapabilityInfoIndication => WriteIds(true, true, false)
      case _ => WriteError
    )
    case Successful => (
      match p
      case InitialContextSetup | PDUSessionResourceSetup | PDUSessionResourceRelease
         | HandoverCancel | HandoverPreparation | HandoverResourceAllocation
         | PDUSessionResourceModifyIndication | PDUSessionResourceModify | UEContextModification
         | UERadioCapabilityCheck | PathSwitchRequest => WriteIds(true, true, false)
      case _ => WriteError
    )
    case Unsuccessful => (
      match p
      case HandoverResourceAllocation => WriteIds(false, true, false)
      case InitialContextSetup | HandoverPreparation | UEContextModification
         | PathSwitchRequest => WriteIds(true, true, false)
      case _ => WriteError
    )
  }

  predicate RulesAgree(read: ReadRule, write: WriteRule) {
    || (read.ReadIds? && write.WriteIds? && read.ran == write.ran && read.amf == write.amf)
    || (read.ReadNothing? && write.WriteError?)
  }

  /** The extract and modify switches treat the same ID fields, except for the UE Context
      Release command and complete, and there they never do. */
  lemma TablesAgree(c: PduClass, p: Procedure)
    ensures RulesAgree(ReadRuleOf(c, p), WriteRuleOf(c, p)) <==> !(p.UEContextRelease? && !c.Unsuccessful?)
  {
    match c {
      case Initiating => match p { case _ => }
      case Successful => match p { case _ => }
      case Unsuccessful => match p { case _ => }
    }
  }

  // ---------- extraction ----------

  datatype Field = RanField | AmfField

  datatype Probe = Absent | Holds(value: int) | Crash

  function FromCell(cell: Option<int>): Probe {
    if cell.Some? then Holds(cell.value) else Absent
  }

  /** What one loop iteration reads for field `f`; Crash is a nil dereference. */
  function ProbeIe(rule: ReadRule, f: Field, ie: Ie): Probe {
    match rule
    case ReadIds(ran, amf) =>
      if f.RanField? && ran && ie.id.RanUeNgapId? then FromCell(ie.ran)
      else if f.AmfField? && amf && ie.id.AmfUeNgapId? then FromCell(ie.amf)
      else Absent
    case ReadReleaseCommand =>
      if f.RanField? && ie.id.RanUeNgapId? && ie.ueNgapIds.Some? then
        if ie.ueNgapIds.value.Some? then Holds(ie.ueNgapIds.value.value) else Crash
      else Absent
    case ReadNothing => Absent
  }

  /** The value the loop ends with: the last one read. */
  function LastHeld(rule: ReadRule, f: Field, ies: seq<Ie>): Option<int> {
    if ies == [] then None
    else match ProbeIe(rule, f, ies[|ies| - 1])
      case Holds(v) => Some(v)
      case _ => LastHeld(rule, f, ies[..|ies| - 1])
  }

  /** The last read wins: `LastHeld` is the value held at the greatest index that holds one. */
  lemma {:induction false} LastHeldIsLast(rule: ReadRule, f: Field, ies: seq<Ie>, v: int)
    ensures LastHeld(rule, f, ies) == Some(v) <==>
            exists i :: 0 <= i < |ies| && ProbeIe(rule, f, ies[i]) == Holds(v) &&
                        forall j :: i < j < |ies| ==> !ProbeIe(rule, f, ies[j]).Holds?
  {
    if ies != [] {
      var front := ies[..|ies| - 1];
      LastHeldIsLast(rule, f, front, v);
      if !ProbeIe(rule, f, ies[|ies| - 1]).Holds? {
        if LastHeld(rule, f, ies) == Some(v) {
          var i :| 0 <= i < |front| && ProbeIe(rule, f, front[i]) == Holds(v) &&
                   forall j :: i < j < |front| ==> !ProbeIe(rule, f, front[j]).Holds?;
          forall j | i < j < |ies| ensures !ProbeIe(rule, f, ies[j]).Holds? {
            if j < |front| { assert front[j] == ies[j]; }
          }
          assert ies[i] == front[i];
        }
        if i :| 0 <= i < |ies| && ProbeIe(rule, f, ies[i]) == Holds(v) &&
                forall j :: i < j < |ies| ==> !ProbeIe(rule, f, ies[j]).Holds? {
          assert front[i] == ies[i];
          forall j | i < j < |front| ensures !ProbeIe(rule, f, front[j]).Holds? {
            assert front[j] == ies[j];
          }
        }
      }
    }
  }

  datatype Extraction = UeIds(ran: int, amf: int, found: bool) | ExtractCrash

  predicate ExtractCrashes(rule: ReadRule, ies: seq<Ie>) {
    exists i | 0 <= i < |ies| :: ProbeIe(rule, RanField, ies[i]).Crash?
  }

  function ExtractIes(rule: ReadRule, ies: seq<Ie>): Extraction {
    if ExtractCrashes(rule, ies) then ExtractCrash
    else
      var ran := LastHeld(rule, RanField, ies);
      var amf := LastHeld(rule, AmfField, ies);
      UeIds(ran.GetOr(0), amf.GetOr(0), ran.Some? || amf.Some?)
  }

  function Extract(pdu: Pdu<Ie>): Extraction {
    match pdu.Payload()
    case Some(Message(p, Some(ies))) => ExtractIes(ReadRuleOf(pdu.Class(), p), ies)
    case _ => UeIds(0, 0, false)
  }

  // ---------- modification ----------

  /** The IE after one loop iteration of the modification. */
  function WriteIe(rule: WriteRule, ie: Ie, ran: int, amf: int): Ie {
    match rule
    case WriteIds(wr, wa, _) =>
      if wr && ie.id.RanUeNgapId? && ie.ran.Some? then ie.(ran := Some(ran))
      else if wa && ie.id.AmfUeNgapId? && ie.amf.Some? then ie.(amf := Some(amf))
      else ie
    case WriteReleaseCommand =>
      if ie.id.AmfUeNgapId? && ie.ueNgapIds.Some? && ie.ueNgapIds.value.Some? then
        ie.(ueNgapIds := Some(Some(amf)))
      else ie
    case WriteError => ie
  }

  /** One loop iteration dereferences nil: the debug print of the Uplink NAS loop on a nil cell,
      or the Release Command loop on an AMF ID IE without UE-NGAP-IDs. */
  predicate WriteCrashesAt(rule: WriteRule, ie: Ie) {
    match rule
    case WriteIds(_, _, prints) =>
      prints && ((ie.id.RanUeNgapId? && ie.ran.None?) || (ie.id.AmfUeNgapId? && ie.amf.None?))
    case WriteReleaseCommand => ie.id.AmfUeNgapId? && ie.ueNgapIds.None?
    case WriteError => false
  }

  predicate WriteCrashes(rule: WriteRule, ies: seq<Ie>) {
    exists i | 0 <= i < |ies| :: WriteCrashesAt(rule, ies[i])
  }

  function WriteIes(rule: WriteRule, ies: seq<Ie>, ran: int, amf: int): (r: seq<Ie>)
    ensures |r| == |ies|
    ensures forall i :: 0 <= i < |ies| ==> r[i] == WriteIe(rule, ies[i], ran, amf)
  {
    seq(|ies|, i requires 0 <= i < |ies| => WriteIe(rule, ies[i], ran, amf))
  }

  datatype Modification = Modified(pdu: Pdu<Ie>) | ModifyError | ModifyCrash

  function Modify(pdu: Pdu<Ie>, ran: int, amf: int): Modification {
    match pdu.Payload()
    case Some(Message(p, Some(ies))) =>
      var rule := WriteRuleOf(pdu.Class(), p);
      if rule.WriteError? then ModifyError
      else if WriteCrashes(rule, ies) then ModifyCrash
      else Modified(pdu.(payload := Some(Message(p, Some(WriteIes(rule, ies, ran, amf))))))
    case _ => ModifyError
  }

  /** Modification of the PDU dereferences nil, whatever the new IDs. */
  predicate MeetsNil(pdu: Pdu<Ie>) {
    match pdu.Payload()
    case Some(Message(p, Some(ies))) => WriteCrashes(WriteRuleOf(pdu.Class(), p), ies)
    case _ => false
  }

  /** What the handlers send: the rewritten PDU, or the original when modification reports an error. */
  function Rewrite(pdu: Pdu<Ie>, ran: int, amf: int): Pdu<Ie> {
    match Modify(pdu, ran, amf)
    case Modified(out) => out
    case _ => pdu
  }

  // ---------- laws ----------

  /** The ID IE of field `f` is read by this PDU's procedure and carries a value. */
  predicate Carries(pdu: Pdu<Ie>, f: Field) {
    match pdu.Payload()
    case Some(Message(p, Some(ies))) => LastHeld(ReadRuleOf(pdu.Class(), p), f, ies).Some?
    case _ => false
  }

  predicate IsContextRelease(pdu: Pdu<Ie>) {
    pdu.Payload().Some? && pdu.Payload().value.procedure.UEContextRelease? && !pdu.Class().Unsuccessful?
  }

  predicate IsReleaseCommand(pdu: Pdu<Ie>) {
    IsContextRelease(pdu) && pdu.Class().Initiating?
  }

  lemma {:induction false} WriteThenLastHeld(read: ReadRule, write: WriteRule, f: Field, ies: seq<Ie>,
                                             ran: int, amf: int)
    requires read.ReadIds? && RulesAgree(read, write)
    ensures LastHeld(read, f, WriteIes(write, ies, ran, amf)) ==
            if LastHeld(read, f, ies).None? then None else Some(if f.RanField? then ran else amf)
  {
    if ies != [] {
      var front := ies[..|ies| - 1];
      WriteThenLastHeld(read, write, f, front, ran, amf);
      var out := WriteIes(write, ies, ran, amf);
      assert out[..|out| - 1] == WriteIes(write, front, ran, amf);
    }
  }

  /** Put then get: the new IDs come back for exactly the ID IEs that the procedure reads and that
      are present; whether anything is found does not change. */
  lemma ModifyThenExtract(pdu: Pdu<Ie>, ran: int, amf: int)
    requires Modify(pdu, ran, amf).Modified? && !IsContextRelease(pdu)
    ensures var out := Modify(pdu, ran, amf).pdu;
            && Extract(out) == UeIds(if Carries(pdu, RanField) then ran else 0,
                                     if Carries(pdu, AmfField) then amf else 0,
                                     Carries(pdu, RanField) || Carries(pdu, AmfField))
            && Extract(pdu).UeIds? && Extract(out).found == Extract(pdu).found
            && (Carries(out, RanField) <==> Carries(pdu, RanField))
            && (Carries(out, AmfField) <==> Carries(pdu, AmfField))
  {
    var Message(p, Some(ies)) := pdu.Payload().value;
    var read, write := ReadRuleOf(pdu.Class(), p), WriteRuleOf(pdu.Class(), p);
    TablesAgree(pdu.Class(), p);
    WriteThenLastHeld(read, write, RanField, ies, ran, amf);
    WriteThenLastHeld(read, write, AmfField, ies, ran, amf);
  }

  /** Two puts equal the last put, for every procedure. */
  lemma ModifyTwice(pdu: Pdu<Ie>, ran0: int, amf0: int, ran: int, amf: int)
    requires Modify(pdu, ran0, amf0).Modified?
    ensures Modify(Modify(pdu, ran0, amf0).pdu, ran, amf) == Modify(pdu, ran, amf)
  {
    var Message(p, Some(ies)) := pdu.Payload().value;
    var rule := WriteRuleOf(pdu.Class(), p);
    var once := WriteIes(rule, ies, ran0, amf0);
    assert WriteIes(rule, once, ran, amf) == WriteIes(rule, ies, ran, amf);
    assert !WriteCrashes(rule, once);
  }

  /** Every value that extraction reads for field `f` is `v`. */
  predicate AllHeldAre(pdu: Pdu<Ie>, f: Field, v: int)
    requires pdu.Payload().Some? && pdu.Payload().value.body.Some?
  {
    var m := pdu.Payload().value;
    forall i | 0 <= i < |m.body.value| ::
      var probe := ProbeIe(ReadRuleOf(pdu.Class(), m.procedure), f, m.body.value[i]);
      probe.Holds? ==> probe.value == v
  }

  /** Put of get is the identity exactly when repeated ID IEs agree; in particular when each occurs once. */
  lemma ModifyWithExtracted(pdu: Pdu<Ie>)
    requires !IsContextRelease(pdu) && Extract(pdu).UeIds?
    requires Modify(pdu, 0, 0).Modified?
    ensures Modify(pdu, Extract(pdu).ran, Extract(pdu).amf) == Modified(pdu) <==>
            AllHeldAre(pdu, RanField, Extract(pdu).ran) && AllHeldAre(pdu, AmfField, Extract(pdu).amf)
  {
    var Message(p, Some(ies)) := pdu.Payload().value;
    var read, write := ReadRuleOf(pdu.Class(), p), WriteRuleOf(pdu.Class(), p);
    var ids := Extract(pdu);
    TablesAgree(pdu.Class(), p);
    var out := WriteIes(write, ies, ids.ran, ids.amf);
    if AllHeldAre(pdu, RanField, ids.ran) && AllHeldAre(pdu, AmfField, ids.amf) {
      forall i | 0 <= i < |ies| ensures out[i] == ies[i] {
        var r, a := ProbeIe(read, RanField, ies[i]), ProbeIe(read, AmfField, ies[i]);
        assert r.Holds? ==> r.value == ids.ran;
        assert a.Holds? ==> a.value == ids.amf;
      }
      assert out == ies;
    }
    if Modify(pdu, ids.ran, ids.amf) == Modified(pdu) {
      assert out == ies;
      forall i | 0 <= i < |ies|
        ensures ProbeIe(read, RanField, ies[i]).Holds? ==> ProbeIe(read, RanField, ies[i]).value == ids.ran
        ensures ProbeIe(read, AmfField, ies[i]).Holds? ==> ProbeIe(read, AmfField, ies[i]).value == ids.amf
      {
        assert out[i] == WriteIe(write, ies[i], ids.ran, ids.amf);
      }
    }
  }

  /** An IE without its ID values: everything modification must not touch. */
  function Blank(ie: Ie): Ie {
    var none := (c: Option<int>) => if c.Some? then Some(0) else None;
    match ie.id
    case RanUeNgapId => ie.(ran := none(ie.ran))
    case AmfUeNgapId => ie.(amf := none(ie.amf),
                            ueNgapIds := if ie.ueNgapIds.Some? then Some(none(ie.ueNgapIds.value)) else None)
    case _ => ie
  }

  function BlankAll(ies: seq<Ie>): (r: seq<Ie>)
    ensures |r| == |ies|
    ensures forall i :: 0 <= i < |ies| ==> r[i] == Blank(ies[i])
  {
    seq(|ies|, i requires 0 <= i < |ies| => Blank(ies[i]))
  }

  /** The non-ID content of a PDU: class, procedure, IE order, and every IE up to its ID values. */
  function Content(pdu: Pdu<Ie>): Pdu<Ie> {
    match pdu.Payload()
    case Some(Message(p, Some(ies))) => pdu.(payload := Some(Message(p, Some(BlankAll(ies)))))
    case _ => pdu
  }

  /** The two IEs differ at most in the values of UE ID cells. */
  predicate SameButIds(x: Ie, y: Ie) {
    && x.id == y.id && x.rest == y.rest && x.pair == y.pair
    && (x.ran.Some? <==> y.ran.Some?) && (x.amf.Some? <==> y.amf.Some?)
    && (x.ueNgapIds.Some? <==> y.ueNgapIds.Some?)
    && (x.ueNgapIds.Some? ==> (x.ueNgapIds.value.Some? <==> y.ueNgapIds.value.Some?))
    && (x.ran == y.ran || x.id.RanUeNgapId?)
    && ((x.amf == y.amf && x.ueNgapIds == y.ueNgapIds) || x.id.AmfUeNgapId?)
  }

  lemma SameBlank(x: Ie, y: Ie)
    ensures Blank(x) == Blank(y) <==> SameButIds(x, y)
  {
  }

  /** Two PDUs have the same content exactly when they differ at most in UE ID values. */
  lemma SameContentExactly(x: Pdu<Ie>, y: Pdu<Ie>)
    requires x.Payload().Some? && x.Payload().value.body.Some? && y.Payload().Some? && y.Payload().value.body.Some?
    ensures var m, n := x.payload.value, y.payload.value;
            Content(x) == Content(y) <==>
              && x.present == y.present && m.procedure == n.procedure && |m.body.value| == |n.body.value|
              && forall i :: 0 <= i < |m.body.value| ==> SameButIds(m.body.value[i], n.body.value[i])
  {
    var xs, ys := x.payload.value.body.value, y.payload.value.body.value;
    forall a: Ie, b: Ie ensures Blank(a) == Blank(b) <==> SameButIds(a, b) { SameBlank(a, b); }
    if Content(x) == Content(y) {
      forall i | 0 <= i < |xs| ensures Blank(xs[i]) == Blank(ys[i]) {
        assert BlankAll(xs)[i] == BlankAll(ys)[i];
      }
    } else if |xs| == |ys| && forall i :: 0 <= i < |xs| ==> SameButIds(xs[i], ys[i]) {
      assert BlankAll(xs) == BlankAll(ys);
    }
  }

  /** Modification keeps the content: other IEs, order, length and procedure code. */
  lemma RewriteKeepsContent(pdu: Pdu<Ie>, ran: int, amf: int)
    ensures Content(Rewrite(pdu, ran, amf)) == Content(pdu)
    ensures Rewrite(pdu, ran, amf).present == pdu.present
    ensures pdu.Payload().Some? ==>
              && Rewrite(pdu, ran, amf).Payload().Some?
              && Rewrite(pdu, ran, amf).Payload().value.procedure == pdu.Payload().value.procedure
  {
    if Modify(pdu, ran, amf).Modified? {
      var Message(p, Some(ies)) := pdu.Payload().value;
      var rule := WriteRuleOf(pdu.Class(), p);
      assert BlankAll(WriteIes(rule, ies, ran, amf)) == BlankAll(ies);
    }
  }

  lemma {:induction false} NothingHeld(f: Field, ies: seq<Ie>)
    ensures LastHeld(ReadNothing, f, ies) == None
  {
    if ies != [] {
      NothingHeld(f, ies[..|ies| - 1]);
    }
  }

  /** When extraction finds IDs, modification succeeds except for the Release messages and for the
      Uplink NAS debug print on a nil cell. */
  lemma FoundThenModified(pdu: Pdu<Ie>, ran: int, amf: int)
    requires Extract(pdu).UeIds? && Extract(pdu).found && !IsContextRelease(pdu)
    ensures Modify(pdu, ran, amf).Modified? <==> !MeetsNil(pdu)
    ensures !Modify(pdu, ran, amf).ModifyError?
  {
    var Message(p, Some(ies)) := pdu.Payload().value;
    TablesAgree(pdu.Class(), p);
    if ReadRuleOf(pdu.Class(), p).ReadNothing? {
      NothingHeld(RanField, ies);
      NothingHeld(AmfField, ies);
    }
  }

  /** Release Complete: extraction may find IDs, modification always fails, so the original is sent. */
  lemma ReleaseCompleteKeepsIds(pdu: Pdu<Ie>, ran: int, amf: int)
    requires pdu.present == PresentSuccessful
    requires pdu.Payload().Some? && pdu.Payload().value.procedure == UEContextRelease
    ensures Modify(pdu, ran, amf).ModifyError? && Rewrite(pdu, ran, amf) == pdu
    ensures exists lost: Pdu<Ie> ::
              && lost.present == PresentSuccessful && IsContextRelease(lost)
              && Extract(lost) == UeIds(7, 9, true)
              && Extract(Rewrite(lost, 1, 2)) == UeIds(7, 9, true)
  {
    var r := Ie(RanUeNgapId, Some(7), None, None, None, []);
    var a := Ie(AmfUeNgapId, None, Some(9), None, None, []);
    var lost := Pdu(PresentSuccessful, Some(Message(UEContextRelease, Some([r, a]))));
    assert [r, a][..1] == [r];
    assert LastHeld(ReadIds(true, true), AmfField, [r, a]) == Some(9);
    assert LastHeld(ReadIds(true, true), RanField, [r]) == Some(7);
    assert LastHeld(ReadIds(true, true), RanField, [r, a]) == Some(7);
    assert Extract(lost) == UeIds(7, 9, true);
    assert Rewrite(lost, 1, 2) == lost;
  }
}
