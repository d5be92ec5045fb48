/** Which handler a received PDU reaches, on each side of the proxy. */
module Dispatch {
  import opened Naming
  import opened Ngap
  import opened Options

  datatype GnbRoute = GnbRejects | SetupReply | Initial | UplinkNas | ForwardToAmf

  /** Every payload that is present and has no handler of its own is forwarded, logged or not. */
  function GnbRouteOf<I>(pdu: Pdu<I>): GnbRoute {
    if pdu.present.PresentOther? then ForwardToAmf
    else if pdu.payload.None? then GnbRejects
    else if pdu.present.PresentInitiating? then
      match pdu.payload.value.procedure
      case NGSetup => SetupReply
      case InitialUEMessage => Initial
      case UplinkNASTransport => UplinkNas
      case _ => ForwardToAmf
    else ForwardToAmf
  }

  datatype AmfRoute = AmfRejects | DownlinkNas | ForwardToGnb

  function AmfRouteOf<I>(pdu: Pdu<I>): AmfRoute {
    if pdu.present.PresentOther? then ForwardToGnb
    else if pdu.payload.None? then AmfRejects
    else if pdu.present.PresentInitiating? && pdu.payload.value.procedure.DownlinkNASTransport? then DownlinkNas
    else ForwardToGnb
  }

  /** An NG Setup response also registers the AMF with its manager before it is forwarded. */
  predicate RegistersAmf<I>(pdu: Pdu<I>) {
    pdu.present.PresentSuccessful? && pdu.payload.Some? && pdu.payload.value.procedure.NGSetup?
  }

  // ---------- the switches ----------

  /** Messages that the gNB side only logs. */
  predicate LoggedFromGnb(c: PduClass, p: Procedure) {
    match c
    case Initiating =>
      p in {AMFConfigurationUpdate, AMFStatusIndication, DownlinkNonUEAssociatedNRPPaTransport,
            DownlinkRANConfigurationTransfer, OverloadStart, OverloadStop, PWSCancel, PWSFailureIndication,
            PWSRestartIndication, Paging, RANConfigurationUpdate, UplinkNonUEAssociatedNRPPaTransport,
            UplinkRANConfigurationTransfer, WriteReplaceWarning}
    case Successful => p in {AMFConfigurationUpdate, PWSCancel, RANConfigurationUpdate, WriteReplaceWarning}
    case Unsuccessful => p in {AMFConfigurationUpdate, RANConfigurationUpdate}
  }

  /** The AMF side logs the same messages. */
  predicate LoggedFromAmf(c: PduClass, p: Procedure) {
    LoggedFromGnb(c, p) || (c.Successful? && p.NGSetup?)
  }

  /** The gNB side's switch: the handler that returns inside it, or None when the message leaves it
      and reaches the forward behind. */
  function SwitchFromGnb<I>(pdu: Pdu<I>): Option<GnbRoute> {
    if pdu.present.PresentOther? then None
    else if pdu.payload.None? then Some(GnbRejects)
    else
      var p := pdu.payload.value.procedure;
      if LoggedFromGnb(pdu.Class(), p) then None
      else match pdu.Class()
        case Initiating =>
          if p.NGSetup? then Some(SetupReply)
          else if p.InitialUEMessage? then Some(Initial)
          else if p.UplinkNASTransport? then Some(UplinkNas)
          else Some(ForwardToAmf)
        case _ => Some(ForwardToAmf)
  }

  function SwitchFromAmf<I>(pdu: Pdu<I>): Option<AmfRoute> {
    if pdu.present.PresentOther? then None
    else if pdu.payload.None? then Some(AmfRejects)
    else
      var p := pdu.payload.value.procedure;
      if LoggedFromAmf(pdu.Class(), p) then None
      else if pdu.Class().Initiating? && p.DownlinkNASTransport? then Some(DownlinkNas)
      else Some(ForwardToGnb)
  }

  /** Logged or not, every present payload without a handler of its own is forwarded. */
  lemma GnbSwitchForwards<I>(pdu: Pdu<I>)
    ensures SwitchFromGnb(pdu).GetOr(ForwardToAmf) == GnbRouteOf(pdu)
  {
  }

  lemma AmfSwitchForwards<I>(pdu: Pdu<I>)
    ensures SwitchFromAmf(pdu).GetOr(ForwardToGnb) == AmfRouteOf(pdu)
  {
  }

  predicate IsInitiating<I>(pdu: Pdu<I>, p: Procedure) {
    pdu.present.PresentInitiating? && pdu.payload.Some? && pdu.payload.value.procedure == p
  }

  /** Which handler, by the PDU alone. */
  lemma RoutesExactly<I>(pdu: Pdu<I>)
    ensures GnbRouteOf(pdu).GnbRejects? <==> pdu.payload.None? && !pdu.present.PresentOther?
    ensures GnbRouteOf(pdu).SetupReply? <==> IsInitiating(pdu, NGSetup)
    ensures GnbRouteOf(pdu).Initial? <==> IsInitiating(pdu, InitialUEMessage)
    ensures GnbRouteOf(pdu).UplinkNas? <==> IsInitiating(pdu, UplinkNASTransport)
    ensures AmfRouteOf(pdu).AmfRejects? <==> pdu.payload.None? && !pdu.present.PresentOther?
    ensures AmfRouteOf(pdu).DownlinkNas? <==> IsInitiating(pdu, DownlinkNASTransport)
  {
  }

  // ---------- lookup keys ----------

  /** The NAS handlers fall back to RAN ID 1 when nothing is found. */
  function NasKey(ids: Extraction): int
    requires ids.UeIds?
  {
    if ids.found then ids.ran else 1
  }

  /** The key of the gNB's table lookup. */
  function RanKey(pdu: Pdu<Ie>): int
    requires Extract(pdu).UeIds?
  {
    if GnbRouteOf(pdu).Initial? || GnbRouteOf(pdu).UplinkNas? then NasKey(Extract(pdu)) else Extract(pdu).ran
  }

  /** A covered RAN ID is found and is the key; no handler answers or refuses such a message itself. */
  lemma CoveredRanIsKey(pdu: Pdu<Ie>)
    requires Covers(pdu, RanField)
    ensures Extract(pdu).UeIds? && Extract(pdu).found
    ensures NamedRan(pdu) == Some(RanKey(pdu)) && Extract(pdu).ran == RanKey(pdu)
    ensures !GnbRouteOf(pdu).GnbRejects? && !GnbRouteOf(pdu).SetupReply?
  {
    ReadExactlyCovered(pdu, RanField);
  }

  /** A covered AMF ID is found; no handler refuses such a message. */
  lemma CoveredAmfIsFound(pdu: Pdu<Ie>)
    requires Covers(pdu, AmfField)
    ensures Extract(pdu).UeIds? && Extract(pdu).found
    ensures NamedAmf(pdu) == Some(Extract(pdu).amf)
    ensures !AmfRouteOf(pdu).AmfRejects?
  {
    ReadExactlyCovered(pdu, AmfField);
  }

  /** Rewriting renames exactly the covered IDs and changes neither content nor route. */
  lemma RewriteRenames(pdu: Pdu<Ie>, ran: int, amf: int)
    requires !Modify(pdu, ran, amf).ModifyCrash?
    ensures var out := Rewrite(pdu, ran, amf);
            && NamedRan(out) == (if Covers(pdu, RanField) then Some(ran) else NamedRan(pdu))
            && NamedAmf(out) == (if Covers(pdu, AmfField) then Some(amf) else NamedAmf(pdu))
            && (Covers(out, RanField) <==> Covers(pdu, RanField))
            && (Covers(out, AmfField) <==> Covers(pdu, AmfField))
            && Content(out) == Content(pdu)
            && GnbRouteOf(out) == GnbRouteOf(pdu) && AmfRouteOf(out) == AmfRouteOf(pdu)
  {
    RewriteNames(pdu, ran, amf, RanField);
    RewriteNames(pdu, ran, amf, AmfField);
    RewriteKeepsContent(pdu, ran, amf);
  }
}
