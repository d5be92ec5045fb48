/** What each handler does with a PDU when no other goroutine interferes: its effect on the tables and
    the one send, broadcast or failure it ends with. */
module Reactions {
  import opened Dispatch
  import opened Ngap
  import opened Options
  import opened UeTables

  datatype Node = AmfNode(id: int) | GnbNode(id: int)
  datatype Frame = Frame(to: Node, pdu: Pdu<Ie>, ok: bool)

  datatype Reaction =
    | Dies                                  // nil dereference
    | Fails                                 // error before any send
    | SendTo(to: Node, pdu: Pdu<Ie>)
    | Broadcast(pdu: Pdu<Ie>)

  datatype PickOutcome = NoPick | Picks(amf: int) | PickDies

  datatype Status = Forwarded | Errored | Panicked

  function CopiesTo(order: seq<int>, pdu: Pdu<Ie>, healthy: set<Node>): (r: seq<Frame>)
    ensures |r| == |order|
    ensures forall i :: 0 <= i < |r| ==> r[i] == Frame(GnbNode(order[i]), pdu, GnbNode(order[i]) in healthy)
  {
    seq(|order|, i requires 0 <= i < |order| => Frame(GnbNode(order[i]), pdu, GnbNode(order[i]) in healthy))
  }

  /** The sends attempted for a reaction: none, one, or one copy for each gNB of `order`, which is
      consulted for broadcasts only. */
  function Sent(r: Reaction, healthy: set<Node>, order: seq<int>): seq<Frame> {
    match r
    case SendTo(to, pdu) => [Frame(to, pdu, to in healthy)]
    case Broadcast(pdu) => CopiesTo(order, pdu, healthy)
    case _ => []
  }

  /** Every member once. */
  predicate Enumerates(order: seq<int>, members: set<int>) {
    && (forall i | 0 <= i < |order| :: order[i] in members)
    && (forall i, j | 0 <= i < j < |order| :: order[i] != order[j])
    && (forall g | g in members :: g in order)
  }

  /** A broadcast succeeds exactly when at least one copy does. */
  function StatusOf(r: Reaction, healthy: set<Node>, order: seq<int>): Status {
    match r
    case Dies => Panicked
    case Fails => Errored
    case SendTo(to, _) => if to in healthy then Forwarded else Errored
    case Broadcast(_) => if exists i | 0 <= i < |order| :: GnbNode(order[i]) in healthy then Forwarded else Errored
  }

  /** Every send attempted so far, and what the handler returns. */
  datatype Outcome = Outcome(frames: seq<Frame>, status: Status)

  function OutcomeOf(r: Reaction, before: seq<Frame>, healthy: set<Node>, order: seq<int>): Outcome {
    Outcome(before + Sent(r, healthy, order), StatusOf(r, healthy, order))
  }

  /** The proxy's own answer to a gNB's NG Setup request; its IEs are not modelled. */
  const SETUP_RESPONSE: Pdu<Ie> := Pdu(PresentSuccessful, Some(Message(NGSetup, Some([]))))

  function SendRewritten(to: Node, pdu: Pdu<Ie>, ran: int, amf: int): Reaction {
    if Modify(pdu, ran, amf).ModifyCrash? then Dies else SendTo(to, Rewrite(pdu, ran, amf))
  }

  /** To the AMF of the context, as (LB ID, AMF ID). */
  function ToBoundAmf(t: Tables, lb: int, pdu: Pdu<Ie>): Reaction
    requires lb in t.ues
  {
    SendRewritten(AmfNode(t.ues[lb].amf), pdu, t.ues[lb].lbId, t.ues[lb].amfUeId)
  }

  function UplinkNasReaction(t: Tables, g: int, pdu: Pdu<Ie>): Reaction {
    if Extract(pdu).ExtractCrash? then Dies
    else match FindByRan(t, g, NasKey(Extract(pdu)))
      case Some(lb) => if lb in t.ues then ToBoundAmf(t, lb, pdu) else Fails
      case None => Fails
  }

  function RelayReaction(pdu: Pdu<Ie>, pick: PickOutcome): Reaction {
    match pick
    case Picks(a) => SendTo(AmfNode(a), pdu)
    case NoPick => Fails
    case PickDies => Dies
  }

  /** The context that the gNB has for the IDs found. */
  function UplinkUe(t: Tables, g: int, pdu: Pdu<Ie>): Option<int> {
    match Extract(pdu)
    case UeIds(ran, _, true) => FindByRan(t, g, ran)
    case _ => None
  }

  function ForwardToAmfReaction(t: Tables, g: int, pdu: Pdu<Ie>, pick: PickOutcome): Reaction {
    var ue := UplinkUe(t, g, pdu);
    if Extract(pdu).ExtractCrash? then Dies
    else if ue.Some? && ue.value in t.ues then ToBoundAmf(t, ue.value, pdu)
    else RelayReaction(pdu, pick)
  }

  /** The context is created only when an AMF was picked. */
  function InitialTables(t: Tables, g: int, pdu: Pdu<Ie>, pick: PickOutcome): Tables {
    if Extract(pdu).UeIds? && pick.Picks? then Create(t, pick.amf, g, NasKey(Extract(pdu))) else t
  }

  /** To the AMF picked, as (the new LB ID, 0). */
  function StartReaction(t: Tables, pdu: Pdu<Ie>, pick: PickOutcome): Reaction {
    match pick
    case NoPick => Fails
    case PickDies => Dies
    case Picks(a) => SendRewritten(AmfNode(a), pdu, t.next, 0)
  }

  function InitialReaction(t: Tables, pdu: Pdu<Ie>, pick: PickOutcome): Reaction {
    if Extract(pdu).ExtractCrash? then Dies else StartReaction(t, pdu, pick)
  }

  /** `admitted` is the admission gate's answer, asked for InitialUEMessages only. */
  function GnbReaction(t: Tables, g: int, pdu: Pdu<Ie>, admitted: bool, pick: PickOutcome): Reaction {
    match GnbRouteOf(pdu)
    case GnbRejects => Fails
    case SetupReply => SendTo(GnbNode(g), SETUP_RESPONSE)
    case Initial => if admitted then InitialReaction(t, pdu, pick) else Fails
    case UplinkNas => UplinkNasReaction(t, g, pdu)
    case ForwardToAmf => ForwardToAmfReaction(t, g, pdu, pick)
  }

  function GnbTables(t: Tables, g: int, pdu: Pdu<Ie>, admitted: bool, pick: PickOutcome): Tables {
    if GnbRouteOf(pdu).Initial? && admitted then InitialTables(t, g, pdu, pick) else t
  }

  /** An AMF is picked for an admitted InitialUEMessage and for a forwarded message without a context. */
  predicate Picking(t: Tables, g: int, pdu: Pdu<Ie>, admitted: bool) {
    match GnbRouteOf(pdu)
    case Initial => admitted && Extract(pdu).UeIds?
    case ForwardToAmf => Extract(pdu).UeIds? && UplinkUe(t, g, pdu).None?
    case _ => false
  }

  /** The context that a Downlink NAS message names by LB ID. */
  function DownlinkUe(t: Tables, pdu: Pdu<Ie>): Option<int> {
    match Extract(pdu)
    case UeIds(ran, _, true) => if ran in t.ues then Some(ran) else None
    case _ => None
  }

  function DownlinkNasTables(t: Tables, a: int, pdu: Pdu<Ie>): Tables {
    match DownlinkUe(t, pdu)
    case Some(lb) => AddToAmf(SetAmfUeId(t, lb, Extract(pdu).amf), a, lb)
    case None => t
  }

  /** To the gNB found, as (RAN ID, LB ID). */
  function ToGnb(t: Tables, lb: int, g: int, pdu: Pdu<Ie>): Reaction
    requires lb in t.ues
  {
    SendRewritten(GnbNode(g), pdu, t.ues[lb].ranUeId, t.ues[lb].lbId)
  }

  function DownlinkNasReaction(t: Tables, pdu: Pdu<Ie>, target: Option<int>): Reaction {
    if Extract(pdu).ExtractCrash? then Dies
    else match DownlinkUe(t, pdu)
      case Some(lb) => if target.Some? then ToGnb(t, lb, target.value, pdu) else Fails
      case None => Fails
  }

  /** The context that the AMF has filed under the AMF ID found. */
  function UeOfAmfId(t: Tables, a: int, pdu: Pdu<Ie>): Option<int> {
    match Extract(pdu)
    case UeIds(_, amf, true) => FindByAmfId(t, a, amf)
    case _ => None
  }

  function ToOwnerOrAll(t: Tables, ue: Option<int>, pdu: Pdu<Ie>, target: Option<int>): Reaction {
    if ue.Some? && ue.value in t.ues && target.Some? then ToGnb(t, ue.value, target.value, pdu)
    else Broadcast(pdu)
  }

  function ForwardToGnbReaction(t: Tables, a: int, pdu: Pdu<Ie>, target: Option<int>): Reaction {
    if Extract(pdu).ExtractCrash? then Dies else ToOwnerOrAll(t, UeOfAmfId(t, a, pdu), pdu, target)
  }

  function AmfReaction(t: Tables, a: int, pdu: Pdu<Ie>, target: Option<int>): Reaction {
    match AmfRouteOf(pdu)
    case AmfRejects => Fails
    case DownlinkNas => DownlinkNasReaction(t, pdu, target)
    case ForwardToGnb => ForwardToGnbReaction(t, a, pdu, target)
  }

  function AmfTables(t: Tables, a: int, pdu: Pdu<Ie>): Tables {
    if AmfRouteOf(pdu).DownlinkNas? then DownlinkNasTables(t, a, pdu) else t
  }

  /** The context whose gNB is searched, if any. */
  function Sought(t: Tables, a: int, pdu: Pdu<Ie>): Option<int> {
    match AmfRouteOf(pdu)
    case AmfRejects => None
    case DownlinkNas => DownlinkUe(t, pdu)
    case ForwardToGnb => UeOfAmfId(t, a, pdu)
  }

  /** A gNB search over `list` may end with this result: any listed gNB that has the RAN ID, or none
      when there is no such gNB. */
  predicate Finds(t: Tables, list: set<int>, lb: int, target: Option<int>) {
    match target
    case Some(g) => g in list && HasUeContext(t, g, lb)
    case None => forall g | g in list :: !HasUeContext(t, g, lb)
  }

  // ---------- delivery ----------

  /** A gNB handler sends at most one message to an AMF; the NG Setup answer goes to the gNB itself. It
      fails without a send exactly when the payload is missing, admission or the pick refuses, or an
      Uplink NAS message has no context. */
  lemma GnbDelivery(t: Tables, g: int, pdu: Pdu<Ie>, admitted: bool, pick: PickOutcome)
    requires Coherent(t)
    ensures var r, route := GnbReaction(t, g, pdu, admitted, pick), GnbRouteOf(pdu);
            && !r.Broadcast?
            && (r.SendTo? ==> (r.to.GnbNode? <==> route.SetupReply?) && (r.to.GnbNode? ==> r.to.id == g))
            && (r.Fails? <==>
                  match route
                  case GnbRejects => true
                  case SetupReply => false
                  case Initial => !admitted || (Extract(pdu).UeIds? && pick.NoPick?)
                  case UplinkNas => Extract(pdu).UeIds? && FindByRan(t, g, NasKey(Extract(pdu))).None?
                  case ForwardToAmf => Extract(pdu).UeIds? && UplinkUe(t, g, pdu).None? && pick.NoPick?)
  {
    var lb := if GnbRouteOf(pdu).UplinkNas? && Extract(pdu).UeIds? then FindByRan(t, g, NasKey(Extract(pdu)))
              else UplinkUe(t, g, pdu);
    if lb.Some? {
      assert g in t.gnbUes;
      assert lb.value in t.ues;
    }
  }

  /** An AMF handler makes one targeted send to a gNB, or broadcasts the message as received. It fails
      without a send exactly when the payload is missing or a Downlink NAS message has no context or no
      gNB. */
  lemma AmfDelivery(t: Tables, a: int, pdu: Pdu<Ie>, target: Option<int>)
    requires Coherent(t)
    ensures var r, route := AmfReaction(t, a, pdu, target), AmfRouteOf(pdu);
            && (r.SendTo? ==> r.to.GnbNode? && target == Some(r.to.id) && Sought(t, a, pdu).Some?)
            && (r.Broadcast? <==>
                  route.ForwardToGnb? && Extract(pdu).UeIds? && (Sought(t, a, pdu).None? || target.None?))
            && (r.Broadcast? ==> r.pdu == pdu)
            && (r.Fails? <==>
                  route.AmfRejects? ||
                  (route.DownlinkNas? && Extract(pdu).UeIds? && (Sought(t, a, pdu).None? || target.None?)))
  {
    var lb := Sought(t, a, pdu);
    if lb.Some? && AmfRouteOf(pdu).ForwardToGnb? {
      assert a in t.amfUes;
      assert lb.value in t.ues;
    }
  }

  /** Every message that is there, logged or not, is sent on when it meets no nil and an AMF can be picked:
      NG Setup, InitialUEMessage and Uplink NAS apart, to the AMF of its context renamed, and without a
      context to the AMF picked as it is. */
  lemma GnbForwards(t: Tables, g: int, pdu: Pdu<Ie>, admitted: bool, a: int)
    requires Coherent(t) && (pdu.payload.Some? || pdu.present.PresentOther?)
    requires !IsInitiating(pdu, NGSetup) && !IsInitiating(pdu, InitialUEMessage)
    requires !IsInitiating(pdu, UplinkNASTransport)
    requires Extract(pdu).UeIds? && !MeetsNil(pdu)
    ensures var r, ids := GnbReaction(t, g, pdu, admitted, Picks(a)), Extract(pdu);
            var ue := if ids.found then FindByRan(t, g, ids.ran) else None;
            match ue
            case Some(lb) =>
              lb in t.ues && r == SendTo(AmfNode(t.ues[lb].amf), Rewrite(pdu, t.ues[lb].lbId, t.ues[lb].amfUeId))
            case None => r == SendTo(AmfNode(a), pdu)
  {
    if UplinkUe(t, g, pdu).Some? {
      assert Names(t, UplinkUe(t, g, pdu).value, g, Extract(pdu).ran);
    }
  }

  /** The same on the AMF side, Downlink NAS apart: to the gNB found for its context renamed, and otherwise
      to all gNBs as it is. */
  lemma AmfForwards(t: Tables, a: int, pdu: Pdu<Ie>, target: Option<int>)
    requires Coherent(t) && (pdu.payload.Some? || pdu.present.PresentOther?)
    requires !IsInitiating(pdu, DownlinkNASTransport) && Extract(pdu).UeIds? && !MeetsNil(pdu)
    ensures var r, ids := AmfReaction(t, a, pdu, target), Extract(pdu);
            var ue := if ids.found then FindByAmfId(t, a, ids.amf) else None;
            if ue.Some? && target.Some? then
              ue.value in t.ues &&
              r == SendTo(GnbNode(target.value), Rewrite(pdu, t.ues[ue.value].ranUeId, t.ues[ue.value].lbId))
            else r == Broadcast(pdu)
  {
    assert UeOfAmfId(t, a, pdu).Some? ==> a in t.amfUes;
  }

  // ---------- what is seen on the wire ----------

  /** A reaction without a broadcast, as the wire and the caller see it. */
  predicate SentOnce(r: Reaction, before: seq<Frame>, after: seq<Frame>, healthy: set<Node>, status: Status) {
    match r
    case SendTo(to, pdu) =>
      && after == before + [Frame(to, pdu, to in healthy)]
      && status == if to in healthy then Forwarded else Errored
    case Fails => after == before && status == Errored
    case Dies => after == before && status == Panicked
    case Broadcast(_) => false
  }

  lemma OneSend(r: Reaction, before: seq<Frame>, healthy: set<Node>, order: seq<int>)
    requires !r.Broadcast?
    ensures var o := OutcomeOf(r, before, healthy, order); SentOnce(r, before, o.frames, healthy, o.status)
  {
  }

  /** A gNB handler's send, if any, is one frame; NG Setup is answered with a success of that procedure. */
  lemma GnbSends(t: Tables, g: int, pdu: Pdu<Ie>, admitted: bool, pick: PickOutcome, before: seq<Frame>,
                 healthy: set<Node>)
    ensures var r := GnbReaction(t, g, pdu, admitted, pick);
            var o := OutcomeOf(r, before, healthy, []);
            && SentOnce(r, before, o.frames, healthy, o.status)
            && (IsInitiating(pdu, NGSetup) ==>
                  && r.SendTo? && r.to == GnbNode(g) && r.pdu.present.PresentSuccessful? && r.pdu.payload.Some?
                  && r.pdu.payload.value.procedure == pdu.payload.value.procedure)
  {
    OneSend(GnbReaction(t, g, pdu, admitted, pick), before, healthy, []);
  }

  lemma {:induction false} OnceIn<T>(xs: seq<T>, i: nat)
    requires i < |xs| && forall j :: 0 <= j < |xs| && j != i ==> xs[j] != xs[i]
    ensures multiset(xs)[xs[i]] == 1
  {
    assert xs == xs[..i] + [xs[i]] + xs[i + 1..];
  }

  lemma {:induction false} EnumerationSize(order: seq<int>, members: set<int>)
    requires Enumerates(order, members)
    ensures |order| == |members|
    decreases |order|
  {
    if order == [] {
      assert forall g :: g in members ==> g in order;
      assert members == {};
    } else {
      var front, last := order[..|order| - 1], order[|order| - 1];
      forall g | g in members - {last} ensures g in front {
        var i :| 0 <= i < |order| && order[i] == g;
        assert front[i] == g;
      }
      EnumerationSize(front, members - {last});
    }
  }

  /** Every gNB of `members` is sent one copy, and nothing else is sent. */
  ghost predicate OneCopyEach(before: seq<Frame>, after: seq<Frame>, pdu: Pdu<Ie>, healthy: set<Node>,
                              members: set<int>)
  {
    && before <= after && |after| == |before| + |members|
    && forall g :: g in members ==>
         multiset(after[|before|..])[Frame(GnbNode(g), pdu, GnbNode(g) in healthy)] == 1
  }

  /** Any reaction, as the wire and the caller see it; a broadcast succeeds when one copy does. */
  ghost predicate Shows(r: Reaction, before: seq<Frame>, after: seq<Frame>, healthy: set<Node>, members: set<int>,
                        status: Status)
  {
    match r
    case Broadcast(out) =>
      && OneCopyEach(before, after, out, healthy, members)
      && status == if exists g :: g in members && GnbNode(g) in healthy then Forwarded else Errored
    case _ => SentOnce(r, before, after, healthy, status)
  }

  lemma BroadcastSends(pdu: Pdu<Ie>, before: seq<Frame>, healthy: set<Node>, order: seq<int>, members: set<int>)
    requires Enumerates(order, members)
    ensures var o := OutcomeOf(Broadcast(pdu), before, healthy, order);
            && OneCopyEach(before, o.frames, pdu, healthy, members)
            && o.status == if exists g :: g in members && GnbNode(g) in healthy then Forwarded else Errored
  {
    var copies := CopiesTo(order, pdu, healthy);
    EnumerationSize(order, members);
    assert (before + copies)[|before|..] == copies;
    forall g | g in members ensures multiset(copies)[Frame(GnbNode(g), pdu, GnbNode(g) in healthy)] == 1 {
      var i :| 0 <= i < |order| && order[i] == g;
      OnceIn(copies, i);
    }
    if g :| g in members && GnbNode(g) in healthy {
      var i :| 0 <= i < |order| && order[i] == g;
    }
  }

  lemma ForwardSends(t: Tables, a: int, pdu: Pdu<Ie>, target: Option<int>, before: seq<Frame>, healthy: set<Node>,
                     order: seq<int>, members: set<int>)
    requires ForwardToGnbReaction(t, a, pdu, target).Broadcast? ==> Enumerates(order, members)
    ensures var r := ForwardToGnbReaction(t, a, pdu, target);
            var o := OutcomeOf(r, before, healthy, order);
            && (r.Broadcast? ==>
                  o.status == if exists g :: g in members && GnbNode(g) in healthy then Forwarded else Errored)
            && (r.SendTo? ==> o.status == if r.to in healthy then Forwarded else Errored)
  {
    var r := ForwardToGnbReaction(t, a, pdu, target);
    if r.Broadcast? {
      BroadcastSends(r.pdu, before, healthy, order, members);
    }
  }

  /** An AMF handler's reaction: one frame, one for each gNB listed, or none. */
  lemma AmfSends(t: Tables, a: int, pdu: Pdu<Ie>, target: Option<int>, before: seq<Frame>, healthy: set<Node>,
                 order: seq<int>, members: set<int>)
    requires AmfReaction(t, a, pdu, target).Broadcast? ==> Enumerates(order, members)
    ensures var r := AmfReaction(t, a, pdu, target);
            var o := OutcomeOf(r, before, healthy, order);
            Shows(r, before, o.frames, healthy, members, o.status)
  {
    var r := AmfReaction(t, a, pdu, target);
    if r.Broadcast? {
      BroadcastSends(r.pdu, before, healthy, order, members);
    } else {
      OneSend(r, before, healthy, order);
    }
  }

  // ---------- when a handler ends the process ----------

  /** A gNB handler dereferences nil exactly when its pick, the rewriting of a message for a known context
      or, for a Release Command, the extraction does. */
  lemma GnbDiesExactly(t: Tables, g: int, pdu: Pdu<Ie>, admitted: bool, pick: PickOutcome)
    requires Coherent(t)
    ensures GnbReaction(t, g, pdu, admitted, pick) == Dies <==>
              match GnbRouteOf(pdu)
              case GnbRejects => false
              case SetupReply => false
              case Initial => admitted && pick.PickDies?
              case UplinkNas => FindByRan(t, g, NasKey(Extract(pdu))).Some? && MeetsNil(pdu)
              case ForwardToAmf =>
                Extract(pdu).ExtractCrash? || (if UplinkUe(t, g, pdu).Some? then MeetsNil(pdu) else pick.PickDies?)
  {
  }

  /** An AMF handler does so for forwarded messages only: in extraction, or in rewriting for the gNB found. */
  lemma AmfDiesExactly(t: Tables, a: int, pdu: Pdu<Ie>, target: Option<int>)
    requires Coherent(t)
    ensures AmfReaction(t, a, pdu, target) == Dies <==>
              && AmfRouteOf(pdu).ForwardToGnb?
              && (Extract(pdu).ExtractCrash? || (UeOfAmfId(t, a, pdu).Some? && target.Some? && MeetsNil(pdu)))
  {
  }
}
