/** The downlink channel of one UE. AMFs obey `AmfIndex`, which lets a UE be named by one AMF ID. Whatever
    fails, and whatever all other UEs do, what the UE's gNB receives under its LB ID is, in order and once
    each, what its AMF sent under its AMF ID, less exactly the messages lost on the way. Only ID values
    change. */
module DownlinkChannel {
  import opened AmfIndex
  import opened ChannelEnds
  import opened DeliveredIds
  import opened Dispatch
  import opened Naming
  import opened Ngap
  import opened Options
  import opened RanIds
  import opened Subsequences
  import opened Translation
  import opened UeTables

  // ---------- what is asked of a run, for one UE ----------

  /** No other gNB opens the UE's RAN ID. */
  predicate RanIdOwn(steps: seq<Step>, l: Line) {
    forall i | 0 <= i < |steps| && steps[i].GnbReads? && steps[i].g != l.g :: !FiledUnder(steps[i].pdu, l.r)
  }

  /** A forwarded message under an AMF ID that equals the LB ID is not broadcast with it: it is filed when
      it is read, and its gNB is found. */
  predicate NotBroadcast(t: Tables, a: int, pdu: Pdu<Ie>, lb: int) {
    AmfRouteOf(pdu).ForwardToGnb? && Under(pdu, AmfField, lb) ==> FindByAmfId(t, a, lb).Some?
  }

  predicate BroadcastStepOk(s: State, step: Step, lb: int) {
    match step
    case AmfReads(a, pdu) => NotBroadcast(s.t, a, pdu, lb)
    case AmfTargets(a, None) =>
      AmfAt(s, a).ALocated? && AmfRouteOf(AmfAt(s, a).pdu).ForwardToGnb? ==> !Under(AmfAt(s, a).pdu, AmfField, lb)
    case _ => true
  }

  predicate NoneBroadcast(s: State, steps: seq<Step>, lb: int)
    requires Legal(s, steps)
    decreases |steps|
  {
    steps != [] ==> BroadcastStepOk(s, steps[0], lb) && NoneBroadcast(Apply(s, steps[0]), steps[1..], lb)
  }

  /** The AMF names the UE in forwarded messages only when it has filed it. */
  predicate Awaited(t: Tables, a: int, pdu: Pdu<Ie>, l: Line, x: int) {
    a == l.a && AmfRouteOf(pdu).ForwardToGnb? && Under(pdu, AmfField, x) ==> FindByAmfId(t, a, x).Some?
  }

  predicate NonePremature(s: State, steps: seq<Step>, l: Line, x: int)
    requires Legal(s, steps)
    decreases |steps|
  {
    steps != [] ==>
      && (steps[0].AmfReads? ==> Awaited(s.t, steps[0].a, steps[0].pdu, l, x))
      && NonePremature(Apply(s, steps[0]), steps[1..], l, x)
  }

  /** A message that names the LB ID as AMF ID does so in a covered IE, whoever sends it. */
  predicate LbIdCovered(steps: seq<Step>, lb: int) {
    forall i | 0 <= i < |steps| && steps[i].AmfReads? :: CoveredIfNamed(steps[i].pdu, AmfField, lb)
  }

  /** The UE's AMF names the UE in covered IEs. */
  predicate AmfIdCovered(steps: seq<Step>, a: int, x: int) {
    forall i | 0 <= i < |steps| && steps[i].AmfReads? && steps[i].a == a :: CoveredIfNamed(steps[i].pdu, AmfField, x)
  }

  // ---------- the channel ----------

  /** The message that the AMF's loop holds for the UE with AMF ID `x`. */
  function InFlight(th: AmfThread, lb: int, x: int): seq<Pdu<Ie>> {
    match th
    case ATaken(pdu) => if Under(pdu, AmfField, x) then [Content(pdu)] else []
    case AFound(pdu, ue) => if ue == lb && Covers(pdu, AmfField) then [Content(pdu)] else []
    case ASet(pdu, ue) => if ue == lb && Covers(pdu, AmfField) then [Content(pdu)] else []
    case ALocated(pdu, ue) => if ue == lb && Covers(pdu, AmfField) then [Content(pdu)] else []
    case ATarget(pdu, ue, _) => if ue == lb && Covers(pdu, AmfField) then [Content(pdu)] else []
    case AReady(out, ue, _) => if ue == lb && Covers(out, AmfField) then [Content(out)] else []
    case _ => []
  }

  function Held(s: State, l: Line, x: int): seq<Pdu<Ie>> {
    InFlight(AmfAt(s, l.a), l.lb, x)
  }

  function FromAmf(s: State, m: Measure, l: Line, x: int): seq<Pdu<Ie>> {
    Sent(s.fromAmf, m, AmfField, l.a, x)
  }

  function AtGnb(s: State, m: Measure, l: Line): seq<Pdu<Ie>> {
    Arrived(s.toGnb, m, AmfField, l.g, l.lb)
  }

  function Got(s: State, l: Line, x: int): seq<Pdu<Ie>> {
    AtGnb(s, ByCover, l) + Held(s, l, x)
  }

  /** The search finds no gNB, or the send fails. */
  predicate Fails(s: State, step: Step, l: Line, x: int) {
    (step == AmfTargets(l.a, None) || step == AmfSends(l.a, false)) && Held(s, l, x) != []
  }

  /** The message comes before the AMF has filed the UE: it is broadcast as it is. */
  predicate Premature(s: State, step: Step, l: Line, x: int) {
    && step == AmfFinds(l.a) && AmfAt(s, l.a).ATaken? && AmfRouteOf(AmfAt(s, l.a).pdu).ForwardToGnb?
    && FindByAmfId(s.t, l.a, x).None? && Held(s, l, x) != []
  }

  predicate Loses(s: State, step: Step, l: Line, x: int) {
    Fails(s, step, l, x) || Premature(s, step, l, x)
  }

  function Losses(s: State, steps: seq<Step>, l: Line, x: int): nat
    requires Legal(s, steps)
    decreases |steps|
  {
    if steps == [] then 0
    else (if Loses(s, steps[0], l, x) then 1 else 0) + Losses(Apply(s, steps[0]), steps[1..], l, x)
  }

  function Failures(s: State, steps: seq<Step>, l: Line, x: int): nat
    requires Legal(s, steps)
    decreases |steps|
  {
    if steps == [] then 0
    else (if Fails(s, steps[0], l, x) then 1 else 0) + Failures(Apply(s, steps[0]), steps[1..], l, x)
  }

  /** What the step adds to what was sent. */
  function New(step: Step, l: Line, x: int): seq<Pdu<Ie>> {
    if step.AmfReads? && step.a == l.a && Under(step.pdu, AmfField, x) then [Content(step.pdu)] else []
  }

  // ---------- nothing reaches a gNB under the LB ID but the UE's messages ----------

  predicate RenamesLb(t: Tables, a: int, th: AmfThread, lb: int) {
    match th
    case ATaken(pdu) => NotBroadcast(t, a, pdu, lb)
    case ABroadcast(pdu) => !Under(pdu, AmfField, lb)
    case _ => true
  }

  /** A delivery under the LB ID is the UE's. */
  predicate OwnDelivery(d: Delivery, lb: int) {
    Under(d.pdu, AmfField, lb) ==> d.ue == Some(lb)
  }

  ghost predicate BroadcastInv(s: State, lb: int) {
    && IdsInv(s)
    && (forall a :: RenamesLb(s.t, a, AmfAt(s, a), lb))
    && (forall i :: 0 <= i < |s.toGnb| ==> OwnDelivery(s.toGnb[i], lb))
  }

  lemma RowGrows(s: State, step: Step, a: int, x: int)
    requires Enabled(s, step) && FindByAmfId(s.t, a, x).Some?
    ensures FindByAmfId(Apply(s, step).t, a, x).Some?
  {
    if step != AmfAdds(a) {
      OtherRowsStay(s, step, a);
    }
  }

  lemma RenamesElsewhere(s: State, step: Step, a: int, lb: int)
    requires Enabled(s, step) && !OfAmfLoop(step, a) && RenamesLb(s.t, a, AmfAt(s, a), lb)
    ensures RenamesLb(Apply(s, step).t, a, AmfAt(Apply(s, step), a), lb)
  {
    OtherAmfsStay(s, step, a);
    if FindByAmfId(s.t, a, lb).Some? {
      RowGrows(s, step, a, lb);
    }
  }

  lemma RenamesOnFind(s: State, a: int, lb: int)
    requires Enabled(s, AmfFinds(a)) && RenamesLb(s.t, a, AmfAt(s, a), lb)
    ensures RenamesLb(s.t, a, AmfAt(Apply(s, AmfFinds(a)), a), lb)
  {
    if Covers(AmfAt(s, a).pdu, AmfField) {
      CoveredAmfIsFound(AmfAt(s, a).pdu);
    }
  }

  lemma TargetsUe(s: State, a: int, target: Option<int>)
    requires Enabled(s, AmfTargets(a, target))
    ensures AmfAt(s, a).ALocated?
    ensures AmfAt(Apply(s, AmfTargets(a, target)), a).ABroadcast? ==>
              target.None? && AmfRouteOf(AmfAt(s, a).pdu) != DownlinkNas
  {
  }

  lemma RenamesOwn(s: State, step: Step, a: int, lb: int)
    requires Enabled(s, step) && BroadcastStepOk(s, step, lb) && OfAmfLoop(step, a)
    requires RenamesLb(s.t, a, AmfAt(s, a), lb)
    ensures RenamesLb(Apply(s, step).t, a, AmfAt(Apply(s, step), a), lb)
  {
    match step {
      case AmfFinds(_) => RenamesOnFind(s, a, lb);
      case AmfTargets(_, target) => TargetsUe(s, a, target);
      case _ =>
    }
  }

  lemma OwnOnSend(s: State, a: int, ok: bool, lb: int)
    requires BroadcastInv(s, lb) && Enabled(s, AmfSends(a, ok))
    ensures var s' := Apply(s, AmfSends(a, ok));
            forall i :: 0 <= i < |s'.toGnb| ==> OwnDelivery(s'.toGnb[i], lb)
  {
    assert DownReady(s.t, AmfAt(s, a));
  }

  lemma OwnOnBroadcast(s: State, a: int, reached: seq<int>, lb: int)
    requires BroadcastInv(s, lb) && Enabled(s, AmfBroadcasts(a, reached))
    ensures var s' := Apply(s, AmfBroadcasts(a, reached));
            forall i :: 0 <= i < |s'.toGnb| ==> OwnDelivery(s'.toGnb[i], lb)
  {
    assert RenamesLb(s.t, a, AmfAt(s, a), lb);
  }

  lemma BroadcastInvStep(s: State, step: Step, lb: int)
    requires BroadcastInv(s, lb) && Enabled(s, step) && BroadcastStepOk(s, step, lb)
    ensures BroadcastInv(Apply(s, step), lb)
  {
    IdsInvStep(s, step);
    forall a ensures RenamesLb(Apply(s, step).t, a, AmfAt(Apply(s, step), a), lb) {
      assert RenamesLb(s.t, a, AmfAt(s, a), lb);
      if OfAmfLoop(step, a) { RenamesOwn(s, step, a, lb); } else { RenamesElsewhere(s, step, a, lb); }
    }
    if step.AmfSends? {
      OwnOnSend(s, step.a, step.ok, lb);
    } else if step.AmfBroadcasts? {
      OwnOnBroadcast(s, step.a, step.reached, lb);
    } else {
      SameDownlinkLog(s, step);
    }
  }

  lemma {:induction false} BroadcastInvRun(s: State, steps: seq<Step>, lb: int)
    requires BroadcastInv(s, lb) && Legal(s, steps) && NoneBroadcast(s, steps, lb)
    ensures BroadcastInv(Exec(s, steps), lb)
    decreases |steps|
  {
    if steps != [] {
      BroadcastInvStep(s, steps[0], lb);
      BroadcastInvRun(Apply(s, steps[0]), steps[1..], lb);
    }
  }

  // ---------- the UE's messages go to its own gNB ----------

  /** The loop of another gNB does not open the UE's RAN ID. */
  predicate OpensNot(th: GnbThread, r: int) {
    match th
    case GTaken(pdu) => !FiledUnder(pdu, r)
    case GPicked(pdu, _) => GnbRouteOf(pdu).Initial? && !FiledUnder(pdu, r)
    case _ => true
  }

  predicate AimsRight(th: AmfThread, l: Line) {
    match th
    case ATarget(_, ue, g) => ue == l.lb ==> g == l.g
    case AReady(_, ue, g) => ue == l.lb ==> g == l.g
    case _ => true
  }

  ghost predicate TargetInv(s: State, l: Line) {
    && Safe(s)
    && (forall h :: h != l.g ==> OpensNot(GnbAt(s, h), l.r))
    && (forall k :: k in s.t.ues && s.t.ues[k].ranUeId == l.r ==> s.t.ues[k].gnb == l.g)
    && (forall a :: AimsRight(AmfAt(s, a), l))
    && (forall i :: 0 <= i < |s.toGnb| ==> s.toGnb[i].ue == Some(l.lb) ==> s.toGnb[i].node == l.g)
  }

  predicate OpensElsewhere(step: Step, l: Line) {
    step.GnbReads? && step.g != l.g && FiledUnder(step.pdu, l.r)
  }

  lemma OpensNotStep(s: State, step: Step, h: int, l: Line)
    requires Enabled(s, step) && h != l.g && OpensNot(GnbAt(s, h), l.r) && !OpensElsewhere(step, l)
    ensures OpensNot(GnbAt(Apply(s, step), h), l.r)
  {
    if !OfGnbLoop(step, h) {
      OtherLoopsStay(s, step, h);
    }
  }

  lemma OwnersOnCreate(s: State, h: int, l: Line, k: int)
    requires TargetInv(s, l) && Enabled(s, GnbCreates(h))
    requires var t' := Apply(s, GnbCreates(h)).t; k in t'.ues && t'.ues[k].ranUeId == l.r
    ensures Apply(s, GnbCreates(h)).t.ues[k].gnb == l.g
  {
    if h != l.g {
      assert OpensNot(GnbAt(s, h), l.r);
    }
  }

  lemma OwnersStep(s: State, step: Step, l: Line, k: int)
    requires TargetInv(s, l) && Enabled(s, step)
    requires k in Apply(s, step).t.ues && Apply(s, step).t.ues[k].ranUeId == l.r
    ensures Apply(s, step).t.ues[k].gnb == l.g
  {
    if step.GnbCreates? {
      OwnersOnCreate(s, step.g, l, k);
    } else {
      NoCreation(s, step);
      UeStays(s.t, Apply(s, step).t, k);
    }
  }

  lemma AimsOnTarget(s: State, a: int, target: Option<int>, l: Line)
    requires TargetInv(s, l) && Enabled(s, AmfTargets(a, target)) && Fits(s.t, l)
    ensures AimsRight(AmfAt(Apply(s, AmfTargets(a, target)), a), l)
  {
    var th := AmfAt(s, a);
    if target.Some? && th.ue == l.lb {
      assert AmfThreadSafe(s.t, th);
      var k := Row(s.t.gnbUes, target.value)[l.r];
      assert Names(s.t, k, target.value, l.r);
    }
  }

  lemma AimsStep(s: State, step: Step, a: int, l: Line)
    requires TargetInv(s, l) && Enabled(s, step) && Fits(s.t, l)
    ensures AimsRight(AmfAt(Apply(s, step), a), l)
  {
    assert AimsRight(AmfAt(s, a), l);
    if !OfAmfLoop(step, a) {
      OtherAmfsStay(s, step, a);
    } else if step.AmfTargets? {
      AimsOnTarget(s, a, step.target, l);
    }
  }

  lemma DeliveriesAim(s: State, step: Step, l: Line)
    requires TargetInv(s, l) && Enabled(s, step)
    ensures var log := Apply(s, step).toGnb;
            forall i :: 0 <= i < |log| ==> log[i].ue == Some(l.lb) ==> log[i].node == l.g
  {
    if step.AmfSends? {
      assert AimsRight(AmfAt(s, step.a), l);
    } else if !step.AmfBroadcasts? {
      SameDownlinkLog(s, step);
    }
  }

  lemma TargetInvStep(s: State, step: Step, l: Line)
    requires TargetInv(s, l) && Enabled(s, step) && Fits(s.t, l) && !OpensElsewhere(step, l)
    ensures TargetInv(Apply(s, step), l)
  {
    var s' := Apply(s, step);
    SafeStep(s, step);
    forall h | h != l.g ensures OpensNot(GnbAt(s', h), l.r) {
      assert OpensNot(GnbAt(s, h), l.r);
      OpensNotStep(s, step, h, l);
    }
    forall k | k in s'.t.ues && s'.t.ues[k].ranUeId == l.r ensures s'.t.ues[k].gnb == l.g {
      OwnersStep(s, step, l, k);
    }
    forall a ensures AimsRight(AmfAt(s', a), l) { AimsStep(s, step, a, l); }
    DeliveriesAim(s, step, l);
  }

  /** A context's gNB, RAN ID and AMF never change: a line that fits at the end always did. */
  lemma FitsAllAlong(s: State, steps: seq<Step>, l: Line)
    requires Safe(s) && Legal(s, steps) && Fits(Exec(s, steps).t, l)
    ensures Fits(s.t, l)
  {
    SafeRun(s, steps);
    FitsBefore(s.t, Exec(s, steps).t, l);
  }

  lemma {:induction false} TargetInvRun(s: State, steps: seq<Step>, l: Line)
    requires TargetInv(s, l) && Legal(s, steps) && RanIdOwn(steps, l) && Fits(Exec(s, steps).t, l)
    ensures TargetInv(Exec(s, steps), l)
    decreases |steps|
  {
    if steps != [] {
      FitsAllAlong(s, steps, l);
      TargetInvStep(s, steps[0], l);
      assert forall i | 0 <= i < |steps[1..]| :: steps[1..][i] == steps[i + 1];
      TargetInvRun(Apply(s, steps[0]), steps[1..], l);
    }
  }

  // ---------- each loop works for UEs of its own AMF ----------

  predicate LoopOwns(t: Tables, a: int, th: AmfThread) {
    match th
    case ALocated(_, ue) => Owns(t, a, ue)
    case ATarget(_, ue, _) => Owns(t, a, ue)
    case AReady(_, ue, _) => Owns(t, a, ue)
    case _ => true
  }

  ghost predicate OwnersInv(s: State, id: IdPlan) {
    IndexInv(s, id) && forall a :: LoopOwns(s.t, a, AmfAt(s, a))
  }

  lemma OwnsStays(t: Tables, t': Tables, a: int, th: AmfThread)
    requires LoopOwns(t, a, th) && Extends(t, t')
    ensures LoopOwns(t', a, th)
  {
    if th.ALocated? || th.ATarget? || th.AReady? {
      UeStays(t, t', th.ue);
    }
  }

  lemma OwnsOnFind(s: State, a: int, id: IdPlan)
    requires IndexInv(s, id) && Enabled(s, AmfFinds(a))
    ensures LoopOwns(s.t, a, AmfAt(Apply(s, AmfFinds(a)), a))
  {
    var ue := FindByAmfId(s.t, a, Extract(AmfAt(s, a).pdu).amf);
    assert ue.Some? ==> Indexed(s.t, a, Extract(AmfAt(s, a).pdu).amf, ue.value, id);
  }

  lemma OwnsStep(s: State, step: Step, a: int, id: IdPlan)
    requires OwnersInv(s, id) && Enabled(s, step)
    ensures LoopOwns(Apply(s, step).t, a, AmfAt(Apply(s, step), a))
  {
    assert LoopOwns(s.t, a, AmfAt(s, a)) && Filing(s.t, a, AmfAt(s, a), id);
    if step == AmfFinds(a) {
      OwnsOnFind(s, a, id);
    } else if !OfAmfLoop(step, a) {
      OtherAmfsStay(s, step, a);
      TablesOfStep(s, step);
      OwnsStays(s.t, Apply(s, step).t, a, AmfAt(s, a));
    }
  }

  lemma OwnersInvStep(s: State, step: Step, id: IdPlan)
    requires OwnersInv(s, id) && Enabled(s, step) && IndexStepOk(s, step, id)
    ensures OwnersInv(Apply(s, step), id)
  {
    IndexInvStep(s, step, id);
    forall a ensures LoopOwns(Apply(s, step).t, a, AmfAt(Apply(s, step), a)) { OwnsStep(s, step, a, id); }
  }

  // ---------- what each step does to the channel ----------

  /** Sent grows by the message read; got grows alike, or loses the one message held. */
  ghost predicate Accounts(s: State, step: Step, l: Line, x: int)
    requires Enabled(s, step)
  {
    var s' := Apply(s, step);
    && FromAmf(s', ByCover, l, x) == FromAmf(s, ByCover, l, x) + New(step, l, x)
    && if Loses(s, step, l, x) then
         New(step, l, x) == [] && |Held(s, l, x)| == 1 && Got(s, l, x) == Got(s', l, x) + Held(s, l, x)
       else Got(s', l, x) == Got(s, l, x) + New(step, l, x)
  }

  predicate Logs(step: Step) {
    step.AmfReads? || step.AmfSends? || step.AmfBroadcasts?
  }

  lemma SameLogs(s: State, step: Step)
    requires Enabled(s, step) && !Logs(step)
    ensures Apply(s, step).fromAmf == s.fromAmf && Apply(s, step).toGnb == s.toGnb
  {
  }

  lemma AccountsMove(s: State, step: Step, l: Line, x: int)
    requires Enabled(s, step) && !Logs(step)
    requires Held(Apply(s, step), l, x) == if Loses(s, step, l, x) then [] else Held(s, l, x)
    ensures Accounts(s, step, l, x)
  {
    SameLogs(s, step);
  }

  lemma AccountsRead(s: State, b: int, pdu: Pdu<Ie>, l: Line, x: int)
    requires Enabled(s, AmfReads(b, pdu))
    ensures Accounts(s, AmfReads(b, pdu), l, x)
  {
    SentAppend(s.fromAmf, Received(b, pdu), ByCover, AmfField, l.a, x);
    assert Apply(s, AmfReads(b, pdu)).toGnb == s.toGnb;
    if b != l.a {
      OtherAmfsStay(s, AmfReads(b, pdu), l.a);
    } else if Covers(pdu, AmfField) {
      CoveredAmfIsFound(pdu);
    }
  }

  lemma FindHolds(s: State, l: Line, id: IdPlan)
    requires IndexInv(s, id) && Enabled(s, AmfFinds(l.a))
    ensures var x := id(l.a, l.lb);
            Held(Apply(s, AmfFinds(l.a)), l, x) == if Premature(s, AmfFinds(l.a), l, x) then [] else Held(s, l, x)
  {
    var pdu := AmfAt(s, l.a).pdu;
    assert Filing(s.t, l.a, AmfAt(s, l.a), id);
    if AmfRouteOf(pdu).DownlinkNas? {
      FiledId(pdu);
    } else if Covers(pdu, AmfField) {
      CoveredAmfIsFound(pdu);
      var ue := FindByAmfId(s.t, l.a, Extract(pdu).amf);
      assert ue.Some? ==> Indexed(s.t, l.a, Extract(pdu).amf, ue.value, id);
    }
  }

  lemma RewriteHolds(s: State, l: Line, x: int)
    requires Enabled(s, AmfRewrites(l.a))
    ensures Held(Apply(s, AmfRewrites(l.a)), l, x) == Held(s, l, x)
  {
    var th := AmfAt(s, l.a);
    RewriteRenames(th.pdu, s.t.ues[th.ue].ranUeId, s.t.ues[th.ue].lbId);
  }

  /** Finding, storing, filing, searching and rewriting carry the message held along, unless it is lost. */
  lemma MoveHolds(s: State, step: Step, l: Line, id: IdPlan)
    requires IndexInv(s, id) && Enabled(s, step) && OfAmfLoop(step, l.a) && !Logs(step)
    ensures var x := id(l.a, l.lb);
            Held(Apply(s, step), l, x) == if Loses(s, step, l, x) then [] else Held(s, l, x)
  {
    match step {
      case AmfFinds(_) => FindHolds(s, l, id);
      case AmfRewrites(_) => RewriteHolds(s, l, id(l.a, l.lb));
      case AmfSets(_) =>
      case AmfAdds(_) =>
      case AmfTargets(_, _) =>
    }
  }

  lemma HeldElsewhere(s: State, step: Step, l: Line, x: int)
    requires Enabled(s, step) && !OfAmfLoop(step, l.a)
    ensures Held(Apply(s, step), l, x) == Held(s, l, x) && !Loses(s, step, l, x)
  {
    OtherAmfsStay(s, step, l.a);
  }

  lemma HeldStep(s: State, step: Step, l: Line, id: IdPlan)
    requires IndexInv(s, id) && Enabled(s, step) && !Logs(step)
    ensures var x := id(l.a, l.lb);
            Held(Apply(s, step), l, x) == if Loses(s, step, l, x) then [] else Held(s, l, x)
  {
    if OfAmfLoop(step, l.a) { MoveHolds(s, step, l, id); } else { HeldElsewhere(s, step, l, id(l.a, l.lb)); }
  }

  lemma SendHolds(s: State, b: int, ok: bool, l: Line, x: int)
    requires Enabled(s, AmfSends(b, ok))
    ensures var s', th := Apply(s, AmfSends(b, ok)), AmfAt(s, b);
            && s'.fromAmf == s.fromAmf && Held(s', l, x) == (if b == l.a then [] else Held(s, l, x))
            && s'.toGnb == s.toGnb + if ok then [Delivery(th.gnb, th.out, b, Some(th.ue))] else []
  {
  }

  lemma AccountsSend(s: State, b: int, ok: bool, l: Line, id: IdPlan)
    requires OwnersInv(s, id) && BroadcastInv(s, l.lb) && TargetInv(s, l)
    requires Enabled(s, AmfSends(b, ok)) && Fits(s.t, l)
    ensures Accounts(s, AmfSends(b, ok), l, id(l.a, l.lb))
  {
    var th := AmfAt(s, b);
    assert LoopOwns(s.t, b, th) && AimsRight(th, l) && DownReady(s.t, th);
    SendHolds(s, b, ok, l, id(l.a, l.lb));
    if ok {
      ArrivedAppend(s.toGnb, Delivery(th.gnb, th.out, b, Some(th.ue)), ByCover, AmfField, l.g, l.lb);
    }
  }

  lemma BroadcastHolds(s: State, b: int, reached: seq<int>, l: Line, x: int)
    requires Enabled(s, AmfBroadcasts(b, reached))
    ensures var s' := Apply(s, AmfBroadcasts(b, reached));
            && s'.fromAmf == s.fromAmf && Held(s', l, x) == Held(s, l, x)
            && s'.toGnb == s.toGnb + Copies(AmfAt(s, b).pdu, b, reached)
  {
    if b != l.a {
      OtherAmfsStay(s, AmfBroadcasts(b, reached), l.a);
    }
  }

  lemma AccountsBroadcast(s: State, b: int, reached: seq<int>, l: Line, x: int)
    requires BroadcastInv(s, l.lb) && Enabled(s, AmfBroadcasts(b, reached))
    ensures Accounts(s, AmfBroadcasts(b, reached), l, x)
  {
    assert RenamesLb(s.t, b, AmfAt(s, b), l.lb);
    BroadcastHolds(s, b, reached, l, x);
    NothingMore(s.toGnb, Copies(AmfAt(s, b).pdu, b, reached), ByCover, AmfField, l.g, l.lb);
  }

  lemma AccountsStep(s: State, step: Step, l: Line, id: IdPlan)
    requires OwnersInv(s, id) && BroadcastInv(s, l.lb) && TargetInv(s, l)
    requires Enabled(s, step) && Fits(s.t, l)
    ensures Accounts(s, step, l, id(l.a, l.lb))
  {
    var x := id(l.a, l.lb);
    if step.AmfReads? {
      AccountsRead(s, step.a, step.pdu, l, x);
    } else if step.AmfSends? {
      AccountsSend(s, step.a, step.ok, l, id);
    } else if step.AmfBroadcasts? {
      AccountsBroadcast(s, step.a, step.reached, l, x);
    } else {
      HeldStep(s, step, l, id);
      AccountsMove(s, step, l, x);
    }
  }

  // ---------- runs ----------

  predicate Balanced(s: State, l: Line, x: int, lost: int) {
    Less(Got(s, l, x), FromAmf(s, ByCover, l, x), lost)
  }

  lemma BalancedStep(s: State, step: Step, l: Line, x: int, lost: int)
    requires Enabled(s, step) && Accounts(s, step, l, x) && Balanced(s, l, x, lost)
    ensures Balanced(Apply(s, step), l, x, lost + if Loses(s, step, l, x) then 1 else 0)
  {
    if Loses(s, step, l, x) {
      LessOne(Got(Apply(s, step), l, x), Held(s, l, x), FromAmf(s, ByCover, l, x), lost);
    } else {
      LessBoth(Got(s, l, x), FromAmf(s, ByCover, l, x), New(step, l, x), lost);
    }
  }

  ghost predicate ChannelInv(s: State, l: Line, id: IdPlan) {
    OwnersInv(s, id) && BroadcastInv(s, l.lb) && TargetInv(s, l)
  }

  lemma ChannelInvStep(s: State, step: Step, l: Line, id: IdPlan)
    requires ChannelInv(s, l, id) && Fits(s.t, l)
    requires Enabled(s, step) && IndexStepOk(s, step, id) && BroadcastStepOk(s, step, l.lb) && !OpensElsewhere(step, l)
    ensures ChannelInv(Apply(s, step), l, id)
  {
    OwnersInvStep(s, step, id);
    BroadcastInvStep(s, step, l.lb);
    TargetInvStep(s, step, l);
  }

  lemma {:induction false} BalancedRun(s: State, steps: seq<Step>, l: Line, id: IdPlan, lost: nat)
    requires ChannelInv(s, l, id) && Balanced(s, l, id(l.a, l.lb), lost)
    requires Legal(s, steps) && IndexRun(s, steps, id) && NoneBroadcast(s, steps, l.lb) && RanIdOwn(steps, l)
    requires Fits(Exec(s, steps).t, l)
    ensures Balanced(Exec(s, steps), l, id(l.a, l.lb), lost + Losses(s, steps, l, id(l.a, l.lb)))
    decreases |steps|
  {
    if steps != [] {
      var x, s1, tail := id(l.a, l.lb), Apply(s, steps[0]), steps[1..];
      FitsAllAlong(s, steps, l);
      ChannelInvStep(s, steps[0], l, id);
      AccountsStep(s, steps[0], l, id);
      BalancedStep(s, steps[0], l, x, lost);
      assert forall i | 0 <= i < |tail| :: tail[i] == steps[i + 1];
      BalancedRun(s1, tail, l, id, lost + if Loses(s, steps[0], l, x) then 1 else 0);
    }
  }

  // ---------- by name ----------

  predicate LoopCovers(th: AmfThread, lb: int) {
    th.AIdle? || CoveredIfNamed(if th.AReady? then th.out else th.pdu, AmfField, lb)
  }

  ghost predicate AllCovered(s: State, lb: int) {
    && (forall a :: LoopCovers(AmfAt(s, a), lb))
    && (forall i :: 0 <= i < |s.toGnb| ==> CoveredIfNamed(s.toGnb[i].pdu, AmfField, lb))
  }

  lemma LoopCoversStep(s: State, step: Step, a: int, lb: int)
    requires Enabled(s, step) && LoopCovers(AmfAt(s, a), lb)
    requires step.AmfReads? ==> CoveredIfNamed(step.pdu, AmfField, lb)
    ensures LoopCovers(AmfAt(Apply(s, step), a), lb)
  {
    if step == AmfRewrites(a) {
      var th := AmfAt(s, a);
      RewriteRenames(th.pdu, s.t.ues[th.ue].ranUeId, s.t.ues[th.ue].lbId);
    } else if !OfAmfLoop(step, a) {
      OtherAmfsStay(s, step, a);
    }
  }

  lemma AllCoveredStep(s: State, step: Step, lb: int)
    requires AllCovered(s, lb) && Enabled(s, step)
    requires step.AmfReads? ==> CoveredIfNamed(step.pdu, AmfField, lb)
    ensures AllCovered(Apply(s, step), lb)
  {
    forall a ensures LoopCovers(AmfAt(Apply(s, step), a), lb) { LoopCoversStep(s, step, a, lb); }
    if step.AmfSends? || step.AmfBroadcasts? {
      assert LoopCovers(AmfAt(s, step.a), lb);
    } else {
      SameDownlinkLog(s, step);
    }
  }

  lemma {:induction false} AllCoveredRun(s: State, steps: seq<Step>, lb: int)
    requires AllCovered(s, lb) && Legal(s, steps) && LbIdCovered(steps, lb)
    ensures AllCovered(Exec(s, steps), lb)
    decreases |steps|
  {
    if steps != [] {
      AllCoveredStep(s, steps[0], lb);
      assert forall i | 0 <= i < |steps[1..]| :: steps[1..][i] == steps[i + 1];
      AllCoveredRun(Apply(s, steps[0]), steps[1..], lb);
    }
  }

  lemma {:induction false} SentCovered(s: State, steps: seq<Step>, a: int, x: int)
    requires Legal(s, steps) && AmfIdCovered(steps, a, x) && SendsCovered(s.fromAmf, AmfField, a, x)
    ensures SendsCovered(Exec(s, steps).fromAmf, AmfField, a, x)
    decreases |steps|
  {
    if steps != [] {
      assert forall i | 0 <= i < |steps[1..]| :: steps[1..][i] == steps[i + 1];
      ReadFromAmf(s, steps[0]);
      SentCovered(Apply(s, steps[0]), steps[1..], a, x);
    }
  }

  /** Both ends measure alike, by name and by cover. */
  lemma SameMeasure(steps: seq<Step>, l: Line, x: int)
    requires Legal(INIT, steps) && LbIdCovered(steps, l.lb) && AmfIdCovered(steps, l.a, x)
    ensures var s := Exec(INIT, steps);
            FromAmf(s, ByName, l, x) == FromAmf(s, ByCover, l, x) && AtGnb(s, ByName, l) == AtGnb(s, ByCover, l)
  {
    AllCoveredRun(INIT, steps, l.lb);
    SentCovered(INIT, steps, l.a, x);
    var s := Exec(INIT, steps);
    SameSent(s.fromAmf, AmfField, l.a, x);
    SameArrived(s.toGnb, AmfField, l.g, l.lb);
  }

  // ---------- only failures lose messages of a UE that is filed ----------

  predicate LoopAwaited(t: Tables, th: AmfThread, l: Line, x: int) {
    th.ATaken? ==> Awaited(t, l.a, th.pdu, l, x)
  }

  lemma LoopAwaitedStep(s: State, step: Step, l: Line, x: int)
    requires Enabled(s, step) && LoopAwaited(s.t, AmfAt(s, l.a), l, x)
    requires step.AmfReads? ==> Awaited(s.t, step.a, step.pdu, l, x)
    ensures LoopAwaited(Apply(s, step).t, AmfAt(Apply(s, step), l.a), l, x)
  {
    if !OfAmfLoop(step, l.a) {
      OtherAmfsStay(s, step, l.a);
      if FindByAmfId(s.t, l.a, x).Some? {
        RowGrows(s, step, l.a, x);
      }
    }
  }

  lemma {:induction false} OnlyFailures(s: State, steps: seq<Step>, l: Line, x: int)
    requires Legal(s, steps) && NonePremature(s, steps, l, x) && LoopAwaited(s.t, AmfAt(s, l.a), l, x)
    ensures Losses(s, steps, l, x) == Failures(s, steps, l, x)
    decreases |steps|
  {
    if steps != [] {
      LoopAwaitedStep(s, steps[0], l, x);
      OnlyFailures(Apply(s, steps[0]), steps[1..], l, x);
    }
  }

  // ---------- main results: one UE ----------

  /** Everything that gNBs read under the LB ID as AMF ID arrives at the UE's own gNB. */
  ghost predicate OnlyOwn(s: State, lb: int) {
    forall i :: 0 <= i < |s.toGnb| && Under(s.toGnb[i].pdu, AmfField, lb) ==>
      lb in s.t.ues && s.toGnb[i].node == s.t.ues[lb].gnb
  }

  /** Its covered RAN IDs are the UE's. */
  ghost predicate RanIdsRight(s: State, lb: int) {
    forall i :: 0 <= i < |s.toGnb| && Under(s.toGnb[i].pdu, AmfField, lb) ==>
      lb in s.t.ues && NamesIfCovered(s.toGnb[i].pdu, RanField, s.t.ues[lb].ranUeId)
  }

  /** No message under the LB ID carries another RAN ID than the UE's, nor is any under an LB ID never
      given out; it reaches no other gNB when no other gNB opens the RAN ID. AMFs may do anything else. */
  lemma DownlinkIdsOfUe(steps: seq<Step>, lb: int)
    requires Legal(INIT, steps) && NoneBroadcast(INIT, steps, lb)
    ensures var s := Exec(INIT, steps);
            RanIdsRight(s, lb) && (lb in s.t.ues && RanIdOwn(steps, LineOf(s.t, lb)) ==> OnlyOwn(s, lb))
  {
    BroadcastInvRun(INIT, steps, lb);
    var s := Exec(INIT, steps);
    forall i | 0 <= i < |s.toGnb| && Under(s.toGnb[i].pdu, AmfField, lb)
      ensures s.toGnb[i].ue == Some(lb) && DownDelivered(s.t, s.toGnb[i])
    {
      assert OwnDelivery(s.toGnb[i], lb);
    }
    if lb in s.t.ues && RanIdOwn(steps, LineOf(s.t, lb)) {
      TargetInvRun(INIT, steps, LineOf(s.t, lb));
    }
  }

  /** Downlink refinement for one UE, under any failures: what has arrived or is held is what its AMF sent,
      in order and once each, less exactly the losses. Both ends are measured by covered AMF IDs. */
  lemma DownlinkOfUe(steps: seq<Step>, l: Line, id: IdPlan)
    requires Unreused(id) && IndexRun(INIT, steps, id)
    requires Legal(INIT, steps) && NoneBroadcast(INIT, steps, l.lb) && RanIdOwn(steps, l)
    requires l.lb in Exec(INIT, steps).t.ues && Fits(Exec(INIT, steps).t, l)
    ensures var s, x := Exec(INIT, steps), id(l.a, l.lb);
            && Conveys(FromAmf(s, ByCover, l, x), AtGnb(s, ByCover, l), Held(s, l, x), Losses(INIT, steps, l, x))
            && (AmfAt(s, l.a).AIdle? ==> Held(s, l, x) == [])
            && (NonePremature(INIT, steps, l, x) ==> Losses(INIT, steps, l, x) == Failures(INIT, steps, l, x))
  {
    var s, x := Exec(INIT, steps), id(l.a, l.lb);
    BalancedRun(INIT, steps, l, id, 0);
    ConveysLess(FromAmf(s, ByCover, l, x), AtGnb(s, ByCover, l), Held(s, l, x), Losses(INIT, steps, l, x));
    if NonePremature(INIT, steps, l, x) {
      OnlyFailures(INIT, steps, l, x);
    }
  }

  /** The same by every name in the IEs, when the messages of the UE's AMF that name its AMF ID, and all
      messages that name its LB ID, do so in covered IEs. */
  lemma DownlinkOfUeByName(steps: seq<Step>, l: Line, id: IdPlan)
    requires Unreused(id) && IndexRun(INIT, steps, id)
    requires Legal(INIT, steps) && NoneBroadcast(INIT, steps, l.lb) && RanIdOwn(steps, l)
    requires l.lb in Exec(INIT, steps).t.ues && Fits(Exec(INIT, steps).t, l)
    requires LbIdCovered(steps, l.lb) && AmfIdCovered(steps, l.a, id(l.a, l.lb))
    ensures var s, x := Exec(INIT, steps), id(l.a, l.lb);
            Conveys(FromAmf(s, ByName, l, x), AtGnb(s, ByName, l), Held(s, l, x), Losses(INIT, steps, l, x))
  {
    DownlinkOfUe(steps, l, id);
    SameMeasure(steps, l, id(l.a, l.lb));
  }

  /** By name, when all messages that name the LB ID are covered. */
  lemma DownlinkOnlyOwnGnbByName(steps: seq<Step>, g: int, lb: int)
    requires Legal(INIT, steps) && NoneBroadcast(INIT, steps, lb) && LbIdCovered(steps, lb)
    ensures var s := Exec(INIT, steps);
            (lb in s.t.ues ==> s.t.ues[lb].gnb != g && RanIdOwn(steps, LineOf(s.t, lb))) ==>
              Arrived(s.toGnb, ByName, AmfField, g, lb) == []
  {
    DownlinkIdsOfUe(steps, lb);
    AllCoveredRun(INIT, steps, lb);
    var s := Exec(INIT, steps);
    if lb in s.t.ues ==> s.t.ues[lb].gnb != g && RanIdOwn(steps, LineOf(s.t, lb)) {
      forall i | 0 <= i < |s.toGnb| ensures !ArrivedAs(s.toGnb[i], ByName, AmfField, g, lb) {
        var d := s.toGnb[i];
        assert CoveredIfNamed(d.pdu, AmfField, lb);
        assert Under(d.pdu, AmfField, lb) ==> lb in s.t.ues && d.node == s.t.ues[lb].gnb;
      }
      NothingArrived(s.toGnb, ByName, AmfField, g, lb);
    }
  }

  // ---------- main results: all UEs at once ----------

  /** A message other than Downlink NAS that names an AMF ID is for an introduced UE, and covered. */
  ghost predicate WellFormedForward(s: State, a: int, pdu: Pdu<Ie>, id: IdPlan) {
    NamedAmf(pdu).Some? ==>
      && Covers(pdu, AmfField)
      && exists lb :: Owns(s.t, a, lb) && Introduced(s.fromAmf, a, lb) && NamedAmf(pdu) == Some(id(a, lb))
  }

  /** The gNB of a forwarded UE message is connected when it is searched; a Downlink NAS message may lose
      its gNB. */
  ghost predicate ForwardStepOk(s: State, step: Step, id: IdPlan) {
    match step
    case AmfReads(a, pdu) => AmfRouteOf(pdu).ForwardToGnb? ==> WellFormedForward(s, a, pdu, id)
    case AmfTargets(a, target) =>
      AmfAt(s, a).ALocated? && target.None? && NamedAmf(AmfAt(s, a).pdu).Some? ==>
        AmfRouteOf(AmfAt(s, a).pdu).DownlinkNas?
    case _ => true
  }

  ghost predicate ForwardRun(s: State, steps: seq<Step>, id: IdPlan)
    decreases |steps|
  {
    steps == [] ||
    (Enabled(s, steps[0]) && ForwardStepOk(s, steps[0], id) && ForwardRun(Apply(s, steps[0]), steps[1..], id))
  }

  ghost predicate GoodRun(s: State, steps: seq<Step>, id: IdPlan) {
    IndexRun(s, steps, id) && RanRun(s, steps) && ForwardRun(s, steps, id)
  }

  lemma ReadServes(s: State, a: int, pdu: Pdu<Ie>, l: Line, id: IdPlan)
    requires IndexInv(s, id) && Enabled(s, AmfReads(a, pdu))
    requires IndexStepOk(s, AmfReads(a, pdu), id) && ForwardStepOk(s, AmfReads(a, pdu), id)
    ensures NotBroadcast(s.t, a, pdu, l.lb) && Awaited(s.t, a, pdu, l, id(l.a, l.lb))
    ensures NamedAmf(pdu).Some? ==> Covers(pdu, AmfField)
  {
    if AmfRouteOf(pdu).ForwardToGnb? && NamedAmf(pdu).Some? {
      var k :| Owns(s.t, a, k) && Introduced(s.fromAmf, a, k) && NamedAmf(pdu) == Some(id(a, k));
      assert IntroductionsIndexed(s, a, k, id);
    }
  }

  /** Such a run serves every UE. */
  lemma {:induction false} GoodRunServes(s: State, steps: seq<Step>, l: Line, id: IdPlan)
    requires IndexInv(s, id) && IndexRun(s, steps, id) && ForwardRun(s, steps, id)
    ensures Legal(s, steps) && NoneBroadcast(s, steps, l.lb) && NonePremature(s, steps, l, id(l.a, l.lb))
    ensures LbIdCovered(steps, l.lb) && AmfIdCovered(steps, l.a, id(l.a, l.lb))
    decreases |steps|
  {
    if steps != [] {
      IndexInvStep(s, steps[0], id);
      GoodRunServes(Apply(s, steps[0]), steps[1..], l, id);
      assert forall i | 0 < i < |steps| :: steps[i] == steps[1..][i - 1];
      if steps[0].AmfReads? {
        ReadServes(s, steps[0].a, steps[0].pdu, l, id);
      }
    }
  }

  lemma {:induction false} OpenedRun(s: State, steps: seq<Step>, g: int, r: int)
    requires Legal(s, steps) && OpenedBy(s.fromGnb, g, r)
    ensures OpenedBy(Exec(s, steps).fromGnb, g, r)
    decreases |steps|
  {
    if steps != [] {
      OpenedStays(s, steps[0], g, r);
      OpenedRun(Apply(s, steps[0]), steps[1..], g, r);
    }
  }

  lemma OpensInLog(s: State, step: Step, r: int)
    requires Enabled(s, step) && RanStepOk(s, step) && step.GnbReads? && FiledUnder(step.pdu, r)
    ensures OpenedBy(Apply(s, step).fromGnb, step.g, r)
  {
    CoveredRanIsKey(step.pdu);
    ReadFromGnb(s, step);
    var log := Apply(s, step).fromGnb;
    assert Opens(log[|log| - 1], r) && log[|log| - 1].node == step.g;
  }

  ghost predicate OpenedOnlyBy(log: seq<Received>, g: int, r: int) {
    forall h :: OpenedBy(log, h, r) ==> h == g
  }

  /** Where one gNB alone has opened the RAN ID by the end of the run, no other one opens it. */
  lemma {:induction false} OnlyOpener(s: State, steps: seq<Step>, l: Line)
    requires RanRun(s, steps) && Legal(s, steps)
    requires OpenedOnlyBy(Exec(s, steps).fromGnb, l.g, l.r)
    ensures RanIdOwn(steps, l)
    decreases |steps|
  {
    if steps != [] {
      var s1, tail := Apply(s, steps[0]), steps[1..];
      OnlyOpener(s1, tail, l);
      assert forall i | 0 < i < |steps| :: steps[i] == tail[i - 1];
      if steps[0].GnbReads? && FiledUnder(steps[0].pdu, l.r) {
        OpensInLog(s, steps[0], l.r);
        OpenedRun(s1, tail, steps[0].g, l.r);
      }
    }
  }

  lemma RanIdsOwned(steps: seq<Step>, lb: int)
    requires RanRun(INIT, steps)
    ensures Legal(INIT, steps)
    ensures lb in Exec(INIT, steps).t.ues ==> RanIdOwn(steps, LineOf(Exec(INIT, steps).t, lb))
  {
    RanIdsRun(INIT, steps);
    var s := Exec(INIT, steps);
    if lb in s.t.ues {
      assert Entry(s, lb);
      OnlyOpener(INIT, steps, LineOf(s.t, lb));
    }
  }

  /** Refinement for every UE at once, with the IDs renamed: only failures lose messages. */
  lemma DownlinkRefinement(steps: seq<Step>, id: IdPlan, lb: int)
    requires Unreused(id) && GoodRun(INIT, steps, id)
    ensures Legal(INIT, steps)
    ensures var s := Exec(INIT, steps);
            lb in s.t.ues ==>
              var l, x := LineOf(s.t, lb), id(s.t.ues[lb].amf, lb);
              && Conveys(FromAmf(s, ByName, l, x), AtGnb(s, ByName, l), Held(s, l, x), Failures(INIT, steps, l, x))
              && (AmfAt(s, l.a).AIdle? ==> Held(s, l, x) == [])
              && RanIdsRight(s, lb)
  {
    RanIdsOwned(steps, lb);
    var s := Exec(INIT, steps);
    if lb in s.t.ues {
      var l := LineOf(s.t, lb);
      GoodRunServes(INIT, steps, l, id);
      DownlinkOfUe(steps, l, id);
      DownlinkOfUeByName(steps, l, id);
      DownlinkIdsOfUe(steps, lb);
    }
  }

  /** No gNB but the UE's own ever receives a message that names the UE's LB ID as AMF ID, nor one that
      names an LB ID never given out. */
  lemma DownlinkReachesOnlyOwnGnb(steps: seq<Step>, id: IdPlan, g: int, lb: int)
    requires Unreused(id) && GoodRun(INIT, steps, id)
    ensures Legal(INIT, steps)
    ensures var s := Exec(INIT, steps);
            (lb in s.t.ues ==> s.t.ues[lb].gnb != g) ==> Arrived(s.toGnb, ByName, AmfField, g, lb) == []
  {
    RanIdsOwned(steps, lb);
    GoodRunServes(INIT, steps, Line(0, 0, 0, lb), id);
    DownlinkOnlyOwnGnbByName(steps, g, lb);
  }
}
