/** The uplink channel of one UE. Whatever fails, and whatever all other UEs and all AMFs do, what the
    UE's AMF receives under its LB ID is, in order and once each, what its gNB sent under its RAN ID, less
    exactly the messages lost on the way. Only ID values change. */
module UplinkChannel {
  import opened AmfIndex
  import opened ChannelEnds
  import opened DeliveredIds
  import opened Dispatch
  import opened Naming
  import opened Ngap
  import opened Options
  import opened Subsequences
  import opened Translation
  import opened UeTables

  // ---------- what is asked of a run, for one UE ----------

  /** The UE's key opens once: an InitialUEMessage to be filed under it names it in a covered IE and finds
      no context. */
  predicate OpensOnce(t: Tables, g: int, pdu: Pdu<Ie>, l: Line) {
    g == l.g && FiledUnder(pdu, l.r) ==> Covers(pdu, RanField) && FindByRan(t, g, l.r).None?
  }

  predicate KeyOpensOnce(s: State, steps: seq<Step>, l: Line)
    requires Legal(s, steps)
    decreases |steps|
  {
    steps != [] ==>
      && (steps[0].GnbReads? ==> OpensOnce(s.t, steps[0].g, steps[0].pdu, l))
      && KeyOpensOnce(Apply(s, steps[0]), steps[1..], l)
  }

  /** A forwarded message under a RAN ID that equals the LB ID has a context, so it is renamed. */
  predicate NotRelayed(t: Tables, g: int, pdu: Pdu<Ie>, lb: int) {
    GnbRouteOf(pdu).ForwardToAmf? && Under(pdu, RanField, lb) ==> FindByRan(t, g, lb).Some?
  }

  predicate NoneRelayed(s: State, steps: seq<Step>, lb: int)
    requires Legal(s, steps)
    decreases |steps|
  {
    steps != [] ==>
      && (steps[0].GnbReads? ==> NotRelayed(s.t, steps[0].g, steps[0].pdu, lb))
      && NoneRelayed(Apply(s, steps[0]), steps[1..], lb)
  }

  /** The UE's gNB names the UE in other messages only when it has a context. */
  predicate Awaited(t: Tables, g: int, pdu: Pdu<Ie>, l: Line) {
    g == l.g && Under(pdu, RanField, l.r) && !GnbRouteOf(pdu).Initial? ==> FindByRan(t, g, l.r).Some?
  }

  predicate NonePremature(s: State, steps: seq<Step>, l: Line)
    requires Legal(s, steps)
    decreases |steps|
  {
    steps != [] ==>
      && (steps[0].GnbReads? ==> Awaited(s.t, steps[0].g, steps[0].pdu, l))
      && NonePremature(Apply(s, steps[0]), steps[1..], l)
  }

  /** A message that names the LB ID as RAN ID does so in a covered IE, whoever sends it. */
  predicate LbIdCovered(steps: seq<Step>, lb: int) {
    forall i | 0 <= i < |steps| && steps[i].GnbReads? :: CoveredIfNamed(steps[i].pdu, RanField, lb)
  }

  /** The UE's gNB names the UE in covered IEs. */
  predicate RanIdCovered(steps: seq<Step>, l: Line) {
    forall i | 0 <= i < |steps| && steps[i].GnbReads? && steps[i].g == l.g ::
      CoveredIfNamed(steps[i].pdu, RanField, l.r)
  }

  // ---------- the channel ----------

  /** The message that the gNB's loop holds for the UE. */
  function InFlight(th: GnbThread, l: Line): seq<Pdu<Ie>> {
    match th
    case GTaken(pdu) => if Under(pdu, RanField, l.r) then [Content(pdu)] else []
    case GPicked(pdu, _) => if Under(pdu, RanField, l.r) then [Content(pdu)] else []
    case GBound(pdu, ue, _) => if ue == l.lb && Covers(pdu, RanField) then [Content(pdu)] else []
    case GReady(out, origin, _) => if origin == Some(l.lb) && Covers(out, RanField) then [Content(out)] else []
    case _ => []
  }

  function Held(s: State, l: Line): seq<Pdu<Ie>> {
    InFlight(GnbAt(s, l.g), l)
  }

  function FromGnb(s: State, m: Measure, l: Line): seq<Pdu<Ie>> {
    Sent(s.fromGnb, m, RanField, l.g, l.r)
  }

  function AtAmf(s: State, m: Measure, l: Line): seq<Pdu<Ie>> {
    Arrived(s.toAmf, m, RanField, l.a, l.lb)
  }

  function Got(s: State, l: Line): seq<Pdu<Ie>> {
    AtAmf(s, ByCover, l) + Held(s, l)
  }

  /** The opening is refused, or the send fails. */
  predicate Fails(s: State, step: Step, l: Line) {
    (step == GnbRefuses(l.g) || step == GnbSends(l.g, false)) && Held(s, l) != []
  }

  /** The message comes before the UE's context: it is refused, or relayed as it is. */
  predicate Premature(s: State, step: Step, l: Line) {
    step == GnbFinds(l.g) && FindByRan(s.t, l.g, l.r).None? && Held(s, l) != []
  }

  predicate Loses(s: State, step: Step, l: Line) {
    Fails(s, step, l) || Premature(s, step, l)
  }

  function Losses(s: State, steps: seq<Step>, l: Line): nat
    requires Legal(s, steps)
    decreases |steps|
  {
    if steps == [] then 0
    else (if Loses(s, steps[0], l) then 1 else 0) + Losses(Apply(s, steps[0]), steps[1..], l)
  }

  function Failures(s: State, steps: seq<Step>, l: Line): nat
    requires Legal(s, steps)
    decreases |steps|
  {
    if steps == [] then 0
    else (if Fails(s, steps[0], l) then 1 else 0) + Failures(Apply(s, steps[0]), steps[1..], l)
  }

  /** What the step adds to what was sent. */
  function New(step: Step, l: Line): seq<Pdu<Ie>> {
    if step.GnbReads? && step.g == l.g && Under(step.pdu, RanField, l.r) then [Content(step.pdu)] else []
  }

  // ---------- nothing reaches an AMF under the LB ID but the UE's messages ----------

  predicate RenamesLb(t: Tables, g: int, th: GnbThread, lb: int) {
    match th
    case GTaken(pdu) => NotRelayed(t, g, pdu, lb)
    case GRelay(pdu) => !Under(pdu, RanField, lb)
    case GReady(out, None, _) => !Under(out, RanField, lb)
    case _ => true
  }

  /** A delivery under the LB ID is the UE's. */
  predicate OwnDelivery(d: Delivery, lb: int) {
    Under(d.pdu, RanField, lb) ==> d.ue == Some(lb)
  }

  ghost predicate RelayInv(s: State, lb: int) {
    && IdsInv(s)
    && (forall g :: RenamesLb(s.t, g, GnbAt(s, g), lb))
    && (forall i :: 0 <= i < |s.toAmf| ==> OwnDelivery(s.toAmf[i], lb))
  }

  lemma RenamesOnFind(s: State, g: int, lb: int)
    requires Coherent(s.t) && Enabled(s, GnbFinds(g)) && RenamesLb(s.t, g, GnbAt(s, g), lb)
    ensures RenamesLb(s.t, g, GnbAt(Apply(s, GnbFinds(g)), g), lb)
  {
    var pdu := GnbAt(s, g).pdu;
    if Under(pdu, RanField, lb) {
      CoveredRanIsKey(pdu);
      assert FindByRan(s.t, g, lb).Some? ==> Names(s.t, FindByRan(s.t, g, lb).value, g, lb);
    }
  }

  lemma RenamesOwn(s: State, step: Step, g: int, lb: int)
    requires Coherent(s.t) && Enabled(s, step) && RenamesLb(s.t, g, GnbAt(s, g), lb) && OfGnbLoop(step, g)
    requires step.GnbReads? ==> NotRelayed(s.t, step.g, step.pdu, lb)
    ensures RenamesLb(Apply(s, step).t, g, GnbAt(Apply(s, step), g), lb)
  {
    if step.GnbFinds? {
      RenamesOnFind(s, g, lb);
    }
  }

  lemma RenamesStep(s: State, step: Step, g: int, lb: int)
    requires Coherent(s.t) && Enabled(s, step) && RenamesLb(s.t, g, GnbAt(s, g), lb)
    requires step.GnbReads? ==> NotRelayed(s.t, step.g, step.pdu, lb)
    ensures RenamesLb(Apply(s, step).t, g, GnbAt(Apply(s, step), g), lb)
  {
    if OfGnbLoop(step, g) {
      RenamesOwn(s, step, g, lb);
    } else {
      OtherLoopsStay(s, step, g);
      RowOfStep(s, step, g);
    }
  }

  lemma OwnDeliveriesStep(s: State, step: Step, lb: int)
    requires RelayInv(s, lb) && Enabled(s, step)
    ensures var s' := Apply(s, step);
            forall i :: 0 <= i < |s'.toAmf| ==> OwnDelivery(s'.toAmf[i], lb)
  {
    if step.GnbSends? {
      assert RenamesLb(s.t, step.g, GnbAt(s, step.g), lb) && UpReady(GnbAt(s, step.g));
    } else {
      SameUplinkLog(s, step);
    }
  }

  lemma RelayInvStep(s: State, step: Step, lb: int)
    requires RelayInv(s, lb) && Enabled(s, step)
    requires step.GnbReads? ==> NotRelayed(s.t, step.g, step.pdu, lb)
    ensures RelayInv(Apply(s, step), lb)
  {
    IdsInvStep(s, step);
    forall g ensures RenamesLb(Apply(s, step).t, g, GnbAt(Apply(s, step), g), lb) {
      assert RenamesLb(s.t, g, GnbAt(s, g), lb);
      RenamesStep(s, step, g, lb);
    }
    OwnDeliveriesStep(s, step, lb);
  }

  lemma {:induction false} RelayInvRun(s: State, steps: seq<Step>, lb: int)
    requires RelayInv(s, lb) && Legal(s, steps) && NoneRelayed(s, steps, lb)
    ensures RelayInv(Exec(s, steps), lb)
    decreases |steps|
  {
    if steps != [] {
      RelayInvStep(s, steps[0], lb);
      RelayInvRun(Apply(s, steps[0]), steps[1..], lb);
    }
  }

  // ---------- the UE's key has no context but the UE's ----------

  predicate OpensKey(t: Tables, th: GnbThread, l: Line) {
    match th
    case GTaken(pdu) => OpensOnce(t, l.g, pdu, l)
    case GPicked(pdu, _) => GnbRouteOf(pdu).Initial? && OpensOnce(t, l.g, pdu, l)
    case _ => true
  }

  ghost predicate KeyInv(s: State, l: Line) {
    && Safe(s) && OpensKey(s.t, GnbAt(s, l.g), l)
    && (forall k :: Names(s.t, k, l.g, l.r) ==> FindByRan(s.t, l.g, l.r) == Some(k))
  }

  lemma OpensKeyStep(s: State, step: Step, l: Line)
    requires Enabled(s, step) && OpensKey(s.t, GnbAt(s, l.g), l)
    requires step.GnbReads? ==> OpensOnce(s.t, step.g, step.pdu, l)
    ensures OpensKey(Apply(s, step).t, GnbAt(Apply(s, step), l.g), l)
  {
    if !OfGnbLoop(step, l.g) {
      OtherLoopsStay(s, step, l.g);
      RowOfStep(s, step, l.g);
    }
  }

  /** A new context with the UE's key finds the key unused. */
  lemma KeyOnCreate(s: State, h: int, l: Line, k: int)
    requires KeyInv(s, l) && Enabled(s, GnbCreates(h)) && Names(Apply(s, GnbCreates(h)).t, k, l.g, l.r)
    ensures FindByRan(Apply(s, GnbCreates(h)).t, l.g, l.r) == Some(k)
  {
    var th := GnbAt(s, h);
    CreateCoherent(s.t, th.amf, h, RanKey(th.pdu));
    assert k in s.t.ues ==> Names(s.t, k, l.g, l.r);
  }

  lemma KeyStep(s: State, step: Step, l: Line, k: int)
    requires KeyInv(s, l) && Enabled(s, step) && Names(Apply(s, step).t, k, l.g, l.r)
    ensures FindByRan(Apply(s, step).t, l.g, l.r) == Some(k)
  {
    if step.GnbCreates? {
      KeyOnCreate(s, step.g, l, k);
    } else {
      NoCreation(s, step);
      assert SameUe(s.t.ues[k], Apply(s, step).t.ues[k]);
      assert Names(s.t, k, l.g, l.r);
    }
  }

  lemma KeyInvStep(s: State, step: Step, l: Line)
    requires KeyInv(s, l) && Enabled(s, step)
    requires step.GnbReads? ==> OpensOnce(s.t, step.g, step.pdu, l)
    ensures KeyInv(Apply(s, step), l)
  {
    SafeStep(s, step);
    OpensKeyStep(s, step, l);
    forall k | Names(Apply(s, step).t, k, l.g, l.r) ensures FindByRan(Apply(s, step).t, l.g, l.r) == Some(k) {
      KeyStep(s, step, l, k);
    }
  }

  ghost predicate Alone(t: Tables, l: Line) {
    Fits(t, l) && forall k :: Names(t, k, l.g, l.r) ==> k == l.lb
  }

  lemma AloneBefore(t: Tables, t': Tables, l: Line)
    requires Extends(t, t') && Alone(t', l)
    ensures Alone(t, l)
  {
    FitsBefore(t, t', l);
    forall k | Names(t, k, l.g, l.r) ensures k == l.lb {
      assert SameUe(t.ues[k], t'.ues[k]);
      assert Names(t', k, l.g, l.r);
    }
  }

  // ---------- what each step does to the channel ----------

  /** Sent grows by the message read; got grows alike, or loses the one message held. */
  ghost predicate Accounts(s: State, step: Step, l: Line)
    requires Enabled(s, step)
  {
    var s' := Apply(s, step);
    && FromGnb(s', ByCover, l) == FromGnb(s, ByCover, l) + New(step, l)
    && if Loses(s, step, l) then New(step, l) == [] && |Held(s, l)| == 1 && Got(s, l) == Got(s', l) + Held(s, l)
       else Got(s', l) == Got(s, l) + New(step, l)
  }

  lemma SameLogs(s: State, step: Step)
    requires Enabled(s, step) && !step.GnbReads? && !step.GnbSends?
    ensures Apply(s, step).fromGnb == s.fromGnb && Apply(s, step).toAmf == s.toAmf
  {
  }

  lemma HeldElsewhere(s: State, step: Step, l: Line)
    requires Enabled(s, step) && !OfGnbLoop(step, l.g)
    ensures Held(Apply(s, step), l) == Held(s, l) && !Loses(s, step, l)
  {
    OtherLoopsStay(s, step, l.g);
  }

  lemma AccountsRead(s: State, h: int, pdu: Pdu<Ie>, l: Line)
    requires Enabled(s, GnbReads(h, pdu))
    ensures Accounts(s, GnbReads(h, pdu), l)
  {
    SentAppend(s.fromGnb, Received(h, pdu), ByCover, RanField, l.g, l.r);
    assert Apply(s, GnbReads(h, pdu)).toAmf == s.toAmf;
    if h != l.g {
      OtherLoopsStay(s, GnbReads(h, pdu), l.g);
    } else if Under(pdu, RanField, l.r) {
      CoveredRanIsKey(pdu);
    }
  }

  lemma CreateHolds(s: State, l: Line)
    requires KeyInv(s, l) && Enabled(s, GnbCreates(l.g)) && Alone(Apply(s, GnbCreates(l.g)).t, l)
    ensures Held(Apply(s, GnbCreates(l.g)), l) == Held(s, l)
  {
    var th, t' := GnbAt(s, l.g), Apply(s, GnbCreates(l.g)).t;
    if Covers(th.pdu, RanField) {
      CoveredRanIsKey(th.pdu);
    }
    assert Names(t', s.t.next, l.g, RanKey(th.pdu));
  }

  lemma FindHolds(s: State, l: Line)
    requires Coherent(s.t) && Enabled(s, GnbFinds(l.g)) && Alone(s.t, l)
    ensures Held(Apply(s, GnbFinds(l.g)), l) == if Premature(s, GnbFinds(l.g), l) then [] else Held(s, l)
  {
    var pdu := GnbAt(s, l.g).pdu;
    if Covers(pdu, RanField) {
      CoveredRanIsKey(pdu);
      var ue := FindByRan(s.t, l.g, RanKey(pdu));
      if ue.Some? {
        assert Names(s.t, ue.value, l.g, RanKey(pdu));
      }
    }
  }

  lemma RewriteHolds(s: State, l: Line)
    requires Enabled(s, GnbRewrites(l.g))
    ensures Held(Apply(s, GnbRewrites(l.g)), l) == Held(s, l)
  {
    var th := GnbAt(s, l.g);
    RewriteRenames(th.pdu, s.t.ues[th.ue].lbId, s.t.ues[th.ue].amfUeId);
  }

  /** Picking, creating, finding and rewriting carry the message held along, unless it is lost. */
  lemma MoveHolds(s: State, step: Step, l: Line)
    requires KeyInv(s, l) && Enabled(s, step) && Alone(s.t, l) && Alone(Apply(s, step).t, l)
    requires OfGnbLoop(step, l.g) && !step.GnbReads? && !step.GnbSends?
    ensures Held(Apply(s, step), l) == if Loses(s, step, l) then [] else Held(s, l)
  {
    match step {
      case GnbCreates(_) => CreateHolds(s, l);
      case GnbFinds(_) => FindHolds(s, l);
      case GnbRewrites(_) => RewriteHolds(s, l);
      case GnbPicks(_, _) =>
      case GnbRefuses(_) =>
    }
  }

  lemma SendHolds(s: State, h: int, ok: bool, l: Line)
    requires Enabled(s, GnbSends(h, ok))
    ensures var s', th := Apply(s, GnbSends(h, ok)), GnbAt(s, h);
            && s'.fromGnb == s.fromGnb && Held(s', l) == (if h == l.g then [] else Held(s, l))
            && s'.toAmf == s.toAmf + if ok then [Delivery(th.amf, th.out, h, th.origin)] else []
  {
  }

  lemma AccountsSend(s: State, h: int, ok: bool, l: Line)
    requires RelayInv(s, l.lb) && Enabled(s, GnbSends(h, ok)) && Fits(s.t, l)
    ensures Accounts(s, GnbSends(h, ok), l)
  {
    var th := GnbAt(s, h);
    assert RenamesLb(s.t, h, th, l.lb) && GnbThreadSafe(s.t, h, th) && UpReady(th);
    SendHolds(s, h, ok, l);
    if ok {
      ArrivedAppend(s.toAmf, Delivery(th.amf, th.out, h, th.origin), ByCover, RanField, l.a, l.lb);
    }
  }

  lemma AccountsMove(s: State, step: Step, l: Line)
    requires Enabled(s, step) && !step.GnbReads? && !step.GnbSends?
    requires Held(Apply(s, step), l) == if Loses(s, step, l) then [] else Held(s, l)
    ensures Accounts(s, step, l)
  {
    SameLogs(s, step);
  }

  lemma AccountsStep(s: State, step: Step, l: Line)
    requires RelayInv(s, l.lb) && KeyInv(s, l) && Enabled(s, step)
    requires Alone(s.t, l) && Alone(Apply(s, step).t, l)
    ensures Accounts(s, step, l)
  {
    if step.GnbReads? {
      AccountsRead(s, step.g, step.pdu, l);
    } else if step.GnbSends? {
      AccountsSend(s, step.g, step.ok, l);
    } else {
      if OfGnbLoop(step, l.g) { MoveHolds(s, step, l); } else { HeldElsewhere(s, step, l); }
      AccountsMove(s, step, l);
    }
  }

  // ---------- runs ----------

  predicate Balanced(s: State, l: Line, lost: int) {
    Less(Got(s, l), FromGnb(s, ByCover, l), lost)
  }

  lemma BalancedStep(s: State, step: Step, l: Line, lost: int)
    requires Enabled(s, step) && Accounts(s, step, l) && Balanced(s, l, lost)
    ensures Balanced(Apply(s, step), l, lost + if Loses(s, step, l) then 1 else 0)
  {
    if Loses(s, step, l) {
      LessOne(Got(Apply(s, step), l), Held(s, l), FromGnb(s, ByCover, l), lost);
    } else {
      LessBoth(Got(s, l), FromGnb(s, ByCover, l), New(step, l), lost);
    }
  }

  /** A context's gNB and RAN ID never change: where it is alone at the end it always was. */
  lemma AloneAllAlong(s: State, steps: seq<Step>, l: Line)
    requires Safe(s) && Legal(s, steps) && Alone(Exec(s, steps).t, l)
    ensures Alone(s.t, l)
  {
    SafeRun(s, steps);
    AloneBefore(s.t, Exec(s, steps).t, l);
  }

  lemma {:induction false} BalancedRun(s: State, steps: seq<Step>, l: Line, lost: nat)
    requires RelayInv(s, l.lb) && KeyInv(s, l) && Balanced(s, l, lost)
    requires Legal(s, steps) && NoneRelayed(s, steps, l.lb) && KeyOpensOnce(s, steps, l)
    requires Alone(Exec(s, steps).t, l)
    ensures Balanced(Exec(s, steps), l, lost + Losses(s, steps, l))
    decreases |steps|
  {
    if steps != [] {
      RelayInvStep(s, steps[0], l.lb);
      KeyInvStep(s, steps[0], l);
      AloneAllAlong(s, steps, l);
      AloneAllAlong(Apply(s, steps[0]), steps[1..], l);
      AccountsStep(s, steps[0], l);
      BalancedStep(s, steps[0], l, lost);
      BalancedRun(Apply(s, steps[0]), steps[1..], l, lost + if Loses(s, steps[0], l) then 1 else 0);
    }
  }

  lemma {:induction false} KeyInvRun(s: State, steps: seq<Step>, l: Line)
    requires KeyInv(s, l) && Legal(s, steps) && KeyOpensOnce(s, steps, l)
    ensures KeyInv(Exec(s, steps), l)
    decreases |steps|
  {
    if steps != [] {
      KeyInvStep(s, steps[0], l);
      KeyInvRun(Apply(s, steps[0]), steps[1..], l);
    }
  }

  // ---------- by name ----------

  predicate LoopCovers(th: GnbThread, lb: int) {
    th.GIdle? || CoveredIfNamed(if th.GReady? then th.out else th.pdu, RanField, lb)
  }

  ghost predicate AllCovered(s: State, lb: int) {
    && (forall g :: LoopCovers(GnbAt(s, g), lb))
    && (forall i :: 0 <= i < |s.toAmf| ==> CoveredIfNamed(s.toAmf[i].pdu, RanField, lb))
  }

  lemma LoopCoversStep(s: State, step: Step, g: int, lb: int)
    requires Enabled(s, step) && LoopCovers(GnbAt(s, g), lb)
    requires step.GnbReads? ==> CoveredIfNamed(step.pdu, RanField, lb)
    ensures LoopCovers(GnbAt(Apply(s, step), g), lb)
  {
    if step == GnbRewrites(g) {
      var th := GnbAt(s, g);
      RewriteRenames(th.pdu, s.t.ues[th.ue].lbId, s.t.ues[th.ue].amfUeId);
    } else if !OfGnbLoop(step, g) {
      OtherLoopsStay(s, step, g);
    }
  }

  lemma AllCoveredStep(s: State, step: Step, lb: int)
    requires AllCovered(s, lb) && Enabled(s, step)
    requires step.GnbReads? ==> CoveredIfNamed(step.pdu, RanField, lb)
    ensures AllCovered(Apply(s, step), lb)
  {
    forall g ensures LoopCovers(GnbAt(Apply(s, step), g), lb) { LoopCoversStep(s, step, g, lb); }
    if step.GnbSends? {
      assert LoopCovers(GnbAt(s, step.g), lb);
    } else {
      SameUplinkLog(s, step);
    }
  }

  lemma {:induction false} AllCoveredRun(s: State, steps: seq<Step>, lb: int)
    requires AllCovered(s, lb) && Legal(s, steps) && LbIdCovered(steps, lb)
    ensures AllCovered(Exec(s, steps), lb)
    decreases |steps|
  {
    if steps != [] {
      AllCoveredStep(s, steps[0], lb);
      assert forall i | 0 <= i < |steps[1..]| :: steps[1..][i] == steps[i + 1];
      AllCoveredRun(Apply(s, steps[0]), steps[1..], lb);
    }
  }

  lemma {:induction false} SentCovered(s: State, steps: seq<Step>, l: Line)
    requires Legal(s, steps) && RanIdCovered(steps, l)
    requires SendsCovered(s.fromGnb, RanField, l.g, l.r)
    ensures SendsCovered(Exec(s, steps).fromGnb, RanField, l.g, l.r)
    decreases |steps|
  {
    if steps != [] {
      assert forall i | 0 <= i < |steps[1..]| :: steps[1..][i] == steps[i + 1];
      ReadFromGnb(s, steps[0]);
      SentCovered(Apply(s, steps[0]), steps[1..], l);
    }
  }

  /** Both ends measure alike, by name and by cover. */
  lemma SameMeasure(steps: seq<Step>, l: Line)
    requires Legal(INIT, steps) && LbIdCovered(steps, l.lb) && RanIdCovered(steps, l)
    ensures var s := Exec(INIT, steps);
            FromGnb(s, ByName, l) == FromGnb(s, ByCover, l) && AtAmf(s, ByName, l) == AtAmf(s, ByCover, l)
  {
    AllCoveredRun(INIT, steps, l.lb);
    SentCovered(INIT, steps, l);
    var s := Exec(INIT, steps);
    SameSent(s.fromGnb, RanField, l.g, l.r);
    SameArrived(s.toAmf, RanField, l.a, l.lb);
  }

  // ---------- only failures lose messages of a UE that has its context ----------

  predicate LoopAwaited(t: Tables, th: GnbThread, l: Line) {
    th.GTaken? && !StartsUe(th) && Under(th.pdu, RanField, l.r) ==> FindByRan(t, l.g, l.r).Some?
  }

  lemma LoopAwaitedStep(s: State, step: Step, l: Line)
    requires Enabled(s, step) && LoopAwaited(s.t, GnbAt(s, l.g), l)
    requires step.GnbReads? ==> Awaited(s.t, step.g, step.pdu, l)
    ensures LoopAwaited(Apply(s, step).t, GnbAt(Apply(s, step), l.g), l)
  {
    if !OfGnbLoop(step, l.g) {
      OtherLoopsStay(s, step, l.g);
      RowOfStep(s, step, l.g);
    }
  }

  lemma {:induction false} OnlyFailures(s: State, steps: seq<Step>, l: Line)
    requires Legal(s, steps) && NonePremature(s, steps, l) && LoopAwaited(s.t, GnbAt(s, l.g), l)
    ensures Losses(s, steps, l) == Failures(s, steps, l)
    decreases |steps|
  {
    if steps != [] {
      LoopAwaitedStep(s, steps[0], l);
      OnlyFailures(Apply(s, steps[0]), steps[1..], l);
    }
  }

  // ---------- main results: one UE ----------

  /** Everything that AMFs read under the LB ID is from the UE's gNB at the UE's own AMF. */
  ghost predicate OnlyOwn(s: State, lb: int) {
    forall i :: 0 <= i < |s.toAmf| && Under(s.toAmf[i].pdu, RanField, lb) ==>
      lb in s.t.ues && s.toAmf[i].node == s.t.ues[lb].amf && s.toAmf[i].from == s.t.ues[lb].gnb
  }

  /** Its covered AMF IDs are 0, or the AMF's own ID for the UE. */
  ghost predicate AmfIdsRight(s: State, lb: int, id: IdPlan) {
    forall i :: 0 <= i < |s.toAmf| && Under(s.toAmf[i].pdu, RanField, lb) ==> BearsAmfId(s.t, lb, s.toAmf[i].pdu, id)
  }

  lemma OwnIsOnlyOwn(s: State, lb: int)
    requires RelayInv(s, lb)
    ensures OnlyOwn(s, lb)
  {
    forall i | 0 <= i < |s.toAmf| && Under(s.toAmf[i].pdu, RanField, lb)
      ensures DeliveryAffine(s.t, s.toAmf[i]) && s.toAmf[i].ue == Some(lb)
    {
      assert OwnDelivery(s.toAmf[i], lb);
    }
  }

  lemma OwnAmfIds(s: State, lb: int, id: IdPlan)
    requires RelayInv(s, lb) && AmfIdsBorne(s.t, s.toAmf, id)
    ensures AmfIdsRight(s, lb, id)
  {
    forall i | 0 <= i < |s.toAmf| && Under(s.toAmf[i].pdu, RanField, lb)
      ensures BearsAmfId(s.t, lb, s.toAmf[i].pdu, id)
    {
      assert OwnDelivery(s.toAmf[i], lb) && AmfIdDelivered(s.t, s.toAmf[i], id);
    }
  }

  /** No message under the LB ID reaches another AMF, nor one under an LB ID never given out. The AMF IDs
      are right when AMFs obey `AmfIndex`. */
  lemma UplinkIdsOfUe(steps: seq<Step>, lb: int, id: IdPlan)
    requires Legal(INIT, steps) && NoneRelayed(INIT, steps, lb)
    ensures OnlyOwn(Exec(INIT, steps), lb)
    ensures Unreused(id) && IndexRun(INIT, steps, id) ==> AmfIdsRight(Exec(INIT, steps), lb, id)
  {
    RelayInvRun(INIT, steps, lb);
    OwnIsOnlyOwn(Exec(INIT, steps), lb);
    if Unreused(id) && IndexRun(INIT, steps, id) {
      AmfIdsDelivered(steps, id);
      OwnAmfIds(Exec(INIT, steps), lb, id);
    }
  }

  /** Uplink refinement for one UE, under any failures: what has arrived or is held is what its gNB sent,
      in order and once each, less exactly the losses. Both ends are measured by covered RAN IDs. */
  lemma UplinkOfUe(steps: seq<Step>, l: Line)
    requires Legal(INIT, steps) && NoneRelayed(INIT, steps, l.lb) && KeyOpensOnce(INIT, steps, l)
    requires l.lb in Exec(INIT, steps).t.ues && Fits(Exec(INIT, steps).t, l)
    ensures var s := Exec(INIT, steps);
            && Conveys(FromGnb(s, ByCover, l), AtAmf(s, ByCover, l), Held(s, l), Losses(INIT, steps, l))
            && (GnbAt(s, l.g).GIdle? ==> Held(s, l) == [])
            && (NonePremature(INIT, steps, l) ==> Losses(INIT, steps, l) == Failures(INIT, steps, l))
  {
    RelayInvRun(INIT, steps, l.lb);
    KeyInvRun(INIT, steps, l);
    var s := Exec(INIT, steps);
    assert Names(s.t, l.lb, l.g, l.r);
    BalancedRun(INIT, steps, l, 0);
    ConveysLess(FromGnb(s, ByCover, l), AtAmf(s, ByCover, l), Held(s, l), Losses(INIT, steps, l));
    if NonePremature(INIT, steps, l) {
      OnlyFailures(INIT, steps, l);
    }
  }

  /** The same by every name in the IEs, when the messages of the UE's gNB that name its RAN ID, and all
      messages that name its LB ID, do so in covered IEs. */
  lemma UplinkOfUeByName(steps: seq<Step>, l: Line)
    requires Legal(INIT, steps) && NoneRelayed(INIT, steps, l.lb) && KeyOpensOnce(INIT, steps, l)
    requires l.lb in Exec(INIT, steps).t.ues && Fits(Exec(INIT, steps).t, l)
    requires LbIdCovered(steps, l.lb) && RanIdCovered(steps, l)
    ensures var s := Exec(INIT, steps);
            Conveys(FromGnb(s, ByName, l), AtAmf(s, ByName, l), Held(s, l), Losses(INIT, steps, l))
  {
    UplinkOfUe(steps, l);
    SameMeasure(steps, l);
  }

  /** By name, when all messages that name the LB ID are covered. */
  lemma UplinkOnlyOwnAmfByName(steps: seq<Step>, a: int, lb: int)
    requires Legal(INIT, steps) && NoneRelayed(INIT, steps, lb) && LbIdCovered(steps, lb)
    ensures var s := Exec(INIT, steps);
            (lb in s.t.ues ==> s.t.ues[lb].amf != a) ==> Arrived(s.toAmf, ByName, RanField, a, lb) == []
  {
    UplinkIdsOfUe(steps, lb, (b, k) => k);
    AllCoveredRun(INIT, steps, lb);
    var s := Exec(INIT, steps);
    if lb in s.t.ues ==> s.t.ues[lb].amf != a {
      forall i | 0 <= i < |s.toAmf| ensures !ArrivedAs(s.toAmf[i], ByName, RanField, a, lb) {
        var d := s.toAmf[i];
        assert CoveredIfNamed(d.pdu, RanField, lb);
        assert Under(d.pdu, RanField, lb) ==> lb in s.t.ues && d.node == s.t.ues[lb].amf;
      }
      NothingArrived(s.toAmf, ByName, RanField, a, lb);
    }
  }

  // ---------- main results: all UEs at once ----------

  /** A RAN ID that a message names is covered. An InitialUEMessage names one that has no context, any
      other message one that has. */
  predicate WellFormedUplink(t: Tables, g: int, pdu: Pdu<Ie>) {
    match NamedRan(pdu)
    case None => !GnbRouteOf(pdu).Initial?
    case Some(r) => Covers(pdu, RanField) && (GnbRouteOf(pdu).Initial? <==> FindByRan(t, g, r).None?)
  }

  predicate WellFormedStep(s: State, step: Step) {
    step.GnbReads? ==> WellFormedUplink(s.t, step.g, step.pdu)
  }

  predicate GoodUplinkRun(s: State, steps: seq<Step>)
    decreases |steps|
  {
    steps == [] ||
    (Enabled(s, steps[0]) && WellFormedStep(s, steps[0]) && GoodUplinkRun(Apply(s, steps[0]), steps[1..]))
  }

  lemma WellFormedServes(t: Tables, g: int, pdu: Pdu<Ie>, l: Line)
    requires WellFormedUplink(t, g, pdu)
    ensures OpensOnce(t, g, pdu, l) && NotRelayed(t, g, pdu, l.lb) && Awaited(t, g, pdu, l)
    ensures CoveredIfNamed(pdu, RanField, l.r) && CoveredIfNamed(pdu, RanField, l.lb)
  {
    if Covers(pdu, RanField) {
      CoveredRanIsKey(pdu);
    }
  }

  /** Such a run serves every UE. */
  lemma {:induction false} GoodRunServes(s: State, steps: seq<Step>, l: Line)
    requires GoodUplinkRun(s, steps)
    ensures Legal(s, steps) && NoneRelayed(s, steps, l.lb) && KeyOpensOnce(s, steps, l) && NonePremature(s, steps, l)
    ensures LbIdCovered(steps, l.lb) && RanIdCovered(steps, l)
    decreases |steps|
  {
    if steps != [] {
      GoodRunServes(Apply(s, steps[0]), steps[1..], l);
      assert forall i | 0 < i < |steps| :: steps[i] == steps[1..][i - 1];
      if steps[0].GnbReads? {
        WellFormedServes(s.t, steps[0].g, steps[0].pdu, l);
      }
    }
  }

  /** Refinement for every UE at once, with the IDs renamed: only failures lose messages. */
  lemma UplinkRefinement(steps: seq<Step>, lb: int, id: IdPlan)
    requires GoodUplinkRun(INIT, steps)
    ensures Legal(INIT, steps)
    ensures var s := Exec(INIT, steps);
            lb in s.t.ues ==>
              var l := LineOf(s.t, lb);
              && Conveys(FromGnb(s, ByName, l), AtAmf(s, ByName, l), Held(s, l), Failures(INIT, steps, l))
              && (GnbAt(s, l.g).GIdle? ==> Held(s, l) == [])
              && (Unreused(id) && IndexRun(INIT, steps, id) ==> AmfIdsRight(s, lb, id))
  {
    GoodRunServes(INIT, steps, Line(0, 0, 0, lb));
    UplinkIdsOfUe(steps, lb, id);
    var s := Exec(INIT, steps);
    if lb in s.t.ues {
      var l := LineOf(s.t, lb);
      GoodRunServes(INIT, steps, l);
      UplinkOfUe(steps, l);
      UplinkOfUeByName(steps, l);
    }
  }

  /** No AMF but the UE's own ever receives a message that names the UE's LB ID as RAN ID, nor one that
      names an LB ID never given out. */
  lemma UplinkReachesOnlyOwnAmf(steps: seq<Step>, a: int, lb: int)
    requires GoodUplinkRun(INIT, steps)
    ensures Legal(INIT, steps)
    ensures var s := Exec(INIT, steps);
            (lb in s.t.ues ==> s.t.ues[lb].amf != a) ==> Arrived(s.toAmf, ByName, RanField, a, lb) == []
  {
    GoodRunServes(INIT, steps, Line(0, 0, 0, lb));
    UplinkOnlyOwnAmfByName(steps, a, lb);
  }
}
