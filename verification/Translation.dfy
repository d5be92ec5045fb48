/** UE-ID translation as a step system. Each gNB and each AMF connection has one read loop; a step is
    one critical section of one loop (a table update, a lookup, a send), and loops interleave freely.
    Histories record what was read from and sent to every node. */
module Translation {
  import opened Dispatch
  import opened Ngap
  import opened Options
  import opened UeTables

  /** Where the handler of a gNB's read loop stands. */
  datatype GnbThread =
    | GIdle
    | GTaken(pdu: Pdu<Ie>)                      // read and decoded
    | GRelay(pdu: Pdu<Ie>)                      // no context: to be sent to any AMF
    | GPicked(pdu: Pdu<Ie>, amf: int)           // InitialUEMessage with its AMF picked
    | GBound(pdu: Pdu<Ie>, ue: int, amf: int)   // context created or found
    | GReady(out: Pdu<Ie>, origin: Option<int>, amf: int)

  /** Where the handler of an AMF's read loop stands. */
  datatype AmfThread =
    | AIdle
    | ATaken(pdu: Pdu<Ie>)
    | AFound(pdu: Pdu<Ie>, ue: int)             // Downlink NAS: context found by LB ID
    | ASet(pdu: Pdu<Ie>, ue: int)               // its AMF ID stored
    | ALocated(pdu: Pdu<Ie>, ue: int)           // context known, gNB still to be found
    | ATarget(pdu: Pdu<Ie>, ue: int, gnb: int)
    | AReady(out: Pdu<Ie>, ue: int, gnb: int)
    | ABroadcast(pdu: Pdu<Ie>)

  datatype Received = Received(node: int, pdu: Pdu<Ie>)
  datatype Delivery = Delivery(node: int, pdu: Pdu<Ie>, from: int, ue: Option<int>)

  datatype State = State(
    t: Tables,
    live: set<int>,              // connected gNBs
    amfs: set<int>,              // registered AMFs
    gnbs: map<int, GnbThread>,
    amfLoops: map<int, AmfThread>,
    fromGnb: seq<Received>, toAmf: seq<Delivery>,
    fromAmf: seq<Received>, toGnb: seq<Delivery>)

  const INIT := State(EMPTY, {}, {}, map[], map[], [], [], [], [])

  function GnbAt(s: State, g: int): GnbThread {
    if g in s.gnbs then s.gnbs[g] else GIdle
  }

  function AmfAt(s: State, a: int): AmfThread {
    if a in s.amfLoops then s.amfLoops[a] else AIdle
  }

  datatype Step =
    | GnbReads(g: int, pdu: Pdu<Ie>)
    | GnbRefuses(g: int)                        // admission refused, or no AMF to pick
    | GnbPicks(g: int, a: int)
    | GnbCreates(g: int)
    | GnbFinds(g: int)
    | GnbRewrites(g: int)
    | GnbSends(g: int, ok: bool)
    | AmfReads(a: int, pdu: Pdu<Ie>)
    | AmfFinds(a: int)
    | AmfSets(a: int)
    | AmfAdds(a: int)
    | AmfTargets(a: int, target: Option<int>)   // any listed gNB that has the RAN ID
    | AmfRewrites(a: int)
    | AmfSends(a: int, ok: bool)
    | AmfBroadcasts(a: int, reached: seq<int>)
    | GnbJoins(g: int) | GnbLeaves(g: int)
    | AmfJoins(a: int) | AmfLeaves(a: int)

  predicate StartsUe(th: GnbThread) {
    th.GTaken? && GnbRouteOf(th.pdu).Initial?
  }

  /** A nil dereference ends the process, so no step follows one. */
  predicate Enabled(s: State, step: Step) {
    match step
    case GnbReads(g, pdu) => GnbAt(s, g).GIdle? && Extract(pdu).UeIds?
    case GnbRefuses(g) => StartsUe(GnbAt(s, g)) || GnbAt(s, g).GRelay?
    case GnbPicks(g, a) => a in s.amfs && (StartsUe(GnbAt(s, g)) || GnbAt(s, g).GRelay?)
    case GnbCreates(g) => GnbAt(s, g).GPicked? && Extract(GnbAt(s, g).pdu).UeIds?
    case GnbFinds(g) => GnbAt(s, g).GTaken? && !StartsUe(GnbAt(s, g)) && Extract(GnbAt(s, g).pdu).UeIds?
    case GnbRewrites(g) =>
      var th := GnbAt(s, g);
      th.GBound? && th.ue in s.t.ues && !Modify(th.pdu, s.t.ues[th.ue].lbId, s.t.ues[th.ue].amfUeId).ModifyCrash?
    case GnbSends(g, _) => GnbAt(s, g).GReady?
    case AmfReads(a, pdu) => AmfAt(s, a).AIdle? && Extract(pdu).UeIds?
    case AmfFinds(a) => AmfAt(s, a).ATaken? && Extract(AmfAt(s, a).pdu).UeIds?
    case AmfSets(a) =>
      AmfAt(s, a).AFound? && AmfAt(s, a).ue in s.t.ues && Extract(AmfAt(s, a).pdu).UeIds?
    case AmfAdds(a) => AmfAt(s, a).ASet? && AmfAt(s, a).ue in s.t.ues
    case AmfTargets(a, target) =>
      AmfAt(s, a).ALocated? &&
      if target.Some? then target.value in s.live && HasUeContext(s.t, target.value, AmfAt(s, a).ue)
      else forall g | g in s.live :: !HasUeContext(s.t, g, AmfAt(s, a).ue)
    case AmfRewrites(a) =>
      var th := AmfAt(s, a);
      th.ATarget? && th.ue in s.t.ues && !Modify(th.pdu, s.t.ues[th.ue].ranUeId, s.t.ues[th.ue].lbId).ModifyCrash?
    case AmfSends(a, _) => AmfAt(s, a).AReady?
    case AmfBroadcasts(a, reached) =>
      && AmfAt(s, a).ABroadcast?
      && (forall i | 0 <= i < |reached| :: reached[i] in s.live)
      && (forall i, j | 0 <= i < j < |reached| :: reached[i] != reached[j])
    case GnbLeaves(g) => GnbAt(s, g).GIdle?
    case _ => true
  }

  function SetGnb(s: State, g: int, th: GnbThread): State {
    s.(gnbs := s.gnbs[g := th])
  }

  function SetAmf(s: State, a: int, th: AmfThread): State {
    s.(amfLoops := s.amfLoops[a := th])
  }

  function Copies(pdu: Pdu<Ie>, a: int, reached: seq<int>): (r: seq<Delivery>)
    ensures |r| == |reached|
    ensures forall i :: 0 <= i < |r| ==> r[i] == Delivery(reached[i], pdu, a, None)
  {
    seq(|reached|, i requires 0 <= i < |reached| => Delivery(reached[i], pdu, a, None))
  }

  function Apply(s: State, step: Step): State
    requires Enabled(s, step)
  {
    match step
    case GnbReads(g, pdu) =>
      var handled := GnbRouteOf(pdu).GnbRejects? || GnbRouteOf(pdu).SetupReply?;
      SetGnb(s, g, if handled then GIdle else GTaken(pdu)).(fromGnb := s.fromGnb + [Received(g, pdu)])
    case GnbRefuses(g) => SetGnb(s, g, GIdle)
    case GnbPicks(g, a) =>
      var th := GnbAt(s, g);
      SetGnb(s, g, if th.GRelay? then GReady(th.pdu, None, a) else GPicked(th.pdu, a))
    case GnbCreates(g) =>
      var th := GnbAt(s, g);
      SetGnb(s, g, GBound(th.pdu, s.t.next, th.amf)).(t := Create(s.t, th.amf, g, RanKey(th.pdu)))
    case GnbFinds(g) =>
      var pdu := GnbAt(s, g).pdu;
      var ue := FindByRan(s.t, g, RanKey(pdu));
      if GnbRouteOf(pdu).ForwardToAmf? && !Extract(pdu).found then SetGnb(s, g, GRelay(pdu))
      else if ue.Some? && ue.value in s.t.ues then SetGnb(s, g, GBound(pdu, ue.value, s.t.ues[ue.value].amf))
      else SetGnb(s, g, if GnbRouteOf(pdu).ForwardToAmf? then GRelay(pdu) else GIdle)
    case GnbRewrites(g) =>
      var th := GnbAt(s, g);
      var ue := s.t.ues[th.ue];
      SetGnb(s, g, GReady(Rewrite(th.pdu, ue.lbId, ue.amfUeId), Some(th.ue), th.amf))
    case GnbSends(g, ok) =>
      var th := GnbAt(s, g);
      SetGnb(s, g, GIdle).(toAmf := if ok then s.toAmf + [Delivery(th.amf, th.out, g, th.origin)] else s.toAmf)
    case AmfReads(a, pdu) =>
      SetAmf(s, a, if AmfRouteOf(pdu).AmfRejects? then AIdle else ATaken(pdu))
        .(fromAmf := s.fromAmf + [Received(a, pdu)])
    case AmfFinds(a) =>
      var pdu := AmfAt(s, a).pdu;
      var ids := Extract(pdu);
      if AmfRouteOf(pdu).DownlinkNas? then
        SetAmf(s, a, if ids.found && ids.ran in s.t.ues then AFound(pdu, ids.ran) else AIdle)
      else
        var ue := FindByAmfId(s.t, a, ids.amf);
        SetAmf(s, a, if ids.found && ue.Some? then ALocated(pdu, ue.value) else ABroadcast(pdu))
    case AmfSets(a) =>
      var th := AmfAt(s, a);
      SetAmf(s, a, ASet(th.pdu, th.ue)).(t := SetAmfUeId(s.t, th.ue, Extract(th.pdu).amf))
    case AmfAdds(a) =>
      var th := AmfAt(s, a);
      SetAmf(s, a, ALocated(th.pdu, th.ue)).(t := AddToAmf(s.t, a, th.ue))
    case AmfTargets(a, target) =>
      var th := AmfAt(s, a);
      SetAmf(s, a, if target.Some? then ATarget(th.pdu, th.ue, target.value)
                   else if AmfRouteOf(th.pdu).DownlinkNas? then AIdle
                   else ABroadcast(th.pdu))
    case AmfRewrites(a) =>
      var th := AmfAt(s, a);
      var ue := s.t.ues[th.ue];
      SetAmf(s, a, AReady(Rewrite(th.pdu, ue.ranUeId, ue.lbId), th.ue, th.gnb))
    case AmfSends(a, ok) =>
      var th := AmfAt(s, a);
      SetAmf(s, a, AIdle).(toGnb := if ok then s.toGnb + [Delivery(th.gnb, th.out, a, Some(th.ue))] else s.toGnb)
    case AmfBroadcasts(a, reached) =>
      SetAmf(s, a, AIdle).(toGnb := s.toGnb + Copies(AmfAt(s, a).pdu, a, reached))
    case GnbJoins(g) => s.(live := s.live + {g})
    case GnbLeaves(g) => s.(live := s.live - {g})
    case AmfJoins(a) => s.(amfs := s.amfs + {a})
    case AmfLeaves(a) => s.(amfs := s.amfs - {a})
  }

  // ---------- runs ----------

  predicate Legal(s: State, steps: seq<Step>)
    decreases |steps|
  {
    steps == [] || (Enabled(s, steps[0]) && Legal(Apply(s, steps[0]), steps[1..]))
  }

  function Exec(s: State, steps: seq<Step>): State
    requires Legal(s, steps)
    decreases |steps|
  {
    if steps == [] then s else Exec(Apply(s, steps[0]), steps[1..])
  }

  // ---------- what every run keeps ----------

  predicate GnbThreadSafe(t: Tables, g: int, th: GnbThread) {
    match th
    case GTaken(pdu) => Extract(pdu).UeIds?
    case GPicked(pdu, _) => Extract(pdu).UeIds?
    case GBound(pdu, ue, amf) =>
      Extract(pdu).UeIds? && Names(t, ue, g, RanKey(pdu)) && t.ues[ue].amf == amf
    case GReady(_, Some(ue), amf) => ue in t.ues && t.ues[ue].gnb == g && t.ues[ue].amf == amf
    case _ => true
  }

  predicate AmfThreadSafe(t: Tables, th: AmfThread) {
    match th
    case ATaken(pdu) => Extract(pdu).UeIds?
    case AFound(pdu, ue) => Extract(pdu).UeIds? && ue in t.ues
    case ASet(_, ue) => ue in t.ues
    case ALocated(_, ue) => ue in t.ues
    case ATarget(_, ue, _) => ue in t.ues
    case AReady(_, ue, _) => ue in t.ues
    case _ => true
  }

  predicate DeliveryAffine(t: Tables, d: Delivery) {
    d.ue.Some? ==> d.ue.value in t.ues && t.ues[d.ue.value].amf == d.node && t.ues[d.ue.value].gnb == d.from
  }

  /** Tables stay coherent; a message goes to the AMF that the context found for it was created with, and
      no message tagged with a context was ever sent to another AMF. */
  ghost predicate Safe(s: State) {
    && Coherent(s.t)
    && (forall g :: GnbThreadSafe(s.t, g, GnbAt(s, g)))
    && (forall a :: AmfThreadSafe(s.t, AmfAt(s, a)))
    && (forall i :: 0 <= i < |s.toAmf| ==> DeliveryAffine(s.t, s.toAmf[i]))
  }

  lemma SameTables(s: State, step: Step)
    requires Enabled(s, step) && !step.GnbCreates? && !step.AmfSets? && !step.AmfAdds?
    ensures Apply(s, step).t == s.t
  {
  }

  lemma TablesOfStep(s: State, step: Step)
    requires Safe(s) && Enabled(s, step)
    ensures Coherent(Apply(s, step).t) && Extends(s.t, Apply(s, step).t)
  {
    match step {
      case GnbCreates(g) => CreateCoherent(s.t, GnbAt(s, g).amf, g, RanKey(GnbAt(s, g).pdu));
      case AmfSets(a) => SetAmfUeIdCoherent(s.t, AmfAt(s, a).ue, Extract(AmfAt(s, a).pdu).amf);
      case AmfAdds(a) => AddToAmfCoherent(s.t, a, AmfAt(s, a).ue);
      case _ =>
    }
  }

  /** The step belongs to the handler of gNB `g`. */
  predicate OfGnbLoop(step: Step, g: int) {
    match step
    case GnbReads(h, _) => h == g
    case GnbRefuses(h) => h == g
    case GnbPicks(h, _) => h == g
    case GnbCreates(h) => h == g
    case GnbFinds(h) => h == g
    case GnbRewrites(h) => h == g
    case GnbSends(h, _) => h == g
    case _ => false
  }

  lemma OtherLoopsStay(s: State, step: Step, g: int)
    requires Enabled(s, step) && !OfGnbLoop(step, g)
    ensures GnbAt(Apply(s, step), g) == GnbAt(s, g)
  {
  }

  /** The step belongs to the handler of AMF `a`. */
  predicate OfAmfLoop(step: Step, a: int) {
    match step
    case AmfReads(b, _) => b == a
    case AmfFinds(b) => b == a
    case AmfSets(b) => b == a
    case AmfAdds(b) => b == a
    case AmfTargets(b, _) => b == a
    case AmfRewrites(b) => b == a
    case AmfSends(b, _) => b == a
    case AmfBroadcasts(b, _) => b == a
    case _ => false
  }

  lemma OtherAmfsStay(s: State, step: Step, a: int)
    requires Enabled(s, step) && !OfAmfLoop(step, a)
    ensures AmfAt(Apply(s, step), a) == AmfAt(s, a)
  {
  }

  /** Only a gNB's own InitialUEMessages change its table. */
  lemma RowOfStep(s: State, step: Step, g: int)
    requires Enabled(s, step) && step != GnbCreates(g)
    ensures Row(Apply(s, step).t.gnbUes, g) == Row(s.t.gnbUes, g)
  {
    if !step.GnbCreates? && !step.AmfSets? && !step.AmfAdds? {
      SameTables(s, step);
    }
  }

  lemma NoCreation(s: State, step: Step)
    requires Enabled(s, step) && !step.GnbCreates?
    ensures Apply(s, step).t.ues.Keys == s.t.ues.Keys && Extends(s.t, Apply(s, step).t)
    ensures Apply(s, step).t.gnbUes == s.t.gnbUes
  {
    if !step.AmfSets? && !step.AmfAdds? {
      SameTables(s, step);
    }
  }

  lemma ReadFromGnb(s: State, step: Step)
    requires Enabled(s, step)
    ensures Apply(s, step).fromGnb == s.fromGnb + if step.GnbReads? then [Received(step.g, step.pdu)] else []
  {
  }

  lemma ReadFromAmf(s: State, step: Step)
    requires Enabled(s, step)
    ensures Apply(s, step).fromAmf == s.fromAmf + if step.AmfReads? then [Received(step.a, step.pdu)] else []
  {
  }

  lemma GnbLoopSafe(s: State, step: Step, g: int)
    requires Safe(s) && Enabled(s, step)
    ensures GnbThreadSafe(Apply(s, step).t, g, GnbAt(Apply(s, step), g))
  {
    TablesOfStep(s, step);
    assert GnbThreadSafe(s.t, g, GnbAt(s, g));
  }

  lemma AmfThreadStays(t: Tables, t': Tables, th: AmfThread)
    requires AmfThreadSafe(t, th) && Extends(t, t')
    ensures AmfThreadSafe(t', th)
  {
  }

  lemma AmfLoopSafe(s: State, step: Step, a: int)
    requires Safe(s) && Enabled(s, step)
    ensures AmfThreadSafe(Apply(s, step).t, AmfAt(Apply(s, step), a))
  {
    TablesOfStep(s, step);
    assert AmfThreadSafe(s.t, AmfAt(s, a));
    if !OfAmfLoop(step, a) {
      OtherAmfsStay(s, step, a);
      AmfThreadStays(s.t, Apply(s, step).t, AmfAt(s, a));
    }
  }

  lemma DeliveriesAffine(s: State, step: Step)
    requires Safe(s) && Enabled(s, step)
    ensures var s' := Apply(s, step);
            forall i :: 0 <= i < |s'.toAmf| ==> DeliveryAffine(s'.t, s'.toAmf[i])
  {
    TablesOfStep(s, step);
    var s' := Apply(s, step);
    assert forall i :: 0 <= i < |s.toAmf| ==> DeliveryAffine(s'.t, s.toAmf[i]);
    if step.GnbSends? {
      assert GnbThreadSafe(s.t, step.g, GnbAt(s, step.g));
    }
  }

  lemma SafeStep(s: State, step: Step)
    requires Safe(s) && Enabled(s, step)
    ensures Safe(Apply(s, step))
    ensures Extends(s.t, Apply(s, step).t)
  {
    TablesOfStep(s, step);
    forall g ensures GnbThreadSafe(Apply(s, step).t, g, GnbAt(Apply(s, step), g)) {
      GnbLoopSafe(s, step, g);
    }
    forall a ensures AmfThreadSafe(Apply(s, step).t, AmfAt(Apply(s, step), a)) {
      AmfLoopSafe(s, step, a);
    }
    DeliveriesAffine(s, step);
  }

  /** Table coherence and AMF affinity hold in every reachable state. */
  lemma {:induction false} SafeRun(s: State, steps: seq<Step>)
    requires Safe(s) && Legal(s, steps)
    ensures Safe(Exec(s, steps)) && Extends(s.t, Exec(s, steps).t)
    decreases |steps|
  {
    if steps != [] {
      SafeStep(s, steps[0]);
      SafeRun(Apply(s, steps[0]), steps[1..]);
    }
  }

  lemma ReachableSafe(steps: seq<Step>)
    requires Legal(INIT, steps)
    ensures Safe(Exec(INIT, steps))
  {
    SafeRun(INIT, steps);
  }

  // ---------- AMF affinity between two InitialUEMessages ----------

  /** The step handles another InitialUEMessage of the same gNB with the same RAN ID. */
  predicate Recreates(s: State, step: Step, g: int, r: int)
    requires Enabled(s, step)
  {
    step == GnbCreates(g) && RanKey(GnbAt(s, g).pdu) == r
  }

  predicate NoneRecreates(s: State, steps: seq<Step>, g: int, r: int)
    requires Legal(s, steps)
    decreases |steps|
  {
    steps == [] ||
    (!Recreates(s, steps[0], g, r) && NoneRecreates(Apply(s, steps[0]), steps[1..], g, r))
  }

  /** The loop of gNB `g` is bound to no older context of RAN ID `r`. */
  predicate BoundOnlyTo(s: State, g: int, r: int, ue: int) {
    match GnbAt(s, g)
    case GBound(_, u, _) => Names(s.t, u, g, r) ==> u == ue
    case GReady(_, Some(u), _) => Names(s.t, u, g, r) ==> u == ue
    case _ => true
  }

  lemma RowAffine(s: State, step: Step, g: int, r: int)
    requires Coherent(s.t) && Enabled(s, step) && !Recreates(s, step, g, r)
    ensures FindByRan(Apply(s, step).t, g, r) == FindByRan(s.t, g, r)
  {
    if step == GnbCreates(g) {
      CreateCoherent(s.t, GnbAt(s, g).amf, g, RanKey(GnbAt(s, g).pdu));
    } else {
      RowOfStep(s, step, g);
    }
  }

  lemma AffineStep(s: State, step: Step, g: int, r: int, ue: int)
    requires Safe(s) && Enabled(s, step) && !Recreates(s, step, g, r)
    requires FindByRan(s.t, g, r) == Some(ue) && BoundOnlyTo(s, g, r, ue)
    ensures var s' := Apply(s, step);
            FindByRan(s'.t, g, r) == Some(ue) && BoundOnlyTo(s', g, r, ue)
  {
    TablesOfStep(s, step);
    RowAffine(s, step, g, r);
    assert GnbThreadSafe(s.t, g, GnbAt(s, g));
    if !OfGnbLoop(step, g) {
      OtherLoopsStay(s, step, g);
    }
  }

  /** What the log gained from index `from` on is for the UE's own AMF. */
  ghost predicate OnlyTo(s: State, from: nat, g: int, r: int, ue: int, a: int) {
    forall i :: from <= i < |s.toAmf| && s.toAmf[i].from == g && s.toAmf[i].ue.Some?
                && Names(s.t, s.toAmf[i].ue.value, g, r)
                ==> s.toAmf[i].ue == Some(ue) && s.toAmf[i].node == a
  }

  lemma DeliveryStep(s: State, step: Step, g: int, r: int, ue: int)
    requires Safe(s) && Enabled(s, step) && BoundOnlyTo(s, g, r, ue) && ue in s.t.ues
    ensures s.toAmf <= Apply(s, step).toAmf
    ensures OnlyTo(Apply(s, step), |s.toAmf|, g, r, ue, s.t.ues[ue].amf)
  {
    if step.GnbSends? {
      assert GnbThreadSafe(s.t, step.g, GnbAt(s, step.g));
    }
  }

  /** Contexts never change gNB or RAN ID, so a log entry keeps its meaning. */
  lemma OnlyToStays(s: State, s': State, from: nat, g: int, r: int, ue: int, a: int)
    requires OnlyTo(s, from, g, r, ue, a) && Extends(s.t, s'.t) && s.toAmf <= s'.toAmf
    requires forall i :: 0 <= i < |s.toAmf| ==> DeliveryAffine(s.t, s.toAmf[i])
    requires OnlyTo(s', |s.toAmf|, g, r, ue, a)
    ensures OnlyTo(s', from, g, r, ue, a)
  {
    forall i | from <= i < |s.toAmf| && s'.toAmf[i].from == g && s'.toAmf[i].ue.Some?
               && Names(s'.t, s'.toAmf[i].ue.value, g, r)
      ensures s'.toAmf[i].ue == Some(ue) && s'.toAmf[i].node == a
    {
      assert s.toAmf[i] == s'.toAmf[i] && DeliveryAffine(s.t, s.toAmf[i]);
    }
  }

  /** From the creation of a context until the next InitialUEMessage with the same gNB and RAN ID,
      whatever joins, leaves or is picked meanwhile: the lookup finds that context, and every message
      sent for that RAN ID goes to the AMF picked at its creation. */
  lemma {:induction false} Affinity(s: State, steps: seq<Step>, g: int, r: int, ue: int)
    requires Safe(s) && Legal(s, steps) && NoneRecreates(s, steps, g, r)
    requires FindByRan(s.t, g, r) == Some(ue) && BoundOnlyTo(s, g, r, ue)
    ensures var s' := Exec(s, steps);
            && FindByRan(s'.t, g, r) == Some(ue)
            && ue in s.t.ues && ue in s'.t.ues && s'.t.ues[ue].amf == s.t.ues[ue].amf
            && s.toAmf <= s'.toAmf
            && OnlyTo(s', |s.toAmf|, g, r, ue, s.t.ues[ue].amf)
    decreases |steps|
  {
    assert Names(s.t, ue, g, r);
    if steps != [] {
      var s1, s' := Apply(s, steps[0]), Exec(s, steps);
      SafeStep(s, steps[0]);
      AffineStep(s, steps[0], g, r, ue);
      DeliveryStep(s, steps[0], g, r, ue);
      Affinity(s1, steps[1..], g, r, ue);
      SafeRun(s1, steps[1..]);
      OnlyToStays(s1, s', |s.toAmf|, g, r, ue, s.t.ues[ue].amf);
    }
  }

  /** Right after an InitialUEMessage created a context, `Affinity` applies to it. */
  lemma CreationStartsAffinity(s: State, g: int)
    requires Safe(s) && Enabled(s, GnbCreates(g))
    ensures var s' := Apply(s, GnbCreates(g));
            && Safe(s')
            && FindByRan(s'.t, g, RanKey(GnbAt(s, g).pdu)) == Some(s.t.next)
            && BoundOnlyTo(s', g, RanKey(GnbAt(s, g).pdu), s.t.next)
            && s'.t.ues[s.t.next].amf == GnbAt(s, g).amf
  {
    SafeStep(s, GnbCreates(g));
  }
}
