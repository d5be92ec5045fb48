/** Which IDs the messages delivered for a context carry, in every interleaved run. */
module DeliveredIds {
  import opened AmfIndex
  import opened Dispatch
  import opened Naming
  import opened Ngap
  import opened Options
  import opened Translation
  import opened UeTables

  /** If the PDU covers the field, the ID it names there is `id`. */
  predicate NamesIfCovered(pdu: Pdu<Ie>, f: Field, id: int) {
    Covers(pdu, f) ==> Named(pdu, f) == Some(id)
  }

  // ---------- in every run ----------

  predicate UpReady(th: GnbThread) {
    th.GReady? && th.origin.Some? ==> NamesIfCovered(th.out, RanField, th.origin.value)
  }

  predicate DownReady(t: Tables, th: AmfThread) {
    th.AReady? ==>
      && th.ue in t.ues
      && NamesIfCovered(th.out, RanField, t.ues[th.ue].ranUeId) && NamesIfCovered(th.out, AmfField, th.ue)
  }

  /** To an AMF, a context's message carries its LB ID as RAN ID. */
  predicate UpDelivered(d: Delivery) {
    d.ue.Some? ==> NamesIfCovered(d.pdu, RanField, d.ue.value)
  }

  /** To a gNB, a context's message carries its RAN ID, and its LB ID as AMF ID. */
  predicate DownDelivered(t: Tables, d: Delivery) {
    d.ue.Some? ==>
      && d.ue.value in t.ues
      && NamesIfCovered(d.pdu, RanField, t.ues[d.ue.value].ranUeId) && NamesIfCovered(d.pdu, AmfField, d.ue.value)
  }

  ghost predicate IdsInv(s: State) {
    && Safe(s)
    && (forall g :: UpReady(GnbAt(s, g)))
    && (forall a :: DownReady(s.t, AmfAt(s, a)))
    && (forall i :: 0 <= i < |s.toAmf| ==> UpDelivered(s.toAmf[i]))
    && (forall i :: 0 <= i < |s.toGnb| ==> DownDelivered(s.t, s.toGnb[i]))
  }

  lemma SameUplinkLog(s: State, step: Step)
    requires Enabled(s, step) && !step.GnbSends?
    ensures Apply(s, step).toAmf == s.toAmf
  {
  }

  lemma SameDownlinkLog(s: State, step: Step)
    requires Enabled(s, step) && !step.AmfSends? && !step.AmfBroadcasts?
    ensures Apply(s, step).toGnb == s.toGnb
  {
  }

  lemma UeStays(t: Tables, t': Tables, lb: int)
    requires lb in t.ues && Extends(t, t')
    ensures lb in t'.ues && SameUe(t.ues[lb], t'.ues[lb])
  {
  }

  lemma UpReadyStep(s: State, step: Step, g: int)
    requires Safe(s) && Enabled(s, step) && UpReady(GnbAt(s, g))
    ensures UpReady(GnbAt(Apply(s, step), g))
  {
    if step == GnbRewrites(g) {
      var th := GnbAt(s, g);
      RewriteRenames(th.pdu, s.t.ues[th.ue].lbId, s.t.ues[th.ue].amfUeId);
    } else if !OfGnbLoop(step, g) {
      OtherLoopsStay(s, step, g);
    }
  }

  lemma DownReadyOwn(s: State, a: int)
    requires Coherent(s.t) && Enabled(s, AmfRewrites(a))
    ensures DownReady(s.t, AmfAt(Apply(s, AmfRewrites(a)), a))
  {
    var th := AmfAt(s, a);
    RewriteRenames(th.pdu, s.t.ues[th.ue].ranUeId, s.t.ues[th.ue].lbId);
  }

  lemma DownReadyStep(s: State, step: Step, a: int)
    requires Safe(s) && Enabled(s, step) && DownReady(s.t, AmfAt(s, a))
    ensures DownReady(Apply(s, step).t, AmfAt(Apply(s, step), a))
  {
    if step == AmfRewrites(a) {
      DownReadyOwn(s, a);
      SameTables(s, step);
    } else if !OfAmfLoop(step, a) {
      OtherAmfsStay(s, step, a);
      TablesOfStep(s, step);
    }
  }

  lemma UpDeliveredStep(s: State, step: Step)
    requires IdsInv(s) && Enabled(s, step)
    ensures forall i :: 0 <= i < |Apply(s, step).toAmf| ==> UpDelivered(Apply(s, step).toAmf[i])
  {
    if step.GnbSends? {
      assert UpReady(GnbAt(s, step.g));
    } else {
      SameUplinkLog(s, step);
    }
  }

  lemma DownDeliveredStays(t: Tables, t': Tables, d: Delivery)
    requires DownDelivered(t, d) && Extends(t, t')
    ensures DownDelivered(t', d)
  {
    if d.ue.Some? {
      UeStays(t, t', d.ue.value);
    }
  }

  lemma DownDeliveredStep(s: State, step: Step)
    requires IdsInv(s) && Enabled(s, step)
    ensures var s' := Apply(s, step);
            forall i :: 0 <= i < |s'.toGnb| ==> DownDelivered(s'.t, s'.toGnb[i])
  {
    var s' := Apply(s, step);
    if step.AmfSends? {
      assert DownReady(s.t, AmfAt(s, step.a));
    } else if !step.AmfBroadcasts? {
      SameDownlinkLog(s, step);
      TablesOfStep(s, step);
      forall i | 0 <= i < |s.toGnb| ensures DownDelivered(s'.t, s.toGnb[i]) {
        DownDeliveredStays(s.t, s'.t, s.toGnb[i]);
      }
    }
  }

  lemma IdsInvStep(s: State, step: Step)
    requires IdsInv(s) && Enabled(s, step)
    ensures IdsInv(Apply(s, step))
  {
    SafeStep(s, step);
    forall g ensures UpReady(GnbAt(Apply(s, step), g)) { UpReadyStep(s, step, g); }
    forall a ensures DownReady(Apply(s, step).t, AmfAt(Apply(s, step), a)) {
      assert DownReady(s.t, AmfAt(s, a));
      DownReadyStep(s, step, a);
    }
    UpDeliveredStep(s, step);
    DownDeliveredStep(s, step);
  }

  lemma {:induction false} IdsInvRun(s: State, steps: seq<Step>)
    requires IdsInv(s) && Legal(s, steps)
    ensures IdsInv(Exec(s, steps))
    decreases |steps|
  {
    if steps != [] {
      IdsInvStep(s, steps[0]);
      IdsInvRun(Apply(s, steps[0]), steps[1..]);
    }
  }

  // ---------- the AMF IDs that reach AMFs ----------

  /** If the PDU covers the AMF ID, it is 0 or the UE's AMF's own ID for the UE. */
  predicate BearsAmfId(t: Tables, ue: int, pdu: Pdu<Ie>, id: IdPlan) {
    ue in t.ues && (NamesIfCovered(pdu, AmfField, 0) || NamesIfCovered(pdu, AmfField, id(t.ues[ue].amf, ue)))
  }

  predicate AmfIdReady(t: Tables, th: GnbThread, id: IdPlan) {
    th.GReady? && th.origin.Some? ==> BearsAmfId(t, th.origin.value, th.out, id)
  }

  predicate AmfIdDelivered(t: Tables, d: Delivery, id: IdPlan) {
    d.ue.Some? ==> BearsAmfId(t, d.ue.value, d.pdu, id)
  }

  ghost predicate AmfIdsBorne(t: Tables, log: seq<Delivery>, id: IdPlan) {
    forall i :: 0 <= i < |log| ==> AmfIdDelivered(t, log[i], id)
  }

  ghost predicate AmfIdsInv(s: State, id: IdPlan) {
    && IndexInv(s, id)
    && (forall g :: AmfIdReady(s.t, GnbAt(s, g), id))
    && AmfIdsBorne(s.t, s.toAmf, id)
  }

  lemma BearsAmfIdStays(t: Tables, t': Tables, ue: int, pdu: Pdu<Ie>, id: IdPlan)
    requires BearsAmfId(t, ue, pdu, id) && Extends(t, t')
    ensures BearsAmfId(t', ue, pdu, id)
  {
    UeStays(t, t', ue);
  }

  lemma AmfIdOnRewrite(s: State, g: int, id: IdPlan)
    requires IndexesAgree(s.t, id) && Enabled(s, GnbRewrites(g))
    ensures AmfIdReady(s.t, GnbAt(Apply(s, GnbRewrites(g)), g), id)
  {
    var th := GnbAt(s, g);
    RewriteRenames(th.pdu, s.t.ues[th.ue].lbId, s.t.ues[th.ue].amfUeId);
  }

  lemma ReadyElsewhere(s: State, step: Step, g: int)
    requires Enabled(s, step) && step != GnbRewrites(g) && GnbAt(Apply(s, step), g).GReady?
    ensures GnbAt(Apply(s, step), g) == GnbAt(s, g) || GnbAt(Apply(s, step), g).origin.None?
  {
    if !OfGnbLoop(step, g) {
      OtherLoopsStay(s, step, g);
    }
  }

  lemma AmfIdReadyStep(s: State, step: Step, g: int, id: IdPlan)
    requires AmfIdsInv(s, id) && Enabled(s, step)
    ensures AmfIdReady(Apply(s, step).t, GnbAt(Apply(s, step), g), id)
  {
    var th := GnbAt(Apply(s, step), g);
    assert AmfIdReady(s.t, GnbAt(s, g), id);
    if step == GnbRewrites(g) {
      AmfIdOnRewrite(s, g, id);
      SameTables(s, step);
    } else if th.GReady? && th.origin.Some? {
      ReadyElsewhere(s, step, g);
      TablesOfStep(s, step);
      BearsAmfIdStays(s.t, Apply(s, step).t, th.origin.value, th.out, id);
    }
  }

  lemma AmfIdDeliveredStep(s: State, step: Step, id: IdPlan)
    requires AmfIdsInv(s, id) && Enabled(s, step)
    ensures AmfIdsBorne(Apply(s, step).t, Apply(s, step).toAmf, id)
  {
    var s' := Apply(s, step);
    if step.GnbSends? {
      assert AmfIdReady(s.t, GnbAt(s, step.g), id);
    } else {
      SameUplinkLog(s, step);
      TablesOfStep(s, step);
      forall i | 0 <= i < |s.toAmf| && s.toAmf[i].ue.Some? ensures AmfIdDelivered(s'.t, s.toAmf[i], id) {
        assert AmfIdDelivered(s.t, s.toAmf[i], id);
        BearsAmfIdStays(s.t, s'.t, s.toAmf[i].ue.value, s.toAmf[i].pdu, id);
      }
    }
  }

  lemma {:induction false} AmfIdsInvRun(s: State, steps: seq<Step>, id: IdPlan)
    requires AmfIdsInv(s, id) && IndexRun(s, steps, id)
    ensures Legal(s, steps) && AmfIdsInv(Exec(s, steps), id)
    decreases |steps|
  {
    if steps != [] {
      var s1 := Apply(s, steps[0]);
      IndexInvStep(s, steps[0], id);
      forall g ensures AmfIdReady(s1.t, GnbAt(s1, g), id) { AmfIdReadyStep(s, steps[0], g, id); }
      AmfIdDeliveredStep(s, steps[0], id);
      AmfIdsInvRun(s1, steps[1..], id);
    }
  }

  // ---------- main results ----------

  /** In every run, whatever AMFs and gNBs do: a message handled for a context reaches its AMF with the LB
      ID as RAN ID, and its gNB with its RAN ID and the LB ID as AMF ID. */
  lemma IdsDelivered(steps: seq<Step>)
    requires Legal(INIT, steps)
    ensures var s := Exec(INIT, steps);
            && (forall i :: 0 <= i < |s.toAmf| ==> UpDelivered(s.toAmf[i]))
            && (forall i :: 0 <= i < |s.toGnb| ==> DownDelivered(s.t, s.toGnb[i]))
  {
    IdsInvRun(INIT, steps);
  }

  /** With AMFs that obey `AmfIndex`, it reaches its AMF with 0 or the AMF's own ID as AMF ID. */
  lemma AmfIdsDelivered(steps: seq<Step>, id: IdPlan)
    requires Unreused(id) && IndexRun(INIT, steps, id)
    ensures Legal(INIT, steps)
    ensures AmfIdsBorne(Exec(INIT, steps).t, Exec(INIT, steps).toAmf, id)
  {
    AmfIdsInvRun(INIT, steps, id);
  }
}
