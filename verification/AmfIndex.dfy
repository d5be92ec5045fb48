/** Index agreement. AMF `a` names its UE `lb` by one AMF ID, `id(a, lb)`, that it gives to no other UE
    (section 9.3.3.1 of TS 38.413), and sends Downlink NAS for its own UEs only. Nothing else is assumed:
    gNBs may do anything, sends may fail, and gNBs and AMFs come and go. */
module AmfIndex {
  import opened Dispatch
  import opened Naming
  import opened Ngap
  import opened Options
  import opened Translation
  import opened UeTables

  type IdPlan = (int, int) -> int

  ghost predicate Unreused(id: IdPlan) {
    forall a, lb0, lb1 :: lb0 != lb1 ==> id(a, lb0) != id(a, lb1)
  }

  predicate Owns(t: Tables, a: int, lb: int) {
    lb in t.ues && t.ues[lb].amf == a
  }

  /** A Downlink NAS message names, in its own IEs, the LB ID of a UE of the AMF and its AMF ID. */
  predicate OwnDownlink(t: Tables, a: int, pdu: Pdu<Ie>, id: IdPlan) {
    && Covers(pdu, RanField) && Covers(pdu, AmfField)
    && Owns(t, a, NamedRan(pdu).value)
    && NamedAmf(pdu) == Some(id(a, NamedRan(pdu).value))
  }

  predicate IndexStepOk(s: State, step: Step, id: IdPlan) {
    step.AmfReads? && AmfRouteOf(step.pdu).DownlinkNas? ==> OwnDownlink(s.t, step.a, step.pdu, id)
  }

  predicate IndexRun(s: State, steps: seq<Step>, id: IdPlan)
    decreases |steps|
  {
    steps == [] ||
    (Enabled(s, steps[0]) && IndexStepOk(s, steps[0], id) && IndexRun(Apply(s, steps[0]), steps[1..], id))
  }

  predicate Introduces(e: Received, a: int, lb: int) {
    e.node == a && AmfRouteOf(e.pdu).DownlinkNas? && NamedRan(e.pdu) == Some(lb)
  }

  predicate Introduced(log: seq<Received>, a: int, lb: int) {
    exists i | 0 <= i < |log| :: Introduces(log[i], a, lb)
  }

  // ---------- the invariant ----------

  predicate Indexed(t: Tables, a: int, x: int, lb: int, id: IdPlan) {
    Owns(t, a, lb) && x == id(a, lb) && t.ues[lb].amfUeId == x
  }

  /** Each key of an AMF's table is the AMF ID of the context stored under it. */
  ghost predicate IndexesAgree(t: Tables, id: IdPlan) {
    && (forall a, x :: FindByAmfId(t, a, x).Some? ==> Indexed(t, a, x, FindByAmfId(t, a, x).value, id))
    && (forall lb :: lb in t.ues ==> t.ues[lb].amfUeId == 0 || t.ues[lb].amfUeId == id(t.ues[lb].amf, lb))
  }

  /** The UE that an AMF's loop is about to file is its own and under its own ID. */
  predicate Filing(t: Tables, a: int, th: AmfThread, id: IdPlan) {
    match th
    case ATaken(pdu) => AmfRouteOf(pdu).DownlinkNas? ==> OwnDownlink(t, a, pdu, id)
    case AFound(pdu, lb) => Owns(t, a, lb) && OwnDownlink(t, a, pdu, id) && NamedRan(pdu) == Some(lb)
    case ASet(pdu, lb) =>
      Owns(t, a, lb) && OwnDownlink(t, a, pdu, id) && NamedRan(pdu) == Some(lb) && t.ues[lb].amfUeId == id(a, lb)
    case _ => true
  }

  predicate Introducing(th: AmfThread, lb: int) {
    match th
    case ATaken(pdu) => AmfRouteOf(pdu).DownlinkNas? && NamedRan(pdu) == Some(lb)
    case AFound(_, ue) => ue == lb
    case ASet(_, ue) => ue == lb
    case _ => false
  }

  /** A UE introduced by its AMF is indexed, unless the introduction is still being handled. */
  ghost predicate IntroductionsIndexed(s: State, a: int, lb: int, id: IdPlan) {
    Introduced(s.fromAmf, a, lb) ==>
      || FindByAmfId(s.t, a, id(a, lb)) == Some(lb)
      || Introducing(AmfAt(s, a), lb)
  }

  ghost predicate IndexInv(s: State, id: IdPlan) {
    && Safe(s) && Unreused(id)
    && IndexesAgree(s.t, id)
    && (forall a :: Filing(s.t, a, AmfAt(s, a), id))
    && (forall a, lb :: IntroductionsIndexed(s, a, lb, id))
  }

  // ---------- preservation ----------

  lemma AddToAmfRows(t: Tables, a: int, lb: int)
    requires lb in t.ues
    ensures var t' := AddToAmf(t, a, lb);
            && FindByAmfId(t', a, t.ues[lb].amfUeId) == Some(lb)
            && forall b, x :: (b, x) != (a, t.ues[lb].amfUeId) ==> FindByAmfId(t', b, x) == FindByAmfId(t, b, x)
  {
  }

  lemma FiledId(pdu: Pdu<Ie>)
    requires Covers(pdu, RanField) && Covers(pdu, AmfField)
    ensures Extract(pdu) == UeIds(NamedRan(pdu).value, NamedAmf(pdu).value, true)
  {
    ReadExactlyCovered(pdu, RanField);
    ReadExactlyCovered(pdu, AmfField);
  }

  /** Storing the AMF ID of an own UE keeps the index. */
  lemma IndexOnSet(t: Tables, a: int, lb: int, id: IdPlan)
    requires IndexesAgree(t, id) && Owns(t, a, lb)
    ensures IndexesAgree(SetAmfUeId(t, lb, id(a, lb)), id)
  {
    var t' := SetAmfUeId(t, lb, id(a, lb));
    forall b, x | FindByAmfId(t', b, x).Some? ensures Indexed(t', b, x, FindByAmfId(t', b, x).value, id) {
      assert FindByAmfId(t, b, x) == FindByAmfId(t', b, x);
      assert Indexed(t, b, x, FindByAmfId(t, b, x).value, id);
    }
  }

  lemma IndexOnAdd(t: Tables, a: int, lb: int, id: IdPlan)
    requires IndexesAgree(t, id) && Owns(t, a, lb) && t.ues[lb].amfUeId == id(a, lb)
    ensures IndexesAgree(AddToAmf(t, a, lb), id)
  {
    var t' := AddToAmf(t, a, lb);
    AddToAmfRows(t, a, lb);
    forall b, x | FindByAmfId(t', b, x).Some? ensures Indexed(t', b, x, FindByAmfId(t', b, x).value, id) {
      assert FindByAmfId(t, b, x).Some? ==> Indexed(t, b, x, FindByAmfId(t, b, x).value, id);
    }
  }

  lemma IndexOnCreate(t: Tables, a: int, g: int, r: int, id: IdPlan)
    requires Coherent(t) && IndexesAgree(t, id)
    ensures IndexesAgree(Create(t, a, g, r), id)
  {
    var t' := Create(t, a, g, r);
    forall b, x | FindByAmfId(t', b, x).Some? ensures Indexed(t', b, x, FindByAmfId(t', b, x).value, id) {
      assert Indexed(t, b, x, FindByAmfId(t, b, x).value, id);
    }
  }

  lemma IndexStep(s: State, step: Step, id: IdPlan)
    requires IndexInv(s, id) && Enabled(s, step)
    ensures IndexesAgree(Apply(s, step).t, id)
  {
    match step {
      case GnbCreates(g) => IndexOnCreate(s.t, GnbAt(s, g).amf, g, RanKey(GnbAt(s, g).pdu), id);
      case AmfSets(a) =>
        assert Filing(s.t, a, AmfAt(s, a), id);
        FiledId(AmfAt(s, a).pdu);
        IndexOnSet(s.t, a, AmfAt(s, a).ue, id);
      case AmfAdds(a) =>
        assert Filing(s.t, a, AmfAt(s, a), id);
        IndexOnAdd(s.t, a, AmfAt(s, a).ue, id);
      case _ => SameTables(s, step);
    }
  }

  lemma OtherRowsStay(s: State, step: Step, a: int)
    requires Enabled(s, step) && step != AmfAdds(a)
    ensures Row(Apply(s, step).t.amfUes, a) == Row(s.t.amfUes, a)
  {
    if !step.GnbCreates? && !step.AmfSets? && !step.AmfAdds? {
      SameTables(s, step);
    }
  }

  /** Another AMF's loop only stores the IDs of its own UEs. */
  lemma FilingElsewhere(s: State, step: Step, a: int, id: IdPlan)
    requires IndexInv(s, id) && Enabled(s, step) && !OfAmfLoop(step, a)
    ensures Filing(Apply(s, step).t, a, AmfAt(Apply(s, step), a), id)
  {
    TablesOfStep(s, step);
    OtherAmfsStay(s, step, a);
    assert Filing(s.t, a, AmfAt(s, a), id);
    if step.AmfSets? {
      assert Filing(s.t, step.a, AmfAt(s, step.a), id);
    }
  }

  lemma FilingOwn(s: State, step: Step, a: int, id: IdPlan)
    requires Coherent(s.t) && Enabled(s, step) && OfAmfLoop(step, a) && IndexStepOk(s, step, id)
    requires Filing(s.t, a, AmfAt(s, a), id)
    ensures Filing(Apply(s, step).t, a, AmfAt(Apply(s, step), a), id)
  {
    var th := AmfAt(s, a);
    match step {
      case AmfFinds(_) => if AmfRouteOf(th.pdu).DownlinkNas? { FiledId(th.pdu); }
      case AmfSets(_) => FiledId(th.pdu);
      case _ =>
    }
  }

  lemma IntroducedStep(s: State, step: Step, a: int, lb: int)
    requires Enabled(s, step) && Introduced(Apply(s, step).fromAmf, a, lb)
    ensures Introduced(s.fromAmf, a, lb) || (step.AmfReads? && Introduces(Received(step.a, step.pdu), a, lb))
  {
    ReadFromAmf(s, step);
    var log := Apply(s, step).fromAmf;
    var i :| 0 <= i < |log| && Introduces(log[i], a, lb);
    if i < |s.fromAmf| {
      assert Introduces(s.fromAmf[i], a, lb);
    }
  }

  /** Filing another UE leaves an indexed UE indexed. */
  lemma IndexedStays(s: State, step: Step, a: int, lb: int, id: IdPlan)
    requires Unreused(id) && Enabled(s, step) && Filing(s.t, a, AmfAt(s, a), id)
    requires FindByAmfId(s.t, a, id(a, lb)) == Some(lb)
    ensures FindByAmfId(Apply(s, step).t, a, id(a, lb)) == Some(lb)
  {
    if step == AmfAdds(a) {
      AddToAmfRows(s.t, a, AmfAt(s, a).ue);
    } else {
      OtherRowsStay(s, step, a);
    }
  }

  /** An introduction being handled ends in the index. */
  lemma IntroducingStep(s: State, step: Step, a: int, lb: int, id: IdPlan)
    requires Coherent(s.t) && Enabled(s, step) && Filing(s.t, a, AmfAt(s, a), id) && Introducing(AmfAt(s, a), lb)
    ensures FindByAmfId(Apply(s, step).t, a, id(a, lb)) == Some(lb) || Introducing(AmfAt(Apply(s, step), a), lb)
  {
    if !OfAmfLoop(step, a) {
      OtherAmfsStay(s, step, a);
    } else if step.AmfFinds? {
      FiledId(AmfAt(s, a).pdu);
    } else if step.AmfAdds? {
      AddToAmfRows(s.t, a, AmfAt(s, a).ue);
    }
  }

  lemma IntroductionStep(s: State, step: Step, a: int, lb: int, id: IdPlan)
    requires IndexInv(s, id) && Enabled(s, step) && IndexStepOk(s, step, id)
    ensures IntroductionsIndexed(Apply(s, step), a, lb, id)
  {
    assert Filing(s.t, a, AmfAt(s, a), id) && IntroductionsIndexed(s, a, lb, id);
    if Introduced(Apply(s, step).fromAmf, a, lb) {
      IntroducedStep(s, step, a, lb);
      if FindByAmfId(s.t, a, id(a, lb)) == Some(lb) {
        IndexedStays(s, step, a, lb, id);
      } else if Introducing(AmfAt(s, a), lb) {
        IntroducingStep(s, step, a, lb, id);
      }
    }
  }

  lemma IndexInvStep(s: State, step: Step, id: IdPlan)
    requires IndexInv(s, id) && Enabled(s, step) && IndexStepOk(s, step, id)
    ensures IndexInv(Apply(s, step), id)
  {
    var s' := Apply(s, step);
    SafeStep(s, step);
    IndexStep(s, step, id);
    forall a ensures Filing(s'.t, a, AmfAt(s', a), id) {
      assert Filing(s.t, a, AmfAt(s, a), id);
      if OfAmfLoop(step, a) { FilingOwn(s, step, a, id); } else { FilingElsewhere(s, step, a, id); }
    }
    forall a, lb ensures IntroductionsIndexed(s', a, lb, id) { IntroductionStep(s, step, a, lb, id); }
  }

  lemma {:induction false} IndexInvRun(s: State, steps: seq<Step>, id: IdPlan)
    requires IndexInv(s, id) && IndexRun(s, steps, id)
    ensures Legal(s, steps) && IndexInv(Exec(s, steps), id)
    decreases |steps|
  {
    if steps != [] {
      IndexInvStep(s, steps[0], id);
      IndexInvRun(Apply(s, steps[0]), steps[1..], id);
    }
  }

  // ---------- main result ----------

  /** Index agreement: every key of an AMF's table is its context's AMF ID, and an introduced UE is
      found by its AMF ID as the very context that its LB ID names. */
  lemma IndexAgreement(steps: seq<Step>, id: IdPlan, a: int, lb: int)
    requires Unreused(id) && IndexRun(INIT, steps, id)
    ensures Legal(INIT, steps)
    ensures var s := Exec(INIT, steps);
            && (forall x :: FindByAmfId(s.t, a, x).Some? ==>
                  var ue := FindByAmfId(s.t, a, x).value;
                  Owns(s.t, a, ue) && s.t.ues[ue].amfUeId == x)
            && (Introduced(s.fromAmf, a, lb) && AmfAt(s, a).AIdle? ==> FindByAmfId(s.t, a, id(a, lb)) == Some(lb))
  {
    IndexInvRun(INIT, steps, id);
    var s := Exec(INIT, steps);
    assert IntroductionsIndexed(s, a, lb, id);
    forall x | FindByAmfId(s.t, a, x).Some?
      ensures Owns(s.t, a, FindByAmfId(s.t, a, x).value) && s.t.ues[FindByAmfId(s.t, a, x).value].amfUeId == x
    {
      assert Indexed(s.t, a, x, FindByAmfId(s.t, a, x).value, id);
    }
  }
}
