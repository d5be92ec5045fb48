/** RAN IDs that are distinct across gNBs: every InitialUEMessage names a RAN ID that no earlier one
    named. Then a gNB's table key belongs to one context only, and the gNB search finds its gNB. */
module RanIds {
  import opened Dispatch
  import opened Naming
  import opened Ngap
  import opened Options
  import opened Translation
  import opened UeTables

  predicate Opens(e: Received, r: int) {
    GnbRouteOf(e.pdu).Initial? && NamedRan(e.pdu) == Some(r)
  }

  predicate RanUnused(log: seq<Received>, r: int) {
    forall i | 0 <= i < |log| :: !Opens(log[i], r)
  }

  /** gNB `g` opened the RAN ID. */
  predicate OpenedBy(log: seq<Received>, g: int, r: int) {
    exists i | 0 <= i < |log| :: Opens(log[i], r) && log[i].node == g
  }

  predicate RanStepOk(s: State, step: Step) {
    step.GnbReads? && GnbRouteOf(step.pdu).Initial? ==>
      Covers(step.pdu, RanField) && RanUnused(s.fromGnb, NamedRan(step.pdu).value)
  }

  predicate RanRun(s: State, steps: seq<Step>)
    decreases |steps|
  {
    steps == [] || (Enabled(s, steps[0]) && RanStepOk(s, steps[0]) && RanRun(Apply(s, steps[0]), steps[1..]))
  }

  // ---------- the invariant ----------

  predicate Starting(th: GnbThread) {
    StartsUe(th) || th.GPicked?
  }

  predicate Pending(th: GnbThread, r: int) {
    Starting(th) && NamedRan(th.pdu) == Some(r)
  }

  predicate PendingNamed(th: GnbThread) {
    Starting(th) ==> Covers(th.pdu, RanField)
  }

  predicate Entry(s: State, lb: int)
    requires lb in s.t.ues
  {
    && OpenedBy(s.fromGnb, s.t.ues[lb].gnb, s.t.ues[lb].ranUeId)
    && FindByRan(s.t, s.t.ues[lb].gnb, s.t.ues[lb].ranUeId) == Some(lb)
  }

  /** RAN IDs in use: each was announced, by one gNB, and belongs to at most one context. */
  ghost predicate RanIdsDistinct(s: State) {
    && (forall g :: PendingNamed(GnbAt(s, g)))
    && (forall lb :: lb in s.t.ues ==> Entry(s, lb))
    && (forall g, r :: Pending(GnbAt(s, g), r) ==> OpenedBy(s.fromGnb, g, r))
    && (forall g, h, r :: OpenedBy(s.fromGnb, g, r) && OpenedBy(s.fromGnb, h, r) ==> g == h)
    && (forall g, r, lb :: Pending(GnbAt(s, g), r) && lb in s.t.ues ==> s.t.ues[lb].ranUeId != r)
    && (forall g, h, r :: Pending(GnbAt(s, g), r) && Pending(GnbAt(s, h), r) ==> g == h)
    && (forall lb0, lb1 :: lb0 in s.t.ues && lb1 in s.t.ues && s.t.ues[lb0].ranUeId == s.t.ues[lb1].ranUeId
                           ==> lb0 == lb1)
  }

  // ---------- preservation ----------

  predicate Announces(step: Step, g: int, r: int) {
    step.GnbReads? && step.g == g && NamedRan(step.pdu) == Some(r) && GnbRouteOf(step.pdu).Initial?
  }

  lemma OpenedStays(s: State, step: Step, g: int, r: int)
    requires Enabled(s, step) && OpenedBy(s.fromGnb, g, r)
    ensures OpenedBy(Apply(s, step).fromGnb, g, r)
  {
    ReadFromGnb(s, step);
    var i :| 0 <= i < |s.fromGnb| && Opens(s.fromGnb[i], r) && s.fromGnb[i].node == g;
    assert Apply(s, step).fromGnb[i] == s.fromGnb[i];
  }

  /** A RAN ID was opened before, or is announced now for the first time. */
  lemma OpenedStep(s: State, step: Step, g: int, r: int)
    requires Enabled(s, step) && RanStepOk(s, step) && OpenedBy(Apply(s, step).fromGnb, g, r)
    ensures OpenedBy(s.fromGnb, g, r) || (Announces(step, g, r) && RanUnused(s.fromGnb, r))
  {
    ReadFromGnb(s, step);
    var log := Apply(s, step).fromGnb;
    var i :| 0 <= i < |log| && Opens(log[i], r) && log[i].node == g;
    if i < |s.fromGnb| {
      assert log[i] == s.fromGnb[i];
    }
  }

  /** A pending RAN ID was pending before, or was just announced and never used. */
  lemma PendingStep(s: State, step: Step, g: int, r: int)
    requires RanIdsDistinct(s) && Enabled(s, step) && RanStepOk(s, step) && Pending(GnbAt(Apply(s, step), g), r)
    ensures OpenedBy(Apply(s, step).fromGnb, g, r)
    ensures Pending(GnbAt(s, g), r) || (Announces(step, g, r) && RanUnused(s.fromGnb, r))
    ensures step != GnbCreates(g)
  {
    if !OfGnbLoop(step, g) {
      OtherLoopsStay(s, step, g);
    }
    if Pending(GnbAt(s, g), r) {
      OpenedStays(s, step, g, r);
    } else {
      ReadFromGnb(s, step);
      var log := Apply(s, step).fromGnb;
      assert Opens(log[|log| - 1], r) && log[|log| - 1].node == g;
    }
  }

  lemma PendingNamedStep(s: State, step: Step, g: int)
    requires Enabled(s, step) && RanStepOk(s, step) && PendingNamed(GnbAt(s, g))
    ensures PendingNamed(GnbAt(Apply(s, step), g))
  {
    if !OfGnbLoop(step, g) {
      OtherLoopsStay(s, step, g);
    }
  }

  /** The context that an InitialUEMessage creates takes its pending RAN ID. */
  lemma Created(s: State, g: int)
    requires Coherent(s.t) && Enabled(s, GnbCreates(g)) && PendingNamed(GnbAt(s, g))
    ensures var th, t' := GnbAt(s, g), Apply(s, GnbCreates(g)).t;
            && Pending(th, RanKey(th.pdu)) && t' == Create(s.t, th.amf, g, RanKey(th.pdu))
  {
    CoveredRanIsKey(GnbAt(s, g).pdu);
  }

  /** A context of the next state is an old one, or was created from a pending RAN ID. */
  lemma UeOrigin(s: State, step: Step, lb: int)
    requires Safe(s) && Enabled(s, step) && lb in Apply(s, step).t.ues
    requires forall g :: PendingNamed(GnbAt(s, g))
    ensures lb in s.t.ues ==> SameUe(s.t.ues[lb], Apply(s, step).t.ues[lb])
    ensures lb !in s.t.ues ==> step.GnbCreates? && lb == s.t.next
                               && Pending(GnbAt(s, step.g), Apply(s, step).t.ues[lb].ranUeId)
  {
    TablesOfStep(s, step);
    if step.GnbCreates? {
      assert PendingNamed(GnbAt(s, step.g));
      Created(s, step.g);
    }
  }

  lemma EntryOnCreate(s: State, g: int, lb: int)
    requires Safe(s) && RanIdsDistinct(s) && Enabled(s, GnbCreates(g)) && lb in Apply(s, GnbCreates(g)).t.ues
    ensures Entry(Apply(s, GnbCreates(g)), lb)
  {
    var th, s' := GnbAt(s, g), Apply(s, GnbCreates(g));
    assert PendingNamed(th);
    Created(s, g);
    CreateCoherent(s.t, th.amf, g, RanKey(th.pdu));
    assert s'.fromGnb == s.fromGnb;
    assert lb in s.t.ues ==> Entry(s, lb);
  }

  lemma EntryStays(s: State, step: Step, lb: int)
    requires Enabled(s, step) && !step.GnbCreates? && lb in s.t.ues && Entry(s, lb)
    ensures lb in Apply(s, step).t.ues && Entry(Apply(s, step), lb)
  {
    NoCreation(s, step);
    assert SameUe(s.t.ues[lb], Apply(s, step).t.ues[lb]);
    OpenedStays(s, step, s.t.ues[lb].gnb, s.t.ues[lb].ranUeId);
  }

  lemma EntryStep(s: State, step: Step, lb: int)
    requires Safe(s) && RanIdsDistinct(s) && Enabled(s, step) && lb in Apply(s, step).t.ues
    ensures Entry(Apply(s, step), lb)
  {
    if step.GnbCreates? {
      EntryOnCreate(s, step.g, lb);
    } else {
      NoCreation(s, step);
      EntryStays(s, step, lb);
    }
  }

  lemma RanIdsStep(s: State, step: Step)
    requires Safe(s) && RanIdsDistinct(s) && Enabled(s, step) && RanStepOk(s, step)
    ensures RanIdsDistinct(Apply(s, step))
  {
    var s' := Apply(s, step);
    forall g ensures PendingNamed(GnbAt(s', g)) { PendingNamedStep(s, step, g); }
    forall lb | lb in s'.t.ues ensures Entry(s', lb) { EntryStep(s, step, lb); }
    forall g, r | Pending(GnbAt(s', g), r) ensures OpenedBy(s'.fromGnb, g, r) { PendingStep(s, step, g, r); }
    forall g, h, r | OpenedBy(s'.fromGnb, g, r) && OpenedBy(s'.fromGnb, h, r) ensures g == h {
      OpenedStep(s, step, g, r);
      OpenedStep(s, step, h, r);
    }
    forall g, r, lb | Pending(GnbAt(s', g), r) && lb in s'.t.ues ensures s'.t.ues[lb].ranUeId != r {
      PendingStep(s, step, g, r);
      UeOrigin(s, step, lb);
      assert lb in s.t.ues ==> Entry(s, lb);
    }
    forall g, h, r | Pending(GnbAt(s', g), r) && Pending(GnbAt(s', h), r) ensures g == h {
      PendingStep(s, step, g, r);
      PendingStep(s, step, h, r);
    }
    forall lb0, lb1 | lb0 in s'.t.ues && lb1 in s'.t.ues && s'.t.ues[lb0].ranUeId == s'.t.ues[lb1].ranUeId
      ensures lb0 == lb1
    {
      UeOrigin(s, step, lb0);
      UeOrigin(s, step, lb1);
    }
  }

  lemma {:induction false} RanIdsRun(s: State, steps: seq<Step>)
    requires Safe(s) && RanIdsDistinct(s) && RanRun(s, steps)
    ensures Legal(s, steps) && RanIdsDistinct(Exec(s, steps))
    decreases |steps|
  {
    if steps != [] {
      SafeStep(s, steps[0]);
      RanIdsStep(s, steps[0]);
      RanIdsRun(Apply(s, steps[0]), steps[1..]);
    }
  }

  /** With distinct RAN IDs the key test finds the gNB of the context and no other. */
  lemma TargetIsOwner(s: State, g: int, lb: int)
    requires Coherent(s.t) && RanIdsDistinct(s) && lb in s.t.ues
    ensures HasUeContext(s.t, g, lb) <==> g == s.t.ues[lb].gnb
  {
    var r := s.t.ues[lb].ranUeId;
    assert Entry(s, lb);
    if HasUeContext(s.t, g, lb) {
      var found := Row(s.t.gnbUes, g)[r];
      assert Names(s.t, found, g, r);
    }
  }
}
