/** One UE's first exchange, as a run that meets the hypotheses of both channel theorems. */
module ExampleRun {
  import AmfIndex
  import opened Dispatch
  import DownlinkChannel
  import opened Naming
  import opened Ngap
  import opened Options
  import RanIds
  import opened Translation
  import opened UeTables
  import UplinkChannel

  const INITIAL: Pdu<Ie> :=
    Pdu(PresentInitiating, Some(Message(InitialUEMessage, Some([Ie(RanUeNgapId, Some(7), None, None, None, [])]))))

  const DOWNLINK: Pdu<Ie> :=
    Pdu(PresentInitiating,
        Some(Message(DownlinkNASTransport, Some([Ie(AmfUeNgapId, None, Some(5), None, None, []),
                                                 Ie(RanUeNgapId, Some(0), None, None, None, [])]))))

  function Plan(a: int, lb: int): int {
    lb + 5
  }

  /** An InitialUEMessage for RAN ID 7, and a Downlink NAS for LB ID 0 and AMF ID 5. */
  predicate Opens(pdu: Pdu<Ie>) {
    && GnbRouteOf(pdu).Initial? && Covers(pdu, RanField) && NamedRan(pdu) == Some(7)
    && Extract(pdu).UeIds? && NasKey(Extract(pdu)) == 7 && !Modify(pdu, 0, 0).ModifyCrash?
  }

  predicate Answers(pdu: Pdu<Ie>) {
    && AmfRouteOf(pdu).DownlinkNas? && Covers(pdu, RanField) && Covers(pdu, AmfField)
    && NamedRan(pdu) == Some(0) && NamedAmf(pdu) == Some(5)
    && Extract(pdu) == UeIds(0, 5, true) && !Modify(pdu, 0, 0).ModifyCrash?
  }

  lemma InitialOpens()
    ensures Opens(INITIAL)
  {
    var ies := INITIAL.payload.value.body.value;
    assert ies[..0] == [];
    assert LastHeld(ALL_IDS, RanField, ies) == Some(7);
    CoveredRanIsKey(INITIAL);
  }

  lemma DownlinkAnswers()
    ensures Answers(DOWNLINK)
  {
    var ies := DOWNLINK.payload.value.body.value;
    assert ies[..1] == [ies[0]] && ies[..1][..0] == [];
    assert LastHeld(ALL_IDS, AmfField, ies[..1]) == Some(5);
    assert LastHeld(ALL_IDS, RanField, ies) == Some(0);
    assert LastHeld(ALL_IDS, AmfField, ies) == Some(5);
    AmfIndex.FiledId(DOWNLINK);
  }

  ghost predicate Good(s: State, steps: seq<Step>) {
    && Legal(s, steps) && UplinkChannel.GoodUplinkRun(s, steps)
    && AmfIndex.IndexRun(s, steps, Plan) && RanIds.RanRun(s, steps) && DownlinkChannel.ForwardRun(s, steps, Plan)
  }

  ghost predicate GoodNext(s: State, step: Step) {
    && Enabled(s, step) && UplinkChannel.WellFormedStep(s, step) && AmfIndex.IndexStepOk(s, step, Plan)
    && RanIds.RanStepOk(s, step) && DownlinkChannel.ForwardStepOk(s, step, Plan)
  }

  lemma {:induction false} Extend(s: State, steps: seq<Step>, step: Step) returns (longer: seq<Step>)
    requires Good(s, steps) && GoodNext(Exec(s, steps), step)
    ensures Good(s, longer) && Exec(s, longer) == Apply(Exec(s, steps), step)
    ensures longer == steps + [step]
    decreases |steps|
  {
    longer := steps + [step];
    if steps == [] {
      assert longer[1..] == [];
    } else {
      var tail := Extend(Apply(s, steps[0]), steps[1..], step);
      assert longer[1..] == tail;
    }
  }

  lemma Join() returns (steps: seq<Step>)
    ensures Good(INIT, steps) && Exec(INIT, steps) == INIT.(live := {1}, amfs := {9})
  {
    steps := Extend(INIT, [], AmfJoins(9));
    steps := Extend(INIT, steps, GnbJoins(1));
  }

  lemma Arrive(initial: Pdu<Ie>) returns (steps: seq<Step>)
    requires Opens(initial)
    ensures Good(INIT, steps)
    ensures Exec(INIT, steps) ==
            State(EMPTY, {1}, {9}, map[1 := GTaken(initial)], map[], [Received(1, initial)], [], [], [])
  {
    steps := Join();
    steps := Extend(INIT, steps, GnbReads(1, initial));
  }

  lemma Open(initial: Pdu<Ie>) returns (steps: seq<Step>)
    requires Opens(initial)
    ensures Good(INIT, steps)
    ensures Exec(INIT, steps) ==
            State(Create(EMPTY, 9, 1, 7), {1}, {9}, map[1 := GBound(initial, 0, 9)], map[],
                  [Received(1, initial)], [], [], [])
  {
    steps := Arrive(initial);
    steps := Extend(INIT, steps, GnbPicks(1, 9));
    steps := Extend(INIT, steps, GnbCreates(1));
  }

  lemma Attach(initial: Pdu<Ie>) returns (steps: seq<Step>)
    requires Opens(initial)
    ensures Good(INIT, steps)
    ensures var s := Exec(INIT, steps);
            && s.t == Create(EMPTY, 9, 1, 7) && s.live == {1} && s.amfLoops == map[] && s.fromAmf == []
            && |s.toAmf| == 1 && s.toGnb == []
  {
    steps := Open(initial);
    RewriteRenames(initial, 0, 0);
    steps := Extend(INIT, steps, GnbRewrites(1));
    steps := Extend(INIT, steps, GnbSends(1, true));
  }

  lemma Hear(initial: Pdu<Ie>, answer: Pdu<Ie>) returns (steps: seq<Step>)
    requires Opens(initial) && Answers(answer)
    ensures Good(INIT, steps)
    ensures var s := Exec(INIT, steps);
            && s.t == Create(EMPTY, 9, 1, 7) && s.live == {1}
            && AmfAt(s, 9) == ATaken(answer) && s.fromAmf == [Received(9, answer)]
            && |s.toAmf| == 1 && s.toGnb == []
  {
    steps := Attach(initial);
    steps := Extend(INIT, steps, AmfReads(9, answer));
  }

  lemma Ask(initial: Pdu<Ie>, answer: Pdu<Ie>) returns (steps: seq<Step>)
    requires Opens(initial) && Answers(answer)
    ensures Good(INIT, steps)
    ensures var s := Exec(INIT, steps);
            && s.t == Create(EMPTY, 9, 1, 7) && s.live == {1}
            && AmfAt(s, 9) == AFound(answer, 0) && s.fromAmf == [Received(9, answer)]
            && |s.toAmf| == 1 && s.toGnb == []
  {
    steps := Hear(initial, answer);
    steps := Extend(INIT, steps, AmfFinds(9));
  }

  lemma Store(initial: Pdu<Ie>, answer: Pdu<Ie>) returns (steps: seq<Step>)
    requires Opens(initial) && Answers(answer)
    ensures Good(INIT, steps)
    ensures var s := Exec(INIT, steps);
            && s.t == SetAmfUeId(Create(EMPTY, 9, 1, 7), 0, 5) && s.live == {1}
            && AmfAt(s, 9) == ASet(answer, 0) && s.fromAmf == [Received(9, answer)]
            && |s.toAmf| == 1 && s.toGnb == []
  {
    steps := Ask(initial, answer);
    steps := Extend(INIT, steps, AmfSets(9));
  }

  lemma Introduce(initial: Pdu<Ie>, answer: Pdu<Ie>) returns (steps: seq<Step>)
    requires Opens(initial) && Answers(answer)
    ensures Good(INIT, steps)
    ensures var s := Exec(INIT, steps);
            && s.t == AddToAmf(SetAmfUeId(Create(EMPTY, 9, 1, 7), 0, 5), 9, 0) && s.live == {1}
            && AmfAt(s, 9) == ALocated(answer, 0) && s.fromAmf == [Received(9, answer)]
            && |s.toAmf| == 1 && s.toGnb == []
  {
    steps := Store(initial, answer);
    steps := Extend(INIT, steps, AmfAdds(9));
  }

  lemma Target(initial: Pdu<Ie>, answer: Pdu<Ie>) returns (steps: seq<Step>)
    requires Opens(initial) && Answers(answer)
    ensures Good(INIT, steps)
    ensures var s := Exec(INIT, steps);
            && AmfAt(s, 9) == ATarget(answer, 0, 1) && s.fromAmf == [Received(9, answer)]
            && s.t == AddToAmf(SetAmfUeId(Create(EMPTY, 9, 1, 7), 0, 5), 9, 0)
            && |s.toAmf| == 1 && s.toGnb == []
  {
    steps := Introduce(initial, answer);
    steps := Extend(INIT, steps, AmfTargets(9, Some(1)));
  }

  lemma Prepare(initial: Pdu<Ie>, answer: Pdu<Ie>) returns (steps: seq<Step>)
    requires Opens(initial) && Answers(answer)
    ensures Good(INIT, steps)
    ensures var s := Exec(INIT, steps);
            && AmfAt(s, 9) == AReady(Rewrite(answer, 7, 0), 0, 1) && s.fromAmf == [Received(9, answer)]
            && s.t == AddToAmf(SetAmfUeId(Create(EMPTY, 9, 1, 7), 0, 5), 9, 0)
            && |s.toAmf| == 1 && s.toGnb == []
  {
    steps := Target(initial, answer);
    RewriteRenames(answer, 7, 0);
    steps := Extend(INIT, steps, AmfRewrites(9));
  }

  lemma Deliver(initial: Pdu<Ie>, answer: Pdu<Ie>) returns (steps: seq<Step>)
    requires Opens(initial) && Answers(answer)
    ensures Good(INIT, steps)
    ensures var s := Exec(INIT, steps);
            && AmfAt(s, 9).AIdle? && s.fromAmf == [Received(9, answer)]
            && s.t == AddToAmf(SetAmfUeId(Create(EMPTY, 9, 1, 7), 0, 5), 9, 0)
            && |s.toAmf| == 1 && |s.toGnb| == 1
  {
    steps := Prepare(initial, answer);
    steps := Extend(INIT, steps, AmfSends(9, true));
  }

  /** The hypotheses of the channel theorems can be met together, by a run that attaches a UE and
      introduces it to its AMF. */
  lemma GoodRunExists() returns (steps: seq<Step>)
    ensures Good(INIT, steps) && AmfIndex.Unreused(Plan)
    ensures var s := Exec(INIT, steps);
            && AmfIndex.Introduced(s.fromAmf, 9, 0) && AmfAt(s, 9).AIdle?
            && FindByAmfId(s.t, 9, 5) == Some(0) && FindByRan(s.t, 1, 7) == Some(0)
            && |s.toAmf| == 1 && |s.toGnb| == 1
  {
    InitialOpens();
    DownlinkAnswers();
    steps := Deliver(INITIAL, DOWNLINK);
    assert AmfIndex.Introduces(Exec(INIT, steps).fromAmf[0], 9, 0);
  }
}
