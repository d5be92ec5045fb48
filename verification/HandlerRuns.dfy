/** The handlers' reactions are runs of the step system: letting one read loop alone take its steps
    from idle gives the reaction's table change and its send. */
module HandlerRuns {
  import opened Dispatch
  import opened Ngap
  import opened Options
  import opened Reactions
  import opened Translation
  import opened UeTables

  lemma {:induction false} Then(s: State, steps: seq<Step>, step: Step) returns (longer: seq<Step>)
    requires Legal(s, steps) && Enabled(Exec(s, steps), step)
    ensures longer == steps + [step] && Legal(s, longer)
    ensures Exec(s, longer) == Apply(Exec(s, steps), step)
    decreases |steps|
  {
    longer := steps + [step];
    if steps == [] {
      assert longer == [step] && longer[1..] == [];
    } else {
      var tail := Then(Apply(s, steps[0]), steps[1..], step);
      assert longer[0] == steps[0] && longer[1..] == tail;
    }
  }

  lemma OnlyCommandsCrash(pdu: Pdu<Ie>)
    requires Extract(pdu).ExtractCrash?
    ensures pdu.Payload().Some? && pdu.Payload().value.procedure.UEContextRelease? && pdu.present.PresentInitiating?
    ensures GnbRouteOf(pdu).ForwardToAmf? && AmfRouteOf(pdu).ForwardToGnb?
  {
    var Message(p, Some(ies)) := pdu.Payload().value;
    var i :| 0 <= i < |ies| && ProbeIe(ReadRuleOf(pdu.Class(), p), RanField, ies[i]).Crash?;
  }

  // ---------- gNB side ----------

  /** Only the loop of gNB `g` moved, and it is idle again. */
  predicate OnlyGnb(s: State, s': State, g: int) {
    && GnbAt(s', g).GIdle?
    && s' == s.(t := s'.t, gnbs := s.gnbs[g := GIdle], fromGnb := s'.fromGnb, toAmf := s'.toAmf)
  }

  /** What the AMFs receive because of a reaction whose send, if any, ends with `ok`. */
  ghost predicate DeliversToAmf(s: State, s': State, g: int, r: Reaction, ok: bool) {
    match r
    case SendTo(AmfNode(a), out) =>
      if ok then exists origin :: s'.toAmf == s.toAmf + [Delivery(a, out, g, origin)] else s'.toAmf == s.toAmf
    case _ => s'.toAmf == s.toAmf
  }

  /** From a bound message to idle. */
  lemma BoundRuns(s: State, steps: seq<Step>, g: int, lb: int, pdu: Pdu<Ie>, ok: bool) returns (longer: seq<Step>)
    requires Legal(s, steps)
    requires var s1 := Exec(s, steps);
             lb in s1.t.ues && GnbAt(s1, g) == GBound(pdu, lb, s1.t.ues[lb].amf) && ToBoundAmf(s1.t, lb, pdu) != Dies
    ensures Legal(s, longer)
    ensures var s1, s2 := Exec(s, steps), Exec(s, longer);
            && s2 == s1.(gnbs := s2.gnbs, toAmf := s2.toAmf) && s2.gnbs == s1.gnbs[g := GIdle]
            && DeliversToAmf(s1, s2, g, ToBoundAmf(s1.t, lb, pdu), ok)
  {
    var s1 := Exec(s, steps);
    longer := Then(s, steps, GnbRewrites(g));
    longer := Then(s, longer, GnbSends(g, ok));
    var s2 := Exec(s, longer);
    assert s2.gnbs == s1.gnbs[g := GIdle];
  }

  /** From an AMF picked for a message without a context, or from no AMF, to idle. */
  lemma RelayRuns(s: State, steps: seq<Step>, g: int, pdu: Pdu<Ie>, pick: PickOutcome, ok: bool)
    returns (longer: seq<Step>)
    requires Legal(s, steps) && GnbAt(Exec(s, steps), g) == GRelay(pdu) && !pick.PickDies?
    requires pick.Picks? ==> pick.amf in Exec(s, steps).amfs
    ensures Legal(s, longer)
    ensures var s1, s2 := Exec(s, steps), Exec(s, longer);
            && s2 == s1.(gnbs := s2.gnbs, toAmf := s2.toAmf) && s2.gnbs == s1.gnbs[g := GIdle]
            && DeliversToAmf(s1, s2, g, RelayReaction(pdu, pick), ok)
  {
    var s1 := Exec(s, steps);
    if pick.NoPick? {
      longer := Then(s, steps, GnbRefuses(g));
    } else {
      longer := Then(s, steps, GnbPicks(g, pick.amf));
      longer := Then(s, longer, GnbSends(g, ok));
    }
    assert Exec(s, longer).gnbs == s1.gnbs[g := GIdle];
  }

  lemma ReadRuns(s: State, g: int, pdu: Pdu<Ie>) returns (steps: seq<Step>)
    requires GnbAt(s, g).GIdle? && Extract(pdu).UeIds?
    ensures Legal(s, steps) && Exec(s, steps) == Apply(s, GnbReads(g, pdu))
  {
    steps := Then(s, [], GnbReads(g, pdu));
  }

  /** An admitted InitialUEMessage up to its context. */
  lemma CreationRuns(s: State, g: int, pdu: Pdu<Ie>, a: int) returns (steps: seq<Step>)
    requires GnbAt(s, g).GIdle? && GnbRouteOf(pdu).Initial? && Extract(pdu).UeIds? && a in s.amfs
    ensures Legal(s, steps)
    ensures Exec(s, steps) == s.(t := Create(s.t, a, g, NasKey(Extract(pdu))),
                                 gnbs := s.gnbs[g := GBound(pdu, s.t.next, a)],
                                 fromGnb := s.fromGnb + [Received(g, pdu)])
  {
    steps := ReadRuns(s, g, pdu);
    steps := Then(s, steps, GnbPicks(g, a));
    steps := Then(s, steps, GnbCreates(g));
    assert Exec(s, steps).gnbs == s.gnbs[g := GBound(pdu, s.t.next, a)];
  }

  /** Any other message up to the lookup of its context. */
  lemma LookupRuns(s: State, g: int, pdu: Pdu<Ie>) returns (steps: seq<Step>)
    requires GnbAt(s, g).GIdle? && Extract(pdu).UeIds? && (GnbRouteOf(pdu).UplinkNas? || GnbRouteOf(pdu).ForwardToAmf?)
    ensures Legal(s, steps)
    ensures Exec(s, steps) == s.(gnbs := s.gnbs[g := GnbAt(Exec(s, steps), g)],
                                 fromGnb := s.fromGnb + [Received(g, pdu)])
    ensures var ue := if GnbRouteOf(pdu).UplinkNas? then FindByRan(s.t, g, NasKey(Extract(pdu)))
                      else UplinkUe(s.t, g, pdu);
            GnbAt(Exec(s, steps), g) ==
              if ue.Some? && ue.value in s.t.ues then GBound(pdu, ue.value, s.t.ues[ue.value].amf)
              else if GnbRouteOf(pdu).UplinkNas? then GIdle else GRelay(pdu)
  {
    steps := ReadRuns(s, g, pdu);
    steps := Then(s, steps, GnbFinds(g));
    assert Exec(s, steps).gnbs == s.gnbs[g := GnbAt(Exec(s, steps), g)];
  }

  lemma RefusalRuns(s: State, g: int, pdu: Pdu<Ie>) returns (steps: seq<Step>)
    requires GnbAt(s, g).GIdle? && GnbRouteOf(pdu).Initial? && Extract(pdu).UeIds?
    ensures Legal(s, steps)
    ensures Exec(s, steps) == s.(gnbs := s.gnbs[g := GIdle], fromGnb := s.fromGnb + [Received(g, pdu)])
  {
    steps := ReadRuns(s, g, pdu);
    steps := Then(s, steps, GnbRefuses(g));
    assert Exec(s, steps).gnbs == s.gnbs[g := GIdle];
  }

  lemma StartIsBound(t: Tables, g: int, r: int, a: int, pdu: Pdu<Ie>)
    ensures StartReaction(t, pdu, Picks(a)) == ToBoundAmf(Create(t, a, g, r), t.next, pdu)
  {
  }

  ghost predicate GnbHandled(s: State, s': State, g: int, pdu: Pdu<Ie>, admitted: bool, pick: PickOutcome, ok: bool) {
    && OnlyGnb(s, s', g)
    && s'.t == GnbTables(s.t, g, pdu, admitted, pick)
    && s'.fromGnb == s.fromGnb + [Received(g, pdu)]
    && DeliversToAmf(s, s', g, GnbReaction(s.t, g, pdu, admitted, pick), ok)
  }

  lemma AdmittedRuns(s: State, g: int, pdu: Pdu<Ie>, a: int, ok: bool) returns (steps: seq<Step>)
    requires Safe(s) && GnbAt(s, g).GIdle? && GnbRouteOf(pdu).Initial? && Extract(pdu).UeIds? && a in s.amfs
    requires StartReaction(s.t, pdu, Picks(a)) != Dies
    ensures Legal(s, steps)
    ensures GnbHandled(s, Exec(s, steps), g, pdu, true, Picks(a), ok)
  {
    StartIsBound(s.t, g, NasKey(Extract(pdu)), a, pdu);
    steps := CreationRuns(s, g, pdu, a);
    steps := BoundRuns(s, steps, g, s.t.next, pdu, ok);
    assert Exec(s, steps).gnbs == s.gnbs[g := GIdle];
  }

  lemma InitialRuns(s: State, g: int, pdu: Pdu<Ie>, admitted: bool, pick: PickOutcome, ok: bool)
    returns (steps: seq<Step>)
    requires Safe(s) && GnbAt(s, g).GIdle? && GnbRouteOf(pdu).Initial?
    requires pick.Picks? ==> pick.amf in s.amfs
    requires GnbReaction(s.t, g, pdu, admitted, pick) != Dies
    ensures Legal(s, steps)
    ensures GnbHandled(s, Exec(s, steps), g, pdu, admitted, pick, ok)
  {
    if Extract(pdu).ExtractCrash? {
      OnlyCommandsCrash(pdu);
    }
    if admitted && pick.Picks? {
      steps := AdmittedRuns(s, g, pdu, pick.amf, ok);
    } else {
      steps := RefusalRuns(s, g, pdu);
    }
  }

  lemma UplinkNasRuns(s: State, g: int, pdu: Pdu<Ie>, pick: PickOutcome, ok: bool) returns (steps: seq<Step>)
    requires Safe(s) && GnbAt(s, g).GIdle? && GnbRouteOf(pdu).UplinkNas?
    requires UplinkNasReaction(s.t, g, pdu) != Dies
    ensures Legal(s, steps)
    ensures GnbHandled(s, Exec(s, steps), g, pdu, false, pick, ok)
  {
    steps := LookupRuns(s, g, pdu);
    var ue := FindByRan(s.t, g, NasKey(Extract(pdu)));
    if ue.Some? {
      assert Names(s.t, ue.value, g, NasKey(Extract(pdu)));
      steps := BoundRuns(s, steps, g, ue.value, pdu, ok);
    }
    assert Exec(s, steps).gnbs == s.gnbs[g := GIdle];
  }

  lemma ForwardBoundRuns(s: State, g: int, pdu: Pdu<Ie>, pick: PickOutcome, lb: int, ok: bool)
    returns (steps: seq<Step>)
    requires GnbAt(s, g).GIdle? && GnbRouteOf(pdu).ForwardToAmf? && Extract(pdu).UeIds?
    requires UplinkUe(s.t, g, pdu) == Some(lb) && lb in s.t.ues && ToBoundAmf(s.t, lb, pdu) != Dies
    ensures Legal(s, steps)
    ensures GnbHandled(s, Exec(s, steps), g, pdu, false, pick, ok)
  {
    steps := LookupRuns(s, g, pdu);
    steps := BoundRuns(s, steps, g, lb, pdu, ok);
    assert Exec(s, steps).gnbs == s.gnbs[g := GIdle];
  }

  lemma ForwardToAmfRuns(s: State, g: int, pdu: Pdu<Ie>, pick: PickOutcome, ok: bool) returns (steps: seq<Step>)
    requires Safe(s) && GnbAt(s, g).GIdle? && GnbRouteOf(pdu).ForwardToAmf?
    requires pick.Picks? ==> pick.amf in s.amfs
    requires ForwardToAmfReaction(s.t, g, pdu, pick) != Dies
    ensures Legal(s, steps)
    ensures GnbHandled(s, Exec(s, steps), g, pdu, false, pick, ok)
  {
    var ue := UplinkUe(s.t, g, pdu);
    if ue.Some? {
      assert Names(s.t, ue.value, g, Extract(pdu).ran);
      steps := ForwardBoundRuns(s, g, pdu, pick, ue.value, ok);
    } else {
      steps := LookupRuns(s, g, pdu);
      steps := RelayRuns(s, steps, g, pdu, pick, ok);
      assert Exec(s, steps).gnbs == s.gnbs[g := GIdle];
    }
  }

  /** A gNB handler that does not end the process is a run of its loop's steps. */
  lemma GnbHandlerRuns(s: State, g: int, pdu: Pdu<Ie>, admitted: bool, pick: PickOutcome, ok: bool)
    returns (steps: seq<Step>)
    requires Safe(s) && GnbAt(s, g).GIdle?
    requires pick.Picks? ==> pick.amf in s.amfs
    requires GnbReaction(s.t, g, pdu, admitted, pick) != Dies
    ensures Legal(s, steps)
    ensures GnbHandled(s, Exec(s, steps), g, pdu, admitted, pick, ok)
  {
    match GnbRouteOf(pdu) {
      case Initial => steps := InitialRuns(s, g, pdu, admitted, pick, ok);
      case UplinkNas => steps := UplinkNasRuns(s, g, pdu, pick, ok);
      case ForwardToAmf => steps := ForwardToAmfRuns(s, g, pdu, pick, ok);
      case _ =>
        if Extract(pdu).ExtractCrash? {
          OnlyCommandsCrash(pdu);
        }
        steps := ReadRuns(s, g, pdu);
    }
  }

  // ---------- AMF side ----------

  /** Only the loop of AMF `a` moved, and it is idle again. */
  predicate OnlyAmf(s: State, s': State, a: int) {
    && AmfAt(s', a).AIdle?
    && s' == s.(t := s'.t, amfLoops := s.amfLoops[a := AIdle], fromAmf := s'.fromAmf, toGnb := s'.toGnb)
  }

  /** What the gNBs receive because of a reaction: the copies of a broadcast that reach `reached`, or the
      targeted send when it ends with `ok`. */
  ghost predicate DeliversToGnb(s: State, s': State, a: int, r: Reaction, ok: bool, reached: seq<int>) {
    match r
    case SendTo(GnbNode(g), out) =>
      if ok then exists ue :: s'.toGnb == s.toGnb + [Delivery(g, out, a, ue)] else s'.toGnb == s.toGnb
    case Broadcast(pdu) => s'.toGnb == s.toGnb + Copies(pdu, a, reached)
    case _ => s'.toGnb == s.toGnb
  }

  predicate MayReach(live: set<int>, reached: seq<int>) {
    && (forall i | 0 <= i < |reached| :: reached[i] in live)
    && (forall i, j | 0 <= i < j < |reached| :: reached[i] != reached[j])
  }

  ghost predicate AmfHandled(s: State, s': State, a: int, pdu: Pdu<Ie>, target: Option<int>, ok: bool,
                             reached: seq<int>)
  {
    && OnlyAmf(s, s', a)
    && s'.t == AmfTables(s.t, a, pdu)
    && s'.fromAmf == s.fromAmf + [Received(a, pdu)]
    && DeliversToGnb(s, s', a, AmfReaction(s.t, a, pdu, target), ok, reached)
  }

  lemma AmfReadRuns(s: State, a: int, pdu: Pdu<Ie>) returns (steps: seq<Step>)
    requires AmfAt(s, a).AIdle? && Extract(pdu).UeIds?
    ensures Legal(s, steps)
    ensures var th := if AmfRouteOf(pdu).AmfRejects? then AIdle else ATaken(pdu);
            Exec(s, steps) == s.(amfLoops := s.amfLoops[a := th], fromAmf := s.fromAmf + [Received(a, pdu)])
  {
    steps := Then(s, [], AmfReads(a, pdu));
  }

  /** Where an AMF's loop stands after looking a message's context up. */
  function LookedUp(t: Tables, a: int, pdu: Pdu<Ie>): AmfThread {
    var lb := Sought(t, a, pdu);
    if AmfRouteOf(pdu).DownlinkNas? then (if lb.Some? then AFound(pdu, lb.value) else AIdle)
    else if lb.Some? then ALocated(pdu, lb.value)
    else ABroadcast(pdu)
  }

  lemma AmfLookupRuns(s: State, a: int, pdu: Pdu<Ie>) returns (steps: seq<Step>)
    requires AmfAt(s, a).AIdle? && Extract(pdu).UeIds? && !AmfRouteOf(pdu).AmfRejects?
    ensures Legal(s, steps)
    ensures Exec(s, steps) == s.(amfLoops := s.amfLoops[a := LookedUp(s.t, a, pdu)],
                                 fromAmf := s.fromAmf + [Received(a, pdu)])
  {
    steps := AmfReadRuns(s, a, pdu);
    steps := Then(s, steps, AmfFinds(a));
    assert Exec(s, steps).amfLoops == s.amfLoops[a := LookedUp(s.t, a, pdu)];
  }

  /** From the context found to filed. */
  lemma FoundRuns(s: State, steps: seq<Step>, a: int, pdu: Pdu<Ie>, lb: int) returns (longer: seq<Step>)
    requires Legal(s, steps) && AmfAt(Exec(s, steps), a) == AFound(pdu, lb) && lb in Exec(s, steps).t.ues
    requires Extract(pdu).UeIds?
    ensures Legal(s, longer)
    ensures var s1 := Exec(s, steps);
            Exec(s, longer) == s1.(t := AddToAmf(SetAmfUeId(s1.t, lb, Extract(pdu).amf), a, lb),
                                   amfLoops := s1.amfLoops[a := ALocated(pdu, lb)])
  {
    var s1 := Exec(s, steps);
    longer := Then(s, steps, AmfSets(a));
    longer := Then(s, longer, AmfAdds(a));
    assert Exec(s, longer).amfLoops == s1.amfLoops[a := ALocated(pdu, lb)];
  }

  /** A Downlink NAS message up to its context being filed. */
  lemma FilingRuns(s: State, a: int, pdu: Pdu<Ie>) returns (steps: seq<Step>)
    requires AmfAt(s, a).AIdle? && Extract(pdu).UeIds? && AmfRouteOf(pdu).DownlinkNas?
    ensures Legal(s, steps)
    ensures var lb := DownlinkUe(s.t, pdu);
            Exec(s, steps) == s.(t := DownlinkNasTables(s.t, a, pdu),
                                 amfLoops := s.amfLoops[a := if lb.Some? then ALocated(pdu, lb.value) else AIdle],
                                 fromAmf := s.fromAmf + [Received(a, pdu)])
  {
    steps := AmfLookupRuns(s, a, pdu);
    var lb := DownlinkUe(s.t, pdu);
    if lb.Some? {
      steps := FoundRuns(s, steps, a, pdu, lb.value);
      assert Exec(s, steps).amfLoops == s.amfLoops[a := ALocated(pdu, lb.value)];
    }
  }

  lemma AimRuns(s: State, steps: seq<Step>, a: int, lb: int, g: int, pdu: Pdu<Ie>) returns (longer: seq<Step>)
    requires Legal(s, steps)
    requires var s1 := Exec(s, steps);
             && lb in s1.t.ues && AmfAt(s1, a) == ALocated(pdu, lb)
             && g in s1.live && HasUeContext(s1.t, g, lb) && ToGnb(s1.t, lb, g, pdu) != Dies
    ensures Legal(s, longer)
    ensures var s1 := Exec(s, steps);
            var out := Rewrite(pdu, s1.t.ues[lb].ranUeId, s1.t.ues[lb].lbId);
            Exec(s, longer) == s1.(amfLoops := s1.amfLoops[a := AReady(out, lb, g)])
  {
    var s1 := Exec(s, steps);
    longer := Then(s, steps, AmfTargets(a, Some(g)));
    longer := Then(s, longer, AmfRewrites(a));
    var out := Rewrite(pdu, s1.t.ues[lb].ranUeId, s1.t.ues[lb].lbId);
    assert Exec(s, longer).amfLoops == s1.amfLoops[a := AReady(out, lb, g)];
  }

  /** From the gNB found to idle. */
  lemma TargetRuns(s: State, steps: seq<Step>, a: int, lb: int, g: int, pdu: Pdu<Ie>, ok: bool)
    returns (longer: seq<Step>)
    requires Legal(s, steps)
    requires var s1 := Exec(s, steps);
             && lb in s1.t.ues && AmfAt(s1, a) == ALocated(pdu, lb)
             && g in s1.live && HasUeContext(s1.t, g, lb) && ToGnb(s1.t, lb, g, pdu) != Dies
    ensures Legal(s, longer)
    ensures var s1, s2 := Exec(s, steps), Exec(s, longer);
            && s2 == s1.(amfLoops := s2.amfLoops, toGnb := s2.toGnb) && s2.amfLoops == s1.amfLoops[a := AIdle]
            && DeliversToGnb(s1, s2, a, ToGnb(s1.t, lb, g, pdu), ok, [])
  {
    var s1 := Exec(s, steps);
    longer := AimRuns(s, steps, a, lb, g, pdu);
    longer := Then(s, longer, AmfSends(a, ok));
    assert Exec(s, longer).amfLoops == s1.amfLoops[a := AIdle];
  }

  /** No gNB found: a Downlink NAS message ends, any other is broadcast. */
  lemma NoTargetRuns(s: State, steps: seq<Step>, a: int, lb: int, pdu: Pdu<Ie>, reached: seq<int>)
    returns (longer: seq<Step>)
    requires Legal(s, steps)
    requires var s1 := Exec(s, steps);
             AmfAt(s1, a) == ALocated(pdu, lb) && Finds(s1.t, s1.live, lb, None) && MayReach(s1.live, reached)
    ensures Legal(s, longer)
    ensures var s1, s2 := Exec(s, steps), Exec(s, longer);
            s2 == s1.(amfLoops := s1.amfLoops[a := AIdle],
                      toGnb := if AmfRouteOf(pdu).DownlinkNas? then s1.toGnb else s1.toGnb + Copies(pdu, a, reached))
  {
    var s1 := Exec(s, steps);
    longer := Then(s, steps, AmfTargets(a, None));
    if !AmfRouteOf(pdu).DownlinkNas? {
      longer := Then(s, longer, AmfBroadcasts(a, reached));
    }
    assert Exec(s, longer).amfLoops == s1.amfLoops[a := AIdle];
  }

  lemma DownlinkNasRuns(s: State, a: int, pdu: Pdu<Ie>, target: Option<int>, ok: bool, reached: seq<int>)
    returns (steps: seq<Step>)
    requires AmfAt(s, a).AIdle? && AmfRouteOf(pdu).DownlinkNas? && MayReach(s.live, reached)
    requires DownlinkUe(s.t, pdu).Some? ==>
               Finds(DownlinkNasTables(s.t, a, pdu), s.live, DownlinkUe(s.t, pdu).value, target)
    requires DownlinkNasReaction(s.t, pdu, target) != Dies
    ensures Legal(s, steps)
    ensures AmfHandled(s, Exec(s, steps), a, pdu, target, ok, reached)
  {
    steps := FilingRuns(s, a, pdu);
    var s1 := Exec(s, steps);
    match DownlinkUe(s.t, pdu) {
      case None =>
      case Some(lb) =>
        if target.Some? {
          steps := TargetRuns(s, steps, a, lb, target.value, pdu, ok);
        } else {
          steps := NoTargetRuns(s, steps, a, lb, pdu, reached);
        }
    }
    assert Exec(s, steps).amfLoops == s.amfLoops[a := AIdle];
  }

  lemma UnknownRuns(s: State, a: int, pdu: Pdu<Ie>, target: Option<int>, ok: bool, reached: seq<int>)
    returns (steps: seq<Step>)
    requires AmfAt(s, a).AIdle? && AmfRouteOf(pdu).ForwardToGnb? && MayReach(s.live, reached)
    requires Extract(pdu).UeIds? && UeOfAmfId(s.t, a, pdu).None?
    ensures Legal(s, steps)
    ensures AmfHandled(s, Exec(s, steps), a, pdu, target, ok, reached)
  {
    steps := AmfLookupRuns(s, a, pdu);
    steps := Then(s, steps, AmfBroadcasts(a, reached));
    assert Exec(s, steps).amfLoops == s.amfLoops[a := AIdle];
  }

  lemma KnownRuns(s: State, a: int, lb: int, pdu: Pdu<Ie>, target: Option<int>, ok: bool, reached: seq<int>)
    returns (steps: seq<Step>)
    requires AmfAt(s, a).AIdle? && AmfRouteOf(pdu).ForwardToGnb? && MayReach(s.live, reached)
    requires Extract(pdu).UeIds? && UeOfAmfId(s.t, a, pdu) == Some(lb) && lb in s.t.ues
    requires Finds(s.t, s.live, lb, target)
    requires target.Some? ==> ToGnb(s.t, lb, target.value, pdu) != Dies
    ensures Legal(s, steps)
    ensures AmfHandled(s, Exec(s, steps), a, pdu, target, ok, reached)
  {
    steps := AmfLookupRuns(s, a, pdu);
    if target.Some? {
      steps := TargetRuns(s, steps, a, lb, target.value, pdu, ok);
    } else {
      steps := NoTargetRuns(s, steps, a, lb, pdu, reached);
    }
    assert Exec(s, steps).amfLoops == s.amfLoops[a := AIdle];
  }

  lemma ForwardToGnbRuns(s: State, a: int, pdu: Pdu<Ie>, target: Option<int>, ok: bool, reached: seq<int>)
    returns (steps: seq<Step>)
    requires Safe(s) && AmfAt(s, a).AIdle? && AmfRouteOf(pdu).ForwardToGnb? && MayReach(s.live, reached)
    requires UeOfAmfId(s.t, a, pdu).Some? ==> Finds(s.t, s.live, UeOfAmfId(s.t, a, pdu).value, target)
    requires ForwardToGnbReaction(s.t, a, pdu, target) != Dies
    ensures Legal(s, steps)
    ensures AmfHandled(s, Exec(s, steps), a, pdu, target, ok, reached)
  {
    match UeOfAmfId(s.t, a, pdu) {
      case None => steps := UnknownRuns(s, a, pdu, target, ok, reached);
      case Some(lb) => steps := KnownRuns(s, a, lb, pdu, target, ok, reached);
    }
  }

  /** An AMF handler that does not end the process is a run of its loop's steps. */
  lemma AmfHandlerRuns(s: State, a: int, pdu: Pdu<Ie>, target: Option<int>, ok: bool, reached: seq<int>)
    returns (steps: seq<Step>)
    requires Safe(s) && AmfAt(s, a).AIdle? && MayReach(s.live, reached)
    requires var lb := Sought(s.t, a, pdu); lb.Some? ==> Finds(AmfTables(s.t, a, pdu), s.live, lb.value, target)
    requires AmfReaction(s.t, a, pdu, target) != Dies
    ensures Legal(s, steps)
    ensures AmfHandled(s, Exec(s, steps), a, pdu, target, ok, reached)
  {
    match AmfRouteOf(pdu) {
      case AmfRejects => steps := AmfReadRuns(s, a, pdu);
      case DownlinkNas => steps := DownlinkNasRuns(s, a, pdu, target, ok, reached);
      case ForwardToGnb => steps := ForwardToGnbRuns(s, a, pdu, target, ok, reached);
    }
  }

  // ---------- what the wire carries is what the logs gain ----------

  /** The frames that arrived at AMFs, or at gNBs, in order. */
  function Landed(frames: seq<Frame>, atAmfs: bool): seq<(int, Pdu<Ie>)> {
    if frames == [] then []
    else
      var last := frames[|frames| - 1];
      Landed(frames[..|frames| - 1], atAmfs) +
      (if last.ok && last.to.AmfNode? == atAmfs then [(last.to.id, last.pdu)] else [])
  }

  function Logged(log: seq<Delivery>): (r: seq<(int, Pdu<Ie>)>)
    ensures |r| == |log|
    ensures forall i :: 0 <= i < |log| ==> r[i] == (log[i].node, log[i].pdu)
  {
    seq(|log|, i requires 0 <= i < |log| => (log[i].node, log[i].pdu))
  }

  lemma OneLanded(f: Frame, atAmfs: bool)
    ensures Landed([f], atAmfs) == if f.ok && f.to.AmfNode? == atAmfs then [(f.to.id, f.pdu)] else []
  {
    assert [f][..0] == [];
  }

  /** Any wire on which the gNB's reaction shows has a run whose AMFs receive the same. */
  lemma GnbWireRuns(s: State, g: int, pdu: Pdu<Ie>, admitted: bool, pick: PickOutcome, before: seq<Frame>,
                    after: seq<Frame>, healthy: set<Node>, status: Status) returns (steps: seq<Step>)
    requires Safe(s) && GnbAt(s, g).GIdle? && (pick.Picks? ==> pick.amf in s.amfs)
    requires SentOnce(GnbReaction(s.t, g, pdu, admitted, pick), before, after, healthy, status) && status != Panicked
    ensures Legal(s, steps) && OnlyGnb(s, Exec(s, steps), g)
    ensures before <= after
    ensures Logged(Exec(s, steps).toAmf) == Logged(s.toAmf) + Landed(after[|before|..], true)
  {
    var r := GnbReaction(s.t, g, pdu, admitted, pick);
    var ok := r.SendTo? && r.to in healthy;
    steps := GnbHandlerRuns(s, g, pdu, admitted, pick, ok);
    if r.SendTo? {
      assert after[|before|..] == [Frame(r.to, r.pdu, ok)];
      OneLanded(Frame(r.to, r.pdu, ok), true);
    } else {
      assert after[|before|..] == [];
    }
  }

  /** The members of `order` that can be reached. */
  function Reached(order: seq<int>, healthy: set<Node>): seq<int> {
    if order == [] then []
    else
      Reached(order[..|order| - 1], healthy) +
      (if GnbNode(order[|order| - 1]) in healthy then [order[|order| - 1]] else [])
  }

  lemma {:induction false} ReachedIn(order: seq<int>, healthy: set<Node>)
    ensures forall g :: g in Reached(order, healthy) ==> g in order
  {
    if order != [] {
      ReachedIn(order[..|order| - 1], healthy);
    }
  }

  lemma {:induction false} ReachedMay(order: seq<int>, healthy: set<Node>, members: set<int>)
    requires forall i :: 0 <= i < |order| ==> order[i] in members
    requires forall i, j :: 0 <= i < j < |order| ==> order[i] != order[j]
    ensures MayReach(members, Reached(order, healthy))
  {
    if order != [] {
      var front := order[..|order| - 1];
      ReachedMay(front, healthy, members);
      ReachedIn(front, healthy);
      assert order[|order| - 1] !in front;
    }
  }

  /** The copies that land are those to the gNBs reached. */
  lemma {:induction false} CopiesLand(order: seq<int>, pdu: Pdu<Ie>, healthy: set<Node>, a: int)
    ensures Landed(CopiesTo(order, pdu, healthy), false) == Logged(Copies(pdu, a, Reached(order, healthy)))
  {
    if order == [] {
      assert CopiesTo(order, pdu, healthy) == [];
    } else {
      var front, copies := order[..|order| - 1], CopiesTo(order, pdu, healthy);
      CopiesLand(front, pdu, healthy, a);
      assert copies[..|copies| - 1] == CopiesTo(front, pdu, healthy);
    }
  }

  lemma LoggedApart(log: seq<Delivery>, more: seq<Delivery>)
    ensures Logged(log + more) == Logged(log) + Logged(more)
  {
  }

  lemma LandedInLog(s: State, s': State, a: int, r: Reaction, before: seq<Frame>, healthy: set<Node>, order: seq<int>)
    requires !r.Dies? && (r.SendTo? ==> r.to.GnbNode?)
    requires DeliversToGnb(s, s', a, r, r.SendTo? && r.to in healthy, Reached(order, healthy))
    ensures var frames := OutcomeOf(r, before, healthy, order).frames;
            && before <= frames
            && Logged(s'.toGnb) == Logged(s.toGnb) + Landed(frames[|before|..], false)
  {
    var sent := Sent(r, healthy, order);
    assert (before + sent)[|before|..] == sent;
    match r {
      case SendTo(to, out) => OneLanded(Frame(to, out, to in healthy), false);
      case Broadcast(out) =>
        CopiesLand(order, out, healthy, a);
        LoggedApart(s.toGnb, Copies(out, a, Reached(order, healthy)));
      case Fails =>
    }
  }

  /** The same for an AMF's reaction, broadcasts included. */
  lemma AmfWireRuns(s: State, a: int, pdu: Pdu<Ie>, target: Option<int>, before: seq<Frame>, o: Outcome,
                    healthy: set<Node>, order: seq<int>) returns (steps: seq<Step>)
    requires Safe(s) && AmfAt(s, a).AIdle? && Enumerates(order, s.live)
    requires var lb := Sought(s.t, a, pdu); lb.Some? ==> Finds(AmfTables(s.t, a, pdu), s.live, lb.value, target)
    requires o == OutcomeOf(AmfReaction(s.t, a, pdu, target), before, healthy, order) && o.status != Panicked
    ensures Legal(s, steps) && OnlyAmf(s, Exec(s, steps), a)
    ensures before <= o.frames
    ensures Logged(Exec(s, steps).toGnb) == Logged(s.toGnb) + Landed(o.frames[|before|..], false)
  {
    var r := AmfReaction(s.t, a, pdu, target);
    AmfDelivery(s.t, a, pdu, target);
    ReachedMay(order, healthy, s.live);
    steps := AmfHandlerRuns(s, a, pdu, target, r.SendTo? && r.to in healthy, Reached(order, healthy));
    LandedInLog(s, Exec(s, steps), a, r, before, healthy, order);
  }
}
