/** The proxy as a NAT: in every reachable state the handlers' two renamings undo each other. AMFs obey
    `AmfIndex`, RAN IDs are distinct as in `RanIds`; gNBs and AMFs may come and go, sends and searches
    may fail. */
module NatRoundTrip {
  import opened AmfIndex
  import opened Dispatch
  import opened Naming
  import opened Ngap
  import opened Options
  import opened RanIds
  import opened Reactions
  import opened Translation
  import opened UeTables

  lemma Reached(steps: seq<Step>, id: IdPlan)
    requires Unreused(id) && IndexRun(INIT, steps, id) && RanRun(INIT, steps)
    ensures Legal(INIT, steps) && IndexInv(Exec(INIT, steps), id) && RanIdsDistinct(Exec(INIT, steps))
  {
    IndexInvRun(INIT, steps, id);
    RanIdsRun(INIT, steps);
  }

  /** Where an introduced UE stands in all four tables. */
  predicate SettledAs(t: Tables, id: IdPlan, a: int, lb: int) {
    Settled(t, lb) && Owns(t, a, lb) && t.ues[lb].amfUeId == id(a, lb)
  }

  lemma IntroducedUe(s: State, id: IdPlan, a: int, lb: int)
    requires IndexInv(s, id) && RanIdsDistinct(s)
    requires Introduced(s.fromAmf, a, lb) && AmfAt(s, a).AIdle?
    ensures SettledAs(s.t, id, a, lb)
  {
    assert IntroductionsIndexed(s, a, lb, id);
    assert Indexed(s.t, a, id(a, lb), lb, id);
    assert Entry(s, lb);
  }

  predicate NamesBoth(pdu: Pdu<Ie>, ran: int, amf: int) {
    NamedRan(pdu) == Some(ran) && NamedAmf(pdu) == Some(amf)
  }

  predicate SameNames(x: Pdu<Ie>, y: Pdu<Ie>) {
    NamedRan(x) == NamedRan(y) && NamedAmf(x) == NamedAmf(y)
  }

  /** The reaction to `pdu` is one send to `to`, renamed to the given IDs and otherwise unchanged. */
  predicate Becomes(r: Reaction, to: Node, pdu: Pdu<Ie>, ran: int, amf: int) {
    r.SendTo? && r.to == to && NamesBoth(r.pdu, ran, amf) && Content(r.pdu) == Content(pdu)
  }

  predicate CoversBoth(pdu: Pdu<Ie>) {
    Covers(pdu, RanField) && Covers(pdu, AmfField)
  }

  /** (LB ID, AMF ID) from the AMF reaches the gNB as (RAN ID, LB ID). */
  lemma Down(t: Tables, id: IdPlan, a: int, lb: int, down: Pdu<Ie>)
    requires SettledAs(t, id, a, lb) && CoversBoth(down) && NamesBoth(down, lb, id(a, lb))
    requires !MeetsNil(down)
    ensures var u := t.ues[lb];
            Becomes(AmfReaction(t, a, down, Some(u.gnb)), GnbNode(u.gnb), down, u.ranUeId, lb)
  {
    FiledId(down);
    CoveredAmfIsFound(down);
    RewriteRenames(down, t.ues[lb].ranUeId, lb);
  }

  /** Filing an introduced UE again changes nothing. */
  lemma DownKeepsTables(t: Tables, id: IdPlan, a: int, lb: int, down: Pdu<Ie>)
    requires SettledAs(t, id, a, lb) && CoversBoth(down) && NamesBoth(down, lb, id(a, lb))
    ensures AmfTables(t, a, down) == t
  {
    FiledId(down);
    assert SetAmfUeId(t, lb, id(a, lb)).ues == t.ues;
    assert Row(t.amfUes, a)[id(a, lb) := lb] == Row(t.amfUes, a);
    assert AddToAmf(t, a, lb).amfUes == t.amfUes;
  }

  /** (RAN ID, LB ID) from the gNB reaches the AMF as (LB ID, AMF ID). */
  lemma Up(t: Tables, id: IdPlan, a: int, lb: int, up: Pdu<Ie>, admitted: bool, pick: PickOutcome)
    requires SettledAs(t, id, a, lb) && CoversBoth(up) && NamesBoth(up, t.ues[lb].ranUeId, lb)
    requires !MeetsNil(up)
    ensures Becomes(GnbReaction(t, t.ues[lb].gnb, up, admitted, pick), AmfNode(a), up, lb, id(a, lb))
    ensures GnbTables(t, t.ues[lb].gnb, up, admitted, pick) == t
  {
    FiledId(up);
    CoveredRanIsKey(up);
    RewriteRenames(up, lb, id(a, lb));
  }

  lemma OnlyOwnerFound(s: State, lb: int, target: Option<int>)
    requires Coherent(s.t) && RanIdsDistinct(s) && lb in s.t.ues
    ensures Finds(s.t, s.live, lb, target) <==>
            target == if s.t.ues[lb].gnb in s.live then Some(s.t.ues[lb].gnb) else None
  {
    var owner := s.t.ues[lb].gnb;
    TargetIsOwner(s, owner, lb);
    forall g ensures HasUeContext(s.t, g, lb) <==> g == owner { TargetIsOwner(s, g, lb); }
  }

  /** Down and up undo each other in both orders, the contents and the tables stay. */
  predicate RoundTrips(t: Tables, id: IdPlan, a: int, lb: int, down: Pdu<Ie>, up: Pdu<Ie>,
                       admitted: bool, pick: PickOutcome)
    requires lb in t.ues
  {
    var u, x := t.ues[lb], id(a, lb);
    var toGnb, toAmf := AmfReaction(t, a, down, Some(u.gnb)), GnbReaction(t, u.gnb, up, admitted, pick);
    && (NamesBoth(down, lb, x) && !MeetsNil(down) ==>
          && Becomes(toGnb, GnbNode(u.gnb), down, u.ranUeId, lb) && AmfTables(t, a, down) == t
          && (SameNames(up, toGnb.pdu) && !MeetsNil(up) ==> Becomes(toAmf, AmfNode(a), up, lb, x)))
    && (NamesBoth(up, u.ranUeId, lb) && !MeetsNil(up) ==>
          && Becomes(toAmf, AmfNode(a), up, lb, x) && GnbTables(t, u.gnb, up, admitted, pick) == t
          && (SameNames(down, toAmf.pdu) && !MeetsNil(down) ==> Becomes(toGnb, GnbNode(u.gnb), down, u.ranUeId, lb)))
  }

  lemma SettledRoundTrips(t: Tables, id: IdPlan, a: int, lb: int, down: Pdu<Ie>, up: Pdu<Ie>,
                          admitted: bool, pick: PickOutcome)
    requires SettledAs(t, id, a, lb) && CoversBoth(down) && CoversBoth(up)
    ensures RoundTrips(t, id, a, lb, down, up, admitted, pick)
  {
    var u := t.ues[lb];
    if NamesBoth(down, lb, id(a, lb)) && !MeetsNil(down) {
      Down(t, id, a, lb, down);
      DownKeepsTables(t, id, a, lb, down);
    }
    if NamesBoth(up, u.ranUeId, lb) && !MeetsNil(up) {
      Up(t, id, a, lb, up, admitted, pick);
    }
  }

  /** NAT round trip in every reachable state, for every message that names both IDs in covered IEs and
      meets no nil cell in rewriting; and the search finds the UE's gNB exactly while it is
      connected. */
  lemma NatRoundTrip(steps: seq<Step>, id: IdPlan, a: int, lb: int, down: Pdu<Ie>, up: Pdu<Ie>,
                     admitted: bool, pick: PickOutcome, target: Option<int>)
    requires Unreused(id) && IndexRun(INIT, steps, id) && RanRun(INIT, steps)
    requires Legal(INIT, steps) && Introduced(Exec(INIT, steps).fromAmf, a, lb) && AmfAt(Exec(INIT, steps), a).AIdle?
    requires CoversBoth(down) && CoversBoth(up)
    ensures var s := Exec(INIT, steps);
            && SettledAs(s.t, id, a, lb)
            && RoundTrips(s.t, id, a, lb, down, up, admitted, pick)
            && (Finds(s.t, s.live, lb, target) <==>
                  target == if s.t.ues[lb].gnb in s.live then Some(s.t.ues[lb].gnb) else None)
  {
    Reached(steps, id);
    var s := Exec(INIT, steps);
    IntroducedUe(s, id, a, lb);
    SettledRoundTrips(s.t, id, a, lb, down, up, admitted, pick);
    OnlyOwnerFound(s, lb, target);
  }
}
