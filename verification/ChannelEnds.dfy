/** The two ends of a UE's channel, as the logs show them: contents sent by a node under an ID, and
    contents that reached a node under an ID. */
module ChannelEnds {
  import opened Dispatch
  import opened Naming
  import opened Ngap
  import opened Options
  import opened Subsequences
  import opened Translation
  import opened UeTables

  /** A UE as its channel sees it: its gNB, RAN ID, AMF and LB ID. */
  datatype Line = Line(g: int, r: int, a: int, lb: int)

  function LineOf(t: Tables, lb: int): Line
    requires lb in t.ues
  {
    Line(t.ues[lb].gnb, t.ues[lb].ranUeId, t.ues[lb].amf, lb)
  }

  /** The line is that of its UE, if the UE exists. */
  predicate Fits(t: Tables, l: Line) {
    l.lb in t.ues ==> LineOf(t, l.lb) == l
  }

  lemma FitsBefore(t: Tables, t': Tables, l: Line)
    requires Extends(t, t') && Fits(t', l)
    ensures Fits(t, l)
  {
    if l.lb in t.ues {
      assert SameUe(t.ues[l.lb], t'.ues[l.lb]);
    }
  }

  /** Received and held are what was sent less `losses` messages, in order and once each. */
  predicate Conveys<T(==)>(sent: seq<T>, received: seq<T>, held: seq<T>, losses: nat) {
    && Sub(received + held, sent) && |sent| == |received| + |held| + losses
    && (losses == 0 ==> received + held == sent)
  }

  lemma ConveysLess<T>(sent: seq<T>, received: seq<T>, held: seq<T>, losses: nat)
    requires Less(received + held, sent, losses)
    ensures Conveys(sent, received, held, losses)
  {
    SubSize(received + held, sent);
  }

  // ---------- the two ends ----------

  /** The PDU names the ID in an IE that the tables treat. */
  predicate Under(pdu: Pdu<Ie>, f: Field, id: int) {
    Covers(pdu, f) && Named(pdu, f) == Some(id)
  }

  /** By every name in the IEs, or by the covered ones only. */
  datatype Measure = ByName | ByCover

  function IdBy(m: Measure, f: Field, pdu: Pdu<Ie>): Option<int> {
    if m.ByName? || Covers(pdu, f) then Named(pdu, f) else None
  }

  /** By name, any ID IE or choice counts; by cover, only what the tables treat. */
  lemma MeasuresMean(pdu: Pdu<Ie>, f: Field, id: int)
    ensures IdBy(ByName, f, pdu) == Some(id) <==> Named(pdu, f) == Some(id)
    ensures IdBy(ByCover, f, pdu) == Some(id) <==> Covers(pdu, f) && Named(pdu, f) == Some(id)
  {
  }

  predicate SentAs(e: Received, m: Measure, f: Field, node: int, id: int) {
    e.node == node && IdBy(m, f, e.pdu) == Some(id)
  }

  function Sent(log: seq<Received>, m: Measure, f: Field, node: int, id: int): seq<Pdu<Ie>> {
    if log == [] then []
    else Sent(log[..|log| - 1], m, f, node, id) +
         (if SentAs(log[|log| - 1], m, f, node, id) then [Content(log[|log| - 1].pdu)] else [])
  }

  predicate ArrivedAs(d: Delivery, m: Measure, f: Field, node: int, id: int) {
    d.node == node && IdBy(m, f, d.pdu) == Some(id)
  }

  function Arrived(log: seq<Delivery>, m: Measure, f: Field, node: int, id: int): seq<Pdu<Ie>> {
    if log == [] then []
    else Arrived(log[..|log| - 1], m, f, node, id) +
         (if ArrivedAs(log[|log| - 1], m, f, node, id) then [Content(log[|log| - 1].pdu)] else [])
  }

  /** An InitialUEMessage whose context is filed under RAN ID `r`. (Without a RAN ID it is filed under 1.) */
  predicate FiledUnder(pdu: Pdu<Ie>, r: int) {
    GnbRouteOf(pdu).Initial? && Extract(pdu).UeIds? && RanKey(pdu) == r
  }

  // ---------- growing logs ----------

  lemma SentAppend(log: seq<Received>, e: Received, m: Measure, f: Field, node: int, id: int)
    ensures Sent(log + [e], m, f, node, id) ==
            Sent(log, m, f, node, id) + (if SentAs(e, m, f, node, id) then [Content(e.pdu)] else [])
  {
    assert (log + [e])[..|log|] == log;
  }

  lemma ArrivedAppend(log: seq<Delivery>, d: Delivery, m: Measure, f: Field, node: int, id: int)
    ensures Arrived(log + [d], m, f, node, id) ==
            Arrived(log, m, f, node, id) + (if ArrivedAs(d, m, f, node, id) then [Content(d.pdu)] else [])
  {
    assert (log + [d])[..|log|] == log;
  }

  lemma {:induction false} NothingMore(log: seq<Delivery>, extra: seq<Delivery>, m: Measure, f: Field,
                                       node: int, id: int)
    requires forall i :: 0 <= i < |extra| ==> !ArrivedAs(extra[i], m, f, node, id)
    ensures Arrived(log + extra, m, f, node, id) == Arrived(log, m, f, node, id)
  {
    if extra == [] {
      assert log + extra == log;
    } else {
      var front, last := extra[..|extra| - 1], extra[|extra| - 1];
      NothingMore(log, front, m, f, node, id);
      assert log + extra == (log + front) + [last];
      ArrivedAppend(log + front, last, m, f, node, id);
    }
  }

  lemma NothingArrived(log: seq<Delivery>, m: Measure, f: Field, node: int, id: int)
    requires forall i :: 0 <= i < |log| ==> !ArrivedAs(log[i], m, f, node, id)
    ensures Arrived(log, m, f, node, id) == []
  {
    NothingMore([], log, m, f, node, id);
    assert [] + log == log;
  }

  // ---------- where the two measures agree ----------

  /** The PDU is covered if it names the ID at all. */
  predicate CoveredIfNamed(pdu: Pdu<Ie>, f: Field, id: int) {
    Named(pdu, f) == Some(id) ==> Covers(pdu, f)
  }

  /** The node names the ID in covered IEs. */
  predicate SendsCovered(log: seq<Received>, f: Field, node: int, id: int) {
    forall i | 0 <= i < |log| :: log[i].node == node ==> CoveredIfNamed(log[i].pdu, f, id)
  }

  lemma {:induction false} SameSent(log: seq<Received>, f: Field, node: int, id: int)
    requires SendsCovered(log, f, node, id)
    ensures Sent(log, ByName, f, node, id) == Sent(log, ByCover, f, node, id)
  {
    if log != [] {
      var front := log[..|log| - 1];
      assert forall i :: 0 <= i < |front| ==> front[i] == log[i];
      SameSent(front, f, node, id);
      assert CoveredIfNamed(log[|log| - 1].pdu, f, id) || log[|log| - 1].node != node;
    }
  }

  lemma {:induction false} SameArrived(log: seq<Delivery>, f: Field, node: int, id: int)
    requires forall i :: 0 <= i < |log| ==> CoveredIfNamed(log[i].pdu, f, id)
    ensures Arrived(log, ByName, f, node, id) == Arrived(log, ByCover, f, node, id)
  {
    if log != [] {
      var front := log[..|log| - 1];
      assert forall i :: 0 <= i < |front| ==> front[i] == log[i];
      SameArrived(front, f, node, id);
      assert CoveredIfNamed(log[|log| - 1].pdu, f, id);
    }
  }
}
