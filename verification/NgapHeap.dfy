/** The extraction and modification loops on the heap, where an IE list holds pointers to ID cells
    and a copied PDU shares them. Each method is proved against its value-level function in `Ngap`. */
module NgapHeap {
  import opened Ngap
  import opened Options

  class RanCell {
    var value: int
    constructor (value: int)
      ensures this.value == value
    {
      this.value := value;
    }
  }

  class AmfCell {
    var value: int
    constructor (value: int)
      ensures this.value == value
    {
      this.value := value;
    }
  }

  datatype IeRef = IeRef(id: IeId, ran: RanCell?, amf: AmfCell?, ueNgapIds: Option<AmfCell?>,
                         pair: Option<(int, int)>, rest: seq<int>)

  function UeCell(ie: IeRef): AmfCell? {
    if ie.ueNgapIds.Some? then ie.ueNgapIds.value else null
  }

  ghost function CellsOf(ies: seq<IeRef>): set<object> {
    (set i | 0 <= i < |ies| && ies[i].ran != null :: ies[i].ran as object) +
    (set i | 0 <= i < |ies| && ies[i].amf != null :: ies[i].amf as object) +
    (set i | 0 <= i < |ies| && UeCell(ies[i]) != null :: UeCell(ies[i]) as object)
  }

  ghost predicate Apart(x: IeRef, y: IeRef) {
    && (x.ran != null ==> x.ran != y.ran)
    && (x.amf != null ==> x.amf != y.amf && x.amf != UeCell(y))
    && (UeCell(x) != null ==> UeCell(x) != y.amf && UeCell(x) != UeCell(y))
  }

  /** The decoder allocates every cell afresh: no two pointers of the list are the same. */
  ghost predicate Separate(ies: seq<IeRef>) {
    && (forall i, j :: 0 <= i < |ies| && 0 <= j < |ies| && i != j ==> Apart(ies[i], ies[j]))
    && (forall i :: 0 <= i < |ies| && ies[i].amf != null ==> UeCell(ies[i]) != ies[i].amf)
  }

  function View(ie: IeRef): Ie
    reads ie.ran, ie.amf, UeCell(ie)
  {
    Ie(ie.id,
       if ie.ran != null then Some(ie.ran.value) else None,
       if ie.amf != null then Some(ie.amf.value) else None,
       if ie.ueNgapIds.None? then None
       else Some(if ie.ueNgapIds.value != null then Some(ie.ueNgapIds.value.value) else None),
       ie.pair, ie.rest)
  }

  function ViewAll(ies: seq<IeRef>): (r: seq<Ie>)
    reads CellsOf(ies)
    ensures |r| == |ies|
    ensures forall i :: 0 <= i < |ies| ==> r[i] == View(ies[i])
  {
    seq(|ies|, i requires 0 <= i < |ies| reads CellsOf(ies) => View(ies[i]))
  }

  ghost function Ies(m: Option<Message<IeRef>>): seq<IeRef> {
    if m.Some? && m.value.body.Some? then m.value.body.value else []
  }

  function ViewMessage(m: Option<Message<IeRef>>): (r: Option<Message<Ie>>)
    reads CellsOf(Ies(m))
  {
    match m
    case None => None
    case Some(Message(p, None)) => Some(Message(p, None))
    case Some(Message(p, Some(ies))) => Some(Message(p, Some(ViewAll(ies))))
  }

  function ViewPdu(pdu: Pdu<IeRef>): Pdu<Ie>
    reads CellsOf(Ies(pdu.payload))
  {
    Pdu(pdu.present, ViewMessage(pdu.payload))
  }

  // ---------- extraction ----------

  method ExtractLoop(rule: ReadRule, ies: seq<IeRef>) returns (r: Extraction)
    ensures r == ExtractIes(rule, ViewAll(ies))
  {
    var ranId, ranFound, amfId, amfFound := 0, false, 0, false;
    ghost var all := ViewAll(ies);
    var i := 0;
    while i < |ies|
      invariant 0 <= i <= |ies|
      invariant LastHeld(rule, RanField, all[..i]) == if ranFound then Some(ranId) else None
      invariant LastHeld(rule, AmfField, all[..i]) == if amfFound then Some(amfId) else None
      invariant !ranFound ==> ranId == 0
      invariant !amfFound ==> amfId == 0
      invariant forall j :: 0 <= j < i ==> !ProbeIe(rule, RanField, all[j]).Crash?
    {
      var ie := ies[i];
      assert all[..i + 1][..i] == all[..i];
      match rule {
        case ReadIds(ran, amf) =>
          if ie.id.RanUeNgapId? {
            if ran && ie.ran != null {
              ranId, ranFound := ie.ran.value, true;
            }
          } else if ie.id.AmfUeNgapId? {
            if amf && ie.amf != null {
              amfId, amfFound := ie.amf.value, true;
            }
          }
        case ReadReleaseCommand =>
          if ie.id.RanUeNgapId? && ie.ueNgapIds.Some? {
            if ie.ueNgapIds.value == null {
              assert ProbeIe(rule, RanField, all[i]).Crash?;
              return ExtractCrash;
            }
            ranId, ranFound := ie.ueNgapIds.value.value, true;
          }
        case ReadNothing =>
      }
      i := i + 1;
    }
    assert all[..i] == all;
    r := UeIds(ranId, amfId, ranFound || amfFound);
  }

  method ExtractUeIdsFromMessage(pdu: Pdu<IeRef>) returns (r: Extraction)
    ensures r == Extract(ViewPdu(pdu))
  {
    match pdu.Payload() {
      case Some(Message(p, Some(ies))) => r := ExtractLoop(ReadRuleOf(pdu.Class(), p), ies);
      case Some(Message(p, None)) => r := UeIds(0, 0, false);
      case None => r := UeIds(0, 0, false);
    }
  }

  // ---------- modification ----------

  datatype Outcome = Done | Failed | Crashed

  /** One iteration's write, in place; true when it dereferences nil. */
  method WriteCell(rule: WriteRule, ie: IeRef, ran: int, amf: int) returns (crashed: bool)
    requires ie.amf != null ==> UeCell(ie) != ie.amf
    modifies ie.ran, ie.amf, UeCell(ie)
    ensures View(ie) == WriteIe(rule, old(View(ie)), ran, amf)
    ensures crashed == WriteCrashesAt(rule, old(View(ie)))
  {
    crashed := false;
    match rule {
      case WriteIds(wr, wa, prints) =>
        if ie.id.RanUeNgapId? {
          if wr && ie.ran != null {
            ie.ran.value := ran;
          }
          crashed := prints && ie.ran == null;
        } else if ie.id.AmfUeNgapId? {
          if wa && ie.amf != null {
            ie.amf.value := amf;
          }
          crashed := prints && ie.amf == null;
        }
      case WriteReleaseCommand =>
        if ie.id.AmfUeNgapId? {
          if ie.ueNgapIds.None? {
            crashed := true;
          } else if ie.ueNgapIds.value != null {
            ie.ueNgapIds.value.value := amf;
          }
        }
      case WriteError =>
    }
  }

  lemma CellsAt(ies: seq<IeRef>, i: nat)
    requires i < |ies|
    ensures ies[i].ran != null ==> ies[i].ran in CellsOf(ies)
    ensures ies[i].amf != null ==> ies[i].amf in CellsOf(ies)
    ensures UeCell(ies[i]) != null ==> UeCell(ies[i]) in CellsOf(ies)
  {
  }

  method ModifyLoop(rule: WriteRule, ies: seq<IeRef>, ran: int, amf: int) returns (crashed: bool)
    requires Separate(ies)
    modifies CellsOf(ies)
    ensures crashed == WriteCrashes(rule, old(ViewAll(ies)))
    ensures !crashed ==> ViewAll(ies) == WriteIes(rule, old(ViewAll(ies)), ran, amf)
  {
    ghost var before := ViewAll(ies);
    var i := 0;
    while i < |ies|
      invariant 0 <= i <= |ies|
      invariant forall j :: 0 <= j < i ==> View(ies[j]) == WriteIe(rule, before[j], ran, amf)
      invariant forall j :: i <= j < |ies| ==> View(ies[j]) == before[j]
      invariant forall j :: 0 <= j < i ==> !WriteCrashesAt(rule, before[j])
    {
      CellsAt(ies, i);
      label before:
      crashed := WriteCell(rule, ies[i], ran, amf);
      forall j | 0 <= j < |ies| && j != i
        ensures View(ies[j]) == old@before(View(ies[j]))
      {
        assert Apart(ies[j], ies[i]);
      }
      if crashed {
        assert WriteCrashesAt(rule, before[i]);
        return;
      }
      i := i + 1;
    }
    crashed := false;
  }

  ghost function Verdict(m: Modification): Outcome {
    match m
    case Modified(_) => Done
    case ModifyError => Failed
    case ModifyCrash => Crashed
  }

  /** All or nothing: an error leaves every cell of the PDU as it was, so a shallow copy that failed
      to be modified still encodes the original. */
  method ModifyUeIdsInMessage(pdu: Pdu<IeRef>, ran: int, amf: int) returns (outcome: Outcome)
    requires Separate(Ies(pdu.payload))
    modifies CellsOf(Ies(pdu.payload))
    ensures outcome == Verdict(Modify(old(ViewPdu(pdu)), ran, amf))
    ensures outcome.Failed? ==> unchanged(CellsOf(Ies(pdu.payload)))
    ensures !outcome.Crashed? ==> ViewPdu(pdu) == Rewrite(old(ViewPdu(pdu)), ran, amf)
  {
    match pdu.Payload() {
      case Some(Message(p, Some(ies))) =>
        var rule := WriteRuleOf(pdu.Class(), p);
        if rule.WriteError? {
          return Failed;
        }
        var crashed := ModifyLoop(rule, ies, ran, amf);
        outcome := if crashed then Crashed else Done;
      case Some(Message(p, None)) => outcome := Failed;
      case None => outcome := Failed;
    }
  }
}
