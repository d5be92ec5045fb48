/** The objects behind the tables: UE contexts, gNBs, AMFs, and the wire that sends are recorded on. */
module Entities {
  import opened ConnectProtocol
  import opened Ngap
  import opened Reactions
  import opened UeTables

  class Context {
    const amf: Amf
    var amfUeId: int
    const gnb: Gnb
    const gnbUeId: int
    const lbId: int

    constructor (amf: Amf, gnb: Gnb, gnbUeId: int, lbId: int)
      ensures this.amf == amf && this.gnb == gnb && this.gnbUeId == gnbUeId && this.lbId == lbId
      ensures amfUeId == 0
    {
      this.amf, this.gnb, this.gnbUeId, this.lbId, this.amfUeId := amf, gnb, gnbUeId, lbId, 0;
    }

    function View(): Ue
      reads this
    {
      Ue(amf.id, amfUeId, gnb.id, gnbUeId, lbId)
    }

    method SetAmfUeId(id: int)
      modifies this
      ensures View() == old(View()).(amfUeId := id)
    {
      amfUeId := id;
    }
  }

  class Gnb {
    const id: int
    var ueList: map<int, Context>
    var open: bool

    constructor (id: int)
      ensures this.id == id && ueList == map[] && open
    {
      this.id, ueList, open := id, map[], true;
    }

    method Close()
      modifies this`open
      ensures !open
    {
      open := false;
    }

    method Add(ue: Context)
      modifies this`ueList
      ensures ueList == old(ueList)[ue.gnbUeId := ue]
    {
      ueList := ueList[ue.gnbUeId := ue];
    }

    method HasUeContext(ue: Context) returns (has: bool)
      ensures has <==> ue.gnbUeId in ueList
    {
      has := ue.gnbUeId in ueList;
    }
  }

  /** `id` is the object's identity; the source's ID string is the pod name in `info`. */
  class Amf {
    const id: int
    const info: AmfInfo
    var ueList: map<int, Context>
    var open: bool

    constructor (id: int, info: AmfInfo)
      ensures this.id == id && this.info == info && ueList == map[] && open
    {
      this.id, this.info, ueList, open := id, info, map[], true;
    }

    method Close()
      modifies this`open
      ensures !open
    {
      open := false;
    }

    method Add(ue: Context)
      modifies this`ueList
      ensures ueList == old(ueList)[ue.amfUeId := ue]
    {
      ueList := ueList[ue.amfUeId := ue];
    }
  }

  // ---------- sending ----------

  /** Every attempted send, in order; a send succeeds when its connection is healthy. */
  class Wire {
    var frames: seq<Frame>
    const healthy: set<Node>

    constructor (healthy: set<Node>)
      ensures frames == [] && this.healthy == healthy
    {
      this.frames, this.healthy := [], healthy;
    }

    method SendNgap(to: Node, pdu: Pdu<Ie>) returns (ok: bool)
      modifies this
      ensures ok == (to in healthy)
      ensures frames == old(frames) + [Frame(to, pdu, ok)]
    {
      ok := to in healthy;
      frames := frames + [Frame(to, pdu, ok)];
    }
  }
}
