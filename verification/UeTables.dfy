/** The UE tables of the proxy as one value: the service's contexts by load-balancer (LB) ID, each
    gNB's entries by RAN ID and each AMF's entries by AMF ID. Tables hold references to contexts in
    the source; a context's identity is its LB ID here, since it never changes and is never reused.
    gNBs and AMFs are identified by number. */
module UeTables {
  import opened Options

  datatype Ue = Ue(amf: int, amfUeId: int, gnb: int, ranUeId: int, lbId: int)

  datatype Tables = Tables(next: int,
                           ues: map<int, Ue>,
                           gnbUes: map<int, map<int, int>>,
                           amfUes: map<int, map<int, int>>)

  const EMPTY := Tables(0, map[], map[], map[])

  function Row(m: map<int, map<int, int>>, k: int): map<int, int> {
    if k in m then m[k] else map[]
  }

  // ---------- the critical sections ----------

  function Create(t: Tables, amf: int, gnb: int, ranUeId: int): Tables {
    t.(next := t.next + 1,
       ues := t.ues[t.next := Ue(amf, 0, gnb, ranUeId, t.next)],
       gnbUes := t.gnbUes[gnb := Row(t.gnbUes, gnb)[ranUeId := t.next]])
  }

  function SetAmfUeId(t: Tables, lb: int, id: int): Tables
    requires lb in t.ues
  {
    t.(ues := t.ues[lb := t.ues[lb].(amfUeId := id)])
  }

  /** Filed under the AMF ID that the context has at that moment. */
  function AddToAmf(t: Tables, amf: int, lb: int): Tables
    requires lb in t.ues
  {
    t.(amfUes := t.amfUes[amf := Row(t.amfUes, amf)[t.ues[lb].amfUeId := lb]])
  }

  function FindByRan(t: Tables, gnb: int, ranUeId: int): Option<int> {
    if ranUeId in Row(t.gnbUes, gnb) then Some(Row(t.gnbUes, gnb)[ranUeId]) else None
  }

  function FindByAmfId(t: Tables, amf: int, id: int): Option<int> {
    if id in Row(t.amfUes, amf) then Some(Row(t.amfUes, amf)[id]) else None
  }

  /** Only the key is tested, not which context is stored under it. */
  predicate HasUeContext(t: Tables, gnb: int, lb: int) {
    lb in t.ues && t.ues[lb].ranUeId in Row(t.gnbUes, gnb)
  }

  /** The UE stands in all tables under its own IDs. */
  predicate Settled(t: Tables, lb: int) {
    && lb in t.ues && t.ues[lb].lbId == lb
    && FindByRan(t, t.ues[lb].gnb, t.ues[lb].ranUeId) == Some(lb)
    && FindByAmfId(t, t.ues[lb].amf, t.ues[lb].amfUeId) == Some(lb)
  }

  // ---------- coherence ----------

  predicate Names(t: Tables, lb: int, gnb: int, ranUeId: int) {
    lb in t.ues && t.ues[lb].gnb == gnb && t.ues[lb].ranUeId == ranUeId
  }

  ghost predicate Coherent(t: Tables) {
    && 0 <= t.next
    && (forall lb :: lb in t.ues <==> 0 <= lb < t.next)
    && (forall lb :: lb in t.ues ==> t.ues[lb].lbId == lb)
    && (forall g, r :: g in t.gnbUes && r in t.gnbUes[g] ==> Names(t, t.gnbUes[g][r], g, r))
    && (forall a, x :: a in t.amfUes && x in t.amfUes[a] ==> t.amfUes[a][x] in t.ues)
  }

  /** Everything of a context that no operation changes. */
  predicate SameUe(u: Ue, v: Ue) {
    u == v.(amfUeId := u.amfUeId)
  }

  ghost predicate Extends(t: Tables, t': Tables) {
    forall lb :: lb in t.ues ==> lb in t'.ues && SameUe(t.ues[lb], t'.ues[lb])
  }

  lemma CreateCoherent(t: Tables, amf: int, gnb: int, ranUeId: int)
    requires Coherent(t)
    ensures var t' := Create(t, amf, gnb, ranUeId);
            && Coherent(t') && Extends(t, t')
            && FindByRan(t', gnb, ranUeId) == Some(t.next)
            && (forall g, r :: (g, r) != (gnb, ranUeId) ==> FindByRan(t', g, r) == FindByRan(t, g, r))
  {
  }

  lemma SetAmfUeIdCoherent(t: Tables, lb: int, id: int)
    requires Coherent(t) && lb in t.ues
    ensures Coherent(SetAmfUeId(t, lb, id)) && Extends(t, SetAmfUeId(t, lb, id))
  {
  }

  lemma AddToAmfCoherent(t: Tables, amf: int, lb: int)
    requires Coherent(t) && lb in t.ues
    ensures Coherent(AddToAmf(t, amf, lb))
    ensures FindByAmfId(AddToAmf(t, amf, lb), amf, t.ues[lb].amfUeId) == Some(lb)
  {
  }

  /** LB IDs serve as RAN UE NGAP IDs towards AMFs (section 9.3.3.2 of TS 38.413, 32 bits): they all
      fit exactly while at most 2^32 contexts were created. */
  lemma LbIdsFit(t: Tables)
    requires Coherent(t)
    ensures (forall lb :: lb in t.ues ==> 0 <= t.ues[lb].lbId < 0x1_0000_0000) <==> t.next <= 0x1_0000_0000
  {
    if t.next > 0x1_0000_0000 {
      assert 0x1_0000_0000 in t.ues;
    }
  }
}
