/** Where the UE tables do not do what their users rely on, and exactly when they do. */
module TableLimits {
  import opened Options
  import opened Reactions
  import opened UeTables

  // ---------- the gNB search compares RAN IDs only ----------

  /** The search over `list` can end with no gNB but the one the context was created for. */
  predicate FindsOnlyOwner(t: Tables, list: set<int>, lb: int)
    requires lb in t.ues
  {
    forall g | g in list :: Finds(t, list, lb, Some(g)) ==> g == t.ues[lb].gnb
  }

  /** It does so exactly when no other listed gNB has ever opened the same RAN ID. */
  lemma SearchFindsOwner(t: Tables, list: set<int>, lb: int)
    requires Coherent(t) && lb in t.ues
    ensures FindsOnlyOwner(t, list, lb) <==>
            forall other :: other in t.ues && t.ues[other].gnb in list - {t.ues[lb].gnb}
                            && FindByRan(t, t.ues[other].gnb, t.ues[other].ranUeId) == Some(other)
                            ==> t.ues[other].ranUeId != t.ues[lb].ranUeId
  {
    var u := t.ues[lb];
    if !FindsOnlyOwner(t, list, lb) {
      var g :| g in list && Finds(t, list, lb, Some(g)) && g != u.gnb;
      assert HasUeContext(t, g, lb);
      var other := Row(t.gnbUes, g)[u.ranUeId];
      assert Names(t, other, g, u.ranUeId);
    }
    forall other | other in t.ues && t.ues[other].gnb in list - {u.gnb}
                   && FindByRan(t, t.ues[other].gnb, t.ues[other].ranUeId) == Some(other)
                   && t.ues[other].ranUeId == u.ranUeId
      ensures !FindsOnlyOwner(t, list, lb)
    {
      assert Finds(t, list, lb, Some(t.ues[other].gnb));
    }
  }

  /** Two gNBs that number their UEs alike: UE 0 of gNB 1 may be sent to gNB 2. */
  lemma SharedRanIdMisroutes()
    ensures var t := Create(Create(EMPTY, 9, 1, 7), 9, 2, 7);
            Coherent(t) && t.ues[0].gnb == 1 && Finds(t, {1, 2}, 0, Some(2))
  {
    CreateCoherent(EMPTY, 9, 1, 7);
    CreateCoherent(Create(EMPTY, 9, 1, 7), 9, 2, 7);
  }

  // ---------- a RAN ID used again hides the older context ----------

  /** A context that its gNB finds is still found after another creation exactly when that creation is
      not for the same gNB and RAN ID; it is never released. */
  lemma StillFound(t: Tables, lb: int, amf: int, g: int, r: int)
    requires Coherent(t) && lb in t.ues && FindByRan(t, t.ues[lb].gnb, t.ues[lb].ranUeId) == Some(lb)
    ensures var t' := Create(t, amf, g, r);
            && t'.ues[lb] == t.ues[lb]
            && (FindByRan(t', t.ues[lb].gnb, t.ues[lb].ranUeId) == Some(lb) <==>
                  (g, r) != (t.ues[lb].gnb, t.ues[lb].ranUeId))
  {
    CreateCoherent(t, amf, g, r);
  }

  // ---------- an AMF that renames a UE leaves the old key behind ----------

  ghost predicate KeysAgree(t: Tables) {
    forall a, x :: FindByAmfId(t, a, x).Some? && FindByAmfId(t, a, x).value in t.ues ==>
      t.ues[FindByAmfId(t, a, x).value].amfUeId == x
  }

  /** Filing a context under an AMF ID keeps every key equal to its context's AMF ID exactly when the
      context is not filed under any other ID yet. */
  lemma FilingKeepsKeys(t: Tables, a: int, lb: int, id: int)
    requires Coherent(t) && lb in t.ues && KeysAgree(t)
    ensures KeysAgree(AddToAmf(SetAmfUeId(t, lb, id), a, lb)) <==>
            forall b, x :: FindByAmfId(t, b, x) == Some(lb) ==> x == id
  {
    var t' := AddToAmf(SetAmfUeId(t, lb, id), a, lb);
    assert forall b, x :: FindByAmfId(t', b, x) == if (b, x) == (a, id) then Some(lb) else FindByAmfId(t, b, x);
    assert forall k :: k in t'.ues ==> t'.ues[k].amfUeId == if k == lb then id else t.ues[k].amfUeId;
    forall b, x | FindByAmfId(t, b, x) == Some(lb) && x != id ensures !KeysAgree(t') {
      assert FindByAmfId(t', b, x) == Some(lb);
    }
  }

  lemma StaleKeyStays()
    ensures var t := Create(EMPTY, 9, 1, 7);
            var renamed := AddToAmf(SetAmfUeId(AddToAmf(SetAmfUeId(t, 0, 5), 9, 0), 0, 6), 9, 0);
            FindByAmfId(renamed, 9, 5) == Some(0) && renamed.ues[0].amfUeId == 6
  {
  }

  // ---------- an AMF ID given to two UEs ----------

  /** Filing one UE hides another that the AMF had filed exactly when both are given the same ID. */
  lemma StillFiled(t: Tables, a: int, lb: int, id: int, other: int, x: int)
    requires lb in t.ues && other != lb && FindByAmfId(t, a, x) == Some(other)
    ensures FindByAmfId(AddToAmf(SetAmfUeId(t, lb, id), a, lb), a, x) == Some(other) <==> x != id
  {
  }

  // ---------- two AMFs that name one UE ----------

  /** Storing an AMF ID and filing under it are two critical sections: when AMF `b` names a UE of AMF `a`
      between the two, `a` files it under the ID that `b` gave, and loses another UE exactly when that one
      is filed under the same ID. */
  lemma CrossedFiling(t: Tables, a: int, lb: int, id: int, stored: int, other: int, x: int)
    requires lb in t.ues && other != lb && FindByAmfId(t, a, x) == Some(other) && x != id
    ensures var crossed := AddToAmf(SetAmfUeId(SetAmfUeId(t, lb, id), lb, stored), a, lb);
            && FindByAmfId(crossed, a, stored) == Some(lb)
            && (FindByAmfId(crossed, a, x) == Some(other) <==> x != stored)
  {
  }
}
