/** The service on the heap: the global context table and the LB ID counter. The ghost field `tables`
    is the abstract value that `Valid` ties to the maps of the service and of every gNB and AMF. */
module Service {
  import opened Entities
  import opened Options
  import opened UeTables

  class Service {
    var lbUeId: int
    var ueList: map<int, Context>
    ghost var gnbs: map<int, Gnb>   // every gNB and AMF object that exists
    ghost var amfs: map<int, Amf>
    ghost var tables: Tables

    ghost predicate KnowsGnb(g: Gnb)
      reads this
    {
      g.id in gnbs && gnbs[g.id] == g
    }

    ghost predicate KnowsAmf(a: Amf)
      reads this
    {
      a.id in amfs && amfs[a.id] == a
    }

    /** The context is the one stored under its LB ID. */
    ghost predicate Stored(c: Context)
      reads this
    {
      c.lbId in ueList && ueList[c.lbId] == c && KnowsGnb(c.gnb) && KnowsAmf(c.amf)
    }

    ghost predicate ContextsTied()
      reads this, ueList.Values
    {
      && tables.next == lbUeId
      && tables.gnbUes.Keys <= gnbs.Keys && tables.amfUes.Keys <= amfs.Keys
      && (forall k :: k in ueList <==> k in tables.ues)
      && (forall k :: k in ueList ==> ueList[k].lbId == k && Stored(ueList[k]) && tables.ues[k] == ueList[k].View())
    }

    /** The table's entries are stored contexts, and `row` gives their LB IDs. */
    ghost predicate RowTied(table: map<int, Context>, row: map<int, int>)
      reads this
    {
      && table.Keys == row.Keys
      && forall k :: k in table ==> Stored(table[k]) && row[k] == table[k].lbId
    }

    ghost predicate GnbTied(g: int)
      requires g in gnbs
      reads this, gnbs.Values
    {
      gnbs[g].id == g && RowTied(gnbs[g].ueList, Row(tables.gnbUes, g))
    }

    ghost predicate AmfTied(a: int)
      requires a in amfs
      reads this, amfs.Values
    {
      amfs[a].id == a && RowTied(amfs[a].ueList, Row(tables.amfUes, a))
    }

    ghost function Footprint(): set<object>
      reads this
    {
      {this} + ueList.Values + gnbs.Values + amfs.Values
    }

    ghost predicate Valid()
      reads this, Footprint()
    {
      && Coherent(tables) && ContextsTied()
      && (forall g :: g in gnbs ==> GnbTied(g))
      && (forall a :: a in amfs ==> AmfTied(a))
    }

    twostate lemma Untouched()
      requires old(Valid()) && unchanged(old(Footprint()))
      ensures Valid()
    {
    }

    constructor ()
      ensures Valid() && tables == EMPTY
    {
      lbUeId, ueList := 0, map[];
      gnbs, amfs, tables := map[], map[], EMPTY;
    }

    /** A new gNB brings an empty table. */
    ghost method MeetGnb(g: Gnb)
      requires Valid() && g.id !in gnbs && g.ueList == map[]
      modifies this`gnbs
      ensures Valid() && KnowsGnb(g) && gnbs == old(gnbs)[g.id := g]
    {
      gnbs := gnbs[g.id := g];
      assert ContextsTied();
      assert GnbTied(g.id);
    }

    ghost method MeetAmf(a: Amf)
      requires Valid() && a.id !in amfs && a.ueList == map[]
      modifies this`amfs
      ensures Valid() && KnowsAmf(a) && amfs == old(amfs)[a.id := a]
    {
      amfs := amfs[a.id := a];
      assert ContextsTied();
      assert AmfTied(a.id);
    }

    // ---------- why creation keeps the tie ----------

    twostate predicate Created(new ue: Context)
      reads this, ue, ue.gnb, gnbs.Values, amfs.Values, ueList.Values
    {
      && gnbs == old(gnbs) && amfs == old(amfs) && KnowsGnb(ue.gnb) && KnowsAmf(ue.amf)
      && ue.lbId == old(lbUeId) && ue.amfUeId == 0
      && lbUeId == old(lbUeId) + 1
      && ueList == old(ueList)[ue.lbId := ue]
      && tables == Create(old(tables), ue.amf.id, ue.gnb.id, ue.gnbUeId)
      && (forall g :: g in gnbs ==>
            gnbs[g].ueList == if gnbs[g] == ue.gnb then old(gnbs[g].ueList)[ue.gnbUeId := ue] else old(gnbs[g].ueList))
      && (forall a :: a in amfs ==> amfs[a].ueList == old(amfs[a].ueList))
      && (forall k :: k in old(ueList) ==> k in ueList && ueList[k].amfUeId == old(ueList[k].amfUeId))
    }

    twostate lemma CreatedContexts(new ue: Context)
      requires old(Coherent(tables) && ContextsTied()) && Created(ue)
      ensures Coherent(tables) && ContextsTied()
    {
      CreateCoherent(old(tables), ue.amf.id, ue.gnb.id, ue.gnbUeId);
    }

    twostate lemma CreatedGnb(new ue: Context, g: int)
      requires old(Coherent(tables) && ContextsTied() && g in gnbs && GnbTied(g)) && Created(ue)
      ensures GnbTied(g)
    {
      if gnbs[g] == ue.gnb {
        assert Row(tables.gnbUes, g) == Row(old(tables).gnbUes, g)[ue.gnbUeId := ue.lbId];
      }
    }

    twostate lemma CreatedAmf(new ue: Context, a: int)
      requires old(Coherent(tables) && ContextsTied() && a in amfs && AmfTied(a)) && Created(ue)
      ensures AmfTied(a)
    {
    }

    twostate lemma CreatedValid(new ue: Context)
      requires old(Valid()) && Created(ue)
      ensures Valid() && Stored(ue)
    {
      CreatedContexts(ue);
      forall g | g in gnbs ensures GnbTied(g) { CreatedGnb(ue, g); }
      forall a | a in amfs ensures AmfTied(a) { CreatedAmf(ue, a); }
    }

    method CreateUeContext(amf: Amf, gnb: Gnb, ranUeId: int) returns (ue: Context)
      requires Valid() && KnowsAmf(amf) && KnowsGnb(gnb)
      modifies this`lbUeId, this`ueList, this`tables, gnb
      ensures Valid() && fresh(ue) && Stored(ue)
      ensures tables == Create(old(tables), amf.id, gnb.id, ranUeId)
      ensures ue.lbId == old(tables).next && ue.amf == amf && ue.amfUeId == 0
    {
      ue := new Context(amf, gnb, ranUeId, lbUeId);
      ueList := ueList[ue.lbId := ue];
      gnb.Add(ue);
      lbUeId := lbUeId + 1;
      tables := Create(tables, amf.id, gnb.id, ranUeId);
      CreatedValid(ue);
    }

    // ---------- why filing a context with an AMF keeps the tie ----------

    twostate predicate Filed(lb: int, new a: int, new id: int)
      reads this, gnbs.Values, amfs.Values, ueList.Values
    {
      && lb in ueList && lb in old(tables).ues && a in amfs
      && gnbs == old(gnbs) && amfs == old(amfs)
      && lbUeId == old(lbUeId) && ueList == old(ueList)
      && tables == AddToAmf(SetAmfUeId(old(tables), lb, id), a, lb)
      && (forall g :: g in gnbs ==> gnbs[g].ueList == old(gnbs[g].ueList))
      && (forall b :: b in amfs ==>
            amfs[b].ueList == if b == a then old(amfs[b].ueList)[id := ueList[lb]] else old(amfs[b].ueList))
      && (forall k :: k in ueList ==> ueList[k].amfUeId == if k == lb then id else old(ueList[k].amfUeId))
    }

    twostate lemma FiledContexts(lb: int, new a: int, new id: int)
      requires old(Coherent(tables) && ContextsTied()) && Filed(lb, a, id)
      ensures Coherent(tables) && ContextsTied()
    {
      SetAmfUeIdCoherent(old(tables), lb, id);
      AddToAmfCoherent(SetAmfUeId(old(tables), lb, id), a, lb);
    }

    twostate lemma FiledAmf(lb: int, new a: int, new id: int, new b: int)
      requires old(ContextsTied() && b in amfs && AmfTied(b)) && Filed(lb, a, id)
      ensures AmfTied(b)
    {
    }

    twostate lemma FiledValid(lb: int, new a: int, new id: int)
      requires old(Valid()) && Filed(lb, a, id)
      ensures Valid() && Stored(ueList[lb])
    {
      FiledContexts(lb, a, id);
      forall g | g in gnbs ensures GnbTied(g) { assert old(GnbTied(g)); }
      forall b | b in amfs ensures AmfTied(b) { assert old(AmfTied(b)); FiledAmf(lb, a, id, b); }
    }

    // ---------- lookups ----------

    function FindUeCtx(lb: int): Option<Context>
      reads this
    {
      if lb in ueList then Some(ueList[lb]) else None
    }

    function FindUeCtxByRanUeId(gnb: Gnb, ranUeId: int): Option<Context>
      reads gnb
    {
      if ranUeId in gnb.ueList then Some(gnb.ueList[ranUeId]) else None
    }

    /** The lookups agree with the tables. */
    lemma FoundByLbId(lb: int)
      requires Valid()
      ensures FindUeCtx(lb).Some? <==> lb in tables.ues
      ensures FindUeCtx(lb).Some? ==>
                var ue := FindUeCtx(lb).value;
                Stored(ue) && ue.lbId == lb && tables.ues[lb] == ue.View()
    {
    }

    lemma FoundByRanUeId(gnb: Gnb, ranUeId: int)
      requires Valid() && KnowsGnb(gnb)
      ensures var ue := FindUeCtxByRanUeId(gnb, ranUeId);
              && FindByRan(tables, gnb.id, ranUeId) == (if ue.Some? then Some(ue.value.lbId) else None)
              && (ue.Some? ==>
                    Stored(ue.value) && ue.value.lbId in tables.ues && tables.ues[ue.value.lbId] == ue.value.View())
    {
      assert GnbTied(gnb.id);
    }
  }
}
