/** The AMF manager on the heap: two maps changed under its lock. */
module AmfManager {
  import opened ConnectProtocol
  import opened Entities
  import opened Options

  datatype PickResult = NoAmf | Picked(amf: Amf) | Died

  class Manager {
    var amfList: map<AmfInfo, Amf?>
    var indexesById: map<string, Amf>

    constructor ()
      ensures amfList == map[] && indexesById == map[]
    {
      amfList, indexesById := map[], map[];
    }

    static function Slot(amf: Amf?): Option<Amf> {
      if amf == null then None else Some(amf)
    }

    function View(): Registry<Amf>
      reads this
    {
      Registry(map info | info in amfList :: Slot(amfList[info]), indexesById)
    }

    /** A placeholder of the registry is a nil entry of the list. */
    lemma PlaceholderIsNil(info: AmfInfo)
      ensures Placeholder(View(), info) <==> info in amfList && amfList[info] == null
    {
    }

    method Add(amf: Amf)
      modifies this
      ensures View() == Added(old(View()), amf.info, amf)
      ensures amfList == old(amfList)[amf.info := amf]
    {
      amfList := amfList[amf.info := amf];
      indexesById := indexesById[amf.info.pod := amf];
    }

    /** The AMF removed is closed, no other. */
    method Remove(id: string)
      modifies this, (if id in indexesById then {indexesById[id]} else {})`open
      ensures View() == Removed(old(View()), id, (amf: Amf) => amf.info)
      ensures id in old(indexesById) ==> !old(indexesById)[id].open
    {
      if id in indexesById {
        var amf := indexesById[id];
        amfList := amfList - {amf.info};
        indexesById := indexesById - {id};
        amf.Close();
      }
    }

    method GetByID(id: string) returns (amf: Option<Amf>)
      ensures amf == if id in indexesById then Some(indexesById[id]) else None
    {
      if id in indexesById {
        return Some(indexesById[id]);
      }
      amf := None;
    }

    /** Least load, whatever order the map is visited in; a placeholder is dereferenced and ends the
        process. */
    method Pick() returns (r: PickResult)
      ensures r.Died? <==> exists info :: Placeholder(View(), info)
      ensures r.NoAmf? <==> amfList == map[]
      ensures r.Picked? ==>
                && (exists info :: info in amfList && amfList[info] == r.amf)
                && forall info :: info in amfList ==> amfList[info] != null && |r.amf.ueList| <= |amfList[info].ueList|
    {
      forall info ensures Placeholder(View(), info) <==> info in amfList && amfList[info] == null {
        PlaceholderIsNil(info);
      }
      if |amfList| == 0 {
        return NoAmf;
      }
      var rest := amfList.Keys;
      var minLoad := -1;
      var selected: Amf? := null;
      while rest != {}
        invariant rest <= amfList.Keys
        invariant minLoad == -1 <==> selected == null
        invariant minLoad == -1 ==> rest == amfList.Keys
        invariant selected != null ==>
                    minLoad == |selected.ueList| && exists info :: info in amfList && amfList[info] == selected
        invariant forall info :: info in amfList && info !in rest ==>
                    amfList[info] != null && minLoad <= |amfList[info].ueList|
        decreases rest
      {
        var info :| info in rest;
        rest := rest - {info};
        var amf := amfList[info];
        if amf == null {
          return Died;
        }
        var currentLoad := |amf.ueList|;
        if minLoad == -1 || currentLoad < minLoad {
          minLoad := currentLoad;
          selected := amf;
        }
      }
      assert amfList.Keys != {};
      r := Picked(selected);
    }

    method Publish(info: AmfInfo, identity: int) returns (amf: Amf)
      modifies this
      ensures fresh(amf) && amf.info == info && amf.id == identity && amf.ueList == map[]
      ensures amfList == old(amfList)[info := amf] && indexesById == old(indexesById)[info.pod := amf]
    {
      amf := new Amf(identity, info);
      amfList := amfList[info := amf];
      indexesById := indexesById[info.pod := amf];
    }

    method Withdraw(info: AmfInfo)
      modifies this
      ensures amfList == old(amfList) - {info} && indexesById == old(indexesById) - {info.pod}
    {
      amfList := amfList - {info};
      indexesById := indexesById - {info.pod};
    }

    /** One connection attempt run to its end without interference; `dials` and `setupSent` are the
        network's answers. */
    method ConnectAmf(info: AmfInfo, identity: int, dials: bool, setupSent: bool) returns (amf: Amf?)
      modifies this
      ensures info in old(amfList) || !dials ==> View() == old(View()) && amf == null
      ensures info !in old(amfList) && dials && !setupSent ==> View() == Withdrawn(old(View()), info) && amf == null
      ensures info !in old(amfList) && dials && setupSent ==>
                && amf != null && fresh(amf) && amf.info == info && amf.id == identity && amf.ueList == map[]
                && View() == Added(old(View()), info, amf)
      ensures forall i :: i in amfList && amfList[i] != null ==>
                (i in old(amfList) && amfList[i] == old(amfList)[i]) || amfList[i] == amf
    {
      if info in amfList {
        return null;
      }
      ghost var before := amfList;
      amfList := amfList[info := null];
      if !dials {
        amfList := amfList - {info};
        assert amfList == before;
        return null;
      }
      amf := Publish(info, identity);
      if !setupSent {
        Withdraw(info);
        assert amfList == before - {info};
        return null;
      }
      assert amfList == before[info := amf];
    }
  }
}
