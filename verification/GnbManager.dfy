/** The gNB manager and the run-time counter on the heap. */
module GnbManager {
  import opened Entities
  import opened Options

  function Sum(xs: seq<int>): int {
    if xs == [] then 0 else Sum(xs[..|xs| - 1]) + xs[|xs| - 1]
  }

  class Runtime {
    var active: int
    var draining: bool

    constructor ()
      ensures active == 0 && !draining
    {
      active, draining := 0, false;
    }

    method IncrementActive()
      modifies this`active
      ensures active == old(active) + 1
    {
      active := active + 1;
    }

    /** The compare-and-swap loop. `others[k]` is what other goroutines add to the counter between the
        k-th load and its swap; after the last of them nobody interferes. Unless a load sees a counter
        below one, exactly one is subtracted and no foreign change is lost. */
    method DecrementActive(others: seq<int>) returns (rounds: nat, clamped: bool)
      modifies this`active
      ensures rounds <= |others|
      ensures clamped ==> active == 0 && exists k :: 0 <= k <= |others| && old(active) + Sum(others[..k]) <= 0
      ensures !clamped ==> active == old(active) + Sum(others[..rounds]) - 1
      ensures forall k :: 0 <= k < rounds - 1 ==> others[k] != 0
    {
      rounds := 0;
      while true
        invariant rounds <= |others|
        invariant active == old(active) + Sum(others[..rounds])
        invariant forall k :: 0 <= k < rounds ==> others[k] != 0
        decreases |others| - rounds
      {
        var current := active;
        ghost var load := rounds;
        if rounds < |others| {
          assert others[..rounds + 1][..rounds] == others[..rounds];
          active := active + others[rounds];
          rounds := rounds + 1;
        }
        if current <= 0 {
          active := 0;
          assert old(active) + Sum(others[..load]) <= 0;
          return rounds, true;
        }
        if active == current {
          active := current - 1;
          return rounds, false;
        }
      }
    }
  }

  class Manager {
    var gnbList: map<int, Gnb>
    const runtime: Runtime

    /** Between critical sections the counter is the size of the list. */
    ghost predicate Valid()
      reads this, runtime
    {
      runtime.active == |gnbList| && forall c :: c in gnbList ==> gnbList[c].id == c
    }

    constructor (runtime: Runtime)
      requires runtime.active == 0
      ensures Valid() && gnbList == map[] && this.runtime == runtime
    {
      gnbList, this.runtime := map[], runtime;
    }

    method Add(gnb: Gnb)
      requires Valid()
      modifies this, runtime`active
      ensures Valid()
      ensures gnbList == if gnb.id in old(gnbList) then old(gnbList) else old(gnbList)[gnb.id := gnb]
    {
      if gnb.id !in gnbList {
        gnbList := gnbList[gnb.id := gnb];
        runtime.IncrementActive();
      }
    }

    /** The gNB removed is closed, no other. */
    method Remove(conn: int)
      requires Valid()
      modifies this, runtime`active, (if conn in gnbList then {gnbList[conn]} else {})`open
      ensures Valid()
      ensures gnbList == old(gnbList) - {conn}
      ensures conn in old(gnbList) ==> !old(gnbList)[conn].open
    {
      if conn in gnbList {
        ghost var before := gnbList;
        var gnb := gnbList[conn];
        gnbList := gnbList - {conn};
        gnb.Close();
        assert before.Keys == gnbList.Keys + {conn};
        assert |before.Keys| == |before| && |gnbList.Keys| == |gnbList|;
        var _, _ := runtime.DecrementActive([]);
      }
    }

    /** Any listed gNB whose table has the context's RAN ID; only the key is compared. */
    method FindGnBByUeContext(ue: Context) returns (found: Option<Gnb>)
      ensures found.Some? ==>
                (exists c :: c in gnbList && gnbList[c] == found.value) && ue.gnbUeId in found.value.ueList
      ensures found.None? ==> forall c :: c in gnbList ==> ue.gnbUeId !in gnbList[c].ueList
    {
      var list := gnbList;
      var rest := list.Keys;
      while exists c :: c in rest
        invariant rest <= list.Keys
        invariant forall c :: c in list && c !in rest ==> ue.gnbUeId !in list[c].ueList
        decreases rest
      {
        var c :| c in rest;
        rest := rest - {c};
        var has := list[c].HasUeContext(ue);
        if has {
          return Some(list[c]);
        }
      }
      found := None;
    }
  }
}
