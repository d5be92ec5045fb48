/** The sticky UE-to-AMF cache: a binding keeps a UE on its AMF for 60 seconds while that AMF stays
    registered. Calls run one at a time; AMFs join and leave between them. Times are in seconds. */
module Bindings {
  import AmfManager
  import opened ConnectProtocol
  import opened Entities
  import opened Options

  datatype Binding = Binding(amfId: string, expiry: int)

  const LIFETIME := 60

  /** The bound AMF, when the binding has not expired and the AMF is still registered. */
  function Hit<A>(b: map<int, Binding>, reg: Registry<A>, ue: int, now: int): Option<A> {
    if ue in b && now < b[ue].expiry && b[ue].amfId in reg.byId then Some(reg.byId[b[ue].amfId]) else None
  }

  /** A call's answer; `pick` is what the manager picks when nothing is hit. */
  function Answer<A>(b: map<int, Binding>, reg: Registry<A>, ue: int, now: int, pick: Option<A>): Option<A> {
    var hit := Hit(b, reg, ue, now);
    if hit.Some? then hit else pick
  }

  /** The bindings after a call; a valid binding to an AMF that is gone is dropped. */
  function Rebound<A>(b: map<int, Binding>, reg: Registry<A>, ue: int, now: int, later: int, pick: Option<A>,
                      podOf: A -> string): map<int, Binding>
  {
    if Hit(b, reg, ue, now).Some? then b
    else if pick.Some? then b[ue := Binding(podOf(pick.value), later + LIFETIME)]
    else if ue in b && now < b[ue].expiry then b - {ue}
    else b
  }

  ghost predicate NoPlaceholder<A>(reg: Registry<A>) {
    forall info :: info in reg.amfList ==> reg.amfList[info].Some?
  }

  /** A pick fails exactly when no AMF is listed, and otherwise gives a listed one. */
  ghost predicate MayPick<A>(reg: Registry<A>, pick: Option<A>) {
    match pick
    case None => reg.amfList == map[]
    case Some(a) => exists info :: info in reg.amfList && reg.amfList[info] == Some(a)
  }

  class Cache {
    var bindings: map<int, Binding>
    const manager: AmfManager.Manager

    constructor (manager: AmfManager.Manager)
      ensures bindings == map[] && this.manager == manager
    {
      bindings, this.manager := map[], manager;
    }

    /** No listed AMF has a smaller load. */
    ghost predicate Least(amf: Amf)
      reads amf, manager, manager.amfList.Values
    {
      forall info :: info in manager.amfList && manager.amfList[info] != null ==>
        |amf.ueList| <= |manager.amfList[info].ueList|
    }

    method BindUEToAMF(ueId: int, amfId: string, now: int)
      modifies this
      ensures bindings == old(bindings)[ueId := Binding(amfId, now + LIFETIME)]
    {
      bindings := bindings[ueId := Binding(amfId, now + LIFETIME)];
    }

    method PickAndBind(ueId: int, later: int) returns (amf: Option<Amf>)
      requires forall info :: info in manager.amfList ==> manager.amfList[info] != null
      modifies this
      ensures MayPick(manager.View(), amf)
      ensures amf.Some? ==> Least(amf.value)
      ensures bindings == if amf.Some? then old(bindings)[ueId := Binding(amf.value.info.pod, later + LIFETIME)]
                          else old(bindings)
    {
      var picked := manager.Pick();
      match picked {
        case NoAmf => amf := None;
        case Picked(a) =>
          var info :| info in manager.amfList && manager.amfList[info] == a;
          assert manager.View().amfList[info] == Some(a);
          BindUEToAMF(ueId, a.info.pod, later);
          amf := Some(a);
      }
    }

    /** `now` and `later` are the clock's readings when the binding is checked and when one is made.
        A placeholder in the list would end the process. */
    method GetAMFForUE(ueId: int, now: int, later: int) returns (amf: Option<Amf>, ghost pick: Option<Amf>)
      requires forall info :: info in manager.amfList ==> manager.amfList[info] != null
      modifies this
      ensures amf == Answer(old(bindings), manager.View(), ueId, now, pick)
      ensures bindings == Rebound(old(bindings), manager.View(), ueId, now, later, pick, (a: Amf) => a.info.pod)
      ensures Hit(old(bindings), manager.View(), ueId, now).None? ==>
                MayPick(manager.View(), pick) && (pick.Some? ==> Least(pick.value))
    {
      if ueId in bindings && now < bindings[ueId].expiry {
        var selected := manager.GetByID(bindings[ueId].amfId);
        if selected.Some? {
          return selected, None;
        }
        bindings := bindings - {ueId};
      }
      amf := PickAndBind(ueId, later);
      pick := amf;
    }
  }

  // ---------- runs of calls ----------

  datatype Call<A> = Call(reg: Registry<A>, ue: int, now: int, later: int, pick: Option<A>)

  function AnswerOf<A>(b: map<int, Binding>, c: Call<A>): Option<A> {
    Answer(b, c.reg, c.ue, c.now, c.pick)
  }

  function AfterCall<A>(b: map<int, Binding>, c: Call<A>, podOf: A -> string): map<int, Binding> {
    Rebound(b, c.reg, c.ue, c.now, c.later, c.pick, podOf)
  }

  function AfterCalls<A>(b: map<int, Binding>, calls: seq<Call<A>>, podOf: A -> string): map<int, Binding>
    decreases |calls|
  {
    if calls == [] then b
    else AfterCall(AfterCalls(b, calls[..|calls| - 1], podOf), calls[|calls| - 1], podOf)
  }

  /** None only when no AMF is listed, and otherwise an AMF registered at that moment. */
  lemma AnswersRegistered<A(!new)>(b: map<int, Binding>, c: Call<A>)
    requires Agree(c.reg) && NoPlaceholder(c.reg)
    requires Hit(b, c.reg, c.ue, c.now).None? ==> MayPick(c.reg, c.pick)
    ensures AnswerOf(b, c).None? <==> c.reg.amfList == map[]
    ensures AnswerOf(b, c).Some? ==> exists pod :: Listed(c.reg, pod, AnswerOf(b, c).value)
  {
    var hit := Hit(b, c.reg, c.ue, c.now);
    if hit.Some? {
      assert Listed(c.reg, b[c.ue].amfId, hit.value);
    } else if c.pick.Some? {
      var info :| info in c.reg.amfList && c.reg.amfList[info] == c.pick;
      assert info == AmfInfo(info.pod, info.port);
      assert Listed(c.reg, info.pod, c.pick.value);
    }
  }

  /** In every call for the UE the binding is valid and its AMF registered. */
  predicate Kept<A>(calls: seq<Call<A>>, ue: int, bound: Binding) {
    forall k | 0 <= k < |calls| :: calls[k].ue == ue ==> calls[k].now < bound.expiry && bound.amfId in calls[k].reg.byId
  }

  lemma {:induction false} BindingStays<A>(b: map<int, Binding>, calls: seq<Call<A>>, podOf: A -> string,
                                           ue: int, bound: Binding)
    requires ue in b && b[ue] == bound && Kept(calls, ue, bound)
    ensures var b' := AfterCalls(b, calls, podOf); ue in b' && b'[ue] == bound
    decreases |calls|
  {
    if calls != [] {
      BindingStays(b, calls[..|calls| - 1], podOf, ue, bound);
      assert calls[|calls| - 1].ue == ue ==> bound.amfId in calls[|calls| - 1].reg.byId;
    }
  }

  /** A call that picks AMF `x` keeps the UE on the AMF registered under that name, whatever joins,
      leaves or is asked for other UEs in between, until 60 seconds have passed. */
  lemma StickyFor60Seconds<A>(b: map<int, Binding>, first: Call<A>, calls: seq<Call<A>>, last: Call<A>,
                              podOf: A -> string, x: A)
    requires Hit(b, first.reg, first.ue, first.now).None? && first.pick == Some(x)
    requires last.ue == first.ue
    requires forall c | c in calls + [last] ::
               c.ue == first.ue ==> c.now < first.later + 60 && podOf(x) in c.reg.byId
    ensures AnswerOf(b, first) == Some(x)
    ensures AnswerOf(AfterCalls(AfterCall(b, first, podOf), calls, podOf), last) == Some(last.reg.byId[podOf(x)])
    ensures last.reg.byId[podOf(x)] == x ==>
              AnswerOf(AfterCalls(AfterCall(b, first, podOf), calls, podOf), last) == Some(x)
  {
    var bound := Binding(podOf(x), first.later + LIFETIME);
    assert last in calls + [last];
    assert Kept(calls, first.ue, bound) by {
      forall k | 0 <= k < |calls| && calls[k].ue == first.ue
        ensures calls[k].now < bound.expiry && bound.amfId in calls[k].reg.byId
      {
        assert calls[k] in calls + [last];
      }
    }
    BindingStays(AfterCall(b, first, podOf), calls, podOf, first.ue, bound);
  }

  /** After that it no longer counts: a call at 60 seconds or later, with no call for the UE in between,
      answers what is picked then. */
  lemma ExpiresAfter60Seconds<A>(b: map<int, Binding>, first: Call<A>, calls: seq<Call<A>>, last: Call<A>,
                                 podOf: A -> string)
    requires Hit(b, first.reg, first.ue, first.now).None? && first.pick.Some?
    requires last.ue == first.ue && last.now >= first.later + 60
    requires forall c | c in calls :: c.ue != first.ue
    ensures AnswerOf(AfterCalls(AfterCall(b, first, podOf), calls, podOf), last) == last.pick
  {
    var bound := Binding(podOf(first.pick.value), first.later + LIFETIME);
    BindingStays(AfterCall(b, first, podOf), calls, podOf, first.ue, bound);
  }

  /** A valid binding to an AMF that is gone does not come back with that AMF: the call that finds it gone
      forgets it. */
  lemma GoneForgotten<A>(b: map<int, Binding>, gone: Call<A>, last: Call<A>, podOf: A -> string)
    requires gone.ue in b && gone.now < b[gone.ue].expiry && b[gone.ue].amfId !in gone.reg.byId
    requires last.ue == gone.ue
    ensures AnswerOf(b, gone) == gone.pick
    ensures gone.pick.None? ==> AnswerOf(AfterCall(b, gone, podOf), last) == last.pick
    ensures gone.pick.Some? && last.now < gone.later + 60 && podOf(gone.pick.value) in last.reg.byId ==>
              AnswerOf(AfterCall(b, gone, podOf), last) == Some(last.reg.byId[podOf(gone.pick.value)])
  {
  }
}
