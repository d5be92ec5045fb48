/** How AMF connections come and go. Every discovered (pod, NodePort) pair starts a goroutine that
    reserves its key with a nil placeholder, dials, publishes the AMF, sends NG Setup, and then reads
    until the connection ends. Steps are the critical sections of any number of these goroutines. */
module ConnectProtocol {
  import opened Options

  /** The list key is the pair; an AMF's ID is the pod name alone. */
  datatype AmfInfo = AmfInfo(pod: string, port: int)

  /** `amfList` holds None for a placeholder. */
  datatype Registry<A> = Registry(amfList: map<AmfInfo, Option<A>>, byId: map<string, A>)

  function Reserved<A>(r: Registry<A>, info: AmfInfo): Registry<A> {
    r.(amfList := r.amfList[info := None])
  }

  function Released<A>(r: Registry<A>, info: AmfInfo): Registry<A> {
    r.(amfList := r.amfList - {info})
  }

  /** Also what the manager's Add does when an NG Setup response arrives. */
  function Added<A>(r: Registry<A>, info: AmfInfo, amf: A): Registry<A> {
    Registry(r.amfList[info := Some(amf)], r.byId[info.pod := amf])
  }

  function Withdrawn<A>(r: Registry<A>, info: AmfInfo): Registry<A> {
    Registry(r.amfList - {info}, r.byId - {info.pod})
  }

  /** Remove by ID: the key deleted is that of whichever AMF the ID index names. */
  function Removed<A>(r: Registry<A>, pod: string, infoOf: A --> AmfInfo): Registry<A>
    requires pod in r.byId ==> infoOf.requires(r.byId[pod])
  {
    if pod in r.byId then Registry(r.amfList - {infoOf(r.byId[pod])}, r.byId - {pod}) else r
  }

  ghost predicate Listed<A(!new)>(r: Registry<A>, pod: string, amf: A) {
    exists port :: AmfInfo(pod, port) in r.amfList && r.amfList[AmfInfo(pod, port)] == Some(amf)
  }

  /** The two indexes hold the same AMFs. */
  ghost predicate Agree<A(!new)>(r: Registry<A>) {
    && (forall info :: info in r.amfList && r.amfList[info].Some? ==>
          info.pod in r.byId && r.byId[info.pod] == r.amfList[info].value)
    && (forall pod :: pod in r.byId ==> Listed(r, pod, r.byId[pod]))
  }

  // ---------- the goroutines ----------

  datatype Phase = Starting | Dialing | Published | Reading | Ended

  /** An attempt's number is also the identity of the AMF object it creates. */
  datatype Attempt = Attempt(info: AmfInfo, phase: Phase)

  datatype State = State(reg: Registry<int>, attempts: map<int, Attempt>)

  const INIT := State(Registry(map[], map[]), map[])

  datatype Step =
    | Offer(k: int, info: AmfInfo)   // discovery starts a goroutine
    | Reserve(k: int)
    | DialFails(k: int)
    | Publish(k: int)
    | SetupFails(k: int)
    | SetupSent(k: int)
    | SetupAnswered(k: int)          // NG Setup response: manager.Add
    | LoopEnds(k: int)               // onClose: manager.Remove(amf.id)

  predicate InPhase(s: State, k: int, phase: Phase) {
    k in s.attempts && s.attempts[k].phase == phase
  }

  predicate Enabled(s: State, step: Step) {
    match step
    case Offer(k, _) => k !in s.attempts
    case Reserve(k) => InPhase(s, k, Starting)
    case DialFails(k) => InPhase(s, k, Dialing)
    case Publish(k) => InPhase(s, k, Dialing)
    case SetupFails(k) => InPhase(s, k, Published)
    case SetupSent(k) => InPhase(s, k, Published)
    case SetupAnswered(k) => InPhase(s, k, Reading)
    case LoopEnds(k) =>
      InPhase(s, k, Reading) &&
      (s.attempts[k].info.pod in s.reg.byId ==> s.reg.byId[s.attempts[k].info.pod] in s.attempts)
  }

  function Move(s: State, k: int, phase: Phase, reg: Registry<int>): State
    requires k in s.attempts
  {
    State(reg, s.attempts[k := s.attempts[k].(phase := phase)])
  }

  function Apply(s: State, step: Step): State
    requires Enabled(s, step)
  {
    match step
    case Offer(k, info) => s.(attempts := s.attempts[k := Attempt(info, Starting)])
    case Reserve(k) =>
      var info := s.attempts[k].info;
      if info in s.reg.amfList then Move(s, k, Ended, s.reg) else Move(s, k, Dialing, Reserved(s.reg, info))
    case DialFails(k) => Move(s, k, Ended, Released(s.reg, s.attempts[k].info))
    case Publish(k) => Move(s, k, Published, Added(s.reg, s.attempts[k].info, k))
    case SetupFails(k) => Move(s, k, Ended, Withdrawn(s.reg, s.attempts[k].info))
    case SetupSent(k) => Move(s, k, Reading, s.reg)
    case SetupAnswered(k) => s.(reg := Added(s.reg, s.attempts[k].info, k))
    case LoopEnds(k) =>
      var infoOf := (j: int) requires j in s.attempts => s.attempts[j].info;
      Move(s, k, Ended, Removed(s.reg, s.attempts[k].info.pod, infoOf))
  }

  /** A run that is offered only pairs of `offers`. */
  predicate Legal(s: State, steps: seq<Step>, offers: set<AmfInfo>)
    decreases |steps|
  {
    steps == [] ||
    (Enabled(s, steps[0]) && (steps[0].Offer? ==> steps[0].info in offers)
     && Legal(Apply(s, steps[0]), steps[1..], offers))
  }

  function Exec(s: State, steps: seq<Step>, offers: set<AmfInfo>): State
    requires Legal(s, steps, offers)
    decreases |steps|
  {
    if steps == [] then s else Exec(Apply(s, steps[0]), steps[1..], offers)
  }

  predicate OnePortPerPod(offers: set<AmfInfo>) {
    forall i, j | i in offers && j in offers :: i.pod == j.pod ==> i == j
  }

  // ---------- the invariant ----------

  /** The attempt or live connection that owns its key. */
  predicate Owner(s: State, k: int) {
    InPhase(s, k, Dialing) || InPhase(s, k, Published) || InPhase(s, k, Reading)
  }

  predicate ReadyOwner(s: State, k: int) {
    InPhase(s, k, Published) || InPhase(s, k, Reading)
  }

  predicate Registered(s: State, k: int)
    requires k in s.attempts
  {
    var info := s.attempts[k].info;
    info in s.reg.amfList && s.reg.amfList[info] == Some(k) && info.pod in s.reg.byId && s.reg.byId[info.pod] == k
  }

  /** A dialing attempt has its placeholder, a connected one is in both indexes. */
  predicate AttemptOk(s: State, k: int) {
    && (InPhase(s, k, Dialing) ==> s.attempts[k].info in s.reg.amfList && s.reg.amfList[s.attempts[k].info] == None)
    && (ReadyOwner(s, k) ==> Registered(s, k))
  }

  predicate Exclusive(s: State, j: int, k: int) {
    Owner(s, j) && Owner(s, k) && s.attempts[j].info == s.attempts[k].info ==> j == k
  }

  ghost predicate Owned(s: State, info: AmfInfo) {
    exists k :: Owner(s, k) && s.attempts[k].info == info
  }

  predicate IndexOk(s: State, pod: string) {
    pod in s.reg.byId ==> ReadyOwner(s, s.reg.byId[pod]) && s.attempts[s.reg.byId[pod]].info.pod == pod
  }

  ghost predicate Inv(s: State, offers: set<AmfInfo>) {
    && (forall k :: k in s.attempts ==> s.attempts[k].info in offers)
    && (forall k :: AttemptOk(s, k))
    && (forall j, k :: Exclusive(s, j, k))
    && (forall info :: info in s.reg.amfList ==> Owned(s, info))
    && (forall pod :: IndexOk(s, pod))
  }

  /** What an ending read loop removes is its own AMF. */
  lemma RemovesItself(s: State, k: int)
    requires AttemptOk(s, k) && Enabled(s, LoopEnds(k))
    ensures Apply(s, LoopEnds(k)) == Move(s, k, Ended, Withdrawn(s.reg, s.attempts[k].info))
  {
  }

  /** Every step changes one attempt, and the indexes at most at that attempt's key and pod. */
  lemma StepEffect(s: State, step: Step)
    requires AttemptOk(s, step.k) && Enabled(s, step)
    ensures var s' := Apply(s, step);
            && step.k in s'.attempts
            && (step.k in s.attempts ==> s'.attempts[step.k].info == s.attempts[step.k].info)
            && (step.Offer? ==> s'.attempts[step.k] == Attempt(step.info, Starting))
            && (forall k :: k != step.k ==>
                  (k in s'.attempts <==> k in s.attempts) && (k in s.attempts ==> s'.attempts[k] == s.attempts[k]))
            && (forall info :: info != s'.attempts[step.k].info ==>
                  (info in s'.reg.amfList <==> info in s.reg.amfList) &&
                  (info in s.reg.amfList ==> s'.reg.amfList[info] == s.reg.amfList[info]))
            && (forall pod :: pod != s'.attempts[step.k].info.pod ==>
                  (pod in s'.reg.byId <==> pod in s.reg.byId) &&
                  (pod in s.reg.byId ==> s'.reg.byId[pod] == s.reg.byId[pod]))
  {
    if step.LoopEnds? { RemovesItself(s, step.k); }
  }

  /** The step's own attempt: it owns its key afterwards, or the key is free of it. */
  lemma OwnEffect(s: State, step: Step)
    requires AttemptOk(s, step.k) && Enabled(s, step)
    ensures var s' := Apply(s, step);
            var info := s'.attempts[step.k].info;
            && AttemptOk(s', step.k)
            && (Owner(s', step.k) && !Owner(s, step.k) ==> info !in s.reg.amfList)
            && (!Owner(s', step.k) && Owner(s, step.k) ==>
                  info !in s'.reg.amfList && (ReadyOwner(s, step.k) ==> info.pod !in s'.reg.byId))
            && (Owner(s', step.k) == Owner(s, step.k) ==> (info in s'.reg.amfList <==> info in s.reg.amfList))
            && (Owner(s', step.k) ==> info in s'.reg.amfList)
            && (info.pod in s'.reg.byId ==>
                  || s'.reg.byId[info.pod] == step.k
                  || (info.pod in s.reg.byId && s'.reg.byId[info.pod] == s.reg.byId[info.pod]))
            && (info.pod in s'.reg.byId && s'.reg.byId[info.pod] == step.k && !ReadyOwner(s', step.k) ==>
                  info.pod in s.reg.byId && s.reg.byId[info.pod] == step.k && !ReadyOwner(s, step.k))
  {
    if step.LoopEnds? { RemovesItself(s, step.k); }
  }

  lemma AttemptStep(s: State, step: Step, offers: set<AmfInfo>, k: int)
    requires OnePortPerPod(offers) && Inv(s, offers) && Enabled(s, step)
    requires step.Offer? ==> step.info in offers
    ensures AttemptOk(Apply(s, step), k)
  {
    assert AttemptOk(s, step.k) && AttemptOk(s, k) && Exclusive(s, step.k, k);
    OwnEffect(s, step);
    StepEffect(s, step);
    if k != step.k && Owner(s, k) && step.k in s.attempts && s.attempts[k].info == s.attempts[step.k].info {
      assert !Owner(s, step.k);
    }
  }

  lemma ExclusiveStep(s: State, step: Step, offers: set<AmfInfo>, j: int, k: int)
    requires Inv(s, offers) && Enabled(s, step)
    ensures Exclusive(Apply(s, step), j, k)
  {
    assert AttemptOk(s, step.k) && AttemptOk(s, j) && AttemptOk(s, k) && Exclusive(s, j, k);
    OwnEffect(s, step);
    StepEffect(s, step);
  }

  lemma OwnedStep(s: State, step: Step, offers: set<AmfInfo>, info: AmfInfo)
    requires Inv(s, offers) && Enabled(s, step) && info in Apply(s, step).reg.amfList
    ensures Owned(Apply(s, step), info)
  {
    var s' := Apply(s, step);
    assert AttemptOk(s, step.k);
    OwnEffect(s, step);
    StepEffect(s, step);
    if info in s.reg.amfList {
      assert Owned(s, info);
      var k :| Owner(s, k) && s.attempts[k].info == info;
      assert Owner(s', k) && s'.attempts[k].info == info;
    } else {
      assert Owner(s', step.k) && s'.attempts[step.k].info == info;
    }
  }

  lemma IndexStep(s: State, step: Step, offers: set<AmfInfo>, pod: string)
    requires Inv(s, offers) && Enabled(s, step)
    ensures IndexOk(Apply(s, step), pod)
  {
    assert AttemptOk(s, step.k) && IndexOk(s, pod);
    OwnEffect(s, step);
    StepEffect(s, step);
  }

  lemma InvStep(s: State, step: Step, offers: set<AmfInfo>)
    requires OnePortPerPod(offers) && Inv(s, offers) && Enabled(s, step)
    requires step.Offer? ==> step.info in offers
    ensures Inv(Apply(s, step), offers)
  {
    var s' := Apply(s, step);
    assert AttemptOk(s, step.k);
    OwnEffect(s, step);
    StepEffect(s, step);
    forall k ensures AttemptOk(s', k) { AttemptStep(s, step, offers, k); }
    forall j, k ensures Exclusive(s', j, k) { ExclusiveStep(s, step, offers, j, k); }
    forall info | info in s'.reg.amfList ensures Owned(s', info) { OwnedStep(s, step, offers, info); }
    forall pod ensures IndexOk(s', pod) { IndexStep(s, step, offers, pod); }
  }

  lemma {:induction false} InvRun(s: State, steps: seq<Step>, offers: set<AmfInfo>)
    requires OnePortPerPod(offers) && Inv(s, offers) && Legal(s, steps, offers)
    ensures Inv(Exec(s, steps, offers), offers)
    decreases |steps|
  {
    if steps != [] {
      InvStep(s, steps[0], offers);
      InvRun(Apply(s, steps[0]), steps[1..], offers);
    }
  }

  lemma InvAgrees(s: State, offers: set<AmfInfo>)
    requires Inv(s, offers)
    ensures Agree(s.reg)
  {
    forall info | info in s.reg.amfList && s.reg.amfList[info].Some?
      ensures info.pod in s.reg.byId && s.reg.byId[info.pod] == s.reg.amfList[info].value
    {
      assert Owned(s, info);
      var k :| Owner(s, k) && s.attempts[k].info == info;
      assert AttemptOk(s, k);
    }
    forall pod | pod in s.reg.byId ensures Listed(s.reg, pod, s.reg.byId[pod]) {
      assert IndexOk(s, pod);
      var info := s.attempts[s.reg.byId[pod]].info;
      assert AttemptOk(s, s.reg.byId[pod]);
      assert AmfInfo(pod, info.port) == info;
    }
  }

  // ---------- main results ----------

  /** With one NodePort per pod, in every reachable state: a key has at most one owner; a read loop
      that ends removes its own AMF and nothing else; an NG Setup response changes nothing. */
  lemma ReachableOwnership(steps: seq<Step>, offers: set<AmfInfo>, j: int, k: int)
    requires OnePortPerPod(offers) && Legal(INIT, steps, offers)
    ensures var s := Exec(INIT, steps, offers);
            && (Owner(s, j) && Owner(s, k) && s.attempts[j].info == s.attempts[k].info ==> j == k)
            && (InPhase(s, k, Reading) ==>
                  && Enabled(s, LoopEnds(k)) && Registered(s, k)
                  && Apply(s, LoopEnds(k)).reg == Withdrawn(s.reg, s.attempts[k].info)
                  && Apply(s, SetupAnswered(k)) == s)
  {
    InvRun(INIT, steps, offers);
    var s := Exec(INIT, steps, offers);
    assert Exclusive(s, j, k) && AttemptOk(s, k);
    if InPhase(s, k, Reading) {
      RemovesItself(s, k);
      var info := s.attempts[k].info;
      assert s.reg.amfList[info := Some(k)] == s.reg.amfList;
      assert s.reg.byId[info.pod := k] == s.reg.byId;
    }
  }

  lemma ThreeSteps(s: State, steps: seq<Step>, offers: set<AmfInfo>)
    requires |steps| == 3
    requires steps[0].Offer? && steps[0].k !in s.attempts && steps[0].info in offers && steps[0].info !in s.reg.amfList
    requires steps[1] == Reserve(steps[0].k) && steps[2] == Publish(steps[0].k)
    ensures Legal(s, steps, offers)
    ensures var k, info := steps[0].k, steps[0].info;
            Exec(s, steps, offers) ==
              State(Added(s.reg, info, k), s.attempts[k := Attempt(info, Published)])
  {
    var k, info := steps[0].k, steps[0].info;
    var s1 := Apply(s, steps[0]);
    var s2 := Apply(s1, steps[1]);
    var s3 := Apply(s2, steps[2]);
    var rest1, rest2, rest3 := steps[1..], steps[2..], steps[3..];
    assert rest1[0] == steps[1] && rest1[1..] == rest2;
    assert rest2[0] == steps[2] && rest2[1..] == rest3 && rest3 == [];
    assert Legal(s3, rest3, offers);
    assert Legal(s2, rest2, offers) && Exec(s2, rest2, offers) == s3;
    assert Legal(s1, rest1, offers) && Exec(s1, rest1, offers) == s3;
    assert s3.reg.amfList == s.reg.amfList[info := Some(k)];
    assert s3.attempts == s.attempts[k := Attempt(info, Published)];
  }

  lemma {:induction false} ExecSplit(s: State, xs: seq<Step>, ys: seq<Step>, offers: set<AmfInfo>)
    requires Legal(s, xs, offers) && Legal(Exec(s, xs, offers), ys, offers)
    ensures Legal(s, xs + ys, offers) && Exec(s, xs + ys, offers) == Exec(Exec(s, xs, offers), ys, offers)
    decreases |xs|
  {
    if xs == [] {
      assert xs + ys == ys;
    } else {
      assert (xs + ys)[0] == xs[0] && (xs + ys)[1..] == xs[1..] + ys;
      ExecSplit(Apply(s, xs[0]), xs[1..], ys, offers);
    }
  }

  lemma TwoPortsDisagree(i: AmfInfo, j: AmfInfo, offers: set<AmfInfo>)
    requires i in offers && j in offers && i.pod == j.pod && i != j
    ensures exists steps :: Legal(INIT, steps, offers) && !Agree(Exec(INIT, steps, offers).reg)
  {
    var s1 := State(Registry(map[i := Some(0)], map[i.pod := 0]), map[0 := Attempt(i, Published)]);
    var s2 := State(Registry(map[i := Some(0), j := Some(1)], map[i.pod := 1]),
                    map[0 := Attempt(i, Published), 1 := Attempt(j, Published)]);
    var first, second := [Offer(0, i), Reserve(0), Publish(0)], [Offer(1, j), Reserve(1), Publish(1)];
    ThreeSteps(INIT, first, offers);
    ThreeSteps(s1, second, offers);
    assert Exec(INIT, first, offers) == s1;
    assert Exec(s1, second, offers) == s2;
    ExecSplit(INIT, first, second, offers);
    assert s2.reg.amfList[i] == Some(0) && s2.reg.byId[i.pod] == 1;
  }

  /** The two indexes agree in every reachable state exactly when no pod is discovered with two
      NodePorts. */
  lemma IndexesAgreeExactly(offers: set<AmfInfo>)
    ensures (forall steps :: Legal(INIT, steps, offers) ==> Agree(Exec(INIT, steps, offers).reg)) <==>
            OnePortPerPod(offers)
  {
    if OnePortPerPod(offers) {
      forall steps | Legal(INIT, steps, offers) ensures Agree(Exec(INIT, steps, offers).reg) {
        InvRun(INIT, steps, offers);
        InvAgrees(Exec(INIT, steps, offers), offers);
      }
    } else {
      var i, j :| i in offers && j in offers && i.pod == j.pod && i != j;
      TwoPortsDisagree(i, j, offers);
    }
  }

  // ---------- placeholders ----------

  /** The entry that `Pick` would dereference as nil. */
  predicate Placeholder<A>(r: Registry<A>, info: AmfInfo) {
    info in r.amfList && r.amfList[info].None?
  }

  /** In every reachable state a key holds a placeholder exactly while an attempt for it is dialing. */
  lemma PlaceholderExactly(steps: seq<Step>, offers: set<AmfInfo>, info: AmfInfo)
    requires OnePortPerPod(offers) && Legal(INIT, steps, offers)
    ensures var s := Exec(INIT, steps, offers);
            Placeholder(s.reg, info) <==> exists k :: InPhase(s, k, Dialing) && s.attempts[k].info == info
  {
    InvRun(INIT, steps, offers);
    var s := Exec(INIT, steps, offers);
    if Placeholder(s.reg, info) {
      assert Owned(s, info);
      var k :| Owner(s, k) && s.attempts[k].info == info;
      assert AttemptOk(s, k);
    }
    forall k | InPhase(s, k, Dialing) && s.attempts[k].info == info ensures Placeholder(s.reg, info) {
      assert AttemptOk(s, k);
    }
  }

  /** Any discovered pair reaches such a state, from which a pick dies. */
  lemma PlaceholderReached(offers: set<AmfInfo>, info: AmfInfo) returns (steps: seq<Step>)
    requires info in offers
    ensures Legal(INIT, steps, offers) && Placeholder(Exec(INIT, steps, offers).reg, info)
  {
    var s1 := Apply(INIT, Offer(0, info));
    var s2 := Apply(s1, Reserve(0));
    var last := [Reserve(0)];
    assert last[1..] == [] && Legal(s2, [], offers);
    assert Legal(s1, last, offers) && Exec(s1, last, offers) == s2;
    steps := [Offer(0, info), Reserve(0)];
    assert steps[1..] == last;
  }
}
