/** Deadlock freedom. Every operation of the proxy is written as its script of lock acquisitions,
    releases, gate waits and lock-free work; threads run any sequences of operations and interleave
    freely. Read locks are treated as exclusive, which only adds waiting. */
module LockOrder {
  datatype Lock =
    | AmfManagerLock | GnbManagerLock | ServiceLock | AdmissionLock   // outer
    | GnbLock(g: int) | AmfLock(a: int) | WriteLock(g: int)           // leaves

  function Rank(l: Lock): nat {
    match l
    case AmfManagerLock | GnbManagerLock | ServiceLock | AdmissionLock => 0
    case _ => 1
  }

  datatype Op = Acquire(l: Lock) | Release(l: Lock) | AwaitGate(c: int) | OpenGate(c: int) | Work

  // ---------- the operations of the source ----------

  datatype Operation =
    | InitialUe(g: int, amfs: seq<int>)                  // admission, Pick over `amfs`, CreateUeContext
    | UplinkNas(g: int)
    | Relay(g: int, amfs: seq<int>)                      // no context: Pick over `amfs`
    | SetupReply
    | DownlinkNas(a: int, scanned: seq<int>, target: int)  // FindGnBByUeContext over `scanned`
    | ForwardDown(a: int, scanned: seq<int>, target: int)
    | Broadcast(a: int, scanned: seq<int>, gnbs: seq<int>)  // nothing found over `scanned`
    | RegisterAmf | ConnectAmf | RemoveAmf
    | AcceptGnb(c: int)                                  // Manager.Add, then close(registered)
    | CleanupGnb(c: int)                                 // <-registered, then Manager.Remove
    | AmfForUe(amfs: seq<int>)
    | UpdatePolicy
    | CloseManagers

  function Locked(l: Lock, body: seq<Op>): seq<Op> {
    [Acquire(l)] + body + [Release(l)]
  }

  function EachAmf(amfs: seq<int>): seq<Op> {
    if amfs == [] then [] else Locked(AmfLock(amfs[0]), []) + EachAmf(amfs[1..])
  }

  function EachGnb(gnbs: seq<int>): seq<Op> {
    if gnbs == [] then [] else Locked(GnbLock(gnbs[0]), []) + EachGnb(gnbs[1..])
  }

  function EachSend(gnbs: seq<int>): seq<Op> {
    if gnbs == [] then [] else Locked(WriteLock(gnbs[0]), [Work]) + EachSend(gnbs[1..])
  }

  /** The sections an operation is made of. */
  datatype Section =
    | Bracket(l: Lock)             // lock, touch a table, unlock
    | PickOver(amfs: seq<int>)
    | CreateIn(g: int)             // CreateUeContext: the gNB's table under the service's lock
    | FindOver(scanned: seq<int>)
    | SendTo(gnbs: seq<int>)
    | CloseUnder(l: Lock)
    | Lockless                     // work without locks
    | Await(c: int)
    | Open(c: int)

  function Code(section: Section): seq<Op> {
    match section
    case Bracket(l) => Locked(l, [])
    case PickOver(amfs) => Locked(AmfManagerLock, EachAmf(amfs))
    case CreateIn(g) => Locked(ServiceLock, Locked(GnbLock(g), []))
    case FindOver(scanned) => Locked(GnbManagerLock, EachGnb(scanned))
    case SendTo(gnbs) => EachSend(gnbs)
    case CloseUnder(l) => Locked(l, [Work])
    case Lockless => [Work]
    case Await(c) => [AwaitGate(c)]
    case Open(c) => [OpenGate(c)]
  }

  function Sections(op: Operation): seq<Section> {
    match op
    case InitialUe(g, amfs) => [Bracket(AdmissionLock), Lockless, PickOver(amfs), CreateIn(g), Lockless]
    case UplinkNas(g) => [Bracket(GnbLock(g)), Lockless]
    case Relay(g, amfs) => [Bracket(GnbLock(g)), PickOver(amfs), Lockless]
    case SetupReply => [Lockless]
    case DownlinkNas(a, scanned, target) =>
      [Bracket(ServiceLock), Bracket(AmfLock(a)), FindOver(scanned), SendTo([target])]
    case ForwardDown(a, scanned, target) => [Bracket(AmfLock(a)), FindOver(scanned), SendTo([target])]
    case Broadcast(a, scanned, gnbs) => [Bracket(AmfLock(a)), FindOver(scanned), Bracket(GnbManagerLock), SendTo(gnbs)]
    case RegisterAmf => [Bracket(AmfManagerLock)]
    case ConnectAmf => [Bracket(AmfManagerLock), Lockless, Bracket(AmfManagerLock), Lockless, Bracket(AmfManagerLock)]
    case RemoveAmf => [Bracket(AmfManagerLock), Lockless]
    case AcceptGnb(c) => [Lockless, Bracket(GnbManagerLock), Open(c)]
    case CleanupGnb(c) => [Await(c), Bracket(GnbManagerLock), Lockless]
    case AmfForUe(amfs) =>
      [Bracket(ServiceLock), Bracket(AmfManagerLock), Bracket(ServiceLock), PickOver(amfs), Bracket(ServiceLock)]
    case UpdatePolicy => [Bracket(AdmissionLock)]
    case CloseManagers => [CloseUnder(AmfManagerLock), CloseUnder(GnbManagerLock)]
  }

  function Script(sections: seq<Section>): seq<Op> {
    if sections == [] then [] else Code(sections[0]) + Script(sections[1..])
  }

  function Program(ops: seq<Operation>): seq<Op> {
    if ops == [] then [] else Script(Sections(ops[0])) + Program(ops[1..])
  }

  // ---------- the discipline ----------

  predicate OpOk(held: set<Lock>, op: Op) {
    match op
    case Acquire(l) => forall m | m in held :: Rank(m) < Rank(l)
    case Release(l) => l in held
    case AwaitGate(_) => held == {}
    case _ => true
  }

  function After(held: set<Lock>, op: Op): set<Lock> {
    match op
    case Acquire(l) => held + {l}
    case Release(l) => held - {l}
    case _ => held
  }

  /** From `held`, every acquisition goes up in rank, gates are awaited empty-handed, and `out` is held
      at the end. */
  predicate Disciplined(held: set<Lock>, prog: seq<Op>, out: set<Lock>)
    decreases |prog|
  {
    if prog == [] then held == out
    else OpOk(held, prog[0]) && Disciplined(After(held, prog[0]), prog[1..], out)
  }

  lemma {:induction false} Compose(held: set<Lock>, p: seq<Op>, mid: set<Lock>, q: seq<Op>, out: set<Lock>)
    requires Disciplined(held, p, mid) && Disciplined(mid, q, out)
    ensures Disciplined(held, p + q, out)
    decreases |p|
  {
    if p == [] {
      assert p + q == q;
    } else {
      assert (p + q)[1..] == p[1..] + q;
      Compose(After(held, p[0]), p[1..], mid, q, out);
    }
  }

  lemma LockedOk(held: set<Lock>, l: Lock, body: seq<Op>)
    requires forall m :: m in held ==> Rank(m) < Rank(l)
    requires Disciplined(held + {l}, body, held + {l})
    ensures Disciplined(held, Locked(l, body), held)
  {
    assert (held + {l}) - {l} == held;
    assert [Acquire(l)][1..] == [] && [Release(l)][1..] == [];
    assert Disciplined(held, [Acquire(l)], held + {l});
    Compose(held, [Acquire(l)], held + {l}, body, held + {l});
    assert Disciplined(held + {l}, [Release(l)], held);
    Compose(held, [Acquire(l)] + body, held + {l}, [Release(l)], held);
  }

  lemma OneOpOk(op: Op)
    requires !op.Acquire? && !op.Release?
    ensures Disciplined({}, [op], {})
  {
    assert [op][1..] == [];
  }

  /** Leaf locks taken one at a time under at most one outer lock. */
  lemma {:induction false} EachOk(held: set<Lock>, ids: seq<int>)
    requires forall m :: m in held ==> Rank(m) == 0
    ensures Disciplined(held, EachAmf(ids), held) && Disciplined(held, EachGnb(ids), held)
    ensures Disciplined(held, EachSend(ids), held)
  {
    if ids != [] {
      EachOk(held, ids[1..]);
      LockedOk(held, AmfLock(ids[0]), []);
      LockedOk(held, GnbLock(ids[0]), []);
      assert [Work][1..] == [];
      LockedOk(held, WriteLock(ids[0]), [Work]);
      Compose(held, Locked(AmfLock(ids[0]), []), held, EachAmf(ids[1..]), held);
      Compose(held, Locked(GnbLock(ids[0]), []), held, EachGnb(ids[1..]), held);
      Compose(held, Locked(WriteLock(ids[0]), [Work]), held, EachSend(ids[1..]), held);
    }
  }

  lemma Chain(p: seq<Op>, q: seq<Op>)
    requires Disciplined({}, p, {}) && Disciplined({}, q, {})
    ensures Disciplined({}, p + q, {})
  {
    Compose({}, p, {}, q, {});
  }

  /** Every section nests a leaf lock inside an outer one at most, and waits for the gate with no lock
      held. */
  lemma SectionOk(section: Section)
    ensures Disciplined({}, Code(section), {})
  {
    match section {
      case Bracket(l) => LockedOk({}, l, []);
      case PickOver(amfs) =>
        EachOk({} + {AmfManagerLock}, amfs);
        LockedOk({}, AmfManagerLock, EachAmf(amfs));
      case CreateIn(g) =>
        LockedOk({} + {ServiceLock}, GnbLock(g), []);
        LockedOk({}, ServiceLock, Locked(GnbLock(g), []));
      case FindOver(scanned) =>
        EachOk({} + {GnbManagerLock}, scanned);
        LockedOk({}, GnbManagerLock, EachGnb(scanned));
      case SendTo(gnbs) => EachOk({}, gnbs);
      case CloseUnder(l) =>
        assert [Work][1..] == [];
        LockedOk({}, l, [Work]);
      case Lockless => OneOpOk(Work);
      case Await(c) => OneOpOk(AwaitGate(c));
      case Open(c) => OneOpOk(OpenGate(c));
    }
  }

  lemma {:induction false} ScriptOk(sections: seq<Section>)
    ensures Disciplined({}, Script(sections), {})
  {
    if sections != [] {
      SectionOk(sections[0]);
      ScriptOk(sections[1..]);
      Chain(Code(sections[0]), Script(sections[1..]));
    }
  }

  lemma {:induction false} ProgramOk(ops: seq<Operation>)
    ensures Disciplined({}, Program(ops), {})
  {
    if ops != [] {
      ScriptOk(Sections(ops[0]));
      ProgramOk(ops[1..]);
      Chain(Script(Sections(ops[0])), Program(ops[1..]));
    }
  }

  // ---------- interleaved threads ----------

  datatype Thread = Thread(rest: seq<Op>, held: set<Lock>)

  datatype State = State(threads: map<int, Thread>, gates: set<int>)

  function Start(work: map<int, seq<Operation>>): State {
    State(map t | t in work :: Thread(Program(work[t]), {}), {})
  }

  predicate Free(s: State, l: Lock) {
    forall t | t in s.threads :: l !in s.threads[t].held
  }

  predicate CanStep(s: State, t: int) {
    t in s.threads && s.threads[t].rest != [] &&
    match s.threads[t].rest[0]
    case Acquire(l) => Free(s, l)
    case AwaitGate(c) => c in s.gates
    case _ => true
  }

  function StepOf(s: State, t: int): State
    requires CanStep(s, t)
  {
    var th := s.threads[t];
    State(s.threads[t := Thread(th.rest[1..], After(th.held, th.rest[0]))],
          if th.rest[0].OpenGate? then s.gates + {th.rest[0].c} else s.gates)
  }

  /** `order` is the interleaving: which thread moves next. */
  predicate Legal(s: State, order: seq<int>)
    decreases |order|
  {
    order == [] || (CanStep(s, order[0]) && Legal(StepOf(s, order[0]), order[1..]))
  }

  function Exec(s: State, order: seq<int>): State
    requires Legal(s, order)
    decreases |order|
  {
    if order == [] then s else Exec(StepOf(s, order[0]), order[1..])
  }

  predicate Awaits(prog: seq<Op>) {
    exists i | 0 <= i < |prog| :: prog[i].AwaitGate?
  }

  /** Thread `t` will open gate `c` and never waits for one. */
  predicate WillOpen(s: State, t: int, c: int) {
    t in s.threads && OpenGate(c) in s.threads[t].rest && !Awaits(s.threads[t].rest)
  }

  ghost predicate Served(s: State, c: int) {
    c in s.gates || exists t :: WillOpen(s, t, c)
  }

  predicate ThreadOk(s: State, t: int) {
    t in s.threads ==> Disciplined(s.threads[t].held, s.threads[t].rest, {})
  }

  ghost predicate Inv(s: State) {
    && (forall t :: ThreadOk(s, t))
    && (forall t, c :: t in s.threads && AwaitGate(c) in s.threads[t].rest ==> Served(s, c))
  }

  lemma InvStep(s: State, t: int)
    requires Inv(s) && CanStep(s, t)
    ensures Inv(StepOf(s, t))
  {
    var s' := StepOf(s, t);
    var rest := s.threads[t].rest;
    forall u ensures ThreadOk(s', u) { assert ThreadOk(s, u); }
    forall u, c | u in s'.threads && AwaitGate(c) in s'.threads[u].rest ensures Served(s', c) {
      assert AwaitGate(c) in s.threads[u].rest;
      assert Served(s, c);
      if c !in s.gates {
        var v :| WillOpen(s, v, c);
        if v == t && rest[0] == OpenGate(c) {
          assert c in s'.gates;
        } else if v == t {
          assert OpenGate(c) in rest[1..];
          assert !Awaits(rest[1..]);
          assert WillOpen(s', v, c);
        } else {
          assert WillOpen(s', v, c);
        }
      }
    }
  }

  lemma {:induction false} InvRun(s: State, order: seq<int>)
    requires Inv(s) && Legal(s, order)
    ensures Inv(Exec(s, order))
    decreases |order|
  {
    if order != [] {
      InvStep(s, order[0]);
      InvRun(StepOf(s, order[0]), order[1..]);
    }
  }

  predicate Finished(s: State, t: int) {
    t in s.threads ==> s.threads[t].rest == []
  }

  /** A thread that holds a lock is not finished and not at a gate. */
  lemma HolderMoves(s: State, t: int, l: Lock)
    requires Inv(s) && t in s.threads && l in s.threads[t].held
    ensures !Finished(s, t)
    ensures !s.threads[t].rest[0].AwaitGate?
    ensures s.threads[t].rest[0].Acquire? ==> Rank(l) < Rank(s.threads[t].rest[0].l)
  {
    assert ThreadOk(s, t);
  }

  /** Follow the locks upward: whoever blocks is blocked by someone who can move. */
  lemma {:induction false} SomeoneMoves(s: State, t: int)
    requires Inv(s) && t in s.threads && s.threads[t].rest != [] && !s.threads[t].rest[0].AwaitGate?
    ensures exists u :: CanStep(s, u)
    decreases if s.threads[t].rest[0].Acquire? then 2 - Rank(s.threads[t].rest[0].l) else 3
  {
    if CanStep(s, t) {
    } else {
      var l := s.threads[t].rest[0].l;
      var u :| u in s.threads && l in s.threads[u].held;
      HolderMoves(s, u, l);
      if s.threads[u].rest[0].Acquire? {
        SomeoneMoves(s, u);
      } else {
        assert CanStep(s, u);
      }
    }
  }

  predicate OnlyAccepts(ops: seq<Operation>) {
    forall i | 0 <= i < |ops| :: ops[i].AcceptGnb?
  }

  /** Each cleanup's gate is opened by a thread that only accepts connections. */
  ghost predicate GatesServed(work: map<int, seq<Operation>>) {
    forall t, c :: t in work && CleanupGnb(c) in work[t] ==>
      exists acceptor :: acceptor in work && AcceptGnb(c) in work[acceptor] && OnlyAccepts(work[acceptor])
  }

  lemma OnlyCleanupAwaits(op: Operation, c: int)
    requires Await(c) in Sections(op)
    ensures op == CleanupGnb(c)
  {
    var i :| 0 <= i < |Sections(op)| && Sections(op)[i] == Await(c);
    assert |Sections(op)| <= 5;
    assert i == 0 || i == 1 || i == 2 || i == 3 || i == 4;
  }

  lemma {:induction false} NoGateInEach(ids: seq<int>, c: int)
    ensures AwaitGate(c) !in EachAmf(ids) && AwaitGate(c) !in EachGnb(ids) && AwaitGate(c) !in EachSend(ids)
  {
    if ids != [] {
      NoGateInEach(ids[1..], c);
    }
  }

  lemma {:induction false} GateInScript(sections: seq<Section>, c: int)
    ensures AwaitGate(c) in Script(sections) <==> Await(c) in sections
    ensures Open(c) in sections ==> OpenGate(c) in Script(sections)
  {
    if sections != [] {
      GateInScript(sections[1..], c);
      match sections[0] {
        case PickOver(ids) => NoGateInEach(ids, c);
        case FindOver(ids) => NoGateInEach(ids, c);
        case SendTo(ids) => NoGateInEach(ids, c);
        case _ =>
      }
    }
  }

  lemma {:induction false} AwaitsInCleanup(ops: seq<Operation>, c: int)
    requires AwaitGate(c) in Program(ops)
    ensures CleanupGnb(c) in ops
  {
    if AwaitGate(c) in Script(Sections(ops[0])) {
      GateInScript(Sections(ops[0]), c);
      OnlyCleanupAwaits(ops[0], c);
    } else {
      AwaitsInCleanup(ops[1..], c);
    }
  }

  lemma AcceptScript(c: int)
    ensures !Awaits(Script(Sections(AcceptGnb(c)))) && OpenGate(c) in Script(Sections(AcceptGnb(c)))
  {
    var sections := Sections(AcceptGnb(c));
    var script := Script(sections);
    assert sections[2] == Open(c);
    GateInScript(sections, c);
    forall i | 0 <= i < |script| ensures !script[i].AwaitGate? {
      if script[i].AwaitGate? {
        GateInScript(sections, script[i].c);
      }
    }
  }

  lemma NoneAwaits(p: seq<Op>, q: seq<Op>)
    requires !Awaits(p) && !Awaits(q)
    ensures !Awaits(p + q)
  {
  }

  lemma {:induction false} AcceptorProgram(ops: seq<Operation>, c: int)
    requires OnlyAccepts(ops)
    ensures !Awaits(Program(ops))
    ensures AcceptGnb(c) in ops ==> OpenGate(c) in Program(ops)
  {
    if ops != [] {
      assert OnlyAccepts(ops[1..]);
      AcceptorProgram(ops[1..], c);
      AcceptScript(ops[0].c);
      NoneAwaits(Script(Sections(ops[0])), Program(ops[1..]));
    }
  }

  /** Deadlock freedom: whatever operations the threads run and however they interleave, as long as
      some thread is not finished, some thread can move. */
  lemma DeadlockFree(work: map<int, seq<Operation>>, order: seq<int>)
    requires GatesServed(work) && Legal(Start(work), order)
    ensures (forall t :: Finished(Exec(Start(work), order), t)) || exists t :: CanStep(Exec(Start(work), order), t)
  {
    var s0 := Start(work);
    forall t ensures ThreadOk(s0, t) { if t in work { ProgramOk(work[t]); } }
    forall t, c | t in s0.threads && AwaitGate(c) in s0.threads[t].rest ensures Served(s0, c) {
      AwaitsInCleanup(work[t], c);
      var acceptor :| acceptor in work && AcceptGnb(c) in work[acceptor] && OnlyAccepts(work[acceptor]);
      AcceptorProgram(work[acceptor], c);
      assert WillOpen(s0, acceptor, c);
    }
    InvRun(s0, order);
    var s := Exec(s0, order);
    if t :| !Finished(s, t) {
      var rest := s.threads[t].rest;
      if rest[0].AwaitGate? && rest[0].c !in s.gates {
        assert AwaitGate(rest[0].c) in rest && Served(s, rest[0].c);
        var opener :| WillOpen(s, opener, rest[0].c);
        assert !s.threads[opener].rest[0].AwaitGate?;
        SomeoneMoves(s, opener);
      } else if rest[0].AwaitGate? {
        assert CanStep(s, t);
      } else {
        SomeoneMoves(s, t);
      }
    }
  }
}
