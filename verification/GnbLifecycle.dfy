/** The life of gNB connections: one acceptor, one read loop per connection, the `registered` gate
    between them, the manager's list, the atomic counter with its compare-and-swap loop, draining and
    shutdown. A step is one critical section or one atomic access; goroutines interleave freely. */
module GnbLifecycle {
  import opened FiniteSets
  import opened Options

  /** The accept loop and the callback it runs for connection `c`. */
  datatype Acceptor =
    | Listening
    | Accepted(c: int)       // draining not checked yet
    | Passed(c: int)         // draining seen false
    | Spawned(c: int)        // read loop running, gNB not added
    | Inserting(c: int)      // in the list, counter not incremented; the manager's lock is held
    | Added(c: int)          // gate still closed
    | Stopped

  /** A read loop and its deferred cleanup. */
  datatype Loop =
    | Reading
    | AtGate                 // onClose waits for `registered`
    | Removing               // deleted from the list, counter not decremented
    | Loaded(current: int)   // in the compare-and-swap loop
    | Cleaned                // onClose done
    | Finished               // wg.Done done

  datatype State = State(
    acceptor: Acceptor,
    loops: map<int, Loop>,
    gates: set<int>,         // closed `registered` channels
    gnbList: set<int>,
    active: int,
    draining: bool,
    closing: bool,           // Stop has closed the server
    monitoring: bool,        // the AMF monitor loop runs
    wg: int)

  /** After Start: the accept loop and the monitor loop hold the wait group. */
  const INIT := State(Listening, map[], {}, {}, 0, false, false, true, 2)

  datatype Step =
    | Accept(c: int) | CheckDraining | Spawn | Insert | Increment | OpenGate | StopAccepting
    | EndRead(c: int) | Delete(c: int) | LoadCounter(c: int) | Clamp(c: int) | CompareAndSwap(c: int) | Done(c: int)
    | SetDraining(value: bool) | CloseServer | MonitorEnds

  predicate At(s: State, c: int, l: Loop) {
    c in s.loops && s.loops[c] == l
  }

  predicate LoadedAt(s: State, c: int) {
    c in s.loops && s.loops[c].Loaded?
  }

  predicate Enabled(s: State, step: Step) {
    match step
    case Accept(c) => s.acceptor.Listening? && c !in s.loops && c !in s.gnbList
    case CheckDraining => s.acceptor.Accepted?
    case Spawn => s.acceptor.Passed?
    case Insert => s.acceptor.Spawned?
    case Increment => s.acceptor.Inserting?
    case OpenGate => s.acceptor.Added?
    case StopAccepting => s.acceptor.Listening? && s.closing
    case EndRead(c) => At(s, c, Reading)
    case Delete(c) => At(s, c, AtGate) && c in s.gates && !s.acceptor.Inserting?
    case LoadCounter(c) => At(s, c, Removing)
    case Clamp(c) => LoadedAt(s, c) && s.loops[c].current <= 0
    case CompareAndSwap(c) => LoadedAt(s, c) && s.loops[c].current > 0
    case Done(c) => At(s, c, Cleaned)
    case SetDraining(_) => true
    case CloseServer => true
    case MonitorEnds => s.monitoring
  }

  function Move(s: State, c: int, l: Loop): State {
    s.(loops := s.loops[c := l])
  }

  function Apply(s: State, step: Step): State
    requires Enabled(s, step)
  {
    match step
    case Accept(c) => s.(acceptor := Accepted(c))
    case CheckDraining => s.(acceptor := if s.draining then Listening else Passed(s.acceptor.c))
    case Spawn => Move(s, s.acceptor.c, Reading).(acceptor := Spawned(s.acceptor.c), wg := s.wg + 1)
    case Insert => s.(acceptor := Inserting(s.acceptor.c), gnbList := s.gnbList + {s.acceptor.c})
    case Increment => s.(acceptor := Added(s.acceptor.c), active := s.active + 1)
    case OpenGate => s.(acceptor := Listening, gates := s.gates + {s.acceptor.c})
    case StopAccepting => s.(acceptor := Stopped, wg := s.wg - 1)
    case EndRead(c) => Move(s, c, AtGate)
    case Delete(c) =>
      if c in s.gnbList then Move(s, c, Removing).(gnbList := s.gnbList - {c}) else Move(s, c, Cleaned)
    case LoadCounter(c) => Move(s, c, Loaded(s.active))
    case Clamp(c) => Move(s, c, Cleaned).(active := 0)
    case CompareAndSwap(c) =>
      if s.active == s.loops[c].current then Move(s, c, Cleaned).(active := s.active - 1) else Move(s, c, Removing)
    case Done(c) => Move(s, c, Finished).(wg := s.wg - 1)
    case SetDraining(value) => s.(draining := value)
    case CloseServer => s.(closing := true)
    case MonitorEnds => s.(monitoring := false, wg := s.wg - 1)
  }

  predicate Legal(s: State, steps: seq<Step>)
    decreases |steps|
  {
    steps == [] || (Enabled(s, steps[0]) && Legal(Apply(s, steps[0]), steps[1..]))
  }

  function Exec(s: State, steps: seq<Step>): State
    requires Legal(s, steps)
    decreases |steps|
  {
    if steps == [] then s else Exec(Apply(s, steps[0]), steps[1..])
  }

  // ---------- the invariant ----------

  /** Removals that have deleted but not yet decremented. */
  function Undecremented(s: State): set<int> {
    set c | c in s.loops && (s.loops[c].Removing? || s.loops[c].Loaded?)
  }

  function Unfinished(s: State): set<int> {
    set c | c in s.loops && !s.loops[c].Finished?
  }

  /** The connection whose callback the acceptor is running past the spawn, before the gate opens. */
  predicate Registering(a: Acceptor, c: int) {
    (a.Spawned? || a.Inserting? || a.Added?) && a.c == c
  }

  predicate LoopOk(s: State, c: int) {
    && (c in s.loops ==>
          && (c in s.gates || Registering(s.acceptor, c))
          && (c in s.gnbList <==> (s.loops[c].Reading? || s.loops[c].AtGate?) && s.acceptor != Spawned(c))
          && (!s.loops[c].Reading? && !s.loops[c].AtGate? ==> c in s.gates)
          && (s.loops[c].Loaded? ==> s.loops[c].current > 0))
    && (c !in s.loops ==> c !in s.gates && c !in s.gnbList && !Registering(s.acceptor, c))
    && (c in s.gates ==> !Registering(s.acceptor, c))
  }

  predicate CounterOk(s: State) {
    s.active == |s.gnbList| + |Undecremented(s)| - if s.acceptor.Inserting? then 1 else 0
  }

  predicate WaitGroupOk(s: State) {
    s.wg == |Unfinished(s)| + (if s.acceptor.Stopped? then 0 else 1) + (if s.monitoring then 1 else 0)
  }

  ghost predicate Inv(s: State) {
    && (forall c :: LoopOk(s, c))
    && ((s.acceptor.Accepted? || s.acceptor.Passed?) ==> s.acceptor.c !in s.loops)
    && CounterOk(s) && WaitGroupOk(s)
  }

  /** The connection that a step moves a loop of. */
  function Moved(s: State, step: Step): Option<int>
    requires Enabled(s, step)
  {
    match step
    case Spawn => Some(s.acceptor.c)
    case EndRead(c) => Some(c)
    case Delete(c) => Some(c)
    case LoadCounter(c) => Some(c)
    case Clamp(c) => Some(c)
    case CompareAndSwap(c) => Some(c)
    case Done(c) => Some(c)
    case _ => None
  }

  lemma MoveOne(s: State, step: Step)
    requires Enabled(s, step)
    ensures Moved(s, step).None? ==> Apply(s, step).loops == s.loops
    ensures Moved(s, step).Some? ==>
              var c := Moved(s, step).value;
              c in Apply(s, step).loops && Apply(s, step).loops == s.loops[c := Apply(s, step).loops[c]]
  {
  }

  predicate Decrementing(l: Loop) {
    l.Removing? || l.Loaded?
  }

  function One(b: bool): int {
    if b then 1 else 0
  }

  /** Moving one loop changes the two counted sets by that connection only. */
  lemma CountsMove(s: State, s': State, c: int)
    requires c in s'.loops && s'.loops == s.loops[c := s'.loops[c]]
    ensures |Undecremented(s')| ==
            |Undecremented(s)| - One(c in s.loops && Decrementing(s.loops[c])) + One(Decrementing(s'.loops[c]))
    ensures |Unfinished(s')| ==
            |Unfinished(s)| - One(c in s.loops && !s.loops[c].Finished?) + One(!s'.loops[c].Finished?)
  {
    Resized(Undecremented(s), Undecremented(s'), c);
    Resized(Unfinished(s), Unfinished(s'), c);
  }

  lemma CountsStay(s: State, s': State)
    requires s'.loops == s.loops
    ensures Undecremented(s') == Undecremented(s) && Unfinished(s') == Unfinished(s)
  {
  }

  lemma ListSize(s: State, step: Step)
    requires Inv(s) && Enabled(s, step)
    ensures |Apply(s, step).gnbList| == |s.gnbList| + One(step.Insert?) - One(step.Delete?)
  {
    if step.Insert? {
      assert LoopOk(s, s.acceptor.c);
    } else if step.Delete? {
      assert LoopOk(s, step.c);
    }
  }

  lemma CounterStep(s: State, step: Step)
    requires Inv(s) && Enabled(s, step)
    ensures CounterOk(Apply(s, step)) && !step.Clamp?
  {
    var s' := Apply(s, step);
    MoveOne(s, step);
    ListSize(s, step);
    if Moved(s, step).Some? {
      assert LoopOk(s, Moved(s, step).value);
      CountsMove(s, s', Moved(s, step).value);
    } else {
      CountsStay(s, s');
    }
  }

  lemma WaitGroupStep(s: State, step: Step)
    requires Inv(s) && Enabled(s, step)
    ensures WaitGroupOk(Apply(s, step))
  {
    var s' := Apply(s, step);
    MoveOne(s, step);
    if Moved(s, step).Some? {
      assert LoopOk(s, Moved(s, step).value);
      CountsMove(s, s', Moved(s, step).value);
    } else {
      CountsStay(s, s');
    }
  }

  /** A decrementing loop never loads a counter below one. */
  lemma CounterPositive(s: State, c: int)
    requires Inv(s) && At(s, c, Removing)
    ensures s.active > 0
  {
    assert c in Undecremented(s);
    if s.acceptor.Inserting? {
      assert LoopOk(s, s.acceptor.c);
      assert s.acceptor.c in s.gnbList;
    }
  }

  lemma LoopStep(s: State, step: Step, c: int)
    requires Inv(s) && Enabled(s, step) && !step.Clamp?
    ensures LoopOk(Apply(s, step), c)
  {
    assert LoopOk(s, c);
    MoveOne(s, step);
    if step.LoadCounter? {
      CounterPositive(s, step.c);
    }
  }

  lemma InvStep(s: State, step: Step)
    requires Inv(s) && Enabled(s, step)
    ensures Inv(Apply(s, step)) && !step.Clamp?
  {
    CounterStep(s, step);
    WaitGroupStep(s, step);
    forall c ensures LoopOk(Apply(s, step), c) { LoopStep(s, step, c); }
  }

  lemma {:induction false} InvRun(s: State, steps: seq<Step>)
    requires Inv(s) && Legal(s, steps)
    ensures Inv(Exec(s, steps))
    ensures forall i :: 0 <= i < |steps| ==> !steps[i].Clamp?
    decreases |steps|
  {
    if steps != [] {
      InvStep(s, steps[0]);
      InvRun(Apply(s, steps[0]), steps[1..]);
      assert forall i :: 0 < i < |steps| ==> steps[i] == steps[1..][i - 1];
    }
  }

  // ---------- main results ----------

  /** Counter conservation: at every point the counter is the list's size plus the removals not yet
      decremented (less the one insertion whose increment is under way inside the manager's lock), and
      the clamp to zero is never taken. */
  lemma CounterConserved(steps: seq<Step>)
    requires Legal(INIT, steps)
    ensures var s := Exec(INIT, steps);
            s.active + (if s.acceptor.Inserting? then 1 else 0) == |s.gnbList| + |Undecremented(s)|
    ensures forall i :: 0 <= i < |steps| ==> !steps[i].Clamp?
  {
    assert Undecremented(INIT) == {} && Unfinished(INIT) == {};
    InvRun(INIT, steps);
  }

  /** Cleanup gate: a connection is deleted only after it was added and its gate opened; the deletion
      always finds it; and once its cleanup is done it is not listed, nor is it ever added again. */
  lemma GateOrdersCleanup(steps: seq<Step>, c: int)
    requires Legal(INIT, steps)
    ensures var s := Exec(INIT, steps);
            && (Enabled(s, Delete(c)) ==> c in s.gnbList && c in s.gates)
            && (c in s.loops && (s.loops[c].Cleaned? || s.loops[c].Finished?) ==>
                  c !in s.gnbList && !Registering(s.acceptor, c) && !Enabled(s, Accept(c)))
            && (s.acceptor == Spawned(c) ==> c !in s.gates && c !in s.gnbList)
  {
    assert Undecremented(INIT) == {} && Unfinished(INIT) == {};
    InvRun(INIT, steps);
    assert LoopOk(Exec(INIT, steps), c);
  }

  /** Stop waits for the wait group: when it returns, every loop has finished, the list is empty and
      the counter is zero. */
  lemma StopLeavesNothing(steps: seq<Step>)
    requires Legal(INIT, steps) && Exec(INIT, steps).wg == 0
    ensures var s := Exec(INIT, steps);
            && s.acceptor.Stopped? && !s.monitoring && Unfinished(s) == {}
            && s.gnbList == {} && s.active == 0
  {
    assert Undecremented(INIT) == {} && Unfinished(INIT) == {};
    InvRun(INIT, steps);
    var s := Exec(INIT, steps);
    assert Undecremented(s) <= Unfinished(s);
    forall c ensures c !in s.gnbList {
      assert LoopOk(s, c);
      assert c in s.loops && !s.loops[c].Finished? ==> c in Unfinished(s);
    }
    assert s.gnbList == {};
  }

  // ---------- draining ----------

  /** Draining stays on during the whole run. */
  predicate KeepsDraining(s: State, steps: seq<Step>) {
    s.draining && forall i | 0 <= i < |steps| :: steps[i] != SetDraining(false)
  }

  function Inserts(steps: seq<Step>): nat {
    if steps == [] then 0 else (if steps[0].Insert? then 1 else 0) + Inserts(steps[1..])
  }

  /** The acceptor is already past the draining check, with its gNB not added yet. */
  function Committed(s: State): nat {
    if s.acceptor.Passed? || s.acceptor.Spawned? then 1 else 0
  }

  /** Draining safety: while draining stays on, at most the one gNB already past the check is added;
      with none committed, the list only shrinks. */
  lemma {:induction false} DrainingAdmitsAtMostOne(s: State, steps: seq<Step>)
    requires Legal(s, steps) && KeepsDraining(s, steps)
    ensures Inserts(steps) + Committed(Exec(s, steps)) <= Committed(s) <= 1
    ensures Committed(s) == 0 ==> Exec(s, steps).gnbList <= s.gnbList
    ensures Committed(s) == 1 ==> Exec(s, steps).gnbList <= s.gnbList + {s.acceptor.c}
    decreases |steps|
  {
    if steps != [] {
      var s1 := Apply(s, steps[0]);
      assert forall i :: 0 <= i < |steps| - 1 ==> steps[1..][i] == steps[i + 1];
      assert steps[0] != SetDraining(false);
      DrainingAdmitsAtMostOne(s1, steps[1..]);
    }
  }

  /** Once no gNB is committed, draining never lets the number of listed gNBs grow. */
  lemma DrainingNeverGrows(s: State, before: seq<Step>, after: seq<Step>)
    requires Legal(s, before) && KeepsDraining(s, before)
    requires Inserts(before) == 1 || Committed(s) == 0
    requires Legal(Exec(s, before), after) && KeepsDraining(Exec(s, before), after)
    ensures |Exec(Exec(s, before), after).gnbList| <= |Exec(s, before).gnbList|
  {
    DrainingAdmitsAtMostOne(s, before);
    DrainingAdmitsAtMostOne(Exec(s, before), after);
    SubsetSize(Exec(Exec(s, before), after).gnbList, Exec(s, before).gnbList);
  }
}
