/** How far apart least-load picking lets the AMFs' loads drift. `Pick` holds the manager's lock and
    reads the AMFs' table sizes one at a time, in any order, while Downlink NAS messages grow them.
    A registration is outstanding from the start of its pick until its first Downlink NAS files it
    under a fresh AMF ID; at most W are outstanding at any time. */
module LoadBound {
  import opened FiniteSets
  import opened Options

  /** A running pick: the AMFs read so far, and the least load read with its AMF. */
  datatype Scan = Scan(seen: set<int>, best: Option<(int, nat)>)

  datatype State = State(
    tables: map<int, set<int>>,      // AMF -> its table's keys
    pending: map<int, int>,          // outstanding registration -> picked AMF
    scan: Option<Scan>)              // at most one: Pick holds the manager's lock

  datatype Step =
    | StartPick
    | ReadLoad(a: int)
    | FinishPick(reg: int)
    | FirstDownlink(reg: int, amfUeId: int)
    | AmfLeaves(a: int)

  function Load(s: State, a: int): nat
    requires a in s.tables
  {
    |s.tables[a]|
  }

  function PendingAt(s: State, a: int): set<int> {
    set reg | reg in s.pending && s.pending[reg] == a
  }

  function Outstanding(s: State): nat {
    |s.pending| + if s.scan.Some? then 1 else 0
  }

  predicate Enabled(s: State, step: Step, w: nat) {
    match step
    case StartPick => s.scan.None? && Outstanding(s) + 1 <= w
    case ReadLoad(a) => s.scan.Some? && a in s.tables && a !in s.scan.value.seen
    case FinishPick(reg) =>
      s.scan.Some? && s.scan.value.seen == s.tables.Keys && s.scan.value.best.Some? && reg !in s.pending
    case FirstDownlink(reg, x) =>
      reg in s.pending && (s.pending[reg] in s.tables ==> x !in s.tables[s.pending[reg]])
    case AmfLeaves(a) => s.scan.None? && a in s.tables   // Remove needs the manager's lock
  }

  /** `Pick`'s loop body: a strictly smaller load replaces the best so far. */
  function Better(best: Option<(int, nat)>, a: int, load: nat): Option<(int, nat)> {
    if best.None? || load < best.value.1 then Some((a, load)) else best
  }

  function Apply(s: State, step: Step, w: nat): State
    requires Enabled(s, step, w)
  {
    match step
    case StartPick => s.(scan := Some(Scan({}, None)))
    case ReadLoad(a) =>
      s.(scan := Some(Scan(s.scan.value.seen + {a}, Better(s.scan.value.best, a, Load(s, a)))))
    case FinishPick(reg) => s.(pending := s.pending[reg := s.scan.value.best.value.0], scan := None)
    case FirstDownlink(reg, x) =>
      var a := s.pending[reg];
      s.(pending := s.pending - {reg},
         tables := if a in s.tables then s.tables[a := s.tables[a] + {x}] else s.tables)
    case AmfLeaves(a) => s.(tables := s.tables - {a})
  }

  predicate Legal(s: State, steps: seq<Step>, w: nat)
    decreases |steps|
  {
    steps == [] || (Enabled(s, steps[0], w) && Legal(Apply(s, steps[0], w), steps[1..], w))
  }

  function Exec(s: State, steps: seq<Step>, w: nat): State
    requires Legal(s, steps, w)
    decreases |steps|
  {
    if steps == [] then s else Exec(Apply(s, steps[0], w), steps[1..], w)
  }

  function Start(amfs: set<int>): State {
    State(map a | a in amfs :: {}, map[], None)
  }

  // ---------- the invariant ----------

  /** Confirmed and pending load of an AMF. */
  function Burden(s: State, a: int): nat
    requires a in s.tables
  {
    Load(s, a) + |PendingAt(s, a)|
  }

  ghost predicate Bounded(s: State, w: nat) {
    forall a, b :: a in s.tables && b in s.tables ==> Burden(s, a) <= Load(s, b) + w
  }

  /** The best load read may be stale, but no AMF read so far has dropped below it, and what its own
      AMF gained since was pending when it was read. */
  ghost predicate ScanOk(s: State, w: nat) {
    && (s.scan.Some? && s.scan.value.seen == {} ==> s.scan.value.best.None?)
    && (s.scan.Some? && s.scan.value.seen != {} ==>
      && s.scan.value.best.Some? && s.scan.value.best.value.0 in s.tables
      && Burden(s, s.scan.value.best.value.0) + 1 <= s.scan.value.best.value.1 + w
      && forall b :: b in s.scan.value.seen && b in s.tables ==> s.scan.value.best.value.1 <= Load(s, b))
  }

  ghost predicate Inv(s: State, w: nat) {
    Outstanding(s) <= w && Bounded(s, w) && ScanOk(s, w)
  }

  lemma PendingSize(s: State, a: int)
    ensures |PendingAt(s, a)| <= |s.pending|
  {
    SubsetSize(PendingAt(s, a), s.pending.Keys);
  }

  lemma FinishKeeps(s: State, reg: int, w: nat)
    requires Inv(s, w) && Enabled(s, FinishPick(reg), w)
    ensures Inv(Apply(s, FinishPick(reg), w), w)
  {
    var s' := Apply(s, FinishPick(reg), w);
    var picked := s.scan.value.best.value.0;
    assert s'.pending.Keys == s.pending.Keys + {reg};
    forall a | a in s.tables
      ensures |PendingAt(s', a)| == |PendingAt(s, a)| + if a == picked then 1 else 0
    {
      if a == picked {
        assert PendingAt(s', a) == PendingAt(s, a) + {reg};
      } else {
        assert PendingAt(s', a) == PendingAt(s, a);
      }
    }
    assert |s'.pending| == |s.pending| + 1;
    forall a, b | a in s'.tables && b in s'.tables ensures Burden(s', a) <= Load(s', b) + w {
      assert b in s.scan.value.seen && Burden(s, a) <= Load(s, b) + w;
    }
  }

  lemma DownlinkKeeps(s: State, reg: int, x: int, w: nat)
    requires Inv(s, w) && Enabled(s, FirstDownlink(reg, x), w)
    ensures Inv(Apply(s, FirstDownlink(reg, x), w), w)
  {
    var s' := Apply(s, FirstDownlink(reg, x), w);
    var home := s.pending[reg];
    assert s'.pending.Keys == s.pending.Keys - {reg};
    forall a | a in s.tables
      ensures a in s'.tables && Burden(s', a) == Burden(s, a) && Load(s, a) <= Load(s', a)
    {
      if a == home {
        assert PendingAt(s', a) == PendingAt(s, a) - {reg};
        assert reg in PendingAt(s, a);
      } else {
        assert PendingAt(s', a) == PendingAt(s, a);
      }
    }
    assert s'.tables.Keys == s.tables.Keys;
  }

  lemma ReadKeeps(s: State, a: int, w: nat)
    requires Inv(s, w) && Enabled(s, ReadLoad(a), w)
    ensures Inv(Apply(s, ReadLoad(a), w), w)
  {
    var s' := Apply(s, ReadLoad(a), w);
    PendingSize(s, a);
    assert forall b :: b in s.tables ==> PendingAt(s', b) == PendingAt(s, b) && Burden(s', b) == Burden(s, b);
  }

  lemma InvStep(s: State, step: Step, w: nat)
    requires Inv(s, w) && Enabled(s, step, w)
    ensures Inv(Apply(s, step, w), w)
  {
    match step {
      case ReadLoad(a) => ReadKeeps(s, a, w);
      case FinishPick(reg) => FinishKeeps(s, reg, w);
      case FirstDownlink(reg, x) => DownlinkKeeps(s, reg, x, w);
      case _ =>
        var s' := Apply(s, step, w);
        assert forall b :: PendingAt(s', b) == PendingAt(s, b);
        assert forall b :: b in s'.tables ==>
                 b in s.tables && Burden(s', b) == Burden(s, b) && Load(s', b) == Load(s, b);
    }
  }

  lemma {:induction false} InvRun(s: State, steps: seq<Step>, w: nat)
    requires Inv(s, w) && Legal(s, steps, w)
    ensures Inv(Exec(s, steps, w), w)
    decreases |steps|
  {
    if steps != [] {
      InvStep(s, steps[0], w);
      InvRun(Apply(s, steps[0], w), steps[1..], w);
    }
  }

  /** Load bound: in every run, no two AMFs' table sizes ever differ by more than W, even counting
      what is still pending on the larger side. */
  lemma LoadsStayWithin(amfs: set<int>, steps: seq<Step>, w: nat, a: int, b: int)
    requires Legal(Start(amfs), steps, w)
    requires a in Exec(Start(amfs), steps, w).tables && b in Exec(Start(amfs), steps, w).tables
    ensures var s := Exec(Start(amfs), steps, w);
            Load(s, a) + |PendingAt(s, a)| <= Load(s, b) + w
  {
    var s0 := Start(amfs);
    assert forall c :: PendingAt(s0, c) == {};
    InvRun(s0, steps, w);
    var s := Exec(s0, steps, w);
    assert Burden(s, a) <= Load(s, b) + w;
  }

  // ---------- the bound is tight ----------

  /** A run can be extended by any enabled step. */
  lemma {:induction false} Extend(s: State, steps: seq<Step>, step: Step, w: nat) returns (longer: seq<Step>)
    requires Legal(s, steps, w) && Enabled(Exec(s, steps, w), step, w)
    ensures Legal(s, longer, w) && Exec(s, longer, w) == Apply(Exec(s, steps, w), step, w)
    decreases |steps|
  {
    if steps == [] {
      longer := [step];
      assert longer[1..] == [] && Legal(Apply(s, step, w), [], w);
    } else {
      var rest := Extend(Apply(s, steps[0], w), steps[1..], step, w);
      longer := [steps[0]] + rest;
      assert longer[1..] == rest;
    }
  }

  predicate Within(x: int, lo: int, hi: int) {
    lo <= x < hi
  }

  function Range(lo: int, hi: int): (r: set<int>)
    ensures forall x :: x in r <==> Within(x, lo, hi)
  {
    set x | lo <= x < hi && Within(x, lo, hi)
  }

  lemma {:induction false} RangeSize(n: nat)
    ensures |Range(0, n)| == n
  {
    if n > 0 {
      RangeSize(n - 1);
      assert Range(0, n) == Range(0, n - 1) + {n - 1};
    }
  }

  /** Two empty AMFs, the first n registrations pending on AMF 0. */
  function Piled(n: nat): State {
    State(map[0 := {}, 1 := {}], map reg | reg in Range(0, n) :: 0, None)
  }

  /** AMF 0 has filed k registrations, those from k to n are pending on it. */
  function Filed(k: nat, n: nat): State
    requires k <= n
  {
    State(map[0 := Range(0, k), 1 := {}], map reg | reg in Range(k, n) :: 0, None)
  }

  /** `Piled(n)` while a pick is running. */
  function Picking(n: nat, scan: Scan): State {
    Piled(n).(scan := Some(scan))
  }

  /** With nothing filed yet, a pick that reads AMF 0 first picks it, whatever is pending. */
  lemma PickReads(n: nat, w: nat)
    ensures var s1, s2 := Picking(n, Scan({}, None)), Picking(n, Scan({0}, Some((0, 0))));
            && Enabled(s1, ReadLoad(0), w) && Apply(s1, ReadLoad(0), w) == s2
            && Enabled(s2, ReadLoad(1), w) && Apply(s2, ReadLoad(1), w) == Picking(n, Scan({0, 1}, Some((0, 0))))
  {
    assert {} + {0} == {0} && {0} + {1} == {0, 1};
  }

  lemma PickStarts(n: nat, w: nat)
    requires n < w
    ensures Enabled(Piled(n), StartPick, w) && Apply(Piled(n), StartPick, w) == Picking(n, Scan({}, None))
  {
    assert Piled(n).pending.Keys == Range(0, n);
    RangeSize(n);
  }

  lemma PickFinishes(n: nat, w: nat)
    ensures var s3 := Picking(n, Scan({0, 1}, Some((0, 0))));
            Enabled(s3, FinishPick(n), w) && Apply(s3, FinishPick(n), w) == Piled(n + 1)
  {
    assert Piled(n).tables.Keys == {0, 1};
    assert Piled(n).pending[n := 0] == Piled(n + 1).pending;
  }

  lemma PickZero(s0: State, before: seq<Step>, n: nat, w: nat) returns (steps: seq<Step>)
    requires n < w && Legal(s0, before, w) && Exec(s0, before, w) == Piled(n)
    ensures Legal(s0, steps, w) && Exec(s0, steps, w) == Piled(n + 1)
  {
    PickStarts(n, w);
    PickReads(n, w);
    PickFinishes(n, w);
    steps := Extend(s0, before, StartPick, w);
    steps := Extend(s0, steps, ReadLoad(0), w);
    steps := Extend(s0, steps, ReadLoad(1), w);
    steps := Extend(s0, steps, FinishPick(n), w);
  }

  lemma {:induction false} PileUp(n: nat, w: nat) returns (steps: seq<Step>)
    requires n <= w
    ensures Legal(Piled(0), steps, w) && Exec(Piled(0), steps, w) == Piled(n)
  {
    if n == 0 {
      steps := [];
    } else {
      steps := PileUp(n - 1, w);
      steps := PickZero(Piled(0), steps, n - 1, w);
    }
  }

  lemma FileOne(k: nat, n: nat, w: nat)
    requires k < n
    ensures Enabled(Filed(k, n), FirstDownlink(k, k), w)
    ensures Apply(Filed(k, n), FirstDownlink(k, k), w) == Filed(k + 1, n)
  {
    var s := Filed(k, n);
    assert s.pending.Keys == Range(k, n) && s.tables[0] == Range(0, k) && s.tables[1] == {};
    var s' := Apply(s, FirstDownlink(k, k), w);
    var filed, left := Range(0, k + 1), Range(k + 1, n);
    assert filed == Range(0, k) + {k} && left == Range(k, n) - {k};
    assert s'.tables == map[0 := filed, 1 := {}];
    assert s'.pending == map reg | reg in left :: 0;
  }

  lemma {:induction false} FileAll(s0: State, before: seq<Step>, k: nat, n: nat, w: nat) returns (steps: seq<Step>)
    requires k <= n && Legal(s0, before, w) && Exec(s0, before, w) == Filed(0, n)
    ensures Legal(s0, steps, w) && Exec(s0, steps, w) == Filed(k, n)
  {
    if k == 0 {
      steps := before;
    } else {
      steps := FileAll(s0, before, k - 1, n, w);
      FileOne(k - 1, n, w);
      steps := Extend(s0, steps, FirstDownlink(k - 1, k - 1), w);
    }
  }

  /** For every W there is a run that drives two AMFs exactly W apart. */
  lemma BoundIsTight(w: nat)
    ensures exists steps: seq<Step> ::
              && Legal(Start({0, 1}), steps, w)
              && var s := Exec(Start({0, 1}), steps, w);
                 0 in s.tables && 1 in s.tables && Load(s, 0) == Load(s, 1) + w
  {
    var picks := PileUp(w, w);
    var s0 := Start({0, 1});
    assert s0.tables == Piled(0).tables && s0.pending == Piled(0).pending;
    assert Range(0, 0) == {};
    assert Filed(0, w).tables == Piled(w).tables && Filed(0, w).pending == Piled(w).pending;
    var files := FileAll(s0, picks, w, w, w);
    RangeSize(w);
  }
}
