/** The registration admission gate: a policy that operators replace under a lock, and counters that
    handlers raise without it. The token bucket is abstract: a limiter either grants or reports an
    error. Rates are reals. */
module Admission {
  import opened FiniteSets
  import opened Options

  datatype Limit = Unlimited | PerSecond(rate: real)
  datatype Limiter = Limiter(limit: Limit, burst: int)

  datatype Policy = Policy(mode: string, enabled: bool, rate: real, burst: int)

  const OPEN := "OPEN"
  const MILD := "MILD_PROTECTION"
  const STRONG := "STRONG_PROTECTION"
  const RECOVERY := "RECOVERY"
  const CUSTOM := "CUSTOM"

  datatype Update = Update(mode: string, enabled: Option<bool>, rate: Option<real>, burst: Option<int>)

  /** The policy an update asks for, or None when it is rejected. */
  function PolicyOf(u: Update): Option<Policy> {
    if u.mode == OPEN then Some(Policy(OPEN, false, 0.0, 1000))
    else if u.mode == MILD then Some(Policy(MILD, true, 25.0, 10))
    else if u.mode == STRONG then Some(Policy(STRONG, true, 15.0, 5))
    else if u.mode == RECOVERY then Some(Policy(RECOVERY, true, 35.0, 15))
    else if u.mode == CUSTOM && u.rate.Some? && u.burst.Some? && u.rate.value > 0.0 && u.burst.value > 0 then
      Some(Policy(CUSTOM, u.enabled.GetOr(true), u.rate.value, u.burst.value))
    else None
  }

  function LimiterOf(p: Policy): Limiter {
    Limiter(if p.enabled then PerSecond(p.rate) else Unlimited, p.burst)
  }

  /** Positive burst always, positive rate when enabled. */
  predicate Sound(p: Policy) {
    p.burst > 0 && (p.enabled ==> p.rate > 0.0)
  }

  /** A named preset, or a complete and positive CUSTOM update. */
  predicate Acceptable(u: Update) {
    || u.mode in {"OPEN", "MILD_PROTECTION", "STRONG_PROTECTION", "RECOVERY"}
    || (u.mode == "CUSTOM" && u.rate.Some? && u.burst.Some? && u.rate.value > 0.0 && u.burst.value > 0)
  }

  /** Exactly these updates are accepted, and each gives a sound policy under its own name. A CUSTOM one is
      given its own rate and burst, and its own flag, which is on when absent. */
  lemma AcceptedPolicies(u: Update)
    ensures PolicyOf(u).Some? <==> Acceptable(u)
    ensures PolicyOf(u).Some? ==> Sound(PolicyOf(u).value) && PolicyOf(u).value.mode == u.mode
    ensures PolicyOf(u).Some? && u.mode == "CUSTOM" ==>
              var p := PolicyOf(u).value;
              p.rate == u.rate.value && p.burst == u.burst.value && (p.enabled <==> u.enabled != Some(false))
    ensures PolicyOf(u).Some? && u.mode != "CUSTOM" ==> (PolicyOf(u).value.enabled <==> u.mode != "OPEN")
  {
  }

  /** Whatever else an update says, the presets limit in this order: strong, mild, recovery, and open not at
      all. */
  lemma PresetsOrdered(strong: Update, mild: Update, recovery: Update, open: Update)
    requires strong.mode == "STRONG_PROTECTION" && mild.mode == "MILD_PROTECTION"
    requires recovery.mode == "RECOVERY" && open.mode == "OPEN"
    ensures PolicyOf(strong).Some? && PolicyOf(mild).Some? && PolicyOf(recovery).Some? && PolicyOf(open).Some?
    ensures var s, m, r, o := LimiterOf(PolicyOf(strong).value), LimiterOf(PolicyOf(mild).value),
                              LimiterOf(PolicyOf(recovery).value), LimiterOf(PolicyOf(open).value);
            && s.limit.PerSecond? && m.limit.PerSecond? && r.limit.PerSecond? && o.limit.Unlimited?
            && 0.0 < s.limit.rate < m.limit.rate < r.limit.rate && 0 < s.burst < m.burst < r.burst < o.burst
  {
  }

  class AdmissionManager {
    var policy: Policy
    var limiter: Limiter
    var admitted: nat
    var waited: nat
    var totalWaitMs: nat

    ghost predicate Valid()
      reads this
    {
      Sound(policy) && limiter == LimiterOf(policy) && waited <= admitted
    }

    constructor ()
      ensures Valid() && policy == Policy(OPEN, false, 0.0, 1000)
      ensures admitted == waited == totalWaitMs == 0
    {
      policy := Policy(OPEN, false, 0.0, 1000);
      limiter := Limiter(Unlimited, 1000);
      admitted, waited, totalWaitMs := 0, 0, 0;
    }

    method SetPolicy(mode: string, enabled: bool, rate: real, burst: int)
      modifies this`policy, this`limiter
      ensures policy == Policy(mode, enabled, rate, burst) && limiter == LimiterOf(policy)
      ensures limiter == Limiter(if enabled then PerSecond(rate) else Unlimited, burst)
    {
      policy := Policy(mode, enabled, rate, burst);
      if enabled {
        limiter := Limiter(PerSecond(rate), burst);
      } else {
        limiter := Limiter(Unlimited, burst);
      }
    }

    /** A rejected update changes nothing; an accepted one puts its own numbers in force. */
    method ApplyUpdate(u: Update) returns (ok: bool)
      requires Valid()
      modifies this`policy, this`limiter
      ensures Valid()
      ensures ok <==> PolicyOf(u).Some?
      ensures policy == if ok then PolicyOf(u).value else old(policy)
      ensures !ok ==> limiter == old(limiter)
      ensures ok <==> Acceptable(u)
      ensures ok ==> policy.mode == u.mode
      ensures ok && u.mode == "CUSTOM" ==>
                && limiter.limit == (if u.enabled == Some(false) then Unlimited else PerSecond(u.rate.value))
                && limiter.burst == u.burst.value && policy.burst == u.burst.value
                && policy.rate == u.rate.value && policy.enabled == (u.enabled != Some(false))
      ensures ok && u.mode == "OPEN" ==> limiter.limit == Unlimited && !policy.enabled
      ensures ok && u.mode == "MILD_PROTECTION" ==> limiter == Limiter(PerSecond(25.0), 10) && policy.enabled
      ensures ok && u.mode == "STRONG_PROTECTION" ==> limiter == Limiter(PerSecond(15.0), 5) && policy.enabled
      ensures ok && u.mode == "RECOVERY" ==> limiter == Limiter(PerSecond(35.0), 15) && policy.enabled
    {
      if u.mode == OPEN {
        SetPolicy(OPEN, false, 0.0, 1000);
      } else if u.mode == MILD {
        SetPolicy(MILD, true, 25.0, 10);
      } else if u.mode == STRONG {
        SetPolicy(STRONG, true, 15.0, 5);
      } else if u.mode == RECOVERY {
        SetPolicy(RECOVERY, true, 35.0, 15);
      } else if u.mode == CUSTOM {
        if u.rate.None? || u.burst.None? || u.rate.value <= 0.0 || u.burst.value <= 0 {
          return false;
        }
        var enabled := true;
        if u.enabled.Some? {
          enabled := u.enabled.value;
        }
        SetPolicy(CUSTOM, enabled, u.rate.value, u.burst.value);
      } else {
        return false;
      }
      ok := true;
    }

    /** `grant` is the limiter's answer: the milliseconds waited, or None for an error or a timeout. */
    method Wait(grant: Option<nat>) returns (ok: bool)
      requires Valid()
      modifies this`admitted, this`waited, this`totalWaitMs
      ensures Valid()
      ensures ok <==> !policy.enabled || grant.Some?
      ensures admitted == old(admitted) + if ok then 1 else 0
      ensures var ms := if policy.enabled then grant.GetOr(0) else 0;
              waited == old(waited) + (if ms > 0 then 1 else 0) && totalWaitMs == old(totalWaitMs) + ms
    {
      if !policy.enabled {
        admitted := admitted + 1;
        return true;
      }
      if grant.None? {
        return false;
      }
      admitted := admitted + 1;
      if grant.value > 0 {
        waited := waited + 1;
        totalWaitMs := totalWaitMs + grant.value;
      }
      ok := true;
    }
  }

  // ---------- any number of handlers and operators ----------

  /** A handler of one InitialUEMessage, from the gate to its single context creation. */
  datatype Handler =
    | Arriving
    | Snapshot(enabled: bool, limiter: Limiter)   // read together under the lock
    | Granted(ms: nat)                            // by the limiter, not counted yet
    | Counted(ms: nat)                            // admitted raised, waited not yet
    | Admitted                                    // wait returned nil
    | Created
    | Refused

  /** `past` holds every policy that was ever in force. */
  datatype State = State(policy: Policy, limiter: Limiter, past: set<Policy>, handlers: map<int, Handler>,
                         admitted: nat, waited: nat, created: nat)

  const START := Policy(OPEN, false, 0.0, 1000)
  const INIT := State(START, Limiter(Unlimited, 1000), {START}, map[], 0, 0, 0)

  datatype Step =
    | Arrive(h: int)
    | ReadPolicy(h: int)
    | PassOpen(h: int)
    | Limit(h: int, grant: Option<nat>)
    | CountAdmitted(h: int)
    | CountWaited(h: int)
    | CreateContext(h: int)
    | FailAfterGate(h: int)           // no AMF to pick
    | Operate(u: Update)

  predicate Enabled(s: State, step: Step) {
    match step
    case Arrive(h) => h !in s.handlers
    case ReadPolicy(h) => h in s.handlers && s.handlers[h].Arriving?
    case PassOpen(h) => h in s.handlers && s.handlers[h].Snapshot? && !s.handlers[h].enabled
    case Limit(h, _) => h in s.handlers && s.handlers[h].Snapshot? && s.handlers[h].enabled
    case CountAdmitted(h) => h in s.handlers && s.handlers[h].Granted?
    case CountWaited(h) => h in s.handlers && s.handlers[h].Counted?
    case CreateContext(h) => h in s.handlers && s.handlers[h].Admitted?
    case FailAfterGate(h) => h in s.handlers && s.handlers[h].Admitted?
    case Operate(_) => true
  }

  function Move(s: State, h: int, next: Handler): State {
    s.(handlers := s.handlers[h := next])
  }

  function Apply(s: State, step: Step): State
    requires Enabled(s, step)
  {
    match step
    case Arrive(h) => Move(s, h, Arriving)
    case ReadPolicy(h) => Move(s, h, Snapshot(s.policy.enabled, s.limiter))
    case PassOpen(h) => Move(s, h, Admitted).(admitted := s.admitted + 1)
    case Limit(h, grant) => Move(s, h, if grant.Some? then Granted(grant.value) else Refused)
    case CountAdmitted(h) => Move(s, h, Counted(s.handlers[h].ms)).(admitted := s.admitted + 1)
    case CountWaited(h) =>
      Move(s, h, Admitted).(waited := if s.handlers[h].ms > 0 then s.waited + 1 else s.waited)
    case CreateContext(h) => Move(s, h, Created).(created := s.created + 1)
    case FailAfterGate(h) => Move(s, h, Refused)
    case Operate(u) =>
      match PolicyOf(u)
      case Some(p) => s.(policy := p, limiter := LimiterOf(p), past := s.past + {p})
      case None => s
  }

  predicate Legal(s: State, steps: seq<Step>)
    decreases |steps|
  {
    steps == [] || (Enabled(s, steps[0]) && Legal(Apply(s, steps[0]), steps[1..]))
  }

  function Exec(s: State, steps: seq<Step>): State
    requires Legal(s, steps)
    decreases |steps|
  {
    if steps == [] then s else Exec(Apply(s, steps[0]), steps[1..])
  }

  /** Handlers admitted but not created yet, and those whose wait may still be counted. */
  function BeforeCreation(s: State): set<int> {
    set h | h in s.handlers && (s.handlers[h].Counted? || s.handlers[h].Admitted?)
  }

  function BeforeWaited(s: State): set<int> {
    set h | h in s.handlers && s.handlers[h].Counted?
  }

  /** Some accepted update asks for the policy. */
  ghost predicate Offered(p: Policy) {
    exists u :: PolicyOf(u) == Some(p)
  }

  /** The flag and the limiter of a handler are those of one policy that was in force. */
  ghost predicate Paired(s: State, h: int) {
    h in s.handlers && s.handlers[h].Snapshot? ==>
      exists p :: p in s.past && s.handlers[h].enabled == p.enabled && s.handlers[h].limiter == LimiterOf(p)
  }

  ghost predicate Inv(s: State) {
    && s.policy in s.past && s.limiter == LimiterOf(s.policy)
    && (forall p :: p in s.past ==> Offered(p))
    && (forall h :: Paired(s, h))
    && s.created + |BeforeCreation(s)| <= s.admitted
    && s.waited + |BeforeWaited(s)| <= s.admitted
  }

  lemma PairedStep(s: State, step: Step, h: int)
    requires Enabled(s, step) && s.policy in s.past && s.limiter == LimiterOf(s.policy) && Paired(s, h)
    ensures Paired(Apply(s, step), h)
  {
  }

  lemma InvStep(s: State, step: Step)
    requires Inv(s) && Enabled(s, step)
    ensures Inv(Apply(s, step))
  {
    var s' := Apply(s, step);
    forall h ensures Paired(s', h) {
      assert Paired(s, h);
      PairedStep(s, step, h);
    }
    if step.Operate? {
      assert BeforeCreation(s') == BeforeCreation(s) && BeforeWaited(s') == BeforeWaited(s);
    } else {
      Resized(BeforeCreation(s), BeforeCreation(s'), step.h);
      Resized(BeforeWaited(s), BeforeWaited(s'), step.h);
    }
  }

  lemma {:induction false} InvRun(s: State, steps: seq<Step>)
    requires Inv(s) && Legal(s, steps)
    ensures Inv(Exec(s, steps))
    decreases |steps|
  {
    if steps != [] {
      InvStep(s, steps[0]);
      InvRun(Apply(s, steps[0]), steps[1..]);
    }
  }

  /** Admission conservation: at every interleaving point the contexts ever created and the waits ever
      counted are at most the admissions; every policy ever in force is sound, and the limiter in force
      is the policy's own; and a handler holds the flag and the limiter of one such policy. */
  lemma AdmissionConserved(steps: seq<Step>, h: int)
    requires Legal(INIT, steps)
    ensures var s := Exec(INIT, steps);
            && s.created <= s.admitted && s.waited <= s.admitted
            && s.policy in s.past && s.limiter == LimiterOf(s.policy)
            && (forall p :: p in s.past ==> Sound(p) && Offered(p))
            && (h in s.handlers && s.handlers[h].Snapshot? ==>
                  exists p :: p in s.past && s.handlers[h].enabled == p.enabled &&
                              s.handlers[h].limiter == LimiterOf(p))
  {
    assert BeforeCreation(INIT) == {} && BeforeWaited(INIT) == {};
    assert PolicyOf(Update(OPEN, None, None, None)) == Some(START);
    InvRun(INIT, steps);
    forall p | p in Exec(INIT, steps).past ensures Sound(p) {
      var u :| PolicyOf(u) == Some(p);
      AcceptedPolicies(u);
    }
    assert Paired(Exec(INIT, steps), h);
  }
}
