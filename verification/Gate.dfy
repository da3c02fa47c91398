/**
 The bounded concurrency gate in front of expensive analytics endpoints: a cost
 budget, a bounded waiting room and one notify per release. Each method of the
 class is one critical section under the gate's lock; the module after it lets
 any number of callers interleave those sections.
 */
module Gate {
  datatype Config = Config(budget: int, cost: int, perTenantLimit: int, queueLimit: int)

  predicate ValidConfig(c: Config) {
    1 <= c.cost <= c.budget && 1 <= c.perTenantLimit && 0 <= c.queueLimit
  }

  function Max(a: int, b: int): int { if a < b then b else a }

  function Min(a: int, b: int): int { if a < b then a else b }

  // The bounds the constructor puts on its arguments.
  function Clamp(budget: int, cost: int, perTenantLimit: int, queueLimit: int): (c: Config)
    ensures ValidConfig(c)
    ensures budget >= 1 && 1 <= cost <= budget && perTenantLimit >= 1 && queueLimit >= 0
            ==> c == Config(budget, cost, perTenantLimit, queueLimit)
  {
    var b := Max(1, budget);
    Config(b, Max(1, Min(cost, b)), Max(1, perTenantLimit), Max(0, queueLimit))
  }

  // Arguments out of bounds are brought to the nearest bound.
  lemma ClampDecides(budget: int, cost: int, perTenantLimit: int, queueLimit: int)
    ensures var c := Clamp(budget, cost, perTenantLimit, queueLimit);
            && c.budget == (if budget < 1 then 1 else budget)
            && c.cost == (if cost < 1 then 1 else if cost > c.budget then c.budget else cost)
            && c.perTenantLimit == (if perTenantLimit < 1 then 1 else perTenantLimit)
            && c.queueLimit == (if queueLimit < 0 then 0 else queueLimit)
  {
  }

  datatype GateState = GateState(activeCost: int, queued: int, byTenant: map<string, int>,
                                 admitted: nat, rejected: nat, timedOut: nat, queuedWaits: nat)

  const IDLE := GateState(0, 0, map[], 0, 0, 0, 0)

  // How a critical section ends: turned away, inside, or asleep on the condition
  // remembering the tenant count read on entry.
  datatype Outcome = Turned | Inside | Expired | Sleeps(tenantActive: int)

  function Count(byTenant: map<string, int>, tenant: string): int {
    if tenant in byTenant then byTenant[tenant] else 0
  }

  function Admit(c: Config, g: GateState, tenant: string, tenantActive: int): GateState {
    g.(activeCost := g.activeCost + c.cost, byTenant := g.byTenant[tenant := tenantActive + 1], admitted := g.admitted + 1)
  }

  // From the head of the wait loop on: admitted, out of time, or (back) to sleep.
  function TryInside(c: Config, g: GateState, tenant: string, tenantActive: int, expired: bool): (GateState, Outcome) {
    if g.activeCost + c.cost > c.budget then
      if expired then (g.(timedOut := g.timedOut + 1, queued := g.queued - 1), Expired)
      else (g, Sleeps(tenantActive))
    else
      (Admit(c, g.(queued := g.queued - 1, queuedWaits := g.queuedWaits + 1), tenant, tenantActive), Inside)
  }

  function Entered(c: Config, g: GateState, tenant: string, expired: bool): (GateState, Outcome) {
    var tenantActive := Count(g.byTenant, tenant);
    if tenantActive >= c.perTenantLimit then (g.(rejected := g.rejected + 1), Turned)
    else if g.activeCost + c.cost > c.budget || g.queued > 0 then
      if g.queued >= c.queueLimit then (g.(rejected := g.rejected + 1), Turned)
      else TryInside(c, g.(queued := g.queued + 1), tenant, tenantActive, expired)
    else (Admit(c, g, tenant, tenantActive), Inside)
  }

  function Released(c: Config, g: GateState, tenant: string): GateState {
    var left := (if tenant in g.byTenant then g.byTenant[tenant] else 1) - 1;
    g.(activeCost := Max(0, g.activeCost - c.cost),
       byTenant := if left > 0 then g.byTenant[tenant := left] else g.byTenant - {tenant})
  }

  class HeavyEndpointGate {
    const config: Config
    var activeCost: int
    var queued: int
    var byTenant: map<string, int>
    var admitted: nat
    var rejected: nat
    var timedOut: nat
    var queuedWaits: nat

    ghost function State(): GateState
      reads this
    {
      GateState(activeCost, queued, byTenant, admitted, rejected, timedOut, queuedWaits)
    }

    constructor (budget: int, cost: int, perTenantLimit: int, queueLimit: int)
      ensures ValidConfig(config) && config == Clamp(budget, cost, perTenantLimit, queueLimit)
      ensures State() == IDLE
    {
      config := Clamp(budget, cost, perTenantLimit, queueLimit);
      activeCost, queued, byTenant := 0, 0, map[];
      admitted, rejected, timedOut, queuedWaits := 0, 0, 0, 0;
    }

    // Taking the lock on entry, up to being admitted, turned away or put to sleep.
    method Enter(tenant: string, expired: bool) returns (outcome: Outcome)
      modifies this
      ensures (State(), outcome) == Entered(config, old(State()), tenant, expired)
    {
      var tenantActive := if tenant in byTenant then byTenant[tenant] else 0;
      if tenantActive >= config.perTenantLimit {
        rejected := rejected + 1;
        return Turned;
      }
      if activeCost + config.cost > config.budget || queued > 0 {
        if queued >= config.queueLimit {
          rejected := rejected + 1;
          return Turned;
        }
        queued := queued + 1;
        outcome := Resume(tenant, tenantActive, expired);
        return;
      }
      TakeSlot(tenant, tenantActive);
      return Inside;
    }

    // Holding the lock at the head of the wait loop, on entry or after a wake-up.
    method Resume(tenant: string, tenantActive: int, expired: bool) returns (outcome: Outcome)
      modifies this
      ensures (State(), outcome) == TryInside(config, old(State()), tenant, tenantActive, expired)
    {
      if activeCost + config.cost > config.budget {
        if expired {
          timedOut := timedOut + 1;
          queued := queued - 1;
          return Expired;
        }
        return Sleeps(tenantActive);
      }
      queued := queued - 1;
      queuedWaits := queuedWaits + 1;
      TakeSlot(tenant, tenantActive);
      return Inside;
    }

    method TakeSlot(tenant: string, tenantActive: int)
      modifies this
      ensures State() == Admit(config, old(State()), tenant, tenantActive)
    {
      activeCost := activeCost + config.cost;
      byTenant := byTenant[tenant := tenantActive + 1];
      admitted := admitted + 1;
    }

    // The release section; waking one sleeper is the caller's next step.
    method Release(tenant: string)
      modifies this
      ensures State() == Released(config, old(State()), tenant)
    {
      activeCost := Max(0, activeCost - config.cost);
      var left := (if tenant in byTenant then byTenant[tenant] else 1) - 1;
      if left > 0 {
        byTenant := byTenant[tenant := left];
      } else {
        byTenant := byTenant - {tenant};
      }
    }
  }
}

/** Any number of callers using one gate, in any interleaving of its critical sections. */
module GateRuns {
  import opened Prelude
  import opened Gate

  datatype Waiter = Waiter(tenant: string, tenantActive: int)

  // Callers are numbered by arrival. `woken` have left wait() but not yet got the lock back.
  datatype System = System(gate: GateState, asleep: map<nat, Waiter>, woken: map<nat, Waiter>,
                           running: map<nat, string>, entered: nat, finished: nat)

  const START := System(IDLE, map[], map[], map[], 0, 0)

  datatype Step =
    | Arrive(tenant: string, expired: bool)
    | Wake(caller: nat)                             // the wait ends by itself: timeout or spurious
    | Retry(caller: nat, expired: bool)             // a woken caller gets the lock
    | Leave(caller: nat, notified: Option<nat>)     // release and notify one sleeper, if there is one

  predicate Enabled(s: System, step: Step) {
    match step
    case Arrive(_, _) => true
    case Wake(t) => t in s.asleep
    case Retry(t, _) => t in s.woken
    case Leave(t, n) => t in s.running && if s.asleep == map[] then n == None else n.Some? && n.value in s.asleep
  }

  function Settle(s: System, caller: nat, tenant: string, g: GateState, outcome: Outcome): System {
    match outcome
    case Turned => s.(gate := g)
    case Expired => s.(gate := g)
    case Inside => s.(gate := g, running := s.running[caller := tenant])
    case Sleeps(n) => s.(gate := g, asleep := s.asleep[caller := Waiter(tenant, n)])
  }

  function Next(c: Config, s: System, step: Step): System
    requires Enabled(s, step)
  {
    match step
    case Arrive(tenant, expired) =>
      var r := Entered(c, s.gate, tenant, expired);
      Settle(s.(entered := s.entered + 1), s.entered, tenant, r.0, r.1)
    case Wake(t) =>
      s.(asleep := s.asleep - {t}, woken := s.woken[t := s.asleep[t]])
    case Retry(t, expired) =>
      var w := s.woken[t];
      var r := TryInside(c, s.gate, w.tenant, w.tenantActive, expired);
      Settle(s.(woken := s.woken - {t}), t, w.tenant, r.0, r.1)
    case Leave(t, n) =>
      var left := Left(c, s, t);
      if n.None? then left
      else left.(asleep := s.asleep - {n.value}, woken := s.woken[n.value := s.asleep[n.value]])
  }

  // The state after the steps, if each is possible when it is taken.
  function Exec(c: Config, steps: seq<Step>): Option<System> {
    if steps == [] then Some(START)
    else
      var before := Exec(c, steps[..|steps| - 1]);
      if before.Some? && Enabled(before.value, steps[|steps| - 1])
      then Some(Next(c, before.value, steps[|steps| - 1])) else None
  }

  // ------------------------------------------------------------ invariants

  // The cost of n requests, as a sum.
  ghost function CostOf(cost: int, n: nat): int {
    if n == 0 then 0 else CostOf(cost, n - 1) + cost
  }

  lemma {:induction false} CostIsProduct(cost: int, n: nat)
    ensures CostOf(cost, n) == cost * n
  {
    if n > 0 {
      CostIsProduct(cost, n - 1);
    }
  }

  lemma {:induction false} CostGrows(cost: int, n: nat, more: nat)
    requires cost >= 0
    ensures 0 <= CostOf(cost, n) <= CostOf(cost, n + more)
  {
    if more > 0 {
      CostGrows(cost, n, more - 1);
    } else if n > 0 {
      CostGrows(cost, n - 1, 0);
    }
  }

  ghost predicate Callers(s: System) {
    && (forall t :: t in s.asleep ==> t < s.entered && t !in s.woken && t !in s.running)
    && (forall t :: t in s.woken ==> t < s.entered && t !in s.running)
    && (forall t :: t in s.running ==> t < s.entered)
  }

  // The gate's counters against the numbers of sleeping, woken and running callers.
  // If anybody sleeps, the running and the woken callers together fill the budget.
  ghost predicate Counts(c: Config, g: GateState, asleep: nat, woken: nat, running: nat, entered: nat, finished: nat) {
    && g.activeCost == CostOf(c.cost, running) <= c.budget
    && g.queued == asleep + woken <= c.queueLimit
    && entered == g.admitted + g.rejected + g.timedOut + g.queued
    && g.admitted == running + finished
    && (asleep > 0 ==> CostOf(c.cost, running + woken + 1) > c.budget)
  }

  ghost predicate Inv(c: Config, s: System) {
    Callers(s) && Counts(c, s.gate, |s.asleep|, |s.woken|, |s.running|, s.entered, s.finished)
  }

  // ------------------------------------------------- the counters, step by step

  lemma EnteredCounts(c: Config, g: GateState, tenant: string, expired: bool, asleep: nat, woken: nat, running: nat,
                      entered: nat, finished: nat)
    requires ValidConfig(c) && Counts(c, g, asleep, woken, running, entered, finished)
    ensures var r := Entered(c, g, tenant, expired);
            Counts(c, r.0, if r.1.Sleeps? then asleep + 1 else asleep, woken,
                   if r.1.Inside? then running + 1 else running, entered + 1, finished)
  {
    CostGrows(c.cost, running + 1, woken);
    CostGrows(c.cost, running + woken + 1, 1);
  }

  lemma RetryCounts(c: Config, g: GateState, tenant: string, n: int, expired: bool, asleep: nat, woken: nat, running: nat,
                    entered: nat, finished: nat)
    requires ValidConfig(c) && woken > 0 && Counts(c, g, asleep, woken, running, entered, finished)
    ensures var r := TryInside(c, g, tenant, n, expired);
            Counts(c, r.0, if r.1.Sleeps? then asleep + 1 else asleep, woken - 1,
                   if r.1.Inside? then running + 1 else running, entered, finished)
  {
    CostGrows(c.cost, running + 1, woken - 1);
  }

  lemma WakeCounts(c: Config, g: GateState, asleep: nat, woken: nat, running: nat, entered: nat, finished: nat)
    requires ValidConfig(c) && asleep > 0 && Counts(c, g, asleep, woken, running, entered, finished)
    ensures Counts(c, g, asleep - 1, woken + 1, running, entered, finished)
  {
    CostGrows(c.cost, running + woken + 1, 1);
  }

  lemma ReleasedCounts(c: Config, g: GateState, tenant: string, asleep: nat, woken: nat, running: nat,
                       entered: nat, finished: nat)
    requires ValidConfig(c) && running > 0 && Counts(c, g, asleep, woken, running, entered, finished)
    ensures Released(c, g, tenant).activeCost == g.activeCost - c.cost
    ensures if asleep == 0 then Counts(c, Released(c, g, tenant), asleep, woken, running - 1, entered, finished + 1)
            else Counts(c, Released(c, g, tenant), asleep - 1, woken + 1, running - 1, entered, finished + 1)
  {
    CostGrows(c.cost, running - 1, 0);
  }

  lemma MapMinus<K, V>(m: map<K, V>, k: K)
    requires k in m
    ensures |m - {k}| == |m| - 1
  {
    assert (m - {k}).Keys == m.Keys - {k};
    assert |m.Keys| == |m| && |(m - {k}).Keys| == |m - {k}|;
  }

  lemma MapPlus<K, V>(m: map<K, V>, k: K, v: V)
    requires k !in m
    ensures |m[k := v]| == |m| + 1
  {
  }

  lemma {:induction false} StepKeepsInv(c: Config, s: System, step: Step)
    requires ValidConfig(c) && Inv(c, s) && Enabled(s, step)
    ensures Inv(c, Next(c, s, step))
  {
    match step
    case Arrive(_, _) => ArriveKeepsInv(c, s, step);
    case Wake(t) => WakeKeepsInv(c, s, step);
    case Retry(t, _) => RetryKeepsInv(c, s, step);
    case Leave(t, n) => LeaveKeepsInv(c, s, step);
  }

  // Filing a caller that is in none of the three groups where its section left it.
  lemma SettleKeepsInv(c: Config, s: System, caller: nat, tenant: string, g: GateState, outcome: Outcome)
    requires Callers(s) && caller < s.entered
    requires caller !in s.asleep && caller !in s.woken && caller !in s.running
    requires Counts(c, g, if outcome.Sleeps? then |s.asleep| + 1 else |s.asleep|, |s.woken|,
                    if outcome.Inside? then |s.running| + 1 else |s.running|, s.entered, s.finished)
    ensures Inv(c, Settle(s, caller, tenant, g, outcome))
  {
    if outcome.Sleeps? {
      MapPlus(s.asleep, caller, Waiter(tenant, outcome.tenantActive));
    } else if outcome.Inside? {
      MapPlus(s.running, caller, tenant);
    }
  }

  lemma NewCaller(s: System)
    requires Callers(s)
    ensures Callers(s.(entered := s.entered + 1))
    ensures s.entered !in s.asleep && s.entered !in s.woken && s.entered !in s.running
  {
  }

  lemma {:induction false} ArriveKeepsInv(c: Config, s: System, step: Step)
    requires ValidConfig(c) && Inv(c, s) && step.Arrive?
    ensures Inv(c, Next(c, s, step))
  {
    hide Entered, CostOf, Counts, Settle;
    NewCaller(s);
    EnteredCounts(c, s.gate, step.tenant, step.expired, |s.asleep|, |s.woken|, |s.running|, s.entered, s.finished);
    var r := Entered(c, s.gate, step.tenant, step.expired);
    ArriveSettles(c, s, step.tenant, r);
  }

  lemma ArriveSettles(c: Config, s: System, tenant: string, r: (GateState, Outcome))
    requires Callers(s.(entered := s.entered + 1))
    requires s.entered !in s.asleep && s.entered !in s.woken && s.entered !in s.running
    requires Counts(c, r.0, if r.1.Sleeps? then |s.asleep| + 1 else |s.asleep|, |s.woken|,
                    if r.1.Inside? then |s.running| + 1 else |s.running|, s.entered + 1, s.finished)
    ensures Inv(c, Settle(s.(entered := s.entered + 1), s.entered, tenant, r.0, r.1))
  {
    SettleKeepsInv(c, s.(entered := s.entered + 1), s.entered, tenant, r.0, r.1);
  }

  lemma WakeKeepsInv(c: Config, s: System, step: Step)
    requires ValidConfig(c) && Inv(c, s) && step.Wake? && Enabled(s, step)
    ensures Inv(c, Next(c, s, step))
  {
    hide CostOf;
    MapMinus(s.asleep, step.caller);
    MapPlus(s.woken, step.caller, s.asleep[step.caller]);
    WakeCounts(c, s.gate, |s.asleep|, |s.woken|, |s.running|, s.entered, s.finished);
  }

  lemma {:induction false} RetryKeepsInv(c: Config, s: System, step: Step)
    requires ValidConfig(c) && Inv(c, s) && step.Retry? && Enabled(s, step)
    ensures Inv(c, Next(c, s, step))
  {
    hide TryInside, CostOf, Counts, Settle;
    var w := s.woken[step.caller];
    NoLongerWoken(s, step.caller);
    RetryCounts(c, s.gate, w.tenant, w.tenantActive, step.expired,
                |s.asleep|, |s.woken|, |s.running|, s.entered, s.finished);
    RetrySettles(c, s, step.caller, w.tenant, TryInside(c, s.gate, w.tenant, w.tenantActive, step.expired));
  }

  lemma NoLongerWoken(s: System, t: nat)
    requires Callers(s) && t in s.woken
    ensures Callers(s.(woken := s.woken - {t})) && |s.woken - {t}| == |s.woken| - 1
    ensures t !in s.asleep && t !in s.running && t < s.entered
  {
    MapMinus(s.woken, t);
  }

  lemma RetrySettles(c: Config, s: System, t: nat, tenant: string, r: (GateState, Outcome))
    requires Callers(s.(woken := s.woken - {t}))
    requires t !in s.asleep && t !in s.running && t < s.entered
    requires Counts(c, r.0, if r.1.Sleeps? then |s.asleep| + 1 else |s.asleep|, |s.woken - {t}|,
                    if r.1.Inside? then |s.running| + 1 else |s.running|, s.entered, s.finished)
    ensures Inv(c, Settle(s.(woken := s.woken - {t}), t, tenant, r.0, r.1))
  {
    SettleKeepsInv(c, s.(woken := s.woken - {t}), t, tenant, r.0, r.1);
  }

  function Left(c: Config, s: System, t: nat): System
    requires t in s.running
  {
    s.(gate := Released(c, s.gate, s.running[t]), running := s.running - {t}, finished := s.finished + 1)
  }

  lemma LeftKeepsCallers(c: Config, s: System, t: nat)
    requires Callers(s) && t in s.running
    ensures Callers(Left(c, s, t)) && |Left(c, s, t).running| == |s.running| - 1
  {
    MapMinus(s.running, t);
  }

  lemma Notified(s: System, t: nat)
    requires Callers(s) && t in s.asleep
    ensures var s' := s.(asleep := s.asleep - {t}, woken := s.woken[t := s.asleep[t]]);
            Callers(s') && |s'.asleep| == |s.asleep| - 1 && |s'.woken| == |s.woken| + 1
  {
    MapMinus(s.asleep, t);
    MapPlus(s.woken, t, s.asleep[t]);
  }

  lemma {:induction false} LeaveKeepsInv(c: Config, s: System, step: Step)
    requires ValidConfig(c) && Inv(c, s) && step.Leave? && Enabled(s, step)
    ensures Inv(c, Next(c, s, step))
    // The release never has to clamp the cost at zero.
    ensures Next(c, s, step).gate.activeCost == s.gate.activeCost - c.cost
  {
    hide Released, CostOf;
    LeftKeepsCallers(c, s, step.caller);
    ReleasedCounts(c, s.gate, s.running[step.caller], |s.asleep|, |s.woken|, |s.running|, s.entered, s.finished);
    if step.notified.Some? {
      Notified(Left(c, s, step.caller), step.notified.value);
    }
  }

  // ---------------------------------------------------------- main results

  lemma {:induction false} RunsKeepInv(c: Config, steps: seq<Step>)
    requires ValidConfig(c) && Exec(c, steps).Some?
    ensures Inv(c, Exec(c, steps).value)
  {
    if steps != [] {
      RunsKeepInv(c, steps[..|steps| - 1]);
      StepKeepsInv(c, Exec(c, steps[..|steps| - 1]).value, steps[|steps| - 1]);
    }
  }

  // The cost is that of the requests inside and within the budget, the queue counts
  // those waiting, and every caller that entered is accounted for.
  ghost predicate Conserves(c: Config, s: System) {
    && 0 <= s.gate.activeCost == c.cost * |s.running| <= c.budget
    && 0 <= s.gate.queued == |s.asleep| + |s.woken| <= c.queueLimit
    && s.entered == s.gate.admitted + s.gate.rejected + s.gate.timedOut + s.gate.queued
    && s.gate.admitted == |s.running| + s.finished
  }

  // Conservation in every reachable state.
  lemma {:induction false} GateConserves(c: Config, steps: seq<Step>)
    requires ValidConfig(c) && Exec(c, steps).Some?
    ensures Conserves(c, Exec(c, steps).value)
  {
    RunsKeepInv(c, steps);
    InvConserves(c, Exec(c, steps).value);
  }

  lemma InvConserves(c: Config, s: System)
    requires ValidConfig(c) && Inv(c, s)
    ensures Conserves(c, s)
  {
    CostIsProduct(c.cost, |s.running|);
    CostGrows(c.cost, |s.running|, 0);
  }

  // While anybody sleeps, the free slots are covered by callers already woken.
  ghost predicate NobodyForgotten(c: Config, s: System)
    requires ValidConfig(c)
  {
    s.asleep != map[] ==> FreeSlots(c, s.gate) <= |s.woken|
  }

  // No lost wake-up in any reachable state; so with everybody asleep there is no room.
  lemma {:induction false} NoWakeupIsLost(c: Config, steps: seq<Step>)
    requires ValidConfig(c) && Exec(c, steps).Some?
    ensures NobodyForgotten(c, Exec(c, steps).value)
  {
    RunsKeepInv(c, steps);
    InvForgetsNobody(c, Exec(c, steps).value);
  }

  lemma InvForgetsNobody(c: Config, s: System)
    requires ValidConfig(c) && Inv(c, s)
    ensures NobodyForgotten(c, s)
  {
    if s.asleep != map[] {
      NonEmpty(s.asleep);
      FreeSlotsCovered(c, s.gate, |s.asleep|, |s.woken|, |s.running|, s.entered, s.finished);
    }
  }

  lemma NonEmpty<K, V>(m: map<K, V>)
    requires m != map[]
    ensures |m| > 0
  {
  }

  // Further requests the budget has room for.
  function FreeSlots(c: Config, g: GateState): int
    requires ValidConfig(c)
  {
    (c.budget - g.activeCost) / c.cost
  }

  lemma FreeSlotsCovered(c: Config, g: GateState, asleep: nat, woken: nat, running: nat, entered: nat, finished: nat)
    requires ValidConfig(c) && asleep > 0 && Counts(c, g, asleep, woken, running, entered, finished)
    ensures FreeSlots(c, g) <= woken
  {
    CostSplits(c.cost, running, woken + 1);
    CostIsProduct(c.cost, woken + 1);
    BelowMultiple(c.budget - g.activeCost, c.cost, woken);
  }

  lemma {:induction false} CostSplits(cost: int, a: nat, b: nat)
    ensures CostOf(cost, a + b) == CostOf(cost, a) + CostOf(cost, b)
  {
    if b > 0 {
      CostSplits(cost, a, b - 1);
    }
  }

  lemma {:induction false} BelowMultiple(x: int, d: int, n: nat)
    requires d > 0 && 0 <= x < d * (n + 1)
    ensures x / d <= n
  {
    MultiplesGrow(d, n + 1, x / d);
  }

  lemma MultiplesGrow(d: int, a: int, b: int)
    requires d > 0
    ensures a <= b ==> d * a <= d * b
  {
  }

  // ------------------------------------------------------- who gets where

  predicate Room(c: Config, g: GateState) {
    g.activeCost + c.cost <= c.budget
  }

  // What becomes of a caller that arrives: it is inside if its tenant is below the limit,
  // there is room, and nobody waits or the waiting room is not full; it sleeps if there is
  // no room but its tenant is below the limit, the waiting room is not full and it has
  // time left; it has timed out if only the time is missing; else it is rejected.
  lemma {:induction false} ArrivalIsDecided(c: Config, steps: seq<Step>, tenant: string, expired: bool)
    requires ValidConfig(c) && Exec(c, steps).Some?
    ensures var s := Exec(c, steps).value;
            var s', t := Next(c, s, Arrive(tenant, expired)), s.entered;
            var below, seat := Count(s.gate.byTenant, tenant) < c.perTenantLimit, s.gate.queued < c.queueLimit;
            && t !in s'.woken
            && (t in s'.running <==> below && Room(c, s.gate) && (s.gate.queued == 0 || seat))
            && (t in s'.asleep <==> below && !Room(c, s.gate) && seat && !expired)
            && s'.gate.timedOut == s.gate.timedOut + (if below && !Room(c, s.gate) && seat && expired then 1 else 0)
            && s'.gate.rejected == s.gate.rejected + (if !below || ((!Room(c, s.gate) || s.gate.queued > 0) && !seat) then 1 else 0)
            && s'.gate.admitted == s.gate.admitted + (if t in s'.running then 1 else 0)
            && s'.gate.queued == s.gate.queued + (if t in s'.asleep then 1 else 0)
            && s'.gate.queuedWaits == s.gate.queuedWaits + (if t in s'.running && s.gate.queued > 0 then 1 else 0)
            && s'.gate.activeCost == s.gate.activeCost + (if t in s'.running then c.cost else 0)
            && (t in s'.running ==> s'.running[t] == tenant)
            && (t in s'.asleep ==> s'.asleep[t] == Waiter(tenant, Count(s.gate.byTenant, tenant)))
  {
    hide Exec, CostOf;
    RunsKeepInv(c, steps);
    NewCaller(Exec(c, steps).value);
  }

  // What becomes of a woken caller that gets the lock: it is inside if there is room; else
  // it goes back to sleep if it has time left, and has timed out if it has none.
  lemma {:induction false} RetryIsDecided(c: Config, steps: seq<Step>, t: nat, expired: bool)
    requires ValidConfig(c) && Exec(c, steps).Some? && t in Exec(c, steps).value.woken
    ensures var s := Exec(c, steps).value;
            var s', room := Next(c, s, Retry(t, expired)), Room(c, s.gate);
            && t !in s'.woken
            && (t in s'.running <==> room) && (t in s'.asleep <==> !room && !expired)
            && s'.gate.timedOut == s.gate.timedOut + (if !room && expired then 1 else 0)
            && s'.gate.rejected == s.gate.rejected
            && s'.gate.admitted == s.gate.admitted + (if room then 1 else 0)
            && s'.gate.queued == s.gate.queued - (if room || expired then 1 else 0)
            && s'.gate.queuedWaits == s.gate.queuedWaits + (if room then 1 else 0)
            && s'.gate.activeCost == s.gate.activeCost + (if room then c.cost else 0)
            && (room ==> s'.running[t] == s.woken[t].tenant)
            && (t in s'.asleep ==> s'.asleep[t] == s.woken[t])
  {
    hide Exec, CostOf;
    RunsKeepInv(c, steps);
  }

  // A release frees the cost and wakes a sleeper if there is one.
  lemma {:induction false} LeaveIsDecided(c: Config, steps: seq<Step>, step: Step)
    requires ValidConfig(c) && Exec(c, steps).Some? && step.Leave? && Enabled(Exec(c, steps).value, step)
    ensures var s := Exec(c, steps).value;
            var s' := Next(c, s, step);
            && step.caller !in s'.running && s'.gate.activeCost == s.gate.activeCost - c.cost
            && |s'.woken| == |s.woken| + (if s.asleep == map[] then 0 else 1)
            && s'.gate.admitted == s.gate.admitted && s'.gate.queued == s.gate.queued
            && s'.gate.timedOut == s.gate.timedOut && s'.gate.rejected == s.gate.rejected
  {
    hide Exec, CostOf;
    RunsKeepInv(c, steps);
    var s := Exec(c, steps).value;
    LeaveKeepsInv(c, s, step);
    LeaveCounts(c, s, step);
  }

  lemma LeaveCounts(c: Config, s: System, step: Step)
    requires Callers(s) && step.Leave? && Enabled(s, step)
    ensures var s' := Next(c, s, step);
            && step.caller !in s'.running
            && |s'.woken| == |s.woken| + (if s.asleep == map[] then 0 else 1)
            && s'.gate.admitted == s.gate.admitted && s'.gate.queued == s.gate.queued
            && s'.gate.timedOut == s.gate.timedOut && s'.gate.rejected == s.gate.rejected
  {
    if step.notified.Some? {
      MapPlus(s.woken, step.notified.value, s.asleep[step.notified.value]);
    }
  }

  // ------------------------------------------------------- the tenant counts

  ghost function CallersOf(running: map<nat, string>, tenant: string): set<nat> {
    set t | t in running && running[t] == tenant
  }

  ghost function InFlight(running: map<nat, string>, tenant: string): nat {
    |CallersOf(running, tenant)|
  }

  // The per-tenant counts the gate keeps are the requests really in flight.
  ghost predicate TenantsExact(s: System) {
    && (forall tenant :: Count(s.gate.byTenant, tenant) == InFlight(s.running, tenant))
    && (forall tenant :: tenant in s.gate.byTenant ==> s.gate.byTenant[tenant] > 0)
  }

  // A woken caller is about to be admitted on a tenant count that has changed since it was read.
  ghost predicate Stale(c: Config, s: System, step: Step) {
    && step.Retry? && Enabled(s, step)
    && s.gate.activeCost + c.cost <= c.budget
    && s.woken[step.caller].tenantActive != Count(s.gate.byTenant, s.woken[step.caller].tenant)
  }

  lemma OneMoreInFlight(running: map<nat, string>, t: nat, tenant: string, x: string)
    requires t !in running
    ensures InFlight(running[t := tenant], x) == InFlight(running, x) + if x == tenant then 1 else 0
  {
    assert CallersOf(running[t := tenant], x) == CallersOf(running, x) + if x == tenant then {t} else {};
  }

  lemma OneLessInFlight(running: map<nat, string>, t: nat, x: string)
    requires t in running
    ensures InFlight(running - {t}, x) == InFlight(running, x) - if x == running[t] then 1 else 0
  {
    assert CallersOf(running, x) == CallersOf(running - {t}, x) + if x == running[t] then {t} else {};
  }

  // Admission keeps the counts exact if and only if it writes back the current count plus one.
  lemma AdmissionAndCounts(c: Config, s: System, t: nat, tenant: string, n: int, g: GateState)
    requires TenantsExact(s) && t !in s.running && g.byTenant == s.gate.byTenant[tenant := n + 1]
    ensures TenantsExact(s.(gate := g, running := s.running[t := tenant])) <==> n == Count(s.gate.byTenant, tenant)
  {
    var s' := s.(gate := g, running := s.running[t := tenant]);
    forall x ensures InFlight(s'.running, x) == InFlight(s.running, x) + if x == tenant then 1 else 0 {
      OneMoreInFlight(s.running, t, tenant, x);
    }
    if n == Count(s.gate.byTenant, tenant) {
      forall x ensures Count(g.byTenant, x) == InFlight(s'.running, x) {
      }
    } else {
      assert Count(g.byTenant, tenant) != InFlight(s'.running, tenant);
    }
  }

  lemma ReleaseAndCounts(c: Config, s: System, t: nat)
    requires TenantsExact(s) && t in s.running
    ensures TenantsExact(Left(c, s, t))
  {
    var tenant, s' := s.running[t], Left(c, s, t);
    assert t in CallersOf(s.running, tenant);
    forall x ensures Count(s'.gate.byTenant, x) == InFlight(s'.running, x) {
      OneLessInFlight(s.running, t, x);
    }
  }

  // Exactly the stale admissions break the counts.
  lemma StepAndCounts(c: Config, s: System, step: Step)
    requires ValidConfig(c) && Callers(s) && TenantsExact(s) && Enabled(s, step)
    ensures TenantsExact(Next(c, s, step)) <==> !Stale(c, s, step)
  {
    match step
    case Arrive(tenant, expired) =>
      var r := Entered(c, s.gate, tenant, expired);
      if r.1.Inside? {
        AdmissionAndCounts(c, s, s.entered, tenant, Count(s.gate.byTenant, tenant), r.0);
      }
    case Wake(t) =>
    case Retry(t, expired) =>
      var w := s.woken[t];
      var r := TryInside(c, s.gate, w.tenant, w.tenantActive, expired);
      if r.1.Inside? {
        AdmissionAndCounts(c, s, t, w.tenant, w.tenantActive, r.0);
      }
    case Leave(t, n) =>
      ReleaseAndCounts(c, s, t);
  }

  ghost predicate UnderCap(c: Config, s: System) {
    && TenantsExact(s)
    && (forall tenant :: InFlight(s.running, tenant) <= c.perTenantLimit)
    && (forall t :: t in s.asleep ==> s.asleep[t].tenantActive < c.perTenantLimit)
    && (forall t :: t in s.woken ==> s.woken[t].tenantActive < c.perTenantLimit)
  }

  // No admission in the run relies on a count that changed while its caller waited;
  // a run in which nobody is admitted after waiting is one of these.
  ghost predicate NeverStale(c: Config, steps: seq<Step>) {
    forall i :: 0 <= i < |steps| && Exec(c, steps[..i]).Some? ==> !Stale(c, Exec(c, steps[..i]).value, steps[i])
  }

  lemma {:induction false} StepKeepsCap(c: Config, s: System, step: Step)
    requires ValidConfig(c) && Callers(s) && UnderCap(c, s) && Enabled(s, step) && !Stale(c, s, step)
    ensures UnderCap(c, Next(c, s, step))
  {
    StepAndCounts(c, s, step);
    var s' := Next(c, s, step);
    forall x ensures InFlight(s'.running, x) <= c.perTenantLimit {
      StepKeepsOneCap(c, s, step, x);
    }
  }

  lemma StepKeepsOneCap(c: Config, s: System, step: Step, x: string)
    requires ValidConfig(c) && Callers(s) && UnderCap(c, s) && Enabled(s, step) && !Stale(c, s, step)
    ensures InFlight(Next(c, s, step).running, x) <= c.perTenantLimit
  {
    match step
    case Arrive(tenant, expired) =>
      NewCaller(s);
      OneMoreInFlight(s.running, s.entered, tenant, x);
    case Wake(t) =>
    case Retry(t, expired) =>
      OneMoreInFlight(s.running, t, s.woken[t].tenant, x);
    case Leave(t, n) =>
      OneLessInFlight(s.running, t, x);
  }

  // In every run without stale admissions the counts are exact and the cap holds.
  lemma {:induction false} CapHoldsUnlessStale(c: Config, steps: seq<Step>)
    requires ValidConfig(c) && Exec(c, steps).Some? && NeverStale(c, steps)
    ensures UnderCap(c, Exec(c, steps).value)
  {
    if steps != [] {
      var init, last := steps[..|steps| - 1], steps[|steps| - 1];
      forall i | 0 <= i < |init| && Exec(c, init[..i]).Some? ensures !Stale(c, Exec(c, init[..i]).value, init[i]) {
        assert init[..i] == steps[..i];
      }
      CapHoldsUnlessStale(c, init);
      RunsKeepInv(c, init);
      StepKeepsCap(c, Exec(c, init).value, last);
    }
  }

  lemma {:induction false} OneStep(c: Config, steps: seq<Step>, step: Step)
    requires Exec(c, steps).Some? && Enabled(Exec(c, steps).value, step)
    ensures Exec(c, steps + [step]) == Some(Next(c, Exec(c, steps).value, step))
  {
    assert (steps + [step])[..|steps|] == steps;
  }

  // The cap is not global: two callers of one tenant that waited on the same
  // count are both admitted although the cap is one.
  lemma CapCanBeExceeded()
    ensures exists steps :: var s := Exec(Config(2, 1, 1, 2), steps);
              s.Some? && InFlight(s.value.running, "a") == 2
  {
    hide Exec;
    var c := Config(2, 1, 1, 2);
    AtStart(c);
    OneStep(c, [], Arrive("x", false));
    var one := [] + [Arrive("x", false)];
    assert Exec(c, one) == Some(System(GateState(1, 0, map["x" := 1], 1, 0, 0, 0), map[], map[], map[0 := "x"], 1, 0));
    OneStep(c, one, Arrive("y", false));
    var full := one + [Arrive("y", false)];
    assert Exec(c, full) == Some(System(GateState(2, 0, map["x" := 1, "y" := 1], 2, 0, 0, 0), map[], map[],
                                        map[0 := "x", 1 := "y"], 2, 0));
    OneStep(c, full, Arrive("a", false));
    var waiting := full + [Arrive("a", false)];
    assert Exec(c, waiting) == Some(System(GateState(2, 1, map["x" := 1, "y" := 1], 2, 0, 0, 0), map[2 := Waiter("a", 0)], map[],
                                           map[0 := "x", 1 := "y"], 3, 0));
    OneStep(c, waiting, Arrive("a", false));
    TwoStaleAdmissions(c, waiting + [Arrive("a", false)]);
  }

  lemma AtStart(c: Config)
    ensures Exec(c, []) == Some(START)
  {
  }

  lemma {:induction false} TwoStaleAdmissions(c: Config, steps: seq<Step>)
    requires c == Config(2, 1, 1, 2)
    requires Exec(c, steps) == Some(System(GateState(2, 2, map["x" := 1, "y" := 1], 2, 0, 0, 0),
                                           map[2 := Waiter("a", 0), 3 := Waiter("a", 0)], map[],
                                           map[0 := "x", 1 := "y"], 4, 0))
    ensures exists more :: var s := Exec(c, more); s.Some? && InFlight(s.value.running, "a") == 2
  {
    var m1 := steps + [Leave(0, Some(2))];
    assert 2 in Exec(c, steps).value.asleep;
    OneStep(c, steps, Leave(0, Some(2)));
    var m2 := m1 + [Leave(1, Some(3))];
    assert 3 in Exec(c, m1).value.asleep;
    OneStep(c, m1, Leave(1, Some(3)));
    assert Exec(c, m2).value.running == map[];
    BothAdmitted(c, m2);
  }

  lemma {:induction false} BothAdmitted(c: Config, m2: seq<Step>)
    requires c == Config(2, 1, 1, 2)
    requires Exec(c, m2).Some? && Exec(c, m2).value.running == map[]
    requires Exec(c, m2).value.woken == map[2 := Waiter("a", 0), 3 := Waiter("a", 0)]
    requires Exec(c, m2).value.gate.activeCost == 0
    ensures exists more :: var s := Exec(c, more); s.Some? && InFlight(s.value.running, "a") == 2
  {
    var m3 := m2 + [Retry(2, false)];
    OneStep(c, m2, Retry(2, false));
    var m4 := m3 + [Retry(3, false)];
    OneStep(c, m3, Retry(3, false));
    var running := Exec(c, m4).value.running;
    assert running == map[2 := "a", 3 := "a"];
    assert CallersOf(running, "a") == {2, 3};
  }

  // A stale admission can also leave a count behind that no request stands for any more.
  lemma StaleCountStays()
    ensures exists steps :: var s := Exec(Config(1, 1, 2, 1), steps);
              && s.Some? && s.value.running == map[] && s.value.asleep == map[] && s.value.woken == map[]
              && Count(s.value.gate.byTenant, "a") == 1
  {
    hide Exec;
    var c := Config(1, 1, 2, 1);
    var s2 := OneInOneAsleep(c);
    var s4 := StaleAdmission(c, s2);
    OneStep(c, s4, Leave(1, None));
    var running: map<nat, string>, counts: map<string, int> := map[1 := "a"], map["a" := 2];
    assert running - {1} == map[] && counts["a" := 1] == map["a" := 1];
  }

  lemma OneInOneAsleep(c: Config) returns (steps: seq<Step>)
    requires c == Config(1, 1, 2, 1)
    ensures Exec(c, steps) == Some(System(GateState(1, 1, map["a" := 1], 1, 0, 0, 0), map[1 := Waiter("a", 1)], map[],
                                          map[0 := "a"], 2, 0))
  {
    hide Exec;
    AtStart(c);
    OneStep(c, [], Arrive("a", false));
    steps := [] + [Arrive("a", false)];
    assert Exec(c, steps) == Some(System(GateState(1, 0, map["a" := 1], 1, 0, 0, 0), map[], map[], map[0 := "a"], 1, 0));
    OneStep(c, steps, Arrive("a", false));
    steps := steps + [Arrive("a", false)];
  }

  lemma StaleAdmission(c: Config, steps: seq<Step>) returns (more: seq<Step>)
    requires c == Config(1, 1, 2, 1)
    requires Exec(c, steps) == Some(System(GateState(1, 1, map["a" := 1], 1, 0, 0, 0), map[1 := Waiter("a", 1)], map[],
                                           map[0 := "a"], 2, 0))
    ensures Exec(c, more) == Some(System(GateState(1, 0, map["a" := 2], 2, 0, 0, 1), map[], map[], map[1 := "a"], 2, 1))
  {
    hide Exec;
    assert 1 in Exec(c, steps).value.asleep;
    OneStep(c, steps, Leave(0, Some(1)));
    more := steps + [Leave(0, Some(1))];
    assert Exec(c, more) == Some(System(GateState(0, 1, map[], 1, 0, 0, 0), map[], map[1 := Waiter("a", 1)], map[], 2, 1));
    OneStep(c, more, Retry(1, false));
    more := more + [Retry(1, false)];
  }

  // ------------------------------------------------------------- several gates

  // As many requests as the budget has room for, each from a tenant of its own, are all admitted.
  lemma {:induction false} Fill(c: Config, n: nat) returns (steps: seq<Step>)
    requires ValidConfig(c) && CostOf(c.cost, n) <= c.budget
    ensures Exec(c, steps).Some?
    ensures var g := Exec(c, steps).value.gate;
            g.activeCost == CostOf(c.cost, n) && g.queued == 0 && forall t :: t in g.byTenant ==> |t| < n
  {
    steps := [];
    if n > 0 {
      CostGrows(c.cost, n - 1, 1);
      steps := Fill(c, n - 1);
      var tenant := seq(n - 1, _ => 'a');
      OneStep(c, steps, Arrive(tenant, false));
      steps := steps + [Arrive(tenant, false)];
    }
  }

  lemma {:induction false} MostThatFit(cost: int, budget: int, from: nat) returns (n: nat)
    requires cost >= 1 && CostOf(cost, from) <= budget
    ensures n >= from && CostOf(cost, n) <= budget < CostOf(cost, n) + cost
    decreases budget - CostOf(cost, from)
  {
    if CostOf(cost, from) + cost > budget {
      n := from;
    } else {
      n := MostThatFit(cost, budget, from + 1);
    }
  }

  lemma {:induction false} MoreThanHalf(c: Config) returns (steps: seq<Step>)
    requires ValidConfig(c)
    ensures Exec(c, steps).Some? && 2 * Exec(c, steps).value.gate.activeCost > c.budget
  {
    hide Exec;
    assert CostOf(c.cost, 1) == CostOf(c.cost, 0) + c.cost;
    var n := MostThatFit(c.cost, c.budget, 1);
    CostGrows(c.cost, 1, n - 1);
    steps := Fill(c, n);
  }

  // The budget binds each gate alone: any two gates configured with one budget can
  // together be doing more than it.
  lemma {:induction false} BudgetIsPerGate(c: Config, d: Config)
    requires ValidConfig(c) && ValidConfig(d) && c.budget == d.budget
    ensures exists one, other ::
              && Exec(c, one).Some? && Exec(d, other).Some?
              && Exec(c, one).value.gate.activeCost + Exec(d, other).value.gate.activeCost > c.budget
  {
    hide Exec;
    var one := MoreThanHalf(c);
    var other := MoreThanHalf(d);
  }
}
