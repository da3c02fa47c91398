/**
 The report runner. Any number of runners, the scheduler thread and requests among
 them, execute report definitions without a lock between them. Each step is one
 commit or one query, so the runs of a definition may overlap.
 */
module ReportRuns {
  import opened Prelude
  import opened Calendar
  import opened Scheduling

  datatype Definition = Definition(tenant: string, enabled: bool, schedule: Option<Schedule>,
                                   nextRunAt: Option<DateTime>, lastRunAt: Option<DateTime>)

  datatype Trigger = Manual | Scheduled

  datatype Status = Succeeded | Failed | Suppressed

  // A finished run, with the next_run_at its runner had read and how long the log was
  // then; or a move of the next run time, computed from `base`: by a run, whose runner
  // had asked at that length of the log, or by a creation or an edit of the schedule.
  datatype LogEntry =
    | Ran(definition: string, trigger: Trigger, status: Status, at: DateTime, slot: Option<DateTime>, asked: nat)
    | Moved(definition: string, base: DateTime, schedule: Option<Schedule>, run: Option<nat>)

  // A definition a runner has read.
  datatype Claim = Claim(id: string, slot: Option<DateTime>, asked: nat)

  // What a runner still has to execute; when `marking`, the run of the first is finished
  // and its definition is to be moved on.
  datatype Runner = Idle | Busy(trigger: Trigger, now: DateTime, left: seq<Claim>, marking: bool)

  datatype Store = Store(defs: map<string, Definition>, log: seq<LogEntry>, runners: seq<Runner>, clock: DateTime)

  function Empty(runners: nat, clock: DateTime): Store {
    Store(map[], [], seq(runners, _ => Idle), clock)
  }

  predicate IsDue(d: Definition, now: DateTime, tenant: string) {
    d.enabled && d.nextRunAt.Some? && AtOrBefore(d.nextRunAt.value, now) && (tenant != "" ==> d.tenant == tenant)
  }

  predicate DueNoLater(defs: map<string, Definition>, a: string, b: string) {
    && a in defs && b in defs && defs[a].nextRunAt.Some? && defs[b].nextRunAt.Some?
    && AtOrBefore(defs[a].nextRunAt.value, defs[b].nextRunAt.value)
  }

  // An answer of the due query: at most `limit` of the due definitions, earliest first,
  // and none left out that is earlier or for which there was room.
  predicate DueAnswer(defs: map<string, Definition>, now: DateTime, limit: nat, tenant: string, due: seq<string>) {
    && NoDuplicates(due) && |due| <= limit
    && (forall id :: id in due ==> id in defs && IsDue(defs[id], now, tenant))
    && (forall i, j :: 0 <= i < j < |due| ==> DueNoLater(defs, due[i], due[j]))
    && (forall id :: id in defs && IsDue(defs[id], now, tenant) && id !in due ==>
          |due| == limit && forall i :: 0 <= i < |due| ==> DueNoLater(defs, due[i], id))
  }

  lemma OrderOfDue(defs: map<string, Definition>, a: string, b: string, c: string)
    requires a in defs && b in defs && defs[a].nextRunAt.Some? && defs[b].nextRunAt.Some?
    ensures DueNoLater(defs, a, b) || DueNoLater(defs, b, a)
    ensures DueNoLater(defs, a, b) && DueNoLater(defs, b, c) ==> DueNoLater(defs, a, c)
  {
  }

  // ------------------------------------------------------------------ steps

  datatype Step =
    | Ask(now: DateTime, r: nat, limit: nat, tenant: string, due: seq<string>)   // a tick begins
    | AskOne(now: DateTime, r: nat, id: string)                                  // a manual run begins
    | Finish(r: nat, status: Status)
    | Mark(r: nat, committed: bool)
    | Create(now: DateTime, id: string, tenant: string, enabled: bool, schedule: Option<Schedule>)
    | SetEnabled(now: DateTime, id: string, enabled: bool)
    | SetSchedule(now: DateTime, id: string, schedule: Option<Schedule>)
    | Delete(now: DateTime, id: string)

  predicate Timely(s: Store, now: DateTime) {
    ValidTime(now) && Instant(s.clock) <= Instant(now)
  }

  predicate Ready(s: Store, r: nat, marking: bool) {
    r < |s.runners| && s.runners[r].Busy? && s.runners[r].left != [] && s.runners[r].marking == marking
  }

  // Ids are never used twice.
  predicate Enabled(s: Store, step: Step) {
    match step
    case Ask(now, r, limit, tenant, due) =>
      Timely(s, now) && r < |s.runners| && s.runners[r].Idle? && DueAnswer(s.defs, now, limit, tenant, due)
    case AskOne(now, r, id) => Timely(s, now) && r < |s.runners| && s.runners[r].Idle? && id in s.defs
    case Finish(r, _) => Ready(s, r, false)
    case Mark(r, _) => Ready(s, r, true)
    case Create(now, id, _, _, _) =>
      Timely(s, now) && id !in s.defs && forall i :: 0 <= i < |s.log| ==> s.log[i].definition != id
    case SetEnabled(now, id, _) => Timely(s, now) && id in s.defs
    case SetSchedule(now, id, _) => Timely(s, now) && id in s.defs
    case Delete(now, id) => Timely(s, now) && id in s.defs
  }

  function Claims(s: Store, due: seq<string>): (claims: seq<Claim>)
    requires forall id :: id in due ==> id in s.defs
    ensures |claims| == |due|
    ensures forall i :: 0 <= i < |due| ==> claims[i] == Claim(due[i], s.defs[due[i]].nextRunAt, |s.log|)
  {
    seq(|due|, i requires 0 <= i < |due| => Claim(due[i], s.defs[due[i]].nextRunAt, |s.log|))
  }

  function Onward(b: Runner): Runner
    requires b.Busy? && b.left != []
  {
    if |b.left| == 1 then Idle else b.(left := b.left[1..], marking := false)
  }

  // The first commit of a run. A definition deleted meanwhile raises and ends the tick.
  function Finished(s: Store, r: nat, status: Status): Store
    requires Ready(s, r, false)
  {
    var b := s.runners[r];
    var c := b.left[0];
    if c.id !in s.defs then s.(runners := s.runners[r := Idle])
    else
      s.(log := s.log + [Ran(c.id, b.trigger, status, b.now, c.slot, c.asked)],
         runners := s.runners[r := if status.Succeeded? then b.(marking := true) else Onward(b)])
  }

  // The second commit, after a success. If it fails, that raises and ends the tick.
  function Marked(s: Store, r: nat, committed: bool): Store
    requires Ready(s, r, true)
  {
    var b := s.runners[r];
    var c := b.left[0];
    if !committed || c.id !in s.defs then s.(runners := s.runners[r := Idle])
    else
      var d := s.defs[c.id];
      s.(defs := s.defs[c.id := d.(lastRunAt := Some(b.now), nextRunAt := ComputeNextRun(d.schedule, b.now))],
         log := s.log + [Moved(c.id, b.now, d.schedule, Some(c.asked))],
         runners := s.runners[r := Onward(b)])
  }

  function Planned(s: Store, id: string, d: Definition, now: DateTime): Store {
    s.(defs := s.defs[id := d.(nextRunAt := ComputeNextRun(d.schedule, now))],
       log := s.log + [Moved(id, now, d.schedule, None)], clock := now)
  }

  function Next(s: Store, step: Step): Store
    requires Enabled(s, step)
  {
    match step
    case Ask(now, r, _, _, due) =>
      s.(runners := s.runners[r := if due == [] then Idle else Busy(Scheduled, now, Claims(s, due), false)], clock := now)
    case AskOne(now, r, id) => s.(runners := s.runners[r := Busy(Manual, now, Claims(s, [id]), false)], clock := now)
    case Finish(r, status) => Finished(s, r, status)
    case Mark(r, committed) => Marked(s, r, committed)
    case Create(now, id, tenant, enabled, schedule) => Planned(s, id, Definition(tenant, enabled, schedule, None, None), now)
    case SetEnabled(now, id, enabled) => s.(defs := s.defs[id := s.defs[id].(enabled := enabled)], clock := now)
    case SetSchedule(now, id, schedule) => Planned(s, id, s.defs[id].(schedule := schedule), now)
    case Delete(now, id) => s.(defs := s.defs - {id}, clock := now)
  }

  // The state after the steps, if each is possible in its turn.
  function Exec(s: Store, steps: seq<Step>): Option<Store> {
    if steps == [] then Some(s)
    else
      var before, step := Exec(s, steps[..|steps| - 1]), steps[|steps| - 1];
      if before.Some? && Enabled(before.value, step) then Some(Next(before.value, step)) else None
  }

  lemma {:induction false} ExecMore(s: Store, steps: seq<Step>, step: Step)
    requires Exec(s, steps).Some? && Enabled(Exec(s, steps).value, step)
    ensures Exec(s, steps + [step]) == Some(Next(Exec(s, steps).value, step))
  {
    assert (steps + [step])[..|steps|] == steps;
  }

  // ------------------------------------------------------- what the log says

  predicate Moves(e: LogEntry, id: string) {
    e.Moved? && e.definition == id
  }

  // The last move of the definition among the first q entries, or -1.
  function InForce(log: seq<LogEntry>, q: nat, id: string): (k: int)
    requires q <= |log|
    ensures -1 <= k < q && (k >= 0 ==> Moves(log[k], id))
    ensures forall p :: k < p < q ==> !Moves(log[p], id)
  {
    if q == 0 then -1 else if Moves(log[q - 1], id) then q - 1 else InForce(log, q - 1, id)
  }

  ghost predicate BasesUpTo(log: seq<LogEntry>, q: nat, id: string, now: DateTime)
    requires q <= |log|
  {
    forall p :: 0 <= p < q && Moves(log[p], id) ==> Instant(log[p].base) <= Instant(now)
  }

  // What was read stood as computed by the move in force then; no move in force then was
  // computed from a later time; and every edit since is.
  ghost predicate ClaimOk(log: seq<LogEntry>, trigger: Trigger, now: DateTime, c: Claim) {
    && ValidTime(now) && c.asked <= |log|
    && InForce(log, c.asked, c.id) >= 0
    && c.slot == ComputeNextRun(log[InForce(log, c.asked, c.id)].schedule, log[InForce(log, c.asked, c.id)].base)
    && BasesUpTo(log, c.asked, c.id, now)
    && (forall k :: c.asked <= k < |log| && Moves(log[k], c.id) && log[k].run.None? ==> Instant(now) <= Instant(log[k].base))
    && (trigger.Scheduled? ==> c.slot.Some? && Instant(c.slot.value) <= Instant(now))
  }

  ghost predicate MoveOk(log: seq<LogEntry>, k: nat)
    requires k < |log|
  {
    var e := log[k];
    e.Moved? ==>
      && ValidTime(e.base)
      && (e.run.None? ==> BasesUpTo(log, k, e.definition, e.base))
      && (e.run.Some? ==>
            && e.run.value <= k && BasesUpTo(log, e.run.value, e.definition, e.base)
            && InForce(log, k, e.definition) >= 0 && log[InForce(log, k, e.definition)].schedule == e.schedule)
  }

  ghost predicate RanOk(log: seq<LogEntry>, i: nat)
    requires i < |log|
  {
    var e := log[i];
    e.Ran? ==> e.asked <= i && ClaimOk(log, e.trigger, e.at, Claim(e.definition, e.slot, e.asked))
  }

  ghost predicate LogOk(log: seq<LogEntry>, clock: DateTime) {
    && (forall k :: 0 <= k < |log| ==> MoveOk(log, k) && RanOk(log, k))
    && (forall k :: 0 <= k < |log| && log[k].Moved? ==> Instant(log[k].base) <= Instant(clock))
    && (forall k :: 0 <= k < |log| && log[k].Ran? ==> Instant(log[k].at) <= Instant(clock))
  }

  // The definition stands as the move in force has left it.
  ghost predicate DefOk(log: seq<LogEntry>, id: string, d: Definition) {
    var k := InForce(log, |log|, id);
    k >= 0 && log[k].schedule == d.schedule && d.nextRunAt == ComputeNextRun(d.schedule, log[k].base)
  }

  ghost predicate RunnerOk(log: seq<LogEntry>, clock: DateTime, b: Runner) {
    b.Busy? ==> Instant(b.now) <= Instant(clock) && forall i :: 0 <= i < |b.left| ==> ClaimOk(log, b.trigger, b.now, b.left[i])
  }

  ghost predicate Inv(s: Store) {
    && ValidTime(s.clock) && LogOk(s.log, s.clock)
    && (forall id :: id in s.defs ==> DefOk(s.log, id, s.defs[id]))
    && (forall r :: 0 <= r < |s.runners| ==> RunnerOk(s.log, s.clock, s.runners[r]))
  }

  // ---------------------------------------------------------- one more entry

  lemma {:induction false} InForceStays(log: seq<LogEntry>, e: LogEntry, q: nat, id: string)
    requires q <= |log|
    ensures InForce(log + [e], q, id) == InForce(log, q, id)
  {
    if q > 0 {
      InForceStays(log, e, q - 1, id);
    }
  }

  lemma InForceAfter(log: seq<LogEntry>, e: LogEntry, id: string)
    ensures InForce(log + [e], |log| + 1, id) == if Moves(e, id) then |log| else InForce(log, |log|, id)
  {
    InForceStays(log, e, |log|, id);
  }

  lemma ClaimStays(log: seq<LogEntry>, e: LogEntry, trigger: Trigger, now: DateTime, c: Claim)
    requires ClaimOk(log, trigger, now, c)
    requires Moves(e, c.id) && e.run.None? ==> Instant(now) <= Instant(e.base)
    ensures ClaimOk(log + [e], trigger, now, c) && c.asked <= |log|
  {
    hide InForce, Instant, ComputeNextRun;
    InForceStays(log, e, c.asked, c.id);
  }

  lemma EntriesStay(log: seq<LogEntry>, clock: DateTime, e: LogEntry)
    requires LogOk(log, clock) && (e.Moved? && e.run.None? ==> Instant(clock) <= Instant(e.base))
    ensures forall k :: 0 <= k < |log| ==> MoveOk(log + [e], k) && RanOk(log + [e], k)
  {
    hide InForce, Instant, ComputeNextRun, ClaimOk;
    forall k | 0 <= k < |log| ensures MoveOk(log + [e], k) && RanOk(log + [e], k) {
      assert MoveOk(log, k) && RanOk(log, k);
      if log[k].Ran? {
        ClaimStays(log, e, log[k].trigger, log[k].at, Claim(log[k].definition, log[k].slot, log[k].asked));
      } else {
        InForceStays(log, e, k, log[k].definition);
      }
    }
  }

  lemma LaterClock(s: Store, now: DateTime)
    requires Inv(s) && Timely(s, now)
    ensures Inv(s.(clock := now))
  {
    hide InForce, Instant, ComputeNextRun, ClaimOk, MoveOk, DefOk;
  }

  // One more entry, after which the definition it is about stands as `d`, if it still stands.
  lemma EntryKeepsInv(s: Store, e: LogEntry, d: Definition)
    requires Inv(s)
    requires MoveOk(s.log + [e], |s.log|) && RanOk(s.log + [e], |s.log|)
    requires e.Moved? ==> Instant(e.base) <= Instant(s.clock) && (e.run.None? ==> e.base == s.clock)
    requires e.Moved? ==> d.schedule == e.schedule && d.nextRunAt == ComputeNextRun(d.schedule, e.base)
    requires e.Ran? ==> Instant(e.at) <= Instant(s.clock)
    ensures Inv(s.(log := s.log + [e], defs := if e.Moved? then s.defs[e.definition := d] else s.defs))
  {
    hide InForce, Instant, ComputeNextRun, ClaimOk, MoveOk;
    var log := s.log + [e];
    EntriesStay(s.log, s.clock, e);
    forall r, i | 0 <= r < |s.runners| && s.runners[r].Busy? && 0 <= i < |s.runners[r].left|
      ensures ClaimOk(log, s.runners[r].trigger, s.runners[r].now, s.runners[r].left[i])
    {
      assert RunnerOk(s.log, s.clock, s.runners[r]);
      ClaimStays(s.log, e, s.runners[r].trigger, s.runners[r].now, s.runners[r].left[i]);
    }
    forall id | id in s.defs && !(e.Moved? && id == e.definition) ensures DefOk(log, id, s.defs[id]) {
      InForceAfter(s.log, e, id);
    }
    InForceAfter(s.log, e, e.definition);
  }

  // A runner that goes on to fewer of the claims it had.
  lemma RunnerKeepsInv(s: Store, r: nat, b: Runner)
    requires Inv(s) && r < |s.runners| && RunnerOk(s.log, s.clock, b)
    ensures Inv(s.(runners := s.runners[r := b]))
  {
    hide InForce, Instant, ComputeNextRun, ClaimOk, MoveOk, DefOk, LogOk, RunnerOk;
  }

  lemma OnwardIsOk(log: seq<LogEntry>, clock: DateTime, b: Runner)
    requires b.Busy? && b.left != [] && RunnerOk(log, clock, b)
    ensures RunnerOk(log, clock, Onward(b)) && RunnerOk(log, clock, b.(marking := true))
  {
    hide InForce, Instant, ComputeNextRun, ClaimOk;
  }

  lemma {:induction false} FinishKeepsInv(s: Store, r: nat, status: Status)
    requires Inv(s) && Ready(s, r, false)
    ensures Inv(Finished(s, r, status))
  {
    hide InForce, Instant, ComputeNextRun, ClaimOk, MoveOk, DefOk, LogOk;
    var b := s.runners[r];
    var c := b.left[0];
    assert RunnerOk(s.log, s.clock, b) && ClaimOk(s.log, b.trigger, b.now, c);
    if c.id in s.defs {
      var e := Ran(c.id, b.trigger, status, b.now, c.slot, c.asked);
      ClaimStays(s.log, e, b.trigger, b.now, c);
      RanIsOk(s.log, e, c);
      EntryKeepsInv(s, e, s.defs[c.id]);
      var s' := s.(log := s.log + [e]);
      OnwardIsOk(s'.log, s'.clock, b);
      RunnerKeepsInv(s', r, if status.Succeeded? then b.(marking := true) else Onward(b));
    } else {
      RunnerKeepsInv(s, r, Idle);
    }
  }

  lemma RanIsOk(log: seq<LogEntry>, e: LogEntry, c: Claim)
    requires e.Ran? && c == Claim(e.definition, e.slot, e.asked) && c.asked <= |log| && ClaimOk(log + [e], e.trigger, e.at, c)
    ensures RanOk(log + [e], |log|) && MoveOk(log + [e], |log|)
  {
    hide InForce, Instant, ComputeNextRun, ClaimOk;
  }

  lemma MoveIsOk(log: seq<LogEntry>, e: LogEntry)
    requires e.Moved? && ValidTime(e.base)
    requires e.run.None? ==> BasesUpTo(log, |log|, e.definition, e.base)
    requires e.run.Some? ==>
               && e.run.value <= |log| && BasesUpTo(log, e.run.value, e.definition, e.base)
               && InForce(log, |log|, e.definition) >= 0 && log[InForce(log, |log|, e.definition)].schedule == e.schedule
    ensures RanOk(log + [e], |log|) && MoveOk(log + [e], |log|)
  {
    hide InForce, Instant, ComputeNextRun, ClaimOk;
    InForceStays(log, e, |log|, e.definition);
  }

  lemma {:induction false} MarkKeepsInv(s: Store, r: nat, committed: bool)
    requires Inv(s) && Ready(s, r, true)
    ensures Inv(Marked(s, r, committed))
  {
    hide InForce, Instant, ComputeNextRun, MoveOk, LogOk;
    var b := s.runners[r];
    var c := b.left[0];
    assert RunnerOk(s.log, s.clock, b) && ClaimOk(s.log, b.trigger, b.now, c);
    if committed && c.id in s.defs {
      var d := s.defs[c.id];
      assert DefOk(s.log, c.id, d);
      var e := Moved(c.id, b.now, d.schedule, Some(c.asked));
      MoveIsOk(s.log, e);
      EntryKeepsInv(s, e, Marked(s, r, committed).defs[c.id]);
      var s' := Marked(s, r, committed).(runners := s.runners);
      OnwardIsOk(s'.log, s'.clock, b);
      RunnerKeepsInv(s', r, Onward(b));
    } else {
      RunnerKeepsInv(s, r, Idle);
    }
  }

  lemma {:induction false} PlannedKeepsInv(s: Store, id: string, d: Definition, now: DateTime)
    requires Inv(s) && Timely(s, now)
    ensures Inv(Planned(s, id, d, now))
  {
    hide InForce, Instant, ComputeNextRun, MoveOk, ClaimOk, DefOk, RunnerOk;
    LaterClock(s, now);
    var e := Moved(id, now, d.schedule, None);
    MoveIsOk(s.log, e);
    EntryKeepsInv(s.(clock := now), e, d.(nextRunAt := ComputeNextRun(d.schedule, now)));
  }

  // What a runner reads of a definition that stands.
  lemma {:induction false} FreshClaim(s: Store, now: DateTime, id: string, trigger: Trigger)
    requires Inv(s) && Timely(s, now) && id in s.defs
    requires trigger.Scheduled? ==> s.defs[id].nextRunAt.Some? && AtOrBefore(s.defs[id].nextRunAt.value, now)
    ensures ClaimOk(s.log, trigger, now, Claim(id, s.defs[id].nextRunAt, |s.log|))
  {
    hide InForce, Instant, ComputeNextRun;
    assert DefOk(s.log, id, s.defs[id]);
    if trigger.Scheduled? {
      var k := InForce(s.log, |s.log|, id);
      assert MoveOk(s.log, k);
      NextRunIsFirstSlot(s.log[k].schedule, s.log[k].base);
      FieldOrderIsInstantOrder(s.defs[id].nextRunAt.value, now);
    }
  }

  lemma {:induction false} AskKeepsInv(s: Store, now: DateTime, r: nat, trigger: Trigger, ids: seq<string>)
    requires Inv(s) && Timely(s, now) && r < |s.runners|
    requires forall id :: id in ids ==> id in s.defs
    requires trigger.Scheduled? ==>
               forall id :: id in ids ==> s.defs[id].nextRunAt.Some? && AtOrBefore(s.defs[id].nextRunAt.value, now)
    ensures Inv(s.(runners := s.runners[r := Busy(trigger, now, Claims(s, ids), false)], clock := now))
    ensures Inv(s.(runners := s.runners[r := Idle], clock := now))
  {
    hide InForce, Instant, ComputeNextRun, MoveOk, ClaimOk, DefOk, LogOk, AtOrBefore;
    LaterClock(s, now);
    forall i | 0 <= i < |ids| ensures ClaimOk(s.log, trigger, now, Claims(s, ids)[i]) {
      assert ids[i] in ids;
      FreshClaim(s, now, ids[i], trigger);
    }
    RunnerKeepsInv(s.(clock := now), r, Busy(trigger, now, Claims(s, ids), false));
    RunnerKeepsInv(s.(clock := now), r, Idle);
  }

  lemma DefsKeepInv(s: Store, defs: map<string, Definition>)
    requires Inv(s)
    requires forall id :: id in defs ==>
               id in s.defs && defs[id].schedule == s.defs[id].schedule && defs[id].nextRunAt == s.defs[id].nextRunAt
    ensures Inv(s.(defs := defs))
  {
    hide InForce, Instant, ComputeNextRun, MoveOk, ClaimOk, LogOk, RunnerOk;
  }

  lemma {:induction false} StepKeepsInv(s: Store, step: Step)
    requires Inv(s) && Enabled(s, step)
    ensures Inv(Next(s, step))
  {
    hide Inv, Instant, ComputeNextRun, Finished, Marked, Planned, AtOrBefore, ValidTime;
    match step
    case Ask(now, r, _, _, due) => AskKeepsInv(s, now, r, Scheduled, due);
    case AskOne(now, r, id) => AskKeepsInv(s, now, r, Manual, [id]);
    case Finish(r, status) => FinishKeepsInv(s, r, status);
    case Mark(r, committed) => MarkKeepsInv(s, r, committed);
    case Create(now, id, tenant, enabled, schedule) =>
      PlannedKeepsInv(s, id, Definition(tenant, enabled, schedule, None, None), now);
    case SetEnabled(now, id, enabled) =>
      LaterClock(s, now);
      DefsKeepInv(s.(clock := now), Next(s, step).defs);
    case SetSchedule(now, id, schedule) =>
      PlannedKeepsInv(s, id, s.defs[id].(schedule := schedule), now);
    case Delete(now, id) =>
      LaterClock(s, now);
      DefsKeepInv(s.(clock := now), Next(s, step).defs);
  }

  lemma EmptyIsFine(runners: nat, clock: DateTime)
    requires ValidTime(clock)
    ensures Inv(Empty(runners, clock))
  {
  }

  lemma {:induction false} RunsKeepInv(s: Store, steps: seq<Step>)
    requires Inv(s) && Exec(s, steps).Some?
    ensures Inv(Exec(s, steps).value)
  {
    hide Inv, Next, Enabled;
    if steps != [] {
      RunsKeepInv(s, steps[..|steps| - 1]);
      StepKeepsInv(Exec(s, steps[..|steps| - 1]).value, steps[|steps| - 1]);
    }
  }

  // ---------------------------------------------------------- main results

  predicate FromTick(e: LogEntry) {
    e.Ran? && e.trigger.Scheduled?
  }

  predicate SlotSucceeded(e: LogEntry) {
    FromTick(e) && e.status.Succeeded?
  }

  // Whatever overlaps: a scheduled run has the slot of another of its definition if and
  // only if that slot is the first one after the time from which the move in force when
  // it asked was computed.
  ghost predicate SlotIsDecided(log: seq<LogEntry>, i: nat, j: nat)
    requires i < |log| && j < |log|
  {
    FromTick(log[i]) && FromTick(log[j]) && log[i].definition == log[j].definition ==>
      && log[i].slot.Some? && log[j].slot.Some? && log[j].asked <= |log|
      && var k := InForce(log, log[j].asked, log[j].definition);
         && k >= 0 && log[k].schedule.Some?
         && (log[i].slot == log[j].slot <==> FirstSlotAfter(log[k].schedule.value, log[k].base, log[i].slot.value))
  }

  lemma {:induction false} LogDecidesSlots(log: seq<LogEntry>, clock: DateTime, i: nat, j: nat)
    requires LogOk(log, clock) && i < |log| && j < |log|
    ensures SlotIsDecided(log, i, j)
  {
    hide InForce, Instant, ComputeNextRun, Slot;
    assert RanOk(log, i) && RanOk(log, j);
    if FromTick(log[i]) && FromTick(log[j]) && log[i].definition == log[j].definition {
      var k := InForce(log, log[j].asked, log[j].definition);
      assert MoveOk(log, k);
      NextRunIsFirstSlot(log[k].schedule, log[k].base);
      OneFirstSlot(log[k].schedule.value, log[k].base, log[i].slot.value, log[j].slot.value);
    }
  }

  lemma OneFirstSlot(s: Schedule, base: DateTime, a: DateTime, b: DateTime)
    requires FirstSlotAfter(s, base, b)
    ensures FirstSlotAfter(s, base, a) <==> a == b
  {
    hide Instant;
    if FirstSlotAfter(s, base, a) {
      InstantIsInjective(a, b);
    }
  }

  lemma {:induction false} SlotsAreDecided(runners: nat, clock: DateTime, steps: seq<Step>, i: nat, j: nat)
    requires ValidTime(clock) && Exec(Empty(runners, clock), steps).Some?
    requires var log := Exec(Empty(runners, clock), steps).value.log; i < |log| && j < |log|
    ensures SlotIsDecided(Exec(Empty(runners, clock), steps).value.log, i, j)
  {
    hide InForce, Instant, Exec, SlotIsDecided, LogOk;
    EmptyIsFine(runners, clock);
    RunsKeepInv(Empty(runners, clock), steps);
    LogDecidesSlots(Exec(Empty(runners, clock), steps).value.log, Exec(Empty(runners, clock), steps).value.clock, i, j);
  }

  // No move of the definition was computed from an earlier time than one before it.
  ghost predicate Forward(log: seq<LogEntry>, q: nat, id: string)
    requires q <= |log|
  {
    forall p, k :: 0 <= p < k < q && Moves(log[p], id) && Moves(log[k], id) ==> Instant(log[p].base) <= Instant(log[k].base)
  }

  // Between the two a move was made that was computed from a time not before the slot.
  ghost predicate Passed(log: seq<LogEntry>, from: nat, to: nat, id: string, slot: DateTime)
    requires to <= |log|
  {
    exists k :: from <= k < to && Moves(log[k], id) && Instant(slot) <= Instant(log[k].base)
  }

  ghost predicate PairOk(log: seq<LogEntry>, i: nat, j: nat)
    requires i < |log| && j < |log|
  {
    var id := log[i].definition;
    FromTick(log[i]) && FromTick(log[j]) && id == log[j].definition && log[i].asked <= log[j].asked <= |log|
    && Forward(log, log[j].asked, id) ==>
      && log[i].slot.Some? && log[j].slot.Some?
      && Instant(log[i].slot.value) <= Instant(log[j].slot.value)
      && (log[i].slot == log[j].slot <==> !Passed(log, log[i].asked, log[j].asked, id, log[i].slot.value))
  }

  // Runs leave the schedule alone.
  lemma {:induction false} ScheduleStays(log: seq<LogEntry>, from: nat, q: nat, id: string)
    requires from <= q <= |log| && forall k :: 0 <= k < |log| ==> MoveOk(log, k)
    requires InForce(log, from, id) >= 0
    requires forall k :: from <= k < q && Moves(log[k], id) ==> log[k].run.Some?
    ensures InForce(log, q, id) >= 0 && log[InForce(log, q, id)].schedule == log[InForce(log, from, id)].schedule
  {
    hide Instant;
    if from < q {
      ScheduleStays(log, from, q - 1, id);
      assert MoveOk(log, q - 1);
    }
  }

  lemma {:induction false} PairIsOk(log: seq<LogEntry>, clock: DateTime, i: nat, j: nat)
    requires LogOk(log, clock) && i < |log| && j < |log|
    ensures PairOk(log, i, j)
  {
    hide InForce, Instant, ComputeNextRun;
    var a, b, id := log[i], log[j], log[i].definition;
    assert RanOk(log, i) && RanOk(log, j);
    if FromTick(a) && FromTick(b) && id == b.definition && a.asked <= b.asked <= |log| && Forward(log, b.asked, id) {
      if Passed(log, a.asked, b.asked, id, a.slot.value) {
        PassedIsLater(log, i, j);
      } else {
        NotPassedIsSame(log, i, j);
      }
    }
  }

  lemma {:induction false} PassedIsLater(log: seq<LogEntry>, i: nat, j: nat)
    requires i < |log| && j < |log| && RanOk(log, i) && RanOk(log, j) && forall k :: 0 <= k < |log| ==> MoveOk(log, k)
    requires FromTick(log[i]) && FromTick(log[j]) && log[i].definition == log[j].definition
    requires log[i].asked <= log[j].asked <= |log| && Forward(log, log[j].asked, log[i].definition)
    requires log[i].slot.Some? && Passed(log, log[i].asked, log[j].asked, log[i].definition, log[i].slot.value)
    ensures log[j].slot.Some? && Instant(log[i].slot.value) < Instant(log[j].slot.value)
  {
    hide InForce, Instant, ComputeNextRun;
    var id := log[i].definition;
    var k :| log[i].asked <= k < log[j].asked && Moves(log[k], id) && Instant(log[i].slot.value) <= Instant(log[k].base);
    var m := InForce(log, log[j].asked, id);
    assert k <= m && MoveOk(log, m);
    assert Instant(log[k].base) <= Instant(log[m].base);
    NextRunIsFirstSlot(log[m].schedule, log[m].base);
  }

  lemma {:induction false} NotPassedIsSame(log: seq<LogEntry>, i: nat, j: nat)
    requires i < |log| && j < |log| && RanOk(log, i) && RanOk(log, j) && forall k :: 0 <= k < |log| ==> MoveOk(log, k)
    requires FromTick(log[i]) && FromTick(log[j]) && log[i].definition == log[j].definition
    requires log[i].asked <= log[j].asked <= |log| && Forward(log, log[j].asked, log[i].definition)
    requires log[i].slot.Some? && !Passed(log, log[i].asked, log[j].asked, log[i].definition, log[i].slot.value)
    ensures log[j].slot == log[i].slot
  {
    hide InForce, Instant, ComputeNextRun;
    var id := log[i].definition;
    ScheduleStays(log, log[i].asked, log[j].asked, id);
    var k, m := InForce(log, log[i].asked, id), InForce(log, log[j].asked, id);
    assert MoveOk(log, k) && MoveOk(log, m);
    assert m >= log[i].asked || m == k;
    NextRunIsFirstSlot(log[k].schedule, log[k].base);
    NextRunIsMonotone(log[k].schedule, log[k].base, log[m].base);
  }

  ghost predicate SlotsRise(log: seq<LogEntry>) {
    forall i, j :: 0 <= i < |log| && 0 <= j < |log| ==> PairOk(log, i, j)
  }

  // Any number of runners, any interleaving of their commits with creations, edits and
  // deletions: as long as no move goes back in time, the scheduled runs of a definition
  // serve slots that rise in the order they asked, and two of them the same slot if and
  // only if no move computed from a time at or after it was made between their asking.
  lemma {:induction false} NoSlotSucceedsTwice(runners: nat, clock: DateTime, steps: seq<Step>)
    requires ValidTime(clock) && Exec(Empty(runners, clock), steps).Some?
    ensures SlotsRise(Exec(Empty(runners, clock), steps).value.log)
  {
    hide InForce, Instant, Exec, PairOk, LogOk;
    EmptyIsFine(runners, clock);
    RunsKeepInv(Empty(runners, clock), steps);
    var s := Exec(Empty(runners, clock), steps).value;
    forall i, j | 0 <= i < |s.log| && 0 <= j < |s.log| ensures PairOk(s.log, i, j) {
      PairIsOk(s.log, s.clock, i, j);
    }
  }

  // Moves go back only where runs overlap: one that goes back belongs to a run that had
  // asked before the other move was made.
  ghost predicate BackMeansOverlap(log: seq<LogEntry>) {
    forall p, k :: 0 <= p < k < |log| && Moves(log[k], log[p].definition) && log[p].Moved? && Instant(log[k].base) < Instant(log[p].base)
      ==> log[k].run.Some? && log[k].run.value <= p
  }

  lemma {:induction false} OnlyOverlapsGoBack(runners: nat, clock: DateTime, steps: seq<Step>)
    requires ValidTime(clock) && Exec(Empty(runners, clock), steps).Some?
    ensures BackMeansOverlap(Exec(Empty(runners, clock), steps).value.log)
  {
    hide InForce, Instant, Exec, RanOk;
    EmptyIsFine(runners, clock);
    RunsKeepInv(Empty(runners, clock), steps);
    var log := Exec(Empty(runners, clock), steps).value.log;
    forall p, k | 0 <= p < k < |log| && Moves(log[k], log[p].definition) && log[p].Moved? && Instant(log[k].base) < Instant(log[p].base)
      ensures log[k].run.Some? && log[k].run.value <= p
    {
      assert MoveOk(log, k);
    }
  }

  // A committed run passes its own slot, so who asks after that commit gets a later one.
  lemma {:induction false} CommittedRunPasses(runners: nat, clock: DateTime, steps: seq<Step>, i: nat, k: nat, j: nat)
    requires ValidTime(clock) && Exec(Empty(runners, clock), steps).Some?
    requires var log := Exec(Empty(runners, clock), steps).value.log;
             && i < k < |log| && j < |log| && SlotSucceeded(log[i]) && FromTick(log[j])
             && Moves(log[k], log[i].definition) && log[k].base == log[i].at && log[k].run == Some(log[i].asked)
             && log[j].definition == log[i].definition && k < log[j].asked <= |log|
             && Forward(log, log[j].asked, log[i].definition)
    ensures var log := Exec(Empty(runners, clock), steps).value.log;
            log[i].slot.Some? && log[j].slot.Some? && Instant(log[i].slot.value) < Instant(log[j].slot.value)
  {
    hide InForce, Instant, Exec, ComputeNextRun;
    EmptyIsFine(runners, clock);
    RunsKeepInv(Empty(runners, clock), steps);
    var log := Exec(Empty(runners, clock), steps).value.log;
    assert RanOk(log, i) && RanOk(log, j);
    PassedIsLater(log, i, j);
  }

  // What each step does to the definitions: a committed move sets the last run to the time
  // of its tick and the next one after it; creations, edits and deletions do as they say;
  // nothing else touches a definition.
  lemma DefinitionsStand(s: Store, step: Step, id: string)
    requires Enabled(s, step)
    ensures var s' := Next(s, step);
            var mine := !step.Ask? && !step.Finish? && id == (if step.Mark? then s.runners[step.r].left[0].id else step.id);
            && (!mine || step.AskOne? || (step.Mark? && !step.committed) ==>
                  (id in s'.defs <==> id in s.defs) && (id in s.defs ==> s'.defs[id] == s.defs[id]))
            && (mine && step.Mark? && step.committed && id in s.defs ==>
                  id in s'.defs && s'.defs[id] == s.defs[id].(lastRunAt := Some(s.runners[step.r].now), nextRunAt := s'.defs[id].nextRunAt))
            && (mine && step.Create? ==>
                  && id in s'.defs
                  && s'.defs[id] == Definition(step.tenant, step.enabled, step.schedule, s'.defs[id].nextRunAt, None))
            && (mine && step.SetEnabled? ==> id in s'.defs && s'.defs[id] == s.defs[id].(enabled := step.enabled))
            && (mine && step.SetSchedule? ==>
                  && id in s'.defs
                  && s'.defs[id] == s.defs[id].(schedule := step.schedule, nextRunAt := s'.defs[id].nextRunAt))
            && (mine && step.Delete? ==> id !in s'.defs)
  {
    hide ComputeNextRun, Instant, DueAnswer;
  }

  // Enabled, of the tenant if one is named, with a next run time not after that instant.
  ghost predicate DueBy(d: Definition, now: DateTime, tenant: string) {
    && d.enabled && d.nextRunAt.Some? && Instant(d.nextRunAt.value) <= Instant(now)
    && (tenant == "" || d.tenant == tenant)
  }

  // A tick takes on definitions that are due, at most the limit, and all if they are fewer.
  lemma {:induction false} AskedAreDue(s: Store, step: Step)
    requires Inv(s) && Enabled(s, step) && step.Ask?
    ensures forall id :: id in step.due ==> id in s.defs && DueBy(s.defs[id], step.now, step.tenant)
    ensures |step.due| <= step.limit
    ensures |step.due| < step.limit ==> forall id :: id in s.defs && DueBy(s.defs[id], step.now, step.tenant) ==> id in step.due
  {
    hide InForce, Instant, ComputeNextRun, AtOrBefore, LogOk, RunnerOk;
    forall id | id in s.defs && s.defs[id].nextRunAt.Some?
      ensures AtOrBefore(s.defs[id].nextRunAt.value, step.now) <==> Instant(s.defs[id].nextRunAt.value) <= Instant(step.now)
    {
      NextIsValid(s, id);
      FieldOrderIsInstantOrder(s.defs[id].nextRunAt.value, step.now);
    }
  }

  lemma {:induction false} NextIsValid(s: Store, id: string)
    requires Inv(s) && id in s.defs && s.defs[id].nextRunAt.Some?
    ensures ValidTime(s.defs[id].nextRunAt.value)
  {
    hide InForce, Instant, ComputeNextRun;
    assert DefOk(s.log, id, s.defs[id]);
    var k := InForce(s.log, |s.log|, id);
    assert MoveOk(s.log, k);
    NextRunIsFirstSlot(s.log[k].schedule, s.log[k].base);
  }
}
