/**
 One report runner among others, step by step, and runs in which runners that
 overlap, or a second commit that fails, have a slot served twice.
 */
module ReportRunners {
  import opened Prelude
  import opened Calendar
  import opened Scheduling
  import opened ReportRuns

  // Entry k tells of a run of the definition that was read at that length of the log.
  ghost predicate RanSince(log: seq<LogEntry>, id: string, now: DateTime, asked: nat) {
    exists k :: asked <= k < |log| && log[k].Ran? && log[k].definition == id && log[k].at == now && log[k].asked == asked
  }

  lemma StillRan(before: seq<LogEntry>, after: seq<LogEntry>, id: string, now: DateTime, asked: nat)
    requires before <= after && RanSince(before, id, now, asked)
    ensures RanSince(after, id, now, asked)
  {
    var k :| asked <= k < |before| && before[k].Ran? && before[k].definition == id && before[k].at == now && before[k].asked == asked;
    assert after[k] == before[k];
  }

  predicate TakenBy(step: Step, r: nat) {
    (step.Ask? || step.AskOne? || step.Finish? || step.Mark?) && step.r == r
  }

  lemma OthersLeaveMine(s: Store, step: Step, me: nat)
    requires Enabled(s, step) && !TakenBy(step, me) && me < |s.runners|
    ensures var s' := Next(s, step); |s'.runners| == |s.runners| && s'.runners[me] == s.runners[me] && s.log <= s'.log
  {
    hide ComputeNextRun, Instant, DueAnswer;
  }

  lemma FinishAdds(s: Store, r: nat, status: Status)
    requires Ready(s, r, false)
    ensures Enabled(s, Finish(r, status))
    ensures var s', b := Next(s, Finish(r, status)), s.runners[r];
            var c := b.left[0];
            && |s'.runners| == |s.runners|
            && s'.log == (if c.id in s.defs then s.log + [Ran(c.id, b.trigger, status, b.now, c.slot, c.asked)] else s.log)
            && s'.runners[r] == (if c.id !in s.defs then Idle else if status.Succeeded? then b.(marking := true) else Onward(b))
  {
  }

  lemma MarkAdds(s: Store, r: nat, committed: bool)
    requires Ready(s, r, true)
    ensures Enabled(s, Mark(r, committed))
    ensures var s', b := Next(s, Mark(r, committed)), s.runners[r];
            && |s'.runners| == |s.runners| && s.log <= s'.log
            && s'.runners[r] == if !committed || b.left[0].id !in s.defs then Idle else Onward(b)
  {
    hide ComputeNextRun;
  }

  class ReportRunner {
    const me: nat
    var defs: map<string, Definition>
    var log: seq<LogEntry>
    var runners: seq<Runner>
    var clock: DateTime

    function View(): Store
      reads this
    {
      Store(defs, log, runners, clock)
    }

    ghost predicate Valid()
      reads this
    {
      Inv(View()) && me < |runners|
    }

    constructor (me: nat, runners: nat, clock: DateTime)
      requires me < runners && ValidTime(clock)
      ensures Valid() && View() == Empty(runners, clock) && this.me == me
    {
      this.me, this.clock := me, clock;
      defs, log, this.runners := map[], [], seq(runners, _ => Idle);
      EmptyIsFine(runners, clock);
    }

    method Earliest(waiting: set<string>) returns (best: string)
      requires waiting != {} && forall id :: id in waiting ==> id in defs && defs[id].nextRunAt.Some?
      ensures best in waiting && forall id :: id in waiting ==> DueNoLater(defs, best, id)
    {
      best :| best in waiting;
      OrderOfDue(defs, best, best, best);
      var rest := waiting - {best};
      while rest != {}
        invariant best in waiting && rest <= waiting
        invariant forall id :: id in waiting && id !in rest ==> DueNoLater(defs, best, id)
        decreases |rest|
      {
        var x :| x in rest;
        forall id | id in waiting ensures DueNoLater(defs, x, best) || DueNoLater(defs, best, x)
          ensures DueNoLater(defs, x, best) && DueNoLater(defs, best, id) ==> DueNoLater(defs, x, id)
        {
          OrderOfDue(defs, x, best, id);
        }
        OrderOfDue(defs, x, x, x);
        if !AtOrBefore(defs[best].nextRunAt.value, defs[x].nextRunAt.value) {
          best := x;
        }
        rest := rest - {x};
      }
    }

    method GetDueReportDefinitions(now: DateTime, limit: nat, tenant: string) returns (due: seq<string>)
      ensures DueAnswer(defs, now, limit, tenant, due)
    {
      hide DueNoLater;
      var waiting := set id | id in defs && IsDue(defs[id], now, tenant);
      due := [];
      while |due| < limit && waiting != {}
        invariant NoDuplicates(due) && |due| <= limit
        invariant forall id :: id in waiting ==> id in defs && IsDue(defs[id], now, tenant) && id !in due
        invariant forall id :: id in defs && IsDue(defs[id], now, tenant) ==> id in waiting || id in due
        invariant forall id :: id in due ==> id in defs && IsDue(defs[id], now, tenant)
        invariant forall i, j :: 0 <= i < j < |due| ==> DueNoLater(defs, due[i], due[j])
        invariant forall i, id :: 0 <= i < |due| && id in waiting ==> DueNoLater(defs, due[i], id)
        decreases limit - |due|
      {
        var id := Earliest(waiting);
        due, waiting := due + [id], waiting - {id};
      }
    }

    // Any steps of the other runners, and any creations, edits and deletions.
    method Others(ghost s0: Store, ghost steps0: seq<Step>) returns (ghost steps: seq<Step>)
      requires Valid() && Exec(s0, steps0) == Some(View())
      modifies this
      ensures Valid() && Exec(s0, steps) == Some(View()) && steps0 <= steps
      ensures runners[me] == old(runners[me]) && old(log) <= log
    {
      hide Inv, Enabled, Next;
      steps := steps0;
      var rounds: nat := *;
      while rounds > 0
        invariant Valid() && Exec(s0, steps) == Some(View()) && steps0 <= steps
        invariant runners[me] == old(runners[me]) && old(log) <= log
      {
        var step: Step := *;
        if Enabled(View(), step) && !TakenBy(step, me) {
          StepKeepsInv(View(), step);
          ExecMore(s0, steps, step);
          OthersLeaveMine(View(), step, me);
          steps := steps + [step];
          var s := Next(View(), step);
          defs, log, runners, clock := s.defs, s.log, s.runners, s.clock;
        }
        rounds := rounds - 1;
      }
    }

    // The run ends and is recorded; `raised` if its definition is gone.
    method FinishRun(roleSufficient: bool, delivered: bool) returns (status: Status, raised: bool)
      requires Valid() && Ready(View(), me, false)
      modifies this
      ensures (status.Suppressed? <==> !roleSufficient) && (status.Succeeded? <==> roleSufficient && delivered)
      ensures (raised <==> old(runners[me].left[0].id) !in old(defs))
      ensures Valid() && View() == Next(old(View()), Finish(me, status))
    {
      hide Inv;
      status := if !roleSufficient then Suppressed else if delivered then Succeeded else Failed;
      StepKeepsInv(View(), Finish(me, status));
      var b := runners[me];
      var c := b.left[0];
      raised := c.id !in defs;
      if raised {
        runners := runners[me := Idle];
        return;
      }
      log := log + [Ran(c.id, b.trigger, status, b.now, c.slot, c.asked)];
      if status.Succeeded? {
        runners := runners[me := b.(marking := true)];
      } else {
        runners := runners[me := Onward(b)];
      }
    }

    // The definition is moved on from the time of the tick by the schedule as it now stands.
    method MarkRun(committed: bool) returns (raised: bool)
      requires Valid() && Ready(View(), me, true)
      modifies this
      ensures raised <==> !committed || old(runners[me].left[0].id) !in old(defs)
      ensures Valid() && View() == Next(old(View()), Mark(me, committed))
    {
      hide Inv;
      StepKeepsInv(View(), Mark(me, committed));
      var b := runners[me];
      var c := b.left[0];
      raised := !committed || c.id !in defs;
      if raised {
        runners := runners[me := Idle];
        return;
      }
      var d := defs[c.id];
      defs := defs[c.id := d.(lastRunAt := Some(b.now), nextRunAt := ComputeNextRun(d.schedule, b.now))];
      log := log + [Moved(c.id, b.now, d.schedule, Some(c.asked))];
      runners := runners[me := Onward(b)];
    }

    // The run of the first definition left, recorded as what it ended as; after a success
    // the second commit, with the others' steps before it. Raising ends the tick.
    method ExecuteReportDefinition(roleSufficient: bool, delivered: bool, committed: bool, ghost s0: Store, ghost steps0: seq<Step>)
      returns (status: Status, raised: bool, ghost steps: seq<Step>)
      requires Valid() && Ready(View(), me, false) && Exec(s0, steps0) == Some(View())
      modifies this
      ensures Valid() && Exec(s0, steps) == Some(View()) && old(log) <= log
      ensures (status.Suppressed? <==> !roleSufficient) && (status.Succeeded? <==> roleSufficient && delivered)
      ensures steps0 + [Finish(me, status)] <= steps
      ensures !raised && status.Succeeded? ==> committed && steps[|steps| - 1] == Mark(me, true)
      ensures !status.Succeeded? ==> steps == steps0 + [Finish(me, status)]
      ensures runners[me] == if raised then Idle else Onward(old(runners[me]))
      ensures !raised ==>
                var c := old(runners[me].left[0]);
                exists k :: |old(log)| <= k < |log| && log[k] == Ran(c.id, old(runners[me].trigger), status, old(runners[me].now), c.slot, c.asked)
    {
      hide Inv, Next, Exec, Enabled, ComputeNextRun;
      ghost var before, c, b, start := log, runners[me].left[0], runners[me], View();
      status, raised := FinishRun(roleSufficient, delivered);
      FinishAdds(start, me, status);
      ExecMore(s0, steps0, Finish(me, status));
      steps := steps0 + [Finish(me, status)];
      if raised {
        return;
      }
      assert log[|before|] == Ran(c.id, b.trigger, status, b.now, c.slot, c.asked);
      if !status.Succeeded? {
        return;
      }
      ghost var recorded := log;
      steps := Others(s0, steps);
      MarkAdds(View(), me, committed);
      ExecMore(s0, steps, Mark(me, committed));
      steps := steps + [Mark(me, committed)];
      raised := MarkRun(committed);
      assert log[|before|] == recorded[|before|];
    }

    // A tick begins with an answer of the due query.
    method AskDue(now: DateTime, limit: nat, tenant: string) returns (due: seq<string>)
      requires Valid() && runners[me].Idle? && Timely(View(), now)
      modifies this
      ensures DueAnswer(old(defs), now, limit, tenant, due) && Enabled(old(View()), Ask(now, me, limit, tenant, due))
      ensures Valid() && View() == Next(old(View()), Ask(now, me, limit, tenant, due))
    {
      hide Inv, DueAnswer, ComputeNextRun, Instant;
      due := GetDueReportDefinitions(now, limit, tenant);
      AnswerIsKnown(defs, now, limit, tenant, due);
      StepKeepsInv(View(), Ask(now, me, limit, tenant, due));
      runners := runners[me := if due == [] then Idle else Busy(Scheduled, now, Claims(View(), due), false)];
      clock := now;
    }

    // The next definition of the tick, after any steps of others.
    method ExecuteNext(ghost now: DateTime, ghost claims: seq<Claim>, roleSufficient: bool, delivered: bool, committed: bool,
                       ghost s0: Store, ghost steps0: seq<Step>)
      returns (raised: bool, ghost steps: seq<Step>)
      requires Valid() && Exec(s0, steps0) == Some(View())
      requires claims != [] && runners[me] == Busy(Scheduled, now, claims, false) && claims[0].asked <= |log|
      modifies this
      ensures Valid() && Exec(s0, steps) == Some(View()) && steps0 <= steps && old(log) <= log
      ensures runners[me] == if raised || |claims| == 1 then Idle else Busy(Scheduled, now, claims[1..], false)
      ensures !raised ==> RanSince(log, claims[0].id, now, claims[0].asked)
    {
      hide Inv, DueAnswer, ComputeNextRun, Instant, Exec;
      steps := Others(s0, steps0);
      var status;
      status, raised, steps := ExecuteReportDefinition(roleSufficient, delivered, committed, s0, steps);
    }

    // One tick: the answer of the due query, run one by one until one raises, with any
    // steps of others in between.
    method RunDueReportDefinitions(now: DateTime, limit: nat, tenant: string, roleSufficient: string -> bool,
                                   delivered: string -> bool, committed: string -> bool)
      returns (due: seq<string>, raised: bool, ghost steps: seq<Step>)
      requires Valid() && runners[me].Idle? && Timely(View(), now)
      modifies this
      ensures Valid() && Exec(old(View()), steps) == Some(View()) && runners[me].Idle?
      ensures DueAnswer(old(defs), now, limit, tenant, due) && [Ask(now, me, limit, tenant, due)] <= steps
      ensures !raised ==> forall i :: 0 <= i < |due| ==> RanSince(log, due[i], now, old(|log|))
    {
      hide Inv, DueAnswer, ComputeNextRun, Instant, RanSince, Next;
      ghost var s0 := View();
      due := AskDue(now, limit, tenant);
      AnswerIsKnown(s0.defs, now, limit, tenant, due);
      AskedOnly(s0, now, me, limit, tenant, due);
      steps, raised := [Ask(now, me, limit, tenant, due)], false;
      ghost var claims := Claims(s0, due);
      var i := 0;
      while i < |due| && !raised
        invariant 0 <= i <= |due| && Valid() && Exec(s0, steps) == Some(View()) && s0.log <= log
        invariant [Ask(now, me, limit, tenant, due)] <= steps
        invariant runners[me] == if raised || i == |due| then Idle else Busy(Scheduled, now, claims[i..], false)
        invariant !raised ==> forall j :: 0 <= j < i ==> RanSince(log, due[j], now, |s0.log|)
        decreases |due| - i
      {
        ghost var before := log;
        raised, steps := ExecuteNext(now, claims[i..], roleSufficient(due[i]), delivered(due[i]), committed(due[i]), s0, steps);
        forall j | 0 <= j < i && RanSince(before, due[j], now, |s0.log|) ensures RanSince(log, due[j], now, |s0.log|) {
          StillRan(before, log, due[j], now, |s0.log|);
        }
        i := i + 1;
      }
    }
  }

  lemma AskedOnly(s: Store, now: DateTime, me: nat, limit: nat, tenant: string, due: seq<string>)
    requires Enabled(s, Ask(now, me, limit, tenant, due)) && forall id :: id in due ==> id in s.defs
    ensures var step := Ask(now, me, limit, tenant, due);
            && Exec(s, [step]) == Some(Next(s, step)) && Next(s, step).log == s.log
            && Next(s, step).runners[me] == if due == [] then Idle else Busy(Scheduled, now, Claims(s, due), false)
  {
    ExecMore(s, [], Ask(now, me, limit, tenant, due));
    assert [] + [Ask(now, me, limit, tenant, due)] == [Ask(now, me, limit, tenant, due)];
  }

  lemma AnswerIsKnown(defs: map<string, Definition>, now: DateTime, limit: nat, tenant: string, due: seq<string>)
    requires DueAnswer(defs, now, limit, tenant, due)
    ensures forall id :: id in due ==> id in defs && defs[id].nextRunAt.Some?
  {
  }

  // ------------------------------------------------------- one run after another

  // A run that nothing interrupts moves the next run time exactly when it succeeds at or
  // after that time and its second commit goes through, unless a move from a later time
  // has been made since its runner asked.
  lemma {:induction false} NextRunMovesOnlyPastSlot(s: Store, r: nat, status: Status, committed: bool)
    requires Inv(s) && Ready(s, r, false)
    requires var b := s.runners[r];
             && b.left[0].id in s.defs && s.defs[b.left[0].id].nextRunAt.Some?
             && BasesUpTo(s.log, |s.log|, b.left[0].id, b.now)
    ensures var b, id := s.runners[r], s.runners[r].left[0].id;
            var ended := Finished(s, r, status);
            var next := (if status.Succeeded? then Marked(ended, r, committed) else ended).defs[id].nextRunAt;
            && next.Some? && Instant(s.defs[id].nextRunAt.value) <= Instant(next.value)
            && (next != s.defs[id].nextRunAt <==>
                status.Succeeded? && committed && Instant(s.defs[id].nextRunAt.value) <= Instant(b.now))
  {
    hide ComputeNextRun, Instant, InForce;
    var b, id := s.runners[r], s.runners[r].left[0].id;
    assert RunnerOk(s.log, s.clock, b) && ClaimOk(s.log, b.trigger, b.now, b.left[0]);
    assert DefOk(s.log, id, s.defs[id]);
    var k := InForce(s.log, |s.log|, id);
    assert MoveOk(s.log, k);
    NextRunIsMonotone(s.defs[id].schedule, s.log[k].base, b.now);
  }

  // --------------------------------------------------- slots served twice

  lemma {:induction false} ExecSplit(s: Store, a: seq<Step>, b: seq<Step>)
    requires Exec(s, a).Some?
    ensures Exec(s, a + b) == Exec(Exec(s, a).value, b)
  {
    hide Next, Enabled;
    if b == [] {
      assert a + b == a;
    } else {
      var n := |b| - 1;
      ExecSplit(s, a, b[..n]);
      assert (a + b)[..|a + b| - 1] == a + b[..n];
    }
  }

  lemma ExecOne(s: Store, step: Step)
    requires Enabled(s, step)
    ensures Exec(s, [step]) == Some(Next(s, step))
  {
    hide Next, Enabled;
    ExecMore(s, [], step);
    assert [] + [step] == [step];
  }

  lemma OnlyOneDue(defs: map<string, Definition>, now: DateTime, id: string)
    requires defs.Keys == {id} && IsDue(defs[id], now, "")
    ensures DueAnswer(defs, now, 1, "", [id])
  {
  }

  // A runner asks at the time of its only due definition, and has it to run.
  lemma AskAlone(s: Store, r: nat, now: DateTime, id: string)
    requires s.defs.Keys == {id} && IsDue(s.defs[id], now, "") && Timely(s, now) && r < |s.runners| && s.runners[r].Idle?
    ensures Exec(s, [Ask(now, r, 1, "", [id])]) ==
            Some(s.(runners := s.runners[r := Busy(Scheduled, now, [Claim(id, s.defs[id].nextRunAt, |s.log|)], false)], clock := now))
  {
    hide Instant, ComputeNextRun, DueAnswer;
    OnlyOneDue(s.defs, now, id);
    ExecOne(s, Ask(now, r, 1, "", [id]));
    assert Claims(s, [id]) == [Claim(id, s.defs[id].nextRunAt, |s.log|)];
  }

  // It then succeeds, and both commits go through.
  lemma SucceedAlone(s: Store, r: nat, now: DateTime, c: Claim)
    requires r < |s.runners| && s.runners[r] == Busy(Scheduled, now, [c], false) && c.id in s.defs
    ensures var d := s.defs[c.id];
            Exec(s, [Finish(r, Succeeded), Mark(r, true)]) ==
            Some(s.(defs := s.defs[c.id := d.(lastRunAt := Some(now), nextRunAt := ComputeNextRun(d.schedule, now))],
                    log := s.log + [Ran(c.id, Scheduled, Succeeded, now, c.slot, c.asked), Moved(c.id, now, d.schedule, Some(c.asked))],
                    runners := s.runners[r := Idle]))
  {
    hide Instant, ComputeNextRun, Exec;
    var e, m := Ran(c.id, Scheduled, Succeeded, now, c.slot, c.asked), Moved(c.id, now, s.defs[c.id].schedule, Some(c.asked));
    ExecOne(s, Finish(r, Succeeded));
    ExecMore(s, [Finish(r, Succeeded)], Mark(r, true));
    assert [Finish(r, Succeeded)] + [Mark(r, true)] == [Finish(r, Succeeded), Mark(r, true)];
    assert s.log + [e] + [m] == s.log + [e, m];
    var b := s.runners[r].(marking := true);
    assert s.runners[r := b][r := Idle] == s.runners[r := Idle];
  }

  const ONLY: string := "report"

  // Where the runs below stand: one definition, with that next run time, and two runners,
  // of which the second is idle.
  ghost predicate Stands(s: Store, schedule: Schedule, next: DateTime, first: Runner) {
    && s.defs.Keys == {ONLY} && s.defs[ONLY].schedule == Some(schedule) && s.defs[ONLY].nextRunAt == Some(next)
    && s.defs[ONLY].enabled && s.runners == [first, Idle]
  }

  // The second runner asks and succeeds at the time of the slot.
  lemma SecondServes(s: Store, schedule: Schedule, next: DateTime, first: Runner, following: DateTime) returns (s': Store, steps: seq<Step>)
    requires Stands(s, schedule, next, first) && Timely(s, next) && ComputeNextRun(Some(schedule), next) == Some(following)
    ensures Exec(s, steps) == Some(s') && Stands(s', schedule, following, first) && s'.clock == next
    ensures s'.log == s.log + [Ran(ONLY, Scheduled, Succeeded, next, Some(next), |s.log|), Moved(ONLY, next, Some(schedule), Some(|s.log|))]
  {
    hide Instant, ComputeNextRun, Exec;
    AskAlone(s, 1, next, ONLY);
    var asked := Exec(s, [Ask(next, 1, 1, "", [ONLY])]).value;
    SucceedAlone(asked, 1, next, Claim(ONLY, Some(next), |s.log|));
    ExecSplit(s, [Ask(next, 1, 1, "", [ONLY])], [Finish(1, Succeeded), Mark(1, true)]);
    steps := [Ask(next, 1, 1, "", [ONLY])] + [Finish(1, Succeeded), Mark(1, true)];
    s' := Exec(s, steps).value;
  }

  // A definition is created and the first runner asks at its first slot.
  lemma FirstAsks(clock: DateTime, schedule: Schedule, next: DateTime) returns (s: Store, steps: seq<Step>)
    requires ValidTime(clock) && ComputeNextRun(Some(schedule), clock) == Some(next)
    ensures ValidTime(next) && Exec(Empty(2, clock), steps) == Some(s) && s.clock == next
    ensures Stands(s, schedule, next, Busy(Scheduled, next, [Claim(ONLY, Some(next), 1)], false))
    ensures s.log == [Moved(ONLY, clock, Some(schedule), None)]
  {
    hide Instant, ComputeNextRun, Exec;
    NextRunIsFirstSlot(Some(schedule), clock);
    var s0, create := Empty(2, clock), Create(clock, ONLY, "", true, Some(schedule));
    ExecOne(s0, create);
    var s1 := Next(s0, create);
    AskAlone(s1, 0, next, ONLY);
    ExecSplit(s0, [create], [Ask(next, 0, 1, "", [ONLY])]);
    steps := [create] + [Ask(next, 0, 1, "", [ONLY])];
    s := Exec(s0, steps).value;
  }

  // Two runners that ask before either has finished both serve the slot, although every
  // run succeeds and every commit goes through.
  lemma TwoRunnersServeOneSlot(clock: DateTime, schedule: Schedule, next: DateTime) returns (steps: seq<Step>)
    requires ValidTime(clock) && ComputeNextRun(Some(schedule), clock) == Some(next)
    ensures Exec(Empty(2, clock), steps).Some?
    ensures Exec(Empty(2, clock), steps).value.log ==
            [Moved(ONLY, clock, Some(schedule), None),
             Ran(ONLY, Scheduled, Succeeded, next, Some(next), 1), Moved(ONLY, next, Some(schedule), Some(1)),
             Ran(ONLY, Scheduled, Succeeded, next, Some(next), 1), Moved(ONLY, next, Some(schedule), Some(1))]
  {
    hide Instant, ComputeNextRun, Exec;
    var s1, steps1 := FirstAsks(clock, schedule, next);
    NextRunIsFirstSlot(Some(schedule), clock);
    NextRunIsFirstSlot(Some(schedule), next);
    var s2, steps2 := SecondServes(s1, schedule, next, s1.runners[0], ComputeNextRun(Some(schedule), next).value);
    SucceedAlone(s2, 0, next, Claim(ONLY, Some(next), 1));
    ExecSplit(Empty(2, clock), steps1, steps2);
    ExecSplit(Empty(2, clock), steps1 + steps2, [Finish(0, Succeeded), Mark(0, true)]);
    steps := steps1 + steps2 + [Finish(0, Succeeded), Mark(0, true)];
  }

  // A run that is overtaken by two others moves the next run time back, and a slot that
  // had been served and passed is served again by a runner that asks only then.
  lemma OvertakenRunBringsBack(clock: DateTime, schedule: Schedule, next: DateTime, following: DateTime) returns (steps: seq<Step>)
    requires ValidTime(clock)
    requires ComputeNextRun(Some(schedule), clock) == Some(next) && ComputeNextRun(Some(schedule), next) == Some(following)
    ensures Exec(Empty(2, clock), steps).Some?
    ensures var log := Exec(Empty(2, clock), steps).value.log;
            && |log| == 9
            && log[3] == Ran(ONLY, Scheduled, Succeeded, following, Some(following), 3) && log[4] == Moved(ONLY, following, Some(schedule), Some(3))
            && log[6] == Moved(ONLY, next, Some(schedule), Some(1))
            && log[7] == Ran(ONLY, Scheduled, Succeeded, following, Some(following), 7)
  {
    hide Instant, ComputeNextRun, Exec;
    var s1, steps1 := FirstAsks(clock, schedule, next);
    NextRunIsFirstSlot(Some(schedule), next);
    var s2, steps2 := SecondServes(s1, schedule, next, s1.runners[0], following);
    NextRunIsFirstSlot(Some(schedule), following);
    var last := ComputeNextRun(Some(schedule), following).value;
    var s3, steps3 := SecondServes(s2, schedule, following, s1.runners[0], last);
    SucceedAlone(s3, 0, next, Claim(ONLY, Some(next), 1));
    var steps4 := [Finish(0, Succeeded), Mark(0, true)];
    var s4 := Exec(s3, steps4).value;
    var s5, steps5 := SecondServes(s4, schedule, following, Idle, last);
    ExecSplit(Empty(2, clock), steps1, steps2);
    ExecSplit(Empty(2, clock), steps1 + steps2, steps3);
    ExecSplit(Empty(2, clock), steps1 + steps2 + steps3, steps4);
    ExecSplit(Empty(2, clock), steps1 + steps2 + steps3 + steps4, steps5);
    steps := steps1 + steps2 + steps3 + steps4 + steps5;
  }

  // A success that loses its second commit leaves the definition due, and the next tick
  // serves the same slot again.
  lemma LostCommitRepeats(clock: DateTime, schedule: Schedule, next: DateTime) returns (steps: seq<Step>)
    requires ValidTime(clock) && ComputeNextRun(Some(schedule), clock) == Some(next)
    ensures Exec(Empty(2, clock), steps).Some?
    ensures Exec(Empty(2, clock), steps).value.log ==
            [Moved(ONLY, clock, Some(schedule), None),
             Ran(ONLY, Scheduled, Succeeded, next, Some(next), 1),
             Ran(ONLY, Scheduled, Succeeded, next, Some(next), 2), Moved(ONLY, next, Some(schedule), Some(2))]
  {
    hide Instant, ComputeNextRun, Exec;
    var s1, steps1 := FirstAsks(clock, schedule, next);
    ExecOne(s1, Finish(0, Succeeded));
    ExecMore(s1, [Finish(0, Succeeded)], Mark(0, false));
    var lost := [Finish(0, Succeeded)] + [Mark(0, false)];
    var s2 := Exec(s1, lost).value;
    NextRunIsFirstSlot(Some(schedule), clock);
    NextRunIsFirstSlot(Some(schedule), next);
    var s3, steps3 := SecondServes(s2, schedule, next, Idle, ComputeNextRun(Some(schedule), next).value);
    ExecSplit(Empty(2, clock), steps1, lost);
    ExecSplit(Empty(2, clock), steps1 + lost, steps3);
    steps := steps1 + lost + steps3;
  }
}
