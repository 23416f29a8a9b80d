/** Where the scheduler's promises end: killing the running process, sleeping when nobody else can run. */
module SchedulerEdges {
  import opened Prelude
  import opened Priorities
  import opened Scheduler
  import opened SchedulerRuns

  /** A killed process is dead after the next interrupt exactly when it was not the running one. */
  lemma {:induction false} KillSticksIff(s: Sched, pid: nat, input: Input)
    requires Good(s) && IndexOf(s.procs, pid) < |s.procs|
    ensures var i := IndexOf(s.procs, pid);
            && (Preempt(Kill(s, pid), input).procs[i].state == Dead <==> i != s.current)
            && forall j :: 0 <= j < |s.procs| && j != i ==> Kill(s, pid).procs[j] == s.procs[j]
  {
    var i, k := IndexOf(s.procs, pid), Kill(s, pid);
    PickReady(Departed(k, input), input);
    hide Pick;
    if i != s.current { PreemptOthers(k, input, i); }
  }

  /** After the sleepers due by `now` are woken, some process other than the current one is ready. */
  ghost predicate AnotherReady(s: Sched, now: nat) {
    exists i :: 0 <= i < |s.procs| && i != s.current && WakeOne(s.procs[i], now).state == Ready
  }

  /** A sleep request takes the process off the processor exactly when another one is ready; else it runs on. */
  lemma {:induction false} SleepHonouredIff(s: Sched, ticks: nat, input: Input)
    requires Good(s)
    ensures var s' := Do(s, Sleep(ticks, input));
            && (AnotherReady(s, input.now) <==> Asleep(s', s.current, input.now + Max(ticks, 1)))
            && (!AnotherReady(s, input.now) ==> s'.current == s.current && s'.procs[s.current].state == Running)
  {
    var irq := input.(voluntary := true);
    var d := Departed(RequestSleep(s, ticks), irq);
    PickReady(d, irq);
    hide Pick;
    forall i | 0 <= i < |s.procs| && i != s.current ensures d.procs[i] == WakeOne(s.procs[i], input.now) { }
    assert d.procs[s.current].state == Blocked;
  }
}
