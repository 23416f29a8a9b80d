/** Safety of the scheduler over whole runs. */
module SchedulerRuns {
  import opened Prelude
  import opened Priorities
  import opened Scheduler

  /** The actions that interleave: interrupts, sleeps of the running process, spawns, kills of others, and the
      policy engine's changes of priority, boost and affinity. */
  datatype Action =
    | Interrupt(input: Input)
    | Sleep(ticks: nat, input: Input)
    | SpawnNew(process: Process)
    | KillPid(pid: nat)
    | Tune(index: nat, priority: Priority, boost: nat, cpu: nat)
    | SetMode(mode: Mode)

  ghost predicate PidsDistinct(procs: seq<Process>) {
    forall i, j :: 0 <= i < |procs| && 0 <= j < |procs| && procs[i].pid == procs[j].pid ==> i == j
  }

  /** Exactly one process is Running, the current one; no sleep request is pending between actions. */
  ghost predicate Good(s: Sched) {
    && s.current < |s.procs| && s.quanta <= 4
    && (forall i :: 0 <= i < |s.procs| ==> (s.procs[i].state == Running <==> i == s.current))
    && (forall i :: 0 <= i < |s.procs| ==> s.procs[i].pendingSleep == 0)
    && PidsDistinct(s.procs)
  }

  /** A kernel process that may boot: running, with no sleep pending. */
  predicate Bootable(p: Process) { p.state == Running && p.pendingSleep == 0 }

  /** Runs start here. */
  lemma {:induction false} BootGood(p: Process)
    requires Bootable(p)
    ensures Good(Sched([p], 0, 1, WeightedPriority))
  {
  }

  predicate Allowed(s: Sched, a: Action) {
    match a
    case SpawnNew(p) => p.state == Ready && p.pendingSleep == 0 && IndexOf(s.procs, p.pid) == |s.procs|
    case KillPid(pid) => IndexOf(s.procs, pid) != s.current
    case _ => true
  }

  function Rebase(procs: seq<Process>): seq<Process> {
    seq(|procs|, i requires 0 <= i < |procs| => procs[i].(vruntime := 0))
  }

  function Do(s: Sched, a: Action): Sched
    requires s.current < |s.procs|
  {
    match a
    case Interrupt(input) => Preempt(s, input)
    case Sleep(ticks, input) => Preempt(RequestSleep(s, ticks), input.(voluntary := true))
    case SpawnNew(p) => Spawn(s, p)
    case KillPid(pid) => Kill(s, pid)
    case Tune(i, priority, boost, cpu) =>
      if i < |s.procs| then s.(procs := s.procs[i := s.procs[i].(priority := priority, boost := boost, cpu := cpu)]) else s
    case SetMode(mode) => s.(mode := mode, procs := if mode == Cfs then Rebase(s.procs) else s.procs)
  }

  // ---------- one interrupt ----------

  /** The fields an interrupt may change, process by process. */
  lemma {:induction false} PickReady(s: Sched, irq: Input)
    requires s.current < |s.procs|
    ensures Pick(s, irq).Some? ==> s.procs[Pick(s, irq).value].state == Ready
    ensures Pick(s, irq).None? ==> forall i :: 0 <= i < |s.procs| ==> s.procs[i].state != Ready
  {
    var n := |s.procs|;
    ScanFinds(s.procs, s.current, s.mode, irq.now, irq.cpu, n);
    BoostedReady(s.procs, s.current, n);
    if Pick(s, irq).None? {
      forall i | 0 <= i < n ensures s.procs[i].state != Ready {
        var o := EveryOffset(s.current, i, n);
      }
    }
  }

  lemma {:induction false} BoostedReady(procs: seq<Process>, start: nat, i: nat)
    requires start < |procs| && i <= |procs|
    ensures var r := FirstBoosted(procs, start, i);
            r.Some? ==> procs[r.value].state == Ready && procs[r.value].boost > 0
  {
    if i == 0 {
    } else {
      BoostedReady(procs, start, i - 1);
    }
  }

  lemma {:induction false} ChooseKeepsGood(s: Sched, irq: Input)
    requires s.current < |s.procs| && s.quanta <= 4 && PidsDistinct(s.procs)
    requires forall i :: 0 <= i < |s.procs| ==> s.procs[i].state != Running && s.procs[i].pendingSleep == 0
    ensures Good(Choose(s, irq))
  {
    PickReady(s, irq);
    hide Pick;
    var s' := Choose(s, irq);
    assert forall i :: 0 <= i < |s.procs| ==> s'.procs[i].pid == s.procs[i].pid;
  }

  lemma {:induction false} PreemptKeepsGood(s: Sched, irq: Input)
    requires s.current < |s.procs| && s.quanta <= 4 && PidsDistinct(s.procs)
    requires forall i :: 0 <= i < |s.procs| && i != s.current ==> s.procs[i].state != Running && s.procs[i].pendingSleep == 0
    ensures Good(Preempt(s, irq))
  {
    var d := Departed(s, irq);
    assert forall i :: 0 <= i < |s.procs| ==> d.procs[i].pid == s.procs[i].pid;
    ChooseKeepsGood(d, irq);
  }

  /** A process that is not running keeps its saved stack pointer; what the interrupt returns to is the saved
      stack pointer of the process it selects. */
  lemma {:induction false} PreemptOthers(s: Sched, irq: Input, i: nat)
    requires s.current < |s.procs| && i < |s.procs| && i != s.current
    ensures var p, p' := s.procs[i], Preempt(s, irq).procs[i];
            && p'.rsp == p.rsp
            && (p.state == Dead ==> p'.state == Dead && Preempt(s, irq).current != i)
            && (p.state == Blocked && p.wakeAt != 0 && irq.now < p.wakeAt ==>
                  p' == p && Preempt(s, irq).current != i)
            && (p.state == Blocked && p.wakeAt != 0 && irq.now >= p.wakeAt ==> p'.state == Ready || p'.state == Running)
  {
    PickReady(Departed(s, irq), irq);
    hide Pick;
  }

  lemma {:induction false} SavedStack(s: Sched, irq: Input)
    requires s.current < |s.procs|
    ensures Preempt(s, irq).procs[s.current].rsp == irq.rsp
  {
    hide Pick;
  }

  // ---------- every action keeps the invariant ----------

  lemma {:induction false} SpawnKeepsGood(s: Sched, p: Process)
    requires Good(s) && Allowed(s, SpawnNew(p))
    ensures Good(Spawn(s, p))
  {
    hide MinReady;
    var s' := Spawn(s, p);
    assert forall i :: 0 <= i < |s.procs| ==> s'.procs[i] == s.procs[i];
  }

  lemma {:induction false} DoKeepsGood(s: Sched, a: Action)
    requires Good(s) && Allowed(s, a)
    ensures Good(Do(s, a))
  {
    match a {
      case Interrupt(input) => PreemptKeepsGood(s, input); hide Preempt; hide Good;
      case Sleep(ticks, input) => PreemptKeepsGood(RequestSleep(s, ticks), input.(voluntary := true)); hide Preempt;
      case SpawnNew(p) => SpawnKeepsGood(s, p); hide Spawn; hide Good;
      case KillPid(pid) =>
      case Tune(i, priority, boost, cpu) =>
      case SetMode(mode) =>
    }
  }

  function RunTo(s: Sched, acts: seq<Action>, k: nat): (s': Sched)
    requires k <= |acts| && s.current < |s.procs|
    ensures s'.current < |s'.procs|
  {
    if k == 0 then s else DoBounds(RunTo(s, acts, k - 1), acts[k - 1]); Do(RunTo(s, acts, k - 1), acts[k - 1])
  }

  lemma {:induction false} DoBounds(s: Sched, a: Action)
    requires s.current < |s.procs|
    ensures Do(s, a).current < |Do(s, a).procs| && |Do(s, a).procs| >= |s.procs|
  {
    hide Preempt;
  }

  ghost predicate AllowedRun(s: Sched, acts: seq<Action>)
    requires s.current < |s.procs|
  {
    forall k :: 0 <= k < |acts| ==> Allowed(RunTo(s, acts, k), acts[k])
  }

  /** In every run exactly one process is Running, and it is the current one. */
  lemma {:induction false} OneRunning(s: Sched, acts: seq<Action>, k: nat)
    requires Good(s) && AllowedRun(s, acts) && k <= |acts|
    ensures Good(RunTo(s, acts, k))
  {
    hide Do;
    if k == 0 {
    } else {
      OneRunning(s, acts, k - 1);
      DoKeepsGood(RunTo(s, acts, k - 1), acts[k - 1]);
    }
  }

  lemma {:induction false} DoKeepsDead(s: Sched, a: Action, i: nat)
    requires Good(s) && Allowed(s, a) && i < |s.procs| && s.procs[i].state == Dead
    ensures i < |Do(s, a).procs| && Do(s, a).procs[i].state == Dead && Do(s, a).current != i
  {
    match a {
      case Interrupt(input) => PreemptOthers(s, input, i); hide Preempt;
      case Sleep(ticks, input) => PreemptOthers(RequestSleep(s, ticks), input.(voluntary := true), i); hide Preempt;
      case SpawnNew(p) =>
      case KillPid(pid) =>
      case Tune(j, priority, boost, cpu) =>
      case SetMode(mode) =>
    }
  }

  /** A killed process is never selected again. */
  lemma {:induction false} DeadForever(s: Sched, acts: seq<Action>, i: nat, k: nat)
    requires Good(s) && AllowedRun(s, acts) && k <= |acts| && i < |s.procs| && s.procs[i].state == Dead
    ensures var s' := RunTo(s, acts, k);
            i < |s'.procs| && s'.procs[i].state == Dead && s'.current != i
  {
    hide Do;
    if k == 0 {
    } else {
      DeadForever(s, acts, i, k - 1);
      OneRunning(s, acts, k - 1);
      DoKeepsDead(RunTo(s, acts, k - 1), acts[k - 1], i);
    }
  }

  // ---------- sleep ----------

  /** Process `i` sleeps until tick `wake`. */
  predicate Asleep(s: Sched, i: nat, wake: nat) {
    i < |s.procs| && s.procs[i].state == Blocked && s.procs[i].wakeAt == wake && wake > 0 && s.current != i
  }

  /** An action that leaves sleeper `i` alone: no kill of it, and no interrupt at or after its deadline. */
  predicate Before(s: Sched, a: Action, i: nat, wake: nat) {
    match a
    case Interrupt(input) => input.now < wake
    case Sleep(_, input) => input.now < wake
    case KillPid(pid) => IndexOf(s.procs, pid) != i
    case _ => true
  }

  lemma {:induction false} SleepBlocks(s: Sched, ticks: nat, input: Input)
    requires Good(s)
    ensures var s' := Do(s, Sleep(ticks, input));
            s'.current != s.current ==> Asleep(s', s.current, input.now + Max(ticks, 1))
  {
    var irq := input.(voluntary := true);
    var d := Departed(RequestSleep(s, ticks), irq);
    PickReady(d, irq);
    hide Pick;
  }

  lemma {:induction false} DoKeepsAsleep(s: Sched, a: Action, i: nat, wake: nat)
    requires Good(s) && Allowed(s, a) && Asleep(s, i, wake) && Before(s, a, i, wake)
    ensures Asleep(Do(s, a), i, wake)
  {
    match a {
      case Interrupt(input) => PreemptOthers(s, input, i); hide Preempt;
      case Sleep(ticks, input) => PreemptOthers(RequestSleep(s, ticks), input.(voluntary := true), i); hide Preempt;
      case SpawnNew(p) =>
      case KillPid(pid) =>
      case Tune(j, priority, boost, cpu) =>
      case SetMode(mode) =>
    }
  }

  /** A descheduled sleeper is never selected before its deadline. */
  lemma {:induction false} SleepsUntilDeadline(s: Sched, acts: seq<Action>, i: nat, wake: nat, k: nat)
    requires Good(s) && AllowedRun(s, acts) && k <= |acts| && Asleep(s, i, wake)
    requires forall j :: 0 <= j < k ==> Before(RunTo(s, acts, j), acts[j], i, wake)
    ensures Asleep(RunTo(s, acts, k), i, wake)
  {
    hide Do; hide Asleep; hide Before; hide Allowed;
    if k == 0 {
    } else {
      SleepsUntilDeadline(s, acts, i, wake, k - 1);
      OneRunning(s, acts, k - 1);
      DoKeepsAsleep(RunTo(s, acts, k - 1), acts[k - 1], i, wake);
    }
  }

  /** The first interrupt at or after the deadline makes the sleeper ready (or runs it at once). */
  lemma {:induction false} WakesAtDeadline(s: Sched, i: nat, wake: nat, input: Input)
    requires s.current < |s.procs| && Asleep(s, i, wake) && input.now >= wake
    ensures var s' := Preempt(s, input);
            s'.procs[i].state == Ready || (s'.procs[i].state == Running && s'.current == i)
  {
    PickReady(Departed(s, input), input);
    hide Pick;
  }

  // ---------- context integrity ----------

  lemma {:induction false} DoKeepsRsp(s: Sched, a: Action, i: nat)
    requires Good(s) && i < |s.procs| && i != s.current
    ensures i < |Do(s, a).procs| && Do(s, a).procs[i].rsp == s.procs[i].rsp
  {
    match a {
      case Interrupt(input) => PreemptOthers(s, input, i); hide Preempt;
      case Sleep(ticks, input) => PreemptOthers(RequestSleep(s, ticks), input.(voluntary := true), i); hide Preempt;
      case SpawnNew(p) =>
      case KillPid(pid) =>
      case Tune(j, priority, boost, cpu) =>
      case SetMode(mode) =>
    }
  }

  /** A suspended process resumes with the stack pointer it was suspended with: while it is off the CPU, nothing
      that other processes, spawns or kills do changes it. */
  lemma {:induction false} ResumesWhereSuspended(s: Sched, acts: seq<Action>, i: nat, k: nat)
    requires Good(s) && AllowedRun(s, acts) && k <= |acts| && i < |s.procs|
    requires forall j :: 0 <= j < k ==> RunTo(s, acts, j).current != i
    ensures i < |RunTo(s, acts, k).procs| && RunTo(s, acts, k).procs[i].rsp == s.procs[i].rsp
  {
    hide Do;
    if k == 0 {
    } else {
      ResumesWhereSuspended(s, acts, i, k - 1);
      OneRunning(s, acts, k - 1);
      DoKeepsRsp(RunTo(s, acts, k - 1), acts[k - 1], i);
    }
  }

  /** What an action saves of the process it interrupts. */
  predicate Interrupts(a: Action, rsp: nat) {
    (a.Interrupt? || a.Sleep?) && a.input.rsp == rsp
  }

  lemma {:induction false} ActionSaves(s: Sched, a: Action, rsp: nat)
    requires s.current < |s.procs| && Interrupts(a, rsp)
    ensures s.current < |Do(s, a).procs| && Do(s, a).procs[s.current].rsp == rsp
  {
    if a.Interrupt? {
      SavedStack(s, a.input);
    } else {
      SavedStack(RequestSleep(s, a.ticks), a.input.(voluntary := true));
    }
    hide Preempt;
  }

  /** A process interrupted at one point of its stack is resumed there, whenever that is: from the interrupt up to the
      moment it is current again its saved stack pointer is the interrupted one. */
  lemma {:induction false} ResumesWhereInterrupted(s: Sched, acts: seq<Action>, rsp: nat, m: nat, k: nat)
    requires Good(s) && s.current < |s.procs| && AllowedRun(s, acts) && m < k <= |acts| && Interrupts(acts[m], rsp)
    requires var i := RunTo(s, acts, m).current; forall j :: m < j < k ==> RunTo(s, acts, j).current != i
    ensures var i := RunTo(s, acts, m).current;
            i < |RunTo(s, acts, k).procs| && RunTo(s, acts, k).procs[i].rsp == rsp
    decreases k
  {
    hide Do; hide Good; hide Interrupts; hide Allowed;
    var i := RunTo(s, acts, m).current;
    OneRunning(s, acts, k - 1);
    if k == m + 1 {
      ActionSaves(RunTo(s, acts, m), acts[m], rsp);
    } else {
      ResumesWhereInterrupted(s, acts, rsp, m, k - 1);
      DoKeepsRsp(RunTo(s, acts, k - 1), acts[k - 1], i);
    }
  }
}
