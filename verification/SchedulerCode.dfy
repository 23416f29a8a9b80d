/** The scheduler object: its methods, with their scan loops, carry out the transition function. */
module SchedulerCode {
  import opened Prelude
  import opened Priorities
  import opened Scheduler
  import opened SchedulerRuns
  import opened SchedulerClock

  class SchedulerObject {
    var processes: seq<Process>
    var current: nat
    var nextPid: nat
    var remainingQuanta: nat
    var mode: Mode

    ghost function State(): Sched
      reads this
    {
      Sched(processes, current, remainingQuanta, mode)
    }

    /** init: the kernel's own process is current and running. */
    constructor (kernelMain: Process)
      ensures State() == Sched([kernelMain], 0, 1, WeightedPriority) && nextPid == 1 && (kernelMain.pid == 0 ==> PidsBelow())
      ensures Bootable(kernelMain) ==> Good(State())
    {
      processes, current, nextPid, remainingQuanta, mode := [kernelMain], 0, 1, 1, WeightedPriority;
    }

    /** No process has a pid that is still to be handed out. */
    ghost predicate PidsBelow()
      reads this
    {
      forall i :: 0 <= i < |processes| ==> processes[i].pid < nextPid
    }

    /** The pid handed out belongs to nobody, as a spawn in a run needs it. */
    method AllocPid() returns (pid: nat)
      requires PidsBelow()
      modifies this`nextPid
      ensures PidsBelow() && State() == old(State())
      ensures IndexOf(processes, pid) == |processes| && pid < nextPid
    {
      pid := nextPid;
      nextPid := nextPid + 1;
    }

    method SpawnProcess(process: Process)
      modifies this`processes
      ensures State() == Spawn(old(State()), process)
      ensures old(PidsBelow()) && process.pid < nextPid ==> PidsBelow()
    {
      var p := process;
      if mode == Cfs {
        var min: Option<nat> := None;
        for i := 0 to |processes|
          invariant min == MinReady(processes[..i])
        {
          assert processes[..i + 1][..i] == processes[..i];
          var q := processes[i];
          if q.state == Ready && (min.None? || q.vruntime < min.value) { min := Some(q.vruntime); }
        }
        assert processes[..|processes|] == processes;
        if min.Some? { p := p.(vruntime := min.value); }
      }
      processes := processes + [p];
    }

    method KillPid(pid: nat)
      modifies this`processes
      ensures State() == Kill(old(State()), pid)
    {
      var i := 0;
      while i < |processes| && processes[i].pid != pid
        invariant 0 <= i <= |processes| && forall j :: 0 <= j < i ==> processes[j].pid != pid
      {
        i := i + 1;
      }
      assert i == IndexOf(processes, pid);
      if i < |processes| { processes := processes[i := processes[i].(state := Dead)]; }
    }

    method SleepRequest(ticks: nat)
      requires current < |processes|
      modifies this`processes
      ensures State() == RequestSleep(old(State()), ticks)
    {
      processes := processes[current := processes[current].(pendingSleep := Max(ticks, 1))];
    }

    /** sleep_ticks: nothing for zero ticks, else leave the request and yield; returns the stack pointer to go on with. */
    method SleepTicks(ticks: nat, input: Input) returns (rsp: nat)
      requires current < |processes|
      modifies this`processes, this`current, this`remainingQuanta
      ensures State() == if ticks == 0 then old(State()) else Do(old(State()), Sleep(ticks, input))
      ensures rsp == if ticks == 0 then input.rsp else State().procs[State().current].rsp
    {
      hide Preempt;
      if ticks == 0 { return input.rsp; }
      SleepRequest(ticks);
      rsp := DoPreempt(input.(voluntary := true));
    }

    /** The wake-up scan of switch_to_next. */
    method WakeSleepers(now: nat)
      modifies this`processes
      ensures processes == WakeAll(old(processes), now)
    {
      for i := 0 to |processes|
        invariant |processes| == |old(processes)|
        invariant forall j :: 0 <= j < i ==> processes[j] == WakeOne(old(processes)[j], now)
        invariant forall j :: i <= j < |processes| ==> processes[j] == old(processes)[j]
      {
        var p := processes[i];
        if p.state == Blocked && p.wakeAt != 0 && now >= p.wakeAt {
          processes := processes[i := p.(state := Ready, wakeAt := 0, readySince := now)];
        }
      }
    }

    /** The candidate scan of switch_to_next and switch_to_next_cfs. */
    method FindNext(input: Input) returns (next: Option<nat>)
      requires current < |processes|
      ensures next == Pick(State(), input)
    {
      var count := |processes|;
      var boosted: Option<nat>, best: Option<Best> := None, None;
      var i := 1;
      while i <= count
        invariant 1 <= i <= count + 1
        invariant best == Scan(processes, current, mode, input.now, input.cpu, i - 1)
        invariant mode == Cfs ==> boosted == FirstBoosted(processes, current, i - 1)
        invariant mode != Cfs ==> boosted == None
      {
        CyclicIsMod(current, i, count);
        var idx := (current + i) % count;
        var p := processes[idx];
        if p.state == Ready {
          if mode == Cfs && p.boost > 0 && boosted.None? { boosted := Some(idx); }
          var key, same := Key(mode, p, input.now), SameCpu(p, input.cpu);
          if best.None? || Beats(mode, key, same, best.value) { best := Some(Best(idx, key, same)); }
        }
        i := i + 1;
      }
      next := if boosted.Some? then boosted else if best.Some? then Some(best.value.idx) else None;
    }

    /** switch_to_next: wake sleepers, keep the turn while quanta last, else hand over. */
    method SwitchToNext(input: Input) returns (rsp: nat)
      requires current < |processes| && processes[current].rsp == input.rsp
      modifies this`processes, this`current, this`remainingQuanta
      ensures State() == Choose(old(State()).(procs := WakeAll(old(processes), input.now)), input)
      ensures rsp == processes[current].rsp
    {
      WakeSleepers(input.now);
      if |processes| <= 1 {
        processes := SetRunning(processes, current);
        return input.rsp;
      }
      if mode == WeightedPriority && !input.voluntary && remainingQuanta > 1 {
        remainingQuanta := remainingQuanta - 1;
        processes := SetRunning(processes, current);
        return input.rsp;
      }
      var next := FindNext(input);
      hide Pick;
      if next.None? {
        processes := SetRunning(processes, current);
        if mode == WeightedPriority { remainingQuanta := 1; }
        return input.rsp;
      }
      var p := processes[next.value];
      if mode == WeightedPriority { remainingQuanta := Max(PriorityWeight(EffectivePriority(p, input.now)), 1); }
      processes := processes[next.value := p.(state := Running, runStart := input.tsIn)];
      current := next.value;
      return p.rsp;
    }

    /** The timer or yield interrupt; returns the stack pointer to resume. */
    method DoPreempt(input: Input) returns (rsp: nat)
      requires current < |processes|
      modifies this`processes, this`current, this`remainingQuanta
      ensures State() == Preempt(old(State()), input)
      ensures rsp == State().procs[State().current].rsp
    {
      hide Choose;
      var p := processes[current];
      if p.boost > 0 { p := p.(boost := p.boost - 1); }
      p := p.(rsp := input.rsp);
      if mode == Cfs { p := p.(vruntime := Min(p.vruntime + VruntimeDelta(p, input), U64_MAX)); }
      if p.pendingSleep > 0 {
        p := p.(pendingSleep := 0, state := Blocked, wakeAt := input.now + p.pendingSleep);
      } else {
        p := p.(state := Ready, readySince := input.now);
      }
      assert p == Depart(old(processes)[current], mode, input);
      processes := processes[current := p];
      rsp := SwitchToNext(input);
    }
  }
}
