/** The scheduler's clocks over runs: since when a process waits, what it competes with, and what its turns cost. */
module SchedulerClock {
  import opened Prelude
  import opened Priorities
  import opened Scheduler
  import opened SchedulerRuns

  // ---------- since when a process waits ----------

  /** The interrupt of an action, as the scheduler sees it. */
  predicate Switches(a: Action, now: nat) { (a.Interrupt? || a.Sleep?) && a.input.now == now }

  /** An interrupt makes a process ready only by starting its wait there; a process that was waiting keeps its start. */
  lemma {:induction false} PreemptClock(s: Sched, irq: Input, i: nat)
    requires s.current < |s.procs| && i < |s.procs| && Preempt(s, irq).procs[i].state == Ready
    ensures Preempt(s, irq).procs[i].readySince
            == if i != s.current && s.procs[i].state == Ready then s.procs[i].readySince else irq.now
  {
    PickReady(Departed(s, irq), irq);
    hide Pick;
  }

  lemma {:induction false} StartsWaiting(s: Sched, a: Action, now: nat, i: nat)
    requires Good(s) && Switches(a, now) && i < |s.procs| && s.procs[i].state != Ready
    requires i < |Do(s, a).procs| && Do(s, a).procs[i].state == Ready
    ensures Do(s, a).procs[i].readySince == now
  {
    if a.Interrupt? {
      PreemptClock(s, a.input, i);
    } else {
      PreemptClock(RequestSleep(s, a.ticks), a.input.(voluntary := true), i);
    }
    hide Preempt;
  }

  lemma {:induction false} KeepsWaiting(s: Sched, a: Action, i: nat)
    requires Good(s) && i < |s.procs| && s.procs[i].state == Ready
    ensures i < |Do(s, a).procs|
    ensures Do(s, a).current != i ==>
              var p := Do(s, a).procs[i];
              p.state == Dead || (p.state == Ready && p.readySince == s.procs[i].readySince)
  {
    match a {
      case Interrupt(input) => WaitsOrRuns(s, input, i); hide Preempt;
      case Sleep(ticks, input) => WaitsOrRuns(RequestSleep(s, ticks), input.(voluntary := true), i); hide Preempt;
      case SpawnNew(p) =>
      case KillPid(pid) =>
      case Tune(j, priority, boost, cpu) =>
      case SetMode(mode) =>
    }
  }

  lemma {:induction false} WaitsOrRuns(s: Sched, irq: Input, i: nat)
    requires s.current < |s.procs| && i < |s.procs| && i != s.current && s.procs[i].state == Ready
    ensures Preempt(s, irq).current != i ==> Preempt(s, irq).procs[i] == s.procs[i]
  {
    hide Pick;
  }

  /** A process that left the processor, or woke, in the interrupt at tick `left` and has not run since has waited
      exactly since then, whatever else happened (unless it was killed meanwhile). */
  lemma {:induction false} WaitsSinceItLeft(s: Sched, acts: seq<Action>, i: nat, left: nat, m: nat, k: nat, now: nat)
    requires Good(s) && s.current < |s.procs| && AllowedRun(s, acts) && m < k <= |acts| && Switches(acts[m], left) && left <= now
    requires i < |RunTo(s, acts, m).procs| && RunTo(s, acts, m).procs[i].state != Ready
    requires i < |RunTo(s, acts, m + 1).procs| && RunTo(s, acts, m + 1).procs[i].state == Ready
    requires forall j :: m < j <= k ==> RunTo(s, acts, j).current != i
    ensures i < |RunTo(s, acts, k).procs|
    ensures var p := RunTo(s, acts, k).procs[i];
            p.state == Dead || (p.state == Ready && p.readySince == left && Waited(p, now) == now - left)
    decreases k
  {
    hide Do; hide Good; hide Switches; hide Allowed;
    OneRunning(s, acts, k - 1);
    if k == m + 1 {
      StartsWaiting(RunTo(s, acts, m), acts[m], left, i);
    } else {
      WaitsSinceItLeft(s, acts, i, left, m, k - 1, now);
      var s1 := RunTo(s, acts, k - 1);
      if s1.procs[i].state == Dead {
        DeadStays(s1, acts[k - 1], i);
      } else {
        KeepsWaiting(s1, acts[k - 1], i);
      }
    }
  }

  lemma {:induction false} DeadStays(s: Sched, a: Action, i: nat)
    requires Good(s) && i < |s.procs| && s.procs[i].state == Dead
    ensures i < |Do(s, a).procs| && Do(s, a).procs[i].state == Dead
  {
    match a {
      case Interrupt(input) => PreemptOthers(s, input, i); hide Preempt;
      case Sleep(ticks, input) => PreemptOthers(RequestSleep(s, ticks), input.(voluntary := true), i); hide Preempt;
      case SpawnNew(p) =>
      case KillPid(pid) =>
      case Tune(j, priority, boost, cpu) =>
      case SetMode(mode) =>
    }
  }

  // ---------- what the outgoing process competes with ----------

  /** When the grant is used up, an unboosted process does not outlive a ready one of higher priority, however long it
      had waited before its turn. */
  lemma {:induction false} GivesWay(s: Sched, irq: Input, q: nat)
    requires Good(s) && s.mode == WeightedPriority && (s.quanta <= 1 || irq.voluntary) && s.procs[s.current].boost <= 1
    requires q < |s.procs| && s.procs[q].state == Ready && s.procs[q].priority.Rank() > s.procs[s.current].priority.Rank()
    ensures Preempt(s, irq).current != s.current
  {
    var d := Departed(s, irq);
    var n := |d.procs|;
    var o := EveryOffset(s.current, q, n);
    ScanIsBest(d.procs, s.current, s.mode, irq.now, irq.cpu, n, o);
    ScanFinds(d.procs, s.current, s.mode, irq.now, irq.cpu, n);
    assert d.procs[q] == s.procs[q];
    OwnPriority(s, irq);
    AtLeastOwn(s.procs[q], irq.now);
    hide Scan; hide EffectivePriority; hide Departed;
  }

  lemma {:induction false} AtLeastOwn(p: Process, now: nat)
    ensures EffectivePriority(p, now).Rank() >= p.priority.Rank()
  {
  }

  /** Leaving the processor spends one boost and drops whatever the wait before had earned. */
  lemma {:induction false} OwnPriority(s: Sched, irq: Input)
    requires s.current < |s.procs| && s.procs[s.current].pendingSleep == 0
    ensures var p := Departed(s, irq).procs[s.current];
            && p.boost == (if s.procs[s.current].boost == 0 then 0 else s.procs[s.current].boost - 1)
            && (p.boost == 0 ==> EffectivePriority(p, irq.now) == s.procs[s.current].priority)
  {
  }

  /** An interrupt changes no process's identity, priority or affinity; it spends one boost of the outgoing one, runs or
      not, and carries out its pending sleep. */
  lemma {:induction false} InterruptKeeps(s: Sched, irq: Input, i: nat)
    requires s.current < |s.procs| && i < |s.procs|
    ensures var p, p' := s.procs[i], Preempt(s, irq).procs[i];
            && p'.pid == p.pid && p'.priority == p.priority && p'.cpu == p.cpu
            && p'.boost == (if i == s.current && p.boost > 0 then p.boost - 1 else p.boost)
            && p'.pendingSleep == (if i == s.current then 0 else p.pendingSleep)
  {
    hide Pick; hide VruntimeDelta;
  }

  // ---------- who is chosen ----------

  lemma {:induction false} CyclicIsMod(start: nat, i: nat, n: nat)
    requires start < n && i <= n
    ensures Cyclic(start, i, n) == (start + i) % n
  {
    if start + i < n {
      ModUnique(start + i, 0, n, start + i);
    } else if i < n || start > 0 {
      ModUnique(start + i, 1, n, start + i - n);
    }
  }

  /** The own core, or no preference. */
  predicate Here(p: Process, cpu: nat) { p.cpu == 255 || p.cpu == cpu }

  /** Of two candidates `p` and `q` at offsets `v` and `w`: the better key, then the own core, then the earlier. */
  predicate Preferred(p: Process, v: nat, q: Process, w: nat, mode: Mode, now: nat, cpu: nat) {
    if mode == Cfs && p.vruntime != q.vruntime then p.vruntime < q.vruntime
    else if mode != Cfs && EffectivePriority(p, now) != EffectivePriority(q, now)
    then EffectivePriority(p, now).Rank() > EffectivePriority(q, now).Rank()
    else if Here(p, cpu) != Here(q, cpu) then Here(p, cpu) else v <= w
  }

  predicate Candidate(procs: seq<Process>, start: nat, o: nat, i: nat)
    requires start < |procs| && i <= |procs|
  {
    1 <= o <= i && procs[Cyclic(start, o, |procs|)].state == Ready
  }

  ghost predicate Wins(procs: seq<Process>, start: nat, mode: Mode, now: nat, cpu: nat, i: nat, w: nat)
    requires start < |procs| && i <= |procs|
  {
    && Candidate(procs, start, w, i)
    && forall o: nat :: Candidate(procs, start, o, i) ==>
         Preferred(procs[Cyclic(start, w, |procs|)], w, procs[Cyclic(start, o, |procs|)], o, mode, now, cpu)
  }

  lemma {:induction false} PreferredChain(p: Process, u: nat, q: Process, v: nat, r: Process, w: nat, mode: Mode, now: nat, cpu: nat)
    requires Preferred(p, u, q, v, mode, now, cpu) && Preferred(q, v, r, w, mode, now, cpu)
    ensures Preferred(p, u, r, w, mode, now, cpu)
  {
    hide EffectivePriority;
  }

  /** One candidate more: it takes over exactly when it is preferred to the winner so far. */
  lemma {:induction false} BeatsIfPreferred(p: Process, u: nat, q: Process, v: nat, idx: nat, mode: Mode, now: nat, cpu: nat)
    requires u < v
    ensures Beats(mode, Key(mode, q, now), SameCpu(q, cpu), Best(idx, Key(mode, p, now), SameCpu(p, cpu))) <==> Preferred(q, v, p, u, mode, now, cpu)
    ensures Preferred(q, v, p, u, mode, now, cpu) <==> !Preferred(p, u, q, v, mode, now, cpu)
  {
    hide EffectivePriority;
  }

  /** The scan selects the candidate preferred to all others. */
  lemma {:induction false} ScanWins(procs: seq<Process>, start: nat, mode: Mode, now: nat, cpu: nat, i: nat) returns (w: nat)
    requires start < |procs| && i <= |procs| && Scan(procs, start, mode, now, cpu, i).Some?
    ensures w <= i && Scan(procs, start, mode, now, cpu, i).value.idx == Cyclic(start, w, |procs|)
    ensures Wins(procs, start, mode, now, cpu, i, w)
  {
    hide Beats; hide Key; hide SameCpu; hide Preferred;
    var n := |procs|;
    var p := procs[Cyclic(start, i, n)];
    var best := Scan(procs, start, mode, now, cpu, i - 1);
    ScanFinds(procs, start, mode, now, cpu, i - 1);
    if best.None? {
      w := i;
      Reflexive(p, i, mode, now, cpu);
    } else {
      w := ScanWins(procs, start, mode, now, cpu, i - 1);
      var q := procs[Cyclic(start, w, n)];
      if p.state == Ready {
        BeatsIfPreferred(q, w, p, i, best.value.idx, mode, now, cpu);
        if Preferred(p, i, q, w, mode, now, cpu) {
          TakesOver(procs, start, mode, now, cpu, i, w);
          w := i;
        }
      }
    }
  }

  lemma {:induction false} Reflexive(p: Process, v: nat, mode: Mode, now: nat, cpu: nat)
    ensures Preferred(p, v, p, v, mode, now, cpu)
  {
  }

  lemma {:induction false} TakesOver(procs: seq<Process>, start: nat, mode: Mode, now: nat, cpu: nat, i: nat, w: nat)
    requires start < |procs| && 1 <= i <= |procs| && Wins(procs, start, mode, now, cpu, i - 1, w) && Candidate(procs, start, i, i)
    requires Preferred(procs[Cyclic(start, i, |procs|)], i, procs[Cyclic(start, w, |procs|)], w, mode, now, cpu)
    ensures Wins(procs, start, mode, now, cpu, i, i)
  {
    hide Preferred;
    var n := |procs|;
    forall o: nat | Candidate(procs, start, o, i)
      ensures Preferred(procs[Cyclic(start, i, n)], i, procs[Cyclic(start, o, n)], o, mode, now, cpu)
    {
      if o == i {
        Reflexive(procs[Cyclic(start, i, n)], i, mode, now, cpu);
      } else {
        assert Candidate(procs, start, o, i - 1);
        PreferredChain(procs[Cyclic(start, i, n)], i, procs[Cyclic(start, w, n)], w, procs[Cyclic(start, o, n)], o, mode, now, cpu);
      }
    }
  }

  predicate BoostedCandidate(procs: seq<Process>, start: nat, o: nat, i: nat)
    requires start < |procs| && i <= |procs|
  {
    Candidate(procs, start, o, i) && procs[Cyclic(start, o, |procs|)].boost > 0
  }

  lemma {:induction false} BoostedIsFirst(procs: seq<Process>, start: nat, i: nat) returns (w: nat)
    requires start < |procs| && i <= |procs|
    ensures FirstBoosted(procs, start, i).None? ==> forall o: nat :: !BoostedCandidate(procs, start, o, i)
    ensures FirstBoosted(procs, start, i).Some? ==>
              && BoostedCandidate(procs, start, w, i) && FirstBoosted(procs, start, i).value == Cyclic(start, w, |procs|)
              && forall o: nat :: BoostedCandidate(procs, start, o, i) ==> w <= o
  {
    if i == 0 {
      w := 0;
    } else {
      w := BoostedIsFirst(procs, start, i - 1);
      assert forall o: nat :: o != i ==> BoostedCandidate(procs, start, o, i) == BoostedCandidate(procs, start, o, i - 1);
      if FirstBoosted(procs, start, i - 1).None? { w := i; }
    }
  }

  /** Whom an interrupt chooses: under CFS the first boosted candidate if there is one; else the preferred one. */
  lemma {:induction false} ChoosesPreferred(s: Sched, irq: Input) returns (w: nat)
    requires s.current < |s.procs| && |s.procs| > 1 && (s.mode == Cfs || s.quanta <= 1 || irq.voluntary)
    requires exists o: nat :: Candidate(Departed(s, irq).procs, s.current, o, |s.procs|)
    ensures var ps, n, s' := Departed(s, irq).procs, |s.procs|, Preempt(s, irq);
            && Candidate(ps, s.current, w, n) && s'.current == Cyclic(s.current, w, n)
            && s'.procs[s'.current] == ps[s'.current].(state := Running, runStart := irq.tsIn)
            && (forall i :: 0 <= i < n && i != s'.current ==> s'.procs[i] == ps[i])
            && if s.mode == Cfs && exists o: nat :: BoostedCandidate(ps, s.current, o, n)
               then BoostedCandidate(ps, s.current, w, n) && forall o: nat :: BoostedCandidate(ps, s.current, o, n) ==> w <= o
               else Wins(ps, s.current, s.mode, irq.now, irq.cpu, n, w)
  {
    var d, n := Departed(s, irq), |s.procs|;
    w := BoostedIsFirst(d.procs, s.current, n);
    if s.mode == WeightedPriority || FirstBoosted(d.procs, s.current, n).None? {
      ScanFinds(d.procs, s.current, s.mode, irq.now, irq.cpu, n);
      var o: nat :| Candidate(d.procs, s.current, o, n);
      w := ScanWins(d.procs, s.current, s.mode, irq.now, irq.cpu, n);
    }
    hide Scan; hide FirstBoosted; hide Departed; hide EffectivePriority; hide Wins;
  }

  // ---------- what a turn costs ----------

  /** The outgoing process pays for its cycles under CFS, in units of 1024 divided by its weight, and nobody else pays;
      under weighted priority nobody does. */
  lemma {:induction false} TurnCost(s: Sched, irq: Input, i: nat)
    requires s.current < |s.procs| && i < |s.procs|
    ensures var p, p' := s.procs[i], Preempt(s, irq).procs[i];
            var e := EffectivePriority(p.(boost := if p.boost == 0 then 0 else p.boost - 1), irq.now);
            var weight := match e case High => 88761 case Normal => 1024 case Low => 335 case Idle => 15;
            if i != s.current || s.mode == WeightedPriority then p'.vruntime == p.vruntime
            else
              var cycles := if irq.tsOut < p.runStart then 0 else irq.tsOut - p.runStart;
              && p'.vruntime <= U64_MAX
              && (cycles * 1024 <= U64_MAX && p'.vruntime < U64_MAX ==>
                    && p.vruntime <= p'.vruntime
                    && (p'.vruntime - p.vruntime) * weight <= cycles * 1024 < (p'.vruntime - p.vruntime + 1) * weight)
  {
    PreemptVruntime(s, irq, i);
    hide Preempt;
  }

  lemma {:induction false} PreemptVruntime(s: Sched, irq: Input, i: nat)
    requires s.current < |s.procs| && i < |s.procs|
    ensures Preempt(s, irq).procs[i].vruntime == if i == s.current then Depart(s.procs[i], s.mode, irq).vruntime else s.procs[i].vruntime
  {
    hide Pick; hide Depart;
  }

  /** Turns in proportion to the weights cost the same: 88761, 1024, 335 or 15 parts of the processor's cycles. */
  lemma {:induction false} ProportionalTurns(s: Sched, irq: Input, t: nat)
    requires s.current < |s.procs| && s.mode == Cfs
    requires var p := s.procs[s.current];
             var weight := match EffectivePriority(p.(boost := if p.boost == 0 then 0 else p.boost - 1), irq.now)
                           case High => 88761 case Normal => 1024 case Low => 335 case Idle => 15;
             irq.tsOut == p.runStart + t * weight && t * weight * 1024 <= U64_MAX && p.vruntime + 1024 * t <= U64_MAX
    ensures Preempt(s, irq).procs[s.current].vruntime == s.procs[s.current].vruntime + 1024 * t
  {
    var p := s.procs[s.current];
    var q := p.(boost := if p.boost == 0 then 0 else p.boost - 1);
    var weight := CfsWeight(EffectivePriority(q, irq.now));
    PreemptVruntime(s, irq, s.current);
    assert EffectivePriority(q.(rsp := irq.rsp), irq.now) == EffectivePriority(q, irq.now);
    assert t * weight * 1024 == weight * (1024 * t);
    assert weight * (1024 * t) / weight == 1024 * t;
    hide Preempt; hide EffectivePriority;
  }

  /** Switching to CFS starts everyone level, whatever they ran before; switching back changes no process. */
  lemma {:induction false} LevelStart(s: Sched, i: nat, j: nat)
    requires s.current < |s.procs| && i < |s.procs| && j < |s.procs|
    ensures var s' := Do(s, SetMode(Cfs));
            s'.mode == Cfs && s'.current == s.current && s'.procs[i].vruntime == s'.procs[j].vruntime == 0
            && s'.procs[i] == s.procs[i].(vruntime := s'.procs[i].vruntime)
    ensures Do(s, SetMode(WeightedPriority)) == s.(mode := WeightedPriority)
  {
  }
}
