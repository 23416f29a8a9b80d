/** Bounded waiting under both scheduling policies. */
module SchedulerWaiting {
  import opened Prelude
  import opened Priorities
  import opened Scheduler
  import opened SchedulerRuns

  /** A run seen from outside: before each interrupt the rest of the kernel turns trace[k] into env[k]. */
  datatype Run = Run(trace: seq<Sched>, env: seq<Sched>, inputs: seq<Input>) {
    predicate Shaped() { |trace| == |inputs| + 1 && |env| == |inputs| }
  }

  /** Cyclic distance from the current process to process `p`. */
  function Dist(s: Sched, p: nat): nat
    requires s.current < |s.procs| && p < |s.procs|
  {
    if p > s.current then p - s.current else p + |s.procs| - s.current
  }

  // ---------- weighted priority ----------

  /** `p` is ready, not Idle, and by tick `now` has waited the fairness floor. */
  predicate Starving(s: Sched, p: nat, now: nat) {
    && p < |s.procs| && s.procs[p].state == Ready && s.procs[p].priority != Idle
    && Waited(s.procs[p], now) >= FAIRNESS_FLOOR_TICKS
  }

  /** Between interrupts the rest of the kernel may change every other process at will; it spawns nothing, leaves the
      scheduler's own cursor, and neither kills `p` nor makes it Idle. */
  ghost predicate WeightedEnv(s: Sched, e: Sched, irq: Input, p: nat) {
    && |e.procs| == |s.procs| && e.current == s.current && e.quanta == s.quanta && e.mode == WeightedPriority
    && p < |s.procs| && e.procs[p].state == Ready && e.procs[p].priority != Idle && e.procs[p].readySince == s.procs[p].readySince
    && e.current < |e.procs| && Neutral(Departed(e, irq).procs, irq.cpu)
  }

  ghost predicate WeightedRun(run: Run, p: nat) {
    && run.Shaped()
    && (forall i, j :: 0 <= i <= j < |run.inputs| ==> run.inputs[i].now <= run.inputs[j].now)
    && forall k {:trigger run.env[k]} :: 0 <= k < |run.inputs| && run.trace[k].current != p ==>
         && run.trace[k].current < |run.trace[k].procs| && p < |run.trace[k].procs|
         && WeightedEnv(run.trace[k], run.env[k], run.inputs[k], p)
         && run.trace[k + 1] == Preempt(run.env[k], run.inputs[k])
  }

  /** The ranking function: quanta left in this turn, plus four for every turn that may still come first. */
  function WaitRank(s: Sched, p: nat): nat
    requires s.current < |s.procs| && p < |s.procs|
  {
    4 * (Dist(s, p) - 1) + Max(s.quanta, 1)
  }

  /** With a starving process about, the pick is a High process no further round than it. */
  lemma {:induction false} PickWithin(d: Sched, irq: Input, p: nat)
    requires d.current < |d.procs| && d.mode == WeightedPriority && p != d.current
    requires Starving(d, p, irq.now) && Neutral(d.procs, irq.cpu)
    ensures Pick(d, irq).Some? && EffectivePriority(d.procs[Pick(d, irq).value], irq.now) == High
    ensures exists w: nat :: 1 <= w <= Dist(d, p) && Pick(d, irq).value == Cyclic(d.current, w, |d.procs|)
  {
    var n := |d.procs|;
    var o := Dist(d, p);
    ScanFinds(d.procs, d.current, d.mode, irq.now, irq.cpu, n);
    ScanIsBest(d.procs, d.current, d.mode, irq.now, irq.cpu, n, o);
    ScanIsFirst(d.procs, d.current, d.mode, irq.now, irq.cpu, n, o);
  }

  /** One interrupt: the starving process runs, or the rank falls and it is still waiting. */
  lemma {:induction false} WeightedStep(s: Sched, e: Sched, irq: Input, p: nat)
    requires s.current < |s.procs| && p < |s.procs| && p != s.current && s.quanta <= 4 && WeightedEnv(s, e, irq, p)
    requires Waited(s.procs[p], irq.now) >= FAIRNESS_FLOOR_TICKS
    ensures var s' := Preempt(e, irq);
            && |s'.procs| == |s.procs|
            && (s'.current == p || (s'.quanta <= 4 && WaitRank(s', p) < WaitRank(s, p) && s'.procs[p].readySince == s.procs[p].readySince))
  {
    var d := Departed(e, irq);
    PickWithin(d, irq, p);
    var w: nat :| 1 <= w <= Dist(d, p) && Pick(d, irq).value == Cyclic(d.current, w, |d.procs|);
    hide Pick;
    hide Departed;
    var s' := Preempt(e, irq);
  }

  lemma {:induction false} WeightedWait(run: Run, p: nat, k: nat)
    requires WeightedRun(run, p) && k < |run.trace| && run.trace[k].current < |run.trace[k].procs| && p < |run.trace[k].procs|
    requires run.trace[k].current != p && run.trace[k].quanta <= 4 && |run.inputs| - k >= WaitRank(run.trace[k], p)
    requires k < |run.inputs| ==> Waited(run.trace[k].procs[p], run.inputs[k].now) >= FAIRNESS_FLOOR_TICKS
    ensures exists j :: k < j <= k + WaitRank(run.trace[k], p) && j < |run.trace| && run.trace[j].current == p
    decreases WaitRank(run.trace[k], p)
  {
    hide Preempt;
    hide WeightedEnv;
    var s := run.trace[k];
    assert WeightedEnv(s, run.env[k], run.inputs[k], p);
    WeightedStep(s, run.env[k], run.inputs[k], p);
    if run.trace[k + 1].current != p {
      assert k + 1 < |run.inputs| ==> run.inputs[k].now <= run.inputs[k + 1].now;
      WeightedWait(run, p, k + 1);
      var j :| k + 1 < j <= k + 1 + WaitRank(run.trace[k + 1], p) && j < |run.trace| && run.trace[j].current == p;
    }
  }

  /** Weighted priority starves nobody: once a ready process has waited 200 ticks, it runs within 4 * (n - 1)
      interrupts, whatever the other processes yield, sleep, boost, die or change. */
  lemma {:induction false} WeightedBoundedWaiting(run: Run, p: nat)
    requires WeightedRun(run, p)
    requires var s := run.trace[0];
             s.current < |s.procs| && p < |s.procs| && s.current != p && s.quanta <= 4 && |run.inputs| >= 4 * (|s.procs| - 1)
             && (run.inputs != [] ==> Waited(s.procs[p], run.inputs[0].now) >= FAIRNESS_FLOOR_TICKS)
    ensures exists j :: 0 < j <= 4 * (|run.trace[0].procs| - 1) && j < |run.trace| && run.trace[j].current == p
  {
    hide Preempt;
    var s := run.trace[0];
    assert WaitRank(s, p) <= 4 * (|s.procs| - 1);
    WeightedWait(run, p, 0);
    var j :| 0 < j <= WaitRank(s, p) && j < |run.trace| && run.trace[j].current == p;
  }

  // ---------- CFS ----------

  /** Between interrupts nothing touches vruntimes or `p`; no process is boosted; the slice was long enough. */
  ghost predicate CfsEnv(s: Sched, e: Sched, irq: Input, p: nat) {
    && |e.procs| == |s.procs| && e.current == s.current && e.current < |e.procs| && e.mode == Cfs
    && p < |e.procs| && e.procs[p].state == Ready
    && (forall i :: 0 <= i < |e.procs| ==> e.procs[i].vruntime == s.procs[i].vruntime && e.procs[i].boost == 0)
    && irq.tsOut >= e.procs[e.current].runStart + 87
    && e.procs[e.current].vruntime < U64_MAX
    && Neutral(Departed(e, irq).procs, irq.cpu)
  }

  ghost predicate CfsRun(run: Run, p: nat) {
    && run.Shaped()
    && forall k {:trigger run.env[k]} :: 0 <= k < |run.inputs| && run.trace[k].current != p ==>
         && run.trace[k].current < |run.trace[k].procs| && p < |run.trace[k].procs|
         && CfsEnv(run.trace[k], run.env[k], run.inputs[k], p)
         && run.trace[k + 1] == Preempt(run.env[k], run.inputs[k])
  }

  /** How many more selections process `j` may win against a process with vruntime `v`. */
  function Lead(j: Process, v: nat): nat { if j.vruntime <= v then v - j.vruntime + 1 else 0 }

  /** The sum of all leads over `p` among the first `k` processes. */
  function Leads(procs: seq<Process>, p: nat, v: nat, k: nat): nat
    requires k <= |procs|
  {
    if k == 0 then 0 else Leads(procs, p, v, k - 1) + if k - 1 == p then 0 else Lead(procs[k - 1], v)
  }

  lemma {:induction false} LeadsSame(a: seq<Process>, b: seq<Process>, p: nat, v: nat, k: nat)
    requires k <= |a| && k <= |b| && forall i :: 0 <= i < k ==> a[i].vruntime == b[i].vruntime
    ensures Leads(a, p, v, k) == Leads(b, p, v, k)
  {
    if k == 0 {
    } else {
      LeadsSame(a, b, p, v, k - 1);
    }
  }

  /** Only process `c` moved on: the sum falls by what `c` lost. */
  lemma {:induction false} LeadsDrop(a: seq<Process>, b: seq<Process>, p: nat, v: nat, c: nat, k: nat)
    requires k <= |a| && |a| == |b| && c != p && c < |a| && a[c].vruntime < b[c].vruntime
    requires forall i :: 0 <= i < |a| && i != c ==> a[i].vruntime == b[i].vruntime
    ensures Leads(b, p, v, k) + (if c < k && a[c].vruntime <= v then 1 else 0) <= Leads(a, p, v, k)
  {
    if k == 0 {
    } else {
      LeadsDrop(a, b, p, v, c, k - 1);
    }
  }

  lemma {:induction false} CfsClock(e: Sched, irq: Input, p: nat)
    requires CfsEnv(e, e, irq, p) && p != e.current
    ensures var d := Departed(e, irq);
            && d.procs[p] == e.procs[p] && d.procs[e.current].vruntime > e.procs[e.current].vruntime
            && forall i :: 0 <= i < |d.procs| ==> d.procs[i].boost == 0 && (i != e.current ==> d.procs[i].vruntime == e.procs[i].vruntime)
  {
    var c := e.procs[e.current];
    hide VruntimeDelta;
  }

  lemma {:induction false} NoBoost(procs: seq<Process>, start: nat, i: nat)
    requires start < |procs| && i <= |procs| && forall j :: 0 <= j < |procs| ==> procs[j].boost == 0
    ensures FirstBoosted(procs, start, i) == None
  {
    if i == 0 {
    } else {
      NoBoost(procs, start, i - 1);
    }
  }

  /** The pick has the least vruntime of the ready processes. */
  lemma {:induction false} CfsPick(d: Sched, irq: Input, p: nat)
    requires d.current < |d.procs| && d.mode == Cfs && p < |d.procs| && d.procs[p].state == Ready
    requires forall j :: 0 <= j < |d.procs| ==> d.procs[j].boost == 0
    ensures Pick(d, irq).Some? && d.procs[Pick(d, irq).value].vruntime <= d.procs[p].vruntime
  {
    var n := |d.procs|;
    NoBoost(d.procs, d.current, n);
    ScanFinds(d.procs, d.current, d.mode, irq.now, irq.cpu, n);
    ScanIsBest(d.procs, d.current, d.mode, irq.now, irq.cpu, n, Dist(d, p));
  }

  /** One interrupt under CFS: `p` runs, or the leads do not grow, fall if the outgoing process had one, and the
      incoming process has one. */
  lemma {:induction false} CfsStep(s: Sched, e: Sched, irq: Input, p: nat)
    requires s.current < |s.procs| && p < |s.procs| && p != s.current && CfsEnv(s, e, irq, p)
    ensures var s' := Preempt(e, irq);
            var v := s.procs[p].vruntime;
            && |s'.procs| == |s.procs| && s'.procs[p].vruntime == v
            && Leads(s'.procs, p, v, |s.procs|) + (if s.procs[s.current].vruntime <= v then 1 else 0) <= Leads(s.procs, p, v, |s.procs|)
            && (s'.current == p || s'.procs[s'.current].vruntime <= v)
  {
    CfsClock(e, irq, p);
    var d, s', v, n := Departed(e, irq), Preempt(e, irq), s.procs[p].vruntime, |s.procs|;
    CfsPick(d, irq, p);
    hide Pick;
    hide Departed;
    LeadsSame(s.procs, e.procs, p, v, n);
    LeadsDrop(e.procs, d.procs, p, v, e.current, n);
    LeadsSame(d.procs, s'.procs, p, v, n);
  }

  /** A process with a lead contributes to the sum. */
  lemma {:induction false} LeadCounts(procs: seq<Process>, p: nat, v: nat, c: nat, k: nat)
    requires c < k <= |procs| && c != p && procs[c].vruntime <= v
    ensures Leads(procs, p, v, k) >= 1
  {
    if c < k - 1 { LeadCounts(procs, p, v, c, k - 1); }
  }

  lemma {:induction false} CfsWait(run: Run, p: nat, k: nat, v: nat)
    requires CfsRun(run, p) && k < |run.trace| && run.trace[k].current < |run.trace[k].procs| && p < |run.trace[k].procs|
    requires var s := run.trace[k];
             && s.current != p && s.procs[p].vruntime == v && s.procs[s.current].vruntime <= v
             && |run.inputs| - k >= Leads(s.procs, p, v, |s.procs|)
    ensures var s := run.trace[k];
            exists j :: k < j <= k + Leads(s.procs, p, v, |s.procs|) && j < |run.trace| && run.trace[j].current == p
    decreases Leads(run.trace[k].procs, p, v, |run.trace[k].procs|)
  {
    hide Preempt;
    hide CfsEnv;
    var s := run.trace[k];
    LeadCounts(s.procs, p, v, s.current, |s.procs|);
    assert CfsEnv(s, run.env[k], run.inputs[k], p);
    CfsStep(s, run.env[k], run.inputs[k], p);
    var s' := run.trace[k + 1];
    if s'.current != p {
      CfsWait(run, p, k + 1, v);
      var j :| k + 1 < j <= k + 1 + Leads(s'.procs, p, v, |s'.procs|) && j < |run.trace| && run.trace[j].current == p;
    }
  }

  /** CFS starves nobody: a ready process is selected within one interrupt more than the sum of the others' leads. */
  lemma {:induction false} CfsBoundedWaiting(run: Run, p: nat)
    requires CfsRun(run, p)
    requires var s := run.trace[0];
             && s.current < |s.procs| && p < |s.procs| && s.current != p
             && |run.inputs| >= 1 + Leads(s.procs, p, s.procs[p].vruntime, |s.procs|)
    ensures var s := run.trace[0];
            exists j :: 0 < j <= 1 + Leads(s.procs, p, s.procs[p].vruntime, |s.procs|) && j < |run.trace| && run.trace[j].current == p
  {
    hide Preempt;
    hide CfsEnv;
    var s, v := run.trace[0], run.trace[0].procs[p].vruntime;
    assert CfsEnv(s, run.env[0], run.inputs[0], p);
    CfsStep(s, run.env[0], run.inputs[0], p);
    var s' := run.trace[1];
    if s'.current != p {
      CfsWait(run, p, 1, v);
      var j :| 1 < j <= 1 + Leads(s'.procs, p, v, |s'.procs|) && j < |run.trace| && run.trace[j].current == p;
    }
  }
}
