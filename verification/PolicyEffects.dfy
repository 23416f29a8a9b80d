/** What the self-tuning does to the machine: priorities by behaviour, the slice by load, the ladders by their signals. */
module PolicyEffects {
  import opened Prelude
  import opened Priorities
  import opened PolicyLearning
  import opened PolicyLessons
  import opened PolicyTuning

  // ---------- one process ----------

  /** The share of voluntary switches in a thousand, as counted; the smoothed one if there were none. */
  predicate IsShare(share: nat, p: Proc, c: Counts) {
    if c.vol + c.forced == 0 then share == p.volEma
    else share * (c.vol + c.forced) <= c.vol * 1000 < (share + 1) * (c.vol + c.forced)
  }

  lemma {:induction false} ShareCounted(p: Proc, c: Counts)
    ensures IsShare(CurrentVol(p, c), p, c)
  {
    if c.vol + c.forced > 0 {
      var n := c.vol + c.forced;
      assert c.vol * 1000 / n * n <= c.vol * 1000 < c.vol * 1000 / n * n + n;
    }
  }

  lemma {:induction false} SmoothedTenths(num: nat, x: nat, was: nat)
    requires num <= 10
    ensures 10 * Smooth(num, x, was) <= num * x + (10 - num) * was < 10 * Smooth(num, x, was) + 10
  {
  }

  /** The smoothed share takes one to five tenths of the new one, by the level. */
  lemma {:induction false} ShareSmoothed(p: Proc, w: nat, env: Env) returns (share: nat)
    requires p.alphaLevel < 5
    ensures IsShare(share, p, env.sched(p.pid))
    ensures var n, v := p.alphaLevel + 1, TuneProc(p, w, env).volEma;
            10 * v <= n * share + (10 - n) * p.volEma < 10 * v + 10
  {
    hide CurrentVol; hide IsShare; hide Smooth; hide Classify;
    share := CurrentVol(p, env.sched(p.pid));
    ShareCounted(p, env.sched(p.pid));
    assert TuneProc(p, w, env).volEma == Smooth(p.alphaLevel + 1, share, p.volEma);
    SmoothedTenths(p.alphaLevel + 1, share, p.volEma);
  }

  /** High from a smoothed share of 600 up, Low down from 200, Normal between. */
  predicate IsClass(v: nat, kind: Priority) {
    kind != Idle && (kind == High <==> v >= 600) && (kind == Low <==> v <= 200)
  }

  /** The classification changes a priority exactly when it differs, no change is recent and the engine is on; and then
      to the class of the smoothed share. */
  lemma {:induction false} PriorityGiven(p: Proc, w: nat, env: Env, kind: Priority)
    requires IsClass(TuneProc(p, w, env).volEma, kind) && p.changedAt != Some(w)
    ensures var p' := TuneProc(p, w, env);
            && (p'.changedAt == Some(w) <==> env.enabled && env.priority(p.pid) != kind && p.cooldown == 0)
            && (p'.changedAt == Some(w) ==> p'.given == Some(kind))
            && (p'.changedAt != Some(w) ==> p'.changedAt == p.changedAt && p'.given == p.given)
            && p'.cooldown == (if !env.enabled then p.cooldown else if p'.changedAt == Some(w) then 2
                               else if p.cooldown > 0 then p.cooldown - 1 else 0)
            && p'.recent == 0
  {
    hide Smooth; hide CurrentVol;
  }

  /** A window too thin to judge leaves level and volatility; another smooths the jump in share and moves the level one step
      toward 4 (jumpy), 0 (steady) or 2. */
  lemma {:induction false} LevelFollows(p: Proc, w: nat, env: Env)
    ensures var p', c := TuneProc(p, w, env), env.sched(p.pid);
            if c.vol + c.forced < 5 then (p'.alphaLevel, p'.volatility, p'.prevVol) == (p.alphaLevel, p.volatility, p.prevVol)
            else
              var jump := if p'.prevVol > p.prevVol then p'.prevVol - p.prevVol else p.prevVol - p'.prevVol;
              var goal := if p'.volatility >= 3000 then 4 else if p'.volatility <= 500 then 0 else 2;
              && IsShare(p'.prevVol, p, c)
              && 10 * p'.volatility <= 30 * jump + 7 * p.volatility < 10 * p'.volatility + 10
              && OneStep(p.alphaLevel, p'.alphaLevel, goal)
  {
    hide CurrentVol; hide IsShare; hide Smooth; hide Classify;
    ShareCounted(p, env.sched(p.pid));
    SmoothedTenths(3, Gap(CurrentVol(p, env.sched(p.pid)), p.prevVol) * 10, p.volatility);
  }

  /** At the goal, or one nearer to it. */
  predicate OneStep(level: nat, level': nat, goal: nat) {
    if level == goal then level' == level else if level < goal then level' == level + 1 else level' + 1 == level
  }

  /** The same behaviour, window after window, with the level as it may be. */
  function Steady(p: Proc, w: nat, env: Env, n: nat): Proc {
    if n == 0 then p else TuneProc(Steady(p, w, env, n - 1), w + n - 1, env)
  }

  /** A process that only yields is classified High in the end, one that is only preempted Low, whatever it did before. */
  lemma {:induction false} BehaviourDecides(p: Proc, w: nat, env: Env, n: nat)
    requires ProcOk(p) && p.active
    ensures var v, c := Steady(p, w, env, n).volEma, env.sched(p.pid);
            && Steady(p, w, env, n).pid == p.pid && Steady(p, w, env, n).active && ProcOk(Steady(p, w, env, n))
            && (c.vol > 0 && c.forced == 0 ==> v >= Min(991, p.volEma + n))
            && (c.vol == 0 && c.forced > 0 ==> v <= Max(0, p.volEma - n))
  {
    hide TuneProc;
    if n == 0 {
    } else {
      BehaviourDecides(p, w, env, n - 1);
      var q, c := Steady(p, w, env, n - 1), env.sched(p.pid);
      TuneProcKeeps(q, w + n - 1, env);
      var share := ShareSmoothed(q, w + n - 1, env);
      var a := q.alphaLevel + 1;
      if c.vol > 0 && c.forced == 0 { SharePure(c.vol, share, 1000); }
      if c.vol == 0 && c.forced > 0 { SharePure(c.forced, share, 0); }
      if c.vol > 0 && c.forced == 0 { Pull(a, 1000, q.volEma); }
      if c.vol == 0 && c.forced > 0 { Pull(a, 0, q.volEma); }
    }
  }

  lemma {:induction false} SharePure(n: nat, share: nat, pure: nat)
    requires n > 0 && share * n <= pure * n < (share + 1) * n
    ensures share == pure
  {
    if share > pure { ProductAtLeast(share, pure + 1, n); }
    if share < pure { ProductAtLeast(pure, share + 1, n); }
  }

  lemma {:induction false} Pull(a: nat, share: nat, v: nat)
    requires 1 <= a <= 5 && v <= 1000
    ensures share == 1000 ==> a * share + (10 - a) * v >= 10 * v + (1000 - v)
    ensures share == 0 ==> a * share + (10 - a) * v <= 9 * v
  {
    assert a == 1 || a == 2 || a == 3 || a == 4 || a == 5;
  }

  // ---------- the report ----------

  /** Slots below `n` whose smoothed share after tuning is in the range. */
  ghost function Classed(ps: Procs, ps': Procs, n: nat, lo: nat, hi: nat): set<ProcIndex>
    requires n <= MAX_PROCS
  {
    set i: ProcIndex | i < n && ps[i].active && lo <= ps'[i].volEma <= hi
  }

  /** Some slot below `n` ran for `pct` percent of the window. */
  ghost predicate Busy(ps: Procs, n: nat, window: nat, pct: nat) {
    exists i: ProcIndex :: i < n && ps[i].active && ps[i].recent * 100 >= pct * window
  }

  lemma {:induction false} AtLeastPct(ticks: nat, window: nat, pct: nat)
    requires window > 0
    ensures ticks * 100 / window >= pct <==> ticks * 100 >= pct * window
  {
    var x := ticks * 100 / window;
    assert x * window <= ticks * 100 < x * window + window;
    if x >= pct { ProductAtLeast(x, pct, window); } else { ProductAtLeast(pct, x + 1, window); }
  }

  lemma {:induction false} SumMeans(ps: Procs, ps': Procs, n: nat, window: nat, pct: nat)
    requires n <= MAX_PROCS && window > 0 && pct > 0
    requires forall i: ProcIndex :: ps[i].active ==> ps'[i].volEma <= 1000
    ensures var s := SumUp(ps, ps', n, window);
            && (s.maxPct >= pct <==> Busy(ps, n, window, pct))
            && s.high == |Classed(ps, ps', n, 600, 1000)| && s.low == |Classed(ps, ps', n, 0, 200)|
  {
    if n == 0 {
    } else {
      SumMeans(ps, ps', n - 1, window, pct);
      SumNext(ps, ps', n - 1, window);
      AtLeastPct(ps[n - 1].recent, window, pct);
      ClassedNext(ps, ps', n - 1, 600, 1000);
      ClassedNext(ps, ps', n - 1, 0, 200);
      hide SumUp; hide Classed;
    }
  }

  lemma {:induction false} ClassedNext(ps: Procs, ps': Procs, n: ProcIndex, lo: nat, hi: nat)
    ensures |Classed(ps, ps', n + 1, lo, hi)| == |Classed(ps, ps', n, lo, hi)| + if ps[n].active && lo <= ps'[n].volEma <= hi then 1 else 0
  {
    assert Classed(ps, ps', n + 1, lo, hi) == Classed(ps, ps', n, lo, hi) + if ps[n].active && lo <= ps'[n].volEma <= hi then {n} else {};
  }

  /** While the engine is on, the slice follows the busiest process: one tick if it ran for 70 percent of the window, two
      for 40, else three; and never one tick in the build profile. */
  lemma {:induction false} SliceFollowsLoad(t: Tuning, env: Env)
    requires TuningOk(t) && env.enabled
    ensures var t', window := Report(t, env), Max(t.interval, 1);
            t'.slice == if Busy(t.procs, MAX_PROCS, window, 70) then (if t'.profile == 0 then 2 else 1)
                        else if Busy(t.procs, MAX_PROCS, window, 40) then 2 else 3
  {
    ReportKeeps(t, env);
    TunedShares(t, env);
    SumMeans(t.procs, TunedProcs(t, env), MAX_PROCS, Max(t.interval, 1), 70);
    SumMeans(t.procs, TunedProcs(t, env), MAX_PROCS, Max(t.interval, 1), 40);
    hide TuneProcs; hide SumUp; hide Busy; hide Classed; hide TuningOk; hide Div; hide Smooth; hide StepToward;
  }

  function TunedProcs(t: Tuning, env: Env): Procs { TuneProcs(t.procs, MAX_PROCS, t.windows + 1, env) }

  lemma {:induction false} TunedShares(t: Tuning, env: Env)
    requires TuningOk(t)
    ensures Report(t, env).procs == TunedProcs(t, env)
    ensures forall i: ProcIndex :: t.procs[i].active ==> TunedProcs(t, env)[i].active && TunedProcs(t, env)[i].volEma <= 1000
  {
    ReportKeeps(t, env);
    assert Report(t, env).procs == TunedProcs(t, env) by { hide TuneProcs; hide SumUp; hide Div; hide Smooth; hide StepToward; }
    forall i: ProcIndex | t.procs[i].active ensures TunedProcs(t, env)[i].active && TunedProcs(t, env)[i].volEma <= 1000 {
      TuneProcsEach(t.procs, MAX_PROCS, t.windows + 1, env, i);
      TuneProcKeeps(t.procs[i], t.windows + 1, env);
      hide TuneProc; hide TuneProcs;
    }
    hide Report; hide TuneProcs;
  }

  /** A window with five switches or more smooths ten times their rate and moves the interval one rung toward 8 ticks
      (busy), 72 (quiet) or 36; a thinner one leaves all as it is. */
  lemma {:induction false} IntervalFollowsRate(t: Tuning, env: Env)
    requires TuningOk(t) && env.enabled
    ensures var t', window := Report(t, env), Max(t.interval, 1);
            && t'.switches == 0
            && t'.interval == (match t'.level case 0 => 8 case 1 => 18 case 2 => 36 case _ => 72)
            && if t.switches < 5 then (t'.level, t'.rateEma) == (t.level, t.rateEma)
               else
                 var rate := t.switches * 10 / window;
                 && 10 * t'.rateEma <= 3 * rate + 7 * t.rateEma < 10 * t'.rateEma + 10
                 && OneStep(t.level, t'.level, if t'.rateEma >= 15 then 0 else if t'.rateEma <= 3 then 3 else 2)
  {
    SmoothedTenths(3, t.switches * 10 / Max(t.interval, 1), t.rateEma);
    hide TuneProcs; hide SumUp; hide Smooth; hide ProcsOk; hide Div; hide TuneProfile;
    assert Report(t, env).level == TuneInterval(t, true).level by { hide TuneInterval; ProfileElsewhere(t, env); }
    assert Report(t, env).rateEma == TuneInterval(t, true).rateEma by { hide TuneInterval; ProfileElsewhere(t, env); }
    assert Report(t, env).interval == TuneInterval(t, true).interval by { hide TuneInterval; ProfileElsewhere(t, env); }
    assert Report(t, env).switches == TuneInterval(t, true).switches by { hide TuneInterval; ProfileElsewhere(t, env); }
    hide Report;
  }

  lemma {:induction false} ProfileElsewhere(t: Tuning, env: Env)
    ensures var t', t1 := Report(t, env), TuneInterval(t, env.enabled);
            (t'.level, t'.rateEma, t'.interval, t'.switches) == (t1.level, t1.rateEma, t1.interval, t1.switches)
  {
    hide TuneProcs; hide SumUp; hide Smooth; hide Div; hide TuneInterval; hide StepToward; hide NewSlice;
  }

  /** A window that classes fewer than two processes as High or Low leaves the profile; another smooths ten times their
      balance and moves the profile one step toward build (two more Low than High) or else toward game. */
  lemma {:induction false} ProfileFollowsBalance(t: Tuning, env: Env)
    requires TuningOk(t) && env.enabled
    ensures var t' := Report(t, env);
            var high := |Classed(t.procs, t'.procs, MAX_PROCS, 600, 1000)|;
            var low := |Classed(t.procs, t'.procs, MAX_PROCS, 0, 200)|;
            if high + low < 2 then (t'.profile, t'.biasEma) == (t.profile, t.biasEma)
            else
              && Part(t'.biasEma, 10, 30 * (high - low) + 7 * t.biasEma)
              && OneStep(t.profile, t'.profile, if t'.biasEma <= -20 then 0 else 2)
  {
    TunedShares(t, env);
    hide TuneProcs; hide SumUp; hide Smooth; hide Div; hide Part; hide NewSlice; hide Classed; hide TuningOk;
    SumMeans(t.procs, TunedProcs(t, env), MAX_PROCS, Max(t.interval, 1), 1);
    var s := SumUp(t.procs, TunedProcs(t, env), MAX_PROCS, Max(t.interval, 1));
    var t1 := TuneInterval(t, true).(procs := TunedProcs(t, env), windows := t.windows + 1);
    assert t1.profile == t.profile && t1.biasEma == t.biasEma;
    assert Report(t, env).profile == TuneProfile(t1, s, true).profile && Report(t, env).biasEma == TuneProfile(t1, s, true).biasEma;
    PartIsDiv(Div(30 * (s.high - s.low) + 7 * t.biasEma, 10), 30 * (s.high - s.low) + 7 * t.biasEma);
    hide Report; hide TuneInterval;
  }

  // ---------- accounting ----------

  /** A turn is counted in full: between the switch to a process and the switch from it its running time grows by the
      ticks between, and nobody else's changes then. */
  lemma {:induction false} TurnCounted(t: Tuning, before: nat, pid: nat, after: nat, start: nat, end: nat, i: ProcIndex)
    requires start <= end && SlotOf(t.procs, pid) == i && before != pid
    ensures var t1 := Account(t, before, pid, start); var t2 := Account(t1, pid, after, end);
            && t2.procs[i].recent == t.procs[i].recent + (end - start)
            && (forall j: ProcIndex :: j != i ==> t2.procs[j].recent == t1.procs[j].recent)
            && t2.total == end && t2.switches == t.switches + 2
  {
    var t1 := Account(t, before, pid, start);
    forall j: ProcIndex ensures t1.procs[j].pid == t.procs[j].pid && t1.procs[j].active == t.procs[j].active {
      AccountSlot(t, before, pid, start, j);
    }
    SameSlots(t.procs, t1.procs, pid);
    AccountSlot(t, before, pid, start, i);
    forall j: ProcIndex
      ensures Account(t1, pid, after, end).procs[j].recent == t1.procs[j].recent + if j == i then end - start else 0
    {
      AccountSlot(t1, pid, after, end, j);
    }
    OtherPid(t.procs, before, pid);
    hide Account; hide SlotOf;
  }

  lemma {:induction false} SameSlots(ps: seq<Proc>, ps': seq<Proc>, pid: nat)
    requires |ps| == |ps'| && forall j :: 0 <= j < |ps| ==> ps'[j].pid == ps[j].pid && ps'[j].active == ps[j].active
    ensures SlotOf(ps', pid) == SlotOf(ps, pid)
  {
    if ps == [] {
    } else {
      SameSlots(ps[1..], ps'[1..], pid);
    }
  }

  lemma {:induction false} OtherPid(ps: Procs, a: nat, b: nat)
    requires a != b && SlotOf(ps, b) < MAX_PROCS
    ensures SlotOf(ps, a) != SlotOf(ps, b)
  {
  }

  lemma {:induction false} AccountSlot(t: Tuning, from: nat, to: nat, tick: nat, j: ProcIndex)
    ensures var t' := Account(t, from, to, tick); var p, p' := t.procs[j], t'.procs[j];
            && t'.total == tick && t'.switches == t.switches + 1
            && p'.pid == p.pid && p'.active == p.active
            && p'.recent == p.recent + (if j == SlotOf(t.procs, from) && tick > p.runStart then tick - p.runStart else 0)
            && p'.runStart == if j == SlotOf(t.procs, to) then tick else p.runStart
  {
    hide SlotOf;
    var i := SlotOf(t.procs, from);
    if i < MAX_PROCS {
      var ran := if tick > t.procs[i].runStart then tick - t.procs[i].runStart else 0;
      var ps: Procs := t.procs[i := t.procs[i].(recent := t.procs[i].recent + ran)];
      SameSlots(t.procs, ps, to);
      var k := SlotOf(ps, to);
      assert Account(t, from, to, tick).procs == if k == MAX_PROCS then ps else ps[k := ps[k].(runStart := tick)];
    }
  }

  /** Registering gives a process one slot, with its counters at their start, unless it has one or none is left; and
      unregistering takes it. */
  lemma {:induction false} RegisterThenLeave(t: Tuning, pid: nat)
    requires SlotOf(t.procs, pid) == MAX_PROCS && FreeSlot(t.procs) < MAX_PROCS
    ensures var t1 := Register(t, pid); var k := FreeSlot(t.procs);
            && t1.procs == t.procs[k := t1.procs[k]] && SlotOf(t1.procs, pid) == k
            && (t1.procs[k].volEma, t1.procs[k].prevVol, t1.procs[k].alphaLevel, t1.procs[k].recent) == (500, 500, 2, 0)
            && t1.procs[k].runStart == t.total && Register(t1, pid) == t1
            && SlotOf(Unregister(t1, pid).procs, pid) == MAX_PROCS
  {
    var k, t1 := FreeSlot(t.procs), Register(t, pid);
    var s1 := SlotOf(t1.procs, pid);
    assert t1.procs[k].active && t1.procs[k].pid == pid;
  }

  /** A switch brings a report exactly when the interval has passed since the last one; the report leaves the accounts of
      the turn just ended closed. */
  lemma {:induction false} ReportsOnTime(t: Tuning, from: nat, to: nat, tick: nat, env: Env)
    ensures var t' := OnSwitch(t, from, to, tick, env); var due := tick >= t.lastReport + t.interval;
            && t'.windows == t.windows + (if due then 1 else 0)
            && t'.lastReport == (if due then tick else t.lastReport)
            && (!due ==> t'.slice == t.slice && t'.level == t.level && t'.profile == t.profile && t'.interval == t.interval)
            && t'.total == tick
  {
    hide TuneProcs; hide SumUp; hide Smooth; hide Div; hide StepToward; hide NewSlice; hide SlotOf;
  }
}
