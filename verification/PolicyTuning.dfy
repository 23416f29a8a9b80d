/** The self-tuning half of the policy engine: smoothed signals, ladders of levels, time slice, priority changes. */
module PolicyTuning {
  import opened Prelude
  import opened Priorities
  import opened PolicyLearning

  const MAX_PROCS: nat := 32
  const BASELINE_SLICE: nat := 3

  /** A process slot; `changedAt` and `given` record the window whose classification last changed its priority, and to what. */
  datatype Proc = Proc(
    pid: nat, active: bool, recent: nat, runStart: nat, volEma: nat, alphaLevel: nat, prevVol: nat, volatility: nat,
    cooldown: nat, changedAt: Option<nat>, given: Option<Priority>)

  type ProcIndex = i: nat | i < MAX_PROCS witness 0

  type Procs = ps: seq<Proc> | |ps| == MAX_PROCS witness seq(MAX_PROCS, _ => EmptyProc)

  const EmptyProc: Proc := NewProc(0, 0).(active := false)

  function NewProc(pid: nat, tick: nat): Proc { Proc(pid, true, 0, tick, 500, 2, 500, 0, 0, None, None) }

  /** `windows` counts the reports made. */
  datatype Tuning = Tuning(
    procs: Procs, total: nat, lastReport: nat, interval: nat, switches: nat, rateEma: nat, level: nat, biasEma: int,
    profile: nat, slice: nat, windows: nat)

  function Initial(): Tuning { Tuning(seq(MAX_PROCS, _ => EmptyProc), 0, 0, 36, 0, 0, 2, 0, 2, 3, 0) }

  /** What the engine reads from the scheduler: its switch, (voluntary, forced) counts, and current priorities. */
  datatype Env = Env(enabled: bool, sched: nat -> Counts, priority: nat -> Priority)

  datatype Counts = Counts(vol: nat, forced: nat)

  // ---------- smoothing and ladders ----------

  function Smooth(num: nat, x: nat, was: nat): nat
    requires num <= 10
  {
    (num * x + (10 - num) * was) / 10
  }

  lemma {:induction false} SmoothBetween(num: nat, x: nat, was: nat)
    requires num <= 10
    ensures Min(x, was) <= Smooth(num, x, was) <= Max(x, was)
  {
    var lo, hi := Min(x, was), Max(x, was);
    assert num * lo + (10 - num) * lo == 10 * lo && num * hi + (10 - num) * hi == 10 * hi;
    assert num * lo <= num * x <= num * hi;
    assert (10 - num) * lo <= (10 - num) * was <= (10 - num) * hi;
  }

  function StepToward(level: nat, target: nat): nat {
    if target > level then level + 1 else if target < level then level - 1 else level
  }

  function Climb(level: nat, target: nat, n: nat): nat {
    if n == 0 then level else StepToward(Climb(level, target, n - 1), target)
  }

  function Gap(a: nat, b: nat): nat { if a < b then b - a else a - b }

  /** A steady target is reached in as many windows as it is levels away, without overshooting, and then held. */
  lemma {:induction false} ClimbReaches(level: nat, target: nat, n: nat)
    ensures Gap(Climb(level, target, n), target) == if Gap(level, target) <= n then 0 else Gap(level, target) - n
  {
    if n == 0 {
    } else {
      ClimbReaches(level, target, n - 1);
    }
  }

  function IntervalOf(level: nat): nat { match level case 0 => 8 case 1 => 18 case 2 => 36 case _ => 72 }

  function AlphaOf(level: nat): nat { Min(level + 1, 5) }

  /** Lower and upper bound of the slice for a profile: build, balanced, game. */
  function SliceMin(profile: nat): nat { if profile == 0 then 2 else 1 }

  function SliceMax(profile: nat): nat { if profile >= 2 then 4 else 3 }

  // ---------- one process in a window ----------

  function CurrentVol(p: Proc, c: Counts): nat { if c.vol + c.forced == 0 then p.volEma else c.vol * 1000 / (c.vol + c.forced) }

  function Classify(ema: nat): Priority { if ema >= 600 then High else if ema <= 200 then Low else Normal }

  function AlphaTarget(volatility: nat): nat { if volatility >= 3000 then 4 else if volatility <= 500 then 0 else 2 }

  /** One active slot at the end of window `w`. */
  function TuneProc(p: Proc, w: nat, env: Env): Proc {
    var c := env.sched(p.pid);
    var cur := CurrentVol(p, c);
    var ema := Smooth(AlphaOf(p.alphaLevel), cur, p.volEma);
    var p1 := p.(volEma := ema, recent := 0);
    var p2 := if c.vol + c.forced < 5 then p1
              else
                var v := Smooth(3, Gap(cur, p.prevVol) * 10, p.volatility);
                p1.(prevVol := cur, volatility := v, alphaLevel := StepToward(p.alphaLevel, AlphaTarget(v)));
    if !env.enabled then p2
    else
      var p3 := if env.priority(p.pid) == Classify(ema) || p.cooldown > 0 then p2
                else p2.(cooldown := 3, changedAt := Some(w), given := Some(Classify(ema)));
      p3.(cooldown := if p3.cooldown > 0 then p3.cooldown - 1 else 0)
  }

  predicate ProcOk(p: Proc) { p.volEma <= 1000 && p.prevVol <= 1000 && p.volatility <= 10000 && p.alphaLevel < 5 && p.cooldown <= 2 }

  /** Windows that must still pass before the priority may change again. */
  predicate CoolingOk(p: Proc, w: nat) { p.changedAt.Some? ==> p.changedAt.value <= w && p.changedAt.value + 2 <= w + p.cooldown }

  lemma {:induction false} ShareBelow(vol: nat, forced: nat)
    requires vol + forced > 0
    ensures vol * 1000 / (vol + forced) <= 1000
  {
    var n := vol + forced;
    assert vol * 1000 <= n * 1000;
    assert vol * 1000 / n * n <= 1000 * n;
  }

  lemma {:induction false} TuneProcKeeps(p: Proc, w: nat, env: Env)
    requires ProcOk(p) && p.active
    ensures var p' := TuneProc(p, w, env);
            && ProcOk(p') && p'.pid == p.pid && p'.active
            && Gap(p'.alphaLevel, p.alphaLevel) <= 1
            && Min(CurrentVol(p, env.sched(p.pid)), p.volEma) <= p'.volEma <= Max(CurrentVol(p, env.sched(p.pid)), p.volEma)
  {
    var c := env.sched(p.pid);
    if c.vol + c.forced > 0 { ShareBelow(c.vol, c.forced); }
    var cur := CurrentVol(p, c);
    SmoothBetween(AlphaOf(p.alphaLevel), cur, p.volEma);
    SmoothBetween(3, Gap(cur, p.prevVol) * 10, p.volatility);
    hide Smooth; hide CurrentVol;
  }

  /** A change of priority comes at least three windows after the one before. */
  lemma {:induction false} ChangesApart(p: Proc, w: nat, env: Env)
    requires ProcOk(p) && CoolingOk(p, w)
    ensures CoolingOk(TuneProc(p, w + 1, env), w + 1)
    ensures TuneProc(p, w + 1, env).changedAt == p.changedAt
         || (env.enabled && TuneProc(p, w + 1, env).changedAt == Some(w + 1) && (p.changedAt.Some? ==> p.changedAt.value + 3 <= w + 1))
  {
    hide Smooth; hide CurrentVol;
  }

  // ---------- all processes ----------

  datatype Sum = Sum(maxPct: nat, high: nat, low: nat)

  function TuneProcs(ps: Procs, n: nat, w: nat, env: Env): Procs
    requires n <= MAX_PROCS
  {
    if n == 0 then ps
    else var ps1 := TuneProcs(ps, n - 1, w, env); if ps1[n - 1].active then ps1[n - 1 := TuneProc(ps1[n - 1], w, env)] else ps1
  }

  /** Maximum share of the window, and how many processes count as interactive or CPU-bound, before and after tuning. */
  function SumUp(ps: Procs, ps': Procs, n: nat, window: nat): Sum
    requires n <= MAX_PROCS && window > 0
  {
    if n == 0 then Sum(0, 0, 0)
    else
      var s := SumUp(ps, ps', n - 1, window);
      if !ps[n - 1].active then s
      else
        Sum(Max(s.maxPct, ps[n - 1].recent * 100 / window),
            s.high + (if Classify(ps'[n - 1].volEma) == High then 1 else 0),
            s.low + (if Classify(ps'[n - 1].volEma) == Low then 1 else 0))
  }

  predicate ProcsOk(ps: Procs, w: nat) { forall i: ProcIndex :: ps[i].active ==> ProcOk(ps[i]) && CoolingOk(ps[i], w) }

  /** Every active slot is tuned, once and from its own old values. */
  lemma {:induction false} TuneProcsEach(ps: Procs, n: nat, w: nat, env: Env, i: ProcIndex)
    requires n <= MAX_PROCS
    ensures TuneProcs(ps, n, w, env)[i] == if i < n && ps[i].active then TuneProc(ps[i], w, env) else ps[i]
  {
    hide TuneProc;
    if n == 0 {
    } else {
      TuneProcsEach(ps, n - 1, w, env, i);
      TuneProcsEach(ps, n - 1, w, env, n - 1);
    }
  }

  // ---------- the report ----------

  /** report_interval: the level moves one step at most, and not at all on few samples. */
  function TuneInterval(t: Tuning, enabled: bool): Tuning {
    var t0 := t.(switches := 0);
    if !enabled then t0.(interval := 36, level := 2)
    else if t.switches < 5 then t0
    else
      var ema := Smooth(3, t.switches * 10 / Max(t.interval, 1), t.rateEma);
      var level := StepToward(t.level, if ema >= 15 then 0 else if ema <= 3 then 3 else 2);
      t0.(rateEma := ema, level := level, interval := IntervalOf(level))
  }

  function TuneProfile(t: Tuning, s: Sum, enabled: bool): Tuning {
    if !enabled then t.(profile := 2)
    else if s.high + s.low < 2 then t
    else
      var ema := Div(3 * (s.high - s.low) * 10 + 7 * t.biasEma, 10);
      t.(biasEma := ema, profile := StepToward(t.profile, if ema >= 20 then 2 else if ema <= -20 then 0 else 2))
  }

  function NewSlice(profile: nat, maxPct: nat, enabled: bool): nat {
    if !enabled then BASELINE_SLICE
    else Min(Max(if maxPct >= 70 then 1 else if maxPct >= 40 then 2 else 3, SliceMin(profile)), SliceMax(profile))
  }

  function Report(t: Tuning, env: Env): Tuning {
    var w := t.windows + 1;
    var procs := TuneProcs(t.procs, MAX_PROCS, w, env);
    var s := SumUp(t.procs, procs, MAX_PROCS, Max(t.interval, 1));
    var t1 := TuneProfile(TuneInterval(t, env.enabled).(procs := procs, windows := w), s, env.enabled);
    t1.(slice := NewSlice(t1.profile, s.maxPct, env.enabled))
  }

  ghost predicate TuningOk(t: Tuning) {
    && t.level < 4 && t.interval == IntervalOf(t.level) && t.profile < 3 && 1 <= t.slice <= 3
    && ProcsOk(t.procs, t.windows)
  }

  /** A report keeps all bounds; each ladder moves one step at most while the engine is on, and rests on its baseline while off. */
  lemma {:induction false} ReportKeeps(t: Tuning, env: Env)
    requires TuningOk(t)
    ensures var t' := Report(t, env);
            && TuningOk(t') && t'.windows == t.windows + 1
            && (env.enabled ==> Gap(t'.level, t.level) <= 1 && Gap(t'.profile, t.profile) <= 1)
            && (!env.enabled ==> t'.level == 2 && t'.interval == 36 && t'.profile == 2 && t'.slice == BASELINE_SLICE)
            && (t'.profile == 0 ==> t'.slice >= 2)
            && forall i: ProcIndex :: Gap(t'.procs[i].alphaLevel, t.procs[i].alphaLevel) <= 1
  {
    hide TuneProc; hide ProcOk; hide CoolingOk; hide SumUp; hide Div; hide Smooth;
    var w := t.windows + 1;
    var procs := TuneProcs(t.procs, MAX_PROCS, w, env);
    forall i: ProcIndex
      ensures procs[i].active ==> ProcOk(procs[i]) && CoolingOk(procs[i], w)
      ensures Gap(procs[i].alphaLevel, t.procs[i].alphaLevel) <= 1
    {
      TuneProcsEach(t.procs, MAX_PROCS, w, env, i);
      if t.procs[i].active {
        TuneProcKeeps(t.procs[i], w, env);
        ChangesApart(t.procs[i], t.windows, env);
      }
    }
  }

  // ---------- events ----------

  function SlotOf(ps: seq<Proc>, pid: nat): (i: nat)
    ensures i <= |ps|
    ensures i < |ps| ==> ps[i].active && ps[i].pid == pid
    ensures forall j :: 0 <= j < i ==> !(ps[j].active && ps[j].pid == pid)
  {
    if ps == [] || (ps[0].active && ps[0].pid == pid) then 0 else 1 + SlotOf(ps[1..], pid)
  }

  function FreeSlot(ps: seq<Proc>): (i: nat)
    ensures i <= |ps|
    ensures i < |ps| ==> !ps[i].active
    ensures forall j :: 0 <= j < i ==> ps[j].active
  {
    if ps == [] || !ps[0].active then 0 else 1 + FreeSlot(ps[1..])
  }

  function Register(t: Tuning, pid: nat): Tuning {
    var k := FreeSlot(t.procs);
    if SlotOf(t.procs, pid) < MAX_PROCS || k == MAX_PROCS then t else t.(procs := t.procs[k := NewProc(pid, t.total)])
  }

  function Unregister(t: Tuning, pid: nat): Tuning {
    var i := SlotOf(t.procs, pid);
    if i == MAX_PROCS then t else t.(procs := t.procs[i := t.procs[i].(active := false)])
  }

  /** The part of on_switch before the report: the time the outgoing process ran, the start of the incoming one. */
  function Account(t: Tuning, from: nat, to: nat, tick: nat): Tuning {
    var i := SlotOf(t.procs, from);
    var ps: Procs :=
      if i == MAX_PROCS then t.procs
      else t.procs[i := t.procs[i].(recent := t.procs[i].recent + if tick > t.procs[i].runStart then tick - t.procs[i].runStart else 0)];
    var k := SlotOf(ps, to);
    t.(total := tick, switches := t.switches + 1, procs := if k == MAX_PROCS then ps else ps[k := ps[k].(runStart := tick)])
  }

  function OnSwitch(t: Tuning, from: nat, to: nat, tick: nat, env: Env): Tuning {
    var t1 := Account(t, from, to, tick);
    if tick >= t.lastReport + t.interval then Report(t1.(lastReport := tick), env) else t1
  }

  datatype Event = Reg(pid: nat) | Unreg(pid: nat) | Switch(from: nat, to: nat, tick: nat, env: Env)

  function Step(t: Tuning, e: Event): Tuning {
    match e
    case Reg(pid) => Register(t, pid)
    case Unreg(pid) => Unregister(t, pid)
    case Switch(from, to, tick, env) => OnSwitch(t, from, to, tick, env)
  }

  function Run(events: seq<Event>): Tuning {
    if events == [] then Initial() else Step(Run(events[..|events| - 1]), events[|events| - 1])
  }

  lemma {:induction false} AccountKeeps(t: Tuning, from: nat, to: nat, tick: nat)
    requires TuningOk(t)
    ensures var t' := Account(t, from, to, tick);
            && TuningOk(t') && t'.level == t.level && t'.profile == t.profile && t'.interval == t.interval && t'.slice == t.slice
            && t'.windows == t.windows && t'.lastReport == t.lastReport
            && forall i: ProcIndex :: t'.procs[i].alphaLevel == t.procs[i].alphaLevel
  {
  }

  lemma {:induction false} StepKeeps(t: Tuning, e: Event)
    requires TuningOk(t)
    ensures TuningOk(Step(t, e))
  {
    match e
    case Switch(from, to, tick, env) => {
      hide Account; hide Report; hide ProcsOk;
      AccountKeeps(t, from, to, tick);
      if tick >= t.lastReport + t.interval { ReportKeeps(Account(t, from, to, tick).(lastReport := tick), env); }
    }
    case Reg(pid) => { }
    case Unreg(pid) => { }
  }

  /** In every run the slice is 1 to 3 ticks, every level and smoothed share is in its range. */
  lemma {:induction false} RunKeeps(events: seq<Event>)
    ensures TuningOk(Run(events))
  {
    hide TuningOk; hide Step;
    if events == [] { InitialOk(); } else {
      RunKeeps(events[..|events| - 1]);
      StepKeeps(Run(events[..|events| - 1]), events[|events| - 1]);
    }
  }

  lemma {:induction false} InitialOk()
    ensures TuningOk(Initial()) && forall i: ProcIndex :: !Initial().procs[i].active
    ensures Initial().slice == 3 && Initial().interval == 36 && Initial().profile == 2
    ensures Initial().rateEma == 0 && Initial().biasEma == 0 && Initial().lastReport == 0
  {
  }

  /** In every run, one event moves a ladder by one step at most while the engine is on, and reports are 8 ticks apart or more. */
  lemma {:induction false} LaddersStep(events: seq<Event>, from: nat, to: nat, tick: nat, env: Env)
    ensures var t := Run(events); var t' := OnSwitch(t, from, to, tick, env);
            && (env.enabled ==> Gap(t'.level, t.level) <= 1 && Gap(t'.profile, t.profile) <= 1)
            && (forall i: ProcIndex :: Gap(t'.procs[i].alphaLevel, t.procs[i].alphaLevel) <= 1)
            && (t'.windows != t.windows ==> tick >= t.lastReport + 8 && t'.lastReport == tick)
  {
    hide Run; hide Account; hide Report; hide ProcsOk;
    RunKeeps(events);
    var t := Run(events);
    AccountKeeps(t, from, to, tick);
    if tick >= t.lastReport + t.interval {
      ReportKeeps(Account(t, from, to, tick).(lastReport := tick), env);
      ReportTime(Account(t, from, to, tick).(lastReport := tick), env);
    }
  }

  /** In every run, two changes that the classification makes to one process's priority are at least three windows apart;
      the boosts of pinned pairs and busy mappers do not ask for the cooldown and are not among them. */
  lemma {:induction false} PriorityChangesApart(events: seq<Event>, e: Event, i: ProcIndex)
    requires var p, p' := Run(events).procs[i], Step(Run(events), e).procs[i];
             p.active && p'.changedAt != p.changedAt && p.changedAt.Some?
    ensures var p, p' := Run(events).procs[i], Step(Run(events), e).procs[i];
            p'.pid == p.pid && p'.active && p'.changedAt.Some? && p.changedAt.value + 3 <= p'.changedAt.value
  {
    hide Run; hide TuneProc; hide SumUp; hide TuneProcs; hide ProcOk; hide CoolingOk; hide Smooth; hide Div;
    RunKeeps(events);
    var t := Run(events);
    if e.Switch? {
      AccountChanges(t, e.from, e.to, e.tick, i);
      var t1 := Account(t, e.from, e.to, e.tick);
      AccountKeeps(t, e.from, e.to, e.tick);
      hide Account;
      TuneProcsEach(t1.procs, MAX_PROCS, t.windows + 1, e.env, i);
      ChangesApart(t1.procs[i], t.windows, e.env);
      TuneProcKeeps(t1.procs[i], t.windows + 1, e.env);
    }
  }

  /** Accounting leaves identity and priority history alone. */
  lemma {:induction false} AccountChanges(t: Tuning, from: nat, to: nat, tick: nat, i: ProcIndex)
    ensures var p, p' := t.procs[i], Account(t, from, to, tick).procs[i];
            p'.pid == p.pid && p'.active == p.active && p'.changedAt == p.changedAt
  {
  }

  lemma {:induction false} ReportTime(t: Tuning, env: Env)
    ensures Report(t, env).lastReport == t.lastReport
  {
    hide TuneProcs; hide SumUp; hide Smooth; hide Div;
  }

  // ---------- the report as written ----------

  class TuningObject {
    const procs: array<Proc>
    var total: nat
    var lastReport: nat
    var interval: nat
    var switches: nat
    var rateEma: nat
    var level: nat
    var biasEma: int
    var profile: nat
    var slice: nat
    var windows: nat

    ghost function View(): Tuning
      reads this, procs
      requires procs.Length == MAX_PROCS
    {
      Tuning(procs[..], total, lastReport, interval, switches, rateEma, level, biasEma, profile, slice, windows)
    }

    constructor ()
      ensures procs.Length == MAX_PROCS && fresh(procs) && View() == Initial()
    {
      procs := new Proc[MAX_PROCS](_ => EmptyProc);
      total, lastReport, interval, switches, rateEma, level, biasEma, profile, slice, windows := 0, 0, 36, 0, 0, 2, 0, 2, 3, 0;
    }

    /** One pass over the slots: tune each, and sum up shares and classes. */
    method TuneAll(window: nat, env: Env) returns (maxPct: nat, high: nat, low: nat)
      requires procs.Length == MAX_PROCS && window > 0
      modifies procs
      ensures procs[..] == TuneProcs(old(procs[..]), MAX_PROCS, windows, env)
      ensures Sum(maxPct, high, low) == SumUp(old(procs[..]), procs[..], MAX_PROCS, window)
    {
      hide TuneProc; hide SumUp;
      ghost var was: Procs := procs[..];
      maxPct, high, low := 0, 0, 0;
      SumNothing(was, TuneProcs(was, MAX_PROCS, windows, env), window);
      for i := 0 to MAX_PROCS
        invariant procs[..] == TuneProcs(was, i, windows, env)
        invariant Sum(maxPct, high, low) == SumUp(was, TuneProcs(was, MAX_PROCS, windows, env), i, window)
      {
        ghost var all := TuneProcs(was, MAX_PROCS, windows, env);
        TuneProcsEach(was, i, windows, env, i);
        TuneProcsEach(was, MAX_PROCS, windows, env, i);
        SumNext(was, all, i, window);
        if procs[i].active {
          var pct := procs[i].recent * 100 / window;
          procs[i] := TuneProc(procs[i], windows, env);
          if Classify(procs[i].volEma) == High { high := high + 1; }
          if Classify(procs[i].volEma) == Low { low := low + 1; }
          if pct > maxPct { maxPct := pct; }
        }
      }
    }

    method AdaptInterval(enabled: bool)
      requires procs.Length == MAX_PROCS
      modifies this`switches, this`rateEma, this`level, this`interval
      ensures View() == TuneInterval(old(View()), enabled)
    {
      hide Smooth; hide StepToward; hide IntervalOf;
      var count := switches;
      switches := 0;
      if enabled {
        if count >= 5 {
          rateEma := Smooth(3, count * 10 / Max(interval, 1), rateEma);
          level := StepToward(level, if rateEma >= 15 then 0 else if rateEma <= 3 then 3 else 2);
          interval := IntervalOf(level);
        }
      } else {
        interval, level := 36, 2;
      }
    }

    method AdaptProfile(s: Sum, enabled: bool)
      requires procs.Length == MAX_PROCS
      modifies this`biasEma, this`profile
      ensures View() == TuneProfile(old(View()), s, enabled)
    {
      hide Div; hide StepToward;
      if enabled {
        if s.high + s.low >= 2 {
          biasEma := Div(3 * (s.high - s.low) * 10 + 7 * biasEma, 10);
          profile := StepToward(profile, if biasEma >= 20 then 2 else if biasEma <= -20 then 0 else 2);
        }
      } else {
        profile := 2;
      }
    }

    method AdaptAndReport(env: Env)
      requires procs.Length == MAX_PROCS
      modifies this, procs
      ensures View() == Report(old(View()), env)
    {
      hide TuneProcs; hide SumUp; hide Smooth; hide Div; hide StepToward; hide IntervalOf;
      windows := windows + 1;
      var window := Max(interval, 1);
      AdaptInterval(env.enabled);
      var maxPct, high, low := TuneAll(window, env);
      AdaptProfile(Sum(maxPct, high, low), env.enabled);
      slice := NewSlice(profile, maxPct, env.enabled);
    }
  }

  lemma {:induction false} SumNothing(ps: Procs, ps': Procs, window: nat)
    requires window > 0
    ensures SumUp(ps, ps', 0, window) == Sum(0, 0, 0)
  {
  }

  lemma {:induction false} SumNext(ps: Procs, ps': Procs, n: ProcIndex, window: nat)
    requires window > 0
    ensures var s := SumUp(ps, ps', n, window);
            SumUp(ps, ps', n + 1, window) ==
              if !ps[n].active then s
              else Sum(Max(s.maxPct, ps[n].recent * 100 / window),
                       s.high + (if Classify(ps'[n].volEma) == High then 1 else 0),
                       s.low + (if Classify(ps'[n].volEma) == Low then 1 else 0))
  {
  }
}
