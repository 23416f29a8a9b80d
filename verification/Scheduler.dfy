/** The preemptive scheduler as a transition function: weighted priority with aging, and CFS. */
module Scheduler {
  import opened Prelude
  import opened Priorities

  datatype ProcState = Ready | Running | Blocked | Dead

  datatype Mode = WeightedPriority | Cfs

  const ANY_CPU: nat := 255
  const FAIRNESS_FLOOR_TICKS: nat := 200
  const NICE0_WEIGHT: nat := 1024
  const U64_MAX: nat := WORD_LIMIT - 1

  datatype Process = Process(
    pid: nat, state: ProcState, priority: Priority, rsp: nat,
    boost: nat, readySince: nat, pendingSleep: nat, wakeAt: nat,
    vruntime: nat, runStart: nat, cpu: nat)

  datatype Sched = Sched(procs: seq<Process>, current: nat, quanta: nat, mode: Mode)

  /** What the interrupt brings: the tick counter, two cycle-counter readings, the core, the saved stack pointer. */
  datatype Input = Input(now: nat, tsOut: nat, tsIn: nat, cpu: nat, voluntary: bool, rsp: nat)

  function FromU8(v: nat): Priority {
    match v case 0 => Idle case 1 => Low case 3 => High case _ => Normal
  }

  function PriorityWeight(p: Priority): nat {
    match p case High => 4 case Normal => 2 case Low => 1 case Idle => 0
  }

  function StarvationThreshold(p: Priority): Option<nat> {
    match p case Low => Some(72) case Normal => Some(36) case _ => None
  }

  function CfsWeight(p: Priority): nat {
    match p case High => 88761 case Normal => 1024 case Low => 335 case Idle => 15
  }

  function Waited(p: Process, now: nat): nat { if now >= p.readySince then now - p.readySince else 0 }

  function EffectivePriority(p: Process, now: nat): Priority {
    if p.boost > 0 then High
    else if p.priority != Idle && Waited(p, now) >= FAIRNESS_FLOOR_TICKS then High
    else match StarvationThreshold(p.priority)
         case Some(t) => if Waited(p, now) >= t then FromU8(p.priority.Rank() + 1) else p.priority
         case None => p.priority
  }

  // ---------- do_preempt ----------

  function VruntimeDelta(p: Process, irq: Input): nat {
    var elapsed := if irq.tsOut >= p.runStart then irq.tsOut - p.runStart else 0;
    Min(elapsed * NICE0_WEIGHT, U64_MAX) / Max(CfsWeight(EffectivePriority(p, irq.now)), 1)
  }

  /** The outgoing process: boost spent, stack saved, time accounted, then ready or asleep. */
  function Depart(p: Process, mode: Mode, irq: Input): Process {
    var p1 := p.(boost := if p.boost > 0 then p.boost - 1 else 0, rsp := irq.rsp);
    var p2 := if mode == Cfs then p1.(vruntime := Min(p1.vruntime + VruntimeDelta(p1, irq), U64_MAX)) else p1;
    if p2.pendingSleep > 0
    then p2.(pendingSleep := 0, state := Blocked, wakeAt := irq.now + p2.pendingSleep)
    else p2.(state := Ready, readySince := irq.now)
  }

  function WakeOne(p: Process, now: nat): Process {
    if p.state == Blocked && p.wakeAt != 0 && now >= p.wakeAt
    then p.(state := Ready, wakeAt := 0, readySince := now) else p
  }

  function WakeAll(procs: seq<Process>, now: nat): seq<Process> {
    seq(|procs|, i requires 0 <= i < |procs| => WakeOne(procs[i], now))
  }

  /** (start + i) % n for start < n and 1 <= i <= n. */
  function Cyclic(start: nat, i: nat, n: nat): nat
    requires start < n && i <= n
  {
    if start + i < n then start + i else start + i - n
  }

  function SameCpu(p: Process, cpu: nat): bool { p.cpu == ANY_CPU || p.cpu == cpu }

  datatype Best = Best(idx: nat, key: nat, same: bool)

  /** Does a candidate beat the best so far?  `key` is minus-ordered for CFS, so both policies share the scan. */
  predicate Beats(mode: Mode, key: nat, same: bool, best: Best) {
    || (if mode == Cfs then key < best.key else key > best.key)
    || (key == best.key && same && !best.same)
  }

  function Key(mode: Mode, p: Process, now: nat): nat {
    if mode == Cfs then p.vruntime else EffectivePriority(p, now).Rank()
  }

  /** The candidate scan over offsets 1 .. i from the current process. */
  function Scan(procs: seq<Process>, start: nat, mode: Mode, now: nat, cpu: nat, i: nat): (r: Option<Best>)
    requires start < |procs| && i <= |procs|
    ensures r.Some? ==> r.value.idx < |procs|
  {
    if i == 0 then None
    else
      var best := Scan(procs, start, mode, now, cpu, i - 1);
      var idx := Cyclic(start, i, |procs|);
      var p := procs[idx];
      if p.state != Ready then best
      else
        var key, same := Key(mode, p, now), SameCpu(p, cpu);
        if best.None? || Beats(mode, key, same, best.value) then Some(Best(idx, key, same)) else best
  }

  /** The first boosted ready process in scan order (CFS only). */
  function FirstBoosted(procs: seq<Process>, start: nat, i: nat): (r: Option<nat>)
    requires start < |procs| && i <= |procs|
    ensures r.Some? ==> r.value < |procs|
  {
    if i == 0 then None
    else
      var r := FirstBoosted(procs, start, i - 1);
      var idx := Cyclic(start, i, |procs|);
      if r.None? && procs[idx].state == Ready && procs[idx].boost > 0 then Some(idx) else r
  }

  function Pick(s: Sched, irq: Input): (r: Option<nat>)
    requires s.current < |s.procs|
    ensures r.Some? ==> r.value < |s.procs|
  {
    var n := |s.procs|;
    var boosted := if s.mode == Cfs then FirstBoosted(s.procs, s.current, n) else None;
    if boosted.Some? then boosted
    else match Scan(s.procs, s.current, s.mode, irq.now, irq.cpu, n)
         case None => None
         case Some(best) => Some(best.idx)
  }

  function SetRunning(procs: seq<Process>, i: nat): seq<Process>
    requires i < |procs|
  {
    procs[i := procs[i].(state := Running)]
  }

  /** switch_to_next, after the wake-up scan. */
  function Choose(s: Sched, irq: Input): (s': Sched)
    requires s.current < |s.procs|
    ensures |s'.procs| == |s.procs| && s'.current < |s'.procs| && s'.mode == s.mode
  {
    if |s.procs| <= 1 then s.(procs := SetRunning(s.procs, s.current))
    else if s.mode == WeightedPriority && !irq.voluntary && s.quanta > 1 then
      s.(procs := SetRunning(s.procs, s.current), quanta := s.quanta - 1)
    else match Pick(s, irq)
         case None => s.(procs := SetRunning(s.procs, s.current), quanta := if s.mode == Cfs then s.quanta else 1)
         case Some(next) =>
           var p := s.procs[next];
           s.(procs := s.procs[next := p.(state := Running, runStart := irq.tsIn)], current := next,
              quanta := if s.mode == Cfs then s.quanta else Max(PriorityWeight(EffectivePriority(p, irq.now)), 1))
  }

  function Departed(s: Sched, irq: Input): (s': Sched)
    requires s.current < |s.procs|
    ensures |s'.procs| == |s.procs| && s'.current == s.current && s'.mode == s.mode && s'.quanta == s.quanta
  {
    s.(procs := WakeAll(s.procs[s.current := Depart(s.procs[s.current], s.mode, irq)], irq.now))
  }

  function Preempt(s: Sched, irq: Input): (s': Sched)
    requires s.current < |s.procs|
    ensures |s'.procs| == |s.procs| && s'.current < |s'.procs| && s'.mode == s.mode
  {
    Choose(Departed(s, irq), irq)
  }

  // ---------- the other operations ----------

  function MinReady(procs: seq<Process>): Option<nat> {
    if procs == [] then None
    else
      var p := procs[|procs| - 1];
      var m := MinReady(procs[..|procs| - 1]);
      if p.state == Ready && (m.None? || p.vruntime < m.value) then Some(p.vruntime) else m
  }

  function Spawn(s: Sched, p: Process): Sched {
    var m := MinReady(s.procs);
    s.(procs := s.procs + [if s.mode == Cfs && m.Some? then p.(vruntime := m.value) else p])
  }

  function IndexOf(procs: seq<Process>, pid: nat): (i: nat)
    ensures i <= |procs| && (i < |procs| ==> procs[i].pid == pid) && forall j :: 0 <= j < i ==> procs[j].pid != pid
  {
    if procs == [] || procs[0].pid == pid then 0 else 1 + IndexOf(procs[1..], pid)
  }

  function Kill(s: Sched, pid: nat): Sched {
    var i := IndexOf(s.procs, pid);
    if i < |s.procs| then s.(procs := s.procs[i := s.procs[i].(state := Dead)]) else s
  }

  function RequestSleep(s: Sched, ticks: nat): Sched
    requires s.current < |s.procs|
  {
    s.(procs := s.procs[s.current := s.procs[s.current].(pendingSleep := Max(ticks, 1))])
  }

  // ---------- where a newcomer starts ----------

  /** MinReady is the least vruntime among the ready processes, and None exactly when there is none. */
  lemma {:induction false} MinReadyIsLeast(procs: seq<Process>)
    ensures MinReady(procs) == None <==> forall i :: 0 <= i < |procs| ==> procs[i].state != Ready
    ensures MinReady(procs).Some? ==>
              && (exists i :: 0 <= i < |procs| && procs[i].state == Ready && procs[i].vruntime == MinReady(procs).value)
              && (forall i :: 0 <= i < |procs| && procs[i].state == Ready ==> MinReady(procs).value <= procs[i].vruntime)
  {
    if procs == [] {
    } else {
      var n := |procs| - 1;
      var init := procs[..n];
      MinReadyIsLeast(init);
      assert forall i :: 0 <= i < n ==> procs[i] == init[i];
      if MinReady(init).Some? {
        var i :| 0 <= i < n && init[i].state == Ready && init[i].vruntime == MinReady(init).value;
        assert procs[i].vruntime == MinReady(init).value;
      }
    }
  }

  /** Under CFS a newcomer starts level with the ready process that ran least, never below it; the others are untouched. */
  lemma {:induction false} NewcomerStart(s: Sched, p: Process)
    ensures s.mode != Cfs ==> Spawn(s, p) == s.(procs := s.procs + [p])
    ensures s.mode == Cfs ==>
            var s' := Spawn(s, p); var v := s'.procs[|s.procs|].vruntime;
            && |s'.procs| == |s.procs| + 1 && s'.procs[..|s.procs|] == s.procs && s'.procs[|s.procs|] == p.(vruntime := v)
            && (forall i :: 0 <= i < |s.procs| && s.procs[i].state == Ready ==> v <= s.procs[i].vruntime)
            && (v == p.vruntime || exists i :: 0 <= i < |s.procs| && s.procs[i].state == Ready && v == s.procs[i].vruntime)
            && ((exists i :: 0 <= i < |s.procs| && s.procs[i].state == Ready) ==>
                  exists i :: 0 <= i < |s.procs| && s.procs[i].state == Ready && v == s.procs[i].vruntime)
  {
    MinReadyIsLeast(s.procs);
  }

  // ---------- what the scan finds ----------

  /** The best candidate among offsets 1 .. i: ready, with the best key, and (all affinities neutral) the first such. */
  lemma {:induction false} ScanFinds(procs: seq<Process>, start: nat, mode: Mode, now: nat, cpu: nat, i: nat)
    requires start < |procs| && i <= |procs|
    ensures var r := Scan(procs, start, mode, now, cpu, i);
            && (r.None? <==> forall o: nat :: 1 <= o <= i ==> procs[Cyclic(start, o, |procs|)].state != Ready)
            && (r.Some? ==> procs[r.value.idx].state == Ready && r.value.key == Key(mode, procs[r.value.idx], now)
                            && r.value.same == SameCpu(procs[r.value.idx], cpu))
  {
    if i == 0 {
    } else {
      ScanFinds(procs, start, mode, now, cpu, i - 1);
    }
  }

  predicate NoWorse(mode: Mode, key: nat, than: nat) { if mode == Cfs then key <= than else key >= than }

  lemma {:induction false} ScanIsBest(procs: seq<Process>, start: nat, mode: Mode, now: nat, cpu: nat, i: nat, o: nat)
    requires start < |procs| && 1 <= o <= i <= |procs| && procs[Cyclic(start, o, |procs|)].state == Ready
    ensures var r := Scan(procs, start, mode, now, cpu, i);
            r.Some? && NoWorse(mode, r.value.key, Key(mode, procs[Cyclic(start, o, |procs|)], now))
  {
    ScanFinds(procs, start, mode, now, cpu, i - 1);
    if o == i {
    } else {
      ScanIsBest(procs, start, mode, now, cpu, i - 1, o);
    }
  }

  ghost predicate Neutral(procs: seq<Process>, cpu: nat) {
    forall i :: 0 <= i < |procs| && procs[i].state == Ready ==> SameCpu(procs[i], cpu)
  }

  /** Without affinity preferences the winner is no later in scan order than any candidate with an equally good key. */
  lemma {:induction false} ScanIsFirst(procs: seq<Process>, start: nat, mode: Mode, now: nat, cpu: nat, i: nat, o: nat)
    requires start < |procs| && 1 <= o <= i <= |procs| && Neutral(procs, cpu)
    requires procs[Cyclic(start, o, |procs|)].state == Ready
    requires var r := Scan(procs, start, mode, now, cpu, i);
             r.Some? && r.value.key == Key(mode, procs[Cyclic(start, o, |procs|)], now)
    ensures exists w: nat :: 1 <= w <= o && Scan(procs, start, mode, now, cpu, i).value.idx == Cyclic(start, w, |procs|)
  {
    ScanFinds(procs, start, mode, now, cpu, i - 1);
    if o < i {
      ScanIsBest(procs, start, mode, now, cpu, i - 1, o);
      ScanIsFirst(procs, start, mode, now, cpu, i - 1, o);
    } else {
      ScanOffset(procs, start, mode, now, cpu, i);
    }
  }

  lemma {:induction false} ScanOffset(procs: seq<Process>, start: nat, mode: Mode, now: nat, cpu: nat, i: nat)
    requires start < |procs| && i <= |procs| && Scan(procs, start, mode, now, cpu, i).Some?
    ensures exists w: nat :: 1 <= w <= i && Scan(procs, start, mode, now, cpu, i).value.idx == Cyclic(start, w, |procs|)
  {
    var r := Scan(procs, start, mode, now, cpu, i);
    if r.value.idx == Cyclic(start, i, |procs|) {
    } else {
      ScanOffset(procs, start, mode, now, cpu, i - 1);
    }
  }

  /** The scan covers every process. */
  lemma {:induction false} EveryOffset(start: nat, idx: nat, n: nat) returns (o: nat)
    requires start < n && idx < n
    ensures 1 <= o <= n && Cyclic(start, o, n) == idx
  {
    o := if idx > start then idx - start else idx + n - start;
  }
}
