/** How long a process waits before it is promoted, and how long it then keeps the processor. */
module SchedulerShares {
  import opened Prelude
  import opened Priorities
  import opened Scheduler

  /** Aging in numbers: a boosted process is High; else Low turns Normal after 72 ticks, Normal turns High after 36, any but Idle after 200. */
  lemma {:induction false} AgingSchedule(p: Process, now: nat)
    ensures p.boost > 0 ==> EffectivePriority(p, now) == High
    ensures now <= p.readySince ==> Waited(p, now) == 0
    ensures p.boost == 0 ==>
            var w, e := Waited(p, now), EffectivePriority(p, now);
            && (e == High <==> p.priority == High || (p.priority == Normal && w >= 36) || (p.priority == Low && w >= 200))
            && (e == Normal <==> (p.priority == Normal && w < 36) || (p.priority == Low && 72 <= w < 200))
            && (e == Low <==> p.priority == Low && w < 72)
            && (e == Idle <==> p.priority == Idle)
  {
  }

  /** Waiting never lowers a priority, and no process runs below its own. */
  lemma {:induction false} AgingMonotone(p: Process, now: nat, later: nat)
    requires now <= later
    ensures p.priority.Rank() <= EffectivePriority(p, now).Rank() <= EffectivePriority(p, later).Rank()
  {
  }

  /** Forced ticks, one after the other. */
  function Ticks(s: Sched, ins: seq<Input>): (s': Sched)
    requires s.current < |s.procs|
    ensures s'.current < |s'.procs| && |s'.procs| == |s.procs| && s'.mode == s.mode
  {
    if ins == [] then s else Preempt(Ticks(s, ins[..|ins| - 1]), ins[|ins| - 1])
  }

  lemma {:induction false} ForcedTick(s: Sched, irq: Input)
    requires s.current < |s.procs| && |s.procs| > 1 && s.mode == WeightedPriority && s.quanta > 1 && !irq.voluntary
    ensures Preempt(s, irq).current == s.current && Preempt(s, irq).quanta == s.quanta - 1
  {
    hide WakeAll; hide Depart; hide Pick;
  }

  /** A process keeps the processor for all the forced ticks it was granted. */
  lemma {:induction false} KeepsGrant(s: Sched, ins: seq<Input>)
    requires s.current < |s.procs| && |s.procs| > 1 && s.mode == WeightedPriority && |ins| < s.quanta
    requires forall i :: 0 <= i < |ins| ==> !ins[i].voluntary
    ensures Ticks(s, ins).current == s.current && Ticks(s, ins).quanta == s.quanta - |ins|
  {
    hide Preempt;
    if ins == [] {
    } else {
      var init := ins[..|ins| - 1];
      KeepsGrant(s, init);
      ForcedTick(Ticks(s, init), ins[|ins| - 1]);
    }
  }

  /** Ticks 4, 2 or 1, by the effective priority. */
  function Grant(e: Priority): nat { match e case High => 4 case Normal => 2 case _ => 1 }

  /** The tick after the grant is used up chooses anew, and grants the chosen process 4, 2 or 1 ticks by its priority then. */
  lemma {:induction false} GrantByPriority(s: Sched, irq: Input)
    requires s.current < |s.procs| && |s.procs| > 1 && s.mode == WeightedPriority && (s.quanta <= 1 || irq.voluntary)
    ensures var d := Departed(s, irq); var s' := Preempt(s, irq);
            && (Pick(d, irq).Some? ==>
                  && s'.current == Pick(d, irq).value
                  && s'.quanta == Grant(EffectivePriority(d.procs[s'.current], irq.now)))
            && (Pick(d, irq).None? ==> s'.current == s.current && s'.quanta == 1)
  {
    hide WakeAll; hide Depart; hide Pick; hide EffectivePriority;
  }

  /** A whole turn: the process chosen by an interrupt keeps the processor for all but the last of its granted forced
      ticks, and that one chooses again. */
  lemma {:induction false} TurnLasts(s: Sched, first: Input, ins: seq<Input>, last: Input)
    requires s.current < |s.procs| && |s.procs| > 1 && s.mode == WeightedPriority && (s.quanta <= 1 || first.voluntary)
    requires Pick(Departed(s, first), first).Some?
    requires |ins| + 1 == Grant(EffectivePriority(Departed(s, first).procs[Pick(Departed(s, first), first).value], first.now))
    requires (forall i :: 0 <= i < |ins| ==> !ins[i].voluntary) && !last.voluntary
    ensures var p := Pick(Departed(s, first), first).value;
            && (forall k :: 0 <= k <= |ins| ==> Ticks(Preempt(s, first), ins[..k]).current == p)
            && var t := Ticks(Preempt(s, first), ins);
               var d := Departed(t, last);
               Preempt(t, last).current == if Pick(d, last).Some? then Pick(d, last).value else p
  {
    var s1 := Preempt(s, first);
    GrantByPriority(s, first);
    assert s1.current == Pick(Departed(s, first), first).value && |ins| < s1.quanta;
    hide Preempt; hide Pick; hide Departed;
    forall k | 0 <= k <= |ins| ensures Ticks(s1, ins[..k]).current == s1.current { KeepsGrant(s1, ins[..k]); }
    assert ins[..|ins|] == ins;
    KeepsGrant(s1, ins);
    GrantByPriority(Ticks(s1, ins), last);
  }
}
