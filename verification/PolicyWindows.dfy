/** What one window does to a pair: the channel it gets, the records it leaves, the traffic that counts as a spike. */
module PolicyWindows {
  import opened Prelude
  import opened PolicyLearning
  import opened PolicyLessons
  import opened PolicyChannels
  import opened PolicyEngine
  import opened PolicyRuns

  // ---------- the channel ----------

  /** When a live pair is hot, in numbers: alpha against beta, and, unless its last action was to pin, what the trees ask
      of its smoothed rate and cold windows, less after encouraging and more after discouraging. */
  lemma {:induction false} HotMeans(e: Entry)
    requires EntryOk(e) && e.active
    ensures var a, b, rate, warm := e.bayes.alpha, e.bayes.beta, e.rateEma / 10, e.cold == 0;
            var asked := match e.rlAction
                         case PinPush => true
                         case Encourage => warm || b <= 5 || (rate >= 15 && a >= 12) || (a >= 20 && (b < 10 || a >= 25))
                         case Discourage => if warm then rate >= 30 || b <= 5 || (rate >= 15 && (b < 10 || a >= 25))
                                            else rate >= 15 && ((a >= 12 && b <= 5) || a >= 25)
                         case Noop => if warm then rate >= 15 || b <= 5 || a >= 25
                                      else (rate >= 15 && (a >= 20 || b <= 5)) || (a >= 20 && b <= 5);
            HotEnough(e) <==> 7 * a >= 13 * (b + 1) && asked
  {
    if e.bayes.alpha >= 10 {
      TreesAsk(e.bayes.alpha, e.bayes.beta, e.rateEma / 10, e.cold, if Wrap(e.deltaPrev * 10) > e.rateEma then 1 else 0);
    }
    hide Gbdt;
  }

  /** In the ranking, growth above the smoothed rate counts 50 for a fast pair with little evidence, and else nothing. */
  lemma {:induction false} GrowthCounts(e: Entry, grown: nat)
    requires 10 * e.deltaPrev <= e.rateEma < 10 * grown < WORD_LIMIT
    ensures Ml2(e.(deltaPrev := grown)) == Ml2(e) + if e.rateEma / 10 >= 15 && e.bayes.alpha < 6 then 50 else 0
  {
  }

  /** A hot pair that is not cooling down gets its channel, unless three others rank as high or two others get theirs;
      the one that ranks highest always does. */
  lemma {:induction false} HotPairServed(s: Engine, tick: nat, i: SlotIndex)
    requires Good(s) && s.table[i].active && s.table[i].count > 0 && HotEnough(s.table[i])
    requires !InCooldown(Begin(s, tick).evicts, s.table[i].pair, tick)
    ensures var s', top := OpenPhase(Begin(s, tick), tick, true), Top(Ranked(s.table, MAX_PAIRS));
            || s.table[i].pair in s'.channels || |s'.channels - s.channels| == 2
            || (|top| == 3 && forall k :: 0 <= k < |top| ==> Ml2(s.table[i]) <= top[k].score)
    ensures (forall j: SlotIndex :: j != i && s.table[j].active && s.table[j].count > 0 ==> Ml2(s.table[j]) < Ml2(s.table[i])) ==>
              s.table[i].pair in OpenPhase(Begin(s, tick), tick, true).channels
  {
    hide Ml2; hide Top; hide ExpireFrom; hide OpenAll; hide EntryOk; hide QOk; hide HotEnough; hide InCooldown; hide MayOpen;
    var b, top := Begin(s, tick), Top(Ranked(s.table, MAX_PAIRS));
    TopIsBest(s.table, i);
    OpenAllAllowed(b, top, tick, true);
    if Rank(i, Ml2(s.table[i])) in top {
      var k :| 0 <= k < |top| && top[k] == Rank(i, Ml2(s.table[i]));
      OpenAllServes(b, top, tick, k);
    }
    if forall j: SlotIndex :: j != i && s.table[j].active && s.table[j].count > 0 ==> Ml2(s.table[j]) < Ml2(s.table[i]) {
      TopMembers(s.table, 0);
      assert top[0].idx == i;
      OpenAllServes(b, top, tick, 0);
    }
  }

  // ---------- the records ----------

  lemma {:induction false} EmaTenths(x: nat, was: nat)
    requires 30 * x + 7 * was < WORD_LIMIT
    ensures 10 * Ema(x, was) <= 30 * x + 7 * was < 10 * Ema(x, was) + 10
  {
  }

  /** What a window leaves on record: the count reached, an empty payload window, the growth of this window, and ten times
      the smoothed rates, three tenths new and seven tenths old. */
  lemma {:induction false} CloseRecords(e: Entry, q: QTable, epsilon: nat, d: Draw, hasChannel: bool)
    requires e.lastCount <= e.count && 30 * (e.count - e.lastCount) + 7 * e.rateEma < WORD_LIMIT
    requires 30 * e.payloadWindow + 7 * e.payloadEma < WORD_LIMIT
    ensures var e', delta := Close(e, q, epsilon, d, hasChannel).0, e.count - e.lastCount;
            && e'.lastCount == e.count && e'.count == e.count && e'.payloadWindow == 0 && e'.deltaPrev == delta
            && 10 * e'.rateEma <= 30 * delta + 7 * e.rateEma < 10 * e'.rateEma + 10
            && 10 * e'.payloadEma <= 30 * e.payloadWindow + 7 * e.payloadEma < 10 * e'.payloadEma + 10
  {
    hide UpdateQ; hide StateIdx; hide Reward; hide SelectAction; hide Observe; hide Spike; hide Ema; hide CloseReward; hide NextState; hide Evicted;
    EmaTenths(e.count - e.lastCount, e.rateEma);
    EmaTenths(e.payloadWindow, e.payloadEma);
  }

  /** What a pair that stays is in next: the state of its counters, rate and cold windows, with an action selected there. */
  lemma {:induction false} NextAction(e: Entry, q: QTable, epsilon: nat, d: Draw, hasChannel: bool)
    requires e.active && !Evicted(e)
    ensures var (e', q') := Close(e, q, epsilon, d, hasChannel);
            && e'.rlPrev == StateIdx(e'.bayes.alpha, e'.rateEma / 10, e.cold)
            && e'.rlAction == SelectAction(q'[e'.rlPrev], epsilon, d)
  {
    hide UpdateQ; hide StateIdx; hide Reward; hide SelectAction; hide Observe; hide Spike; hide Ema; hide CloseReward; hide Evicted;
  }

  /** How a window ends: with a spike, quiet for the second time, quiet for the first, or with the traffic it had. */
  datatype Ending = Spiked | Cold | Cooling | Busy

  predicate EndsWith(e: Entry, end: Ending) {
    match end
    case Spiked => Spike(e)
    case Cold => !Spike(e) && Delta(e) < 5 && e.cold >= 1
    case Cooling => !Spike(e) && Delta(e) < 5 && e.cold == 0
    case Busy => !Spike(e) && Delta(e) >= 5
  }

  /** The lesson a window teaches: only the cell of the last state and action moves, toward a reward that blames urging (to
      encourage or to pin) more than holding back when the pair spiked or went cold. */
  lemma {:induction false} CloseTeaches(e: Entry, q: QTable, epsilon: nat, d: Draw, hasChannel: bool, end: Ending)
    requires e.active && EndsWith(e, end)
    ensures var (e', q') := Close(e, q, epsilon, d, hasChannel);
            var urged := e.rlAction == Encourage || e.rlAction == PinPush;
            var reward := match end
                          case Spiked => if urged then -20 else -5
                          case Cold => if urged then -8 else -2
                          case Cooling => if e.rlAction == Encourage then -4 else -1
                          case Busy => Reward(e.rlAction, Delta(e), e.deltaPrev, hasChannel);
            && q' == UpdateQ(q, e.rlPrev, e.rlAction, reward, NextState(e))
            && (e'.active <==> end == Cooling || end == Busy)
            && e'.cold == if end == Cooling then 1 else 0
  {
    hide Spike; hide StateIdx; hide Reward; hide SelectAction; hide Observe; hide Ema; hide UpdateQ; hide NextState;
  }

  /** A spike is traffic above 200 messages and twenty times its average, or payload above twenty times its average. */
  lemma {:induction false} SpikeIff(e: Entry)
    requires 10 * Delta(e) < WORD_LIMIT && 20 * e.rateEma < WORD_LIMIT && 10 * e.payloadWindow < WORD_LIMIT && 20 * e.payloadEma < WORD_LIMIT
    ensures Spike(e) <==> || (e.rateEma >= 10 && Delta(e) >= 200 && Delta(e) > 2 * e.rateEma)
                          || (e.payloadEma >= 10 && e.payloadWindow > 2 * e.payloadEma)
  {
  }

  /** Steady traffic is no spike: what one window sent, the next may send again. */
  lemma {:induction false} SteadyIsNoSpike(e: Entry, q: QTable, epsilon: nat, d: Draw, hasChannel: bool)
    requires e.lastCount <= e.count && 100 * (e.count - e.lastCount) + 20 * e.rateEma < WORD_LIMIT
    requires 100 * e.payloadWindow + 20 * e.payloadEma < WORD_LIMIT
    ensures var e' := Close(e, q, epsilon, d, hasChannel).0;
            !Spike(e'.(count := e.count + (e.count - e.lastCount), payloadWindow := e.payloadWindow))
  {
    hide Spike; hide Close;
    CloseRecords(e, q, epsilon, d, hasChannel);
    var later := Close(e, q, epsilon, d, hasChannel).0.(count := e.count + (e.count - e.lastCount), payloadWindow := e.payloadWindow);
    assert Delta(later) == e.count - e.lastCount;
    SpikeIff(later);
  }

  // ---------- evictions ----------

  /** The pairs evicted among the first `n` entries. */
  ghost function EvictedPairs(t: Table, n: nat): set<Pair>
    requires n <= MAX_PAIRS
  {
    set i: SlotIndex | i < n && t[i].active && Evicted(t[i]) :: t[i].pair
  }

  lemma {:induction false} EvictedPairsNext(t: Table, n: nat)
    requires n < MAX_PAIRS
    ensures EvictedPairs(t, n + 1) == EvictedPairs(t, n) + if t[n].active && Evicted(t[n]) then {t[n].pair} else {}
  {
    hide Evicted;
    var i: SlotIndex := n;
    if t[n].active && Evicted(t[n]) { assert t[i].pair in EvictedPairs(t, n + 1); }
  }

  /** A window closes exactly the channels of the pairs it evicts and dates their evictions; each entry is judged by its own
      traffic, whatever happened to the others. */
  lemma {:induction false} WindowEvicts(s: Engine, n: nat, tick: nat, draws: nat -> Draw, i: SlotIndex, p: Pair)
    requires n <= MAX_PAIRS
    ensures var s' := Decay(s, n, tick, draws);
            && s'.channels == s.channels - EvictedPairs(s.table, n)
            && (p in s'.evictedAt && (p !in s.evictedAt || s'.evictedAt[p] != s.evictedAt[p]) ==> p in EvictedPairs(s.table, n))
            && (p in EvictedPairs(s.table, n) ==> p in s'.evictedAt && s'.evictedAt[p] == tick)
            && (i >= n ==> s'.table[i] == s.table[i])
            && (i < n && s.table[i].active ==> s'.table[i].pair == s.table[i].pair && (s'.table[i].active <==> !Evicted(s.table[i])))
            && (i < n && !s.table[i].active ==> s'.table[i] == s.table[i])
  {
    hide Evicted; hide EvictedPairs; hide DecayOne;
    if n == 0 {
      NoneEvicted(s.table);
    } else {
      WindowEvicts(s, n - 1, tick, draws, i, p);
      WindowEvicts(s, n - 1, tick, draws, n - 1, p);
      EvictedPairsNext(s.table, n - 1);
      EntryEvicts(Decay(s, n - 1, tick, draws), n - 1, tick, draws(n - 1), p);
    }
  }

  lemma {:induction false} EntryEvicts(s: Engine, i: SlotIndex, tick: nat, d: Draw, p: Pair)
    ensures var e, s' := s.table[i], DecayOne(s, i, tick, d);
            && s'.channels == s.channels - (if e.active && Evicted(e) then {e.pair} else {})
            && (if e.active && Evicted(e) && p == e.pair then p in s'.evictedAt && s'.evictedAt[p] == tick
                else (p in s'.evictedAt <==> p in s.evictedAt) && (p in s.evictedAt ==> s'.evictedAt[p] == s.evictedAt[p]))
            && (forall j: SlotIndex :: j != i ==> s'.table[j] == s.table[j])
            && (!e.active ==> s'.table[i] == e)
            && (e.active ==> s'.table[i].pair == e.pair && (s'.table[i].active <==> !Evicted(e)))
  {
    hide Evicted; hide UpdateQ; hide Record; hide SelectAction; hide Observe; hide Ema; hide CloseReward; hide NextState;
  }

  lemma {:induction false} NoneEvicted(t: Table)
    ensures EvictedPairs(t, 0) == {}
  {
  }

  // ---------- exploration ----------

  lemma {:induction false} DecayEpsilon(s: Engine, n: nat, tick: nat, draws: nat -> Draw)
    requires n <= MAX_PAIRS
    ensures Decay(s, n, tick, draws).epsilon == s.epsilon && Decay(s, n, tick, draws).channels <= s.channels
  {
    hide Close; hide Evicted; hide Record;
    if n == 0 {
    } else {
      DecayEpsilon(s, n - 1, tick, draws);
    }
  }

  /** Exploration falls from 20 percent to 5, by one percent in windows that end at a multiple of 1000 ticks. */
  lemma {:induction false} ExplorationFalls(events: seq<Event>, e: Event)
    ensures var now, next := Run(events).epsilon, Run(events + [e]).epsilon;
            && 5 <= now <= 20
            && next == if e.WindowEnd? && e.tick > 0 && e.tick % 1000 == 0 && now > 5 then now - 1 else now
    ensures Run([]).epsilon == 20
  {
    hide Decay; hide ExpireFrom; hide OpenPhase; hide ObserveIpc; hide Run;
    RunGood(events);
    RunNext(events, e);
    RunNothing();
    if e.WindowEnd? {
      OpenPhaseAllowed(Run(events), e.tick, e.enabled);
      OpenEpsilon(Begin(Run(events), e.tick), e.tick, e.enabled);
      DecayEpsilon(OpenPhase(Begin(Run(events), e.tick), e.tick, e.enabled), MAX_PAIRS, e.tick, e.draws);
    }
  }

  lemma {:induction false} OpenEpsilon(s: Engine, tick: nat, enabled: bool)
    requires Good(s)
    ensures OpenPhase(s, tick, enabled).epsilon == s.epsilon
  {
    hide Top; hide OpenAll;
    TopActive(s.table);
    OpenAllAllowed(s, Top(Ranked(s.table, MAX_PAIRS)), tick, enabled);
  }

  lemma {:induction false} RunNext(events: seq<Event>, e: Event)
    ensures Run(events + [e]) == Step(Run(events), e)
  {
    assert (events + [e])[..|events|] == events;
  }

  lemma {:induction false} RunNothing()
    ensures Run([]) == Initial()
  {
  }
}
