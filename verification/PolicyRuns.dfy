/** The pair table over whole runs: its bounds, and when channels may open. */
module PolicyRuns {
  import opened Prelude
  import opened PolicyLearning
  import opened PolicyChannels
  import opened PolicyEngine

  // ---------- every run ----------

  ghost predicate PairsApart(t: Table) {
    forall i: SlotIndex, j: SlotIndex :: t[i].active && t[j].active && t[i].pair == t[j].pair ==> i == j
  }

  /** The bounds that hold whatever the traffic and the draws. */
  ghost predicate Good(s: Engine) {
    TableOk(s.table) && PairsApart(s.table) && QOk(s.q) && 5 <= s.epsilon <= 20 && s.made <= MAX_PER_WINDOW
  }

  datatype Event =
    | Ipc(pair: Pair, count: nat, bytes: nat)
    | WindowEnd(tick: nat, enabled: bool, draws: nat -> Draw)
    | Registry(channels: set<Pair>)  // other code opens or drops channels

  function Step(s: Engine, e: Event): Engine {
    match e
    case Ipc(pair, count, bytes) => s.(table := ObserveIpc(s.table, pair, count, bytes))
    case WindowEnd(tick, enabled, draws) => Window(s, tick, enabled, draws)
    case Registry(channels) => s.(channels := channels)
  }

  function Run(events: seq<Event>): Engine {
    if events == [] then Initial() else Step(Run(events[..|events| - 1]), events[|events| - 1])
  }

  lemma {:induction false} DecayOneKeeps(s: Engine, i: SlotIndex, tick: nat, d: Draw)
    requires Good(s)
    ensures Good(DecayOne(s, i, tick, d))
  {
    hide EntryOk; hide Close; hide QOk; hide Record; hide Evicted;
    if s.table[i].active { CloseKeeps(s.table[i], s.q, s.epsilon, d, s.table[i].pair in s.channels); }
  }

  lemma {:induction false} DecayKeeps(s: Engine, n: nat, tick: nat, draws: nat -> Draw)
    requires Good(s) && n <= MAX_PAIRS
    ensures Good(Decay(s, n, tick, draws))
  {
    hide Good; hide DecayOne;
    if n == 0 {
    } else {
      DecayKeeps(s, n - 1, tick, draws);
      DecayOneKeeps(Decay(s, n - 1, tick, draws), n - 1, tick, draws(n - 1));
    }
  }

  lemma {:induction false} TopActive(t: Table)
    ensures RanksOf(t, Top(Ranked(t, MAX_PAIRS)))
  {
    hide Top; hide Ml2;
    var r := Top(Ranked(t, MAX_PAIRS));
    forall k | 0 <= k < |r| ensures t[r[k].idx].active && r[k].score == Ml2(t[r[k].idx]) { TopMembers(t, k); }
  }

  /** What opening does in a window of a good engine. */
  lemma {:induction false} OpenPhaseAllowed(s: Engine, tick: nat, enabled: bool)
    requires Good(s)
    ensures var b := Begin(s, tick); var s' := OpenPhase(b, tick, enabled);
            && Good(s') && s'.evicts == b.evicts && s'.evictedAt == s.evictedAt
            && s.channels <= s'.channels && |s'.channels - s.channels| <= 2
            && (!enabled ==> s'.channels == s.channels)
            && forall p :: p in s'.channels - s.channels ==> MayOpen(b, p, tick)
  {
    hide Top; hide ExpireFrom; hide MayOpen; hide OpenAll; hide EntryOk; hide QOk; hide RanksOf;
    TopActive(s.table);
    OpenAllAllowed(Begin(s, tick), Top(Ranked(s.table, MAX_PAIRS)), tick, enabled);
  }

  /** Traffic lands in one entry of its pair; all other entries are untouched, and a new pair displaces a live one only
      when all are live, and then one with the least count. */
  lemma {:induction false} ObserveLands(t: Table, pair: Pair, count: nat, bytes: nat) returns (i: SlotIndex)
    ensures var t' := ObserveIpc(t, pair, count, bytes);
            && t'[i].active && t'[i].pair == pair && t'[i].count == count
            && (forall j: SlotIndex :: j != i ==> t'[j] == t[j])
            && ((exists j: SlotIndex :: t[j].active && t[j].pair == pair) ==>
                  && t[i].active && t[i].pair == pair
                  && t'[i] == t[i].(count := count, payloadWindow := t'[i].payloadWindow)
                  && t'[i].payloadWindow == Min(t[i].payloadWindow + bytes, 0xFFFF_FFFF_FFFF_FFFF))
            && ((forall j: SlotIndex :: !(t[j].active && t[j].pair == pair)) ==>
                  && (t'[i].bayes.alpha, t'[i].bayes.beta, t'[i].bayes.hotWindows, t'[i].cold) == (1, 4, 0, 0)
                  && (t'[i].lastCount, t'[i].payloadWindow, t'[i].rateEma, t'[i].rlAction) == (0, bytes, 0, Noop)
                  && (t'[i].deltaPrev, t'[i].payloadEma, t'[i].rlPrev) == (0, 0, 0)
                  && (t[i].active ==> forall j: SlotIndex :: t[j].active && t[i].count <= t[j].count))
  {
    var a, k := IndexOfPair(t, pair), IndexOfIdle(t);
    i := if a < |t| then a else if k < |t| then k else Quietest(t, |t|);
  }

  lemma {:induction false} StepKeepsGood(s: Engine, e: Event)
    requires Good(s)
    ensures Good(Step(s, e))
  {
    match e
    case Ipc(pair, count, bytes) => {
      hide QOk; hide TableOk; hide PairsApart; hide ObserveIpc;
    }
    case WindowEnd(tick, enabled, draws) => {
      hide Good; hide OpenPhase; hide Decay; hide Begin;
      OpenPhaseAllowed(s, tick, enabled);
      DecayKeeps(OpenPhase(Begin(s, tick), tick, enabled), MAX_PAIRS, tick, draws);
    }
    case Registry(_) => { hide QOk; hide TableOk; hide PairsApart; }
  }

  /** Whatever happens: Q-values, counters, exploration and cold windows stay in their bounds, pairs stay distinct. */
  lemma {:induction false} RunGood(events: seq<Event>)
    ensures Good(Run(events))
  {
    hide Good; hide Step;
    if events == [] { InitialGood(); } else {
      RunGood(events[..|events| - 1]);
      StepKeepsGood(Run(events[..|events| - 1]), events[|events| - 1]);
    }
  }

  lemma {:induction false} InitialGood()
    ensures Good(Initial())
  {
  }

  // ---------- cooldowns over runs ----------

  /** Ticks do not run backwards. */
  predicate Ordered(events: seq<Event>) {
    events == [] ||
    var e := events[|events| - 1];
    Ordered(events[..|events| - 1]) && (e.WindowEnd? ==> LastTick(events[..|events| - 1]) <= e.tick)
  }

  /** No window leaves more than eight recent evictions. */
  predicate Calm(events: seq<Event>) {
    events == [] ||
    var e := events[|events| - 1];
    Calm(events[..|events| - 1]) && (e.WindowEnd? ==> |Recent(Run(events).evictedAt, e.tick)| <= 8)
  }

  function LastTick(events: seq<Event>): nat {
    if events == [] then 0
    else var e := events[|events| - 1]; if e.WindowEnd? then e.tick else LastTick(events[..|events| - 1])
  }

  lemma {:induction false} RecentGrows(at: map<Pair, nat>, p: Pair, tick: nat)
    ensures Recent(at, tick) <= Recent(at[p := tick], tick)
  {
  }

  lemma {:induction false} DecayRemembers(s: Engine, n: nat, tick: nat, draws: nat -> Draw)
    requires n <= MAX_PAIRS && Remembers(s.evicts, s.evictedAt, tick) && Unexpired(s.evicts, tick)
    requires |Recent(Decay(s, n, tick, draws).evictedAt, tick)| <= MAX_EVICTS
    ensures var s' := Decay(s, n, tick, draws); Remembers(s'.evicts, s'.evictedAt, tick) && Unexpired(s'.evicts, tick)
  {
    hide Remembers; hide Unexpired; hide Recent; hide Close; hide Record;
    if n == 0 {
    } else {
      var s1 := Decay(s, n - 1, tick, draws);
      var p := s1.table[n - 1].pair;
      RecentGrows(s1.evictedAt, p, tick);
      SubsetSize(Recent(s1.evictedAt, tick), Recent(s1.evictedAt[p := tick], tick));
      DecayRemembers(s, n - 1, tick, draws);
      if s1.table[n - 1].active && Evicted(s1.table[n - 1]) { RecordRemembers(s1.evicts, s1.evictedAt, tick, p); }
    }
  }

  lemma {:induction false} RunRemembers(events: seq<Event>)
    requires Ordered(events) && Calm(events)
    ensures Remembers(Run(events).evicts, Run(events).evictedAt, LastTick(events))
  {
    hide Remembers; hide Decay; hide OpenPhase; hide Recent; hide ObserveIpc; hide ExpireFrom;
    if events == [] { InitialRemembers(); } else {
      var init, e := events[..|events| - 1], events[|events| - 1];
      RunRemembers(init);
      var s := Run(init);
      if e.WindowEnd? {
        RunGood(init);
        OpenPhaseAllowed(s, e.tick, e.enabled);
        ExpireRemembers(s.evicts, s.evictedAt, LastTick(init), e.tick);
        DecayRemembers(OpenPhase(Begin(s, e.tick), e.tick, e.enabled), MAX_PAIRS, e.tick, e.draws);
      }
    }
  }

  lemma {:induction false} InitialRemembers()
    ensures Remembers([], map[], 0)
  {
  }

  /** After every event of the run, every recent eviction is reported. */
  ghost predicate ReportsThroughout(events: seq<Event>) {
    && Reports(Run(events).evicts, Run(events).evictedAt, LastTick(events))
    && (events == [] || ReportsThroughout(events[..|events| - 1]))
  }

  lemma {:induction false} DecaySize(s: Engine, n: nat, tick: nat, draws: nat -> Draw)
    requires n <= MAX_PAIRS && |s.evicts| <= MAX_EVICTS
    ensures |Decay(s, n, tick, draws).evicts| <= MAX_EVICTS
  {
    hide Close; hide IndexOf; hide Earliest; hide Evicted;
    if n == 0 {
    } else {
      DecaySize(s, n - 1, tick, draws);
    }
  }

  /** The table never outgrows its eight slots, calm or not. */
  lemma {:induction false} RunTableSize(events: seq<Event>)
    ensures |Run(events).evicts| <= 8
  {
    hide Decay; hide OpenPhase; hide ObserveIpc; hide ExpireFrom;
    if events == [] {
    } else {
      var init, e := events[..|events| - 1], events[|events| - 1];
      RunTableSize(init);
      if e.WindowEnd? {
        RunGood(init);
        OpenPhaseAllowed(Run(init), e.tick, e.enabled);
        ExpireKeepsUnexpired(Run(init).evicts, 0, e.tick);
        DecaySize(OpenPhase(Begin(Run(init), e.tick), e.tick, e.enabled), MAX_PAIRS, e.tick, e.draws);
      }
    }
  }

  /** Over a run in tick order, the table reports every recent eviction at all times exactly when the run is calm. */
  lemma {:induction false} ReportsIffCalm(events: seq<Event>)
    requires Ordered(events)
    ensures ReportsThroughout(events) <==> Calm(events)
  {
    hide Reports; hide Recent; hide Run; hide Remembers;
    if events == [] {
      RunRemembers(events);
      RemembersReports(Run(events).evicts, Run(events).evictedAt, LastTick(events));
    } else {
      ReportsIffCalm(events[..|events| - 1]);
      if Calm(events) {
        RunRemembers(events);
        RemembersReports(Run(events).evicts, Run(events).evictedAt, LastTick(events));
      }
      if ReportsThroughout(events) {
        RunTableSize(events);
        ReportsAtMostEight(Run(events).evicts, Run(events).evictedAt, LastTick(events));
      }
    }
  }

  /**
   * After any run, a window opens at most two channels, each for a pair whose entry has counted at least two windows
   * with traffic and is hot by counters and trees; and after a calm run none less than 72 ticks after that pair was evicted.
   */
  lemma {:induction false} ChannelOpening(events: seq<Event>, tick: nat, enabled: bool, pair: Pair)
    requires Ordered(events) && LastTick(events) <= tick
    requires pair in OpenPhase(Begin(Run(events), tick), tick, enabled).channels - Run(events).channels
    ensures enabled && |OpenPhase(Begin(Run(events), tick), tick, enabled).channels - Run(events).channels| <= 2
    ensures exists i: SlotIndex ::
              var e := Run(events).table[i]; e.active && e.pair == pair && e.bayes.hotWindows >= 2 && HotEnough(e)
    ensures Calm(events) && pair in Run(events).evictedAt ==> Run(events).evictedAt[pair] + 72 <= tick
  {
    hide Good; hide OpenPhase; hide InCooldown; hide Remembers; hide Run; hide ExpireFrom; hide Calm; hide Ordered; hide HotEnough;
    RunGood(events);
    var s := Run(events);
    OpenPhaseAllowed(s, tick, enabled);
    assert MayOpen(Begin(s, tick), pair, tick);
    if Calm(events) && pair in s.evictedAt {
      RunRemembers(events);
      ExpireRemembers(s.evicts, s.evictedAt, LastTick(events), tick);
      CooldownIffRecent(Begin(s, tick).evicts, s.evictedAt, tick, pair);
    }
  }
}
