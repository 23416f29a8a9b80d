/** The pair table of the policy engine over whole runs: traffic in, channels opened and taken back window by window. */
module PolicyEngine {
  import opened Prelude
  import opened PolicyLearning
  import opened PolicyChannels

  datatype Entry = Entry(
    pair: Pair, count: nat, active: bool, lastCount: nat, cold: nat, rateEma: nat, payloadWindow: nat, payloadEma: nat,
    bayes: Bayes, deltaPrev: nat, rlPrev: StateIndex, rlAction: Action)

  type StateIndex = s: nat | s < N_STATES witness 0

  type SlotIndex = i: nat | i < MAX_PAIRS witness 0

  type Table = t: seq<Entry> | |t| == MAX_PAIRS witness seq(MAX_PAIRS, _ => EmptyEntry)

  /** `evictedAt` records the last eviction of every pair; the program keeps only `evicts`. */
  datatype Engine = Engine(
    table: Table, evicts: seq<Evict>, made: nat, q: QTable, epsilon: nat, channels: set<Pair>, evictedAt: map<Pair, nat>)

  const EmptyEntry: Entry := Entry(Pair(0, 0), 0, false, 0, 0, 0, 0, 0, Prior, 0, 0, Noop)

  function Initial(): Engine { Engine(seq(MAX_PAIRS, _ => EmptyEntry), [], 0, InitialQ(), 20, {}, map[]) }

  function NewEntry(pair: Pair, count: nat, bytes: nat): Entry {
    Entry(pair, count, true, 0, 0, 0, bytes, 0, Prior, 0, 0, Noop)
  }

  // ---------- traffic ----------

  function IndexOfPair(t: seq<Entry>, pair: Pair): (i: nat)
    ensures i <= |t|
    ensures i < |t| ==> t[i].active && t[i].pair == pair
    ensures forall j :: 0 <= j < i ==> !(t[j].active && t[j].pair == pair)
  {
    if t == [] || (t[0].active && t[0].pair == pair) then 0 else 1 + IndexOfPair(t[1..], pair)
  }

  function IndexOfIdle(t: seq<Entry>): (i: nat)
    ensures i <= |t|
    ensures i < |t| ==> !t[i].active
    ensures forall j :: 0 <= j < i ==> t[j].active
  {
    if t == [] || !t[0].active then 0 else 1 + IndexOfIdle(t[1..])
  }

  /** The first entry with the least count among the first `n`. */
  function Quietest(t: seq<Entry>, n: nat): (i: nat)
    requires 0 < n <= |t|
    ensures i < n
    ensures forall j :: 0 <= j < n ==> t[i].count <= t[j].count
    ensures forall j :: 0 <= j < i ==> t[i].count < t[j].count
  {
    if n == 1 then 0
    else var b := Quietest(t, n - 1); if t[n - 1].count < t[b].count then n - 1 else b
  }

  function SaturatingAdd(a: nat, b: nat): nat { Min(a + b, WORD_LIMIT - 1) }

  function ObserveIpc(t: Table, pair: Pair, count: nat, bytes: nat): Table {
    var i := IndexOfPair(t, pair);
    if i < |t| then t[i := t[i].(count := count, payloadWindow := SaturatingAdd(t[i].payloadWindow, bytes))]
    else
      var k := IndexOfIdle(t);
      t[(if k < |t| then k else Quietest(t, |t|)) := NewEntry(pair, count, bytes)]
  }

  // ---------- opening channels ----------

  datatype Rank = Rank(idx: SlotIndex, score: int)

  function Ml2(e: Entry): int {
    Gbdt(e.bayes.alpha, e.bayes.beta, e.rateEma / 10, e.cold, if Wrap(e.deltaPrev * 10) > e.rateEma then 1 else 0)
  }

  function Ranked(t: Table, n: nat): (r: seq<Rank>)
    requires n <= MAX_PAIRS
    ensures forall k :: 0 <= k < |r| ==> r[k].idx < n && t[r[k].idx].active && t[r[k].idx].count > 0 && r[k].score == Ml2(t[r[k].idx])
    ensures forall k, l :: 0 <= k < l < |r| ==> r[k].idx < r[l].idx
  {
    if n == 0 then []
    else Ranked(t, n - 1) + if t[n - 1].active && t[n - 1].count > 0 then [Rank(n - 1, Ml2(t[n - 1]))] else []
  }

  /** The first best rank in r[i..n]. */
  function Best(r: seq<Rank>, i: nat, n: nat): (b: nat)
    requires i < n <= |r|
    ensures i <= b < n && forall j :: i <= j < n ==> r[j].score <= r[b].score
    ensures forall j :: i <= j < b ==> r[j].score < r[b].score
  {
    if n == i + 1 then i
    else var b := Best(r, i, n - 1); if r[n - 1].score > r[b].score then n - 1 else b
  }

  function Swap(r: seq<Rank>, i: nat, b: nat): (r': seq<Rank>)
    requires i < |r| && b < |r|
    ensures |r'| == |r|
  {
    r[i := r[b]][b := r[i]]
  }

  /** Selection sort of the first `k` places. */
  function Select(r: seq<Rank>, i: nat, k: nat): (r': seq<Rank>)
    requires i <= k <= |r|
    ensures |r'| == |r|
    decreases k - i
  {
    if i == k then r else Select(Swap(r, i, Best(r, i, |r|)), i + 1, k)
  }

  function Top(r: seq<Rank>): seq<Rank> { var k := Min(3, |r|); Select(r, 0, k)[..k] }

  predicate Hot(e: Entry, score: int) {
    var threshold := match e.rlAction case Encourage => HOT_THRESHOLD - 80 case Discourage => HOT_THRESHOLD + 80 case _ => HOT_THRESHOLD;
    Score(e.bayes) >= HOT_SCORE && (score >= threshold || e.rlAction.PinPush?)
  }

  function OpenOne(s: Engine, r: Rank, tick: nat, enabled: bool): Engine {
    var e := s.table[r.idx];
    if Hot(e, r.score) && enabled && e.pair !in s.channels && s.made < MAX_PER_WINDOW && !InCooldown(s.evicts, e.pair, tick)
    then s.(channels := s.channels + {e.pair}, made := s.made + 1)
    else s
  }

  function OpenAll(s: Engine, rs: seq<Rank>, tick: nat, enabled: bool): Engine {
    if rs == [] then s
    else OpenOne(OpenAll(s, rs[..|rs| - 1], tick, enabled), rs[|rs| - 1], tick, enabled)
  }

  // ---------- the end of a window for one entry ----------

  function Ema(x: nat, was: nat): nat { Wrap(3 * x * 10 + 7 * was) / 10 }

  function Delta(e: Entry): nat { if e.count >= e.lastCount then e.count - e.lastCount else 0 }

  predicate Spike(e: Entry) {
    || (e.rateEma >= 10 && Delta(e) >= 200 && Wrap(Delta(e) * 10) > Wrap(e.rateEma * 20))
    || (e.payloadEma >= 10 && Wrap(e.payloadWindow * 10) > Wrap(e.payloadEma * 20))
  }

  function NextState(e: Entry): StateIndex { StateIdx(Observe(e.bayes, Delta(e)).alpha, Ema(Delta(e), e.rateEma) / 10, e.cold) }

  predicate Evicted(e: Entry) { Spike(e) || (Delta(e) < COLD_DELTA && e.cold + 1 >= COLD_LIMIT) }

  function CloseReward(e: Entry, hasChannel: bool): (r: int)
    ensures REWARD_MIN <= r <= REWARD_MAX
  {
    var urged := e.rlAction.Encourage? || e.rlAction.PinPush?;
    if Spike(e) then (if urged then -20 else -5)
    else if Delta(e) < COLD_DELTA then
      if e.cold + 1 >= COLD_LIMIT then (if urged then -8 else -2) else (if e.rlAction.Encourage? then -4 else -1)
    else Reward(e.rlAction, Delta(e), e.deltaPrev, hasChannel)
  }

  /** The entry and the Q-table after the window. */
  function Close(e: Entry, q: QTable, epsilon: nat, d: Draw, hasChannel: bool): (Entry, QTable) {
    var next := NextState(e);
    var q' := UpdateQ(q, e.rlPrev, e.rlAction, CloseReward(e, hasChannel), next);
    var e1 := e.(lastCount := e.count, payloadWindow := 0, rateEma := Ema(Delta(e), e.rateEma),
                 payloadEma := Ema(e.payloadWindow, e.payloadEma), bayes := Observe(e.bayes, Delta(e)), deltaPrev := Delta(e));
    if Evicted(e) then (e1.(active := false, cold := 0), q')
    else (e1.(cold := if Delta(e) < COLD_DELTA then e.cold + 1 else 0, rlPrev := next, rlAction := SelectAction(q'[next], epsilon, d)), q')
  }

  predicate EntryOk(e: Entry) { BayesOk(e.bayes) && (e.active ==> e.cold < COLD_LIMIT) }

  lemma {:induction false} CloseKeeps(e: Entry, q: QTable, epsilon: nat, d: Draw, hasChannel: bool)
    requires EntryOk(e) && e.active && QOk(q)
    ensures var (e', q') := Close(e, q, epsilon, d, hasChannel);
            && EntryOk(e') && QOk(q') && e'.pair == e.pair && (e'.active <==> !Evicted(e))
            && e'.bayes.hotWindows == e.bayes.hotWindows + if e.count > e.lastCount then 1 else 0
  {
    hide Ema; hide UpdateQ; hide QOk; hide Spike; hide StateIdx; hide Reward; hide SelectAction;
    ObserveKeepsBayes(e.bayes, Delta(e));
    UpdateKeepsQ(q, e.rlPrev, e.rlAction, CloseReward(e, hasChannel), NextState(e));
  }

  /** Two quiet windows in a row evict a pair, whatever the draws; a busy one without a spike clears the count. */
  lemma {:induction false} ColdTwice(e: Entry, q: QTable, epsilon: nat, d: Draw, hasChannel: bool, count: nat)
    requires EntryOk(e) && e.active && !Evicted(e)
    ensures var e' := Close(e, q, epsilon, d, hasChannel).0; var later := e'.(count := count);
            && (Delta(e) < 5 && count < e.count + 5 ==> Evicted(later))
            && (Delta(e) >= 5 ==> e'.cold == 0 && (count < e.count + 5 && !Spike(later) ==> !Evicted(later)))
  {
    hide Spike; hide UpdateQ; hide Ema; hide StateIdx; hide Reward; hide SelectAction; hide BayesOk;
  }

  // ---------- a window ----------

  function DecayOne(s: Engine, i: SlotIndex, tick: nat, d: Draw): Engine {
    var e := s.table[i];
    if !e.active then s
    else
      var (e', q') := Close(e, s.q, s.epsilon, d, e.pair in s.channels);
      var s1 := s.(table := s.table[i := e'], q := q');
      if Evicted(e)
      then s1.(channels := s.channels - {e.pair}, evicts := Record(s.evicts, e.pair, tick), evictedAt := s.evictedAt[e.pair := tick])
      else s1
  }

  /** The first `n` entries closed. */
  function Decay(s: Engine, n: nat, tick: nat, draws: nat -> Draw): Engine
    requires n <= MAX_PAIRS
  {
    if n == 0 then s else DecayOne(Decay(s, n - 1, tick, draws), n - 1, tick, draws(n - 1))
  }

  /** The window up to the opening of channels: counter reset, expired cooldowns dropped, exploration decayed. */
  function Begin(s: Engine, tick: nat): Engine {
    s.(made := 0, evicts := ExpireFrom(s.evicts, 0, tick),
       epsilon := if tick > 0 && tick % 1000 == 0 && s.epsilon > 5 then s.epsilon - 1 else s.epsilon)
  }

  function OpenPhase(s: Engine, tick: nat, enabled: bool): Engine {
    OpenAll(s, Top(Ranked(s.table, MAX_PAIRS)), tick, enabled)
  }

  function Window(s: Engine, tick: nat, enabled: bool, draws: nat -> Draw): Engine {
    Decay(OpenPhase(Begin(s, tick), tick, enabled), MAX_PAIRS, tick, draws)
  }

  // ---------- the three best pairs ----------

  lemma {:induction false} SwapKeeps(r: seq<Rank>, i: nat, b: nat)
    requires i < |r| && b < |r|
    ensures multiset(Swap(r, i, b)) == multiset(r)
  {
  }

  predicate BestFirst(r: seq<Rank>, k: nat) { forall i, j :: 0 <= i < k && i < j < |r| ==> r[j].score <= r[i].score }

  lemma {:induction false} SwapSorts(r: seq<Rank>, i: nat, b: nat)
    requires i <= b < |r| && BestFirst(r, i) && forall j :: i <= j < |r| ==> r[j].score <= r[b].score
    ensures BestFirst(Swap(r, i, b), i + 1)
  {
  }

  /** The selection sort permutes the ranks and puts the `k` best ones first. */
  lemma {:induction false} SelectSorts(r: seq<Rank>, i: nat, k: nat)
    requires i <= k <= |r| && BestFirst(r, i)
    ensures multiset(Select(r, i, k)) == multiset(r) && BestFirst(Select(r, i, k), k)
    decreases k - i
  {
    hide Swap; hide BestFirst;
    if i == k {
    } else {
      var b := Best(r, i, |r|);
      SwapKeeps(r, i, b);
      SwapSorts(r, i, b);
      SelectSorts(Swap(r, i, b), i + 1, k);
    }
  }

  lemma {:induction false} TopMembers(t: Table, k: nat)
    requires k < |Top(Ranked(t, MAX_PAIRS))|
    ensures var r := Top(Ranked(t, MAX_PAIRS))[k]; t[r.idx].active && t[r.idx].count > 0 && r.score == Ml2(t[r.idx])
  {
    hide Ml2; hide Select;
    var r := Ranked(t, MAX_PAIRS);
    SelectSorts(r, 0, Min(3, |r|));
    var r' := Select(r, 0, Min(3, |r|));
    assert r'[k] in multiset(r');
    assert r'[k] in r;
  }

  // ---------- what opening a channel requires ----------

  /** Counters above the score of 650 in a thousand, and the trees' score at the threshold of the last action. */
  predicate HotEnough(e: Entry) {
    && 7 * e.bayes.alpha >= 13 * (e.bayes.beta + 1)
    && (e.rlAction.PinPush? || Ml2(e) >= match e.rlAction case Encourage => 220 case Discourage => 380 case _ => 300)
  }

  lemma {:induction false} HotIff(e: Entry)
    ensures Hot(e, Ml2(e)) <==> HotEnough(e)
  {
    ScoreIff(e.bayes, 650);
    hide Ml2; hide Score;
  }

  /** The pair's entry is live, hot, and has counted two windows with traffic; the pair is not cooling down. */
  ghost predicate MayOpen(s: Engine, pair: Pair, tick: nat) {
    && !InCooldown(s.evicts, pair, tick)
    && exists i: SlotIndex :: var e := s.table[i]; e.active && e.pair == pair && e.bayes.hotWindows >= 2 && HotEnough(e)
  }

  predicate TableOk(t: Table) { forall i: SlotIndex :: EntryOk(t[i]) }

  /** Ranks of live entries with their own scores. */
  predicate RanksOf(t: Table, rs: seq<Rank>) {
    forall k :: 0 <= k < |rs| ==> t[rs[k].idx].active && rs[k].score == Ml2(t[rs[k].idx])
  }

  lemma {:induction false} OpenAllAllowed(s: Engine, rs: seq<Rank>, tick: nat, enabled: bool)
    requires TableOk(s.table) && s.made <= 2 && RanksOf(s.table, rs)
    ensures var s' := OpenAll(s, rs, tick, enabled);
            && s'.table == s.table && s'.q == s.q && s'.evicts == s.evicts && s'.evictedAt == s.evictedAt && s'.epsilon == s.epsilon
            && s.channels <= s'.channels && |s'.channels - s.channels| == s'.made - s.made && s'.made <= 2
            && (!enabled ==> s'.channels == s.channels)
            && forall p :: p in s'.channels - s.channels ==> MayOpen(s, p, tick)
  {
    hide InCooldown; hide Score; hide BayesOk; hide MayOpen; hide Ml2; hide Hot; hide EntryOk;
    if rs == [] {
    } else {
      var r := rs[|rs| - 1];
      OpenAllAllowed(s, rs[..|rs| - 1], tick, enabled);
      var s1 := OpenAll(s, rs[..|rs| - 1], tick, enabled);
      var s' := OpenOne(s1, r, tick, enabled);
      if s' != s1 {
        var p := s.table[r.idx].pair;
        OpenNeeds(s, r, tick);
        assert s'.channels - s.channels == (s1.channels - s.channels) + {p};
      }
    }
  }

  lemma {:induction false} OpenNeeds(s: Engine, r: Rank, tick: nat)
    requires EntryOk(s.table[r.idx]) && s.table[r.idx].active && Hot(s.table[r.idx], r.score) && r.score == Ml2(s.table[r.idx])
    requires !InCooldown(s.evicts, s.table[r.idx].pair, tick)
    ensures MayOpen(s, s.table[r.idx].pair, tick)
  {
    HotIff(s.table[r.idx]);
    HotNeedsTwoWindows(s.table[r.idx].bayes);
    hide Ml2;
  }

  /** Every ranked pair that is hot and not cooling down has a channel afterwards, unless both openings went to others. */
  lemma {:induction false} OpenAllServes(s: Engine, rs: seq<Rank>, tick: nat, k: nat)
    requires TableOk(s.table) && s.made <= 2 && RanksOf(s.table, rs) && k < |rs|
    requires HotEnough(s.table[rs[k].idx]) && !InCooldown(s.evicts, s.table[rs[k].idx].pair, tick)
    ensures var s' := OpenAll(s, rs, tick, true);
            && (s.table[rs[k].idx].pair in s'.channels || s'.made == 2)
            && (s.made == 0 && k < 2 ==> s.table[rs[k].idx].pair in s'.channels)
  {
    hide InCooldown; hide HotEnough; hide Ml2; hide Hot; hide EntryOk; hide MayOpen;
    var init := rs[..|rs| - 1];
    OpenAllAllowed(s, init, tick, true);
    if k < |init| {
      OpenAllServes(s, init, tick, k);
    } else {
      HotIff(s.table[rs[k].idx]);
      OpenedAtMost(s, init, tick, true);
    }
  }

  lemma {:induction false} OpenedAtMost(s: Engine, rs: seq<Rank>, tick: nat, enabled: bool)
    ensures OpenAll(s, rs, tick, enabled).made <= s.made + |rs|
  {
    hide InCooldown; hide Hot;
    if rs == [] {
    } else {
      OpenedAtMost(s, rs[..|rs| - 1], tick, enabled);
    }
  }

  // ---------- the three best ----------

  lemma {:induction false} InPrefix(r: seq<Rank>, k: nat, x: Rank)
    requires k <= |r| && BestFirst(r, k) && x in r
    ensures x in r[..k] || (k < |r| && forall j :: 0 <= j < k ==> x.score <= r[j].score)
  {
    var j :| 0 <= j < |r| && r[j] == x;
    if j < k { assert r[..k][j] == x; }
  }

  /** A rank is among the top ones, or three others are as good or better. */
  lemma {:induction false} InTop(r: seq<Rank>, x: Rank)
    requires x in r
    ensures |Top(r)| <= 3 && forall k, l :: 0 <= k < l < |Top(r)| ==> Top(r)[l].score <= Top(r)[k].score
    ensures x in Top(r) || (|Top(r)| == 3 && forall k :: 0 <= k < |Top(r)| ==> x.score <= Top(r)[k].score)
  {
    var k := Min(3, |r|);
    SelectSorts(r, 0, k);
    var r' := Select(r, 0, k);
    assert x in r' by { assert x in multiset(r); assert x in multiset(r'); }
    InPrefix(r', k, x);
    assert Top(r) == r'[..k];
    hide Select; hide Top;
  }

  /** Every live pair with traffic is among the top ranks, or three others are as good or better. */
  lemma {:induction false} TopIsBest(t: Table, i: SlotIndex)
    requires t[i].active && t[i].count > 0
    ensures var top := Top(Ranked(t, MAX_PAIRS));
            && |top| <= 3 && RanksOf(t, top) && (forall k, l :: 0 <= k < l < |top| ==> top[l].score <= top[k].score)
            && (Rank(i, Ml2(t[i])) in top || (|top| == 3 && forall k :: 0 <= k < |top| ==> Ml2(t[i]) <= top[k].score))
  {
    hide Ml2; hide Top;
    RankedAll(t, MAX_PAIRS, i);
    InTop(Ranked(t, MAX_PAIRS), Rank(i, Ml2(t[i])));
    var top := Top(Ranked(t, MAX_PAIRS));
    forall k | 0 <= k < |top| ensures t[top[k].idx].active && top[k].score == Ml2(t[top[k].idx]) { TopMembers(t, k); }
  }

  lemma {:induction false} RankedAll(t: Table, n: nat, i: SlotIndex)
    requires i < n <= MAX_PAIRS && t[i].active && t[i].count > 0
    ensures Rank(i, Ml2(t[i])) in Ranked(t, n)
  {
    hide Ml2;
    if i == n - 1 {
      assert Ranked(t, n)[|Ranked(t, n - 1)|] == Rank(i, Ml2(t[i]));
    } else {
      RankedAll(t, n - 1, i);
      var k :| 0 <= k < |Ranked(t, n - 1)| && Ranked(t, n - 1)[k] == Rank(i, Ml2(t[i]));
      assert Ranked(t, n)[k] == Rank(i, Ml2(t[i]));
    }
  }
}
