/** How the policy engine watches pairs of processes, opens fast channels for busy ones and takes them back. */
module PolicyChannels {
  import opened Prelude
  import opened PolicyLearning

  const MAX_PAIRS: nat := 16
  const MAX_EVICTS: nat := 8
  const COOLDOWN: nat := 72
  const MAX_PER_WINDOW: nat := 2
  const COLD_DELTA: nat := 5
  const COLD_LIMIT: nat := 2
  const HOT_THRESHOLD: int := 300

  datatype Pair = Pair(from: nat, to: nat)

  // ---------- the cooldown table ----------

  datatype Evict = Evict(pair: Pair, minTick: nat)

  predicate InCooldown(es: seq<Evict>, pair: Pair, tick: nat) {
    exists i :: 0 <= i < |es| && es[i].pair == pair && tick < es[i].minTick
  }

  /** Index of the first entry for the pair, or the length. */
  function IndexOf(es: seq<Evict>, pair: Pair): (i: nat)
    ensures i <= |es|
    ensures i < |es| ==> es[i].pair == pair
    ensures forall j :: 0 <= j < i ==> es[j].pair != pair
  {
    if es == [] || es[0].pair == pair then 0 else 1 + IndexOf(es[1..], pair)
  }

  /** Index of the first entry with the least tick among the first `n`. */
  function Earliest(es: seq<Evict>, n: nat): (i: nat)
    requires 0 < n <= |es|
    ensures i < n
    ensures forall j :: 0 <= j < n ==> es[i].minTick <= es[j].minTick
    ensures forall j :: 0 <= j < i ==> es[i].minTick < es[j].minTick
  {
    if n == 1 then 0
    else var b := Earliest(es, n - 1); if es[n - 1].minTick < es[b].minTick then n - 1 else b
  }

  function Record(es: seq<Evict>, pair: Pair, tick: nat): seq<Evict> {
    var e := Evict(pair, tick + COOLDOWN);
    var i := IndexOf(es, pair);
    if i < |es| then es[i := e]
    else if |es| < MAX_EVICTS then es + [e]
    else es[Earliest(es, |es|) := e]
  }

  /** Expired entries are overwritten by the last one. */
  function ExpireFrom(es: seq<Evict>, i: nat, tick: nat): seq<Evict>
    decreases |es| - i
  {
    if i >= |es| then es
    else if tick >= es[i].minTick then ExpireFrom(es[i := es[|es| - 1]][..|es| - 1], i, tick)
    else ExpireFrom(es, i + 1, tick)
  }

  predicate PairsDistinct(es: seq<Evict>) { forall i, j :: 0 <= i < j < |es| ==> es[i].pair != es[j].pair }

  predicate Unexpired(es: seq<Evict>, tick: nat) { forall e :: e in es ==> tick < e.minTick }

  lemma {:induction false} ExpireKeepsUnexpired(es: seq<Evict>, i: nat, tick: nat)
    requires i <= |es| && Unexpired(es[..i], tick)
    ensures forall e :: e in ExpireFrom(es, i, tick) <==> e in es && tick < e.minTick
    ensures PairsDistinct(es) ==> PairsDistinct(ExpireFrom(es, i, tick))
    ensures |ExpireFrom(es, i, tick)| <= |es|
    decreases |es| - i
  {
    if i == |es| {
    } else {
      if tick >= es[i].minTick {
        var es' := es[i := es[|es| - 1]][..|es| - 1];
        DropAt(es, i);
        assert es'[..i] == es[..i];
        ExpireKeepsUnexpired(es', i, tick);
      } else {
        assert es[..i + 1] == es[..i] + [es[i]];
        ExpireKeepsUnexpired(es, i + 1, tick);
      }
    }
  }

  lemma {:induction false} DropAt(es: seq<Evict>, i: nat)
    requires i < |es|
    ensures var es' := es[i := es[|es| - 1]][..|es| - 1];
            && (forall e :: e in es' ==> e in es) && (forall e :: e in es && e != es[i] ==> e in es')
            && (PairsDistinct(es) ==> PairsDistinct(es'))
  {
    var es' := es[i := es[|es| - 1]][..|es| - 1];
    forall e | e in es && e != es[i] ensures e in es' {
      var k :| 0 <= k < |es| && es[k] == e;
      if k < |es| - 1 { assert es'[k] == e; } else { assert es'[i] == e; }
    }
  }

  // ---------- which evictions the table remembers ----------

  /** Pairs evicted less than the cooldown ago; `at` gives the last eviction of each pair. */
  function Recent(at: map<Pair, nat>, tick: nat): set<Pair> { set p | p in at && tick < at[p] + 72 }

  /** The table holds distinct pairs with the tick of their last eviction, and every recent one. */
  predicate Remembers(es: seq<Evict>, at: map<Pair, nat>, tick: nat) {
    && |es| <= MAX_EVICTS && PairsDistinct(es)
    && (forall e :: e in es ==> e.pair in at && e.minTick == at[e.pair] + COOLDOWN)
    && (forall p :: p in Recent(at, tick) ==> Evict(p, at[p] + COOLDOWN) in es)
  }

  lemma {:induction false} CooldownIffRecent(es: seq<Evict>, at: map<Pair, nat>, tick: nat, p: Pair)
    requires Remembers(es, at, tick)
    ensures InCooldown(es, p, tick) <==> p in Recent(at, tick)
  {
    if InCooldown(es, p, tick) {
      var i :| 0 <= i < |es| && es[i].pair == p && tick < es[i].minTick;
      assert es[i] in es;
    }
    if p in Recent(at, tick) { assert Evict(p, at[p] + COOLDOWN) in es; }
  }

  lemma {:induction false} ExpireRemembers(es: seq<Evict>, at: map<Pair, nat>, last: nat, tick: nat)
    requires Remembers(es, at, last) && last <= tick
    ensures Remembers(ExpireFrom(es, 0, tick), at, tick) && Unexpired(ExpireFrom(es, 0, tick), tick)
  {
    ExpireKeepsUnexpired(es, 0, tick);
    forall p | p in Recent(at, tick) ensures Evict(p, at[p] + COOLDOWN) in ExpireFrom(es, 0, tick) {
      assert p in Recent(at, last);
    }
  }

  function PairSet(es: seq<Evict>): set<Pair> { set e | e in es :: e.pair }

  lemma {:induction false} PairSetSize(es: seq<Evict>)
    requires PairsDistinct(es)
    ensures |PairSet(es)| == |es|
  {
    if es == [] {
    } else {
      var init, last := es[..|es| - 1], es[|es| - 1];
      PairSetSize(init);
      assert PairSet(es) == PairSet(init) + {last.pair} by { assert es == init + [last]; }
    }
  }

  /** With all entries unexpired, a full table and a new pair mean nine recent evictions. */
  lemma {:induction false} FullMeansNine(es: seq<Evict>, at: map<Pair, nat>, tick: nat, p: Pair)
    requires Remembers(es, at, tick) && Unexpired(es, tick) && IndexOf(es, p) == |es| == MAX_EVICTS
    ensures |Recent(at[p := tick], tick)| > MAX_EVICTS
  {
    PairSetSize(es);
    assert p !in PairSet(es);
    SubsetSize(PairSet(es) + {p}, Recent(at[p := tick], tick));
  }

  /** Putting an entry at its pair's index, or at the end, replaces exactly the entry of that pair. */
  lemma {:induction false} Placed(es: seq<Evict>, e: Evict, es': seq<Evict>)
    requires PairsDistinct(es)
    requires var i := IndexOf(es, e.pair); if i < |es| then es' == es[i := e] else es' == es + [e]
    ensures PairsDistinct(es') && |es'| <= |es| + 1
    ensures forall f :: f in es' <==> f == e || (f in es && f.pair != e.pair)
  {
    var i := IndexOf(es, e.pair);
    assert es'[i] == e;
    forall f | f in es && f.pair != e.pair ensures f in es' {
      var k :| 0 <= k < |es| && es[k] == f;
      assert es'[k] == f;
    }
    forall f | f in es' ensures f == e || (f in es && f.pair != e.pair) {
      var k :| 0 <= k < |es'| && es'[k] == f;
      if k != i { assert es[k] == f; }
    }
  }

  lemma {:induction false} PlaceRemembers(es: seq<Evict>, at: map<Pair, nat>, at': map<Pair, nat>, tick: nat, e: Evict, es': seq<Evict>)
    requires Remembers(es, at, tick) && Unexpired(es, tick) && at' == at[e.pair := tick] && e.minTick == tick + COOLDOWN
    requires PairsDistinct(es') && |es'| <= MAX_EVICTS
    requires forall f :: f in es' <==> f == e || (f in es && f.pair != e.pair)
    ensures Remembers(es', at', tick) && Unexpired(es', tick)
  {
    hide PairsDistinct;
    forall q | q in Recent(at', tick) ensures Evict(q, at'[q] + COOLDOWN) in es' {
      if q != e.pair { assert q in Recent(at, tick); }
    }
  }

  /** Recording an eviction forgets nothing as long as at most eight evictions are recent. */
  lemma {:induction false} RecordRemembers(es: seq<Evict>, at: map<Pair, nat>, tick: nat, p: Pair)
    requires Remembers(es, at, tick) && Unexpired(es, tick) && |Recent(at[p := tick], tick)| <= MAX_EVICTS
    ensures Remembers(Record(es, p, tick), at[p := tick], tick) && Unexpired(Record(es, p, tick), tick)
  {
    hide Remembers; hide Unexpired; hide Recent;
    if IndexOf(es, p) == |es| == MAX_EVICTS { FullMeansNine(es, at, tick, p); }
    TableSize(es, at, tick);
    var e := Evict(p, tick + COOLDOWN);
    Placed(es, e, Record(es, p, tick));
    PlaceRemembers(es, at, at[p := tick], tick, e, Record(es, p, tick));
  }

  lemma {:induction false} TableSize(es: seq<Evict>, at: map<Pair, nat>, tick: nat)
    requires Remembers(es, at, tick)
    ensures |es| <= MAX_EVICTS && PairsDistinct(es)
  {
  }

  /** The promise of the table: every recent eviction is reported as a cooldown. */
  ghost predicate Reports(es: seq<Evict>, at: map<Pair, nat>, tick: nat) {
    forall p :: p in Recent(at, tick) ==> InCooldown(es, p, tick)
  }

  lemma {:induction false} RemembersReports(es: seq<Evict>, at: map<Pair, nat>, tick: nat)
    requires Remembers(es, at, tick)
    ensures Reports(es, at, tick)
  {
    forall p | p in Recent(at, tick) ensures InCooldown(es, p, tick) { CooldownIffRecent(es, at, tick, p); }
  }

  lemma {:induction false} PairSetBound(es: seq<Evict>)
    ensures |PairSet(es)| <= |es|
  {
    if es == [] {
    } else {
      var init, last := es[..|es| - 1], es[|es| - 1];
      PairSetBound(init);
      assert PairSet(es) == PairSet(init) + {last.pair} by { assert es == init + [last]; }
    }
  }

  /** A table of at most eight entries can report at most eight recent evictions. */
  lemma {:induction false} ReportsAtMostEight(es: seq<Evict>, at: map<Pair, nat>, tick: nat)
    requires Reports(es, at, tick) && |es| <= MAX_EVICTS
    ensures |Recent(at, tick)| <= MAX_EVICTS
  {
    PairSetBound(es);
    forall p | p in Recent(at, tick) ensures p in PairSet(es) {
      var i :| 0 <= i < |es| && es[i].pair == p && tick < es[i].minTick;
      assert es[i] in es;
    }
    SubsetSize(Recent(at, tick), PairSet(es));
  }

  /** Recording an eviction keeps every recent one on record, and reported, exactly when no more than eight are recent. */
  lemma {:induction false} RecordRemembersIff(es: seq<Evict>, at: map<Pair, nat>, tick: nat, p: Pair)
    requires Remembers(es, at, tick) && Unexpired(es, tick)
    ensures Remembers(Record(es, p, tick), at[p := tick], tick) <==> |Recent(at[p := tick], tick)| <= 8
    ensures Reports(Record(es, p, tick), at[p := tick], tick) <==> |Recent(at[p := tick], tick)| <= 8
  {
    var es', at' := Record(es, p, tick), at[p := tick];
    hide Recent; hide Reports; hide Unexpired; hide IndexOf; hide Earliest;
    if |Recent(at', tick)| <= MAX_EVICTS {
      RecordRemembers(es, at, tick, p);
      RemembersReports(es', at', tick);
    }
    if Remembers(es', at', tick) { RemembersReports(es', at', tick); }
    assert |es'| <= MAX_EVICTS;
    if Reports(es', at', tick) { ReportsAtMostEight(es', at', tick); }
  }

  /** A ninth recent eviction makes the table forget one whose cooldown is still running. */
  lemma {:induction false} NinthForgets(es: seq<Evict>, at: map<Pair, nat>, tick: nat, p: Pair) returns (lost: Pair)
    requires Remembers(es, at, tick) && Unexpired(es, tick) && |Recent(at[p := tick], tick)| > 8
    ensures lost in Recent(at[p := tick], tick) && !InCooldown(Record(es, p, tick), lost, tick)
  {
    RecordRemembersIff(es, at, tick, p);
    assert !Reports(Record(es, p, tick), at[p := tick], tick);
    lost :| lost in Recent(at[p := tick], tick) && !InCooldown(Record(es, p, tick), lost, tick);
  }
}
