/** The policy engine as it is written: fixed tables updated in place by loops. */
module PolicyCode {
  import opened Prelude
  import opened PolicyLearning
  import opened PolicyChannels
  import opened PolicyEngine

  class PolicyObject {
    const table: array<Entry>
    const evict: array<Evict>
    var evictLen: nat
    var made: nat
    var q: QTable
    var epsilon: nat
    var channels: set<Pair>
    ghost var evictedAt: map<Pair, nat>

    ghost predicate Valid()
      reads this
    {
      table.Length == MAX_PAIRS && evict.Length == MAX_EVICTS && evictLen <= MAX_EVICTS
    }

    ghost function View(): Engine
      reads this, table, evict
      requires Valid()
    {
      Engine(table[..], evict[..evictLen], made, q, epsilon, channels, evictedAt)
    }

    constructor ()
      ensures Valid() && View() == Initial() && fresh(table) && fresh(evict)
    {
      table := new Entry[MAX_PAIRS](_ => EmptyEntry);
      evict := new Evict[MAX_EVICTS](_ => Evict(Pair(0, 0), 0));
      evictLen, made, q, epsilon, channels, evictedAt := 0, 0, InitialQ(), 20, {}, map[];
    }

    method InEvictCooldown(pair: Pair, tick: nat) returns (cooling: bool)
      requires Valid()
      ensures cooling == InCooldown(View().evicts, pair, tick)
    {
      ghost var es := View().evicts;
      for i := 0 to evictLen
        invariant forall j :: 0 <= j < i ==> !(es[j].pair == pair && tick < es[j].minTick)
      {
        assert es[i] == evict[i];
        if evict[i].pair == pair && tick < evict[i].minTick { return true; }
      }
      return false;
    }

    method FindEvict(pair: Pair) returns (i: nat)
      requires Valid()
      ensures i == IndexOf(View().evicts, pair)
    {
      ghost var es := View().evicts;
      i := 0;
      while i < evictLen && evict[i].pair != pair
        invariant i <= evictLen && i <= IndexOf(es, pair)
      {
        i := i + 1;
      }
    }

    method FindEarliest() returns (least: nat)
      requires Valid() && evictLen == MAX_EVICTS
      ensures least == Earliest(View().evicts, MAX_EVICTS)
    {
      least := 0;
      for i := 1 to MAX_EVICTS
        invariant least == Earliest(View().evicts, i)
      {
        if evict[i].minTick < evict[least].minTick { least := i; }
      }
    }

    method RecordEviction(pair: Pair, tick: nat)
      requires Valid()
      modifies this`evictLen, this`evictedAt, evict
      ensures Valid() && View() == old(View()).(evicts := Record(old(View().evicts), pair, tick), evictedAt := old(evictedAt)[pair := tick])
    {
      hide IndexOf; hide Earliest;
      ghost var es := View().evicts;
      var e := Evict(pair, tick + COOLDOWN);
      evictedAt := evictedAt[pair := tick];
      var i := FindEvict(pair);
      if i < evictLen {
        evict[i] := e;
        assert evict[..evictLen] == es[i := e];
      } else if evictLen < MAX_EVICTS {
        evict[evictLen] := e;
        evictLen := evictLen + 1;
        assert evict[..evictLen] == es + [e];
      } else {
        var least := FindEarliest();
        evict[least] := e;
        assert evict[..evictLen] == es[least := e];
      }
    }

    method ExpireEvictions(tick: nat)
      requires Valid()
      modifies this`evictLen, evict
      ensures Valid() && View() == old(View()).(evicts := ExpireFrom(old(View().evicts), 0, tick))
    {
      var i := 0;
      while i < evictLen
        invariant Valid() && i <= evictLen
        invariant ExpireFrom(evict[..evictLen], i, tick) == ExpireFrom(old(View().evicts), 0, tick)
        decreases evictLen - i
      {
        ghost var es := evict[..evictLen];
        if tick >= evict[i].minTick {
          evictLen := evictLen - 1;
          evict[i] := evict[evictLen];
          evict[evictLen] := Evict(Pair(0, 0), 0);
          assert evict[..evictLen] == es[i := es[|es| - 1]][..|es| - 1];
        } else {
          i := i + 1;
        }
      }
    }

    method Observe(pair: Pair, count: nat, bytes: nat)
      requires Valid()
      modifies table
      ensures Valid() && View() == old(View()).(table := ObserveIpc(old(View().table), pair, count, bytes))
    {
      ghost var t := View().table;
      for i := 0 to MAX_PAIRS
        invariant table[..] == t && i <= IndexOfPair(t, pair)
      {
        if table[i].active && table[i].pair == pair {
          table[i] := table[i].(count := count, payloadWindow := SaturatingAdd(table[i].payloadWindow, bytes));
          return;
        }
      }
      for i := 0 to MAX_PAIRS
        invariant table[..] == t && i <= IndexOfIdle(t)
      {
        IdleNext(t, i);
        if !table[i].active {
          table[i] := NewEntry(pair, count, bytes);
          return;
        }
      }
      var least := 0;
      for i := 1 to MAX_PAIRS
        invariant table[..] == t && least == Quietest(t, i)
      {
        if table[i].count < table[least].count { least := i; }
      }
      table[least] := NewEntry(pair, count, bytes);
    }

    /** Score the live pairs and bring the three best to the front. */
    method TopRanks() returns (top: seq<Rank>)
      requires Valid()
      ensures top == Top(Ranked(View().table, MAX_PAIRS))
    {
      hide Best; hide Ml2;
      ghost var t := View().table;
      var ranks: seq<Rank> := [];
      for i := 0 to MAX_PAIRS
        invariant ranks == Ranked(t, i)
      {
        if table[i].active && table[i].count > 0 { ranks := ranks + [Rank(i, Ml2(table[i]))]; }
      }
      ghost var ranked := ranks;
      var k := Min(3, |ranks|);
      for i := 0 to k
        invariant |ranks| == |ranked| && Select(ranks, i, k) == Select(ranked, 0, k)
      {
        var best := FindBest(ranks, i);
        ranks := ranks[i := ranks[best]][best := ranks[i]];
      }
      top := ranks[..k];
    }

    /** Open the channels of the three best pairs where allowed. */
    method OpenHot(tick: nat, enabled: bool)
      requires Valid()
      modifies this`made, this`channels
      ensures Valid() && View() == OpenPhase(old(View()), tick, enabled)
    {
      hide OpenOne; hide Top; hide Ranked;
      var top := TopRanks();
      for i := 0 to |top|
        invariant Valid() && View() == OpenAll(old(View()), top[..i], tick, enabled)
      {
        assert top[..i + 1][..i] == top[..i];
        OpenRank(top[i], tick, enabled);
      }
      assert top[..|top|] == top;
    }

    method FindBest(ranks: seq<Rank>, i: nat) returns (best: nat)
      requires i < |ranks|
      ensures best == Best(ranks, i, |ranks|)
    {
      best := i;
      for j := i + 1 to |ranks|
        invariant best == Best(ranks, i, j)
      {
        if ranks[j].score > ranks[best].score { best := j; }
      }
    }

    method OpenRank(r: Rank, tick: nat, enabled: bool)
      requires Valid()
      modifies this`made, this`channels
      ensures Valid() && View() == OpenOne(old(View()), r, tick, enabled)
    {
      hide InCooldown; hide Score;
      var e := table[r.idx];
      if Hot(e, r.score) && enabled {
        if e.pair in channels { return; }
        if made >= MAX_PER_WINDOW { return; }
        var cooling := InEvictCooldown(e.pair, tick);
        if cooling { return; }
        channels := channels + {e.pair};
        made := made + 1;
      }
    }

    /** The loop that closes the window for every live entry. */
    method DecayPairs(tick: nat, draws: nat -> Draw)
      requires Valid()
      modifies this, table, evict
      ensures Valid() && View() == Decay(old(View()), MAX_PAIRS, tick, draws)
    {
      hide DecayOne;
      for i := 0 to MAX_PAIRS
        invariant Valid() && View() == Decay(old(View()), i, tick, draws)
      {
        DecayEntry(i, tick, draws(i));
      }
    }

    method DecayEntry(i: SlotIndex, tick: nat, d: Draw)
      requires Valid()
      modifies this, table, evict
      ensures Valid() && View() == DecayOne(old(View()), i, tick, d)
    {
      hide Close; hide Record; hide Evicted;
      var e := table[i];
      if !e.active { return; }
      var (e', q') := Close(e, q, epsilon, d, e.pair in channels);
      q := q';
      table[i] := e';
      if Evicted(e) {
        channels := channels - {e.pair};
        RecordEviction(e.pair, tick);
      }
    }

    /** The pair-table part of adapt_and_report. */
    method AdaptAndReport(tick: nat, enabled: bool, draws: nat -> Draw)
      requires Valid()
      modifies this, table, evict
      ensures Valid() && View() == Window(old(View()), tick, enabled, draws)
    {
      hide ExpireFrom; hide OpenPhase; hide Decay;
      made := 0;
      ExpireEvictions(tick);
      if tick > 0 && tick % 1000 == 0 && epsilon > 5 { epsilon := epsilon - 1; }
      OpenHot(tick, enabled);
      DecayPairs(tick, draws);
    }
  }

  lemma {:induction false} IdleNext(t: seq<Entry>, i: nat)
    requires i < |t| && i <= IndexOfIdle(t)
    ensures !t[i].active <==> IndexOfIdle(t) == i
  {
  }
}
