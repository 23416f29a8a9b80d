/** What the policy engine learns: where its Q-values go, what it then does, and what makes a pair hot. */
module PolicyLessons {
  import opened Prelude
  import opened PolicyLearning

  function Abs(x: int): nat { if x < 0 then -x else x }

  /** `x` is the `n`-th part of `y`, rounded toward zero. */
  predicate Part(x: int, n: nat, y: int) {
    n * Abs(x) <= Abs(y) < n * Abs(x) + n && (y >= 0 ==> x >= 0) && (y <= 0 ==> x <= 0)
  }

  // ---------- Q-values ----------

  /** `v` is the greatest value of the row. */
  ghost predicate Greatest(r: Row, v: int) {
    (forall b: Action :: r.Get(b) <= v) && exists b: Action :: r.Get(b) == v
  }

  /** One update: the cell moves a tenth of its way to 100 times the reward plus nine tenths of what comes next;
      no other cell changes. */
  lemma {:induction false} UpdateMoves(q: QTable, s: nat, a: Action, reward: int, next: nat, best: int, discounted: int)
    requires s < N_STATES && next < N_STATES && Greatest(q[next], best) && Part(discounted, 10, 9 * best)
    ensures var q' := UpdateQ(q, s, a, reward, next);
            && Part(q'[s].Get(a) - q[s].Get(a), 10, reward * 100 + discounted - q[s].Get(a))
            && forall t, b :: 0 <= t < N_STATES && (t != s || b != a) ==> q'[t].Get(b) == q[t].Get(b)
  {
    GreatestIsMax(q[next], best);
    PartIsDiv(discounted, 9 * best);
    PartIsDiv(Div(reward * 100 + discounted - q[s].Get(a), 10), reward * 100 + discounted - q[s].Get(a));
    hide Div; hide Part;
  }

  lemma {:induction false} GreatestIsMax(r: Row, v: int)
    requires Greatest(r, v)
    ensures v == MaxOf(r)
  {
    assert r.Get(Noop) <= v && r.Get(Encourage) <= v && r.Get(Discourage) <= v && r.Get(PinPush) <= v;
  }

  lemma {:induction false} PartIsDiv(x: int, y: int)
    ensures Part(x, 10, y) <==> x == Div(y, 10)
  {
  }

  /** At first every state prefers to do nothing; one good window for that takes its value from 10 to 19. */
  lemma {:induction false} FirstLesson(s: nat, next: nat, a: Action)
    requires s < N_STATES && next < N_STATES
    ensures Greedy(InitialQ()[s]) == Noop && InitialQ()[s].Get(a) == if a == Noop then 10 else 0
    ensures UpdateQ(InitialQ(), s, Noop, 1, next)[s].Get(Noop) == 19
  {
  }

  /** The same lesson `n` times over. */
  function Lessons(q: QTable, s: nat, a: Action, reward: int, next: nat, n: nat): QTable
    requires s < N_STATES && next < N_STATES
  {
    if n == 0 then q else UpdateQ(Lessons(q, s, a, reward, next, n - 1), s, a, reward, next)
  }

  /** A lesson repeated often enough brings the cell within 9 of its target, and leaves it there. */
  lemma {:induction false} LessonsConverge(q: QTable, s: nat, a: Action, reward: int, next: nat, best: int, discounted: int, n: nat)
    requires s < N_STATES && next < N_STATES && s != next && Greatest(q[next], best) && Part(discounted, 10, 9 * best)
    ensures var q' := Lessons(q, s, a, reward, next, n);
            && q'[next] == q[next]
            && Abs(q'[s].Get(a) - (reward * 100 + discounted)) <= Max(9, Abs(q[s].Get(a) - (reward * 100 + discounted)) - n)
            && forall t, b :: 0 <= t < N_STATES && (t != s || b != a) ==> q'[t].Get(b) == q[t].Get(b)
  {
    hide UpdateQ; hide Greatest; hide Part;
    if n == 0 {
    } else {
      LessonsConverge(q, s, a, reward, next, best, discounted, n - 1);
      var q1 := Lessons(q, s, a, reward, next, n - 1);
      UpdateMoves(q1, s, a, reward, next, best, discounted);
      var q' := UpdateQ(q1, s, a, reward, next);
      SameRow(q'[next], q1[next]);
      Closer(q1[s].Get(a), q'[s].Get(a), reward * 100 + discounted);
    }
  }

  lemma {:induction false} SameRow(r: Row, r': Row)
    requires forall b: Action :: r.Get(b) == r'.Get(b)
    ensures r == r'
  {
    assert r.Get(Noop) == r'.Get(Noop) && r.Get(Encourage) == r'.Get(Encourage);
    assert r.Get(Discourage) == r'.Get(Discourage) && r.Get(PinPush) == r'.Get(PinPush);
  }

  lemma {:induction false} Closer(was: int, v: int, target: int)
    requires Part(v - was, 10, target - was)
    ensures Abs(v - target) <= Max(9, Abs(was - target) - 1)
  {
  }

  // ---------- actions and rewards ----------

  /** Below the exploration percentage the second draw decides; else the first action of greatest value. */
  lemma {:induction false} SelectMeaning(row: Row, epsilon: nat, d: Draw, b: Action)
    ensures var a := SelectAction(row, epsilon, d);
            if d.r % 100 < epsilon then Index(a) == d.r2 % 4
            else row.Get(a) >= row.Get(b) && (row.Get(b) == row.Get(a) ==> Index(a) <= Index(b))
  {
    GreedyIsFirstBest(row, b);
  }

  /** A window of 50 or more after one below 5. */
  predicate Burst(delta: nat, prevDelta: nat) { delta >= 50 && prevDelta < 5 }

  /** The rewards, action by action: discouraging pays in a burst, urging pays for steady growth, and more so if a
      channel is open. */
  lemma {:induction false} Rewards(delta: nat, prevDelta: nat, open: bool)
    ensures var noop, enc := Reward(Noop, delta, prevDelta, open), Reward(Encourage, delta, prevDelta, open);
            var dis, pin := Reward(Discourage, delta, prevDelta, open), Reward(PinPush, delta, prevDelta, open);
            && enc == pin
            && (Burst(delta, prevDelta) ==> (noop, enc, dis) == (-3, -8, 10))
            && (!Burst(delta, prevDelta) && delta >= 20 && open ==> (noop, enc, dis) == (5, 12, -2))
            && (!Burst(delta, prevDelta) && delta >= 20 && !open ==> (noop, enc, dis) == (3, 8, -2))
            && (delta < 20 ==> (noop, enc, dis) == (1, 2, 0))
  {
  }

  /** Once every action's value is within 9 of what its reward prescribes, the greedy choice is to discourage exactly in
      bursts, and to urge otherwise. */
  lemma {:induction false} LearnsWhatPays(row: Row, delta: nat, prevDelta: nat, open: bool, later: int)
    requires forall a: Action :: Abs(row.Get(a) - (Reward(a, delta, prevDelta, open) * 100 + later)) <= 9
    ensures Greedy(row) == Discourage <==> Burst(delta, prevDelta)
    ensures Greedy(row) != Noop
  {
    var g := Greedy(row);
    Rewards(delta, prevDelta, open);
    GreedyIsFirstBest(row, Discourage);
    GreedyIsFirstBest(row, Encourage);
    hide Reward; hide Greedy;
    assert Abs(row.Get(Discourage) - (Reward(Discourage, delta, prevDelta, open) * 100 + later)) <= 9;
    assert Abs(row.Get(Encourage) - (Reward(Encourage, delta, prevDelta, open) * 100 + later)) <= 9;
    assert Abs(row.Get(g) - (Reward(g, delta, prevDelta, open) * 100 + later)) <= 9;
  }

  // ---------- counters ----------

  /** Windows with the same traffic, one after the other. */
  function Windows(b: Bayes, delta: nat, n: nat): Bayes { if n == 0 then b else Observe(Windows(b, delta, n - 1), delta) }

  /** Every window with traffic adds a tenth of it to alpha, at least 2 and at most 5, and takes 1 from beta; every quiet
      one takes 3 from alpha and adds 1 to beta. */
  lemma {:induction false} WindowsCount(b: Bayes, delta: nat, n: nat)
    requires 1 <= b.alpha <= 500 && 4 <= b.beta <= 500 && delta / 10 < 0x1_0000_0000
    ensures var b' := Windows(b, delta, n);
            var gain := if delta < 30 then 2 else if delta < 40 then 3 else if delta < 50 then 4 else 5;
            if delta == 0 then b' == Bayes(Max(b.alpha - 3 * n, 1), Min(b.beta + n, 500), b.hotWindows)
            else b' == Bayes(Min(b.alpha + gain * n, 500), Max(b.beta - n, 4), b.hotWindows + n)
  {
    if n == 0 {
    } else {
      WindowsCount(b, delta, n - 1);
    }
  }

  /** With evidence enough to be hot at all, what the decision trees ask for at their three thresholds. */
  lemma {:induction false} TreesAsk(alpha: nat, beta: nat, rate: nat, cold: nat, trend: int)
    requires alpha >= 10 && cold < 2
    ensures var score := Gbdt(alpha, beta, rate, cold, trend);
            && (score >= 220 <==>
                  cold == 0 || beta <= 5 || (rate >= 15 && alpha >= 12) || (alpha >= 20 && (beta < 10 || alpha >= 25)))
            && (score >= 300 <==>
                  if cold == 0 then rate >= 15 || beta <= 5 || alpha >= 25
                  else (rate >= 15 && (alpha >= 20 || beta <= 5)) || (alpha >= 20 && beta <= 5))
            && (score >= 380 <==>
                  if cold == 0 then rate >= 30 || beta <= 5 || (rate >= 15 && (beta < 10 || alpha >= 25))
                  else rate >= 15 && ((alpha >= 12 && beta <= 5) || alpha >= 25))
  {
  }
}
