/** The learning parts of the policy engine: Q-table, reward, state buckets, Bayesian counters, decision trees. */
module PolicyLearning {
  import opened Prelude

  /** Division of signed numbers rounding toward zero. */
  function Div(a: int, b: nat): int
    requires b > 0
  {
    if a >= 0 then a / b else -((-a) / b)
  }

  // ---------- Q-learning ----------

  const N_STATES: nat := 36
  const Q_MIN: int := -20000
  const Q_MAX: int := 12000
  const REWARD_MIN: int := -20
  const REWARD_MAX: int := 12

  datatype Action = Noop | Encourage | Discourage | PinPush

  /** The Q-values of one state. */
  datatype Row = Row(noop: int, encourage: int, discourage: int, pinPush: int) {
    function Get(a: Action): int {
      match a
      case Noop => noop
      case Encourage => encourage
      case Discourage => discourage
      case PinPush => pinPush
    }

    function Set(a: Action, v: int): Row {
      match a
      case Noop => this.(noop := v)
      case Encourage => this.(encourage := v)
      case Discourage => this.(discourage := v)
      case PinPush => this.(pinPush := v)
    }
  }

  type QTable = q: seq<Row> | |q| == N_STATES witness InitialQ()

  function InitialQ(): seq<Row> { seq(N_STATES, _ => Row(10, 0, 0, 0)) }

  function MaxOf(r: Row): int { Max(Max(Max(r.noop, r.encourage), r.discourage), r.pinPush) }

  /** The first action of greatest value. */
  function Greedy(r: Row): Action {
    if r.encourage <= r.noop && r.discourage <= r.noop && r.pinPush <= r.noop then Noop
    else if r.discourage <= r.encourage && r.pinPush <= r.encourage then Encourage
    else if r.pinPush <= r.discourage then Discourage
    else PinPush
  }

  lemma {:induction false} GreedyIsFirstBest(r: Row, a: Action)
    ensures r.Get(Greedy(r)) == MaxOf(r) >= r.Get(a)
    ensures r.Get(a) == MaxOf(r) ==> Index(Greedy(r)) <= Index(a)
  {
  }

  function Index(a: Action): nat {
    match a
    case Noop => 0
    case Encourage => 1
    case Discourage => 2
    case PinPush => 3
  }

  /** Two draws of the generator: explore or not, and where to. */
  datatype Draw = Draw(r: nat, r2: nat)

  function SelectAction(row: Row, epsilon: nat, d: Draw): Action {
    if d.r % 100 < epsilon
    then match d.r2 % 4 case 0 => Noop case 1 => Encourage case 2 => Discourage case _ => PinPush
    else Greedy(row)
  }

  function Target(reward: int, maxNext: int): int { reward * 100 + Div(9 * maxNext, 10) }

  function Bellman(was: int, target: int): int { was + Div(target - was, 10) }

  function UpdateQ(q: QTable, s: nat, a: Action, reward: int, next: nat): QTable
    requires s < N_STATES && next < N_STATES
  {
    q[s := q[s].Set(a, Bellman(q[s].Get(a), Target(reward, MaxOf(q[next]))))]
  }

  predicate InQRange(v: int) { Q_MIN <= v <= Q_MAX }

  predicate RowOk(r: Row) { InQRange(r.noop) && InQRange(r.encourage) && InQRange(r.discourage) && InQRange(r.pinPush) }

  predicate QOk(q: QTable) { forall s :: 0 <= s < N_STATES ==> RowOk(q[s]) }

  /** An update never passes its target. */
  lemma {:induction false} BellmanBetween(was: int, target: int)
    ensures Min(was, target) <= Bellman(was, target) <= Max(was, target)
  {
  }

  /** The bounds are those a reward in [-20, 12] and a discount of 9/10 can reach and no more. */
  lemma {:induction false} TargetInRange(reward: int, maxNext: int)
    requires REWARD_MIN <= reward <= REWARD_MAX && InQRange(maxNext)
    ensures InQRange(Target(reward, maxNext))
    ensures Target(REWARD_MIN, Q_MIN) == Q_MIN && Target(REWARD_MAX, Q_MAX) == Q_MAX
  {
  }

  lemma {:induction false} UpdateKeepsQ(q: QTable, s: nat, a: Action, reward: int, next: nat)
    requires QOk(q) && s < N_STATES && next < N_STATES && REWARD_MIN <= reward <= REWARD_MAX
    ensures QOk(UpdateQ(q, s, a, reward, next))
    ensures forall t, b :: 0 <= t < N_STATES && (t != s || b != a) ==> UpdateQ(q, s, a, reward, next)[t].Get(b) == q[t].Get(b)
  {
    assert RowOk(q[next]) && RowOk(q[s]);
    TargetInRange(reward, MaxOf(q[next]));
    BellmanBetween(q[s].Get(a), Target(reward, MaxOf(q[next])));
    hide Target; hide Bellman; hide MaxOf;
  }

  function StateIdx(alpha: nat, rate: nat, cold: nat): (s: nat)
    ensures s < N_STATES
  {
    var ab := if alpha >= 25 then 3 else if alpha >= 10 then 2 else if alpha >= 3 then 1 else 0;
    var rb := if rate >= 21 then 2 else if rate >= 6 then 1 else 0;
    var cb := if cold >= 2 then 2 else cold;
    ab * 9 + rb * 3 + cb
  }

  /** Two situations share a state exactly when they share all three buckets. */
  lemma {:induction false} StateIdxSeparates(a: nat, r: nat, c: nat, a': nat, r': nat, c': nat)
    ensures StateIdx(a, r, c) == StateIdx(a', r', c') <==>
              && (a >= 3 <==> a' >= 3) && (a >= 10 <==> a' >= 10) && (a >= 25 <==> a' >= 25)
              && (r >= 6 <==> r' >= 6) && (r >= 21 <==> r' >= 21)
              && (c >= 1 <==> c' >= 1) && (c >= 2 <==> c' >= 2)
  {
  }

  /** States are numbered from the least evidence, rate and cold windows up. */
  lemma {:induction false} StateIdxMonotone(a: nat, r: nat, c: nat, a': nat, r': nat, c': nat)
    requires a <= a' && r <= r' && c <= c'
    ensures StateIdx(0, 0, 0) == 0 && StateIdx(a, r, c) <= StateIdx(a', r', c') && StateIdx(25, 21, 2) == 35
  {
  }

  function Reward(action: Action, delta: nat, prevDelta: nat, channelExists: bool): (r: int)
    ensures REWARD_MIN <= r <= REWARD_MAX
  {
    var growing := delta >= 20;
    if growing && prevDelta < 5 && delta >= 50 then
      match action
      case Discourage => 10
      case Noop => -3
      case _ => -8
    else
      match action
      case Noop => if growing && channelExists then 5 else if growing then 3 else 1
      case Discourage => if growing then -2 else 0
      case _ => if growing && channelExists then 12 else if growing then 8 else 2
  }

  // ---------- Bayesian counters ----------

  const BAYES_MAX: nat := 500
  const PRIOR_ALPHA: nat := 1
  const PRIOR_BETA: nat := 4
  const HOT_SCORE: nat := 650

  /** alpha, beta, and (not in the program) the windows with traffic counted into them. */
  datatype Bayes = Bayes(alpha: nat, beta: nat, hotWindows: nat)

  const Prior: Bayes := Bayes(PRIOR_ALPHA, PRIOR_BETA, 0)

  function Gain(delta: nat): nat { Min(Max(delta / 10 % 0x1_0000_0000, 2), 5) }

  function Observe(b: Bayes, delta: nat): Bayes {
    if delta > 0 then Bayes(Min(b.alpha + Gain(delta), BAYES_MAX), Max(b.beta - 1, PRIOR_BETA), b.hotWindows + 1)
    else Bayes(Max(b.alpha - 3, PRIOR_ALPHA), Min(b.beta + 1, BAYES_MAX), b.hotWindows)
  }

  function Score(b: Bayes): nat { b.alpha * 1000 / (b.alpha + b.beta + 1) }

  predicate BayesOk(b: Bayes) {
    && PRIOR_ALPHA <= b.alpha <= BAYES_MAX && PRIOR_BETA <= b.beta <= BAYES_MAX
    && b.alpha <= PRIOR_ALPHA + 5 * b.hotWindows
  }

  lemma {:induction false} ObserveKeepsBayes(b: Bayes, delta: nat)
    requires BayesOk(b)
    ensures BayesOk(Observe(b, delta))
  {
  }

  /** A hot score needs alpha above 9, hence two windows with traffic. */
  lemma {:induction false} HotNeedsTwoWindows(b: Bayes)
    requires BayesOk(b) && Score(b) >= HOT_SCORE
    ensures b.hotWindows >= 2
  {
    var a, d := b.alpha, b.alpha + b.beta + 1;
    assert a * 1000 >= HOT_SCORE * d by { assert a * 1000 / d * d <= a * 1000; ProductAtLeast(a * 1000 / d, HOT_SCORE, d); }
  }

  lemma {:induction false} ProductAtLeast(x: nat, y: nat, d: nat)
    requires x >= y
    ensures x * d >= y * d
  {
  }

  /** The score reaches `t` exactly when alpha's share of alpha + beta + 1 is `t` parts in a thousand. */
  lemma {:induction false} ScoreIff(b: Bayes, t: nat)
    ensures Score(b) >= t <==> b.alpha * 1000 >= t * (b.alpha + b.beta + 1)
  {
    var d := b.alpha + b.beta + 1;
    var x := b.alpha * 1000 / d;
    assert x * d <= b.alpha * 1000 < x * d + d;
    if x >= t {
      ProductAtLeast(x, t, d);
    } else {
      ProductAtLeast(t, x + 1, d);
    }
  }

  /** Two windows of heavy traffic are enough: the bound is exact. */
  lemma {:induction false} TwoWindowsSuffice(d1: nat, d2: nat)
    requires 50 <= d1 < 0x1_0000_0000 && 50 <= d2 < 0x1_0000_0000
    ensures Score(Observe(Observe(Prior, d1), d2)) >= HOT_SCORE
  {
    assert Gain(d1) == 5 && Gain(d2) == 5;
  }

  // ---------- the decision trees ----------

  function Gbdt(alpha: int, beta: int, rate: int, cold: int, trend: int): int {
    var t1 := if alpha >= 10 then (if cold == 0 then 200 else if alpha >= 20 then 140 else 80)
              else if rate >= 20 then (if alpha >= 5 then 60 else 20) else 0;
    var t2 := if rate >= 15 then (if alpha >= 6 then 160 else if trend == 1 then 80 else 30)
              else if alpha >= 8 then 60 else 0;
    var t3 := if cold >= 2 then -80 else if cold >= 1 then (if alpha >= 12 then 40 else -20)
              else if rate >= 30 then 120 else 40;
    var t4 := if beta <= 5 then (if alpha >= 8 then 100 else 30) else if alpha >= 25 then 50
              else if beta >= 10 then -40 else -10;
    t1 + t2 + t3 + t4
  }

  /** The range of the score, with both ends reached, and what a score of 300 tells about a pair. */
  lemma {:induction false} GbdtRange(alpha: int, beta: int, rate: int, cold: int, trend: int)
    ensures -120 <= Gbdt(alpha, beta, rate, cold, trend) <= 580
    ensures Gbdt(0, 10, 0, 2, 0) == -120 && Gbdt(10, 5, 30, 0, 0) == 580
    ensures Gbdt(alpha, beta, rate, cold, trend) >= 300 ==> alpha >= 6 && (cold < 1 || alpha >= 8)
  {
  }

  /** More traffic evidence never lowers the score of a pair without cold windows, all else equal. */
  lemma {:induction false} GbdtMonotone(alpha: int, alpha': int, beta: int, rate: int, rate': int, cold: int, trend: int)
    requires alpha <= alpha' && rate <= rate'
    ensures Gbdt(alpha, beta, rate, cold, trend) <= Gbdt(alpha', beta, rate', cold, trend)
  {
  }
}
