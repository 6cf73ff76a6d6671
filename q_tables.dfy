/**
 * The action-value table and the pure rules the tabular learners share:
 * greedy tie sets, state values, exploration probabilities, action choice
 * from random draws, and the three update rules as functions on tables.
 */
module QTables {
  import opened Common

  /** One state's action values. */
  datatype Row = Row(up: real, down: real, left: real, right: real)
  {
    function Get(a: Action): real
    {
      match a
      case Up => up
      case Down => down
      case Left => left
      case Right => right
    }

    function Set(a: Action, v: real): (r: Row)
      ensures r.Get(a) == v
      ensures forall b :: b != a ==> r.Get(b) == Get(b)
    {
      match a
      case Up => this.(up := v)
      case Down => this.(down := v)
      case Left => this.(left := v)
      case Right => this.(right := v)
    }
  }

  const ZeroRow := Row(0.0, 0.0, 0.0, 0.0)

  /** The Q-table, keyed by state. */
  type Table = map<Pos, Row>

  /** The row a lookup sees once the state is initialised: a missing row reads as zeros. */
  function RowOf(q: Table, s: Pos): Row
  {
    if s in q then q[s] else ZeroRow
  }

  /** `ensureStateInitialized` on a table value: add a zero row when the state has none. */
  function Init(q: Table, s: Pos): (r: Table)
    ensures s in r && r[s] == RowOf(q, s)
    ensures r.Keys == q.Keys + {s}
    ensures forall t :: t in q ==> r[t] == q[t]
    ensures forall t :: RowOf(r, t) == RowOf(q, t)
  {
    if s in q then q else q[s := ZeroRow]
  }

  /** Initialising a state twice is initialising it once, and an existing row is never overwritten. */
  lemma InitIsIdempotent(q: Table, s: Pos)
    ensures Init(Init(q, s), s) == Init(q, s)
    ensures s in q ==> Init(q, s) == q
  {
  }

  /** The table `initializeTables(n)` builds: a zero row for every grid state and nothing else. */
  ghost predicate IsZeroTable(q: Table, n: int)
  {
    (forall s :: s in q <==> InBounds(s, n)) &&
    (forall s :: s in q ==> q[s] == ZeroRow)
  }

  function RealMax(a: real, b: real): real
  {
    if a >= b then a else b
  }

  /** The state value: the largest of the four action values. */
  function MaxQ(row: Row): (m: real)
    ensures forall a :: row.Get(a) <= m
    ensures row.Get(ArgMax(row)) == m
  {
    RealMax(RealMax(row.up, row.down), RealMax(row.left, row.right))
  }

  /** An action holding the maximum. */
  function ArgMax(row: Row): Action
  {
    if row.up >= row.down && row.up >= row.left && row.up >= row.right then Up
    else if row.down >= row.left && row.down >= row.right then Down
    else if row.left >= row.right then Left
    else Right
  }

  lemma AllInActions()
    ensures forall a :: a in Actions
  {
    forall a ensures a in Actions {
      assert Actions[Index(a)] == a;
    }
  }

  /** A freshly initialised state has value 0 and all four actions tie. */
  lemma ZeroRowValue()
    ensures MaxQ(ZeroRow) == 0.0
    ensures Best(ZeroRow) == Actions
  {
    assert MaxQ(ZeroRow) == 0.0;
    TiesAll(ZeroRow, Actions, 0.0);
  }

  /** Actions listed in strictly increasing `Index` order (so also without repeats). */
  predicate Ordered(s: seq<Action>)
  {
    forall i, j :: 0 <= i < j < |s| ==> Index(s[i]) < Index(s[j])
  }

  /** The actions of `acts`, in their order, whose value is `m`. */
  function Ties(row: Row, acts: seq<Action>, m: real): (r: seq<Action>)
    ensures forall a :: a in r <==> a in acts && row.Get(a) == m
    ensures |r| <= |acts|
  {
    if acts == [] then []
    else (if row.Get(acts[0]) == m then [acts[0]] else []) + Ties(row, acts[1..], m)
  }

  lemma {:induction false} TiesOrdered(row: Row, acts: seq<Action>, m: real)
    requires Ordered(acts)
    ensures Ordered(Ties(row, acts, m))
  {
    if acts != [] {
      var rest := Ties(row, acts[1..], m);
      TiesOrdered(row, acts[1..], m);
      forall b | b in rest ensures Index(acts[0]) < Index(b) {
        var j :| 0 <= j < |acts[1..]| && acts[1..][j] == b;
        assert acts[j + 1] == b;
      }
    }
  }

  lemma {:induction false} TiesNone(row: Row, acts: seq<Action>, m: real)
    requires forall j :: 0 <= j < |acts| ==> row.Get(acts[j]) < m
    ensures Ties(row, acts, m) == []
  {
    if acts != [] {
      TiesNone(row, acts[1..], m);
    }
  }

  lemma {:induction false} TiesAll(row: Row, acts: seq<Action>, m: real)
    requires forall j :: 0 <= j < |acts| ==> row.Get(acts[j]) == m
    ensures Ties(row, acts, m) == acts
  {
    if acts != [] {
      TiesAll(row, acts[1..], m);
    }
  }

  lemma {:induction false} TiesSnoc(row: Row, acts: seq<Action>, a: Action, m: real)
    ensures Ties(row, acts + [a], m) == Ties(row, acts, m) + (if row.Get(a) == m then [a] else [])
  {
    if acts == [] {
      assert acts + [a] == [a];
    } else {
      assert (acts + [a])[1..] == acts[1..] + [a];
      TiesSnoc(row, acts[1..], a, m);
    }
  }

  /**
   * The greedy tie set: non-empty, in up/down/left/right order, and holding
   * exactly the actions whose value equals the row maximum.
   */
  function Best(row: Row): (r: seq<Action>)
    ensures |r| >= 1
    ensures forall a :: a in r <==> row.Get(a) == MaxQ(row)
    ensures Ordered(r)
  {
    var m := MaxQ(row);
    TiesOrdered(row, Actions, m);
    AllInActions();
    var r := Ties(row, Actions, m);
    assert ArgMax(row) in r;
    r
  }

  /** The first tie holds the maximum, so reading it gives the state value. */
  lemma FirstBestIsMax(row: Row)
    ensures row.Get(Best(row)[0]) == MaxQ(row)
  {
    assert Best(row)[0] in Best(row);
  }

  /** The example `{up:5, down:5, left:3, right:5}` ties on up, down and right. */
  lemma TieExample()
    ensures Best(Row(5.0, 5.0, 3.0, 5.0)) == [Up, Down, Right]
  {
    var row := Row(5.0, 5.0, 3.0, 5.0);
    assert MaxQ(row) == 5.0;
    assert Actions[1..] == [Down, Left, Right];
    assert [Down, Left, Right][1..] == [Left, Right];
    assert [Left, Right][1..] == [Right];
    assert Ties(row, [Right], 5.0) == [Right];
    assert Ties(row, [Left, Right], 5.0) == [Right];
    assert Ties(row, [Down, Left, Right], 5.0) == [Down, Right];
  }

  /** One step of the scan: a larger value restarts the tie list, an equal one joins it. */
  lemma ScanStep(row: Row, i: nat, m: real)
    requires i < |Actions|
    requires forall j :: 0 <= j < i ==> row.Get(Actions[j]) <= m
    ensures var a := Actions[i];
      var ties := Ties(row, Actions[..i], m);
      (row.Get(a) > m ==> Ties(row, Actions[..i + 1], row.Get(a)) == [a]) &&
      (row.Get(a) == m ==> Ties(row, Actions[..i + 1], m) == ties + [a]) &&
      (row.Get(a) < m ==> Ties(row, Actions[..i + 1], m) == ties)
  {
    var a := Actions[i];
    assert Actions[..i + 1] == Actions[..i] + [a];
    TiesSnoc(row, Actions[..i], a, m);
    if row.Get(a) > m {
      TiesNone(row, Actions[..i], row.Get(a));
      TiesSnoc(row, Actions[..i], a, row.Get(a));
    }
  }

  /** `getBestActions`'s scan: keep a running maximum and the actions that reach it. */
  method BestOf(row: Row) returns (best: seq<Action>)
    ensures best == Best(row)
  {
    var maxValue: Option<real> := None;  // the source's -Infinity
    best := [];
    for i := 0 to |Actions|
      invariant i == 0 ==> maxValue.None? && best == []
      invariant i > 0 ==> maxValue.Some?
      invariant i > 0 ==> forall j :: 0 <= j < i ==> row.Get(Actions[j]) <= maxValue.value
      invariant i > 0 ==> exists j :: 0 <= j < i && row.Get(Actions[j]) == maxValue.value
      invariant i > 0 ==> best == Ties(row, Actions[..i], maxValue.value)
    {
      var a := Actions[i];
      var qValue := row.Get(a);
      if maxValue.None? {
        assert Actions[..1] == [a];
        maxValue := Some(qValue);
        best := [a];
      } else {
        ScanStep(row, i, maxValue.value);
        if qValue > maxValue.value {
          maxValue := Some(qValue);
          best := [a];
        } else if qValue == maxValue.value {
          best := best + [a];
        }
      }
    }
    assert Actions[..|Actions|] == Actions;
    ScanFindsMax(row, maxValue.value);
  }

  /** A value that bounds every action and is reached by one is the row maximum. */
  lemma ScanFindsMax(row: Row, v: real)
    requires forall j :: 0 <= j < |Actions| ==> row.Get(Actions[j]) <= v
    requires exists j :: 0 <= j < |Actions| && row.Get(Actions[j]) == v
    ensures v == MaxQ(row)
  {
    assert row.Get(Actions[Index(ArgMax(row))]) <= v;
  }

  /** `getValue`'s scan for the largest action value. */
  method ValueOf(row: Row) returns (v: real)
    ensures v == MaxQ(row)
  {
    var maxQ: Option<real> := None;  // the source's -Infinity
    for i := 0 to |Actions|
      invariant maxQ.None? <==> i == 0
      invariant maxQ.Some? ==> forall j :: 0 <= j < i ==> row.Get(Actions[j]) <= maxQ.value
      invariant maxQ.Some? ==> exists j :: 0 <= j < i && row.Get(Actions[j]) == maxQ.value
    {
      var q := row.Get(Actions[i]);
      if maxQ.None? || q > maxQ.value {
        maxQ := Some(q);
      }
    }
    ScanFindsMax(row, maxQ.value);
    v := maxQ.value;
  }

  /** The exploration strategies; `Other` is any unrecognised strategy name. */
  datatype Strategy = EpsilonGreedy | Softmax | Random | Greedy | Other(name: string)

  /** `getActionProbabilities`: softmax and unknown strategies have no branch and give an empty map. */
  function ActionProbabilities(strategy: Strategy, epsilon: real, row: Row): (p: map<Action, real>)
    ensures strategy == Softmax || strategy.Other? ==> p == map[]
    ensures strategy == EpsilonGreedy || strategy == Random || strategy == Greedy ==>
      forall a :: a in p
  {
    var best := Best(row);
    var k := |best| as real;
    match strategy
    case EpsilonGreedy =>
      map a: Action | a in Actions :: if a in best then (1.0 - epsilon) / k + epsilon / 4.0 else epsilon / 4.0
    case Random =>
      map a: Action | a in Actions :: 1.0 / 4.0
    case Greedy =>
      map a: Action | a in Actions :: if a in best then 1.0 / k else 0.0
    case _ => map[]
  }

  function Total(p: map<Action, real>): real
    requires forall a :: a in p
  {
    p[Up] + p[Down] + p[Left] + p[Right]
  }

  /** 1 when `a` ties for the maximum, else 0. */
  function Tie(row: Row, a: Action): int
  {
    if row.Get(a) == MaxQ(row) then 1 else 0
  }

  /** The number of ties is the number of actions in the tie set. */
  lemma BestCount(row: Row)
    ensures var best := Best(row);
      |best| == (if Up in best then 1 else 0) + (if Down in best then 1 else 0) +
                (if Left in best then 1 else 0) + (if Right in best then 1 else 0)
  {
    var m := MaxQ(row);
    assert Actions[1..] == [Down, Left, Right];
    assert Actions[2..] == [Left, Right];
    assert Actions[3..] == [Right];
    assert |Ties(row, [Right], m)| == if row.Get(Right) == m then 1 else 0;
    assert |Ties(row, [Left, Right], m)| == (if row.Get(Left) == m then 1 else 0) + |Ties(row, [Right], m)|;
    assert |Ties(row, [Down, Left, Right], m)| == (if row.Get(Down) == m then 1 else 0) + |Ties(row, [Left, Right], m)|;
    assert |Ties(row, Actions, m)| == (if row.Get(Up) == m then 1 else 0) + |Ties(row, [Down, Left, Right], m)|;
  }

  /** Four entries, k of them `hi` and the rest `lo`, add up to k * hi + (4 - k) * lo. */
  lemma MixedSum(t1: bool, t2: bool, t3: bool, t4: bool, hi: real, lo: real)
    ensures var k := (if t1 then 1 else 0) + (if t2 then 1 else 0) + (if t3 then 1 else 0) + (if t4 then 1 else 0);
      (if t1 then hi else lo) + (if t2 then hi else lo) + (if t3 then hi else lo) + (if t4 then hi else lo)
      == k as real * hi + (4 - k) as real * lo
  {
  }

  /** A probability map giving `hi` to the actions of `best` and `lo` to the rest. */
  lemma MixedTotal(p: map<Action, real>, best: seq<Action>, hi: real, lo: real)
    requires forall a :: a in p && p[a] == if a in best then hi else lo
    ensures var k := (if Up in best then 1 else 0) + (if Down in best then 1 else 0) +
                     (if Left in best then 1 else 0) + (if Right in best then 1 else 0);
      Total(p) == k as real * hi + (4 - k) as real * lo
  {
    MixedSum(Up in best, Down in best, Left in best, Right in best, hi, lo);
  }

  /** The epsilon-greedy mass: k ties at (1-eps)/k + eps/4 and 4-k others at eps/4 make 1. */
  lemma EpsilonMass(k: int, epsilon: real)
    requires 1 <= k <= 4
    ensures k as real * ((1.0 - epsilon) / k as real + epsilon / 4.0) + (4 - k) as real * (epsilon / 4.0) == 1.0
  {
    if k == 1 {} else if k == 2 {} else if k == 3 {} else {}
  }

  /**
   * Epsilon-greedy gives each tie (1-eps)/|best| + eps/4 and the rest eps/4;
   * for 0 <= eps <= 1 these are probabilities that add up to 1.
   */
  lemma EpsilonGreedyIsDistribution(epsilon: real, row: Row)
    requires 0.0 <= epsilon <= 1.0
    ensures var p := ActionProbabilities(EpsilonGreedy, epsilon, row);
      Total(p) == 1.0 && forall a :: 0.0 <= p[a] <= 1.0
  {
    EpsilonEntries(epsilon, row);
    BestCount(row);
    EpsilonShares(ActionProbabilities(EpsilonGreedy, epsilon, row), Best(row), epsilon);
  }

  /** The epsilon-greedy shares over any tie list of one to four actions. */
  lemma EpsilonShares(p: map<Action, real>, best: seq<Action>, epsilon: real)
    requires 0.0 <= epsilon <= 1.0 && 1 <= |best|
    requires |best| == (if Up in best then 1 else 0) + (if Down in best then 1 else 0) +
                       (if Left in best then 1 else 0) + (if Right in best then 1 else 0)
    requires forall a :: a in p && p[a] == if a in best then (1.0 - epsilon) / |best| as real + epsilon / 4.0 else epsilon / 4.0
    ensures Total(p) == 1.0 && forall a :: 0.0 <= p[a] <= 1.0
  {
    var k := |best|;
    MixedTotal(p, best, (1.0 - epsilon) / k as real + epsilon / 4.0, epsilon / 4.0);
    EpsilonMass(k, epsilon);
    ShareBounds(k, epsilon);
  }

  lemma ShareBounds(k: int, epsilon: real)
    requires 1 <= k <= 4 && 0.0 <= epsilon <= 1.0
    ensures 0.0 <= (1.0 - epsilon) / k as real <= 1.0 - epsilon
  {
    if k == 1 {} else if k == 2 {} else if k == 3 {} else {}
  }

  lemma EpsilonEntries(epsilon: real, row: Row)
    ensures var p := ActionProbabilities(EpsilonGreedy, epsilon, row);
      var best := Best(row);
      forall a :: a in p && p[a] == if a in best then (1.0 - epsilon) / |best| as real + epsilon / 4.0 else epsilon / 4.0
  {
    AllInActions();
  }

  /** Greedy spreads probability 1 evenly over the ties and gives 0 elsewhere. */
  lemma GreedyIsDistribution(row: Row)
    ensures var p := ActionProbabilities(Greedy, 0.0, row);
      Total(p) == 1.0 &&
      (forall a :: p[a] == if a in Best(row) then 1.0 / |Best(row)| as real else 0.0)
  {
    BestCount(row);
    AllInActions();
    GreedyShares(ActionProbabilities(Greedy, 0.0, row), Best(row));
  }

  /** Even shares over any tie list of one to four actions add up to 1. */
  lemma GreedyShares(p: map<Action, real>, best: seq<Action>)
    requires 1 <= |best|
    requires |best| == (if Up in best then 1 else 0) + (if Down in best then 1 else 0) +
                       (if Left in best then 1 else 0) + (if Right in best then 1 else 0)
    requires forall a :: a in p && p[a] == if a in best then 1.0 / |best| as real else 0.0
    ensures Total(p) == 1.0
  {
    MixedTotal(p, best, 1.0 / |best| as real, 0.0);
    EvenShare(|best|);
  }

  lemma EvenShare(k: int)
    requires 1 <= k <= 4
    ensures k as real * (1.0 / k as real) + (4 - k) as real * 0.0 == 1.0
  {
    if k == 1 {} else if k == 2 {} else if k == 3 {} else {}
  }

  /** Random gives 1/4 to each action. */
  lemma RandomIsUniform(epsilon: real, row: Row)
    ensures var p := ActionProbabilities(Random, epsilon, row);
      Total(p) == 1.0 && forall a :: p[a] == 0.25
  {
    AllInActions();
  }

  /** The successive values of `Math.random()` one action choice may consume. */
  datatype Draws = Draws(first: real, second: real)

  predicate ValidDraws(d: Draws)
  {
    0.0 <= d.first < 1.0 && 0.0 <= d.second < 1.0
  }

  /** `list[Math.floor(u * list.length)]` for a draw `u` in [0, 1). */
  function Pick(list: seq<Action>, u: real): (a: Action)
    requires |list| > 0 && 0.0 <= u < 1.0
    ensures a in list
  {
    var k := |list| as real;
    assert u * k < k;
    list[(u * k).Floor]
  }

  /** Every element of the list is picked by some draw. */
  lemma PickReachesAll(list: seq<Action>, i: nat)
    requires i < |list|
    ensures var u := i as real / |list| as real;
      0.0 <= u < 1.0 && Pick(list, u) == list[i]
  {
    var k := |list| as real;
    DivBelowOne(i as real, k);
    assert (i as real / k * k).Floor == i;
  }

  /** A quotient of a non-negative number by a larger one lies in [0, 1) and multiplies back. */
  lemma DivBelowOne(x: real, k: real)
    requires 0.0 <= x < k
    ensures 0.0 <= x / k < 1.0 && (x / k) * k == x
  {
  }

  /**
   * `chooseAction` from the draws: epsilon-greedy compares the first draw with
   * eps and picks uniformly among all actions or among the ties with the second;
   * random and greedy use the first draw; an unknown strategy falls back to
   * greedy; softmax throws (it reads an undefined `effectiveBeta`).
   */
  function Choose(strategy: Strategy, epsilon: real, row: Row, d: Draws): (r: Result<Action>)
    requires ValidDraws(d)
    ensures r.Fail? <==> strategy == Softmax
    ensures strategy == Greedy || strategy.Other? ==> r.Ok? && r.value in Best(row)
    ensures strategy == EpsilonGreedy && d.first >= epsilon ==> r.Ok? && r.value in Best(row)
    ensures strategy == EpsilonGreedy && d.first < epsilon ==> r == Ok(Pick(Actions, d.second))
    ensures strategy == Random ==> r == Ok(Pick(Actions, d.first))
  {
    match strategy
    case EpsilonGreedy =>
      if d.first < epsilon then Ok(Pick(Actions, d.second)) else Ok(Pick(Best(row), d.second))
    case Softmax => Fail("effectiveBeta is not defined")
    case Random => Ok(Pick(Actions, d.first))
    case Greedy => Ok(Pick(Best(row), d.first))
    case Other(_) => Ok(Pick(Best(row), d.first))
  }

  /** Under the random strategy every action is chosen by some draw. */
  lemma RandomReachesEveryAction(epsilon: real, row: Row, a: Action)
    ensures exists d :: ValidDraws(d) && Choose(Random, epsilon, row, d) == Ok(a)
  {
    PickReachesAll(Actions, Index(a));
    var d := Draws(Index(a) as real / 4.0, 0.0);
    assert Choose(Random, epsilon, row, d) == Ok(a);
  }

  /** Under the greedy strategy every tie is chosen by some draw (uniform tie-breaking). */
  lemma GreedyReachesEveryTie(row: Row, a: Action)
    requires a in Best(row)
    ensures exists d :: ValidDraws(d) && Choose(Greedy, 0.0, row, d) == Ok(a)
  {
    var best := Best(row);
    var i :| 0 <= i < |best| && best[i] == a;
    PickReachesAll(best, i);
    var d := Draws(i as real / |best| as real, 0.0);
    assert Choose(Greedy, 0.0, row, d) == Ok(a);
  }

  lemma MulNonneg(a: real, b: real)
    requires 0.0 <= a && 0.0 <= b
    ensures 0.0 <= a * b
  {
  }

  /** `current + alpha * (target - current)`. */
  function Blend(current: real, alpha: real, target: real): real
  {
    current + alpha * (target - current)
  }

  /** For a learning rate in [0, 1] the new value lies between the current value and the target. */
  lemma BlendBetween(current: real, alpha: real, target: real)
    requires 0.0 <= alpha <= 1.0
    ensures current <= target ==> current <= Blend(current, alpha, target) <= target
    ensures target <= current ==> target <= Blend(current, alpha, target) <= current
  {
    var d := target - current;
    if current <= target {
      MulNonneg(alpha, d);
      MulNonneg(1.0 - alpha, d);
    } else {
      MulNonneg(alpha, -d);
      MulNonneg(1.0 - alpha, -d);
    }
  }

  /** Moves `Q[s][a]` towards `target`; every other entry keeps its value. */
  function Update(q: Table, s: Pos, a: Action, alpha: real, target: real): (r: Table)
    ensures r.Keys == q.Keys + {s}
    ensures RowOf(r, s).Get(a) == Blend(RowOf(q, s).Get(a), alpha, target)
    ensures forall t, b :: t != s || b != a ==> RowOf(r, t).Get(b) == RowOf(q, t).Get(b)
  {
    var row := RowOf(q, s);
    q[s := row.Set(a, Blend(row.Get(a), alpha, target))]
  }

  /** On an initialised state the update is a write of one entry. */
  lemma UpdateInPlace(q: Table, s: Pos, a: Action, alpha: real, target: real)
    requires s in q
    ensures Update(q, s, a, alpha, target) == q[s := q[s].Set(a, Blend(q[s].Get(a), alpha, target))]
  {
  }

  /** A reward followed by a discounted value: `r + gamma * v`. */
  function Discounted(reward: real, gamma: real, v: real): real
  {
    reward + gamma * v
  }

  /** The Q-learning target `r + gamma * max_a' Q[s'][a']`. */
  function QLearningTarget(q: Table, reward: real, gamma: real, next: Pos): real
  {
    Discounted(reward, gamma, MaxQ(RowOf(q, next)))
  }

  /** The SARSA target `r + gamma * Q[s'][a']` for the next action actually chosen. */
  function SarsaTarget(q: Table, reward: real, gamma: real, next: Pos, nextAction: Action): real
  {
    Discounted(reward, gamma, RowOf(q, next).Get(nextAction))
  }

  /**
   * On initialised states the Q-learning update is a write of one entry,
   * towards the value of the first tie of the next state.
   */
  lemma QLearningInPlace(q: Table, s: Pos, a: Action, alpha: real, reward: real, gamma: real, next: Pos, b: Action)
    requires s in q && next in q && b == Best(q[next])[0]
    ensures Update(q, s, a, alpha, QLearningTarget(q, reward, gamma, next))
         == q[s := q[s].Set(a, Blend(q[s].Get(a), alpha, Discounted(reward, gamma, q[next].Get(b))))]
  {
    FirstBestIsMax(q[next]);
    UpdateInPlace(q, s, a, alpha, QLearningTarget(q, reward, gamma, next));
  }

  /** The example: alpha 0.5, gamma 0.9, zero table, reward 10 gives 5.0. */
  lemma QLearningExample(s: Pos, next: Pos)
    ensures var q := Update(map[], s, Right, 0.5, QLearningTarget(map[], 10.0, 0.9, next));
      RowOf(q, s).Get(Right) == 5.0
  {
    assert MaxQ(ZeroRow) == 0.0;
  }

  /** A step of a Monte-Carlo episode trajectory. */
  datatype Visit = Visit(state: Pos, action: Action, reward: real)

  /** The discounted return from the first visit on: `G = r + gamma * G'`. */
  function Return(t: seq<Visit>, gamma: real): (g: real)
    ensures 0.0 <= gamma && (forall i :: 0 <= i < |t| ==> 0.0 <= t[i].reward) ==> 0.0 <= g
  {
    if t == [] then 0.0 else Discounted(t[0].reward, gamma, Return(t[1..], gamma))
  }

  /** Some visit from index `k` on is of action `a` in state `s`. */
  predicate Visits(t: seq<Visit>, k: nat, s: Pos, a: Action)
  {
    exists i :: k <= i < |t| && t[i].state == s && t[i].action == a
  }

  /**
   * The table after replaying the visits from the last down to index k, each
   * moved towards the discounted return from that visit on.
   */
  function Replay(q: Table, t: seq<Visit>, k: nat, alpha: real, gamma: real): (r: Table)
    requires k <= |t|
    ensures forall s, a :: !Visits(t, k, s, a) ==> RowOf(r, s).Get(a) == RowOf(q, s).Get(a)
    decreases |t| - k
  {
    if k == |t| then q
    else Update(Replay(q, t, k + 1, alpha, gamma), t[k].state, t[k].action, alpha, Return(t[k..], gamma))
  }

  /** The example: gamma 0.5 and rewards 1, 2, 3 give targets 2.75, 3.5 and 3. */
  lemma ReturnExample(s: Pos, a: Action)
    ensures var t := [Visit(s, a, 1.0), Visit(s, a, 2.0), Visit(s, a, 3.0)];
      Return(t[2..], 0.5) == 3.0 && Return(t[1..], 0.5) == 3.5 && Return(t, 0.5) == 2.75
  {
    var t := [Visit(s, a, 1.0), Visit(s, a, 2.0), Visit(s, a, 3.0)];
    assert t[2..][1..] == [];
    assert t[1..][1..] == t[2..];
    assert Return(t[2..], 0.5) == 3.0;
    assert Return(t[1..], 0.5) == 3.5;
  }

  /** Every value of the row lies in [-bound, bound]. */
  predicate RowBounded(row: Row, bound: real)
  {
    forall a :: -bound <= row.Get(a) <= bound
  }

  /** Every value of the table lies in [-bound, bound]. */
  predicate Bounded(q: Table, bound: real)
  {
    forall s :: s in q ==> RowBounded(q[s], bound)
  }

  /** Rewards small enough for the bound: |r| <= (1 - gamma) * bound. */
  predicate RewardFits(reward: real, gamma: real, bound: real)
  {
    -(1.0 - gamma) * bound <= reward <= (1.0 - gamma) * bound
  }

  lemma TargetFits(reward: real, gamma: real, bound: real, v: real)
    requires 0.0 <= gamma <= 1.0 && 0.0 <= bound
    requires RewardFits(reward, gamma, bound) && -bound <= v <= bound
    ensures -bound <= Discounted(reward, gamma, v) <= bound
  {
    MulNonneg(gamma, bound - v);
    MulNonneg(gamma, v + bound);
  }

  /** An update towards a target within the bound keeps a bounded table bounded. */
  lemma UpdateKeepsBound(q: Table, s: Pos, a: Action, alpha: real, target: real, bound: real)
    requires 0.0 <= alpha <= 1.0 && 0.0 <= bound
    requires Bounded(q, bound) && -bound <= target <= bound
    ensures Bounded(Update(q, s, a, alpha, target), bound)
  {
    var r := Update(q, s, a, alpha, target);
    assert RowBounded(RowOf(q, s), bound);
    BlendBetween(RowOf(q, s).Get(a), alpha, target);
    forall t | t in r ensures RowBounded(r[t], bound) {
      assert r[t] == RowOf(r, t);
      if t != s {
        assert RowOf(r, t) == RowOf(q, t);
      }
    }
  }

  /**
   * With alpha in [0, 1], gamma in [0, 1] and |r| <= (1 - gamma) * B, the
   * Q-learning update keeps every table value in [-B, B].
   */
  lemma QLearningKeepsBound(q: Table, s: Pos, a: Action, reward: real, next: Pos,
                            alpha: real, gamma: real, bound: real)
    requires 0.0 <= alpha <= 1.0 && 0.0 <= gamma <= 1.0 && 0.0 <= bound
    requires Bounded(q, bound) && RewardFits(reward, gamma, bound)
    ensures var q1 := Init(Init(q, s), next);
      Bounded(Update(q1, s, a, alpha, QLearningTarget(q1, reward, gamma, next)), bound)
  {
    var q1 := InitBoth(q, s, next, bound);
    QLearningTargetFits(q1, reward, gamma, next, bound);
    UpdateKeepsBound(q1, s, a, alpha, QLearningTarget(q1, reward, gamma, next), bound);
  }

  /** The same bound for the SARSA update, whatever next action was chosen. */
  lemma SarsaKeepsBound(q: Table, s: Pos, a: Action, reward: real, next: Pos, nextAction: Action,
                        alpha: real, gamma: real, bound: real)
    requires 0.0 <= alpha <= 1.0 && 0.0 <= gamma <= 1.0 && 0.0 <= bound
    requires Bounded(q, bound) && RewardFits(reward, gamma, bound)
    ensures var q1 := Init(Init(q, s), next);
      Bounded(Update(q1, s, a, alpha, SarsaTarget(q1, reward, gamma, next, nextAction)), bound)
  {
    var q1 := InitBoth(q, s, next, bound);
    SarsaTargetFits(q1, reward, gamma, next, nextAction, bound);
    UpdateKeepsBound(q1, s, a, alpha, SarsaTarget(q1, reward, gamma, next, nextAction), bound);
  }

  lemma QLearningTargetFits(q: Table, reward: real, gamma: real, next: Pos, bound: real)
    requires 0.0 <= gamma <= 1.0 && 0.0 <= bound
    requires RowBounded(RowOf(q, next), bound) && RewardFits(reward, gamma, bound)
    ensures -bound <= QLearningTarget(q, reward, gamma, next) <= bound
  {
    MaxQBounded(RowOf(q, next), bound);
    TargetFits(reward, gamma, bound, MaxQ(RowOf(q, next)));
  }

  lemma SarsaTargetFits(q: Table, reward: real, gamma: real, next: Pos, nextAction: Action, bound: real)
    requires 0.0 <= gamma <= 1.0 && 0.0 <= bound
    requires RowBounded(RowOf(q, next), bound) && RewardFits(reward, gamma, bound)
    ensures -bound <= SarsaTarget(q, reward, gamma, next, nextAction) <= bound
  {
    TargetFits(reward, gamma, bound, RowOf(q, next).Get(nextAction));
  }

  lemma InitBoth(q: Table, s: Pos, next: Pos, bound: real) returns (q1: Table)
    requires Bounded(q, bound) && 0.0 <= bound
    ensures q1 == Init(Init(q, s), next)
    ensures Bounded(q1, bound) && RowBounded(RowOf(q1, next), bound)
  {
    InitKeepsBound(q, s, bound);
    InitKeepsBound(Init(q, s), next, bound);
    q1 := Init(Init(q, s), next);
    assert RowOf(q1, next) == q1[next];
  }

  lemma MaxQBounded(row: Row, bound: real)
    requires RowBounded(row, bound)
    ensures -bound <= MaxQ(row) <= bound
  {
    assert row.Get(Up) <= MaxQ(row) == row.Get(ArgMax(row));
  }

  lemma InitKeepsBound(q: Table, s: Pos, bound: real)
    requires Bounded(q, bound) && 0.0 <= bound
    ensures Bounded(Init(q, s), bound)
  {
    assert RowBounded(ZeroRow, bound);
  }

  lemma {:induction false} ReturnFits(t: seq<Visit>, gamma: real, bound: real)
    requires 0.0 <= gamma <= 1.0 && 0.0 <= bound
    requires forall i :: 0 <= i < |t| ==> RewardFits(t[i].reward, gamma, bound)
    ensures -bound <= Return(t, gamma) <= bound
  {
    if t != [] {
      assert forall i :: 0 <= i < |t[1..]| ==> t[1..][i] == t[i + 1];
      ReturnFits(t[1..], gamma, bound);
      TargetFits(t[0].reward, gamma, bound, Return(t[1..], gamma));
    }
  }

  /** The Monte-Carlo replay keeps every table value in [-B, B] under the same conditions. */
  lemma {:induction false} ReplayKeepsBound(q: Table, t: seq<Visit>, k: nat, alpha: real, gamma: real, bound: real)
    requires k <= |t|
    requires 0.0 <= alpha <= 1.0 && 0.0 <= gamma <= 1.0 && 0.0 <= bound
    requires Bounded(q, bound)
    requires forall i :: 0 <= i < |t| ==> RewardFits(t[i].reward, gamma, bound)
    ensures Bounded(Replay(q, t, k, alpha, gamma), bound)
    decreases |t| - k
  {
    if k < |t| {
      ReplayKeepsBound(q, t, k + 1, alpha, gamma, bound);
      assert forall i :: 0 <= i < |t[k..]| ==> t[k..][i] == t[k + i];
      ReturnFits(t[k..], gamma, bound);
      UpdateKeepsBound(Replay(q, t, k + 1, alpha, gamma), t[k].state, t[k].action, alpha,
                       Return(t[k..], gamma), bound);
    }
  }
}
