/**
 * The page's learning driver: one learning-loop tick with its episode
 * bookkeeping, the reward history and its bounded chart buffers, the moving
 * average, and the greedy walk that extracts a path from the learned table.
 */
module Driver {
  import opened Common
  import opened GridWorld
  import opened QTables
  import opened Learners

  const MovingAverageWindow := 20
  const MaxChartPoints := 500

  function Sum(s: seq<real>): real
  {
    if s == [] then 0.0 else s[0] + Sum(s[1..])
  }

  /** The last `min(w, |data|)` entries. */
  function Window(data: seq<real>, w: nat): (r: seq<real>)
    ensures |r| == Min(w, |data|)
    ensures r == data[|data| - |r|..]
  {
    data[Max(0, |data| - w)..]
  }

  /** The arithmetic mean of a non-empty series. */
  function Mean(s: seq<real>): real
    requires s != []
  {
    Sum(s) / |s| as real
  }

  /** `calculateMovingAverage`: 0 for no data, otherwise the mean of the window. */
  function MovingAverage(data: seq<real>, w: nat): real
    requires w >= 1
  {
    if |data| == 0 then 0.0 else Mean(Window(data, w))
  }

  /**
   * No data averages to 0. Otherwise the average is the mean of the latest
   * `min(w, |data|)` entries; while the history fits in the window, that is
   * the mean of all of it.
   */
  lemma MovingAverageIsMean(data: seq<real>, w: nat)
    requires w >= 1
    ensures data == [] ==> MovingAverage(data, w) == 0.0
    ensures data != [] ==> MovingAverage(data, w) == Mean(data[|data| - Min(w, |data|)..])
    ensures 0 < |data| <= w ==> MovingAverage(data, w) == Mean(data)
  {
    if 0 < |data| <= w {
      assert Window(data, w) == data;
    }
  }

  lemma {:induction false} SumBetween(s: seq<real>, lo: real, hi: real)
    requires forall i :: 0 <= i < |s| ==> lo <= s[i] <= hi
    ensures |s| as real * lo <= Sum(s) <= |s| as real * hi
  {
    if s != [] {
      SumBetween(s[1..], lo, hi);
    }
  }

  /** A total between `k` times two bounds gives a mean between the bounds. */
  lemma MeanBetween(s: real, k: real, lo: real, hi: real)
    requires 0.0 < k && k * lo <= s <= k * hi
    ensures lo <= s / k <= hi
  {
    var a := s / k;
    assert a * k == s;
  }

  /** The moving average lies between any bounds of the entries in its window. */
  lemma AverageBetween(data: seq<real>, w: nat, lo: real, hi: real)
    requires w >= 1 && data != []
    requires forall i :: 0 <= i < |Window(data, w)| ==> lo <= Window(data, w)[i] <= hi
    ensures lo <= MovingAverage(data, w) <= hi
  {
    var window := Window(data, w);
    SumBetween(window, lo, hi);
    MeanBetween(Sum(window), |window| as real, lo, hi);
  }

  /** A history whose latest `w` returns are all `c` averages to `c`. */
  lemma AverageOfConstant(data: seq<real>, w: nat, c: real)
    requires w >= 1 && data != []
    requires forall i :: |data| - w <= i < |data| && 0 <= i ==> data[i] == c
    ensures MovingAverage(data, w) == c
  {
    var window := Window(data, w);
    forall i | 0 <= i < |window|
      ensures c <= window[i] <= c
    {
      assert window[i] == data[|data| - |window| + i];
    }
    AverageBetween(data, w, c, c);
  }

  /** The example: the window of 2 over [1, 2, 3] averages 2 and 3. */
  lemma AverageExample()
    ensures MovingAverage([1.0, 2.0, 3.0], 2) == 2.5
  {
    assert Window([1.0, 2.0, 3.0], 2) == [2.0, 3.0];
  }

  /**
   * A chart series after one point: `x` appended, and the oldest point dropped
   * when that puts the series over the cap. A series within the cap grows by
   * one point until it reaches the cap, and always ends with `x`.
   */
  function PushCapped<T>(s: seq<T>, x: T): (r: seq<T>)
    ensures |s| <= MaxChartPoints ==> |r| == Min(|s| + 1, MaxChartPoints)
    ensures r != [] && r[|r| - 1] == x
  {
    var t := s + [x];
    if |t| > MaxChartPoints then t[1..] else t
  }

  /** The capped series is the newest points of the series with `x` appended, in order. */
  lemma PushCappedKeepsNewest<T>(s: seq<T>, x: T)
    ensures |PushCapped(s, x)| <= |s| + 1
    ensures PushCapped(s, x) == (s + [x])[|s| + 1 - |PushCapped(s, x)|..]
  {
  }

  /** The move the greedy policy makes from `p`: the transition of the first tie. */
  function GreedyMove(g: Grid, st: Settings, row: Row, p: Pos, n: int): (m: StepResult)
    requires IsGrid(g, n) && InBounds(p, n)
    ensures InBounds(m.newPos, n)
  {
    TakeAction(g, st, Name(Best(row)[0]), p, n)
  }

  /** The greedy policy as a move function; off the grid, where it is never asked, it stays put. */
  function GreedyPolicy(g: Grid, st: Settings, q: Table, n: int): Pos -> StepResult
    requires IsGrid(g, n)
  {
    p => if InBounds(p, n) then GreedyMove(g, st, RowOf(q, p), p, n) else StepResult(p, 0.0, p, false)
  }

  /** `next` makes the greedy move of `q` from every cell of the grid. */
  ghost predicate ActsAs(next: Pos -> StepResult, g: Grid, st: Settings, q: Table, n: int)
    requires IsGrid(g, n)
  {
    forall p {:trigger GreedyMove(g, st, RowOf(q, p), p, n)} :: InBounds(p, n) ==> next(p) == GreedyMove(g, st, RowOf(q, p), p, n)
  }

  lemma PolicyActsAs(g: Grid, st: Settings, q: Table, n: int)
    requires IsGrid(g, n)
    ensures ActsAs(GreedyPolicy(g, st, q, n), g, st, q, n)
  {
  }

  /** Two move functions acting as the same greedy policy agree on the grid, and stay on it. */
  lemma ActsAsAgree(next: Pos -> StepResult, next': Pos -> StepResult, g: Grid, st: Settings, q: Table, n: int)
    requires IsGrid(g, n) && ActsAs(next, g, st, q, n) && ActsAs(next', g, st, q, n)
    ensures Closed(next, n)
    ensures forall p :: InBounds(p, n) ==> next(p) == next'(p)
  {
    forall p | InBounds(p, n)
      ensures InBounds(next(p).newPos, n) && next(p) == next'(p)
    {
      assert next(p) == GreedyMove(g, st, RowOf(q, p), p, n);
    }
  }

  /** `next` never leaves the grid. */
  ghost predicate Closed(next: Pos -> StepResult, n: int)
  {
    forall p :: InBounds(p, n) ==> InBounds(next(p).newPos, n)
  }

  /**
   * The walk from `cur` with `steps` iterations left and `visited` already
   * seen: stop on a revisit or when out of iterations; record the cell; stop
   * if the move stays put; record the terminal cell and stop if the move ends
   * the episode; otherwise go on from the new cell.
   */
  function Walk(next: Pos -> StepResult, cur: Pos, visited: set<Pos>, steps: nat): (w: seq<Pos>)
    ensures |w| <= steps + 1
    ensures steps >= 1 && cur !in visited ==> |w| >= 1 && w[0] == cur
    decreases steps
  {
    if steps == 0 || cur in visited then []
    else
      var m := next(cur);
      if m.newPos == cur then [cur]
      else if m.done then [cur, m.newPos]
      else [cur] + Walk(next, m.newPos, visited + {cur}, steps - 1)
  }

  /**
   * Why a walk ends at its last cell: the move from it stays put; or it is
   * the cell a terminal move from the cell before reached; or the move from it
   * leads to a cell already seen; or the iterations are used up.
   */
  lemma {:induction false} WalkStops(next: Pos -> StepResult, cur: Pos, visited: set<Pos>, steps: nat)
    requires steps >= 1 && cur !in visited
    ensures var w := Walk(next, cur, visited, steps);
      var last := w[|w| - 1];
      next(last).newPos == last ||
      (|w| >= 2 && next(w[|w| - 2]).done && last == next(w[|w| - 2]).newPos) ||
      next(last).newPos in visited || next(last).newPos in w ||
      |w| == steps
    decreases steps
  {
    var w := Walk(next, cur, visited, steps);
    var m := next(cur);
    if m.newPos != cur && !m.done {
      var rest := Walk(next, m.newPos, visited + {cur}, steps - 1);
      assert w == [cur] + rest;
      if steps - 1 >= 1 && m.newPos !in visited + {cur} {
        WalkStops(next, m.newPos, visited + {cur}, steps - 1);
        assert w[|w| - 1] == rest[|rest| - 1];
        assert |rest| >= 2 ==> w[|w| - 2] == rest[|rest| - 2];
        assert next(rest[|rest| - 1]).newPos in rest ==> next(rest[|rest| - 1]).newPos in w;
      }
    }
  }

  /**
   * Each recorded cell is the move from the one before and differs from it;
   * only the last move can end the episode; every cell but the last is new,
   * so the walk never loops; and every cell is on the grid.
   */
  ghost predicate FollowsMoves(next: Pos -> StepResult, n: int, w: seq<Pos>, visited: set<Pos>)
  {
    (forall i :: 0 <= i < |w| ==> InBounds(w[i], n)) &&
    (forall i :: 0 <= i < |w| - 1 ==> w[i + 1] == next(w[i]).newPos && w[i + 1] != w[i]) &&
    (forall i :: 0 <= i < |w| - 2 ==> !next(w[i]).done) &&
    (forall i :: 0 <= i < |w| - 1 ==> w[i] !in visited) &&
    (forall i, j :: 0 <= i < j < |w| - 1 ==> w[i] != w[j])
  }

  /** A closed move function walks from an on-grid cell along its own moves, without loops. */
  lemma {:induction false} WalkFollowsPolicy(next: Pos -> StepResult, n: int, cur: Pos, visited: set<Pos>, steps: nat)
    requires Closed(next, n) && InBounds(cur, n)
    ensures FollowsMoves(next, n, Walk(next, cur, visited, steps), visited)
    decreases steps
  {
    var w := Walk(next, cur, visited, steps);
    if steps > 0 && cur !in visited {
      var m := next(cur);
      if m.newPos != cur && !m.done {
        var rest := Walk(next, m.newPos, visited + {cur}, steps - 1);
        WalkFollowsPolicy(next, n, m.newPos, visited + {cur}, steps - 1);
        assert FollowsMoves(next, n, rest, visited + {cur});
        assert rest != [] ==> rest[0] == m.newPos;
        assert w == [cur] + rest;
        forall i | 0 <= i < |w| - 1
          ensures w[i + 1] == next(w[i]).newPos && w[i + 1] != w[i]
        {
          if i > 0 {
            assert w[i] == rest[i - 1] && w[i + 1] == rest[i];
          }
        }
        forall i, j | 0 <= i < j < |w| - 1
          ensures w[i] != w[j]
        {
          assert w[j] == rest[j - 1];
          if i > 0 {
            assert w[i] == rest[i - 1];
          }
        }
      }
    }
  }

  /** The walk only asks for moves from cells on the grid, so move functions agreeing there walk alike. */
  lemma {:induction false} WalkAgrees(next: Pos -> StepResult, next': Pos -> StepResult, n: int, cur: Pos, visited: set<Pos>, steps: nat)
    requires Closed(next, n) && InBounds(cur, n)
    requires forall p :: InBounds(p, n) ==> next(p) == next'(p)
    ensures Walk(next, cur, visited, steps) == Walk(next', cur, visited, steps)
    decreases steps
  {
    if steps > 0 && cur !in visited {
      var m := next(cur);
      if m.newPos != cur && !m.done {
        WalkAgrees(next, next', n, m.newPos, visited + {cur}, steps - 1);
      }
    }
  }

  /** The greedy move reads the table only through `RowOf`, so tables that read alike act alike. */
  lemma ActsAsReadsValues(next: Pos -> StepResult, g: Grid, st: Settings, q: Table, q': Table, n: int)
    requires IsGrid(g, n) && ActsAs(next, g, st, q, n)
    requires forall s :: RowOf(q, s) == RowOf(q', s)
    ensures ActsAs(next, g, st, q', n)
  {
    forall p | InBounds(p, n)
      ensures next(p) == GreedyMove(g, st, RowOf(q', p), p, n)
    {
      assert next(p) == GreedyMove(g, st, RowOf(q, p), p, n);
    }
  }

  /**
   * `computeOptimalPathFromStart`: from the start cell follow the first tie
   * of each cell for at most `max(1, maxSteps)` iterations. Reading the tie set
   * fills missing rows with zeros, which changes no value a later read sees.
   */
  method OptimalPath(learner: Learner, g: Grid, st: Settings, start: Pos, n: nat, maxSteps: int)
    returns (path: seq<Pos>)
    requires IsGrid(g, n) && InBounds(start, n)
    modifies learner`q
    ensures forall next :: ActsAs(next, g, st, old(learner.q), n) ==> path == Walk(next, start, {}, Max(1, maxSteps))
    ensures forall s :: RowOf(learner.q, s) == RowOf(old(learner.q), s)
    ensures learner.q.Keys >= old(learner.q).Keys
  {
    ghost var q0 := learner.q;
    // The walk is reasoned about through the moves it asks for, one at a time.
    PolicyActsAs(g, st, q0, n);
    ghost var next: Pos -> StepResult :| ActsAs(next, g, st, q0, n);
    var total := Max(1, maxSteps);
    path := [];
    var visited: set<Pos> := {};
    var cur := start;
    var step := 0;
    while step < total
      invariant 0 <= step <= total
      invariant InBounds(cur, n)
      invariant WalkOnto(next, cur, visited, total - step, path) == WalkOnto(next, start, {}, total, [])
      invariant forall s :: RowOf(learner.q, s) == RowOf(q0, s)
      invariant learner.q.Keys >= q0.Keys
    {
      if cur in visited {
        break;  // loop detected
      }
      ghost var before, seen := path, visited;
      visited := visited + {cur};
      path := path + [cur];
      var m := GreedyStep(learner, g, st, cur, n, next, q0);
      WalkOntoStep(next, cur, seen, total - step, before);
      if m.newPos == cur {
        break;
      }
      cur := m.newPos;
      if m.done {
        path := path + [cur];
        break;  // reached a terminal cell
      }
      assert WalkOnto(next, cur, visited, total - step - 1, path) == WalkOnto(next, start, {}, total, []);
      step := step + 1;
    }
    WalkOntoAppends(next, start, {}, total, []);
    assert [] + Walk(next, start, {}, total) == Walk(next, start, {}, total);
    WalkIsThePolicys(next, g, st, q0, n, start, total);
  }

  /**
   * The move of one iteration of `computeOptimalPathFromStart`: read the tie
   * set of `cur` (filling a missing row with zeros) and take its first action.
   */
  method GreedyStep(learner: Learner, g: Grid, st: Settings, cur: Pos, n: nat, ghost next: Pos -> StepResult, ghost q0: Table)
    returns (m: StepResult)
    requires IsGrid(g, n) && InBounds(cur, n) && ActsAs(next, g, st, q0, n)
    requires forall s :: RowOf(learner.q, s) == RowOf(q0, s)
    modifies learner`q
    ensures m == next(cur) && InBounds(m.newPos, n)
    ensures forall s :: RowOf(learner.q, s) == RowOf(old(learner.q), s)
    ensures learner.q.Keys >= old(learner.q).Keys
  {
    var best := learner.GetBestActions(cur);
    // The source also stops on an empty tie list, which `Best` never is.
    m := TakeAction(g, st, Name(best[0]), cur, n);
    assert m == GreedyMove(g, st, RowOf(q0, cur), cur, n);
  }

  /** The walk appended to the cells `acc` already recorded, in the order the loop records them. */
  function WalkOnto(next: Pos -> StepResult, cur: Pos, visited: set<Pos>, steps: nat, acc: seq<Pos>): (r: seq<Pos>)
    decreases steps
  {
    if steps == 0 || cur in visited then acc
    else
      var m := next(cur);
      if m.newPos == cur then acc + [cur]
      else if m.done then acc + [cur, m.newPos]
      else WalkOnto(next, m.newPos, visited + {cur}, steps - 1, acc + [cur])
  }

  lemma {:induction false} WalkOntoAppends(next: Pos -> StepResult, cur: Pos, visited: set<Pos>, steps: nat, acc: seq<Pos>)
    ensures WalkOnto(next, cur, visited, steps, acc) == acc + Walk(next, cur, visited, steps)
    decreases steps
  {
    if steps > 0 && cur !in visited {
      var m := next(cur);
      if m.newPos != cur && !m.done {
        WalkOntoAppends(next, m.newPos, visited + {cur}, steps - 1, acc + [cur]);
        assert acc + [cur] + Walk(next, m.newPos, visited + {cur}, steps - 1) == acc + ([cur] + Walk(next, m.newPos, visited + {cur}, steps - 1));
      }
    }
  }

  /** One iteration of the loop that records the walk. */
  lemma WalkOntoStep(next: Pos -> StepResult, cur: Pos, visited: set<Pos>, steps: nat, acc: seq<Pos>)
    requires steps > 0 && cur !in visited
    ensures next(cur).newPos == cur ==> WalkOnto(next, cur, visited, steps, acc) == acc + [cur]
    ensures next(cur).newPos != cur && next(cur).done ==>
      WalkOnto(next, cur, visited, steps, acc) == acc + [cur] + [next(cur).newPos]
    ensures next(cur).newPos != cur && !next(cur).done ==>
      WalkOnto(next, cur, visited, steps, acc) == WalkOnto(next, next(cur).newPos, visited + {cur}, steps - 1, acc + [cur])
  {
    assert acc + [cur, next(cur).newPos] == acc + [cur] + [next(cur).newPos];
  }

  /** Every move function acting as the greedy policy walks the same path. */
  lemma WalkIsThePolicys(next: Pos -> StepResult, g: Grid, st: Settings, q: Table, n: int, start: Pos, steps: nat)
    requires IsGrid(g, n) && InBounds(start, n) && ActsAs(next, g, st, q, n)
    ensures forall next' :: ActsAs(next', g, st, q, n) ==> Walk(next', start, {}, steps) == Walk(next, start, {}, steps)
  {
    forall next' | ActsAs(next', g, st, q, n)
      ensures Walk(next', start, {}, steps) == Walk(next, start, {}, steps)
    {
      ActsAsAgree(next, next', g, st, q, n);
      WalkAgrees(next, next', n, start, {}, steps);
    }
  }

  /**
   * The greedy path: 1 to `max(1, maxSteps) + 1` cells from the start, on the
   * grid, each the greedy move from the one before, and no cell but the last
   * repeated.
   */
  lemma GreedyPath(next: Pos -> StepResult, g: Grid, st: Settings, q: Table, start: Pos, n: nat, maxSteps: int)
    requires IsGrid(g, n) && InBounds(start, n) && ActsAs(next, g, st, q, n)
    ensures var path := Walk(next, start, {}, Max(1, maxSteps));
      1 <= |path| <= Max(1, maxSteps) + 1 && path[0] == start &&
      (forall i :: 0 <= i < |path| ==> InBounds(path[i], n)) &&
      (forall i :: 0 <= i < |path| - 1 ==>
        InBounds(path[i], n) && path[i + 1] == GreedyMove(g, st, RowOf(q, path[i]), path[i], n).newPos && path[i + 1] != path[i]) &&
      (forall i, j :: 0 <= i < j < |path| - 1 ==> path[i] != path[j])
  {
    ActsAsAgree(next, next, g, st, q, n);
    WalkFollowsPolicy(next, n, start, {}, Max(1, maxSteps));
  }

  /** An episode ends when the move was terminal or the step count has reached the cap. */
  predicate EpisodeEnds(result: StepReport, steps: int, maxSteps: int)
  {
    result.done || steps >= maxSteps
  }

  /** Entry `i` of the smoothed history is the moving average of the first `i + 1` returns. */
  ghost predicate SmoothedHistory(rewards: seq<real>, smoothed: seq<real>)
  {
    |smoothed| == |rewards| &&
    forall i :: 0 <= i < |rewards| ==> smoothed[i] == MovingAverage(rewards[..i + 1], MovingAverageWindow)
  }

  /** Appending a return and the moving average of the longer history keeps the smoothed history. */
  lemma SmoothedHistoryGrows(rewards: seq<real>, smoothed: seq<real>, x: real)
    requires SmoothedHistory(rewards, smoothed)
    ensures SmoothedHistory(rewards + [x], smoothed + [MovingAverage(rewards + [x], MovingAverageWindow)])
  {
    var r := rewards + [x];
    forall i | 0 <= i < |r|
      ensures (smoothed + [MovingAverage(r, MovingAverageWindow)])[i] == MovingAverage(r[..i + 1], MovingAverageWindow)
    {
      if i < |rewards| {
        assert r[..i + 1] == rewards[..i + 1];
      } else {
        assert r[..i + 1] == r;
      }
    }
  }

  /** The table after `applyMonteCarloUpdates`: Monte Carlo replays its episode; the others keep theirs. */
  function Flushed(kind: Kind, c: Config, q: Table, t: seq<Visit>): Table
  {
    if kind == MonteCarlo then Replay(q, t, 0, c.learningRate, c.discountFactor) else q
  }

  /** `path` is what every greedy move function of `q` walks from `start` in `n * n` iterations. */
  ghost predicate IsGreedyWalk(path: seq<Pos>, g: Grid, st: Settings, q: Table, start: Pos, n: nat)
    requires IsGrid(g, n)
  {
    forall next :: ActsAs(next, g, st, q, n) ==> path == Walk(next, start, {}, Max(1, n * n))
  }

  /**
   * The learner and the path after the end of an episode, from table `q`,
   * trajectory `t`, path `path` and flag `show` before: the episode is
   * flushed into the table (Monte Carlo) and forgotten. Once the budget is
   * used up, the path is the greedy walk of the new table and is shown, and
   * reading the tie sets has only filled rows with zeros; before that the
   * table is the flushed one and the path and its flag are unchanged.
   */
  ghost predicate ClosesEpisode(kind: Kind, c: Config, g: Grid, st: Settings, start: Pos, n: nat, budgetUsed: bool,
    q: Table, t: seq<Visit>, path: Option<seq<Pos>>, show: bool,
    q': Table, t': seq<Visit>, path': Option<seq<Pos>>, show': bool)
    requires IsGrid(g, n)
  {
    var flushed := Flushed(kind, c, q, t);
    t' == (if kind == MonteCarlo then [] else t) &&
    (forall s :: RowOf(q', s) == RowOf(flushed, s)) && q'.Keys >= flushed.Keys &&
    if budgetUsed then show' && path'.Some? && IsGreedyWalk(path'.value, g, st, q', start, n)
    else q' == flushed && path' == path && show' == show
  }

  /** The returns of the finished episodes, their moving averages, and the three chart series. */
  datatype RewardLog = RewardLog(rewards: seq<real>, smoothed: seq<real>,
    labels: seq<int>, smoothedPoints: seq<real>, rawPoints: seq<real>)

  /**
   * The log after episode number `episode` ends with return `ret`: the return
   * and the moving average of the longer history are appended, and each chart
   * series gets one capped point (the episode number, that average, the return).
   */
  ghost predicate RecordsEpisode(log: RewardLog, log': RewardLog, episode: int, ret: real)
  {
    var average := MovingAverage(log.rewards + [ret], MovingAverageWindow);
    log'.rewards == log.rewards + [ret] &&
    log'.smoothed == log.smoothed + [average] &&
    log'.labels == PushCapped(log.labels, episode) &&
    log'.smoothedPoints == PushCapped(log.smoothedPoints, average) &&
    log'.rawPoints == PushCapped(log.rawPoints, ret)
  }

  /** The page state the learning loop reads and writes. */
  class Session {
    const env: Environment
    const manager: Manager
    var gridSize: nat
    var maxStepsPerEpisode: int
    /** The episode budget; 0 means no budget. */
    var maxEpisode: int
    var currentEpisodeSteps: int
    var episodeCounter: int
    var totalRewardForEpisode: real
    var episodicRewards: seq<real>
    var smoothedEpisodicRewards: seq<real>
    var chartLabels: seq<int>
    var chartSmoothed: seq<real>
    var chartRaw: seq<real>
    var isLearning: bool
    var optimalPath: Option<seq<Pos>>
    var showOptimalPath: bool

    /**
     * The learner matches its tag, the agent and the start cell are on the
     * grid, every counted episode has its return, entry `i` of the smoothed
     * history is the moving average of the first `i + 1` returns, and the
     * three chart series are equally long and within the cap.
     */
    ghost predicate Valid()
      reads this, env, manager, manager.current
    {
      manager.Valid() && IsGrid(env.grid, gridSize) &&
      InBounds(env.agentPos, gridSize) && InBounds(env.startPos, gridSize) &&
      currentEpisodeSteps >= 0 &&
      episodeCounter == |episodicRewards| && SmoothedHistory(episodicRewards, smoothedEpisodicRewards) &&
      |chartLabels| == |chartSmoothed| == |chartRaw| <= MaxChartPoints
    }

    /** The reward history and the chart series. */
    function Log(): RewardLog
      reads this`episodicRewards, this`smoothedEpisodicRewards, this`chartLabels, this`chartSmoothed, this`chartRaw
    {
      RewardLog(episodicRewards, smoothedEpisodicRewards, chartLabels, chartSmoothed, chartRaw)
    }

    constructor (env: Environment, manager: Manager, n: nat)
      requires manager.Valid() && IsGrid(env.grid, n) && InBounds(env.agentPos, n) && InBounds(env.startPos, n)
      ensures this.env == env && this.manager == manager && gridSize == n
      ensures maxStepsPerEpisode == 100 && maxEpisode == 0
      ensures currentEpisodeSteps == 0 && episodeCounter == 0 && totalRewardForEpisode == 0.0
      ensures episodicRewards == [] && chartLabels == [] && !isLearning && optimalPath == None && !showOptimalPath
      ensures Valid()
    {
      this.env := env;
      this.manager := manager;
      gridSize := n;
      maxStepsPerEpisode, maxEpisode := 100, 0;
      currentEpisodeSteps, episodeCounter, totalRewardForEpisode := 0, 0, 0.0;
      episodicRewards, smoothedEpisodicRewards := [], [];
      chartLabels, chartSmoothed, chartRaw := [], [], [];
      isLearning := false;
      optimalPath := None;
      showOptimalPath := false;
    }

    /**
     * `updateRewardChart`: append the episode number, the latest average and
     * the latest return, then drop the oldest point of each series once over
     * the cap.
     */
    method UpdateRewardChart()
      requires |chartLabels| == |chartSmoothed| == |chartRaw| <= MaxChartPoints
      requires episodicRewards != [] && smoothedEpisodicRewards != []
      modifies this`chartLabels, this`chartSmoothed, this`chartRaw
      ensures chartLabels == PushCapped(old(chartLabels), episodeCounter)
      ensures chartSmoothed == PushCapped(old(chartSmoothed), smoothedEpisodicRewards[|smoothedEpisodicRewards| - 1])
      ensures chartRaw == PushCapped(old(chartRaw), episodicRewards[|episodicRewards| - 1])
      ensures |chartLabels| == |chartSmoothed| == |chartRaw| <= MaxChartPoints
    {
      var episode, smoothed, raw := episodeCounter, smoothedEpisodicRewards[|smoothedEpisodicRewards| - 1], episodicRewards[|episodicRewards| - 1];
      chartLabels := chartLabels + [episode];
      chartSmoothed := chartSmoothed + [smoothed];
      chartRaw := chartRaw + [raw];
      if |chartLabels| > MaxChartPoints {
        chartLabels := chartLabels[1..];
        chartSmoothed := chartSmoothed[1..];
        chartRaw := chartRaw[1..];
      }
    }

    /**
     * The bookkeeping that opens the end of an episode in `afterStepLogic`:
     * count the episode, record its return and the moving average of the
     * returns, chart them, and reset the step count and the running return.
     */
    method RecordEpisode()
      requires episodeCounter == |episodicRewards| && SmoothedHistory(episodicRewards, smoothedEpisodicRewards)
      requires |chartLabels| == |chartSmoothed| == |chartRaw| <= MaxChartPoints
      modifies this`episodeCounter, this`episodicRewards, this`smoothedEpisodicRewards,
        this`chartLabels, this`chartSmoothed, this`chartRaw, this`totalRewardForEpisode, this`currentEpisodeSteps
      ensures episodeCounter == old(episodeCounter) + 1
      ensures episodicRewards == old(episodicRewards) + [old(totalRewardForEpisode)]
      ensures RecordsEpisode(old(Log()), Log(), episodeCounter, old(totalRewardForEpisode))
      ensures episodeCounter == |episodicRewards| && SmoothedHistory(episodicRewards, smoothedEpisodicRewards)
      ensures chartLabels == PushCapped(old(chartLabels), episodeCounter)
      ensures chartSmoothed == PushCapped(old(chartSmoothed), smoothedEpisodicRewards[|smoothedEpisodicRewards| - 1])
      ensures chartRaw == PushCapped(old(chartRaw), old(totalRewardForEpisode))
      ensures |chartLabels| == |chartSmoothed| == |chartRaw| <= MaxChartPoints
      ensures totalRewardForEpisode == 0.0 && currentEpisodeSteps == 0
    {
      episodeCounter := episodeCounter + 1;
      episodicRewards := episodicRewards + [totalRewardForEpisode];
      var smoothed := MovingAverage(episodicRewards, MovingAverageWindow);
      SmoothedHistoryGrows(old(episodicRewards), smoothedEpisodicRewards, totalRewardForEpisode);
      smoothedEpisodicRewards := smoothedEpisodicRewards + [smoothed];
      UpdateRewardChart();
      totalRewardForEpisode := 0.0;
      currentEpisodeSteps := 0;
    }

    /** `applyMonteCarloUpdates` when the selected algorithm is Monte Carlo, and nothing otherwise. */
    method FlushMonteCarlo()
      requires manager.Valid()
      modifies manager.current`q, manager.current`trajectory
      ensures manager.Valid()
      ensures manager.current.kind == MonteCarlo ==>
        manager.current.trajectory == [] &&
        manager.current.q == Replay(old(manager.current.q), old(manager.current.trajectory), 0,
          manager.current.config.learningRate, manager.current.config.discountFactor)
      ensures manager.current.kind != MonteCarlo ==>
        manager.current.q == old(manager.current.q) && manager.current.trajectory == old(manager.current.trajectory)
    {
      if manager.algorithmType == "monte-carlo" {
        manager.ApplyEpisodeUpdates();
      }
    }

    /**
     * The end of `afterStepLogic` once the episode budget is used up: compute
     * the greedy path from the start over `gridSize * gridSize` iterations,
     * show it, and stop learning; nothing happens before then.
     */
    method FinishIfBudgetUsed()
      requires IsGrid(env.grid, gridSize) && InBounds(env.startPos, gridSize) && manager.Valid()
      modifies this`optimalPath, this`showOptimalPath, this`isLearning, manager.current`q
      ensures manager.Valid()
      ensures isLearning == (old(isLearning) && !(maxEpisode > 0 && episodeCounter >= maxEpisode))
      ensures var budgetUsed := maxEpisode > 0 && episodeCounter >= maxEpisode;
        (budgetUsed ==>
          showOptimalPath && optimalPath.Some? &&
          IsGreedyWalk(optimalPath.value, env.grid, env.Config(), manager.current.q, env.startPos, gridSize)) &&
        (!budgetUsed ==>
          optimalPath == old(optimalPath) && showOptimalPath == old(showOptimalPath) &&
          manager.current.q == old(manager.current.q))
      ensures forall s :: RowOf(manager.current.q, s) == RowOf(old(manager.current.q), s)
      ensures manager.current.q.Keys >= old(manager.current.q).Keys
    {
      if maxEpisode > 0 && episodeCounter >= maxEpisode {
        ghost var q := manager.current.q;
        var path := OptimalPath(manager.current, env.grid, env.Config(), env.startPos, gridSize, gridSize * gridSize);
        forall next | ActsAs(next, env.grid, env.Config(), manager.current.q, gridSize)
          ensures path == Walk(next, env.startPos, {}, Max(1, gridSize * gridSize))
        {
          ActsAsReadsValues(next, env.grid, env.Config(), manager.current.q, q, gridSize);
        }
        optimalPath := Some(path);
        showOptimalPath := true;
        isLearning := false;
      }
    }

    /**
     * The tail of the end of an episode in `afterStepLogic`: flush a
     * Monte-Carlo episode, send the agent back to the start, and finish
     * learning once the episode budget is used up.
     */
    method StartNextEpisode()
      requires IsGrid(env.grid, gridSize) && InBounds(env.startPos, gridSize) && manager.Valid()
      modifies this`optimalPath, this`showOptimalPath, this`isLearning,
        env`agentPos, manager.current`q, manager.current`trajectory
      ensures manager.Valid()
      ensures env.agentPos == env.startPos
      ensures isLearning == (old(isLearning) && !(maxEpisode > 0 && episodeCounter >= maxEpisode))
      ensures ClosesEpisode(manager.current.kind, manager.current.config, env.grid, env.Config(), env.startPos, gridSize,
        maxEpisode > 0 && episodeCounter >= maxEpisode,
        old(manager.current.q), old(manager.current.trajectory), old(optimalPath), old(showOptimalPath),
        manager.current.q, manager.current.trajectory, optimalPath, showOptimalPath)
    {
      FlushMonteCarlo();
      env.ResetAgent();
      FinishIfBudgetUsed();
    }

    /**
     * The end-of-episode part of `afterStepLogic`: record the episode, flush
     * a Monte-Carlo episode, send the agent back to the start, and finish
     * learning once the episode budget is used up.
     */
    method EndEpisode()
      requires Valid()
      modifies this`episodeCounter, this`episodicRewards, this`smoothedEpisodicRewards,
        this`chartLabels, this`chartSmoothed, this`chartRaw, this`totalRewardForEpisode, this`currentEpisodeSteps,
        this`optimalPath, this`showOptimalPath, this`isLearning,
        env`agentPos, manager.current`q, manager.current`trajectory
      ensures Valid()
      ensures episodeCounter == old(episodeCounter) + 1
      ensures episodicRewards == old(episodicRewards) + [old(totalRewardForEpisode)]
      ensures RecordsEpisode(old(Log()), Log(), episodeCounter, old(totalRewardForEpisode))
      ensures totalRewardForEpisode == 0.0 && currentEpisodeSteps == 0
      ensures env.agentPos == env.startPos
      ensures isLearning == (old(isLearning) && !(maxEpisode > 0 && episodeCounter >= maxEpisode))
      ensures ClosesEpisode(manager.current.kind, manager.current.config, env.grid, env.Config(), env.startPos, gridSize,
        maxEpisode > 0 && episodeCounter >= maxEpisode,
        old(manager.current.q), old(manager.current.trajectory), old(optimalPath), old(showOptimalPath),
        manager.current.q, manager.current.trajectory, optimalPath, showOptimalPath)
    {
      hide RecordsEpisode, ClosesEpisode;
      RecordEpisode();
      StartNextEpisode();
    }

    /**
     * The part of `learningLoopStep` after the learning step, with the
     * animation run to completion at once: a stop request stops learning;
     * otherwise add the reward and move the agent, and end the episode when
     * the move was terminal or the step cap is reached.
     */
    method ApplyStep(result: StepReport)
      requires Valid() && InBounds(result.newPos, gridSize)
      modifies this`episodeCounter, this`episodicRewards, this`smoothedEpisodicRewards,
        this`chartLabels, this`chartSmoothed, this`chartRaw, this`totalRewardForEpisode, this`currentEpisodeSteps,
        this`optimalPath, this`showOptimalPath, this`isLearning,
        env`agentPos, manager.current`q, manager.current`trajectory
      ensures Valid()
      ensures result.needsStop ==>
        !isLearning && currentEpisodeSteps == old(currentEpisodeSteps) && totalRewardForEpisode == old(totalRewardForEpisode) &&
        episodeCounter == old(episodeCounter) && env.agentPos == old(env.agentPos)
      ensures !result.needsStop && !EpisodeEnds(result, old(currentEpisodeSteps), maxStepsPerEpisode) ==>
        currentEpisodeSteps == old(currentEpisodeSteps) && episodeCounter == old(episodeCounter) &&
        totalRewardForEpisode == old(totalRewardForEpisode) + result.reward &&
        env.agentPos == result.newPos && episodicRewards == old(episodicRewards) &&
        isLearning == old(isLearning)
      ensures result.needsStop || !EpisodeEnds(result, old(currentEpisodeSteps), maxStepsPerEpisode) ==>
        manager.current.q == old(manager.current.q) && manager.current.trajectory == old(manager.current.trajectory) &&
        optimalPath == old(optimalPath) && showOptimalPath == old(showOptimalPath) && Log() == old(Log())
      ensures !result.needsStop && EpisodeEnds(result, old(currentEpisodeSteps), maxStepsPerEpisode) ==>
        currentEpisodeSteps == 0 && episodeCounter == old(episodeCounter) + 1 &&
        totalRewardForEpisode == 0.0 &&
        episodicRewards == old(episodicRewards) + [old(totalRewardForEpisode) + result.reward] &&
        RecordsEpisode(old(Log()), Log(), episodeCounter, old(totalRewardForEpisode) + result.reward) &&
        env.agentPos == env.startPos &&
        isLearning == (old(isLearning) && !(maxEpisode > 0 && episodeCounter >= maxEpisode)) &&
        ClosesEpisode(manager.current.kind, manager.current.config, env.grid, env.Config(), env.startPos, gridSize,
          maxEpisode > 0 && episodeCounter >= maxEpisode,
          old(manager.current.q), old(manager.current.trajectory), old(optimalPath), old(showOptimalPath),
          manager.current.q, manager.current.trajectory, optimalPath, showOptimalPath)
    {
      hide RecordsEpisode, ClosesEpisode;
      if result.needsStop {
        isLearning := false;
        return;
      }
      totalRewardForEpisode := totalRewardForEpisode + result.reward;
      env.SetAgentPos(result.newPos);
      if EpisodeEnds(result, currentEpisodeSteps, maxStepsPerEpisode) {
        EndEpisode();
      }
    }

    /**
     * The call of `learningStep` from the agent's cell: the learner keeps its
     * invariant, the step fails exactly under softmax, a report never asks to
     * stop and lands on the grid, and the learner's table and trajectory
     * change as one learning step from the agent's cell changes them.
     */
    method RunLearningStep(d: Draws, d2: Draws) returns (outcome: Result<StepReport>)
      requires Valid() && ValidDraws(d) && ValidDraws(d2)
      modifies manager.current`q, manager.current`trajectory
      ensures manager.Valid()
      ensures outcome.Fail? <==> manager.current.config.strategy == Softmax
      ensures outcome.Ok? ==> !outcome.value.needsStop && InBounds(outcome.value.newPos, gridSize)
      ensures (outcome, manager.current.q, manager.current.trajectory) ==
        LearnOutcome(manager.current.kind, manager.current.config, env.grid, env.Config(), gridSize, env.agentPos, d, d2,
          old(manager.current.q), old(manager.current.trajectory))
    {
      outcome := LearnStep(manager, env, env.agentPos, gridSize, d, d2);
    }

    /**
     * `learningLoopStep`: count the step and run one learning step from the
     * agent's cell, then apply its report. `learned` and `recorded` are the
     * learner's table and trajectory right after the learning step. A step
     * that throws (softmax) leaves everything after the count and the
     * learning step undone. A step that ends the episode closes it: the
     * flush, and once the budget is used up the greedy path and the stop.
     */
    method LearningLoopStep(d: Draws, d2: Draws) returns (outcome: Result<StepReport>, ghost learned: Table, ghost recorded: seq<Visit>)
      requires Valid() && ValidDraws(d) && ValidDraws(d2)
      modifies this`episodeCounter, this`episodicRewards, this`smoothedEpisodicRewards,
        this`chartLabels, this`chartSmoothed, this`chartRaw, this`totalRewardForEpisode, this`currentEpisodeSteps,
        this`optimalPath, this`showOptimalPath, this`isLearning,
        env`agentPos, manager.current`q, manager.current`trajectory
      ensures Valid()
      ensures outcome.Fail? <==> manager.current.config.strategy == Softmax
      ensures (outcome, learned, recorded) ==
        LearnOutcome(manager.current.kind, old(manager.current.config), old(env.grid), old(env.Config()), gridSize, old(env.agentPos), d, d2,
          old(manager.current.q), old(manager.current.trajectory))
      ensures outcome.Fail? ==>
        currentEpisodeSteps == old(currentEpisodeSteps) + 1 && episodeCounter == old(episodeCounter) &&
        totalRewardForEpisode == old(totalRewardForEpisode) && env.agentPos == old(env.agentPos)
      ensures outcome.Ok? ==> !outcome.value.needsStop && InBounds(outcome.value.newPos, gridSize)
      ensures outcome.Fail? || !EpisodeEnds(outcome.value, old(currentEpisodeSteps) + 1, maxStepsPerEpisode) ==>
        manager.current.q == learned && manager.current.trajectory == recorded &&
        optimalPath == old(optimalPath) && showOptimalPath == old(showOptimalPath) && isLearning == old(isLearning) &&
        Log() == old(Log())
      ensures outcome.Ok? && !EpisodeEnds(outcome.value, old(currentEpisodeSteps) + 1, maxStepsPerEpisode) ==>
        currentEpisodeSteps == old(currentEpisodeSteps) + 1 &&
        totalRewardForEpisode == old(totalRewardForEpisode) + outcome.value.reward &&
        env.agentPos == outcome.value.newPos && episodeCounter == old(episodeCounter)
      ensures outcome.Ok? && EpisodeEnds(outcome.value, old(currentEpisodeSteps) + 1, maxStepsPerEpisode) ==>
        currentEpisodeSteps == 0 && totalRewardForEpisode == 0.0 && episodeCounter == old(episodeCounter) + 1 &&
        episodicRewards == old(episodicRewards) + [old(totalRewardForEpisode) + outcome.value.reward] &&
        RecordsEpisode(old(Log()), Log(), episodeCounter, old(totalRewardForEpisode) + outcome.value.reward) &&
        env.agentPos == env.startPos &&
        isLearning == (old(isLearning) && !(maxEpisode > 0 && episodeCounter >= maxEpisode)) &&
        ClosesEpisode(manager.current.kind, manager.current.config, env.grid, env.Config(), env.startPos, gridSize,
          maxEpisode > 0 && episodeCounter >= maxEpisode,
          learned, recorded, old(optimalPath), old(showOptimalPath),
          manager.current.q, manager.current.trajectory, optimalPath, showOptimalPath)
    {
      hide LearnOutcome, RecordsEpisode, ClosesEpisode;
      currentEpisodeSteps := currentEpisodeSteps + 1;
      outcome := RunLearningStep(d, d2);
      learned, recorded := manager.current.q, manager.current.trajectory;
      if outcome.Fail? {
        return;  // the exception leaves the timer callback here
      }
      ghost var before := env.startPos;
      ApplyStep(outcome.value);
      assert env.startPos == before;
    }
  }
}
