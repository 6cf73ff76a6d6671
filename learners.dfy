/**
 * The three tabular learners (Q-learning, SARSA, first-to-last Monte-Carlo),
 * their configuration, the factory that builds them from an algorithm tag,
 * the manager that owns the current learner, and the single learning step
 * that ties a learner to the grid world.
 */
module Learners {
  import opened Common
  import opened QTables
  import opened GridWorld

  /** The algorithms the factory knows. */
  datatype Kind = QLearning | Sarsa | MonteCarlo

  /** The tag the factory and the manager use for an algorithm. */
  function Tag(k: Kind): string
  {
    match k
    case QLearning => "q-learning"
    case Sarsa => "sarsa"
    case MonteCarlo => "monte-carlo"
  }

  /** The factory's lookup: a known tag, or the error it throws. */
  function ParseKind(tag: string): (r: Result<Kind>)
    ensures r.Ok? <==> tag == "q-learning" || tag == "sarsa" || tag == "monte-carlo"
    ensures r.Ok? ==> Tag(r.value) == tag
    ensures r.Fail? ==> r.error == "Unknown algorithm type: " + tag
  {
    if tag == "q-learning" then Ok(QLearning)
    else if tag == "sarsa" then Ok(Sarsa)
    else if tag == "monte-carlo" then Ok(MonteCarlo)
    else Fail("Unknown algorithm type: " + tag)
  }

  /** Every algorithm is found again from its tag. */
  lemma ParseTag(k: Kind)
    ensures ParseKind(Tag(k)) == Ok(k)
  {
  }

  /** The name a strategy is selected by. */
  function StrategyName(s: Strategy): string
  {
    match s
    case EpsilonGreedy => "epsilon-greedy"
    case Softmax => "softmax"
    case Random => "random"
    case Greedy => "greedy"
    case Other(name) => name
  }

  /** A strategy is read from its name; any other name is an unrecognised strategy. */
  function ParseStrategy(name: string): (s: Strategy)
    ensures StrategyName(s) == name
    ensures s.Other? <==> name !in {"epsilon-greedy", "softmax", "random", "greedy"}
  {
    if name == "epsilon-greedy" then EpsilonGreedy
    else if name == "softmax" then Softmax
    else if name == "random" then Random
    else if name == "greedy" then Greedy
    else Other(name)
  }

  /** Reading a strategy's name gives the strategy back, unless it is an `Other` that spells a known name. */
  lemma ParseStrategyName(s: Strategy)
    requires s.Other? ==> s.name !in {"epsilon-greedy", "softmax", "random", "greedy"}
    ensures ParseStrategy(StrategyName(s)) == s
  {
  }

  /** The hyperparameters every learner reads. */
  datatype Config = Config(learningRate: real, discountFactor: real, explorationRate: real, strategy: Strategy)

  /** A partial configuration object: the keys it sets. */
  datatype Patch = Patch(learningRate: Option<real>, discountFactor: Option<real>,
                         explorationRate: Option<real>, strategy: Option<Strategy>)

  const NoPatch := Patch(None, None, None, None)

  /** The defaults a learner starts from before its configuration is spread over them. */
  const Defaults := Config(0.1, 0.9, 0.2, EpsilonGreedy)

  function Override<T>(o: Option<T>, d: T): T
  {
    if o.Some? then o.value else d
  }

  /** `{ ...c, ...p }`: the keys `p` sets replace those of `c`. */
  function Apply(c: Config, p: Patch): Config
  {
    Config(Override(p.learningRate, c.learningRate), Override(p.discountFactor, c.discountFactor),
           Override(p.explorationRate, c.explorationRate), Override(p.strategy, c.strategy))
  }

  /** `{ ...p, ...q }` on two partial configurations. */
  function Merge(p: Patch, q: Patch): Patch
  {
    Patch(if q.learningRate.Some? then q.learningRate else p.learningRate,
          if q.discountFactor.Some? then q.discountFactor else p.discountFactor,
          if q.explorationRate.Some? then q.explorationRate else p.explorationRate,
          if q.strategy.Some? then q.strategy else p.strategy)
  }

  /** A full configuration seen as an object that sets every key. */
  function AsPatch(c: Config): Patch
  {
    Patch(Some(c.learningRate), Some(c.discountFactor), Some(c.explorationRate), Some(c.strategy))
  }

  /** Spreading two patches one after the other is spreading their merge. */
  lemma ApplyMerge(c: Config, p: Patch, q: Patch)
    ensures Apply(Apply(c, p), q) == Apply(c, Merge(p, q))
  {
  }

  /** A full configuration spread over anything gives itself back; the empty patch changes nothing. */
  lemma ApplyFull(c: Config, d: Config)
    ensures Apply(d, AsPatch(c)) == c
    ensures Apply(c, NoPatch) == c
  {
  }

  /** The effect of one `learningStep` call, on the three learners. */
  datatype StepReport = StepReport(needsStop: bool, newPos: Pos, reward: real, done: bool)

  /** A learner: one of the three algorithms over its own Q-table. */
  class Learner {
    const kind: Kind
    const gridSize: nat
    var config: Config
    var q: Table
    /** The Monte-Carlo episode so far (empty for the other two algorithms). */
    var trajectory: seq<Visit>

    /** Every visit of the episode is to a state that has a row. */
    ghost predicate Ready()
      reads this
    {
      forall i :: 0 <= i < |trajectory| ==> trajectory[i].state in q
    }

    /** The configuration is `{ ...Defaults, ...patch }` and the table is all zeros over the grid. */
    constructor (kind: Kind, n: nat, patch: Patch)
      ensures this.kind == kind && gridSize == n
      ensures config == Apply(Defaults, patch)
      ensures IsZeroTable(q, n) && trajectory == []
    {
      this.kind := kind;
      gridSize := n;
      config := Apply(Defaults, patch);
      q := map[];
      trajectory := [];
      new;
      InitializeTables(n);
    }

    /** A zero row for every state of the n-by-n grid, column by column. */
    method InitializeTables(n: nat)
      modifies this`q
      ensures IsZeroTable(q, n)
    {
      q := map[];
      for x := 0 to n
        invariant forall s :: s in q <==> 0 <= s.x < x && 0 <= s.y < n
        invariant forall s :: s in q ==> q[s] == ZeroRow
      {
        for y := 0 to n
          invariant forall s :: s in q <==> (0 <= s.x < x && 0 <= s.y < n) || (s.x == x && 0 <= s.y < y)
          invariant forall s :: s in q ==> q[s] == ZeroRow
        {
          q := q[Pos(x, y) := ZeroRow];
        }
      }
    }

    method EnsureStateInitialized(s: Pos)
      modifies this`q
      ensures q == Init(old(q), s)
    {
      if s !in q {
        q := q[s := ZeroRow];
      }
    }

    method GetActionValue(s: Pos, a: Action) returns (v: real)
      modifies this`q
      ensures q == Init(old(q), s)
      ensures v == RowOf(old(q), s).Get(a)
    {
      EnsureStateInitialized(s);
      v := q[s].Get(a);
    }

    /** The tie set of the state, initialising its row first. */
    method GetBestActions(s: Pos) returns (best: seq<Action>)
      modifies this`q
      ensures q == Init(old(q), s)
      ensures best == Best(RowOf(old(q), s))
    {
      EnsureStateInitialized(s);
      best := BestOf(q[s]);
      // The source falls back to all actions for an empty tie set; `Best` is never empty.
    }

    /** The state value, initialising its row first. */
    method GetValue(s: Pos) returns (v: real)
      modifies this`q
      ensures q == Init(old(q), s)
      ensures v == MaxQ(RowOf(old(q), s))
    {
      EnsureStateInitialized(s);
      v := ValueOf(q[s]);
    }

    /** The exploration probabilities; only the strategies that read the tie set initialise the row. */
    method GetActionProbabilities(s: Pos) returns (p: map<Action, real>)
      modifies this`q
      ensures q == if config.strategy == EpsilonGreedy || config.strategy == Greedy then Init(old(q), s) else old(q)
      ensures p == ActionProbabilities(config.strategy, config.explorationRate, RowOf(old(q), s))
    {
      if config.strategy == EpsilonGreedy || config.strategy == Greedy {
        var best := GetBestActions(s);
      }
      p := ActionProbabilities(config.strategy, config.explorationRate, RowOf(q, s));
    }

    /** `chooseAction` with the random draws it consumes; softmax throws. */
    method ChooseAction(s: Pos, d: Draws) returns (r: Result<Action>)
      requires ValidDraws(d)
      modifies this`q
      ensures q == Init(old(q), s)
      ensures r == Choose(config.strategy, config.explorationRate, RowOf(old(q), s), d)
    {
      EnsureStateInitialized(s);
      match config.strategy {
        case EpsilonGreedy =>
          if d.first < config.explorationRate {
            r := Ok(Pick(Actions, d.second));
          } else {
            var best := GetBestActions(s);
            r := Ok(Pick(best, d.second));
          }
        case Softmax =>
          r := Fail("effectiveBeta is not defined");
        case Random =>
          r := Ok(Pick(Actions, d.first));
        case _ =>
          var best := GetBestActions(s);
          r := Ok(Pick(best, d.first));
      }
    }

    /** `{ ...config, ...p }`. */
    method UpdateConfig(p: Patch)
      modifies this`config
      ensures config == Apply(old(config), p)
    {
      config := Apply(config, p);
    }

    /**
     * One transition's update, dispatched on the algorithm as the subclasses
     * override it. The `done` flag is ignored by all three, as in the source.
     */
    method LearningStep(s: Pos, a: Action, reward: real, next: Pos, done: bool, d: Draws)
      returns (r: Result<bool>)
      requires ValidDraws(d)
      modifies this`q, this`trajectory
      ensures kind != MonteCarlo ==> trajectory == old(trajectory)
      ensures kind == QLearning ==>
        var q1 := Init(Init(old(q), s), next);
        r == Ok(false) && q == Update(q1, s, a, config.learningRate, QLearningTarget(q1, reward, config.discountFactor, next))
      ensures kind == Sarsa ==>
        var q1 := Init(Init(old(q), s), next);
        var c := Choose(config.strategy, config.explorationRate, RowOf(q1, next), d);
        (c.Fail? ==> r == Fail(c.error) && q == q1) &&
        (c.Ok? ==> r == Ok(false) && q == Update(q1, s, a, config.learningRate, SarsaTarget(q1, reward, config.discountFactor, next, c.value)))
      ensures kind == MonteCarlo ==> r == Ok(false) && q == old(q) && trajectory == old(trajectory) + [Visit(s, a, reward)]
      ensures q.Keys >= old(q).Keys
      ensures old(Ready()) && s in old(q) ==> Ready()
    {
      match kind {
        case QLearning =>
          QLearningStep(s, a, reward, next);
          r := Ok(false);
        case Sarsa =>
          r := SarsaStep(s, a, reward, next, d);
        case MonteCarlo =>
          trajectory := trajectory + [Visit(s, a, reward)];
          r := Ok(false);
      }
    }

    /** Q-learning: move `Q[s][a]` towards `r + gamma * Q[s'][b]` for the first tie `b` of `s'`. */
    method QLearningStep(s: Pos, a: Action, reward: real, next: Pos)
      modifies this`q
      ensures var q1 := Init(Init(old(q), s), next);
        q == Update(q1, s, a, config.learningRate, QLearningTarget(q1, reward, config.discountFactor, next))
    {
      EnsureStateInitialized(s);
      EnsureStateInitialized(next);
      ghost var q1 := q;
      var oldQ := q[s].Get(a);
      var best := GetBestActions(next);
      InitIsIdempotent(q1, next);
      assert q == q1 && best == Best(q1[next]);
      var maxNextQ := q[next].Get(best[0]);
      var target := Discounted(reward, config.discountFactor, maxNextQ);
      var newQ := Blend(oldQ, config.learningRate, target);
      q := q[s := q[s].Set(a, newQ)];
      QLearningInPlace(q1, s, a, config.learningRate, reward, config.discountFactor, next, best[0]);
    }

    /** SARSA: choose the next action, then move `Q[s][a]` towards `r + gamma * Q[s'][a']`. */
    method SarsaStep(s: Pos, a: Action, reward: real, next: Pos, d: Draws) returns (r: Result<bool>)
      requires ValidDraws(d)
      modifies this`q
      ensures var q1 := Init(Init(old(q), s), next);
        var c := Choose(config.strategy, config.explorationRate, RowOf(q1, next), d);
        (c.Fail? ==> r == Fail(c.error) && q == q1) &&
        (c.Ok? ==> r == Ok(false) && q == Update(q1, s, a, config.learningRate, SarsaTarget(q1, reward, config.discountFactor, next, c.value)))
    {
      EnsureStateInitialized(s);
      EnsureStateInitialized(next);
      ghost var q1 := q;
      var oldQ := q[s].Get(a);
      var c := ChooseAction(next, d);
      InitIsIdempotent(q1, next);
      if c.Fail? {
        return Fail(c.error);
      }
      var nextQ := q[next].Get(c.value);
      var target := Discounted(reward, config.discountFactor, nextQ);
      assert target == SarsaTarget(q1, reward, config.discountFactor, next, c.value);
      var newQ := Blend(oldQ, config.learningRate, target);
      q := q[s := q[s].Set(a, newQ)];
      UpdateInPlace(q1, s, a, config.learningRate, target);
      r := Ok(false);
    }

    /**
     * Replays the episode from the last visit to the first, moving each visited
     * entry towards the discounted return from that visit on, then forgets it.
     */
    method ApplyEpisodeUpdates()
      requires kind == MonteCarlo && Ready()
      modifies this`q, this`trajectory
      ensures q == Replay(old(q), old(trajectory), 0, config.learningRate, config.discountFactor)
      ensures q.Keys == old(q).Keys
      ensures trajectory == []
    {
      var t := trajectory;
      var alpha, gamma := config.learningRate, config.discountFactor;
      var g := 0.0;
      var i := |t|;
      while i > 0
        invariant 0 <= i <= |t|
        invariant q == Replay(old(q), t, i, alpha, gamma)
        invariant q.Keys == old(q).Keys
        invariant g == Return(t[i..], gamma)
      {
        i := i - 1;
        var v := t[i];
        ghost var prev := q;
        assert t[i..][1..] == t[i + 1..];
        assert v.state in q;
        g := Discounted(v.reward, gamma, g);
        assert g == Return(t[i..], gamma);
        var oldQ := q[v.state].Get(v.action);
        var newQ := Blend(oldQ, alpha, g);
        q := q[v.state := q[v.state].Set(v.action, newQ)];
        UpdateInPlace(prev, v.state, v.action, alpha, g);
      }
      trajectory := [];
    }
  }

  /** `AlgorithmFactory.create`: a fresh learner for a known tag, else the error the factory throws. */
  method Create(tag: string, n: nat, patch: Patch) returns (r: Result<Learner>)
    ensures r.Fail? <==> ParseKind(tag).Fail?
    ensures r.Fail? ==> r.error == ParseKind(tag).error
    ensures r.Ok? ==> (fresh(r.value) && r.value.kind == ParseKind(tag).value && r.value.gridSize == n &&
                       r.value.config == Apply(Defaults, patch) && IsZeroTable(r.value.q, n) && r.value.trajectory == [])
  {
    var k := ParseKind(tag);
    if k.Fail? {
      return Fail(k.error);
    }
    var learner := new Learner(k.value, n, patch);
    r := Ok(learner);
  }

  /** The owner of the current learner, its tag, the grid size and the base configuration. */
  class Manager {
    var current: Learner
    var algorithmType: string
    var gridSize: nat
    var baseConfig: Patch

    /** The tag names the current learner's algorithm, which runs on the manager's grid. */
    ghost predicate Valid()
      reads this, current
    {
      algorithmType == Tag(current.kind) && current.gridSize == gridSize && current.Ready()
    }

    /** The current learner's configuration is the defaults overridden by the base configuration. */
    ghost predicate Synced()
      reads this, current
    {
      current.config == Apply(Defaults, baseConfig)
    }

    constructor (initial: string, n: nat, patch: Patch)
      requires ParseKind(initial).Ok?
      ensures Valid() && Synced()
      ensures algorithmType == initial && gridSize == n && baseConfig == patch
      ensures IsZeroTable(current.q, n)
    {
      current := new Learner(ParseKind(initial).value, n, patch);
      algorithmType := initial;
      gridSize := n;
      baseConfig := patch;
    }

    /**
     * A fresh learner of another algorithm with `{ ...baseConfig, ...overrides }`;
     * an unknown tag throws and leaves the manager as it was.
     */
    method SwitchAlgorithm(tag: string, overrides: Patch) returns (r: Result<Kind>)
      requires Valid()
      modifies this`current, this`algorithmType
      ensures r == ParseKind(tag)
      ensures r.Fail? ==> current == old(current) && algorithmType == old(algorithmType)
      ensures r.Ok? ==> (fresh(current) && current.kind == r.value && algorithmType == tag &&
                         current.config == Apply(Defaults, Merge(baseConfig, overrides)) &&
                         IsZeroTable(current.q, gridSize) && current.trajectory == [])
      ensures Valid()
      ensures old(Synced()) && overrides == NoPatch ==> Synced()
    {
      var created := Create(tag, gridSize, Merge(baseConfig, overrides));
      if created.Fail? {
        return Fail(created.error);
      }
      current := created.value;
      algorithmType := tag;
      r := ParseKind(tag);
    }

    /** A fresh learner of the same algorithm and configuration on a grid of the new size. */
    method UpdateGridSize(n: nat)
      requires Valid()
      modifies this`current, this`gridSize
      ensures fresh(current) && gridSize == n
      ensures current.kind == old(current.kind) && current.config == old(current.config)
      ensures IsZeroTable(current.q, n) && current.trajectory == []
      ensures Valid()
      ensures old(Synced()) ==> Synced()
    {
      gridSize := n;
      var config := current.config;
      ApplyFull(config, Defaults);
      current := new Learner(current.kind, n, AsPatch(config));
    }

    /** Spreads the patch over the base configuration and over the current learner's. */
    method UpdateConfig(p: Patch)
      modifies this`baseConfig, current`config
      ensures baseConfig == Merge(old(baseConfig), p)
      ensures current.config == Apply(old(current.config), p)
      ensures old(Synced()) ==> Synced()
    {
      baseConfig := Merge(baseConfig, p);
      current.UpdateConfig(p);
      ApplyMerge(Defaults, old(baseConfig), p);
    }

    /** Replays the episode when the current learner is Monte-Carlo; otherwise nothing happens. */
    method ApplyEpisodeUpdates()
      requires Valid()
      modifies current`q, current`trajectory
      ensures current.kind == MonteCarlo ==>
        current.q == Replay(old(current.q), old(current.trajectory), 0, current.config.learningRate, current.config.discountFactor) &&
        current.trajectory == []
      ensures current.kind != MonteCarlo ==> current.q == old(current.q) && current.trajectory == old(current.trajectory)
      ensures Valid()
    {
      if current.kind == MonteCarlo {
        current.ApplyEpisodeUpdates();
      }
    }
  }

  /**
   * What one `learningStep` from `pos` produces for a learner of the given
   * kind and configuration with table `q` and trajectory `t`: the result and
   * the new table and trajectory. A choice that throws (softmax) leaves the
   * state's row initialised and nothing else done. Otherwise the report
   * carries the chosen action's move, and the algorithm's update is applied
   * to the table with both rows initialised (Q-learning, SARSA), or the visit
   * is appended to the trajectory (Monte Carlo).
   */
  ghost function LearnOutcome(kind: Kind, c: Config, g: Grid, st: Settings, n: int, pos: Pos, d: Draws, d2: Draws,
    q: Table, t: seq<Visit>): (Result<StepReport>, Table, seq<Visit>)
    requires IsGrid(g, n) && InBounds(pos, n) && ValidDraws(d) && ValidDraws(d2)
  {
    var choice := Choose(c.strategy, c.explorationRate, RowOf(q, pos), d);
    if choice.Fail? then (Fail(choice.error), Init(q, pos), t)
    else
      var a := choice.value;
      var step := TakeAction(g, st, Name(a), pos, n);
      var q0 := Init(q, pos);
      var q1 := Init(q0, step.nextState);
      var report := Ok(StepReport(false, step.newPos, step.reward, step.done));
      match kind
      case QLearning =>
        (report, Update(q1, pos, a, c.learningRate, QLearningTarget(q1, step.reward, c.discountFactor, step.nextState)), t)
      case Sarsa =>
        var a2 := Choose(c.strategy, c.explorationRate, RowOf(q1, step.nextState), d2).value;
        (report, Update(q1, pos, a, c.learningRate, SarsaTarget(q1, step.reward, c.discountFactor, step.nextState, a2)), t)
      case MonteCarlo =>
        (report, q0, t + [Visit(pos, a, step.reward)])
  }

  /**
   * The exported `learningStep`: choose an action for the agent's state, take
   * it in the environment, and hand the transition to the learner. `d` are the
   * draws of the first choice and `d2` those of SARSA's next-action choice.
   */
  method LearnStep(m: Manager, env: Environment, pos: Pos, n: nat, d: Draws, d2: Draws)
    returns (r: Result<StepReport>)
    requires m.Valid() && IsGrid(env.grid, n) && InBounds(pos, n)
    requires ValidDraws(d) && ValidDraws(d2)
    modifies m.current`q, m.current`trajectory
    ensures m.Valid()
    ensures r.Fail? <==> m.current.config.strategy == Softmax
    ensures r.Ok? ==> !r.value.needsStop && InBounds(r.value.newPos, n)
    ensures (r, m.current.q, m.current.trajectory) ==
      LearnOutcome(m.current.kind, m.current.config, env.grid, env.Config(), n, pos, d, d2, old(m.current.q), old(m.current.trajectory))
  {
    var learner := m.current;
    var c := learner.ChooseAction(pos, d);
    if c.Fail? {
      return Fail(c.error);
    }
    var a := c.value;
    var step := TakeAction(env.grid, env.Config(), Name(a), pos, n);
    InitIsIdempotent(learner.q, pos);
    var result := learner.LearningStep(pos, a, step.reward, step.nextState, step.done, d2);
    r := Ok(StepReport(result.value, step.newPos, step.reward, step.done));
  }
}
