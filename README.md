# Autonomous path finder: a verified model of the learning core

This project models the core of a browser demo in which an agent learns, by
tabular reinforcement learning, to cross a square grid world to a gem while
avoiding a bad cell and walls. It covers three parts:

- **The learning engine** of `algorithms.js`:
  - Q-tables keyed by grid cell, filled lazily with zero rows.
  - The greedy tie set and the state value.
  - The action-choice and action-probability rules for epsilon-greedy,
    greedy and random exploration.
  - The Q-learning, SARSA and Monte-Carlo updates.
  - The factory and the manager that swap algorithms or grid sizes.
  - The exported `learningStep`.
- **The grid-world rules** of `environment.js`:
  - The transition function `takeAction`.
  - The cell editing cycle and the start-cell rule.
  - The default layout.
  - The grid-size and reward-magnitude validators.
- **The page driver** of `script.js`:
  - The counter and episode logic of `learningLoopStep`.
  - The moving average.
  - The capped reward chart.
  - The loop-detecting greedy walk `computeOptimalPathFromStart`.

Modules:

- `Common`: shared vocabulary:
  - the `Option` and `Result` types;
  - `Pos`, which is both a cell and a state, modelling the `"x,y"` key;
  - the four `Action`s in the source's order.
- `GridWorld`: the grid, `TakeAction`, the layout builder, the validators, and
  the `Environment` class holding the module-level state of `environment.js`.
- `QTables`: the pure row logic:
  - `Best`, the greedy tie set;
  - `MaxQ`, the state value;
  - the probability rules and `Choose`;
  - the blend `Update` and its targets;
  - the backward Monte-Carlo `Replay`;
  - bound-preservation lemmas.

  The in-place scan of `getBestActions` and `getValue` is `BestOf` and
  `ValueOf`. Each is proved against its specification function.
- `Learners`:
  - the `Learner` class, one class for the three algorithms, told apart by a
    `kind` tag, whose methods update the table, the configuration and the
    trajectory in place;
  - the factory `Create`;
  - the `Manager` class;
  - `LearnStep`, the exported `learningStep`.
- `Driver`: the page state as the `Session` class, the moving average, the
  capped chart series, and the greedy walk. The walk is the `OptimalPath`
  method with its specification `Walk`.

Q-values and rewards are `real`. Every `Math.random()` draw is a parameter in
[0, 1) (`Draws`). The grid is a sequence of rows indexed `[y][x]`, as in the
source.

## Model

| member | source | states |
|---|---|---|
| GridWorld.TakeAction | environment.js:519-571 | The destination stays on the grid. It is either the current cell or the clamped target of the action, and it is never a wall unless the agent stays put. A target that is not a wall is always reached. The next state is the destination. Reward and done follow the destination cell. |
| GridWorld.Aim | environment.js:526-539 | From an on-grid cell the aimed cell is on the grid, and it is the cell itself or one of its four orthogonal neighbours. |
| GridWorld.Arrival | environment.js:554-568 | Arriving ends the episode exactly on the bad cell, or on the gem when terminate-on-gem is set. Any other cell pays the step penalty. |
| GridWorld.MoveIsClampedStep | environment.js:526-539 | Each of the four action names moves to the neighbouring cell when that cell is on the grid, and otherwise leaves the position unchanged. |
| GridWorld.TransitionIsLocal | environment.js:519-571 | A transition never leaves the grid. The agent either stays put or moves to the neighbour in the direction the action string names. |
| GridWorld.NextCell | environment.js:587-595 | One edit always changes the cell. |
| GridWorld.CycleHasPeriodFour | environment.js:587-595 | Empty, Gem, Bad, Wall is a cycle of exactly four edits: four edits restore a cell, and fewer never do. |
| GridWorld.Blank | environment.js:112 | A size-by-size grid whose every cell is empty. |
| GridWorld.DefaultLayout | environment.js:111-132 | The point writes give a size-by-size grid whose every cell is the default cell: the gem in the far corner; the bad cell at the centre, or one row up when the centre is the gem; walls at (2,1) and (2,3) above size 3; everything else empty. |
| GridWorld.ValidateGridSize | environment.js:134-144 | A size is accepted exactly when it lies in 2..20. A rejected size keeps the current one and reports `updated` false. |
| GridWorld.Environment.constructor | environment.js:11-48 | The initial module state: an empty grid, agent and start at (0,0), and the default reward settings. |
| GridWorld.Environment.InitializeGridRewards | environment.js:111-132 | The stored grid becomes the default layout of the given size. |
| GridWorld.Environment.SetStartPos | environment.js:58-75 | Succeeds exactly for an on-grid empty cell. The start cell moves only on success. |
| GridWorld.Environment.SetAgentPos | environment.js:50-56 | The agent is placed at the given cell. |
| GridWorld.Environment.ResetAgent | environment.js:146-150 | The agent returns to the start cell. |
| GridWorld.Environment.CycleCellState | environment.js:573-600 | Succeeds exactly for an on-grid cell other than the start cell. On success that cell advances one step of the cycle. On failure the grid is unchanged. No other cell ever changes. |
| GridWorld.Environment.SetStepPenalty | environment.js:81-89 | The step penalty takes the parsed value. |
| GridWorld.Environment.SetGemRewardMagnitude | environment.js:91-99 | Only non-negative magnitudes are accepted; otherwise the old one stays. |
| GridWorld.Environment.SetBadStateRewardMagnitude | environment.js:101-109 | Only non-positive magnitudes are accepted; otherwise the old one stays. |
| GridWorld.Environment.SetTerminateOnGem | environment.js:77-79 | The flag takes the given value. |
| GridWorld.FourEditsRestore | environment.js:573-600 | Four successive edits of one cell give back the original grid. |
| QTables.Init | algorithms.js:112-119 | Lazy initialisation: the state gets a row, a missing row is all zeros, and existing rows and every row as read are unchanged. |
| QTables.InitIsIdempotent | algorithms.js:112-119 | Initialising twice is initialising once, and a present state is never overwritten. |
| QTables.MaxQ | algorithms.js:144-153 | The value bounds every action's Q, and some action attains it. |
| QTables.ZeroRowValue | algorithms.js:144-153 | A fresh row has value 0, and all four actions tie. |
| QTables.Ties | algorithms.js:126-142 | The tie list holds exactly the listed actions whose Q equals the given value. |
| QTables.TiesOrdered | algorithms.js:126-142 | Ties keep the up, down, left, right order. |
| QTables.Best | algorithms.js:126-142 | The greedy set is non-empty, in up, down, left, right order, and holds exactly the actions whose Q is the row maximum. |
| QTables.FirstBestIsMax | algorithms.js:192-193 | The first best action's Q is the row maximum, which is what Q-learning bootstraps from. |
| QTables.TieExample | algorithms.js:126-142 | {up:5, down:5, left:3, right:5} gives [up, down, right]. |
| QTables.BestOf | algorithms.js:126-142 | The in-place scan with its running maximum returns exactly `Best` of the row. |
| QTables.ValueOf | algorithms.js:144-153 | The in-place maximum scan returns exactly `MaxQ` of the row. |
| QTables.ActionProbabilities | algorithms.js:50-83 | Epsilon-greedy, random and greedy give every action a probability. Softmax and unknown strategies give an empty map. |
| QTables.EpsilonEntries | algorithms.js:57-68 | Epsilon-greedy gives each best action (1-ε)/\|best\| + ε/4 and every other action ε/4. |
| QTables.EpsilonGreedyIsDistribution | algorithms.js:57-68 | For 0 ≤ ε ≤ 1 the epsilon-greedy probabilities lie in [0,1] and sum to 1. |
| QTables.EpsilonShares | algorithms.js:57-68 | Any map of the epsilon-greedy shape over a tie set sums to 1, and each entry is in [0,1]. |
| QTables.GreedyIsDistribution | algorithms.js:73-79 | Greedy gives 1/\|best\| to each best action and 0 elsewhere, summing to 1. |
| QTables.RandomIsUniform | algorithms.js:70-72 | Random gives 1/4 to every action. |
| QTables.Pick | algorithms.js:41-48 | Indexing by `floor(u·len)` always picks a member of the list. |
| QTables.PickReachesAll | algorithms.js:41-48 | Every list position is picked by some draw in [0,1). |
| QTables.Choose | algorithms.js:155-185 | The choice fails exactly under softmax. Greedy and unknown strategies choose a best action. Epsilon-greedy explores uniformly below ε and is greedy otherwise. Random is uniform. |
| QTables.RandomReachesEveryAction | algorithms.js:41-43 | Every action is chosen by some draw under the random strategy. |
| QTables.GreedyReachesEveryTie | algorithms.js:45-48 | Every member of the tie set is chosen by some draw under the greedy strategy. |
| QTables.BlendBetween | algorithms.js:195 | For 0 ≤ α ≤ 1 the blended value lies between the old value and the target. |
| QTables.Update | algorithms.js:191-197 | Only Q[s][a] changes, and it becomes the blend of its old value toward the target. The table gains at most the row of s. |
| QTables.UpdateInPlace | algorithms.js:195-197 | On a present row the update is the single in-place write of the blended value. |
| QTables.QLearningInPlace | algorithms.js:187-199 | With both rows present, the Q-learning update writes old + α(r + γ·Q[s'][best[0]] − old) into Q[s][a] and nothing else. |
| QTables.QLearningExample | algorithms.js:187-199 | With α=0.5, γ=0.9, a zero table and r=10, the entry becomes 5. |
| QTables.Return | algorithms.js:234-237 | Non-negative rewards with a non-negative discount give a non-negative return. |
| QTables.Replay | algorithms.js:233-244 | The backward replay changes no entry (state, action) that the episode never visits. |
| QTables.ReturnExample | algorithms.js:233-244 | With γ=0.5 and rewards 1, 2, 3, the backward returns are 3, 3.5 and 2.75. |
| QTables.TargetFits | algorithms.js:194 | A reward that fits the bound keeps the discounted target within the bound. |
| QTables.UpdateKeepsBound | algorithms.js:195-197 | Blending toward an in-bound target keeps every Q-value within the bound. |
| QTables.QLearningKeepsBound | algorithms.js:187-199 | A Q-learning step keeps a bounded table bounded. |
| QTables.SarsaKeepsBound | algorithms.js:203-215 | A SARSA step keeps a bounded table bounded, whatever the next action. |
| QTables.QLearningTargetFits | algorithms.js:192-194 | The Q-learning target stays within the bound. |
| QTables.SarsaTargetFits | algorithms.js:208-210 | The SARSA target stays within the bound. |
| QTables.InitKeepsBound | algorithms.js:112-119 | Zero-filling a row keeps the table bounded. |
| QTables.ReturnFits | algorithms.js:234-237 | The backward return G = r + γG stays within the bound. |
| QTables.ReplayKeepsBound | algorithms.js:233-244 | The Monte-Carlo flush keeps a bounded table bounded. |
| Learners.ParseKind | algorithms.js:247-258 | Exactly the tags q-learning, sarsa and monte-carlo are known, each naming its own kind. Any other tag fails with "Unknown algorithm type: " and the tag. |
| Learners.ParseTag | algorithms.js:249-253 | Every kind's tag parses back to that kind. |
| Learners.ParseStrategy | algorithms.js:155-185 | The strategy read from a name prints back as that name. It is unrecognised exactly when the name is none of the four known ones. |
| Learners.ParseStrategyName | algorithms.js:155-185 | Printing a strategy and reading it back gives the same strategy. This holds for the four known strategies, and for an unrecognised name that spells none of the four known names. |
| Learners.ApplyMerge | algorithms.js:89-91 | Two successive shallow merges equal one merge of the merged overrides. |
| Learners.ApplyFull | algorithms.js:4-11 | A complete override replaces the configuration, and the empty override keeps it. |
| Learners.Learner.constructor | algorithms.js:2-13 | A new learner has the defaults overridden by the given configuration, a zero table over the grid, and an empty trajectory. |
| Learners.Learner.InitializeTables | algorithms.js:99-110 | After initialisation every on-grid state has a row of four zeros, and no other state has a row. |
| Learners.Learner.EnsureStateInitialized | algorithms.js:112-119 | The table becomes the lazily initialised table. |
| Learners.Learner.GetActionValue | algorithms.js:121-124 | Returns the action's Q in the state's row as read, initialising that row. |
| Learners.Learner.GetBestActions | algorithms.js:126-142 | Returns the greedy set of the state's row, initialising that row. |
| Learners.Learner.GetValue | algorithms.js:144-153 | Returns the row maximum, initialising the row. |
| Learners.Learner.GetActionProbabilities | algorithms.js:50-83 | Returns the probability rule of the configured strategy. The row is initialised only by the strategies that read the greedy set. |
| Learners.Learner.ChooseAction | algorithms.js:155-185 | Returns the configured strategy's choice on the state's row after initialising it. |
| Learners.Learner.UpdateConfig | algorithms.js:89-91 | The configuration is shallow-merged with the overrides. |
| Learners.Learner.LearningStep | algorithms.js:187-231 | Q-learning and SARSA initialise both rows and blend only Q[s][a] toward their targets, and neither reads `done`. SARSA fails exactly when its own choice fails. Monte Carlo appends (s, a, r) and leaves the table alone. The table never loses a row. |
| Learners.Learner.QLearningStep | algorithms.js:187-199 | The table becomes the blend of Q[s][a] toward r + γ·max Q[s'], on the initialised table. |
| Learners.Learner.SarsaStep | algorithms.js:203-215 | The table becomes the blend of Q[s][a] toward r + γ·Q[s'][a'], where a' is the learner's own choice at s'. |
| Learners.Learner.ApplyEpisodeUpdates | algorithms.js:233-244 | The backward loop leaves exactly the table `Replay` gives, with the same rows, and an empty trajectory. |
| Learners.Create | algorithms.js:247-261 | A known tag yields a fresh learner of that kind with a zero table and the merged configuration. Any other tag fails with the factory's message. |
| Learners.Manager.constructor | algorithms.js:265-270 | The manager holds a fresh learner for the tag, the grid size and the base configuration. |
| Learners.Manager.SwitchAlgorithm | algorithms.js:272-276 | On a known tag: a fresh zero-table learner of that kind, configured from the base merged with the overrides. On an unknown tag: the factory's failure, and nothing changes. |
| Learners.Manager.UpdateGridSize | algorithms.js:278-282 | A fresh learner of the same kind and configuration, with a zero table at the new size. |
| Learners.Manager.UpdateConfig | algorithms.js:304-307 | The overrides are merged into both the base configuration and the live configuration. |
| Learners.Manager.ApplyEpisodeUpdates | algorithms.js:313-317 | Monte Carlo flushes its trajectory backward. Every other algorithm is left untouched. |
| Learners.LearnStep | algorithms.js:376-389 | The result, the new table and the new trajectory are exactly `LearnOutcome` of the old ones. A softmax choice throws after the state's row is initialised, and nothing else changes. Otherwise it chooses at the agent's cell and takes the move. It applies the Q-learning or SARSA update on the table with both rows initialised, or appends the visit for Monte Carlo. The report carries the move's destination, reward and done, and `needsStop` is false. The step fails exactly under softmax. |
| Driver.Window | script.js:496-497 | The window is the last min(w, \|data\|) entries. |
| Driver.MovingAverage | script.js:494-500 | `calculateMovingAverage`. Its properties are the lemmas `MovingAverageIsMean`, `AverageBetween` and `AverageOfConstant`. |
| Driver.MovingAverageIsMean | script.js:494-500 | No data averages to 0. Otherwise the average is the mean of the latest min(w, \|data\|) entries. While the history fits in the window, it is the mean of the whole history. |
| Driver.AverageBetween | script.js:494-500 | The moving average lies between any bounds of the entries in its window. |
| Driver.AverageOfConstant | script.js:494-500 | A history whose latest w returns all equal c averages to c. |
| Driver.AverageExample | script.js:494-500 | The window of 2 over [1, 2, 3] averages to 2.5. |
| Driver.SmoothedHistoryGrows | script.js:563-566 | Appending a return and the moving average of the longer history keeps entry i equal to the average of the first i+1 returns. |
| Driver.PushCapped | script.js:510-518 | A series within the cap grows by one point until it reaches the cap, and it always ends with the new point. |
| Driver.PushCappedKeepsNewest | script.js:510-518 | The capped series is the newest points, in order, with the oldest dropped first. |
| Driver.GreedyMove | script.js:231-235 | The move from a cell takes the first greedy tie and lands on the grid. `PolicyActsAs` and `GreedyStep` tie it to the loop's iteration. |
| Driver.PolicyActsAs | script.js:231-235 | The greedy move function is defined on every on-grid cell by the greedy move. |
| Driver.Walk | script.js:225-248 | A walk of k iterations has at most k+1 cells. With at least one iteration from an unvisited cell, it starts at that cell. |
| Driver.WalkStops | script.js:225-248 | The walk ends at its last cell for one of four reasons. The move from that cell stays put. Or the cell is where a terminal move from the cell before landed. Or the move from it leads to a cell already visited. Or the iterations are used up. |
| Driver.WalkFollowsPolicy | script.js:225-247 | Every cell is on the grid. Each next cell is the move from the one before and differs from it. Only the last move can be terminal. All cells but the last are distinct. |
| Driver.WalkAgrees | script.js:225-247 | Two move functions that agree on the grid give the same walk. |
| Driver.ActsAsReadsValues | script.js:231 | The greedy policy depends only on the rows as read, so lazily initialised rows do not change it. |
| Driver.OptimalPath | script.js:219-251 | The loop returns exactly the walk of the greedy policy of the table it started with, from the start cell, over max(1, maxSteps) iterations. It initialises only zero rows. |
| Driver.GreedyStep | script.js:231-235 | One iteration's move equals the greedy policy's move from the current cell. |
| Driver.WalkOntoAppends | script.js:225-247 | The accumulating walk appends the walk to what it has collected. |
| Driver.WalkIsThePolicys | script.js:225-247 | Every move function that acts as the greedy policy gives the same walk. |
| Driver.GreedyPath | script.js:225-247 | The path has between 1 and max(1, maxSteps)+1 cells and starts at the start. Each next cell is the first best action's destination from the previous one and differs from it. The cells before the last are distinct. |
| Driver.Session.constructor | script.js:31-57 | The page starts with a 100-step cap, no episode budget, zero counters, an empty history and chart, learning off, and no path. |
| Driver.Session.UpdateRewardChart | script.js:502-521 | Each chart series receives its newest point with the oldest dropped over the cap, and all three series stay equally long within the cap. |
| Driver.Session.RecordEpisode | script.js:562-571 | Counts the episode. `RecordsEpisode` holds: the return and the moving average of the longer history are appended, and each chart series gets one capped point. Keeps every smoothed entry equal to the moving average of the returns so far. Resets the step count and the running return. |
| Driver.Session.FlushMonteCarlo | script.js:573-575 | The backward flush runs exactly when the selected algorithm is Monte Carlo. |
| Driver.Session.FinishIfBudgetUsed | script.js:580-593 | Once a positive episode budget is used up, learning stops. The shown path is then the greedy walk from the start over gridSize² iterations. Before that the path, its flag and the table are unchanged. |
| Driver.Session.StartNextEpisode | script.js:573-593 | The agent is back at the start. `ClosesEpisode` holds between the old and new learner and path. A Monte-Carlo episode is replayed into the table and the trajectory emptied; the other learners keep theirs. Once the budget is used up, the path is the greedy walk of the new table and is shown; before that, path and flag are unchanged. Learning continues exactly while the budget is not used up. |
| Driver.Session.EndEpisode | script.js:560-593 | The episode is counted and the counters reset. `RecordsEpisode` holds: the return and the new moving average are appended, and each chart series gets exactly one capped point (episode number, average, return). The agent goes to the start. The learner and the path change as `ClosesEpisode` states: the Monte-Carlo flush, then the greedy path once the budget is used up. Learning stops exactly when the budget is used up. |
| Driver.Session.ApplyStep | script.js:532-608 | A stop request only stops learning. Otherwise the reward is added and the agent moves. The episode ends exactly when the move was terminal or the step cap is reached. An ending episode records the return as `RecordsEpisode` states, and it flushes and may compute the path as `ClosesEpisode` states. On a stop or a continuing episode, the learner, the path, the reward history and the chart series are untouched. |
| Driver.Session.RunLearningStep | script.js:530 | The learning step fails exactly under softmax. A report never asks to stop, and it lands on the grid. The result and the learner's table and trajectory are `LearnOutcome` of the learner at the agent's cell. |
| Driver.Session.LearningLoopStep | script.js:524-610 | Counts the step and runs one learning step. The result and the learner right after it are `LearnOutcome` of the old learner at the agent's cell. On a throw or a continuing episode, the learner stays as the step left it. The path, its flag, `isLearning`, the reward history and the chart series are unchanged. A continuing episode adds the reward and moves the agent. An ending episode resets the counters and sends the agent to the start. It records the return and one chart point per series as `RecordsEpisode` states. It closes the episode as `ClosesEpisode` states, and learning stops exactly when the budget is used up. All along it keeps the page invariant. |

## Left out

- Softmax exploration: its probability helper uses an undefined `effectiveBeta`, so every call throws. `chooseAction` under softmax is modelled as a `Fail`. `getActionProbabilities` has no softmax branch and returns an empty map.
- The `Proxy` table views, the exported mirror variables and the configuration getters are reflective plumbing. The model reads the learner's table and configuration directly.
- `AlgorithmManager.reset`: it calls a method no algorithm defines.
- The delegating manager methods (`chooseAction`, `learningStep`, `getBestActions`, `getActionProbabilities`, `getValue`) and the exported wrappers add nothing to the learner's own methods, which are modelled.
- Rendering, animation, Chart.js, DOM and slider wiring, timers and `performance.now`, and console output. `learningLoopStep`'s deferred `afterStepLogic` runs synchronously, right after the agent moves. The `isAnimating` guard, which only skips a tick, is not modelled. After a continuing step, the probability display calls `getActionProbabilities` at the agent's new cell. Under epsilon-greedy or greedy, that adds a zero row for the cell when it has none. The model leaves the table as the learning step left it, so its key set can lack that row. Every value read from the table is the same.
- `updateRewardChart`'s early return when no chart exists: the chart is assumed present.
- IEEE doubles: NaN and ±Infinity are not modelled, and values are reals. The scans' `-Infinity` starting maximum is modelled as "no value yet", which the first action's value replaces.
- String parsing: the setters and the grid-size validator take already-parsed numbers. The `"x,y"` state keys are the cells themselves.
- The fallbacks in `getBestActions` (an empty tie list) and `getValue` (a `-Infinity` maximum) cannot fire over four real values. The same holds for the empty-ties `break` of `computeOptimalPathFromStart`. The model shows they are unreachable instead of writing them out.
- Learners.Learner.ApplyEpisodeUpdates: requires every trajectory state to have a row. The source would throw a TypeError on a missing row, and within the learning loop every visited row was initialised before it was recorded.
- Learners.ParseKind: tags that name members of `Object.prototype`, such as "constructor" or "toString", are not modelled. The source looks the tag up in a plain object. "constructor" then builds a wrapper object that is not a learner, and the other inherited keys throw a `TypeError` instead of the factory's error. The model fails on them with the factory's message. The page only sends the three known tags.
- Learners.Create: the same `Object.prototype` tags are not modelled, for the reason given for `ParseKind`.
- Learners.Manager.SwitchAlgorithm: the same `Object.prototype` tags are not modelled, for the reason given for `ParseKind`.
- Learners.Manager.constructor: requires a known tag. The only construction in the source uses `q-learning`.
- Driver.MovingAverage: the window size must be at least 1. A window of 0 divides by zero in the source, but the only call passes 20.
- Driver.GreedyPolicy: off the grid, the move function stays put. The walk never visits such a cell.
- Driver.OptimalPath: the contract names the walk through every move function that acts as the greedy policy on the grid. It does not name the one closure the loop evaluates.
- Driver.Session.ApplyStep: the `needsStop` branch is modelled, but `LearnStep` never sets `needsStop`, so it is unreachable from the learning loop.
