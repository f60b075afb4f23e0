# Tabular grid-world environment, modelled in Dafny

This project models the core of a grid-world reinforcement-learning
environment (`MDP/environment.py`). An agent sits on one cell of a
`gridX × gridY` grid. Each step moves it UP, RIGHT, DOWN or LEFT, clamped at
the edges. Cell `0` is terminal, and an episode also closes after
`maxSteps = 200` steps. Every step returns:

- an observation;
- a reward;
- the reward's noise and reported variance;
- a termination code (0 not done, 1 terminal reached, 2 step limit reached).

The reward comes from one of three policies: sparse, semi-sparse or dense.

The project has three modules:

- `Grid` (`grid.dfy`): linear index `y * gridX + x` and back, the clamped move,
  and the scalar observation `current * 10^digits + terminal`.
- `Rewards` (`rewards.dfy`): the variance parameters, the three policies'
  `_get_reward` (`SparseRequest`, `SemiSparseRequest`, `DenseRequest`,
  dispatched by `PolicyRequest`), `computeReward` (`ComputeReward`), and
  lemmas relating the policies to each other.
- `Environment` (`environment.dfy`): the class `TabularEnv`, which holds the
  episode state and has `Step`, `Reset`, `InitGrid`, `Close`, `GetReward` and
  `GetCurrentState`, and the class `StateRewards`, which is the process-wide
  cache of dense bonus tables (`STATE_REWARDS`).

The environment's random draws are all parameters:

- the starting cell;
- the dense bonus table;
- the chi-square variance draw;
- the Gaussian noise draw.

The visited marks `passed` are an `array<int>` of 0/1. `InitGrid` builds it
afresh and `Step` updates it in place. Variance parameters are `real`, and
reward means are `int`.

Three behaviours of `environment.py` are modelled as written:

- The dense bonus cache is keyed by the product `gridX * gridY`, not by the
  pair of dimensions. A `2 × 3` grid and a `3 × 2` grid share one table.
- `step` does not refuse to run after the episode has closed. An ordinary
  step leaves the termination code as it was. A step onto the terminal cell
  sets code 1 and a step at or past the limit sets code 2, whatever the code
  was before.
- The reward returned is the mean. The noise is reported beside it and is
  not added to it.

## Model

| member | source | states |
|---|---|---|
| `Grid.IdxToCoords` | MDP/environment.py:70-71 | the column lies in `[0, gridX)` and `y * gridX + x` gives back the index |
| `Grid.CoordsToIdx` | MDP/environment.py:73-74 | for a column inside the width, the index `y*gridX + x` gives back that column and row by remainder and division |
| `Grid.IdxRoundTrip` | MDP/environment.py:70-74 | every index in `[0, gridX*gridY)` maps to an in-bounds cell, and converting back gives the same index |
| `Grid.CoordsRoundTrip` | MDP/environment.py:70-74 | every in-bounds cell has an index in `[0, gridX*gridY)`, and converting back gives the same coordinates |
| `Grid.Moved` | MDP/environment.py:89-98 | a move stays in bounds and changes one coordinate by at most 1: UP is `y+1`, DOWN `y-1`, RIGHT `x+1`, LEFT `x-1`, each saturating at the edge with the other coordinate unchanged; it is the clamp of the action's delta |
| `Grid.MoveCell` | MDP/environment.py:89-100 | moving by index yields an index of the grid whose coordinates are the clamped move of the old cell's |
| `Grid.Digits` | MDP/environment.py:78 | the digit count is the smallest `d` with `10^d >= n` (the integer value of `ceil(log10 n)`) |
| `Grid.Observation` | MDP/environment.py:78 | `current * 10^Digits(cells) + terminal` gives back the current cell by division and the terminal cell by remainder, for every terminal cell below `cells` |
| `Grid.ObservationInjective` | MDP/environment.py:76-79 | two positions never share an observation |
| `Rewards.ComputeReward` | MDP/environment.py:178-192 | the reward is always the mean; a zero or absent variance mean gives no variance and zero noise whatever the variance-of-variance is; a variance mean without variance-of-variance is reported as the variance; with both, the chi-square draw is the variance |
| `Rewards.SparseRequest` | MDP/environment.py:209-226 | ordinary step: mean 0 and no variance parameters; step limit: mean -1 with the step parameters; terminal: mean `100 - stepCount`, variance `stepCount*rvarMeanStep + rvarMeanTer`, variance-of-variance `stepCount*rvarVarStep + rvarVarTer` |
| `Rewards.SemiSparseRequest` | MDP/environment.py:249-256 | the mean is 100 exactly at the terminal cell, with the terminal parameters; every other transition, the step limit included, has mean -1 with the step parameters |
| `Rewards.DenseRequest` | MDP/environment.py:285-290 | 100 with the terminal parameters at the terminal cell; elsewhere the step parameters, and mean `bonus - 1` when the cell's mark was 0 before the step, `-1` when it was 1 |
| `Rewards.PolicyRequest` | MDP/environment.py:209-290 | for every policy: a terminal transition pays 100 (less the steps for sparse); a non-terminal one uses the step variances, except a sparse ordinary step, which has none; a dense non-terminal mean lies in `[-1, 10)` |
| `Rewards.SparseStepSilent` | MDP/environment.py:209-212 | a sparse ordinary step has mean 0, no noise and no variance |
| `Rewards.SparseTerminalAccumulates` | MDP/environment.py:214-226 | the sparse terminal reward after `k` steps (`100 - k`, variance `k*rvarMeanStep + rvarMeanTer`, variance-of-variance `k*rvarVarStep + rvarVarTer`) is the sum of `k` semi-sparse step rewards and the semi-sparse terminal reward |
| `Rewards.ZeroParamsNoiseless` | MDP/environment.py:178-192 | with every variance parameter zero, every policy's reward has zero noise and no variance, for every transition |
| `Rewards.MarkReducesUnvisited` | MDP/environment.py:110-112 | marking a cell reduces the unvisited count by one exactly when the cell was unvisited |
| `Rewards.DenseBonusesBounded` | MDP/environment.py:285-290 | over any walk, the dense bonuses collected are at most 10 per cell that was unvisited at the start: each cell pays at most once |
| `Environment.Classify` | MDP/environment.py:102-108 | a transition is terminal iff it ends on the terminal cell, step-limit iff not terminal and `stepCount >= maxSteps`, ordinary otherwise |
| `Environment.DoneAfter` | MDP/environment.py:161-165 | an ordinary step keeps the code; closing sets a code other than 0, which is 1 exactly when the reason is the terminal cell and 2 for the step limit |
| `Environment.StepDoneCode` | MDP/environment.py:161-165 | reaching the terminal cell sets code 1 even at the step limit; otherwise reaching the limit sets 2; an ordinary step keeps the previous code; at or past the limit the code is never 0 |
| `Environment.InitialPassed` | MDP/environment.py:67-68 | one mark per cell, 1 exactly on the starting cell and 0 everywhere else |
| `Environment.InitialPassedUnvisited` | MDP/environment.py:64-68 | a fresh episode's marks are 0/1, with the starting cell marked and every other cell unvisited |
| `Environment.EpisodeDenseBonusBound` | MDP/environment.py:279-290 | over a whole episode the dense bonuses total at most `10 * (cells - 1)` |
| `Environment.StateRewards.constructor` | MDP/environment.py:13 | the cache starts empty |
| `Environment.StateRewards.TableFor` | MDP/environment.py:279-282 | the table for a key is created from the draw only if absent, has one entry per cell with each in `[0, 11)`, and an existing table is never replaced |
| `Environment.TabularEnv.constructor` | MDP/environment.py:41-62 | a new environment has the given grid, policy and parameters, the step limit 200, and a fresh episode on the drawn cell |
| `Environment.TabularEnv.NewDense` | MDP/environment.py:270-282 | a dense environment takes the cached table for `gridX*gridY`, and the cache gains the draw only if it had no table for that key |
| `Environment.TabularEnv.NewPassed` | MDP/environment.py:67-68 | a fresh array holding `InitialPassed`: 1 on the given cell, 0 elsewhere |
| `Environment.TabularEnv.InitGrid` | MDP/environment.py:64-68 | the terminal cell is 0 and the marks are a fresh list with only the current cell set |
| `Environment.TabularEnv.GetCurrentState` | MDP/environment.py:76-79 | the observation decodes to the current cell and the terminal cell |
| `Environment.TabularEnv.Reset` | MDP/environment.py:120-126 | code 0, step count 0, start and current cell the drawn cell, marks only on that cell; the observation returned is that cell's |
| `Environment.TabularEnv.GetReward` | MDP/environment.py:108 | the policy's reward for the current cell: 100 at the terminal cell (less the steps for sparse); -1 for semi-sparse elsewhere; for dense elsewhere the cell's bonus plus -1 when its mark is 0, else -1; a sparse ordinary step is `(0, 0, None)` |
| `Environment.TabularEnv.Close` | MDP/environment.py:161-169 | records code 1 or 2 by reason, then returns the policy's closing reward |
| `Environment.TabularEnv.MoveAgent` | MDP/environment.py:89-100 | the step-and-clamp on coordinates, converted back to an index, is exactly the reference move `MoveCell` |
| `Environment.TabularEnv.Step` | MDP/environment.py:81-114 | the step count grows by exactly 1; the agent makes the clamped move; the code follows `Classify` (terminal before step limit, otherwise unchanged); the reward is the policy's for that transition with the new cell's mark read before it is set; afterwards that mark is 1 and every other mark is unchanged; the integer code 0/1/2 is returned; the invariant (in bounds, 0/1 marks, current and start cells marked) is kept |

## Left out

- `render`: console drawing only. It changes no state.
- `seed` and every `np.random` call: the drawn starting cell, bonus table,
  chi-square variance and Gaussian noise are parameters.
- `drawChiSquare` is not part of this model. Its result is the parameter `chiDraw`.
- Rewards.ComputeReward: the noise is the given Gaussian draw. The model does
  not state that the draw has standard deviation `sqrt(variance)`. Floating
  point, `np.sqrt` and the NaN or error that numpy gives for a negative
  variance are outside the model.
- The gym action and observation spaces: `Step` requires `0 <= action < 4`
  where the source asserts membership of the action space.
- The "unknown closing reason" branches: the reason is a three-valued
  datatype, and `step` never passes any other reason.
- `getName`, the `name` strings, `bcolors` and the demo under `__main__`:
  display only.
- The bare base class `TabularEnv`: its `_get_reward` takes no argument, so
  its `close` could not call it. Only the three policy subclasses are
  modelled, and each fixes the step limit at the default 200.
- Missing keys in the reward-parameter dictionary: the parameters are a
  record with all four fields, so a `KeyError` cannot arise.
- Grid dimensions: the constructor requires positive width and height. With
  an empty grid the source fails while drawing the starting cell. Negative
  dimensions are not modelled: the source accepts two negative dimensions
  whose product is positive (`-2 × -3` draws from `range(6)`), but its
  coordinates are then meaningless.
- The observation is an integer here. The source computes a float with
  `10 ** ceil(log10(n))`, and `Grid.Digits` is the exact integer value of
  that exponent.
- The cache is an explicit `StateRewards` object passed to
  `TabularEnv.NewDense` rather than a module global. Sharing it across
  threads is not modelled.
