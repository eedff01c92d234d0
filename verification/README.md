# Q-learning Pacman agent — Dafny model

This project models `QLearnAgent`, a tabular Q-learning controller for Pacman
that plugs into the Berkeley Pacman engine. The engine calls the agent once
per move (`getAction`) and once at the end of every game (`final`). The agent
keeps:

- a Q-table from (game state, action) to a learned value, where a read of a
  missing key inserts it at 0;
- the previous state, action and score, used to learn from the last move;
- the learning rate `alpha`, the exploration rate `epsilon`, the discount
  `gamma`, and a game counter that switches learning off for good after
  `numTraining` games.

Modules:

- `QTable` (qtable.dfy): the table as `map<(S, A), real>` and its observable
  default-0 view `Lookup`. Also `GetQValue`, the read that inserts on a miss,
  and `ReadAll`, the loop that reads the value of every legal action.
- `Maximum` (argmax.dfy): the module-level `argmax` helper and `max`, with
  Python's first-maximum tie-break.
- `QLearn` (qlearn.dfy): the agent record, the constructor, the accessors,
  greedy selection, the temporal-difference update, and the two callbacks
  `GetAction` and `Final`.
- `Episodes` (episodes.dfy): runs of engine callbacks over many games. It
  holds the game-counting property and the one-way training freeze.
- `Scenarios` (scenarios.dfy): concrete runs on integer states and the five
  Pacman directions.

Modelling choices:

- The game state `S` and the action `A` are opaque types with equality. The
  source uses the engine's state object as the key directly.
- An `Observation` carries the state, its legal actions in the engine's order,
  and its score.
- The STOP action is the parameter `stop` of `GetAction`.
- Randomness is an input. `draw` is the `random.uniform(0, 1)` value compared
  with epsilon. `choice` is the index that `random.choice` picks among the
  legal moves.
- All numbers are `real`.
- The previous transition is an `Option<Transition>`.
- Python's dict mutation on read becomes a function that returns the value
  and the new table.

Behaviour of mlLearningAgents.py worth knowing:

- `final` does not clear the previous transition. So the first move of the
  next game updates the entry of the last move of the previous game, with the
  score difference across the two games as the reward. `Final` states that
  `prev` is unchanged.
- mlLearningAgents.py uses the engine's game state itself as the table key.
- STOP is always removed from the legal actions before the update and the
  selection.

## Model

| member | source | states |
|---|---|---|
| `QTable.GetQValue` | pacman-cw2/mlLearningAgents.py:153-162 | a missing key reads 0 and is inserted at 0; a present key returns its value and leaves the table as it was; no other entry changes |
| `QTable.ReadAll` | pacman-cw2/mlLearningAgents.py:167-169 | one value per legal action, in order, each the default-0 value of (state, action); the only table change is keys of that row inserted at 0 |
| `Maximum.ArgMax` | pacman-cw2/mlLearningAgents.py:206-207 | for a non-empty list, the index of an element at least as large as every other, with every earlier element strictly smaller (the first maximum) |
| `Maximum.ArgMaxUnique` | pacman-cw2/mlLearningAgents.py:206-207 | any index that is a first maximum is the one argmax returns, so the tie-break is fully determined |
| `Maximum.Max` | pacman-cw2/mlLearningAgents.py:195 | the largest element: an element of the list, at least every element |
| `QLearn.Init` | pacman-cw2/mlLearningAgents.py:37-58 | the given parameters, a game count of 0, an empty table, no previous transition; the freeze invariant holds |
| `QLearn.InitDefault` | pacman-cw2/mlLearningAgents.py:37 | default arguments alpha 0.2, epsilon 0.05, gamma 0.8, numTraining 10, and otherwise the fresh agent of the constructor: empty table, no previous transition, game count 0 |
| `QLearn.IncrementEpisodesSoFar` | pacman-cw2/mlLearningAgents.py:62-63 | the game count goes up by one and nothing else changes |
| `QLearn.SetAlpha` | pacman-cw2/mlLearningAgents.py:78-79 | alpha takes the value and nothing else changes |
| `QLearn.SetEpsilon` | pacman-cw2/mlLearningAgents.py:72-73 | epsilon takes the value and nothing else changes |
| `QLearn.RemoveFirst` | pacman-cw2/mlLearningAgents.py:96-98 | removing STOP takes exactly one occurrence out of the multiset of legal actions; the list is unchanged without STOP; otherwise the first STOP is cut out and the order of the rest is kept |
| `QLearn.GetActionFromQTable` | pacman-cw2/mlLearningAgents.py:164-170 | for non-empty legal actions, a legal action whose value is maximal among them, at the first position holding a maximum; the table only gains that row's keys at 0 |
| `QLearn.GreedyPicksFirstBest` | pacman-cw2/mlLearningAgents.py:164-170 | whenever position i is the first best among the legal actions, greedy selection returns the action at i |
| `QLearn.MaxNext` | pacman-cw2/mlLearningAgents.py:185-195 | the future term is 0 without legal actions, otherwise a value of some legal action at the current state that no legal action exceeds |
| `QLearn.UpdateQTable` | pacman-cw2/mlLearningAgents.py:172-202 | no table change when there is no previous transition (only before the agent's first move); otherwise the remembered (state, action) gets old*(1-alpha) + alpha*((score - prevScore) + gamma*maxNext), every other entry keeps its value or is a new key at 0, and only the table changes |
| `QLearn.UpdateChangesOnlyPrevEntry` | pacman-cw2/mlLearningAgents.py:192-202 | through the default-0 view, an update changes no entry other than the remembered (state, action) |
| `QLearn.AlphaZeroLearnsNothing` | pacman-cw2/mlLearningAgents.py:197-202 | with alpha 0 an update leaves every value the agent sees unchanged, including the remembered entry |
| `QLearn.GetAction` | pacman-cw2/mlLearningAgents.py:92-129 | the pick is one of the legal actions left after removing STOP, and never STOP when the engine lists it at most once; a draw not above epsilon returns the randomly chosen action; a draw above epsilon returns the first best action of the updated table; the table is the updated one, plus, on the greedy branch, exactly the current state's row of legal actions inserted at 0; afterwards the previous transition is (state, pick, score); the parameters and game count are unchanged |
| `QLearn.GetActionKeepsFreeze` | pacman-cw2/mlLearningAgents.py:92-129 | a move never changes alpha or epsilon, so frozen stays frozen and the freeze invariant is kept |
| `QLearn.FinalKeepsFreeze` | pacman-cw2/mlLearningAgents.py:146-151 | the end of a game never raises alpha or epsilon once both are 0 |
| `QLearn.FrozenPicksGreedily` | pacman-cw2/mlLearningAgents.py:114-116 | with alpha and epsilon 0 and a positive draw, the move is the greedy choice on the table before the move |
| `QLearn.ZeroDrawExploresEvenWhenFrozen` | pacman-cw2/mlLearningAgents.py:114-119 | because the test is strictly greater, a draw of exactly 0 takes the random branch even with epsilon 0 |
| `QLearn.Final` | pacman-cw2/mlLearningAgents.py:135-151 | a last update with no future term, using alpha from before the freeze; the game count goes up by exactly 1; alpha and epsilon become 0 when the count reaches numTraining and are untouched otherwise; the previous transition is kept; the freeze invariant is kept |
| `Episodes.RunCountsGames` | pacman-cw2/mlLearningAgents.py:146-147 | over any sequence of callbacks the game count rises by the number of ended games; gamma and numTraining never change |
| `Episodes.RunKeepsFreezeInvariant` | pacman-cw2/mlLearningAgents.py:146-151 | if a positive numTraining has been reached, alpha and epsilon are 0, and this stays true over any sequence of callbacks |
| `Episodes.RunKeepsFrozen` | pacman-cw2/mlLearningAgents.py:146-151 | once alpha and epsilon are both 0, no sequence of callbacks raises them again |
| `Episodes.RunKeepsRatesUntilTrainingEnds` | pacman-cw2/mlLearningAgents.py:146-151 | alpha and epsilon keep their values over any run that does not end the numTraining-th game |
| `Episodes.TrainingEndsAfterNumTraining` | pacman-cw2/mlLearningAgents.py:146-151 | a fresh agent with a positive numTraining is frozen after any run that ends at least numTraining games |
| `Episodes.FrozenRunLearnsNothing` | pacman-cw2/mlLearningAgents.py:197-202 | a frozen agent never changes any value it sees in its table, over any sequence of callbacks |
| `Scenarios.TieGoesToFirstListed` | pacman-cw2/mlLearningAgents.py:164-170 | with North and East both worth 3, greedy selection over [North, East] returns North |
| `Scenarios.RemovesStop` | pacman-cw2/mlLearningAgents.py:96-98 | removing STOP from [d, STOP] leaves [d] |
| `Scenarios.FirstMove` | pacman-cw2/mlLearningAgents.py:108-125 | the first move of a fresh agent does no update and remembers (state 0, East, score 0) |
| `Scenarios.SecondMove` | pacman-cw2/mlLearningAgents.py:197-202 | with alpha 1 and gamma 0.9, a move to a fresh state with score 5 sets the value of (0, East) to 5 |
| `Scenarios.GameEnd` | pacman-cw2/mlLearningAgents.py:139-151 | ending the game at an unchanged score teaches the last transition 0, leaves (0, East) at 5, and freezes an agent with numTraining 1 |
| `Scenarios.OneTrainingGame` | pacman-cw2/mlLearningAgents.py:92-151 | one training game of two moves with numTraining 1 leaves (0, East) at 5 and the agent frozen |

## Left out

- Console output: every `print` in the class is I/O only.
- The game engine: `GameState`, `Directions`, `Agent` and `util` are not part of this model. A state is an opaque key, and its legal actions and score come in an `Observation`.
- The random number generator: `random.uniform` and `random.choice` become the inputs `draw` and `choice`.
- Floating point: Q-values and all parameters are exact `real` numbers, with no rounding.
- The `float(...)` and `int(...)` conversions of the constructor arguments: they are taken as already converted.
- `getMaxAttempts`: it reads an attribute that is never set, so any call raises.
- The getters `getEpisodesSoFar`, `getNumTraining`, `getAlpha` and `getGamma`: they are field reads of the agent record.
- Python truthiness in the first-step test: the previous transition is an option. A game state object and a direction name are always truthy, so this is the same test.
- QLearn.GetAction: when STOP is the only legal action, the source raises from `max` of an empty list or from `random.choice`, after it has already run the update. The model requires a valid random index into the non-empty remaining actions instead of modelling the exception.
- QLearn.GetActionFromQTable: an empty list of legal actions raises in the source. The model requires a non-empty list.
- Episode isolation: `final` keeps the previous transition, so nothing isolates one game from the next, and no such property is stated.
