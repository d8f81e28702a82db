# Number tic-tac-toe environment, in Dafny

A model of the rule engine of a reinforcement-learning environment for a
number-placement variant of tic-tac-toe (the `TicTacToe` class of
`TCGame_Env1.py`). The agent places odd numbers and the environment even
numbers, each drawn from 1..9 and used at most once, on a 3x3 board stored
row-major in nine cells; a row, column or diagonal whose three numbers add up
to 15 wins. A step plays the agent's move on a copy of the board, classifies
the result, and, unless the game is over, plays one environment move chosen
at random, turning the reward into a loss if that move wins.

Files:

- `Wrappers.dfy` — `Option` and `Result`.
- `Rules.dfy` — the board (`Cell = Option<int>`, `None` being the NaN of an
  empty cell), moves, and the read-only queries: winning lines, free cells,
  unused numbers, action spaces, terminal classification, reward.
- `TicTacToe.dfy` — the environment object: `class TicTacToe` with its
  `state` board, the loop of `is_winning`, the in-place `state_transition`,
  and `step` (copy, then mutate), specified by `TwoPly`, the step on values.
- `StepProperties.dfy` — what a step guarantees: how it ends after the
  agent's move or after the environment's reply, that the environment always
  has a reply on a board reached in play, and that play keeps boards well
  formed (numbers in 1..9, none twice, as many odd as even numbers when the
  agent is to move).
- `DoneFlag.dfy` — the `done` flag of a step, as written and as intended
  (see Findings).

The returned `done` flag is the terminal flag of the board after the
agent's move (`TCGame_Env1.py:111`, `:124`), although the docstring of
`step` promises "whether the state is terminal" for the next state it
returns and asks to "again check the board status" after the environment's
move (`TCGame_Env1.py:98-99`). The model follows the code and records the
difference under Findings.

## Model

| member | source | states |
|---|---|---|
| Rules.NanSumOfLine | TCGame_Env1.py:36-42 | The NaN-propagating sum of a line is a number exactly when every cell of the line is filled, and is then the sum of its numbers; an empty cell makes it never equal 15. |
| Rules.WinningLines | TCGame_Env1.py:24-44 | A board is winning exactly when one of the 3 rows, 2 diagonals or 3 columns has all three cells filled with numbers adding up to 15. |
| Rules.CompletesTriple | TCGame_Env1.py:36-42 | A line of three cells completes exactly when its three cells are filled and sum to 15. |
| TCGameEnv.TicTacToe.IsWinning | TCGame_Env1.py:20-44 | The nested loop over the winning table returns true exactly when the board is winning. |
| Rules.AllowedPositions | TCGame_Env1.py:58-60 | The result holds exactly the indices of the empty cells, in strictly increasing order. |
| Rules.UsedValues | TCGame_Env1.py:65 | A number is listed exactly when some cell holds it. |
| Rules.Unused | TCGame_Env1.py:66-67 | Keeps exactly the candidate numbers that are unused and of the requested parity, in their ascending order. |
| Rules.AllowedValues | TCGame_Env1.py:62-69 | The agent's list is the unused odd numbers of 1..9, the environment's the unused even ones, each ascending; they are disjoint and together make up 1..9 minus the used numbers. |
| Rules.Pairs | TCGame_Env1.py:74-75 | One cell paired with each number, one move per number. |
| Rules.Product | TCGame_Env1.py:74-75 | The product has \|cells\| x \|numbers\| moves, and a move is in it exactly when its cell and its number are. |
| Rules.ActionSpace | TCGame_Env1.py:71-76 | A move is the agent's (environment's) exactly when its cell is empty and its number is an unused odd (even) number of 1..9; each list has \|allowed positions\| x \|that player's numbers\| moves. |
| TCGameEnv.TicTacToe.StateTransition | TCGame_Env1.py:78-85 | Writes the move's number into its cell of the board it is given, in place, and returns that same board. |
| StepProperties.TransitionFillsOneCell | TCGame_Env1.py:78-85 | A legal move of either player fills exactly one more cell, puts its number there, leaves the other eight cells unchanged, and keeps a well-formed board well formed. |
| Rules.IsTerminal | TCGame_Env1.py:46-56 | Win exactly when the board is winning (even when full); Tie exactly when it is not winning and every cell is filled; Resume otherwise; terminal exactly when not Resume; never Loss. |
| Rules.Reward | TCGame_Env1.py:87-95 | The reward is 10 exactly for Win, 0 exactly for Tie, -1 exactly for Resume and -10 exactly for Loss; Win is the only positive reward and Loss the only one below -1. |
| TCGameEnv.TicTacToe.constructor | TCGame_Env1.py:10-18 | A new environment owns a fresh board of nine empty cells. |
| StepProperties.EmptyBoardPlayable | TCGame_Env1.py:14 | The starting board is well formed and balanced, so the agent may open. |
| TCGameEnv.TicTacToe.Reset | TCGame_Env1.py:126-127 | Hands out the environment's own board object, not a copy. |
| TCGameEnv.TwoPly | TCGame_Env1.py:97-124 | A successful step returns a nine-cell board, and a step that reports done returns a terminal board. |
| TCGameEnv.TicTacToe.Step | TCGame_Env1.py:97-124 | Fails exactly when the step on values fails, with the same error; otherwise returns a fresh board with that step's next board, reward and done flag; the caller's board is not modified. |
| StepProperties.StepRefusesIllegalMoves | TCGame_Env1.py:104-105 | A step is refused as invalid exactly when the agent's move is not in its action space; on a balanced board it succeeds exactly when the move is legal. |
| StepProperties.AgentHasAMove | TCGame_Env1.py:104-105 | On a balanced board that is not terminal the agent has at least one legal move. |
| StepProperties.EnvironmentHasAMove | TCGame_Env1.py:115-117 | After a legal agent move on a balanced board that leaves the game open, the environment has at least one move, so the random choice is never made from nothing. |
| StepProperties.AgentMoveEndsGame | TCGame_Env1.py:109-115 | When the agent's move is terminal the step returns that board with one more cell filled, reward 10 exactly when it is won and 0 exactly when it is tied, and done. |
| StepProperties.EnvironmentReplies | TCGame_Env1.py:114-124 | Otherwise the environment's chosen move places an unused even number of 1..9 in a cell that was empty, two more cells are filled, the reward is -10 exactly when the returned board is winning and -1 exactly when it is not, and done is false. |
| StepProperties.StepKeepsBoardPlayable | TCGame_Env1.py:107-124 | Every board a step returns is well formed, and one returned with done false is balanced again. |
| DoneFlag.WonBoardPaysAgent | TCGame_Env1.py:104-124 | On the won board that step returns (1 3 5 / 2 4 6 / 7 8 _), play is still accepted: the agent's 9 in cell 8 is legal and is paid 10 with done true. |
| DoneFlag.DoneIgnoresEnvironmentWin | TCGame_Env1.py:111-124 | On the playable board 1 3 5 / 2 4 6 / _ _ _, the agent's 7 in cell 6 followed by the environment's first listed reply (8 in cell 7) returns reward -10 with done false, on a board classified (true, Win). |
| DoneFlag.TwoPlyIntended | TCGame_Env1.py:119-124 | The corrected step fails exactly when the written one does and returns the same board and reward, but done says whether the returned board is terminal. |
| DoneFlag.IntendedStepContinuesOnlyOpenGames | TCGame_Env1.py:119-124 | With the corrected flag, a step from a playable board that does not report done returns a board that is not won, is playable, and offers the agent a legal move. |

## Left out

- Randomness: `random.choice` (`TCGame_Env1.py:117`) is the parameter `draw`; the environment plays the move at index `draw` modulo the number of its moves. Nothing is said about the distribution.
- NaN floats and `np.isnan`: a cell is `Option<int>`, and the NaN-absorbing sum is written out on it.
- The unused imports `gym.spaces`, `groupby` and `numpy` plumbing.
- Python iterator details: `product` objects are single-use, and the validity check at line 105 compares tuples with the caller's action by `==` (a list never equals a tuple there). The model tests membership of the move in the action space.
- Python exceptions: the failed assertion at line 105 is `Failure(InvalidAction)`, and `random.choice` on an empty list is `Failure(NoEnvironmentAction)`, which `StepProperties.EnvironmentHasAMove` shows cannot happen on a balanced board.
- Boards of other than nine cells, non-integer cells, negative (from-the-end) Python indices and moves outside the board: every operation that reads a winning line or takes a step requires a nine-cell board, and `StateTransition` a cell index inside it.
- `all_possible_numbers` is the constant `Rules.AllPossibleNumbers` instead of a per-instance field computed from the board length.
- Status strings other than the four outcomes: `Rules.Reward` takes an `Outcome`, so the catch-all `else` branch is the `Loss` case only.
- TCGameEnv.TicTacToe.Reset: returns the environment's own board as the code does; its contents are empty only as long as no caller has written into the returned board, which the model does not track beyond the constructor.

## Findings

| source | as written | input that shows it | evidently intended | confidence | as-written member | corrected member |
|---|---|---|---|---|---|---|
| TCGame_Env1.py:124 | `done` is the terminal flag of the board after the agent's move; the flag computed after the environment's move (line 119) only adjusts the reward | board 1 3 5 / 2 4 6 / _ _ _, agent move 7 into cell 6, environment reply 8 into cell 7 (its first listed move): the returned board wins on the middle column 3 + 4 + 8, reward -10, done false | `done` reports whether the returned board is terminal, so a game lost by the environment's move ends; as written, the agent's next move on that won board (9 into cell 8) is paid 10 with done true (`DoneFlag.WonBoardPaysAgent`) | medium, not executed | DoneFlag.DoneIgnoresEnvironmentWin | DoneFlag.TwoPlyIntended |
