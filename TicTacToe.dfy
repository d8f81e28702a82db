/**
 * The `TicTacToe` environment: the board it is created with, the in-place
 * board updates, and the two-ply step (the agent's move, then, unless that
 * ended the game, one environment move).
 *
 * A board that the environment writes into is an `array<Cell>` of nine cells;
 * the queries of module Rules read it as the sequence `board[..]`.
 */
module TCGameEnv {
  import opened Wrappers
  import opened Rules

  /** Why a step is refused. */
  datatype StepError =
    | InvalidAction        // the agent's move is not in its action space
    | NoEnvironmentAction  // the environment must move but has no legal move

  /** What a step reports, on values: the next board, the agent's reward, and the done flag. */
  datatype Turn = Turn(next: seq<Cell>, reward: int, done: bool)

  /** What a step returns: a new board object, the agent's reward, and the done flag. */
  datatype Reply = Reply(state: array<Cell>, reward: int, done: bool)

  /**
   * The two-ply step on values. `draw` stands for the random choice among the
   * environment's moves: the move taken is the one at index `draw` modulo their number.
   * `done` is whether the board was terminal after the AGENT's move.
   */
  function TwoPly(s: seq<Cell>, action: Action, draw: nat): (r: Result<Turn, StepError>)
    requires |s| == 9
    ensures r.Success? ==> |r.value.next| == 9
    ensures r.Success? && r.value.done ==> IsTerminal(r.value.next).0
  {
    if action !in ActionSpace(s).0 then Failure(InvalidAction)
    else
      var afterAgent := Place(s, action);
      var (terminal, status) := IsTerminal(afterAgent);
      var reward := Reward(status);
      if terminal then Success(Turn(afterAgent, reward, true))
      else
        var envActions := ActionSpace(afterAgent).1;
        if |envActions| == 0 then Failure(NoEnvironmentAction)
        else
          var afterEnv := Place(afterAgent, envActions[draw % |envActions|]);
          var (terminated, status2) := IsTerminal(afterEnv);
          Success(Turn(afterEnv, if terminated && status2 == Win then Reward(Loss) else reward, false))
  }

  class TicTacToe {
    /** The board the environment was created with. */
    var state: array<Cell>

    /** A new environment on an empty board. */
    constructor ()
      ensures fresh(state) && state[..] == EmptyBoard
    {
      state := new Cell[9](_ => None);
    }

    /** Hands out the environment's own board (not a copy). */
    method Reset() returns (board: array<Cell>)
      ensures board == state
    {
      board := state;
    }

    /** `is_winning`: adds up each winning line, NaN-style, and stops at the first that makes 15. */
    method IsWinning(board: array<Cell>) returns (won: bool)
      requires board.Length == 9
      ensures won <==> Winning(board[..])
    {
      var i := 0;
      while i < |WinningPositions|
        invariant 0 <= i <= |WinningPositions|
        invariant forall k :: 0 <= k < i ==> !Completes(board[..], WinningPositions[k])
      {
        var line := WinningPositions[i];
        var sum: Cell := Some(0);
        var j := 0;
        while j < |line|
          invariant 0 <= j <= |line|
          invariant sum == NanSum(board[..], line[..j])
        {
          assert line[..j + 1][..j] == line[..j];
          sum := AddCell(sum, board[line[j]]);
          j := j + 1;
        }
        assert line[..|line|] == line;
        NanSumOfLine(board[..], line);
        if sum == Some(WinningSum) {
          return true;
        }
        i := i + 1;
      }
      return false;
    }

    /** `state_transition`: writes the action's number into its cell of `board` and returns that same board. */
    method StateTransition(board: array<Cell>, action: Action) returns (res: array<Cell>)
      requires 0 <= action.pos < board.Length
      modifies board
      ensures res == board
      ensures board[..] == Place(old(board[..]), action)
    {
      res := board;
      res[action.pos] := Some(action.val);
    }

    /**
     * `step`: refuses an agent move outside the agent's action space; otherwise
     * copies the board, plays the agent's move on the copy, and, unless that
     * ended the game, plays the environment move `draw` selects; a win by the
     * environment turns the reward into a loss. The caller's board is not modified.
     */
    method Step(board: array<Cell>, action: Action, draw: nat) returns (r: Result<Reply, StepError>)
      requires board.Length == 9
      ensures r.Success? ==> fresh(r.value.state)
      ensures TwoPly(board[..], action, draw).Failure? <==> r.Failure?
      ensures r.Failure? ==> r.error == TwoPly(board[..], action, draw).error
      ensures r.Success? ==>
        var t := TwoPly(board[..], action, draw).value;
        r.value.state[..] == t.next && r.value.reward == t.reward && r.value.done == t.done
    {
      ghost var s := board[..];
      var (agentActions, _) := ActionSpace(board[..]);
      if action !in agentActions {
        return Failure(InvalidAction);
      }
      var res := new Cell[board.Length];
      forall i | 0 <= i < board.Length {
        res[i] := board[i];
      }
      res := StateTransition(res, action);
      ghost var afterAgent := res[..];
      assert afterAgent == Place(s, action);
      var (terminal, status) := IsTerminal(res[..]);
      var reward := Reward(status);
      if !terminal {
        var (_, envActions) := ActionSpace(res[..]);
        if |envActions| == 0 {
          assert board[..] == s;
          return Failure(NoEnvironmentAction);
        }
        var envAction := envActions[draw % |envActions|];
        res := StateTransition(res, envAction);
        var (terminated, status2) := IsTerminal(res[..]);
        if terminated && status2 == Win {
          reward := Reward(Loss);
        }
      }
      assert board[..] == s;
      r := Success(Reply(res, reward, terminal));
    }
  }
}
