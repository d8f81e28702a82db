/**
 * The `done` flag a step returns. As written, it is the terminal flag of the
 * board after the AGENT's move, so a step in which the environment's reply
 * wins reports a loss (-10) but not the end of the game. The step as intended
 * reports whether the board it returns is terminal.
 */
module DoneFlag {
  import opened Wrappers
  import opened Rules
  import opened TCGameEnv
  import opened StepProperties

  /**
   * The board of the counterexample, top two rows full: the agent's 1 3 5
   * above the environment's 2 4 6, bottom row empty.
   */
  predicate IsBefore(s: seq<Cell>) {
    && |s| == 9
    && s[0] == Some(1) && s[1] == Some(3) && s[2] == Some(5)
    && s[3] == Some(2) && s[4] == Some(4) && s[5] == Some(6)
    && s[6] == None && s[7] == None && s[8] == None
  }

  /** `Tally` peeled one cell at a time. */
  lemma TallyFrom(s: seq<Cell>, i: nat, k: Kind)
    requires i < |s|
    ensures Tally(s[i..], k) == (if KindOf(s[i]) == k then 1 else 0) + Tally(s[i + 1..], k)
  {
  }

  lemma BeforeIsPlayable(s: seq<Cell>)
    requires IsBefore(s)
    ensures Playable(s)
  {
    TallyOfBlank(s[6..]);
    forall i | 0 <= i < 6
      ensures Tally(s[i..], Odd) == (if KindOf(s[i]) == Odd then 1 else 0) + Tally(s[i + 1..], Odd)
      ensures Tally(s[i..], Even) == (if KindOf(s[i]) == Even then 1 else 0) + Tally(s[i + 1..], Even)
    {
      TallyFrom(s, i, Odd);
      TallyFrom(s, i, Even);
    }
    assert s[0..] == s;
  }

  /** The board after the agent's 7 in the bottom-left cell. */
  predicate IsAfterAgent(t: seq<Cell>) {
    && |t| == 9
    && t[0] == Some(1) && t[1] == Some(3) && t[2] == Some(5)
    && t[3] == Some(2) && t[4] == Some(4) && t[5] == Some(6)
    && t[6] == Some(7) && t[7] == None && t[8] == None
  }

  /** The agent may put its 7 in the bottom-left cell. */
  lemma AgentMoveIsLegal(s: seq<Cell>)
    requires IsBefore(s)
    ensures Action(6, 7) in ActionSpace(s).0
  {
    assert forall i :: 0 <= i < 9 ==> s[i] != Some(7);
  }

  /** The agent's 7 in the bottom-left cell leaves the game open. */
  lemma AgentMoveLeavesGameOpen(s: seq<Cell>)
    requires IsBefore(s)
    ensures IsAfterAgent(Place(s, Action(6, 7)))
    ensures IsTerminal(Place(s, Action(6, 7))) == (false, Resume)
  {
    WinningLines(Place(s, Action(6, 7)));
  }

  /** The numbers 2, 4 and 6 are on the board after the agent's move; 8 is not. */
  lemma EvensOnBoardAfterAgent(t: seq<Cell>)
    requires IsAfterAgent(t)
    ensures Some(2) in t && Some(4) in t && Some(6) in t && Some(8) !in t
  {
  }

  /** The first free cell after the agent's move is cell 7. */
  lemma OpenCellsAfterAgent(t: seq<Cell>)
    requires IsAfterAgent(t)
    ensures |AllowedPositions(t)| > 0 && AllowedPositions(t)[0] == 7
  {
  }

  /** The smallest even number left after the agent's move is 8. */
  lemma EvensLeftAfterAgent(t: seq<Cell>)
    requires IsAfterAgent(t)
    ensures |AllowedValues(t).1| > 0 && AllowedValues(t).1[0] == 8
  {
    var evens := AllowedValues(t).1;
    EvensOnBoardAfterAgent(t);
    assert 8 in evens;
    var v := evens[0];
    assert v in evens;
    assert v <= 8;
    assert v == 2 || v == 4 || v == 6 || v == 8;
  }

  /** The first move of a product is its first cell with its first number. */
  lemma ProductHead(ps: seq<int>, vs: seq<int>)
    requires |ps| > 0 && |vs| > 0
    ensures |Product(ps, vs)| > 0 && Product(ps, vs)[0] == Action(ps[0], vs[0])
  {
  }

  /** Then the environment's first listed move is 8 into cell 7. */
  lemma RepliesAfterAgentMove(t: seq<Cell>)
    requires IsAfterAgent(t)
    ensures |ActionSpace(t).1| > 0 && ActionSpace(t).1[0] == Action(7, 8)
  {
    OpenCellsAfterAgent(t);
    EvensLeftAfterAgent(t);
    ProductHead(AllowedPositions(t), AllowedValues(t).1);
  }

  /** The environment's 8 in the bottom-middle cell completes the middle column 3 + 4 + 8. */
  lemma ReplyWins(s: seq<Cell>)
    requires IsBefore(s)
    ensures IsTerminal(Place(Place(s, Action(6, 7)), Action(7, 8))) == (true, Win)
  {
    WinningLines(Place(Place(s, Action(6, 7)), Action(7, 8)));
  }

  /**
   * On this playable board, the agent's move leaves the game open and the
   * environment's first listed reply wins: the step returns reward -10 with
   * done false, although the board it returns is won.
   */
  lemma DoneIgnoresEnvironmentWin(s: seq<Cell>)
    requires IsBefore(s)
    ensures Playable(s)
    ensures var won := Place(Place(s, Action(6, 7)), Action(7, 8));
      && TwoPly(s, Action(6, 7), 0) == Success(Turn(won, -10, false))
      && IsTerminal(won) == (true, Win)
  {
    var a := Action(6, 7);
    BeforeIsPlayable(s);
    AgentMoveLeavesGameOpen(s);
    RepliesAfterAgentMove(Place(s, a));
    ReplyWins(s);
    AgentMoveIsLegal(s);
    EnvironmentReplies(s, a, 0);
  }

  /** The board the counterexample step returns: 1 3 5 / 2 4 6 / 7 8 _. */
  predicate IsAfterReply(w: seq<Cell>) {
    && |w| == 9
    && w[0] == Some(1) && w[1] == Some(3) && w[2] == Some(5)
    && w[3] == Some(2) && w[4] == Some(4) && w[5] == Some(6)
    && w[6] == Some(7) && w[7] == Some(8) && w[8] == None
  }

  /** The agent's 9 in the last cell is legal on that board. */
  lemma NineIsLegal(w: seq<Cell>)
    requires IsAfterReply(w)
    ensures Action(8, 9) in ActionSpace(w).0
  {
    assert w == [Some(1), Some(3), Some(5), Some(2), Some(4), Some(6), Some(7), Some(8), None];
    assert Some(9) !in w;
  }

  /** The agent's 9 fills the last cell of a board the middle column 3 + 4 + 8 already wins: a Win. */
  lemma NineEndsGame(w: seq<Cell>)
    requires IsAfterReply(w)
    ensures IsTerminal(Place(w, Action(8, 9))) == (true, Win)
  {
    WinningLines(Place(w, Action(8, 9)));
  }

  /**
   * Because that step does not report done, play goes on on the won board:
   * the agent's 9 in the last cell is legal there and is paid 10 with done true.
   */
  lemma WonBoardPaysAgent(s: seq<Cell>)
    requires IsBefore(s)
    ensures var won := Place(Place(s, Action(6, 7)), Action(7, 8));
      && Action(8, 9) in ActionSpace(won).0
      && TwoPly(won, Action(8, 9), 0) == Success(Turn(Place(won, Action(8, 9)), 10, true))
  {
    var won := Place(Place(s, Action(6, 7)), Action(7, 8));
    assert IsAfterReply(won);
    NineIsLegal(won);
    NineEndsGame(won);
    AgentMoveEndsGame(won, Action(8, 9), 0);
  }

  /** The step as intended: like `TwoPly`, but done says whether the returned board is terminal. */
  function TwoPlyIntended(s: seq<Cell>, action: Action, draw: nat): (r: Result<Turn, StepError>)
    requires |s| == 9
    ensures r.Failure? <==> TwoPly(s, action, draw).Failure?
    ensures r.Success? ==>
      && r.value.next == TwoPly(s, action, draw).value.next
      && r.value.reward == TwoPly(s, action, draw).value.reward
      && r.value.done == IsTerminal(r.value.next).0
  {
    match TwoPly(s, action, draw)
    case Failure(e) => Failure(e)
    case Success(t) => Success(t.(done := IsTerminal(t.next).0))
  }

  /**
   * With the intended flag, a step that does not report done hands back a
   * board that is not won, on which it is the agent's turn, and on which the
   * agent has a legal move: play can always go on until done is reported.
   */
  lemma IntendedStepContinuesOnlyOpenGames(s: seq<Cell>, a: Action, draw: nat)
    requires Playable(s)
    requires TwoPlyIntended(s, a, draw).Success? && !TwoPlyIntended(s, a, draw).value.done
    ensures var next := TwoPlyIntended(s, a, draw).value.next;
      !Winning(next) && Playable(next) && |ActionSpace(next).0| > 0
  {
    var t := TwoPly(s, a, draw).value;
    assert !IsTerminal(t.next).0 && !t.done;
    StepKeepsBoardPlayable(s, a, draw);
    AgentHasAMove(t.next);
  }
}
