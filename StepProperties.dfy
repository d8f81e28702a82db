/**
 * What a step guarantees: how it ends after the agent's move or after the
 * environment's reply, that the environment always has a reply on a board
 * reached in play, and that play keeps the board well formed.
 */
module StepProperties {
  import opened Wrappers
  import opened Rules
  import opened TCGameEnv

  // ---------------------------------------------------------------------------
  // Counting cells

  /** What a cell holds: nothing, an odd number (the agent's) or an even number (the environment's). */
  datatype Kind = Empty | Odd | Even

  function KindOf(c: Cell): Kind {
    match c
    case None => Empty
    case Some(v) => if v % 2 == 0 then Even else Odd
  }

  /** The number of cells of kind `k`. */
  function Tally(s: seq<Cell>, k: Kind): nat {
    if s == [] then 0 else (if KindOf(s[0]) == k then 1 else 0) + Tally(s[1..], k)
  }

  /** Every cell is empty, odd or even. */
  lemma {:induction false} TallyKinds(s: seq<Cell>)
    ensures Tally(s, Empty) + Tally(s, Odd) + Tally(s, Even) == |s|
  {
    if s != [] {
      TallyKinds(s[1..]);
    }
  }

  /** Overwriting one cell moves that cell from its old kind to its new one. */
  lemma {:induction false} TallyUpdate(s: seq<Cell>, p: nat, c: Cell, k: Kind)
    requires p < |s|
    ensures Tally(s[p := c], k) ==
      Tally(s, k) - (if KindOf(s[p]) == k then 1 else 0) + (if KindOf(c) == k then 1 else 0)
  {
    if p == 0 {
      assert s[p := c][1..] == s[1..];
    } else {
      assert s[p := c][1..] == s[1..][p - 1 := c];
      TallyUpdate(s[1..], p - 1, c, k);
    }
  }

  lemma {:induction false} EmptyFromTally(s: seq<Cell>, lo: nat)
    requires lo <= |s|
    ensures |EmptyFrom(s, lo)| == Tally(s[lo..], Empty)
    decreases |s| - lo
  {
    if lo < |s| {
      EmptyFromTally(s, lo + 1);
      assert s[lo..][1..] == s[lo + 1..];
    }
  }

  /** The allowed positions are as many as the empty cells. */
  lemma AllowedPositionsTally(s: seq<Cell>)
    ensures |AllowedPositions(s)| == Tally(s, Empty)
  {
    EmptyFromTally(s, 0);
    assert s[0..] == s;
  }

  /**
   * Pigeonhole: distinct numbers of kind `k`, all present on the board, need
   * as many cells of that kind.
   */
  lemma {:induction false} TallyCoversValues(s: seq<Cell>, vs: set<int>, k: Kind)
    requires forall v :: v in vs ==> KindOf(Some(v)) == k && Some(v) in s
    ensures |vs| <= Tally(s, k)
  {
    if s == [] {
      assert vs == {};
    } else if s[0].Some? && s[0].value in vs {
      var rest := vs - {s[0].value};
      assert forall v :: v in rest ==> Some(v) in s[1..] by {
        forall v | v in rest ensures Some(v) in s[1..] {
          assert Some(v) in s && Some(v) != s[0];
        }
      }
      TallyCoversValues(s[1..], rest, k);
    } else {
      assert forall v :: v in vs ==> Some(v) in s[1..] by {
        forall v | v in vs ensures Some(v) in s[1..] {
          assert Some(v) in s && Some(v) != s[0];
        }
      }
      TallyCoversValues(s[1..], vs, k);
    }
  }

  /** Hence if there are more such numbers than cells of kind `k`, one of them is not on the board. */
  lemma MissingValue(s: seq<Cell>, vs: set<int>, k: Kind) returns (v: int)
    requires forall w :: w in vs ==> KindOf(Some(w)) == k
    requires Tally(s, k) < |vs|
    ensures v in vs && Some(v) !in s
  {
    if forall w :: w in vs ==> Some(w) in s {
      TallyCoversValues(s, vs, k);
      assert false;
    }
    v :| v in vs && Some(v) !in s;
  }

  /** A board with no number on it holds no odd and no even cell. */
  lemma {:induction false} TallyOfBlank(s: seq<Cell>)
    requires forall i :: 0 <= i < |s| ==> s[i] == None
    ensures Tally(s, Odd) == 0 && Tally(s, Even) == 0
  {
    if s != [] {
      TallyOfBlank(s[1..]);
    }
  }

  // ---------------------------------------------------------------------------
  // Boards reached in play

  /** Every number is in 1..9 and no number is on the board twice. */
  predicate WellFormed(s: seq<Cell>) {
    && |s| == 9
    && (forall i :: 0 <= i < 9 && s[i].Some? ==> 1 <= s[i].value <= 9)
    && (forall i, j :: 0 <= i < j < 9 && s[i].Some? && s[j].Some? ==> s[i].value != s[j].value)
  }

  /** The agent, who moves first, has made as many moves as the environment. */
  predicate Balanced(s: seq<Cell>) {
    Tally(s, Odd) == Tally(s, Even)
  }

  /** A board on which it is the agent's turn, as every board a step returns unfinished is. */
  predicate Playable(s: seq<Cell>) {
    WellFormed(s) && Balanced(s)
  }

  /** The board a game starts from is one on which the agent may play. */
  lemma EmptyBoardPlayable()
    ensures Playable(EmptyBoard)
  {
    TallyOfBlank(EmptyBoard);
  }

  /**
   * `state_transition` with a legal move of either player fills exactly one
   * more cell, writes the move's number there, and leaves every other cell
   * as it was.
   */
  lemma TransitionFillsOneCell(s: seq<Cell>, a: Action)
    requires |s| == 9 && (a in ActionSpace(s).0 || a in ActionSpace(s).1)
    ensures |AllowedPositions(Place(s, a))| + 1 == |AllowedPositions(s)|
    ensures Place(s, a)[a.pos] == Some(a.val)
    ensures forall i :: 0 <= i < 9 && i != a.pos ==> Place(s, a)[i] == s[i]
    ensures WellFormed(s) ==> WellFormed(Place(s, a))
  {
    AllowedPositionsTally(s);
    AllowedPositionsTally(Place(s, a));
    TallyUpdate(s, a.pos, Some(a.val), Empty);
  }

  /**
   * On a balanced board, whenever the agent's legal move leaves the game
   * open, the environment has a legal reply: it has placed no more numbers
   * than the agent, at most three of its four even numbers are on the board.
   */
  lemma EnvironmentHasAMove(s: seq<Cell>, a: Action)
    requires |s| == 9 && Balanced(s) && a in ActionSpace(s).0
    requires !IsTerminal(Place(s, a)).0
    ensures |ActionSpace(Place(s, a)).1| > 0
  {
    var after := Place(s, a);
    assert Tally(after, Empty) >= 1 by {
      var i := EmptyCellOf(after);
      AllowedPositionsTally(after);
    }
    FewEvensAfterAgentMove(s, a);
    ReplyExists(after);
  }

  /** An open board with at most three even cells offers the environment a move. */
  lemma ReplyExists(t: seq<Cell>)
    requires |t| == 9 && !IsTerminal(t).0 && Tally(t, Even) <= 3
    ensures |ActionSpace(t).1| > 0
  {
    var i := EmptyCellOf(t);
    var evens := {2, 4, 6, 8};
    assert |evens| == 4;
    var v := MissingValue(t, evens, Even);
    assert Action(i, v) in ActionSpace(t).1;
  }

  /** After the agent's move on a balanced board leaves a cell empty, at most three cells are even. */
  lemma FewEvensAfterAgentMove(s: seq<Cell>, a: Action)
    requires |s| == 9 && Balanced(s)
    requires 0 <= a.pos < 9 && s[a.pos] == None && a.val % 2 == 1
    requires Tally(Place(s, a), Empty) >= 1
    ensures Tally(Place(s, a), Even) <= 3
  {
    TallyUpdate(s, a.pos, Some(a.val), Odd);
    TallyUpdate(s, a.pos, Some(a.val), Even);
    TallyKinds(Place(s, a));
  }

  /** A board that is not terminal has an empty cell. */
  lemma EmptyCellOf(s: seq<Cell>) returns (i: int)
    requires |s| == 9 && !IsTerminal(s).0
    ensures 0 <= i < 9 && s[i] == None && i in AllowedPositions(s)
  {
    i :| 0 <= i < 9 && s[i] == None;
  }

  /**
   * On a playable board that is not finished, the agent has a legal move:
   * it has placed no more than four of its five odd numbers.
   */
  lemma AgentHasAMove(s: seq<Cell>)
    requires |s| == 9 && Balanced(s) && !IsTerminal(s).0
    ensures |ActionSpace(s).0| > 0
  {
    TallyKinds(s);
    var i := EmptyCellOf(s);
    AllowedPositionsTally(s);
    assert Tally(s, Empty) >= 1;
    var odds := {1, 3, 5, 7, 9};
    assert |odds| == 5;
    var v := MissingValue(s, odds, Odd);
    assert Action(i, v) in ActionSpace(s).0;
  }

  // ---------------------------------------------------------------------------
  // How a step ends

  /**
   * A step is refused as invalid exactly when the agent's move is not in its
   * action space; on a balanced board it succeeds exactly when the move is legal,
   * so the environment is never left without a reply.
   */
  lemma StepRefusesIllegalMoves(s: seq<Cell>, a: Action, draw: nat)
    requires |s| == 9
    ensures TwoPly(s, a, draw) == Failure(InvalidAction) <==> a !in ActionSpace(s).0
    ensures Balanced(s) ==> (TwoPly(s, a, draw).Success? <==> a in ActionSpace(s).0)
  {
    if Balanced(s) && a in ActionSpace(s).0 && !IsTerminal(Place(s, a)).0 {
      EnvironmentHasAMove(s, a);
    }
  }

  /**
   * When the agent's move wins or fills the board, the step stops there: one
   * more cell is filled, the reward is 10 for a win and 0 for a tie, and the
   * step reports done.
   */
  lemma AgentMoveEndsGame(s: seq<Cell>, a: Action, draw: nat)
    requires |s| == 9 && a in ActionSpace(s).0 && IsTerminal(Place(s, a)).0
    ensures TwoPly(s, a, draw).Success?
    ensures var t := TwoPly(s, a, draw).value;
      && t.done
      && t.next == Place(s, a)
      && |AllowedPositions(t.next)| + 1 == |AllowedPositions(s)|
      && (t.reward == 10 <==> Winning(t.next))
      && (t.reward == 0 <==> !Winning(t.next))
  {
    TransitionFillsOneCell(s, a);
  }

  /**
   * When the agent's move leaves the game open, the environment places one
   * unused even number in a cell that was empty; the reward is -10 if that
   * makes the board winning and -1 otherwise, and the step does not report done.
   */
  lemma EnvironmentReplies(s: seq<Cell>, a: Action, draw: nat)
    requires |s| == 9 && a in ActionSpace(s).0 && !IsTerminal(Place(s, a)).0
    requires |ActionSpace(Place(s, a)).1| > 0
    ensures TwoPly(s, a, draw).Success?
    ensures var afterAgent := Place(s, a);
      var envActions := ActionSpace(afterAgent).1;
      var e := envActions[draw % |envActions|];
      var t := TwoPly(s, a, draw).value;
      && !t.done
      && !Winning(afterAgent)
      && e.val % 2 == 0 && 1 <= e.val <= 9 && Some(e.val) !in afterAgent
      && 0 <= e.pos < 9 && afterAgent[e.pos] == None
      && t.next == Place(afterAgent, e)
      && |AllowedPositions(t.next)| + 2 == |AllowedPositions(s)|
      && (t.reward == -10 <==> Winning(t.next))
      && (t.reward == -1 <==> !Winning(t.next))
  {
    var afterAgent := Place(s, a);
    var envActions := ActionSpace(afterAgent).1;
    var e := envActions[draw % |envActions|];
    assert e in envActions;
    TransitionFillsOneCell(s, a);
    TransitionFillsOneCell(afterAgent, e);
  }

  /**
   * Play keeps boards well formed, and a step that does not report done hands
   * back a board on which it is the agent's turn again.
   */
  lemma StepKeepsBoardPlayable(s: seq<Cell>, a: Action, draw: nat)
    requires Playable(s) && TwoPly(s, a, draw).Success?
    ensures WellFormed(TwoPly(s, a, draw).value.next)
    ensures !TwoPly(s, a, draw).value.done ==> Playable(TwoPly(s, a, draw).value.next)
  {
    var afterAgent := Place(s, a);
    TransitionFillsOneCell(s, a);
    if !IsTerminal(afterAgent).0 {
      var envActions := ActionSpace(afterAgent).1;
      var e := envActions[draw % |envActions|];
      assert e in envActions;
      TransitionFillsOneCell(afterAgent, e);
      TallyUpdate(s, a.pos, Some(a.val), Odd);
      TallyUpdate(s, a.pos, Some(a.val), Even);
      TallyUpdate(afterAgent, e.pos, Some(e.val), Odd);
      TallyUpdate(afterAgent, e.pos, Some(e.val), Even);
    }
  }
}
