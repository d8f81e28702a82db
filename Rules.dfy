/**
 * The rules of number-placement tic-tac-toe: the board, the moves, and the
 * read-only queries of the `TicTacToe` environment (which cells are free,
 * which numbers are left for each player, which moves are legal, whether a
 * board is won or full, and what a classification is worth).
 *
 * The agent places odd numbers and the environment even numbers, each drawn
 * from 1..9 and each used at most once, on a 3x3 board stored row-major in
 * nine cells. A row, column or diagonal whose three numbers add up to 15 wins.
 */
module Rules {
  import opened Wrappers

  /** A cell is empty (`None`, a NaN cell of `TicTacToe.state`) or holds a number. */
  type Cell = Option<int>

  /** An index into the nine cells, row-major: 0-2 top row, 3-5 middle, 6-8 bottom. */
  type CellIndex = i: int | 0 <= i < 9

  /** Write number `val` into cell `pos`. */
  datatype Action = Action(pos: int, val: int)

  /** How a board is classified after a move; only a step ever produces `Loss`. */
  datatype Outcome = Win | Tie | Resume | Loss

  const WinningSum: int := 15

  /** The numbers that may be placed: 1 up to the number of cells. */
  const AllPossibleNumbers: seq<int> := [1, 2, 3, 4, 5, 6, 7, 8, 9]

  /** The lines that win: three rows, two diagonals, three columns, in the order they are checked. */
  const WinningPositions: seq<seq<CellIndex>> :=
    [[0, 1, 2], [3, 4, 5], [6, 7, 8], [0, 4, 8], [2, 4, 6], [0, 3, 6], [1, 4, 7], [2, 5, 8]]

  /** The board a game starts from: nine empty cells. */
  const EmptyBoard: seq<Cell> := seq(9, _ => None)

  // ---------------------------------------------------------------------------
  // Winning lines

  /** Every cell of `line` holds a number. */
  predicate LineFilled(s: seq<Cell>, line: seq<CellIndex>)
    requires |s| == 9
  {
    forall m :: 0 <= m < |line| ==> s[line[m]].Some?
  }

  /** The numbers on `line` added up; only consulted when the line is filled. */
  function LineTotal(s: seq<Cell>, line: seq<CellIndex>): int
    requires |s| == 9
  {
    if line == [] then 0 else LineTotal(s, line[..|line| - 1]) + s[line[|line| - 1]].GetOr(0)
  }

  /** `line` is filled and its numbers add up to the winning sum. */
  predicate Completes(s: seq<Cell>, line: seq<CellIndex>)
    requires |s| == 9
  {
    LineFilled(s, line) && LineTotal(s, line) == WinningSum
  }

  /** Some winning line is complete: what `is_winning` decides. */
  predicate Winning(s: seq<Cell>)
    requires |s| == 9
  {
    exists k :: 0 <= k < |WinningPositions| && Completes(s, WinningPositions[k])
  }

  /** Floating-point addition where an empty cell, being NaN, swallows the sum. */
  function AddCell(acc: Cell, c: Cell): Cell {
    if acc.Some? && c.Some? then Some(acc.value + c.value) else None
  }

  /** The running sum `is_winning` accumulates over `line`, starting from 0, left to right. */
  function NanSum(s: seq<Cell>, line: seq<CellIndex>): Cell
    requires |s| == 9
  {
    if line == [] then Some(0) else AddCell(NanSum(s, line[..|line| - 1]), s[line[|line| - 1]])
  }

  /**
   * The NaN-propagating sum of a line is a number exactly when every cell of
   * the line is filled, and then it is the line's total: a line with an empty
   * cell can never reach 15.
   */
  lemma {:induction false} NanSumOfLine(s: seq<Cell>, line: seq<CellIndex>)
    requires |s| == 9
    ensures NanSum(s, line) == if LineFilled(s, line) then Some(LineTotal(s, line)) else None
  {
    if line != [] {
      var init := line[..|line| - 1];
      NanSumOfLine(s, init);
      assert forall m :: 0 <= m < |init| ==> init[m] == line[m];
      assert LineFilled(s, line) <==> LineFilled(s, init) && s[line[|line| - 1]].Some?;
    }
  }

  /** Cells `a`, `b` and `c` all hold numbers, and those add up to 15. */
  predicate TripleWins(s: seq<Cell>, a: CellIndex, b: CellIndex, c: CellIndex)
    requires |s| == 9
  {
    s[a].Some? && s[b].Some? && s[c].Some? && s[a].value + s[b].value + s[c].value == WinningSum
  }

  /** A line of three cells completes exactly when its three cells win. */
  lemma CompletesTriple(s: seq<Cell>, line: seq<CellIndex>)
    requires |s| == 9 && |line| == 3
    ensures Completes(s, line) <==> TripleWins(s, line[0], line[1], line[2])
  {
    var two, one := line[..2], line[..2][..1];
    assert one == [line[0]] && two == [line[0], line[1]] && one[..0] == [];
    assert LineTotal(s, one) == s[line[0]].GetOr(0);
    assert LineTotal(s, two) == s[line[0]].GetOr(0) + s[line[1]].GetOr(0);
    assert LineTotal(s, line) == s[line[0]].GetOr(0) + s[line[1]].GetOr(0) + s[line[2]].GetOr(0);
    assert LineFilled(s, line) <==> s[line[0]].Some? && s[line[1]].Some? && s[line[2]].Some?;
  }

  /**
   * `is_winning` spelled out: a board is winning exactly when one of the
   * three rows, the two diagonals or the three columns has all three cells
   * filled with numbers adding up to 15.
   */
  lemma WinningLines(s: seq<Cell>)
    requires |s| == 9
    ensures Winning(s) <==>
      || TripleWins(s, 0, 1, 2) || TripleWins(s, 3, 4, 5) || TripleWins(s, 6, 7, 8)
      || TripleWins(s, 0, 4, 8) || TripleWins(s, 2, 4, 6)
      || TripleWins(s, 0, 3, 6) || TripleWins(s, 1, 4, 7) || TripleWins(s, 2, 5, 8)
  {
    forall k | 0 <= k < |WinningPositions|
      ensures Completes(s, WinningPositions[k]) <==>
        TripleWins(s, WinningPositions[k][0], WinningPositions[k][1], WinningPositions[k][2])
    {
      CompletesTriple(s, WinningPositions[k]);
    }
    assert WinningPositions[0] == [0, 1, 2] && WinningPositions[1] == [3, 4, 5];
    assert WinningPositions[2] == [6, 7, 8] && WinningPositions[3] == [0, 4, 8];
    assert WinningPositions[4] == [2, 4, 6] && WinningPositions[5] == [0, 3, 6];
    assert WinningPositions[6] == [1, 4, 7] && WinningPositions[7] == [2, 5, 8];
  }

  // ---------------------------------------------------------------------------
  // Free cells and unused numbers

  /** Each element is smaller than the next. */
  predicate Increasing(r: seq<int>) {
    forall j, k :: 0 <= j < k < |r| ==> r[j] < r[k]
  }

  /** The indices of the empty cells from `lo` on, in increasing order. */
  function EmptyFrom(s: seq<Cell>, lo: nat): (r: seq<int>)
    requires lo <= |s|
    ensures forall k :: 0 <= k < |r| ==> lo <= r[k] < |s| && s[r[k]] == None
    ensures forall i :: lo <= i < |s| && s[i] == None ==> i in r
    ensures Increasing(r)
    decreases |s| - lo
  {
    if lo == |s| then []
    else (if s[lo] == None then [lo] else []) + EmptyFrom(s, lo + 1)
  }

  /** `allowed_positions`: the empty cells, in increasing order. */
  function AllowedPositions(s: seq<Cell>): (r: seq<int>)
    ensures forall i :: i in r <==> 0 <= i < |s| && s[i] == None
    ensures Increasing(r)
  {
    var r := EmptyFrom(s, 0);
    assert forall i :: i in r ==> exists k :: 0 <= k < |r| && r[k] == i;
    r
  }

  /** The numbers on the board, in board order. */
  function UsedValues(s: seq<Cell>): (r: seq<int>)
    ensures forall v :: v in r <==> Some(v) in s
  {
    if s == [] then []
    else (if s[0].Some? then [s[0].value] else []) + UsedValues(s[1..])
  }

  /** The numbers of `ns` not in `used` whose parity is odd (`odd`) or even (`!odd`), in the order of `ns`. */
  function Unused(ns: seq<int>, used: seq<int>, odd: bool): (r: seq<int>)
    requires Increasing(ns)
    ensures forall v :: v in r <==> v in ns && v !in used && (v % 2 != 0) == odd
    ensures forall k :: 0 <= k < |r| ==> |ns| > 0 && ns[0] <= r[k]
    ensures Increasing(r)
  {
    if ns == [] then []
    else
      var rest := Unused(ns[1..], used, odd);
      assert forall k :: 0 <= k < |rest| ==> ns[1] <= rest[k];
      (if ns[0] !in used && (ns[0] % 2 != 0) == odd then [ns[0]] else []) + rest
  }

  /**
   * `allowed_values`: the numbers of 1..9 not on the board, split into the
   * odd ones (the agent's) and the even ones (the environment's), each ascending.
   */
  function AllowedValues(s: seq<Cell>): (r: (seq<int>, seq<int>))
    ensures forall v :: v in r.0 <==> 1 <= v <= 9 && v % 2 == 1 && Some(v) !in s
    ensures forall v :: v in r.1 <==> 1 <= v <= 9 && v % 2 == 0 && Some(v) !in s
    ensures forall v :: v in r.0 || v in r.1 <==> 1 <= v <= 9 && Some(v) !in s
    ensures forall v :: !(v in r.0 && v in r.1)
    ensures Increasing(r.0) && Increasing(r.1)
  {
    var used := UsedValues(s);
    assert forall v :: v in AllPossibleNumbers <==> 1 <= v <= 9;
    (Unused(AllPossibleNumbers, used, true), Unused(AllPossibleNumbers, used, false))
  }

  // ---------------------------------------------------------------------------
  // Action space

  /** Cell `p` paired with each number of `vs`, in order. */
  function Pairs(p: int, vs: seq<int>): (r: seq<Action>)
    ensures |r| == |vs|
    ensures forall a :: a in r <==> a.pos == p && a.val in vs
  {
    if vs == [] then [] else [Action(p, vs[0])] + Pairs(p, vs[1..])
  }

  /** The cartesian product of cells and numbers, cell-major as `itertools.product` lists it. */
  function Product(ps: seq<int>, vs: seq<int>): (r: seq<Action>)
    ensures |r| == |ps| * |vs|
    ensures forall a :: a in r <==> a.pos in ps && a.val in vs
  {
    if ps == [] then []
    else
      var rest := Product(ps[1..], vs);
      assert |ps| * |vs| == |vs| + (|ps| - 1) * |vs|;
      Pairs(ps[0], vs) + rest
  }

  /**
   * `action_space`: the agent's moves (an empty cell and an unused odd
   * number) and the environment's moves (an empty cell and an unused even number).
   */
  function ActionSpace(s: seq<Cell>): (r: (seq<Action>, seq<Action>))
    ensures forall a :: a in r.0 <==>
      0 <= a.pos < |s| && s[a.pos] == None && 1 <= a.val <= 9 && a.val % 2 == 1 && Some(a.val) !in s
    ensures forall a :: a in r.1 <==>
      0 <= a.pos < |s| && s[a.pos] == None && 1 <= a.val <= 9 && a.val % 2 == 0 && Some(a.val) !in s
    ensures |r.0| == |AllowedPositions(s)| * |AllowedValues(s).0|
    ensures |r.1| == |AllowedPositions(s)| * |AllowedValues(s).1|
  {
    var positions := AllowedPositions(s);
    var (agentValues, envValues) := AllowedValues(s);
    (Product(positions, agentValues), Product(positions, envValues))
  }

  // ---------------------------------------------------------------------------
  // Transition, classification, reward

  /** The board after writing the action's number into its cell (the value view of `state_transition`). */
  function Place(s: seq<Cell>, a: Action): seq<Cell>
    requires 0 <= a.pos < |s|
  {
    s[a.pos := Some(a.val)]
  }

  /**
   * `is_terminal`: a winning board is a Win (even when it is also full);
   * otherwise a full board is a Tie; otherwise play resumes.
   */
  function IsTerminal(s: seq<Cell>): (r: (bool, Outcome))
    requires |s| == 9
    ensures r.1 != Loss
    ensures r.0 <==> r.1 != Resume
    ensures r.1 == Win <==> Winning(s)
    ensures r.1 == Tie <==> !Winning(s) && forall i :: 0 <= i < 9 ==> s[i].Some?
  {
    if Winning(s) then (true, Win)
    else if |AllowedPositions(s)| == 0 then (true, Tie)
    else
      assert AllowedPositions(s)[0] in AllowedPositions(s);
      (false, Resume)
  }

  /** `reward`: Win 10, Tie 0, Resume -1, and -10 for anything else (a Loss). */
  function Reward(status: Outcome): (r: int)
    ensures r > 0 <==> status == Win
    ensures r == 0 <==> status == Tie
    ensures r == -1 <==> status == Resume
    ensures r < -1 <==> status == Loss
    ensures r == 10 <==> status == Win
    ensures r == -10 <==> status == Loss
  {
    match status
    case Win => 10
    case Tie => 0
    case Resume => -1
    case Loss => -10
  }
}
