/**
 * Peg solitaire on the fifteen-hole triangle: a fixed table of the 36
 * possible jumps, move validity, making and unmaking a move on a board of
 * C truth values, counting pegs, listing the valid moves at a hole, and
 * the backtracking solver that restores the board it searched.
 */
module TriangleGame {

  const BOARD_SIZE: int := 15
  const NUM_MOVES: int := 36
  const MAX_MOVES_AT_POINT: int := 6

  /** One row of all_moves: a peg at from jumps the peg at jump and lands on to. */
  datatype Move = Move(from: int, jump: int, to: int)

  /** Row k of the all_moves table, 0 <= k < NUM_MOVES. */
  function Entry(k: nat): Move
    requires k < NUM_MOVES
  {
    match k
    case 0 => Move(0, 1, 3)
    case 1 => Move(3, 1, 0)
    case 2 => Move(1, 3, 6)
    case 3 => Move(6, 3, 1)
    case 4 => Move(3, 6, 10)
    case 5 => Move(10, 6, 3)
    case 6 => Move(2, 4, 7)
    case 7 => Move(7, 4, 2)
    case 8 => Move(4, 7, 11)
    case 9 => Move(11, 7, 4)
    case 10 => Move(5, 8, 12)
    case 11 => Move(12, 8, 5)
    case 12 => Move(0, 2, 5)
    case 13 => Move(5, 2, 0)
    case 14 => Move(2, 5, 9)
    case 15 => Move(9, 5, 2)
    case 16 => Move(5, 9, 14)
    case 17 => Move(14, 9, 5)
    case 18 => Move(1, 4, 8)
    case 19 => Move(8, 4, 1)
    case 20 => Move(4, 8, 13)
    case 21 => Move(13, 8, 4)
    case 22 => Move(3, 7, 12)
    case 23 => Move(12, 7, 3)
    case 24 => Move(3, 4, 5)
    case 25 => Move(5, 4, 3)
    case 26 => Move(6, 7, 8)
    case 27 => Move(8, 7, 6)
    case 28 => Move(7, 8, 9)
    case 29 => Move(9, 8, 7)
    case 30 => Move(10, 11, 12)
    case 31 => Move(12, 11, 10)
    case 32 => Move(11, 12, 13)
    case 33 => Move(13, 12, 11)
    case 34 => Move(12, 13, 14)
    case _ => Move(14, 13, 12)
  }

  /** m is one of the first n rows of all_moves. */
  predicate InFirstRows(m: Move, n: nat)
    requires n <= NUM_MOVES
  {
    n > 0 && (Entry(n - 1) == m || InFirstRows(m, n - 1))
  }

  /** m is a row of all_moves. */
  predicate InTable(m: Move)
  {
    InFirstRows(m, NUM_MOVES)
  }

  lemma {:induction false} InFirstRowsIndex(m: Move, n: nat) returns (k: nat)
    requires n <= NUM_MOVES && InFirstRows(m, n)
    ensures k < n && Entry(k) == m
  {
    if Entry(n - 1) == m {
      k := n - 1;
    } else {
      k := InFirstRowsIndex(m, n - 1);
    }
  }

  lemma {:induction false} InFirstRowsOf(k: nat, n: nat)
    requires k < n <= NUM_MOVES
    ensures InFirstRows(Entry(k), n)
  {
    if k < n - 1 {
      InFirstRowsOf(k, n - 1);
    }
  }

  /** Membership in the table means being one of its rows. */
  lemma InTableIndex(m: Move) returns (k: nat)
    requires InTable(m)
    ensures k < NUM_MOVES && Entry(k) == m
  {
    k := InFirstRowsIndex(m, NUM_MOVES);
  }

  lemma InTableEntry(k: nat)
    requires k < NUM_MOVES
    ensures InTable(Entry(k))
  {
    InFirstRowsOf(k, NUM_MOVES);
  }

  predicate OnBoard(m: Move)
  {
    0 <= m.from < BOARD_SIZE && 0 <= m.jump < BOARD_SIZE && 0 <= m.to < BOARD_SIZE
  }

  predicate Distinct(m: Move)
  {
    m.from != m.jump && m.jump != m.to && m.from != m.to
  }

  function Reverse(m: Move): Move
  {
    Move(m.to, m.jump, m.from)
  }

  /** Every table entry names three different holes of the board. */
  lemma EntryShape(k: nat)
    requires k < NUM_MOVES
    ensures OnBoard(Entry(k)) && Distinct(Entry(k))
  {
  }

  lemma TableShape()
    ensures forall k :: 0 <= k < NUM_MOVES ==> OnBoard(Entry(k)) && Distinct(Entry(k))
  {
    forall k | 0 <= k < NUM_MOVES
      ensures OnBoard(Entry(k)) && Distinct(Entry(k))
    {
      EntryShape(k);
    }
  }

  /** The table lists each jump next to its reverse: rows 2i and 2i + 1. */
  lemma TablePair(i: nat)
    requires 2 * i + 1 < NUM_MOVES
    ensures Entry(2 * i + 1) == Reverse(Entry(2 * i))
  {
  }

  /** The reverse of every table entry is a table entry. */
  lemma TableClosedUnderReverse(m: Move)
    requires InTable(m)
    ensures InTable(Reverse(m))
  {
    var k := InTableIndex(m);
    var i := k / 2;
    TablePair(i);
    if k == 2 * i {
      InTableEntry(2 * i + 1);
    } else {
      InTableEntry(2 * i);
    }
  }

  /** The rows of the table whose jump starts at hole p. */
  function StartsAt(p: int): set<nat>
  {
    match p
    case 0 => {0, 12}
    case 1 => {2, 18}
    case 2 => {6, 14}
    case 3 => {1, 4, 22, 24}
    case 4 => {8, 20}
    case 5 => {10, 13, 16, 25}
    case 6 => {3, 26}
    case 7 => {7, 28}
    case 8 => {19, 27}
    case 9 => {15, 29}
    case 10 => {5, 30}
    case 11 => {9, 32}
    case 12 => {11, 23, 31, 34}
    case 13 => {21, 33}
    case 14 => {17, 35}
    case _ => {}
  }

  /** Every row starting at hole p is listed in StartsAt(p). */
  lemma StartsComplete(k: nat, p: int)
    requires k < NUM_MOVES && Entry(k).from == p
    ensures k in StartsAt(p)
  {
  }

  /** A hole starts at most one jump in each of the six directions. */
  lemma StartsBound(p: int)
    ensures |StartsAt(p)| <= MAX_MOVES_AT_POINT
  {
  }

  lemma {:induction false} SubsetSize(a: set<nat>, b: set<nat>)
    requires a <= b
    ensures |a| <= |b|
    decreases |b|
  {
    if a != {} {
      var x :| x in a;
      SubsetSize(a - {x}, b - {x});
    }
  }

  /** C's logical negation !x on an int. */
  function Not(x: int): int
  {
    if x == 0 then 1 else 0
  }

  /** valid: pegs at from and jump, and an empty hole at to. */
  predicate Valid(m: Move, board: seq<int>)
    requires OnBoard(m) && |board| == BOARD_SIZE
  {
    board[m.from] != 0 && board[m.jump] != 0 && board[m.to] == 0
  }

  /** The guard of unmakeMove: from and jump empty, a peg at to. */
  predicate CanUnmake(m: Move, board: seq<int>)
    requires OnBoard(m) && |board| == BOARD_SIZE
  {
    board[m.from] == 0 && board[m.jump] == 0 && board[m.to] != 0
  }

  /** The number of non-zero cells of a board. */
  function Pegs(board: seq<int>): nat
  {
    if board == [] then 0
    else Pegs(board[..|board| - 1]) + (if board[|board| - 1] != 0 then 1 else 0)
  }

  /** The holes of a board that hold a peg. */
  function Occupied(board: seq<int>): set<int>
  {
    set i | 0 <= i < |board| && board[i] != 0
  }

  /** Pegs counts exactly the occupied holes. */
  lemma {:induction false} PegsCountsOccupied(board: seq<int>)
    ensures Pegs(board) == |Occupied(board)|
  {
    if board != [] {
      var n := |board| - 1;
      var init := board[..n];
      PegsCountsOccupied(init);
      if board[n] != 0 {
        assert Occupied(board) == Occupied(init) + {n};
      } else {
        assert Occupied(board) == Occupied(init);
      }
    }
  }

  /** Writing one cell changes the peg count by what was there and what is written. */
  lemma {:induction false} PegsUpdate(board: seq<int>, i: int, v: int)
    requires 0 <= i < |board|
    ensures Pegs(board[i := v]) == Pegs(board) - (if board[i] != 0 then 1 else 0) + (if v != 0 then 1 else 0)
  {
    var n := |board| - 1;
    var updated := board[i := v];
    assert updated[..n] == if i == n then board[..n] else board[..n][i := v];
    if i < n {
      PegsUpdate(board[..n], i, v);
    }
  }

  /** The three flips of makeMove and unmakeMove, in the order from, jump, to. */
  function Flipped(m: Move, board: seq<int>): (r: seq<int>)
    requires OnBoard(m) && |board| == BOARD_SIZE
    ensures |r| == BOARD_SIZE
  {
    var b1 := board[m.from := Not(board[m.from])];
    var b2 := b1[m.jump := Not(b1[m.jump])];
    b2[m.to := Not(b2[m.to])]
  }

  /** A valid jump removes exactly one peg. */
  lemma JumpRemovesPeg(m: Move, board: seq<int>)
    requires OnBoard(m) && Distinct(m) && |board| == BOARD_SIZE && Valid(m, board)
    ensures Pegs(Flipped(m, board)) == Pegs(board) - 1
  {
    var b1 := board[m.from := Not(board[m.from])];
    var b2 := b1[m.jump := Not(b1[m.jump])];
    PegsUpdate(board, m.from, Not(board[m.from]));
    PegsUpdate(b1, m.jump, Not(b1[m.jump]));
    PegsUpdate(b2, m.to, Not(b2[m.to]));
  }

  /** A valid jump empties from and jump, fills to and leaves every other hole alone. */
  lemma JumpEffect(m: Move, board: seq<int>)
    requires OnBoard(m) && Distinct(m) && |board| == BOARD_SIZE && Valid(m, board)
    ensures Flipped(m, board)[m.from] == 0 && Flipped(m, board)[m.jump] == 0 && Flipped(m, board)[m.to] == 1
    ensures forall i :: 0 <= i < BOARD_SIZE && i != m.from && i != m.jump && i != m.to ==> Flipped(m, board)[i] == board[i]
  {
  }

  /** Every cell holds 0 or 1. */
  predicate Boolean(board: seq<int>)
  {
    forall i :: 0 <= i < |board| ==> board[i] == 0 || board[i] == 1
  }

  /** On a board of 0s and 1s, unmaking a jump just made is allowed and restores the board. */
  lemma MakeUnmakeRoundTrip(m: Move, board: seq<int>)
    requires OnBoard(m) && Distinct(m) && |board| == BOARD_SIZE && Valid(m, board)
    requires Boolean(board)
    ensures CanUnmake(m, Flipped(m, board))
    ensures Flipped(m, Flipped(m, board)) == board
  {
    JumpEffect(m, board);
    var after := Flipped(m, Flipped(m, board));
    assert forall i :: 0 <= i < BOARD_SIZE ==> after[i] == board[i];
  }

  /** makeMove: flip the three holes when the jump is valid, otherwise report FALSE. */
  method MakeMove(m: Move, board: array<int>) returns (ok: bool)
    requires board.Length == BOARD_SIZE && OnBoard(m)
    modifies board
    ensures ok == Valid(m, old(board[..]))
    ensures board[..] == if ok then Flipped(m, old(board[..])) else old(board[..])
  {
    if !Valid(m, board[..]) {
      return false;
    }
    ghost var before := board[..];
    board[m.from] := Not(board[m.from]);
    board[m.jump] := Not(board[m.jump]);
    board[m.to] := Not(board[m.to]);
    assert board[..] == Flipped(m, before);
    return true;
  }

  /** unmakeMove: flip the three holes back when from and jump are empty and to is full. */
  method UnmakeMove(m: Move, board: array<int>) returns (ok: bool)
    requires board.Length == BOARD_SIZE && OnBoard(m)
    modifies board
    ensures ok == CanUnmake(m, old(board[..]))
    ensures board[..] == if ok then Flipped(m, old(board[..])) else old(board[..])
  {
    if !CanUnmake(m, board[..]) {
      return false;
    }
    ghost var before := board[..];
    board[m.from] := Not(board[m.from]);
    board[m.jump] := Not(board[m.jump]);
    board[m.to] := Not(board[m.to]);
    assert board[..] == Flipped(m, before);
    return true;
  }

  /** pegsOnBoard: count the non-zero cells. */
  method PegsOnBoard(board: array<int>) returns (count: int)
    requires board.Length == BOARD_SIZE
    ensures count == Pegs(board[..])
  {
    count := 0;
    var i := 0;
    while i < BOARD_SIZE
      invariant 0 <= i <= BOARD_SIZE
      invariant count == Pegs(board[..i])
    {
      assert board[..i + 1][..i] == board[..i];
      if board[i] != 0 {
        count := count + 1;
      }
      i := i + 1;
    }
    assert board[..BOARD_SIZE] == board[..];
  }

  /** The test movesAt applies to each table row. */
  predicate Starts(m: Move, position: int, board: seq<int>)
    requires |board| == BOARD_SIZE
  {
    m.from == position && OnBoard(m) && Valid(m, board)
  }

  /** The valid jumps from position among the first n rows of the table, in table order. */
  function ValidMovesAmong(position: int, board: seq<int>, n: nat): seq<Move>
    requires n <= NUM_MOVES && |board| == BOARD_SIZE
  {
    if n == 0 then []
    else
      ValidMovesAmong(position, board, n - 1) + (if Starts(Entry(n - 1), position, board) then [Entry(n - 1)] else [])
  }

  /** The rows behind the valid jumps from position among the first n rows all start at position. */
  lemma {:induction false} ValidMovesAmongRows(position: int, board: seq<int>, n: nat) returns (rows: set<nat>)
    requires n <= NUM_MOVES && |board| == BOARD_SIZE
    ensures rows <= StartsAt(position) && forall k :: k in rows ==> k < n
    ensures |rows| == |ValidMovesAmong(position, board, n)|
  {
    if n == 0 {
      rows := {};
    } else {
      rows := ValidMovesAmongRows(position, board, n - 1);
      if Starts(Entry(n - 1), position, board) {
        StartsComplete(n - 1, position);
        rows := rows + {n - 1};
      }
    }
  }

  /** A hole starts at most MAX_MOVES_AT_POINT valid jumps, among any prefix of the table. */
  lemma ValidMovesAmongBound(position: int, board: seq<int>, n: nat)
    requires n <= NUM_MOVES && |board| == BOARD_SIZE
    ensures |ValidMovesAmong(position, board, n)| <= MAX_MOVES_AT_POINT
  {
    var rows := ValidMovesAmongRows(position, board, n);
    SubsetSize(rows, StartsAt(position));
    StartsBound(position);
  }

  /** What movesAt returns: nothing from an empty hole, else the valid jumps from it. */
  function MovesFrom(position: int, board: seq<int>): seq<Move>
    requires 0 <= position < BOARD_SIZE && |board| == BOARD_SIZE
  {
    if board[position] == 0 then [] else ValidMovesAmong(position, board, NUM_MOVES)
  }

  lemma {:induction false} ValidMovesAmongIff(position: int, board: seq<int>, n: nat, m: Move)
    requires n <= NUM_MOVES && |board| == BOARD_SIZE
    ensures m in ValidMovesAmong(position, board, n) <==> InFirstRows(m, n) && Starts(m, position, board)
  {
    if n > 0 {
      ValidMovesAmongIff(position, board, n - 1, m);
    }
  }

  /** The moves at a hole are exactly the valid table jumps that start there. */
  lemma MovesFromIff(position: int, board: seq<int>, m: Move)
    requires 0 <= position < BOARD_SIZE && |board| == BOARD_SIZE
    ensures m in MovesFrom(position, board) <==> InTable(m) && Starts(m, position, board)
  {
    ValidMovesAmongIff(position, board, NUM_MOVES, m);
  }

  /**
   * movesAt: collect, in table order, the valid jumps from position into a
   * buffer of MAX_MOVES_AT_POINT slots, which is never overrun.
   */
  method MovesAt(position: int, board: array<int>) returns (moves: seq<Move>)
    requires 0 <= position < BOARD_SIZE && board.Length == BOARD_SIZE
    ensures moves == MovesFrom(position, board[..])
    ensures |moves| <= MAX_MOVES_AT_POINT
  {
    moves := [];
    if board[position] == 0 {
      return;
    }
    var i := 0;
    while i < NUM_MOVES
      invariant 0 <= i <= NUM_MOVES
      invariant moves == ValidMovesAmong(position, board[..], i)
    {
      var m := Entry(i);
      EntryShape(i);
      if m.from == position && Valid(m, board[..]) {
        ValidMovesAmongBound(position, board[..], i + 1);
        assert |moves| < MAX_MOVES_AT_POINT;
        moves := moves + [m];
      }
      i := i + 1;
    }
    ValidMovesAmongBound(position, board[..], NUM_MOVES);
  }

  /** Two boards with pegs in the same holes. */
  predicate SameOccupancy(a: seq<int>, b: seq<int>)
  {
    |a| == |b| && forall i :: 0 <= i < |a| ==> (a[i] == 0 <==> b[i] == 0)
  }

  /** Each hole of now holds what it held before, or 1 where before held a peg. */
  predicate Restored(now: seq<int>, before: seq<int>)
  {
    |now| == |before| && forall i :: 0 <= i < |now| ==> now[i] == before[i] || (before[i] != 0 && now[i] == 1)
  }

  lemma {:induction false} PegsOccupancy(a: seq<int>, b: seq<int>)
    requires SameOccupancy(a, b)
    ensures Pegs(a) == Pegs(b)
  {
    if a != [] {
      PegsOccupancy(a[..|a| - 1], b[..|b| - 1]);
    }
  }

  lemma FlippedOccupancy(m: Move, a: seq<int>, b: seq<int>)
    requires OnBoard(m) && |a| == BOARD_SIZE && SameOccupancy(a, b)
    ensures Valid(m, a) == Valid(m, b)
    ensures SameOccupancy(Flipped(m, a), Flipped(m, b))
  {
    var fa, fb := Flipped(m, a), Flipped(m, b);
    forall i | 0 <= i < BOARD_SIZE
      ensures fa[i] == 0 <==> fb[i] == 0
    {
    }
  }

  lemma {:induction false} ValidMovesAmongOccupancy(position: int, a: seq<int>, b: seq<int>, n: nat)
    requires n <= NUM_MOVES && |a| == BOARD_SIZE && SameOccupancy(a, b)
    ensures ValidMovesAmong(position, a, n) == ValidMovesAmong(position, b, n)
  {
    if n > 0 {
      TableShape();
      ValidMovesAmongOccupancy(position, a, b, n - 1);
      FlippedOccupancy(Entry(n - 1), a, b);
    }
  }

  /** A restored board offers the same moves as the board it restores. */
  lemma MovesFromRestored(position: int, now: seq<int>, before: seq<int>)
    requires 0 <= position < BOARD_SIZE && |before| == BOARD_SIZE && Restored(now, before)
    ensures MovesFrom(position, now) == MovesFrom(position, before)
  {
    ValidMovesAmongOccupancy(position, now, before, NUM_MOVES);
  }

  /** A jump between three different holes of the board, valid on it. */
  predicate Playable(m: Move, board: seq<int>)
    requires |board| == BOARD_SIZE
  {
    OnBoard(m) && Distinct(m) && Valid(m, board)
  }

  /**
   * A board is solvable when it holds one peg, or some valid table jump
   * leads to a solvable board.
   */
  ghost predicate Solvable(board: seq<int>)
    requires |board| == BOARD_SIZE
    decreases Pegs(board)
  {
    Pegs(board) == 1 ||
    exists m :: InTable(m) && Playable(m, board) && Pegs(Flipped(m, board)) < Pegs(board) && Solvable(Flipped(m, board))
  }

  lemma InTableShape(m: Move)
    requires InTable(m)
    ensures OnBoard(m) && Distinct(m)
  {
    var k := InTableIndex(m);
    EntryShape(k);
  }

  /** A table jump to a solvable board makes the board solvable. */
  lemma SolvedByJump(board: seq<int>, m: Move)
    requires |board| == BOARD_SIZE && InTable(m) && Playable(m, board) && Solvable(Flipped(m, board))
    ensures Solvable(board)
  {
    JumpRemovesPeg(m, board);
  }

  /** A board with more or fewer than one peg, from which no table jump leads to a solvable board, is unsolvable. */
  lemma Stuck(board: seq<int>)
    requires |board| == BOARD_SIZE && Pegs(board) != 1
    requires forall m :: InTable(m) && Playable(m, board) ==> !Solvable(Flipped(m, board))
    ensures !Solvable(board)
  {
  }

  /** Solvability depends only on which holes hold pegs. */
  lemma SolvableOccupancy(a: seq<int>, b: seq<int>)
    requires |a| == BOARD_SIZE && SameOccupancy(a, b)
    ensures Solvable(a) == Solvable(b)
  {
    if Solvable(a) {
      SolvableTransfers(a, b);
    }
    if Solvable(b) {
      SolvableTransfers(b, a);
    }
  }

  lemma {:induction false} SolvableTransfers(a: seq<int>, b: seq<int>)
    requires |a| == BOARD_SIZE && SameOccupancy(a, b) && Solvable(a)
    ensures Solvable(b)
    decreases Pegs(a)
  {
    PegsOccupancy(a, b);
    if Pegs(a) != 1 {
      var m :| InTable(m) && Playable(m, a) && Pegs(Flipped(m, a)) < Pegs(a) && Solvable(Flipped(m, a));
      InTableShape(m);
      FlippedOccupancy(m, a, b);
      SolvableTransfers(Flipped(m, a), Flipped(m, b));
      SolvedByJump(b, m);
    }
  }

  /** A jump undone after a search that restored the board restores the board before the jump. */
  lemma UnmakeRestores(m: Move, before: seq<int>, after: seq<int>)
    requires OnBoard(m) && Distinct(m) && |before| == BOARD_SIZE && Valid(m, before)
    requires Restored(after, Flipped(m, before))
    ensures CanUnmake(m, after)
    ensures Restored(Flipped(m, after), before)
  {
    JumpEffect(m, before);
  }

  lemma RestoredTransitive(a: seq<int>, b: seq<int>, c: seq<int>)
    requires Restored(a, b) && Restored(b, c)
    ensures Restored(a, c)
  {
  }

  /** Before the recursive search: the jump is still playable and removes a peg. */
  lemma JumpBeforeSearch(m: Move, start: seq<int>, before: seq<int>)
    requires |start| == BOARD_SIZE && Playable(m, start) && Restored(before, start)
    ensures Playable(m, before) && Pegs(Flipped(m, before)) < Pegs(start)
  {
    FlippedOccupancy(m, before, start);
    PegsOccupancy(before, start);
    JumpRemovesPeg(m, before);
  }

  /**
   * After the recursive search and the undo: the board is restored with
   * respect to the start of the enclosing search, and the answer is
   * whether the jump from start leads to a solvable board.
   */
  lemma BoardAfterSearch(m: Move, start: seq<int>, before: seq<int>, searched: seq<int>, after: seq<int>, solved: bool)
    requires |start| == BOARD_SIZE && Playable(m, start) && Restored(before, start)
    requires Restored(searched, Flipped(m, before)) && solved == Solvable(Flipped(m, before))
    requires after == if CanUnmake(m, searched) then Flipped(m, searched) else searched
    ensures Restored(after, start)
    ensures solved == Solvable(Flipped(m, start))
  {
    FlippedOccupancy(m, before, start);
    SolvableOccupancy(Flipped(m, before), Flipped(m, start));
    UnmakeRestores(m, before, searched);
    RestoredTransitive(after, before, start);
  }

  /** None of the jumps in moves, all on the board, leads from start to a solvable board. */
  ghost predicate NoneSolves(moves: seq<Move>, start: seq<int>)
    requires |start| == BOARD_SIZE
  {
    moves == [] ||
    (&& NoneSolves(moves[..|moves| - 1], start)
     && OnBoard(moves[|moves| - 1])
     && !Solvable(Flipped(moves[|moves| - 1], start)))
  }

  lemma {:induction false} NoneSolvesAt(moves: seq<Move>, start: seq<int>, m: Move)
    requires |start| == BOARD_SIZE && NoneSolves(moves, start) && m in moves
    ensures OnBoard(m) && !Solvable(Flipped(m, start))
  {
    if m != moves[|moves| - 1] {
      NoneSolvesAt(moves[..|moves| - 1], start, m);
    }
  }

  /** A move listed at a hole is a playable table jump from that hole. */
  lemma MoveFromShape(position: int, start: seq<int>, m: Move)
    requires 0 <= position < BOARD_SIZE && |start| == BOARD_SIZE && m in MovesFrom(position, start)
    ensures InTable(m) && Playable(m, start) && m.from == position
  {
    MovesFromIff(position, start, m);
    InTableShape(m);
  }

  /** When none of the moves at a hole leads to a solvable board, no playable table jump from it does. */
  lemma NoneSolvesFrom(position: int, start: seq<int>)
    requires 0 <= position < BOARD_SIZE && |start| == BOARD_SIZE
    requires NoneSolves(MovesFrom(position, start), start)
    ensures forall m :: InTable(m) && Playable(m, start) && m.from == position ==> !Solvable(Flipped(m, start))
  {
    forall m | InTable(m) && Playable(m, start) && m.from == position
      ensures !Solvable(Flipped(m, start))
    {
      MovesFromIff(position, start, m);
      NoneSolvesAt(MovesFrom(position, start), start, m);
    }
  }

  /**
   * The body of solve's inner loop: make the jump, search the board it
   * leaves, unmake the jump. The answer is whether the jump leads to a
   * solvable board, and the board is restored.
   */
  method TryJump(m: Move, board: array<int>, ghost start: seq<int>) returns (solved: bool)
    requires board.Length == BOARD_SIZE && |start| == BOARD_SIZE
    requires Playable(m, start) && Restored(board[..], start)
    modifies board
    ensures solved == Solvable(Flipped(m, start))
    ensures Restored(board[..], start)
    decreases Pegs(start), 0
  {
    ghost var before := board[..];
    JumpBeforeSearch(m, start, before);
    var made := MakeMove(m, board);
    solved := Solve(board);
    ghost var searched := board[..];
    var unmade := UnmakeMove(m, board);
    BoardAfterSearch(m, start, before, searched, board[..], solved);
  }

  /**
   * solve's inner loop over the moves at position: try each jump in turn
   * until one leads to a solvable board. When none does, no valid table
   * jump from position does.
   */
  method TryMoves(position: int, moves: seq<Move>, board: array<int>, ghost start: seq<int>) returns (solved: bool)
    requires 0 <= position < BOARD_SIZE && board.Length == BOARD_SIZE && |start| == BOARD_SIZE
    requires Restored(board[..], start) && moves == MovesFrom(position, start)
    modifies board
    ensures Restored(board[..], start)
    ensures solved ==> Solvable(start)
    ensures !solved ==> forall m :: InTable(m) && Playable(m, start) && m.from == position ==> !Solvable(Flipped(m, start))
    decreases Pegs(start), 1
  {
    var j := 0;
    while j < |moves|
      invariant 0 <= j <= |moves|
      invariant Restored(board[..], start)
      invariant NoneSolves(moves[..j], start)
    {
      var m := moves[j];
      MoveFromShape(position, start, m);
      solved := TryJump(m, board, start);
      if solved {
        SolvedByJump(start, m);
        return true;
      }
      assert moves[..j + 1][..j] == moves[..j];
      j := j + 1;
    }
    assert moves[..j] == moves;
    NoneSolvesFrom(position, start);
    return false;
  }

  /**
   * solve: with one peg left the board is solved; otherwise try every
   * valid jump from every hole, searching recursively and undoing the jump
   * afterwards. The board comes back as it was, up to pegs stored as
   * non-zero values other than 1 becoming 1.
   */
  method Solve(board: array<int>) returns (solved: bool)
    requires board.Length == BOARD_SIZE
    modifies board
    ensures solved == Solvable(old(board[..]))
    ensures Restored(board[..], old(board[..]))
    ensures Boolean(old(board[..])) ==> board[..] == old(board[..])
    decreases Pegs(board[..]), 2
  {
    ghost var start := board[..];
    var pegs := PegsOnBoard(board);
    if pegs == 1 {
      return true;
    }
    var i := 0;
    while i < BOARD_SIZE
      invariant 0 <= i <= BOARD_SIZE
      invariant Restored(board[..], start)
      invariant forall m :: InTable(m) && Playable(m, start) && m.from < i ==> !Solvable(Flipped(m, start))
    {
      var moves := MovesAt(i, board);
      MovesFromRestored(i, board[..], start);
      solved := TryMoves(i, moves, board, start);
      if solved {
        return true;
      }
      i := i + 1;
    }
    Stuck(start);
    return false;
  }

  /**
   * A winning line: a sequence of table jumps, each valid where it is
   * made, that ends on a board with one peg.
   */
  ghost predicate WinningLine(board: seq<int>, line: seq<Move>)
    requires |board| == BOARD_SIZE
    decreases line
  {
    if line == [] then Pegs(board) == 1
    else
      && InTable(line[0]) && OnBoard(line[0]) && Valid(line[0], board)
      && WinningLine(Flipped(line[0], board), line[1..])
  }

  /** solve's answer means what it says: a board is solvable exactly when a winning line exists. */
  lemma SolvableIffWinningLine(board: seq<int>)
    requires |board| == BOARD_SIZE
    ensures Solvable(board) ==> exists line :: WinningLine(board, line)
    ensures (exists line :: WinningLine(board, line)) ==> Solvable(board)
  {
    if Solvable(board) {
      var line := WinningLineOf(board);
      assert WinningLine(board, line);
    }
    if line :| WinningLine(board, line) {
      LineSolves(board, line);
    }
  }

  lemma {:induction false} WinningLineOf(board: seq<int>) returns (line: seq<Move>)
    requires |board| == BOARD_SIZE && Solvable(board)
    ensures WinningLine(board, line)
    decreases Pegs(board)
  {
    if Pegs(board) == 1 {
      line := [];
    } else {
      var m :| InTable(m) && Playable(m, board) && Solvable(Flipped(m, board));
      JumpRemovesPeg(m, board);
      var rest := WinningLineOf(Flipped(m, board));
      line := [m] + rest;
      assert line[1..] == rest;
    }
  }

  lemma {:induction false} LineSolves(board: seq<int>, line: seq<Move>)
    requires |board| == BOARD_SIZE && WinningLine(board, line)
    ensures Solvable(board)
    decreases line
  {
    if line != [] && Pegs(board) != 1 {
      InTableShape(line[0]);
      LineSolves(Flipped(line[0], board), line[1..]);
      SolvedByJump(board, line[0]);
    }
  }
}
