/**
 * Move generation for a triangular peg board of any size. Holes are
 * numbered from 0 row by row; layer l (counting from 1) holds the l holes
 * LastHole(l - 1) + 1 .. LastHole(l), where LastHole(l) equals
 * TriangularNumber(l). A move jumps from a
 * hole over a neighbour into the next hole on the same line.
 */
module Moves {

  /** The most moves that can start at one hole. */
  const MAX_MOVES := 6
  /** The number of ints in a move row {START, JUMP, END}. */
  const MOVE_LENGTH := 3
  /** The size of a C int in bytes on the platforms the program targets. */
  const SIZEOF_INT := 4

  /** A row {START, JUMP, END} of a move array. */
  datatype Move = Move(start: int, jump: int, end: int)

  datatype Option<T> = None | Some(value: T)

  function Max(a: int, b: int): int { if a >= b then a else b }
  function Min(a: int, b: int): int { if a <= b then a else b }

  // ---------------------------------------------------------------------
  // Counting and hole arithmetic
  // ---------------------------------------------------------------------

  /**
   * numMoves as written: no moves below three layers, and 6 * (s - 3) more
   * moves for each further layer.
   */
  function NumMoves(sideLength: int): int
    decreases sideLength
  {
    if sideLength <= 2 then 0 else 6 * (sideLength - 3) + NumMoves(sideLength - 1)
  }

  /** The recurrence of numMoves has the closed form 3(s - 2)(s - 3). */
  lemma {:induction false} NumMovesClosedForm(s: int)
    requires s >= 2
    ensures NumMoves(s) == 3 * ((s - 2) * (s - 3))
    decreases s
  {
    if s > 2 {
      NumMovesClosedForm(s - 1);
      assert (s - 3) * (s - 4) + 2 * (s - 3) == (s - 2) * (s - 3);
    }
  }

  /**
   * The number of moves on a board of sideLength layers: each added layer
   * s brings 6 * (s - 2) moves.
   */
  function NumMovesCorrected(sideLength: int): int
    decreases sideLength
  {
    if sideLength <= 2 then 0 else 6 * (sideLength - 2) + NumMovesCorrected(sideLength - 1)
  }

  /** The corrected count has the closed form 3(s - 1)(s - 2). */
  lemma {:induction false} NumMovesCorrectedClosedForm(s: int)
    requires s >= 1
    ensures NumMovesCorrected(s) == 3 * ((s - 1) * (s - 2))
    decreases s
  {
    if s > 2 {
      NumMovesCorrectedClosedForm(s - 1);
      assert (s - 2) * (s - 3) + 2 * (s - 2) == (s - 1) * (s - 2);
    }
  }

  /** triangularNumber: the index of the last hole of layer n. */
  function TriangularNumber(sideLength: int): int
  {
    ((sideLength * (sideLength + 1)) / 2) - 1
  }

  /** The index of the last hole of layer n, counted layer by layer. */
  function LastHole(n: int): int
    decreases n
  {
    if n <= 0 then -1 else LastHole(n - 1) + n
  }

  /** triangularNumber's closed form counts the holes of layers 1 .. n. */
  lemma {:induction false} TriangularAgrees(n: int)
    requires n >= 0
    ensures TriangularNumber(n) == LastHole(n)
    decreases n
  {
    if n > 0 {
      TriangularAgrees(n - 1);
      var x := (n - 1) * n;
      assert n * (n + 1) == x + 2 * n;
      assert (x + 2 * n) / 2 == x / 2 + n;
    }
  }

  /** Later layers end later. */
  lemma {:induction false} LastHoleMonotone(a: int, b: int)
    requires 0 <= a <= b
    ensures LastHole(a) <= LastHole(b)
    decreases b - a
  {
    if a < b {
      LastHoleMonotone(a, b - 1);
    }
  }

  /**
   * layerNumber, by its meaning: the layer (from 1) that holds the hole,
   * that is the l with LastHole(l - 1) < position <= LastHole(l).
   */
  function LayerNumber(position: nat): (layer: int)
    ensures layer >= 1
    ensures LastHole(layer - 1) < position <= LastHole(layer)
  {
    if position == 0 then 1
    else
      var l := LayerNumber(position - 1);
      if position - 1 == LastHole(l) then l + 1 else l
  }

  /** Exactly one layer holds each hole. */
  lemma LayerNumberUnique(position: nat, layer: int)
    requires layer >= 1
    requires LastHole(layer - 1) < position <= LastHole(layer)
    ensures LayerNumber(position) == layer
  {
    var l := LayerNumber(position);
    if l < layer {
      LastHoleMonotone(l, layer - 1);
    } else if l > layer {
      LastHoleMonotone(layer, l - 1);
    }
  }

  /** The hole's distance from the left edge of its layer. */
  function DistanceLeft(position: nat): (d: int)
    ensures 0 <= d < LayerNumber(position)
  {
    position - LastHole(LayerNumber(position) - 1) - 1
  }

  /** The hole's distance from the right edge of its layer. */
  function DistanceRight(position: nat): (d: int)
  {
    LayerNumber(position) - DistanceLeft(position) - 1
  }

  /** The two distances split the layer: each lies in 0..layer - 1 and they sum to layer - 1. */
  lemma DistancesSplitLayer(position: nat)
    ensures 0 <= DistanceLeft(position) <= LayerNumber(position) - 1
    ensures 0 <= DistanceRight(position) <= LayerNumber(position) - 1
    ensures DistanceLeft(position) + DistanceRight(position) == LayerNumber(position) - 1
  {
  }

  // ---------------------------------------------------------------------
  // Moves from one hole
  // ---------------------------------------------------------------------

  /** A hole p of the given layer, left holes from the left edge and right from the right edge. */
  ghost predicate Hole(p: int, layer: int, left: int, right: int)
  {
    layer >= 1 && 0 <= left && 0 <= right && left + right == layer - 1
    && p == LastHole(layer - 1) + 1 + left
  }

  /** Every hole is placed by its layer number and distances. */
  lemma HoleOf(p: nat)
    ensures Hole(p, LayerNumber(p), DistanceLeft(p), DistanceRight(p))
  {
    var l := LayerNumber(p);
    var d := DistanceLeft(p);
    assert LastHole(l) == LastHole(l - 1) + l;
    assert p == LastHole(l - 1) + 1 + d && d + DistanceRight(p) == l - 1;
  }

  /** The six directions a move from hole p of the given layer can take. */
  function WestMove(p: int): Move { Move(p, p - 1, p - 2) }
  function NorthWestMove(p: int, layer: int): Move { Move(p, p - layer, p - (2 * layer - 1)) }
  function EastMove(p: int): Move { Move(p, p + 1, p + 2) }
  function NorthEastMove(p: int, layer: int): Move { Move(p, p - (layer - 1), p - (2 * layer - 3)) }
  function SouthEastMove(p: int, layer: int): Move { Move(p, p + (layer + 1), p + (2 * layer + 3)) }
  function SouthWestMove(p: int, layer: int): Move { Move(p, p + layer, p + (2 * layer + 1)) }

  /** The horizontal and up-left moves, when two holes lie to the left. */
  function LeftMoves(p: int, layer: int, left: int): seq<Move>
  {
    if left >= 2 then
      [WestMove(p)] + (if layer >= 2 then [NorthWestMove(p, layer)] else [])
    else []
  }

  /** The horizontal and up-right moves, when two holes lie to the right. */
  function RightMoves(p: int, layer: int, right: int): seq<Move>
    requires layer >= 1
  {
    if right >= 2 then
      [EastMove(p)] + (if layer >= 2 then [NorthEastMove(p, layer)] else [])
    else []
  }

  /** The down-right and down-left moves, when two layers lie below. */
  function DownMoves(p: int, layer: int, numLayers: int): seq<Move>
    requires layer >= 1
  {
    if layer <= numLayers - 2 then [SouthEastMove(p, layer), SouthWestMove(p, layer)] else []
  }

  /** The moves from a hole placed by its layer and distances, in the order movesAt adds them. */
  function HoleMoves(p: int, layer: int, left: int, right: int, numLayers: int): seq<Move>
    requires layer >= 1
  {
    LeftMoves(p, layer, left) + RightMoves(p, layer, right) + DownMoves(p, layer, numLayers)
  }

  /**
   * The moves movesAt produces from startPos: left and up-left when there
   * are two holes to the left, right and up-right when there are two to the
   * right, down-right and down-left when two layers lie below.
   */
  function MovesFrom(startPos: nat, numLayers: int): seq<Move>
  {
    HoleMoves(startPos, LayerNumber(startPos), DistanceLeft(startPos), DistanceRight(startPos), numLayers)
  }

  /** movesAt fills at most MAX_MOVES rows, and every move starts at startPos. */
  lemma MovesFromShape(startPos: nat, numLayers: int)
    ensures |MovesFrom(startPos, numLayers)| <= MAX_MOVES
    ensures forall m :: m in MovesFrom(startPos, numLayers) ==> m.start == startPos
  {
    var p := startPos;
    var layer, left, right := LayerNumber(p), DistanceLeft(p), DistanceRight(p);
    assert MovesFrom(p, numLayers) == HoleMoves(p, layer, left, right, numLayers);
    HoleMovesShape(p, layer, left, right, numLayers);
  }

  lemma HoleMovesShape(p: int, layer: int, left: int, right: int, numLayers: int)
    requires layer >= 1
    ensures |HoleMoves(p, layer, left, right, numLayers)| <= MAX_MOVES
    ensures forall m :: m in HoleMoves(p, layer, left, right, numLayers) ==> m.start == p
  {
  }

  /** The left horizontal move is produced exactly when two holes lie to the left. */
  lemma LeftMoveIff(p: nat, numLayers: int)
    ensures WestMove(p) in MovesFrom(p, numLayers) <==> DistanceLeft(p) >= 2
  {
    HoleOf(p);
    var layer, left, right := LayerNumber(p), DistanceLeft(p), DistanceRight(p);
    assert MovesFrom(p, numLayers) == HoleMoves(p, layer, left, right, numLayers);
    HoleLeftIff(p, layer, left, right, numLayers);
  }

  lemma HoleLeftIff(p: int, layer: int, left: int, right: int, numLayers: int)
    requires Hole(p, layer, left, right)
    ensures WestMove(p) in HoleMoves(p, layer, left, right, numLayers) <==> left >= 2
  {
  }

  /** The right horizontal move is produced exactly when two holes lie to the right. */
  lemma RightMoveIff(p: nat, numLayers: int)
    ensures EastMove(p) in MovesFrom(p, numLayers) <==> DistanceRight(p) >= 2
  {
    HoleOf(p);
    var layer, left, right := LayerNumber(p), DistanceLeft(p), DistanceRight(p);
    assert MovesFrom(p, numLayers) == HoleMoves(p, layer, left, right, numLayers);
    HoleRightIff(p, layer, left, right, numLayers);
  }

  lemma HoleRightIff(p: int, layer: int, left: int, right: int, numLayers: int)
    requires Hole(p, layer, left, right)
    ensures EastMove(p) in HoleMoves(p, layer, left, right, numLayers) <==> right >= 2
  {
  }

  /** The two downward moves are produced exactly when two layers lie below. */
  lemma DownMovesIff(p: nat, numLayers: int)
    ensures SouthEastMove(p, LayerNumber(p)) in MovesFrom(p, numLayers) <==> LayerNumber(p) <= numLayers - 2
    ensures SouthWestMove(p, LayerNumber(p)) in MovesFrom(p, numLayers) <==> LayerNumber(p) <= numLayers - 2
  {
    HoleOf(p);
    var layer, left, right := LayerNumber(p), DistanceLeft(p), DistanceRight(p);
    assert MovesFrom(p, numLayers) == HoleMoves(p, layer, left, right, numLayers);
    HoleDownIff(p, layer, left, right, numLayers);
  }

  lemma HoleDownIff(p: int, layer: int, left: int, right: int, numLayers: int)
    requires Hole(p, layer, left, right)
    ensures SouthEastMove(p, layer) in HoleMoves(p, layer, left, right, numLayers) <==> layer <= numLayers - 2
    ensures SouthWestMove(p, layer) in HoleMoves(p, layer, left, right, numLayers) <==> layer <= numLayers - 2
  {
    var se := SouthEastMove(p, layer);
    var sw := SouthWestMove(p, layer);
    assert se !in LeftMoves(p, layer, left) && sw !in LeftMoves(p, layer, left);
    if layer == 1 {
      assert RightMoves(p, layer, right) == [];
    }
    assert se !in RightMoves(p, layer, right) && sw !in RightMoves(p, layer, right);
  }

  /** From a hole of the board, every move jumps over and lands on holes of the board. */
  lemma MovesStayOnBoard(p: nat, numLayers: int)
    requires numLayers >= 1
    requires p <= TriangularNumber(numLayers)
    ensures forall m :: m in MovesFrom(p, numLayers) ==>
      && 0 <= m.jump <= TriangularNumber(numLayers)
      && 0 <= m.end <= TriangularNumber(numLayers)
  {
    TriangularAgrees(numLayers);
    HoleOf(p);
    var l := LayerNumber(p);
    if l > numLayers {
      LastHoleMonotone(numLayers, l - 1);
    }
    HoleBounds(p, l, DistanceLeft(p), DistanceRight(p), numLayers);
  }

  lemma HoleBounds(p: int, layer: int, left: int, right: int, numLayers: int)
    requires Hole(p, layer, left, right)
    requires layer <= numLayers
    ensures forall m :: m in HoleMoves(p, layer, left, right, numLayers) ==>
      && 0 <= m.jump <= LastHole(numLayers)
      && 0 <= m.end <= LastHole(numLayers)
  {
    LastHoleMonotone(layer, numLayers);
    if layer >= 3 {
      LastHoleMonotone(0, layer - 3);
      assert LastHole(layer - 1) == LastHole(layer - 3) + (layer - 2) + (layer - 1);
    }
    SidewaysBounds(p, layer, left, right, LastHole(numLayers));
    if layer <= numLayers - 2 {
      LastHoleMonotone(layer + 2, numLayers);
      assert LastHole(layer + 2) == LastHole(layer) + (layer + 1) + (layer + 2);
    }
  }

  /** The sideways and upward moves stay between hole 0 and the end of the hole's layer. */
  lemma SidewaysBounds(p: int, layer: int, left: int, right: int, last: int)
    requires Hole(p, layer, left, right)
    requires LastHole(layer) <= last
    requires layer >= 3 ==> LastHole(layer - 1) >= (layer - 2) + (layer - 1) - 1
    ensures forall m :: m in LeftMoves(p, layer, left) + RightMoves(p, layer, right) ==>
      && 0 <= m.jump <= last
      && 0 <= m.end <= last
  {
  }

  /** The number of moves from hole d of layer l. */
  lemma MovesFromCount(p: nat, numLayers: int, l: int, d: int)
    requires l >= 1 && 0 <= d < l && p == LastHole(l - 1) + 1 + d
    ensures |MovesFrom(p, numLayers)| ==
      (if d >= 2 then 2 else 0) + (if l - 1 - d >= 2 then 2 else 0) + (if l <= numLayers - 2 then 2 else 0)
  {
    LayerNumberUnique(p, l);
    assert DistanceLeft(p) == d;
  }

  /**
   * addMove: the row at numMoves becomes {start, jump, end}; no other row
   * changes.
   */
  method AddMove(numMoves: int, moves: array<Move>, startPos: int, jumpPos: int, endPos: int)
    requires 0 <= numMoves < moves.Length
    modifies moves
    ensures moves[..] == old(moves[..])[numMoves := Move(startPos, jumpPos, endPos)]
  {
    moves[numMoves] := Move(startPos, jumpPos, endPos);
  }

  /**
   * movesAt: fill a local array of MAX_MOVES rows through addMove and a
   * counter, and return the rows filled.
   */
  method MovesAt(startPos: nat, numLayers: int) returns (moves: seq<Move>)
    ensures moves == MovesFrom(startPos, numLayers)
  {
    var buffer := new Move[MAX_MOVES](_ => Move(0, 0, 0));
    var numMoves := 0;
    var layer := LayerNumber(startPos);
    TriangularAgrees(layer - 1);
    var distanceLeft := startPos - TriangularNumber(layer - 1) - 1;
    var distanceRight := layer - distanceLeft - 1;
    var p := startPos;
    assert distanceLeft == DistanceLeft(p) && distanceRight == DistanceRight(p);
    if distanceLeft >= 2 {
      AddMove(numMoves, buffer, p, p - 1, p - 2);
      numMoves := numMoves + 1;
      if layer >= 2 {
        AddMove(numMoves, buffer, p, p - layer, p - (2 * layer - 1));
        numMoves := numMoves + 1;
      }
    }
    ghost var left := LeftMoves(p, layer, distanceLeft);
    assert buffer[..numMoves] == left;
    if distanceRight >= 2 {
      AddMove(numMoves, buffer, p, p + 1, p + 2);
      numMoves := numMoves + 1;
      if layer >= 2 {
        AddMove(numMoves, buffer, p, p - (layer - 1), p - (2 * layer - 3));
        numMoves := numMoves + 1;
      }
    }
    ghost var right := RightMoves(p, layer, distanceRight);
    assert buffer[..numMoves] == left + right;
    if layer <= numLayers - 2 {
      AddMove(numMoves, buffer, p, p + (layer + 1), p + (2 * layer + 3));
      numMoves := numMoves + 1;
      AddMove(numMoves, buffer, p, p + layer, p + (2 * layer + 1));
      numMoves := numMoves + 1;
    }
    assert buffer[..numMoves] == HoleMoves(p, layer, distanceLeft, distanceRight, numLayers);
    moves := buffer[..numMoves];
  }

  // ---------------------------------------------------------------------
  // Combining move arrays
  // ---------------------------------------------------------------------

  /**
   * combine as written: a buffer of |a1| + |a2| rows receives a1 at row 0
   * and a2 at row SIZEOF_INT * MOVE_LENGTH * |a1|, since the byte count is
   * added to a pointer to rows. None means the second copy writes rows
   * past the end of the buffer.
   */
  function CombineAsWritten(a1: seq<Move>, a2: seq<Move>): Option<seq<Move>>
  {
    var rows := |a1| + |a2|;
    var destRow := SIZEOF_INT * MOVE_LENGTH * |a1|;
    if |a2| == 0 then Some(a1)
    else if destRow + |a2| > rows then None
    else Some(a1[..destRow] + a2)
  }

  /** As written, combine writes out of bounds exactly when both arrays are non-empty, and is right otherwise. */
  lemma CombineAsWrittenFaults(a1: seq<Move>, a2: seq<Move>)
    ensures CombineAsWritten(a1, a2).None? <==> |a1| > 0 && |a2| > 0
    ensures CombineAsWritten(a1, a2).Some? ==> CombineAsWritten(a1, a2).value == Combine(a1, a2)
  {
  }

  /** One move combined with one move already overruns the two-row buffer. */
  lemma CombineAsWrittenOneAndOne()
    ensures CombineAsWritten([Move(0, 1, 3)], [Move(3, 1, 0)]).None?
  {
  }

  /** combine as intended: the rows of a1 followed by the rows of a2. */
  function Combine(a1: seq<Move>, a2: seq<Move>): (r: seq<Move>)
    ensures |r| == |a1| + |a2|
    ensures r[..|a1|] == a1 && r[|a1|..] == a2
  {
    a1 + a2
  }

  // ---------------------------------------------------------------------
  // All moves of a board
  // ---------------------------------------------------------------------

  /** The moves from holes 0 .. holes - 1 of a board of numLayers layers, in hole order. */
  function MovesBefore(numLayers: int, holes: nat): (moves: seq<Move>)
  {
    if holes == 0 then [] else Combine(MovesBefore(numLayers, holes - 1), MovesFrom(holes - 1, numLayers))
  }

  /**
   * allMoves: join the moves from every hole of the board, in hole order.
   * The loop runs through hole TriangularNumber(n), the last hole; the code
   * as written stops one hole short (see AllMovesMissesLastHole). The
   * pieces are joined with the intended Combine.
   */
  method AllMoves(triangleLayers: int) returns (moves: seq<Move>)
    ensures moves == MovesBefore(triangleLayers, Max(TriangularNumber(triangleLayers) + 1, 0))
    ensures triangleLayers >= 1 ==> moves == AllMovesOfBoard(triangleLayers)
  {
    moves := [];
    var i := 0;
    while i <= TriangularNumber(triangleLayers)
      invariant 0 <= i <= Max(TriangularNumber(triangleLayers) + 1, 0)
      invariant moves == MovesBefore(triangleLayers, i)
    {
      var newMoves := MovesAt(i, triangleLayers);
      moves := Combine(moves, newMoves);
      i := i + 1;
    }
  }

  /** Every move of a board: the moves from all of its holes, the last one included. */
  function AllMovesOfBoard(numLayers: int): seq<Move>
    requires numLayers >= 1
  {
    TriangularAgrees(numLayers);
    LastHoleMonotone(0, numLayers);
    MovesBefore(numLayers, TriangularNumber(numLayers) + 1)
  }

  /** The moves counted over the first d holes of layer l. */
  ghost function PartialLayer(l: int, d: int, n: int): int
  {
    2 * Max(0, d - 2) + 2 * Min(d, Max(0, l - 2)) + (if l <= n - 2 then 2 * d else 0)
  }

  /** The moves counted over layers 1 .. m. */
  ghost function LayersTotal(m: nat, n: int): int
  {
    if m == 0 then 0 else LayersTotal(m - 1, n) + PartialLayer(m, m, n)
  }

  /** One more hole of layer l brings its sideways and downward moves. */
  lemma PartialLayerStep(l: int, d: int, n: int)
    requires 1 <= d <= l
    ensures PartialLayer(l, d, n) == PartialLayer(l, d - 1, n)
      + (if d - 1 >= 2 then 2 else 0)
      + (if l - d >= 2 then 2 else 0)
      + (if l <= n - 2 then 2 else 0)
  {
  }

  /** Counting hole by hole: the holes before hole d of layer l bring the moves of the earlier layers and of d holes of layer l. */
  lemma {:induction false} PrefixCount(n: int, l: int, d: int)
    requires l >= 1 && 0 <= d <= l
    ensures LastHole(l - 1) + 1 + d >= 0
    ensures |MovesBefore(n, LastHole(l - 1) + 1 + d)| == LayersTotal(l - 1, n) + PartialLayer(l, d, n)
    decreases l, d
  {
    LastHoleMonotone(0, l - 1);
    if d > 0 {
      PrefixCount(n, l, d - 1);
      PrefixStep(n, l, d);
    } else if l > 1 {
      PrefixCount(n, l - 1, l - 1);
      assert LastHole(l - 1) == LastHole(l - 2) + (l - 1);
    }
  }

  /** One more hole of layer l adds its moves to the count before it. */
  lemma PrefixStep(n: int, l: int, d: int)
    requires l >= 1 && 1 <= d <= l && LastHole(l - 1) + d >= 0
    requires |MovesBefore(n, LastHole(l - 1) + d)| == LayersTotal(l - 1, n) + PartialLayer(l, d - 1, n)
    ensures |MovesBefore(n, LastHole(l - 1) + 1 + d)| == LayersTotal(l - 1, n) + PartialLayer(l, d, n)
  {
    var p: nat := LastHole(l - 1) + d;
    var before := |MovesBefore(n, p)|;
    MovesFromCount(p, n, l, d - 1);
    PartialLayerStep(l, d, n);
    assert |MovesBefore(n, p + 1)| == before + |MovesFrom(p, n)|;
  }

  /** Summing the layers: 2(m - 1)(m - 2) sideways and upward moves, and the downward moves of the layers with two below. */
  lemma {:induction false} LayersTotalClosedForm(m: nat, n: int)
    requires 1 <= m <= n
    ensures LayersTotal(m, n) == 2 * ((m - 1) * (m - 2)) + (if m <= n - 2 then m * (m + 1) else (n - 1) * (n - 2))
    decreases m
  {
    if m > 1 {
      LayersTotalClosedForm(m - 1, n);
      assert (m - 2) * (m - 3) + 2 * (m - 2) == (m - 1) * (m - 2);
      if m <= n - 2 {
        assert (m - 1) * m + 2 * m == m * (m + 1);
      }
    }
  }

  /** A board of n layers has 3(n - 1)(n - 2) moves, the corrected count. */
  lemma AllMovesCount(n: int)
    requires n >= 1
    ensures |AllMovesOfBoard(n)| == NumMovesCorrected(n) == 3 * ((n - 1) * (n - 2))
  {
    TriangularAgrees(n);
    LastHoleMonotone(0, n);
    assert AllMovesOfBoard(n) == MovesBefore(n, LastHole(n) + 1);
    PrefixCount(n, n, n);
    assert LastHole(n) == LastHole(n - 1) + n;
    assert |AllMovesOfBoard(n)| == LayersTotal(n, n);
    LayersTotalClosedForm(n, n);
    NumMovesCorrectedClosedForm(n);
  }

  /** numMoves as written counts half of the moves of the standard 15-hole board. */
  lemma NumMovesUndercounts()
    ensures NumMoves(5) == 18
    ensures |AllMovesOfBoard(5)| == 36
  {
    AllMovesCount(5);
  }

  /** The two recurrences drift apart by 6 for every layer past the second. */
  lemma {:induction false} NumMovesGap(s: int)
    requires s >= 2
    ensures NumMovesCorrected(s) - NumMoves(s) == 6 * (s - 2)
    decreases s
  {
    if s > 2 {
      NumMovesGap(s - 1);
    }
  }

  /** numMoves as written falls short of the number of moves on every board of three or more layers. */
  lemma NumMovesShort(s: int)
    requires s >= 3
    ensures NumMoves(s) == |AllMovesOfBoard(s)| - 6 * (s - 2)
  {
    NumMovesGap(s);
    AllMovesCount(s);
  }

  /** allMoves as written misses the two moves from the last hole on boards of three or more layers. */
  lemma AllMovesMissesLastHole(n: int)
    requires n >= 3
    ensures TriangularNumber(n) >= 0
    ensures |MovesBefore(n, TriangularNumber(n))| == |AllMovesOfBoard(n)| - 2
  {
    TriangularAgrees(n);
    LastHoleMonotone(0, n);
    var last := LastHole(n);
    MovesFromCount(last, n, n, n - 1);
  }
}
