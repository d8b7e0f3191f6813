/**
 * A one-dimensional cellular automaton: a cell becomes 1 exactly when it
 * is 0 and exactly one of its two neighbours is 1; cells beyond either end
 * of a generation count as 0.
 */
module Automaton {

  datatype Option<T> = None | Some(value: T)

  /** cellUpdate: the rule for one cell. */
  function CellUpdate(left: int, center: int, right: int): (r: int)
    ensures r == 0 || r == 1
    ensures r == 1 <==> center == 0 && left + right == 1
  {
    if left + right == 1 && center == 0 then 1 else 0
  }

  /** The cell at index i, or 0 beyond either end. */
  function Cell(gen: seq<int>, i: int): int
  {
    if 0 <= i < |gen| then gen[i] else 0
  }

  /** The new value of cell i of gen. */
  function NextCell(gen: seq<int>, i: int): int
    requires 0 <= i < |gen|
  {
    CellUpdate(Cell(gen, i - 1), gen[i], Cell(gen, i + 1))
  }

  /** The new values of cells from..|gen| of gen. */
  function NextFrom(gen: seq<int>, from: nat): (cells: seq<int>)
    requires from <= |gen|
    ensures |cells| == |gen| - from
    ensures forall i :: from <= i < |gen| ==> cells[i - from] == NextCell(gen, i)
    decreases |gen| - from
  {
    if from == |gen| then [] else [NextCell(gen, from)] + NextFrom(gen, from + 1)
  }

  /** The generation after gen, cell by cell. */
  function NextGen(gen: seq<int>): (next: seq<int>)
    ensures |next| == |gen|
    ensures forall i :: 0 <= i < |gen| ==> next[i] == NextCell(gen, i)
  {
    NextFrom(gen, 0)
  }

  /** The generation k steps after gen. */
  function Iterate(gen: seq<int>, k: nat): (r: seq<int>)
    ensures |r| == |gen|
  {
    if k == 0 then gen else NextGen(Iterate(gen, k - 1))
  }

  /**
   * update (index version): a fresh generation of num_cells cells, each
   * computed from the old cell and its neighbours, with 0 past the ends.
   */
  method Update(numCells: int, currentGen: array<int>) returns (newGen: array<int>)
    requires numCells == currentGen.Length
    ensures fresh(newGen)
    ensures newGen.Length == numCells
    ensures newGen[..] == NextGen(currentGen[..])
  {
    newGen := new int[numCells];
    var i := 0;
    while i < numCells
      invariant 0 <= i <= numCells
      invariant forall k :: 0 <= k < i ==> newGen[k] == NextGen(currentGen[..])[k]
    {
      var left := if i > 0 then currentGen[i - 1] else 0;
      var right := if i < numCells - 1 then currentGen[i + 1] else 0;
      newGen[i] := CellUpdate(left, currentGen[i], right);
      i := i + 1;
    }
  }

  /**
   * update (pointer version): the same walk with three cursors. For the
   * first cell it reads the right cursor unconditionally, which for a
   * one-cell generation lies past the end: that read is reported as None.
   */
  method UpdateByPointer(numCells: int, currentGen: array<int>) returns (r: Option<array<int>>)
    requires numCells == currentGen.Length
    ensures r.None? <==> numCells == 1
    ensures r.Some? ==> fresh(r.value) && r.value[..] == NextGen(currentGen[..])
  {
    var newGen := new int[numCells];
    // the cursors pl, pc, pr and pn are the indices i - 1, i, i + 1 and i
    var i := 0;
    while i < numCells
      invariant 0 <= i <= numCells
      invariant numCells == 1 ==> i == 0
      invariant forall k :: 0 <= k < i ==> newGen[k] == NextGen(currentGen[..])[k]
    {
      if i == 0 {
        if i + 1 >= numCells {
          return None;
        }
        newGen[i] := CellUpdate(0, currentGen[i], currentGen[i + 1]);
      } else if i == numCells - 1 {
        newGen[i] := CellUpdate(currentGen[i - 1], currentGen[i], 0);
      } else {
        newGen[i] := CellUpdate(currentGen[i - 1], currentGen[i], currentGen[i + 1]);
      }
      i := i + 1;
    }
    return Some(newGen);
  }

  /**
   * run: fill generations[offset..offset + num_gens) with the next
   * num_gens generations after current_gen, recursively.
   */
  method Run(numGens: nat, numCells: int, currentGen: array<int>, generations: array<array<int>>, offset: nat)
    requires numCells == currentGen.Length
    requires offset + numGens <= generations.Length
    modifies generations
    ensures forall j :: offset <= j < offset + numGens ==>
      && fresh(generations[j])
      && generations[j][..] == Iterate(currentGen[..], j - offset + 1)
    ensures forall j :: 0 <= j < generations.Length && !(offset <= j < offset + numGens) ==>
      generations[j] == old(generations[j])
    decreases numGens
  {
    if numGens == 0 {
      return;
    }
    var next := Update(numCells, currentGen);
    generations[offset] := next;
    Run(numGens - 1, numCells, next, generations, offset + 1);
    forall j | offset < j < offset + numGens
      ensures generations[j][..] == Iterate(currentGen[..], j - offset + 1)
    {
      IterateShift(currentGen[..], j - offset);
    }
  }

  /** k + 1 steps from gen are k steps from the generation after gen. */
  lemma {:induction false} IterateShift(gen: seq<int>, k: nat)
    ensures Iterate(NextGen(gen), k) == Iterate(gen, k + 1)
  {
    if k > 0 {
      calc {
        Iterate(NextGen(gen), k);
        NextGen(Iterate(NextGen(gen), k - 1));
        { IterateShift(gen, k - 1); }
        NextGen(Iterate(gen, k));
        Iterate(gen, k + 1);
      }
    }
  }

  /**
   * main: the given first generation, then run over the remaining
   * num_gens - 1 slots. The C code does not check num_gens; below 1 it
   * writes into an empty buffer and run recurses without end, so the
   * model requires at least one generation.
   */
  method Simulate(numGens: int, numCells: int, initialGen: array<int>) returns (generations: array<array<int>>)
    requires numGens >= 1
    requires numCells == initialGen.Length
    ensures generations.Length == numGens
    ensures forall k :: 0 <= k < numGens ==> generations[k][..] == Iterate(initialGen[..], k)
  {
    generations := new array<int>[numGens](_ => initialGen);
    generations[0] := initialGen;
    Run(numGens - 1, numCells, initialGen, generations, 1);
  }

  /** Every generation after the first holds only zeros and ones, whatever the first held. */
  lemma IterateBinary(gen: seq<int>, k: nat)
    requires k >= 1
    ensures forall i :: 0 <= i < |gen| ==> Iterate(gen, k)[i] == 0 || Iterate(gen, k)[i] == 1
  {
  }

  /** An all-zero generation stays all zero forever. */
  lemma {:induction false} ZerosStayZero(gen: seq<int>, k: nat)
    requires forall i :: 0 <= i < |gen| ==> gen[i] == 0
    ensures Iterate(gen, k) == gen
  {
    if k > 0 {
      ZerosStayZero(gen, k - 1);
      assert NextGen(gen) == gen by {
        forall i | 0 <= i < |gen| ensures NextGen(gen)[i] == gen[i] {
          assert Cell(gen, i - 1) == 0 && Cell(gen, i + 1) == 0;
        }
      }
    }
  }

  /** A lone live cell away from the ends spreads to both of its neighbours and dies. */
  lemma LoneCellSpreads(gen: seq<int>, i: int)
    requires 1 <= i < |gen| - 1
    requires forall j :: 0 <= j < |gen| ==> gen[j] == (if j == i then 1 else 0)
    ensures NextGen(gen)[i - 1] == 1 && NextGen(gen)[i] == 0 && NextGen(gen)[i + 1] == 1
  {
  }
}
