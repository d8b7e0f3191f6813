/**
 * Two in-place sorts of the first numc cells of an int array (minimum
 * element sort and bubble sort), the swap they share, the sortedness check
 * main asserts, and main's classification of its arguments.
 */
module Sorter {

  /** The most numbers main accepts. */
  const MAX_INT_ARGS := 32

  /** What checkSort tests: every value is at least its predecessor. */
  predicate Sorted(s: seq<int>)
  {
    forall i :: 1 <= i < |s| ==> s[i - 1] <= s[i]
  }

  /** Every value of s[lo..hi) is at most every later one in that range. */
  ghost predicate SortedBetween(s: seq<int>, lo: int, hi: int)
    requires 0 <= lo <= hi <= |s|
  {
    forall p, q :: lo <= p < q < hi ==> s[p] <= s[q]
  }

  /** Everything in s[..mid) is at most everything in s[mid..hi). */
  ghost predicate Split(s: seq<int>, mid: int, hi: int)
    requires 0 <= mid <= hi <= |s|
  {
    forall p, q :: 0 <= p < mid <= q < hi ==> s[p] <= s[q]
  }

  /** swap: exchange two cells; nothing else changes. */
  method Swap(numv: array<int>, index1: int, index2: int)
    requires 0 <= index1 < numv.Length && 0 <= index2 < numv.Length
    modifies numv
    ensures numv[..] == old(numv[..])[index1 := old(numv[index2])][index2 := old(numv[index1])]
  {
    var tmp := numv[index1];
    numv[index1] := numv[index2];
    numv[index2] := tmp;
  }

  /** A swap of two cells below n permutes the first n cells and keeps the rest. */
  lemma SwapPermutes(s: seq<int>, i: int, j: int, n: int)
    requires 0 <= i < n && 0 <= j < n && n <= |s|
    ensures var t := s[i := s[j]][j := s[i]];
      multiset(t[..n]) == multiset(s[..n]) && t[n..] == s[n..]
  {
    var t := s[i := s[j]][j := s[i]];
    assert t[..n] == s[..n][i := s[j]][j := s[i]];
  }

  /** checkSort: a read-only scan for an adjacent pair out of order. */
  method CheckSort(numc: int, numv: array<int>) returns (sorted: bool)
    requires numc <= numv.Length
    ensures sorted <==> numc <= 0 || Sorted(numv[..numc])
  {
    var i := 1;
    while i < numc
      invariant 1 <= i
      invariant numc > 0 ==> i <= numc
      invariant forall k :: 1 <= k < i && k < numc ==> numv[k - 1] <= numv[k]
    {
      if numv[i] < numv[i - 1] {
        return false;
      }
      i := i + 1;
    }
    return true;
  }

  /** Pairwise order of a range implies the adjacent order checkSort tests. */
  lemma SortedFromBetween(s: seq<int>)
    requires SortedBetween(s, 0, |s|)
    ensures Sorted(s)
  {
  }

  /** The inner loop of minimumElementSort: the index of a least value of numv[start..numc). */
  method MinimumIndex(numc: int, numv: array<int>, start: int) returns (minIndex: int)
    requires 0 <= start < numc <= numv.Length
    ensures start <= minIndex < numc
    ensures forall k :: start <= k < numc ==> numv[minIndex] <= numv[k]
  {
    minIndex := start;
    var i := start + 1;
    while i < numc
      invariant start < i <= numc
      invariant start <= minIndex < i
      invariant forall k :: start <= k < i ==> numv[minIndex] <= numv[k]
    {
      if numv[i] < numv[minIndex] {
        minIndex := i;
      }
      i := i + 1;
    }
  }

  /** The invariant of minimumElementSort after `start` passes. */
  ghost predicate SelectionDone(s: seq<int>, start: int, n: int)
    requires 0 <= start <= n <= |s|
  {
    SortedBetween(s, 0, start) && Split(s, start, n)
  }

  /**
   * One pass of minimumElementSort: swapping a least value of s[start..n)
   * into position start extends the sorted prefix by one.
   */
  lemma SelectionStep(s: seq<int>, start: int, m: int, n: int)
    requires 0 <= start <= m < n <= |s|
    requires SelectionDone(s, start, n)
    requires forall k :: start <= k < n ==> s[m] <= s[k]
    ensures var t := s[start := s[m]][m := s[start]];
      && SelectionDone(t, start + 1, n)
      && multiset(t[..n]) == multiset(s[..n]) && t[n..] == s[n..]
      && forall k :: start <= k < n ==> t[start] <= t[k]
  {
    SwapPermutes(s, start, m, n);
  }

  /**
   * minimumElementSort: for each start, find the least value of
   * numv[start..numc) and swap it into place.
   */
  method MinimumElementSort(numc: int, numv: array<int>)
    requires 0 <= numc <= numv.Length
    modifies numv
    ensures Sorted(numv[..numc])
    ensures multiset(numv[..numc]) == old(multiset(numv[..numc]))
    ensures numv[numc..] == old(numv[numc..])
  {
    var start := 0;
    while start < numc
      invariant 0 <= start <= numc
      invariant SelectionDone(numv[..], start, numc)
      invariant multiset(numv[..numc]) == old(multiset(numv[..numc]))
      invariant numv[numc..] == old(numv[numc..])
    {
      var minIndex := MinimumIndex(numc, numv, start);
      ghost var before := numv[..];
      Swap(numv, start, minIndex);
      SelectionStep(before, start, minIndex, numc);
      start := start + 1;
    }
    SortedFromBetween(numv[..numc]);
  }

  /**
   * The invariant of bubbleSort's inner loop at index i with fsi passes to
   * go: s[fsi..n) holds the largest values in order, and the largest of
   * s[..min(i, fsi)) sits at its last position.
   */
  ghost predicate BubbleInvariant(s: seq<int>, i: int, fsi: int, n: int)
    requires 1 <= i <= n <= |s| && 0 < fsi <= n
  {
    var top := if i <= fsi then i - 1 else fsi - 1;
    && SortedBetween(s, fsi, n)
    && Split(s, fsi, n)
    && forall k :: 0 <= k <= top ==> s[k] <= s[top]
  }

  /** One step of bubbleSort's inner loop keeps its invariant. */
  lemma BubbleStep(s: seq<int>, t: seq<int>, i: int, fsi: int, n: int)
    requires 1 <= i < n <= |s| && 0 < fsi <= n
    requires BubbleInvariant(s, i, fsi, n)
    requires t == if s[i] < s[i - 1] then s[i := s[i - 1]][i - 1 := s[i]] else s
    ensures BubbleInvariant(t, i + 1, fsi, n)
    ensures multiset(t[..n]) == multiset(s[..n]) && t[n..] == s[n..]
  {
    if s[i] < s[i - 1] {
      SwapPermutes(s, i, i - 1, n);
    }
  }

  /** A completed bubbleSort pass places the next largest value at fsi - 1. */
  lemma BubblePassDone(s: seq<int>, fsi: int, n: int)
    requires 0 < fsi <= n <= |s|
    requires BubbleInvariant(s, n, fsi, n)
    ensures SortedBetween(s, fsi - 1, n) && Split(s, fsi - 1, n)
  {
  }

  /**
   * One pass of bubbleSort's outer loop: every adjacent pair of
   * numv[..numc) is swapped when out of order, which carries the largest
   * value below fsi up to fsi - 1.
   */
  method BubblePass(numc: int, numv: array<int>, fsi: int)
    requires 0 < fsi <= numc <= numv.Length
    requires SortedBetween(numv[..], fsi, numc) && Split(numv[..], fsi, numc)
    modifies numv
    ensures SortedBetween(numv[..], fsi - 1, numc) && Split(numv[..], fsi - 1, numc)
    ensures multiset(numv[..numc]) == old(multiset(numv[..numc]))
    ensures numv[numc..] == old(numv[numc..])
  {
    var i := 1;
    while i < numc
      invariant 1 <= i <= numc
      invariant BubbleInvariant(numv[..], i, fsi, numc)
      invariant multiset(numv[..numc]) == old(multiset(numv[..numc]))
      invariant numv[numc..] == old(numv[numc..])
    {
      ghost var before := numv[..];
      if numv[i] < numv[i - 1] {
        Swap(numv, i, i - 1);
      }
      BubbleStep(before, numv[..], i, fsi, numc);
      i := i + 1;
    }
    BubblePassDone(numv[..], fsi, numc);
  }

  /**
   * bubbleSort: numc passes, each over every adjacent pair of
   * numv[..numc), swapping the pairs out of order.
   */
  method BubbleSort(numc: int, numv: array<int>)
    requires 0 <= numc <= numv.Length
    modifies numv
    ensures Sorted(numv[..numc])
    ensures multiset(numv[..numc]) == old(multiset(numv[..numc]))
    ensures numv[numc..] == old(numv[numc..])
  {
    var fsi := numc;
    while fsi > 0
      invariant 0 <= fsi <= numc
      invariant SortedBetween(numv[..], fsi, numc) && Split(numv[..], fsi, numc)
      invariant multiset(numv[..numc]) == old(multiset(numv[..numc]))
      invariant numv[numc..] == old(numv[numc..])
    {
      BubblePass(numc, numv, fsi);
      fsi := fsi - 1;
    }
    SortedFromBetween(numv[..numc]);
  }

  /** What main makes of its arguments. */
  datatype Arguments =
    | BadArguments
    | Arguments(quiet: bool, bubble: bool, numbers: seq<int>)

  predicate IsNumber(arg: string)
  {
    arg != "-q" && arg != "-b"
  }

  /** The number arguments among args, in order. */
  function NumberArguments(args: seq<string>): (nums: seq<string>)
    ensures |nums| <= |args|
  {
    if args == [] then []
    else if IsNumber(args[0]) then [args[0]] + NumberArguments(args[1..])
    else NumberArguments(args[1..])
  }

  function MapNumbers(args: seq<string>, atoi: string -> int): (r: seq<int>)
    ensures |r| == |args|
    ensures forall k :: 0 <= k < |args| ==> r[k] == atoi(args[k])
  {
    if args == [] then [] else [atoi(args[0])] + MapNumbers(args[1..], atoi)
  }

  lemma NumberArgumentsAppend(args: seq<string>, arg: string)
    ensures NumberArguments(args + [arg]) ==
      NumberArguments(args) + (if IsNumber(arg) then [arg] else [])
  {
    if args != [] {
      assert (args + [arg])[1..] == args[1..] + [arg];
    }
  }

  lemma MapNumbersAppend(args: seq<string>, arg: string, atoi: string -> int)
    ensures MapNumbers(args + [arg], atoi) == MapNumbers(args, atoi) + [atoi(arg)]
  {
  }

  /**
   * main's argument loop: "-q" and "-b" are flags, everything else is a
   * number (converted by atoi); no numbers, or more than MAX_INT_ARGS of
   * them, is a usage failure.
   */
  method ClassifyArguments(argv: seq<string>, atoi: string -> int) returns (r: Arguments)
    requires |argv| >= 1
    ensures var nums := NumberArguments(argv[1..]);
      r.BadArguments? <==> |nums| == 0 || |nums| > MAX_INT_ARGS
    ensures r.Arguments? ==>
      && r.numbers == MapNumbers(NumberArguments(argv[1..]), atoi)
      && (r.quiet <==> "-q" in argv[1..])
      && (r.bubble <==> "-b" in argv[1..])
  {
    var numbers: seq<int> := [];
    var quiet, bubble := false, false;
    ghost var seen: seq<string> := [];
    var i := 1;
    while i < |argv|
      invariant 1 <= i <= |argv| && seen == argv[1..i]
      invariant |NumberArguments(seen)| <= MAX_INT_ARGS
      invariant numbers == MapNumbers(NumberArguments(seen), atoi)
      invariant quiet <==> "-q" in seen
      invariant bubble <==> "-b" in seen
    {
      var arg := argv[i];
      NumberArgumentsAppend(seen, arg);
      ghost var before := seen;
      seen := seen + [arg];
      assert seen == argv[1..i + 1];
      if arg == "-q" {
        quiet := true;
      } else if arg == "-b" {
        bubble := true;
      } else {
        MapNumbersAppend(NumberArguments(before), arg, atoi);
        numbers := numbers + [atoi(arg)];
        if |numbers| > MAX_INT_ARGS {
          assert argv[1..][..i] == seen;
          NumberArgumentsPrefix(argv[1..], i);
          return BadArguments;
        }
      }
      i := i + 1;
    }
    assert seen == argv[1..];
    if |numbers| == 0 {
      return BadArguments;
    }
    return Arguments(quiet, bubble, numbers);
  }

  /** A prefix of the arguments holds no more numbers than all of them. */
  lemma {:induction false} NumberArgumentsPrefix(args: seq<string>, k: int)
    requires 0 <= k <= |args|
    ensures |NumberArguments(args[..k])| <= |NumberArguments(args)|
  {
    if k > 0 {
      assert args[..k][1..] == args[1..][..k - 1];
      NumberArgumentsPrefix(args[1..], k - 1);
    }
  }

  /** main's array numv of MAX_INT_ARGS cells, with the numbers in its first numc. */
  method StoreNumbers(numbers: seq<int>) returns (numv: array<int>, numc: int)
    requires |numbers| <= MAX_INT_ARGS
    ensures fresh(numv) && numv.Length == MAX_INT_ARGS
    ensures numc == |numbers| && numv[..numc] == numbers
  {
    numv := new int[MAX_INT_ARGS];
    numc := 0;
    while numc < |numbers|
      invariant 0 <= numc <= |numbers|
      invariant numv[..numc] == numbers[..numc]
    {
      numv[numc] := numbers[numc];
      numc := numc + 1;
    }
  }

  /** How a run of main ends: a usage failure, or the sorted numbers (printed unless quiet). */
  datatype Run = UsageExit | Success(quiet: bool, sorted: seq<int>)

  /**
   * main: classify the arguments, sort the numbers with the chosen sort
   * and check the result as main's assertion does.
   */
  method SorterMain(argv: seq<string>, atoi: string -> int) returns (run: Run)
    requires |argv| >= 1
    ensures var nums := NumberArguments(argv[1..]);
      run.UsageExit? <==> |nums| == 0 || |nums| > MAX_INT_ARGS
    ensures run.Success? ==>
      && Sorted(run.sorted)
      && multiset(run.sorted) == multiset(MapNumbers(NumberArguments(argv[1..]), atoi))
      && (run.quiet <==> "-q" in argv[1..])
  {
    var args := ClassifyArguments(argv, atoi);
    if args.BadArguments? {
      return UsageExit;
    }
    var numv, numc := StoreNumbers(args.numbers);
    if !args.bubble {
      MinimumElementSort(numc, numv);
    } else {
      BubbleSort(numc, numv);
    }
    var ok := CheckSort(numc, numv);
    assert ok;
    return Success(args.quiet, numv[..numc]);
  }
}
