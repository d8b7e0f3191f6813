/**
 * A non-destructive quicksort over singly linked lists of ints, and the
 * argument handling of its driver. A list is modelled by the sequence of
 * its values: create_node(x, l) is [x] + l, copy_list is the identity on
 * values and append_lists is concatenation. Since values are immutable,
 * quicksort's promise not to modify its argument holds by construction.
 */
module Quicksorter {

  /** What is_sorted checks: values in ascending order. */
  predicate Sorted(s: seq<int>)
  {
    forall i, j :: 0 <= i < j < |s| ==> s[i] <= s[j]
  }

  /**
   * The partition loop from some point on: each remaining value is
   * prepended to less when at most the pivot, to more otherwise.
   */
  function PartitionFrom(pivot: int, rest: seq<int>, less: seq<int>, more: seq<int>): (r: (seq<int>, seq<int>))
    ensures multiset(r.0) + multiset(r.1) == multiset(rest) + multiset(less) + multiset(more)
    ensures (forall x :: x in less ==> x <= pivot) ==> forall x :: x in r.0 ==> x <= pivot
    ensures (forall x :: x in more ==> x > pivot) ==> forall x :: x in r.1 ==> x > pivot
    decreases |rest|
  {
    if rest == [] then (less, more)
    else
      assert rest == [rest[0]] + rest[1..];
      if rest[0] <= pivot then PartitionFrom(pivot, rest[1..], [rest[0]] + less, more)
      else PartitionFrom(pivot, rest[1..], less, [rest[0]] + more)
  }

  /** The values after the pivot, split into those at most the pivot and those above it. */
  function Partition(pivot: int, rest: seq<int>): (r: (seq<int>, seq<int>))
    ensures multiset(r.0) + multiset(r.1) == multiset(rest)
    ensures |r.0| + |r.1| == |rest|
    ensures forall x :: x in r.0 ==> x <= pivot
    ensures forall x :: x in r.1 ==> x > pivot
  {
    var r := PartitionFrom(pivot, rest, [], []);
    assert |multiset(r.0) + multiset(r.1)| == |multiset(rest)|;
    r
  }

  /**
   * quicksort: a list of at most one value is copied; otherwise the head is
   * the pivot, the rest is partitioned and the sorted parts are joined
   * around it.
   */
  function Quicksort(list: seq<int>): (r: seq<int>)
    ensures |list| <= 1 ==> r == list
    ensures Sorted(r)
    ensures multiset(r) == multiset(list)
    decreases |list|
  {
    if |list| <= 1 then list
    else
      var parts := Partition(list[0], list[1..]);
      var r := Quicksort(parts.0) + ([list[0]] + Quicksort(parts.1));
      QuicksortJoin(list, parts.0, parts.1, Quicksort(parts.0), Quicksort(parts.1));
      r
  }

  /** The recombination step of quicksort yields a sorted permutation of the list. */
  lemma QuicksortJoin(list: seq<int>, less: seq<int>, more: seq<int>, sortedLess: seq<int>, sortedMore: seq<int>)
    requires |list| >= 2
    requires multiset(less) + multiset(more) == multiset(list[1..])
    requires forall x :: x in less ==> x <= list[0]
    requires forall x :: x in more ==> x > list[0]
    requires Sorted(sortedLess) && multiset(sortedLess) == multiset(less)
    requires Sorted(sortedMore) && multiset(sortedMore) == multiset(more)
    ensures Sorted(sortedLess + ([list[0]] + sortedMore))
    ensures multiset(sortedLess + ([list[0]] + sortedMore)) == multiset(list)
  {
    assert list == [list[0]] + list[1..];
    forall x | x in multiset(sortedLess) ensures x <= list[0] {
      assert x in less;
    }
    forall x | x in multiset(sortedMore) ensures x > list[0] {
      assert x in more;
    }
    JoinSorted(sortedLess, list[0], sortedMore);
  }

  /** Two sorted lists joined around a pivot that separates them form a sorted list. */
  lemma JoinSorted(a: seq<int>, pivot: int, b: seq<int>)
    requires Sorted(a) && Sorted(b)
    requires forall x :: x in multiset(a) ==> x <= pivot
    requires forall x :: x in multiset(b) ==> x > pivot
    ensures Sorted(a + ([pivot] + b))
  {
    var s := a + ([pivot] + b);
    forall i, j | 0 <= i < j < |s| ensures s[i] <= s[j] {
      if i < |a| {
        assert s[i] in multiset(a);
      }
      if j > |a| {
        assert s[j] in multiset(b);
      }
    }
  }

  /**
   * A sorted arrangement of a multiset of values is unique, so quicksort
   * agrees with every other sort of the same list.
   */
  lemma {:induction false} SortedPermutationUnique(a: seq<int>, b: seq<int>)
    requires Sorted(a) && Sorted(b)
    requires multiset(a) == multiset(b)
    ensures a == b
  {
    if a != [] {
      assert |b| == |a| by {
        assert |multiset(a)| == |multiset(b)|;
      }
      SameHead(a, b);
      TailMultiset(a);
      TailMultiset(b);
      SortedPermutationUnique(a[1..], b[1..]);
      assert a == [a[0]] + a[1..];
      assert b == [b[0]] + b[1..];
    }
  }

  lemma HeadIsLeast(s: seq<int>, x: int)
    requires Sorted(s) && x in multiset(s)
    ensures s[0] <= x
  {
    var k :| 0 <= k < |s| && s[k] == x;
  }

  lemma SameHead(a: seq<int>, b: seq<int>)
    requires Sorted(a) && Sorted(b) && a != [] && b != []
    requires multiset(a) == multiset(b)
    ensures a[0] == b[0]
  {
    assert a[0] in multiset(b);
    assert b[0] in multiset(a);
    HeadIsLeast(a, b[0]);
    HeadIsLeast(b, a[0]);
  }

  lemma TailMultiset(s: seq<int>)
    requires s != []
    ensures multiset(s[1..]) == multiset(s) - multiset{s[0]}
  {
    assert s == [s[0]] + s[1..];
  }

  /** Quicksort returns the one sorted arrangement of its input. */
  lemma QuicksortIsTheSort(list: seq<int>, sorted: seq<int>)
    requires Sorted(sorted) && multiset(sorted) == multiset(list)
    ensures Quicksort(list) == sorted
  {
    SortedPermutationUnique(Quicksort(list), sorted);
  }

  /** The partition for-loop of quicksort, building less and more by prepending. */
  method PartitionLoop(list: seq<int>) returns (less: seq<int>, more: seq<int>)
    requires |list| >= 2
    ensures (less, more) == Partition(list[0], list[1..])
  {
    var pivot := list[0];
    less, more := [], [];
    var i := 1;
    while i < |list|
      invariant 1 <= i <= |list|
      invariant PartitionFrom(pivot, list[i..], less, more) == Partition(pivot, list[1..])
    {
      assert list[i..][1..] == list[i + 1..];
      if list[i] <= pivot {
        less := [list[i]] + less;
      } else {
        more := [list[i]] + more;
      }
      i := i + 1;
    }
  }

  /** The number arguments of args, converted, in argv order. */
  function Numbers(args: seq<string>, atoi: string -> int): (nums: seq<int>)
    ensures |nums| <= |args|
  {
    if args == [] then []
    else if args[0] == "-q" then Numbers(args[1..], atoi)
    else [atoi(args[0])] + Numbers(args[1..], atoi)
  }

  /**
   * main's argument loop: walking argv from the back and prepending each
   * number yields the numbers in argv order; "-q" sets quiet.
   */
  method BuildList(argv: seq<string>, atoi: string -> int) returns (nums: seq<int>, quiet: bool)
    requires |argv| >= 1
    ensures nums == Numbers(argv[1..], atoi)
    ensures quiet <==> "-q" in argv[1..]
  {
    nums, quiet := [], false;
    var i := |argv| - 1;
    while i > 0
      invariant 0 <= i < |argv|
      invariant nums == Numbers(argv[i + 1..], atoi)
      invariant quiet <==> "-q" in argv[i + 1..]
    {
      assert argv[i..][1..] == argv[i + 1..];
      assert argv[i..] == [argv[i]] + argv[i + 1..];
      if argv[i] == "-q" {
        quiet := true;
      } else {
        nums := [atoi(argv[i])] + nums;
      }
      i := i - 1;
    }
  }

  /** How a run of main ends: a usage failure, or the sorted list (printed unless quiet). */
  datatype Run = UsageExit | Success(quiet: bool, sorted: seq<int>)

  /** main: build the list, exit with usage when it is empty, sort it, check it. */
  method QuicksorterMain(argv: seq<string>, atoi: string -> int) returns (run: Run)
    requires |argv| >= 1
    ensures run.UsageExit? <==> Numbers(argv[1..], atoi) == []
    ensures run.Success? ==>
      && Sorted(run.sorted)
      && multiset(run.sorted) == multiset(Numbers(argv[1..], atoi))
      && (run.quiet <==> "-q" in argv[1..])
  {
    var nums, quiet := BuildList(argv, atoi);
    if nums == [] {
      return UsageExit;
    }
    var sortedNums := Quicksort(nums);
    return Success(quiet, sortedNums);
  }
}
