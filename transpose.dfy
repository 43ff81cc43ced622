/**
 * `TransposeIter`: turns a list of sequences into a sequence of rows, row
 * `r` holding element `r` of every sequence, until one of them runs out.
 * Each inner iterator is modelled by the elements it has still to yield.
 */
module Transpose {

  import Wrappers

  predicate AllNonEmpty<T>(its: seq<seq<T>>) {
    forall i :: 0 <= i < |its| ==> its[i] != []
  }

  function Heads<T>(its: seq<seq<T>>): (row: seq<T>)
    requires AllNonEmpty(its)
    ensures |row| == |its|
  {
    seq(|its|, i requires 0 <= i < |its| => its[i][0])
  }

  function Tails<T>(its: seq<seq<T>>): (rest: seq<seq<T>>)
    requires AllNonEmpty(its)
    ensures |rest| == |its|
  {
    seq(|its|, i requires 0 <= i < |its| => its[i][1..])
  }

  /** The index of the first exhausted iterator. */
  function FirstEmpty<T>(its: seq<seq<T>>): (k: nat)
    requires !AllNonEmpty(its)
    ensures k < |its| && its[k] == [] && forall i :: 0 <= i < k ==> its[i] != []
    decreases |its|
  {
    if its[0] == [] then 0
    else
      FirstEmpty(its[1..]) + 1
  }

  class TransposeIter<T> {
    var iterators: seq<seq<T>>

    /** `transpose`: one inner iterator per outer element, in the outer order. */
    constructor (sources: seq<seq<T>>)
      ensures iterators == sources
    {
      iterators := sources;
    }

    /**
     * `next`: advances every iterator in order and returns their elements
     * as one row. The first exhausted iterator stops the row: the result is
     * None, the iterators before it have each lost one element and the
     * others are untouched. With no iterators at all the row is empty and
     * the iteration never ends.
     */
    method Next() returns (r: Wrappers.Option<seq<T>>)
      modifies this
      ensures AllNonEmpty(old(iterators)) ==> r == Wrappers.Some(Heads(old(iterators))) && iterators == Tails(old(iterators))
      ensures !AllNonEmpty(old(iterators)) ==>
        && r == Wrappers.None
        && var k := FirstEmpty(old(iterators));
           iterators == Tails(old(iterators)[..k]) + old(iterators)[k..]
      ensures old(iterators) == [] ==> r == Wrappers.Some([]) && iterators == []
    {
      ghost var its := iterators;
      var row := [];
      var i := 0;
      while i < |iterators|
        invariant 0 <= i <= |its| && |iterators| == |its| && |row| == i
        invariant forall j :: 0 <= j < i ==> its[j] != [] && row[j] == its[j][0] && iterators[j] == its[j][1..]
        invariant forall j :: i <= j < |its| ==> iterators[j] == its[j]
      {
        if iterators[i] == [] {
          assert FirstEmpty(its) == i by { FirstEmptyUnique(its, i); }
          assert iterators == Tails(its[..i]) + its[i..];
          return Wrappers.None;
        }
        row := row + [iterators[i][0]];
        iterators := iterators[i := iterators[i][1..]];
        i := i + 1;
      }
      assert row == Heads(its);
      r := Wrappers.Some(row);
    }
  }

  lemma FirstEmptyUnique<T>(its: seq<seq<T>>, k: nat)
    requires k < |its| && its[k] == [] && forall i :: 0 <= i < k ==> its[i] != []
    ensures !AllNonEmpty(its) && FirstEmpty(its) == k
  {
  }

  function MinLength<T>(its: seq<seq<T>>): (n: nat)
    requires its != []
    ensures forall i :: 0 <= i < |its| ==> n <= |its[i]|
    ensures exists i :: 0 <= i < |its| && n == |its[i]|
    decreases |its|
  {
    if |its| == 1 then |its[0]|
    else
      var rest := MinLength(its[1..]);
      if |its[0]| <= rest then |its[0]| else rest
  }

  /** Every sequence without its first `m` elements. */
  function Drop<T>(its: seq<seq<T>>, m: nat): (rest: seq<seq<T>>)
    requires its != [] && m <= MinLength(its)
    ensures |rest| == |its|
  {
    seq(|its|, i requires 0 <= i < |its| => its[i][m..])
  }

  /** Element `m` of every sequence. */
  function Column<T>(its: seq<seq<T>>, m: nat): (row: seq<T>)
    requires its != [] && m < MinLength(its)
    ensures |row| == |its|
  {
    seq(|its|, i requires 0 <= i < |its| => its[i][m])
  }

  /** Having taken `m` rows, another row exists exactly while `m` is below the shortest length. */
  lemma DropStep<T>(its: seq<seq<T>>, m: nat)
    requires its != [] && m <= MinLength(its)
    ensures AllNonEmpty(Drop(its, m)) <==> m < MinLength(its)
    ensures m < MinLength(its) ==> Heads(Drop(its, m)) == Column(its, m) && Tails(Drop(its, m)) == Drop(its, m + 1)
  {
    var d := Drop(its, m);
    if m < MinLength(its) {
      assert Tails(d) == Drop(its, m + 1) by {
        forall i | 0 <= i < |its|
          ensures Tails(d)[i] == its[i][m + 1..]
        {
          assert d[i] == its[i][m..];
        }
      }
    } else {
      var j :| 0 <= j < |its| && MinLength(its) == |its[j]|;
      assert d[j] == [];
    }
  }

  /** One call of `next` once `m` rows have been taken: the next row exactly while one is left. */
  method NextRow<T>(it: TransposeIter<T>, ghost sources: seq<seq<T>>, ghost m: nat) returns (next: Wrappers.Option<seq<T>>)
    requires sources != [] && m <= MinLength(sources) && it.iterators == Drop(sources, m)
    modifies it
    ensures next.Some? <==> m < MinLength(sources)
    ensures next.Some? ==> next.value == Column(sources, m) && it.iterators == Drop(sources, m + 1)
  {
    DropStep(sources, m);
    next := it.Next();
  }

  /**
   * Iterating a transposition of at least one finite sequence to its end:
   * as many rows as the shortest sequence is long, row `r` being element
   * `r` of every sequence, in their order.
   */
  method Collect<T>(sources: seq<seq<T>>) returns (rows: seq<seq<T>>)
    requires sources != []
    ensures |rows| == MinLength(sources)
    ensures forall r :: 0 <= r < |rows| ==> rows[r] == Column(sources, r)
  {
    var it := new TransposeIter(sources);
    rows := [];
    assert Drop(sources, 0) == sources;
    var next := NextRow(it, sources, 0);
    while next.Some?
      invariant |rows| <= MinLength(sources)
      invariant next.Some? <==> |rows| < MinLength(sources)
      invariant next.Some? ==> next.value == Column(sources, |rows|) && it.iterators == Drop(sources, |rows| + 1)
      invariant forall r :: 0 <= r < |rows| ==> rows[r] == Column(sources, r)
      decreases MinLength(sources) - |rows|
    {
      rows := rows + [next.value];
      next := NextRow(it, sources, |rows|);
    }
  }

  /** With no inner iterators every call yields an empty row: the iteration never ends. */
  method EmptyNeverEnds<T>(calls: nat) returns (results: seq<Wrappers.Option<seq<T>>>)
    ensures |results| == calls
    ensures forall i :: 0 <= i < calls ==> results[i] == Wrappers.Some([])
  {
    var it := new TransposeIter<T>([]);
    results := [];
    while |results| < calls
      invariant |results| <= calls && it.iterators == []
      invariant forall i :: 0 <= i < |results| ==> results[i] == Wrappers.Some([])
    {
      var r := it.Next();
      results := results + [r];
    }
  }
}
