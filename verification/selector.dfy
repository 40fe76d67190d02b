/** Reporting the result (do_result and dump_random_file): the sentinel when
    nothing was found, otherwise the path at a randomly drawn index.

    The random source is not modelled: `rand(n)` is the value Random.rand(n)
    returns, and the only thing assumed of it is that it lies in [0, n) for
    every positive n.
 */
module Selector {
  import opened Filters

  /** What the program prints as its result: the usage text, the sentinel
      line "no-files", or one path. */
  datatype Output = Usage | NoFiles | Chosen(path: Path)

  type Rand = nat -> nat

  ghost predicate DrawsInRange(rand: Rand) {
    forall n: nat :: 0 < n ==> rand(n) < n
  }

  /** The number of draws in [0, |found|) that print `p`. */
  function Hits(found: seq<Path>, p: Path): nat {
    |set i | 0 <= i < |found| && found[i] == p|
  }

  /** The result of a run that found `found`: the sentinel exactly when nothing
      was found, otherwise a path drawn from the list. */
  function DoResult(found: seq<Path>, rand: Rand): (out: Output)
    requires DrawsInRange(rand)
    ensures out == NoFiles <==> |found| == 0
    ensures !out.Usage?
    ensures |found| > 0 ==> rand(|found|) < |found| && out == Chosen(found[rand(|found|)])
    ensures out.Chosen? ==> out.path in found
  {
    if |found| == 0 then NoFiles else Chosen(found[rand(|found|)])
  }

  /** The random source that draws `i` when asked for a number below `n`. */
  function Fixed(i: nat, n: nat): Rand {
    (m: nat) => if m == n then i else 0
  }

  /** Any index below the list's length can be drawn, and drawing it prints
      the path at that index. */
  lemma FixedDrawPicks(found: seq<Path>, i: nat)
    requires i < |found|
    ensures DrawsInRange(Fixed(i, |found|))
    ensures DoResult(found, Fixed(i, |found|)) == Chosen(found[i])
  {
  }

  /** The draws in [0, n) for which the program prints `p` are exactly the
      ones `Hits` counts. */
  lemma WinningDrawsAreHits(found: seq<Path>, p: Path)
    ensures (set i: nat | i < |found| && DoResult(found, Fixed(i, |found|)) == Chosen(p))
         == (set i | 0 <= i < |found| && found[i] == p)
    ensures |set i: nat | i < |found| && DoResult(found, Fixed(i, |found|)) == Chosen(p)| == Hits(found, p)
  {
    forall i: nat | i < |found|
      ensures DoResult(found, Fixed(i, |found|)) == Chosen(found[i])
    {
      FixedDrawPicks(found, i);
    }
  }

  /** A path's number of winning draws is its number of occurrences in the
      list: duplicates are not merged, so a path found twice is twice as likely. */
  lemma {:induction false} HitsCountsOccurrences(found: seq<Path>, p: Path)
    ensures Hits(found, p) == multiset(found)[p]
    decreases |found|
  {
    if |found| > 0 {
      var front := found[..|found| - 1];
      var last := found[|found| - 1];
      assert found == front + [last];
      HitsCountsOccurrences(front, p);
      var before := set i | 0 <= i < |front| && front[i] == p;
      var now := set i | 0 <= i < |found| && found[i] == p;
      if last == p {
        assert now == before + {|front|};
      } else {
        assert now == before;
      }
    }
  }

  /** A list found twice over gives every path twice its winning draws. */
  lemma DuplicatesDoubleWeight(found: seq<Path>, p: Path)
    ensures Hits(found + found, p) == 2 * Hits(found, p)
  {
    HitsCountsOccurrences(found + found, p);
    HitsCountsOccurrences(found, p);
  }
}
