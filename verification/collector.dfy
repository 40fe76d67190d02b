/** The directory walk and the collection of accepted paths (do_main and
    do_main_fordir).

    The filesystem is not modelled: `walk(root)` is the sequence of entries the
    recursive walk of `root` yields, in walk order, each entry carrying its path,
    the name of its parent directory and whether it is a directory.
 */
module Collector {
  import opened Filters

  datatype Entry = Entry(path: Path, dirname: Path, isDir: bool)

  /** The entries a full recursive walk of a root yields, in walk order. */
  type Walk = Path -> seq<Entry>

  /** The depth test: outside recursive mode only entries whose parent is the
      root itself, spelled exactly as given, are considered. */
  predicate InScope(e: Entry, root: Path, recurse: bool) {
    recurse || e.dirname == root
  }

  /** An entry that may be collected: in scope and not a directory. */
  predicate Candidate(e: Entry, root: Path, recurse: bool) {
    InScope(e, root, recurse) && !e.isDir
  }

  /** An entry that is collected: a candidate that the filter chain accepts. */
  predicate Collected(e: Entry, root: Path, recurse: bool, rules: seq<Rule>, matches: Matcher) {
    Candidate(e, root, recurse) && Accepts(rules, e.path, matches)
  }

  /** `p` is the path of some entry of `entries` that is collected. */
  predicate FromCollectedEntry(p: Path, entries: seq<Entry>, root: Path, recurse: bool, rules: seq<Rule>, matches: Matcher) {
    exists e | e in entries :: e.path == p && Collected(e, root, recurse, rules, matches)
  }

  /** The paths one root contributes, in walk order: each entry is tested in
      turn and appended when it is collected. */
  function CollectForDir(entries: seq<Entry>, root: Path, recurse: bool, rules: seq<Rule>, matches: Matcher): (found: seq<Path>)
    ensures |found| <= |entries|
    ensures forall p | p in found :: FromCollectedEntry(p, entries, root, recurse, rules, matches)
    decreases |entries|
  {
    if |entries| == 0 then []
    else
      var front := entries[..|entries| - 1];
      var e := entries[|entries| - 1];
      var before := CollectForDir(front, root, recurse, rules, matches);
      assert forall p | p in before :: FromCollectedEntry(p, entries, root, recurse, rules, matches) by {
        forall p | p in before
          ensures FromCollectedEntry(p, entries, root, recurse, rules, matches)
        {
          var x :| x in front && x.path == p && Collected(x, root, recurse, rules, matches);
          assert x in entries;
        }
      }
      if Collected(e, root, recurse, rules, matches) then before + [e.path] else before
  }

  /** Every collected entry's path is in the result. */
  lemma {:induction false} CollectForDirComplete(entries: seq<Entry>, root: Path, recurse: bool, rules: seq<Rule>, matches: Matcher, e: Entry)
    requires e in entries
    requires Collected(e, root, recurse, rules, matches)
    ensures e.path in CollectForDir(entries, root, recurse, rules, matches)
    decreases |entries|
  {
    var front := entries[..|entries| - 1];
    if e != entries[|entries| - 1] {
      assert entries == front + [entries[|entries| - 1]];
      CollectForDirComplete(front, root, recurse, rules, matches, e);
    }
  }

  /** Collection distributes over a walk split in two: the result keeps walk order. */
  lemma {:induction false} CollectForDirConcat(a: seq<Entry>, b: seq<Entry>, root: Path, recurse: bool, rules: seq<Rule>, matches: Matcher)
    ensures CollectForDir(a + b, root, recurse, rules, matches)
         == CollectForDir(a, root, recurse, rules, matches) + CollectForDir(b, root, recurse, rules, matches)
    decreases |b|
  {
    if |b| == 0 {
      assert a + b == a;
    } else {
      var bf := b[..|b| - 1];
      assert (a + b)[..|a + b| - 1] == a + bf;
      assert (a + b)[|a + b| - 1] == b[|b| - 1];
      CollectForDirConcat(a, bf, root, recurse, rules, matches);
    }
  }

  /** `p` is the path of a collected entry of the walk of one of `roots`. */
  predicate FromSomeRoot(p: Path, roots: seq<Path>, walk: Walk, recurse: bool, rules: seq<Rule>, matches: Matcher) {
    exists j | 0 <= j < |roots| :: FromCollectedEntry(p, walk(roots[j]), roots[j], recurse, rules, matches)
  }

  /** The paths all roots contribute, root by root in the order given. */
  function CollectAll(roots: seq<Path>, walk: Walk, recurse: bool, rules: seq<Rule>, matches: Matcher): (found: seq<Path>)
    ensures forall p | p in found :: FromSomeRoot(p, roots, walk, recurse, rules, matches)
    decreases |roots|
  {
    if |roots| == 0 then []
    else
      var front := roots[..|roots| - 1];
      var root := roots[|roots| - 1];
      var before := CollectAll(front, walk, recurse, rules, matches);
      var here := CollectForDir(walk(root), root, recurse, rules, matches);
      assert forall p | p in before :: FromSomeRoot(p, roots, walk, recurse, rules, matches) by {
        forall p | p in before
          ensures FromSomeRoot(p, roots, walk, recurse, rules, matches)
        {
          var j :| 0 <= j < |front| && FromCollectedEntry(p, walk(front[j]), front[j], recurse, rules, matches);
          assert front[j] == roots[j];
        }
      }
      assert forall p | p in here :: FromSomeRoot(p, roots, walk, recurse, rules, matches) by {
        forall p | p in here
          ensures FromSomeRoot(p, roots, walk, recurse, rules, matches)
        {
          assert FromCollectedEntry(p, walk(roots[|roots| - 1]), roots[|roots| - 1], recurse, rules, matches);
        }
      }
      before + here
  }

  /** Collection distributes over a root list split in two: a root listed twice
      contributes its paths twice. */
  lemma {:induction false} CollectAllConcat(a: seq<Path>, b: seq<Path>, walk: Walk, recurse: bool, rules: seq<Rule>, matches: Matcher)
    ensures CollectAll(a + b, walk, recurse, rules, matches)
         == CollectAll(a, walk, recurse, rules, matches) + CollectAll(b, walk, recurse, rules, matches)
    decreases |b|
  {
    if |b| == 0 {
      assert a + b == a;
    } else {
      var bf := b[..|b| - 1];
      assert (a + b)[..|a + b| - 1] == a + bf;
      assert (a + b)[|a + b| - 1] == b[|b| - 1];
      CollectAllConcat(a, bf, walk, recurse, rules, matches);
    }
  }

  /** Outside recursive mode, every collected path comes from a non-directory
      entry whose parent directory is spelled exactly as one of the roots. */
  lemma NonRecursiveStaysAtTop(roots: seq<Path>, walk: Walk, rules: seq<Rule>, matches: Matcher, p: Path)
    requires p in CollectAll(roots, walk, false, rules, matches)
    ensures exists j, e | 0 <= j < |roots| && e in walk(roots[j]) :: !e.isDir && e.dirname == roots[j] && e.path == p
  {
  }

  /** Paths with `pattern` dropped, order kept. */
  function Without(paths: seq<Path>, pattern: Pattern, matches: Matcher): (kept: seq<Path>)
    ensures forall p | p in kept :: p in paths && !matches(p, pattern)
  {
    if |paths| == 0 then []
    else (if matches(paths[0], pattern) then [] else [paths[0]]) + Without(paths[1..], pattern, matches)
  }

  lemma {:induction false} WithoutAppend(paths: seq<Path>, p: Path, pattern: Pattern, matches: Matcher)
    ensures Without(paths + [p], pattern, matches)
         == Without(paths, pattern, matches) + (if matches(p, pattern) then [] else [p])
    decreases |paths|
  {
    if |paths| == 0 {
      assert paths + [p] == [p];
    } else {
      assert (paths + [p])[1..] == paths[1..] + [p];
      WithoutAppend(paths[1..], p, pattern, matches);
    }
  }

  /** Appending a reject rule removes from a root's result exactly the
      previously collected paths the pattern matches, and nothing else. */
  lemma {:induction false} AppendRejectNarrows(entries: seq<Entry>, root: Path, recurse: bool, rules: seq<Rule>, pattern: Pattern, matches: Matcher)
    ensures CollectForDir(entries, root, recurse, rules + [Rule(RejectKind, pattern)], matches)
         == Without(CollectForDir(entries, root, recurse, rules, matches), pattern, matches)
    decreases |entries|
  {
    if |entries| > 0 {
      var front := entries[..|entries| - 1];
      var e := entries[|entries| - 1];
      AppendRejectNarrows(front, root, recurse, rules, pattern, matches);
      AppendReject(rules, pattern, e.path, matches);
      WithoutAppend(CollectForDir(front, root, recurse, rules, matches), e.path, pattern, matches);
    }
  }

  /** When the rules accept every path, filtering has no effect: a root's
      result is what an empty rule list gives, the path of every candidate. */
  lemma {:induction false} AcceptAllKeepsCandidates(entries: seq<Entry>, root: Path, recurse: bool, rules: seq<Rule>, matches: Matcher)
    requires forall p :: Accepts(rules, p, matches)
    ensures CollectForDir(entries, root, recurse, rules, matches) == CollectForDir(entries, root, recurse, [], matches)
    decreases |entries|
  {
    if |entries| > 0 {
      AcceptAllKeepsCandidates(entries[..|entries| - 1], root, recurse, rules, matches);
    }
  }

  /** One more entry of the walk extends a root's result by at most its path. */
  lemma CollectForDirStep(entries: seq<Entry>, j: nat, root: Path, recurse: bool, rules: seq<Rule>, matches: Matcher)
    requires j < |entries|
    ensures CollectForDir(entries[..j + 1], root, recurse, rules, matches)
         == CollectForDir(entries[..j], root, recurse, rules, matches)
            + (if Collected(entries[j], root, recurse, rules, matches) then [entries[j].path] else [])
  {
    assert entries[..j + 1][..j] == entries[..j];
  }

  /** One more root extends the found list by that root's result. */
  lemma CollectAllStep(roots: seq<Path>, i: nat, walk: Walk, recurse: bool, rules: seq<Rule>, matches: Matcher)
    requires i < |roots|
    ensures CollectAll(roots[..i + 1], walk, recurse, rules, matches)
         == CollectAll(roots[..i], walk, recurse, rules, matches)
            + CollectForDir(walk(roots[i]), roots[i], recurse, rules, matches)
  {
    assert roots[..i + 1][..i] == roots[..i];
  }

  /** The imperative collection: the found list grows root by root, entry by
      entry, in walk order. */
  method DoMain(roots: seq<Path>, walk: Walk, recurse: bool, rules: seq<Rule>, matches: Matcher) returns (found: seq<Path>)
    ensures found == CollectAll(roots, walk, recurse, rules, matches)
  {
    found := [];
    var i := 0;
    while i < |roots|
      invariant 0 <= i <= |roots|
      invariant found == CollectAll(roots[..i], walk, recurse, rules, matches)
    {
      var root := roots[i];
      var entries := walk(root);
      var before := found;
      var j := 0;
      while j < |entries|
        invariant 0 <= j <= |entries|
        invariant found == before + CollectForDir(entries[..j], root, recurse, rules, matches)
      {
        var e := entries[j];
        CollectForDirStep(entries, j, root, recurse, rules, matches);
        if (recurse || root == e.dirname) && !e.isDir && Accepts(rules, e.path, matches) {
          found := found + [e.path];
        }
        j := j + 1;
      }
      assert entries[..j] == entries;
      CollectAllStep(roots, i, walk, recurse, rules, matches);
      i := i + 1;
    }
    assert roots[..i] == roots;
  }
}
