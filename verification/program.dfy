/** The program's top level (main): parse the options, stop with exit code 1
    when no directory was given, otherwise collect and report, and exit 0
    whether or not anything was found.
 */
module Program {
  import opened Filters
  import opened Options
  import opened Collector
  import opened Selector

  /** The exit code and the result the program prints. */
  datatype Outcome = Outcome(exitCode: int, output: Output)

  /** The paths a parsed configuration collects over all its roots. */
  function Found(cfg: Config, walk: Walk, matches: Matcher): seq<Path> {
    CollectAll(cfg.dirs, walk, cfg.includeSubdirs, cfg.filters, matches)
  }

  /** Every path a parsed run finds comes from the walk of a -d root, is not
      a directory, passes the effective filters, and, without -s, sits directly
      in that root. */
  lemma FoundComesFromDirOption(opts: seq<Opt>, walk: Walk, matches: Matcher, p: Path)
    requires exists i | 0 <= i < |opts| :: opts[i].Dir?
    ensures p in Found(ParseOptions(opts).config, walk, matches) ==>
      exists d, e :: Dir(d) in opts && e in walk(d) && e.path == p
                  && !e.isDir && (Subdirs in opts || e.dirname == d)
                  && Accepts(ParseOptions(opts).config.filters, e.path, matches)
  {
    if p !in Found(ParseOptions(opts).config, walk, matches) {
      return;
    }
    var cfg := ParseOptions(opts).config;
    assert FromSomeRoot(p, cfg.dirs, walk, cfg.includeSubdirs, cfg.filters, matches);
    var j :| 0 <= j < |cfg.dirs| && FromCollectedEntry(p, walk(cfg.dirs[j]), cfg.dirs[j], cfg.includeSubdirs, cfg.filters, matches);
    assert cfg.dirs[j] in cfg.dirs;
  }

  /** One run of the program on the recognised options, with the filesystem,
      the regular-expression engine and the random source supplied. */
  function Run(opts: seq<Opt>, walk: Walk, matches: Matcher, rand: Rand): (r: Outcome)
    requires DrawsInRange(rand)
    ensures r.exitCode == 0 || r.exitCode == 1
    ensures r.exitCode == 1 <==> forall i | 0 <= i < |opts| :: !opts[i].Dir?
    ensures r.exitCode == 1 <==> r.output == Usage
    ensures ParseOptions(opts).Parsed? ==>
      r.output == DoResult(Found(ParseOptions(opts).config, walk, matches), rand)
    ensures r.output == NoFiles <==>
      ParseOptions(opts).Parsed? && |Found(ParseOptions(opts).config, walk, matches)| == 0
    ensures r.output.Chosen? ==>
      exists d, e :: Dir(d) in opts && e in walk(d) && e.path == r.output.path
                  && !e.isDir && (Subdirs in opts || e.dirname == d)
                  && Accepts(ParseOptions(opts).config.filters, e.path, matches)
  {
    match ParseOptions(opts)
    case NoDirectories => Outcome(1, Usage)
    case Parsed(cfg) =>
      var out := DoResult(Found(cfg, walk, matches), rand);
      if out.Chosen? then
        FoundComesFromDirOption(opts, walk, matches, out.path);
        Outcome(0, out)
      else
        Outcome(0, out)
  }

  /** Listing the same roots twice gives every path twice its winning draws. */
  lemma RepeatedRootsDoubleWeight(roots: seq<Path>, walk: Walk, recurse: bool, rules: seq<Rule>, matches: Matcher, p: Path)
    ensures Hits(CollectAll(roots + roots, walk, recurse, rules, matches), p)
         == 2 * Hits(CollectAll(roots, walk, recurse, rules, matches), p)
  {
    CollectAllConcat(roots, roots, walk, recurse, rules, matches);
    DuplicatesDoubleWeight(CollectAll(roots, walk, recurse, rules, matches), p);
  }
}
