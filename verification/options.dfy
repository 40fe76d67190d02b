/** What parse_options does once OptionParser has recognised the arguments:
    each recognised option updates the configuration in argument order, then a
    missing directory means "show usage and fail" and a missing filter list is
    replaced by a single accept-everything rule.

    Tokenising the command line is OptionParser's work and is not modelled: the
    input here is the sequence of options it recognised, in order.
 */
module Options {
  import opened Filters

  /** One recognised option: -d/--dir, -s/--subdirs, -i/--include,
      -x/--exclude, -v/--verbose. */
  datatype Opt =
    | Dir(name: string)
    | Subdirs
    | Include(regexp: Pattern)
    | Exclude(regexp: Pattern)
    | Verbose

  datatype Config = Config(dirs: seq<string>, includeSubdirs: bool, filters: seq<Rule>, verbose: bool)

  /** Either usage was shown because no directory was given, or a configuration. */
  datatype ParseResult = NoDirectories | Parsed(config: Config)

  const DefaultPattern: Pattern := ".*"
  const DefaultRule: Rule := Rule(AcceptKind, DefaultPattern)

  /** The configuration before any option is seen. */
  const Initial: Config := Config([], false, [], false)

  /** The effect of one option's callback on the configuration: -d and -i/-x
      append to their lists, -s and -v switch their flags on, and nothing
      else changes. */
  function Handle(cfg: Config, opt: Opt): (next: Config)
    ensures next.dirs == cfg.dirs + (if opt.Dir? then [opt.name] else [])
    ensures next.filters == cfg.filters + RuleOf(opt)
    ensures next.includeSubdirs == (cfg.includeSubdirs || opt.Subdirs?)
    ensures next.verbose == (cfg.verbose || opt.Verbose?)
  {
    match opt
    case Dir(name) => cfg.(dirs := cfg.dirs + [name])
    case Subdirs => cfg.(includeSubdirs := true)
    case Include(re) => cfg.(filters := cfg.filters + [Rule(AcceptKind, re)])
    case Exclude(re) => cfg.(filters := cfg.filters + [Rule(RejectKind, re)])
    case Verbose => cfg.(verbose := true)
  }

  /** Reference definition: the directories named, in argument order. */
  function DirsOf(opts: seq<Opt>): (dirs: seq<string>)
    ensures |dirs| == 0 <==> forall i | 0 <= i < |opts| :: !opts[i].Dir?
    ensures forall d | d in dirs :: Dir(d) in opts
  {
    if |opts| == 0 then []
    else (if opts[0].Dir? then [opts[0].name] else []) + DirsOf(opts[1..])
  }

  /** The rule an option contributes: -i an accept rule, -x a reject rule. */
  function RuleOf(opt: Opt): seq<Rule> {
    match opt
    case Include(re) => [Rule(AcceptKind, re)]
    case Exclude(re) => [Rule(RejectKind, re)]
    case _ => []
  }

  /** Reference definition: the rules named, in argument order. */
  function RulesOf(opts: seq<Opt>): (rules: seq<Rule>)
    ensures |rules| == 0 <==> forall i | 0 <= i < |opts| :: !opts[i].Include? && !opts[i].Exclude?
  {
    if |opts| == 0 then [] else RuleOf(opts[0]) + RulesOf(opts[1..])
  }

  lemma {:induction false} DirsOfAppend(opts: seq<Opt>, opt: Opt)
    ensures DirsOf(opts + [opt]) == DirsOf(opts) + (if opt.Dir? then [opt.name] else [])
    decreases |opts|
  {
    if |opts| > 0 {
      assert (opts + [opt])[1..] == opts[1..] + [opt];
      DirsOfAppend(opts[1..], opt);
    } else {
      assert opts + [opt] == [opt];
    }
  }

  lemma {:induction false} RulesOfAppend(opts: seq<Opt>, opt: Opt)
    ensures RulesOf(opts + [opt]) == RulesOf(opts) + RuleOf(opt)
    decreases |opts|
  {
    if |opts| > 0 {
      assert (opts + [opt])[1..] == opts[1..] + [opt];
      RulesOfAppend(opts[1..], opt);
    } else {
      assert opts + [opt] == [opt];
    }
  }

  /** The callbacks run one after another, in argument order. */
  function Accumulate(opts: seq<Opt>): Config
    decreases |opts|
  {
    if |opts| == 0 then Initial
    else Handle(Accumulate(opts[..|opts| - 1]), opts[|opts| - 1])
  }

  /** Directories are appended in the order given. */
  lemma {:induction false} AccumulateKeepsDirOrder(opts: seq<Opt>)
    ensures Accumulate(opts).dirs == DirsOf(opts)
    decreases |opts|
  {
    if |opts| > 0 {
      var front := opts[..|opts| - 1];
      var last := opts[|opts| - 1];
      AccumulateKeepsDirOrder(front);
      calc {
        DirsOf(opts);
        { assert opts == front + [last]; }
        DirsOf(front + [last]);
        { DirsOfAppend(front, last); }
        DirsOf(front) + (if last.Dir? then [last.name] else []);
        Accumulate(front).dirs + (if last.Dir? then [last.name] else []);
        Handle(Accumulate(front), last).dirs;
        Accumulate(opts).dirs;
      }
    }
  }

  /** Rules are appended in the order given. */
  lemma {:induction false} AccumulateKeepsRuleOrder(opts: seq<Opt>)
    ensures Accumulate(opts).filters == RulesOf(opts)
    decreases |opts|
  {
    if |opts| > 0 {
      var front := opts[..|opts| - 1];
      var last := opts[|opts| - 1];
      AccumulateKeepsRuleOrder(front);
      calc {
        RulesOf(opts);
        { assert opts == front + [last]; }
        RulesOf(front + [last]);
        { RulesOfAppend(front, last); }
        RulesOf(front) + RuleOf(last);
        Accumulate(front).filters + RuleOf(last);
        Handle(Accumulate(front), last).filters;
        Accumulate(opts).filters;
      }
    }
  }

  /** Each flag is on exactly when its option occurs. */
  lemma {:induction false} AccumulateSetsFlags(opts: seq<Opt>)
    ensures Accumulate(opts).includeSubdirs <==> Subdirs in opts
    ensures Accumulate(opts).verbose <==> Verbose in opts
    decreases |opts|
  {
    if |opts| > 0 {
      var front := opts[..|opts| - 1];
      var last := opts[|opts| - 1];
      assert opts == front + [last];
      assert Subdirs in opts <==> Subdirs in front || last == Subdirs;
      assert Verbose in opts <==> Verbose in front || last == Verbose;
      AccumulateSetsFlags(front);
    }
  }

  /** The whole of parse_options after tokenising. */
  function ParseOptions(opts: seq<Opt>): (r: ParseResult)
    ensures r.NoDirectories? <==> forall i | 0 <= i < |opts| :: !opts[i].Dir?
    ensures r.Parsed? ==> r.config.dirs == DirsOf(opts) && |r.config.dirs| > 0
    ensures r.Parsed? ==> r.config.filters == (if RulesOf(opts) == [] then [DefaultRule] else RulesOf(opts))
    ensures r.Parsed? ==> (r.config.includeSubdirs <==> Subdirs in opts)
    ensures r.Parsed? ==> (r.config.verbose <==> Verbose in opts)
  {
    AccumulateKeepsDirOrder(opts);
    AccumulateKeepsRuleOrder(opts);
    AccumulateSetsFlags(opts);
    var cfg := Accumulate(opts);
    if |cfg.dirs| == 0 then NoDirectories
    else if |cfg.filters| == 0 then Parsed(cfg.(filters := [DefaultRule]))
    else Parsed(cfg)
  }

  lemma {:induction false} RulesOfConcat(a: seq<Opt>, b: seq<Opt>)
    ensures RulesOf(a + b) == RulesOf(a) + RulesOf(b)
    decreases |a|
  {
    if |a| == 0 {
      assert a + b == b;
    } else {
      assert (a + b)[1..] == a[1..] + b;
      RulesOfConcat(a[1..], b);
    }
  }

  lemma RulesOfSplit(opts: seq<Opt>, i: nat)
    requires i <= |opts|
    ensures RulesOf(opts) == RulesOf(opts[..i]) + RulesOf(opts[i..])
  {
    assert opts == opts[..i] + opts[i..];
    RulesOfConcat(opts[..i], opts[i..]);
  }

  /** The rules of a list are those of the options before position `i`, then
      the rule of option `i`, then those of the options after it. */
  lemma RulesOfAround(opts: seq<Opt>, i: nat)
    requires i < |opts|
    ensures RulesOf(opts) == RulesOf(opts[..i]) + (RuleOf(opts[i]) + RulesOf(opts[i + 1..]))
  {
    RulesOfSplit(opts, i);
    var rest := opts[i..];
    assert rest[0] == opts[i];
    assert rest[1..] == opts[i + 1..];
  }

  /** Every -i or -x option gives the rule at the position that follows the
      rules of the options before it: -i an accept rule and -x a reject rule,
      with the same pattern, whatever other options surround it. */
  lemma FiltersFollowArguments(opts: seq<Opt>)
    ensures forall i | 0 <= i < |opts| && (opts[i].Include? || opts[i].Exclude?) ::
      && |RulesOf(opts[..i])| < |RulesOf(opts)|
      && RulesOf(opts)[|RulesOf(opts[..i])|]
         == Rule(if opts[i].Include? then AcceptKind else RejectKind, opts[i].regexp)
  {
    forall i | 0 <= i < |opts| && (opts[i].Include? || opts[i].Exclude?)
      ensures |RulesOf(opts[..i])| < |RulesOf(opts)|
      ensures RulesOf(opts)[|RulesOf(opts[..i])|]
           == Rule(if opts[i].Include? then AcceptKind else RejectKind, opts[i].regexp)
    {
      RulesOfAround(opts, i);
      var k := |RulesOf(opts[..i])|;
      assert RuleOf(opts[i]) == [Rule(if opts[i].Include? then AcceptKind else RejectKind, opts[i].regexp)];
      assert RulesOf(opts)[k] == RuleOf(opts[i])[0];
    }
  }

  /** Without -i and -x the effective list is the single accept-everything rule,
      and if ".*" matches every path then every path is accepted. */
  lemma DefaultFilterAcceptsAll(opts: seq<Opt>, path: Path, matches: Matcher)
    requires exists i | 0 <= i < |opts| :: opts[i].Dir?
    requires forall i | 0 <= i < |opts| :: !opts[i].Include? && !opts[i].Exclude?
    requires forall p :: matches(p, DefaultPattern)
    ensures ParseOptions(opts).config.filters == [DefaultRule]
    ensures Accepts(ParseOptions(opts).config.filters, path, matches)
  {
  }
}
