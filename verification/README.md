# get-randomfile in Dafny

A model of `getrandomfile.rb`, a command-line tool that picks one file at random
from a set of directories. It keeps only the paths that pass an ordered chain of
accept/reject regular-expression rules. The pipeline is split into pure pieces,
one module each:

- `Filters` (filters.dfy) covers `apply_filters`. It is a short-circuiting
  chain over rules whose method is the string "accept" or "reject". A rule with
  any other method string is skipped.
- `Options` (options.dfy) covers what `parse_options` does after OptionParser
  has recognised the arguments. `-d` appends a root. `-s` sets the recursive
  flag. `-i` and `-x` append accept and reject rules in argument order. `-v`
  sets the verbose flag. With no root the result is "usage, fail". With no rule,
  the single rule `{accept, ".*"}` is injected.
- `Collector` (collector.dfy) covers `do_main_fordir` and `do_main`.
  - Outside recursive mode, an entry is considered only when its parent
    directory is spelled exactly as the root.
  - Directories are never collected.
  - Roots are processed in the order given, and their results are
    concatenated. A root given twice therefore contributes its files twice.
- `Selector` (selector.dfy) covers `do_result` and `dump_random_file`. An empty
  list gives the sentinel `no-files`. Otherwise the path at the drawn index is
  printed.
- `Program` (program.dfy) covers `main`. It exits with 1 when no directory was
  given. Otherwise, on a run that ends normally, it exits with 0, whether or
  not a file was found. Runs that end in an uncaught exception are not
  modelled (see "Left out").

Three parts of the environment become parameters:

- Regular-expression matching becomes `matches: (Path, Pattern) -> bool`.
- The filesystem walk becomes `walk: Path -> seq<Entry>`, the entries a full
  recursive walk of a root yields, in walk order. Each entry carries its path,
  its parent directory's name and whether it is a directory.
- The random source becomes `rand: nat -> nat`. The only assumption made about
  it is `rand(n) < n` for every `n > 0`.

Three details follow the code exactly:

- A rule's method is an arbitrary string, not a two-valued mode.
- The no-directory case is checked before the default rule is injected.
- The verbose flag only affects diagnostics.

## Model

| member | source | states |
|---|---|---|
| Filters.Accepts | getrandomfile.rb:121-137 | The in-order, short-circuiting evaluation accepts a path exactly when every accept rule matches it and no reject rule matches it. A rule with any other method imposes nothing. |
| Filters.AcceptsConcat | getrandomfile.rb:121-137 | Evaluating two rule lists back to back accepts exactly the paths that both lists accept. |
| Filters.AppendNeverAdmits | getrandomfile.rb:121-137 | Appending any rule can turn an accepted path into a rejected one, never the reverse. |
| Filters.AppendReject | getrandomfile.rb:129-130 | Appending a reject rule for P accepts exactly the previously accepted paths that P does not match. |
| Filters.AppendAccept | getrandomfile.rb:127-128 | Appending an accept rule for P accepts exactly the previously accepted paths that P matches. |
| Filters.InsertInert | getrandomfile.rb:131-132 | Inserting a rule whose method is neither "accept" nor "reject", at any position, changes no path's outcome. |
| Filters.RemoveInert | getrandomfile.rb:131-132 | Removing such a rule from any position changes no path's outcome. |
| Filters.ReorderKeepsOutcome | getrandomfile.rb:121-137 | Any permutation of the rules gives the same outcome. Order only decides how early a rejection is found. |
| Options.Handle | getrandomfile.rb:44-62 | One option's callback: `-d` appends its name to the directories, `-i`/`-x` append their rule, `-s`/`-v` switch their flag on, and nothing else changes. |
| Options.DirsOf | getrandomfile.rb:44-46 | The directory list is empty exactly when no `-d` option was given. Every listed directory comes from a `-d` option. |
| Options.RulesOf | getrandomfile.rb:52-58 | The rule list is empty exactly when neither `-i` nor `-x` was given. |
| Options.AccumulateKeepsDirOrder | getrandomfile.rb:44-67 | `Accumulate` runs the callbacks in argument order, as `opts.parse!` does. This leaves exactly the `-d` names in the directory list, in argument order. |
| Options.AccumulateKeepsRuleOrder | getrandomfile.rb:52-67 | `Accumulate` runs the callbacks in argument order, as `opts.parse!` does. This leaves exactly the `-i`/`-x` rules in the filter list, in argument order. |
| Options.AccumulateSetsFlags | getrandomfile.rb:48-67 | After `Accumulate` has run the callbacks, the recursive flag is set exactly when `-s` occurs. The verbose flag is set exactly when `-v` occurs. |
| Options.ParseOptions | getrandomfile.rb:36-84 | The result is "no directories" exactly when no `-d` was given. Otherwise the directories are as given, in order, and so are the flags. The filters are the given rules, or exactly `[{accept, ".*"}]` when none was given. |
| Options.FiltersFollowArguments | getrandomfile.rb:52-58 | For any argument list, each `-i`/`-x` option gives the rule at the position right after the rules of the options before it, with the same pattern. `-i` gives "accept" and `-x` gives "reject". |
| Options.DefaultFilterAcceptsAll | getrandomfile.rb:77-79 | Without `-i` and `-x` the effective list is `[{accept, ".*"}]`. If ".*" matches every path, every path is accepted. |
| Collector.CollectForDir | getrandomfile.rb:139-146 | A root's result is no longer than its walk. Every path in it belongs to a walk entry that is in scope, is not a directory and passes the filter chain. |
| Collector.CollectForDirComplete | getrandomfile.rb:139-146 | Every walk entry that is in scope, is not a directory and passes the filters has its path in the root's result. |
| Collector.CollectForDirConcat | getrandomfile.rb:139-146 | Collection distributes over a split walk, so the result keeps walk order. |
| Collector.CollectAll | getrandomfile.rb:105-109 | Every found path belongs to a collected entry of one of the roots' walks. |
| Collector.CollectAllConcat | getrandomfile.rb:105-109 | The found list is the root-by-root concatenation. Splitting the root list splits the found list the same way, so a repeated root contributes twice. |
| Collector.NonRecursiveStaysAtTop | getrandomfile.rb:141-143 | Without `-s`, every found path belongs to a non-directory entry whose parent directory is spelled exactly as one of the roots. |
| Collector.AppendRejectNarrows | getrandomfile.rb:129-130 | Appending a reject rule for P removes from a root's result exactly the previously collected paths that P matches. Everything else stays, in order. |
| Collector.AcceptAllKeepsCandidates | getrandomfile.rb:139-146 | When the rules accept every path, a root's result is the same as with no rules at all: every in-scope non-directory entry. |
| Collector.DoMain | getrandomfile.rb:105-109 | The imperative loop, which appends root by root and entry by entry, produces exactly the functional root-by-root collection. |
| Selector.DoResult | getrandomfile.rb:98-119 | The output is the `no-files` sentinel exactly when nothing was found. Otherwise the index drawn for n = the list's length is in [0, n), and the output is the path at that index. |
| Selector.FixedDrawPicks | getrandomfile.rb:98-103 | Every index in [0, n) can be drawn, and drawing it prints the path at that index. |
| Selector.WinningDrawsAreHits | getrandomfile.rb:98-103 | The draws in [0, n) for which the program prints a path are exactly the indices `Hits` counts for it. |
| Selector.HitsCountsOccurrences | getrandomfile.rb:98-103 | The number of draws in [0, n) that print a path equals the number of times the path occurs in the found list. |
| Selector.DuplicatesDoubleWeight | getrandomfile.rb:98-103 | A found list repeated twice gives every path twice as many winning draws. |
| Program.FoundComesFromDirOption | getrandomfile.rb:139-146 | Every path a parsed run finds comes from the walk of a `-d` root, is not a directory and passes the effective filters. Without `-s`, its entry's parent directory is that root. |
| Program.Run | getrandomfile.rb:149-159 | The exit code is 1 exactly when no `-d` was given, and then usage is the output. Otherwise the exit code is 0 and the output is what `DoResult` gives for the collected list and the draw. The output is `no-files` exactly when nothing was found. A chosen path belongs to a non-directory entry that passes the effective filters and comes from the walk of a `-d` root. Without `-s`, that entry's parent directory is that root. |
| Program.RepeatedRootsDoubleWeight | getrandomfile.rb:105-109 | Listing the roots twice over doubles every path's number of winning draws. |

## Left out

- Program.Run: does not model the runs that end in an uncaught exception, which leave with Ruby's error exit status and print no result. `Find.find` raises for a root that does not exist. `opts.parse!` raises for an unknown option or for `-d` without a value. The model's exit code 0 covers only runs that reach `return 0`.
- Regular-expression compilation and matching (`Regexp.new`, `=~`) are a library. Matching is a parameter. An exception raised by a malformed pattern is not modelled.
- The filesystem walk (`Find.find`, `File.dirname`, `File.directory?`) is I/O. The walk of each root is a given sequence of entries, and each entry's parent-directory name and directory flag are given with it.
- `Random.rand` is a parameter, constrained only to draw in [0, n). Uniformity of the draw is not modelled; the model counts winning draws instead.
- OptionParser tokenising, the usage text and the ordering note printed with it are library work and output text. The input is the sequence of options already recognised, and the usage text is one abstract output.
- Loading the option library (the `require` at line 24) is not modelled.
- Diagnostics are not modelled: the global `$debug` flag, `log`, `dump_filter_list` and `dump_found_files` are side effects only. The verbose flag is kept in the configuration but affects nothing.
- Printing and the process exit are not modelled. The result is the value printed and the exit code `main` returns.
