/** The filter chain: an ordered, short-circuiting list of accept/reject rules
    that decides whether a candidate path is kept.

    Regular-expression matching (`path =~ Regexp.new(pattern)`) is not modelled;
    every operation takes it as a parameter `matches`, so every property below
    holds for whatever regular-expression engine is plugged in.
 */
module Filters {

  type Path = string
  type Pattern = string

  /** `matches(path, pattern)` is true when `pattern` matches somewhere in `path`. */
  type Matcher = (Path, Pattern) -> bool

  const AcceptKind: string := "accept"
  const RejectKind: string := "reject"

  /** One filter rule: its method name and its regular expression. The method is a
      plain string, as in the program: any string other than "accept" or "reject"
      is allowed and makes the rule a no-op. */
  datatype Rule = Rule(kind: string, pattern: Pattern)

  /** A rule that is neither an accept nor a reject rule. */
  predicate Inert(rule: Rule) {
    rule.kind != AcceptKind && rule.kind != RejectKind
  }

  /** The gate a single rule sets, read on its own: an accept rule demands a
      match, a reject rule forbids one, any other rule demands nothing. */
  predicate Passes(rule: Rule, path: Path, matches: Matcher) {
    && (rule.kind == AcceptKind ==> matches(path, rule.pattern))
    && (rule.kind == RejectKind ==> !matches(path, rule.pattern))
  }

  /** Reference reading of a rule list: every rule's gate is passed. */
  predicate AllPass(rules: seq<Rule>, path: Path, matches: Matcher) {
    forall i | 0 <= i < |rules| :: Passes(rules[i], path, matches)
  }

  /** The program's evaluation: rules are tried in order and the first accept
      rule that does not match, or the first reject rule that does, rejects the
      path without looking at the rest; a path that gets through every rule is
      accepted. */
  function Accepts(rules: seq<Rule>, path: Path, matches: Matcher): (ok: bool)
    ensures ok <==> AllPass(rules, path, matches)
  {
    if |rules| == 0 then true
    else
      var rule := rules[0];
      var hit := matches(path, rule.pattern);
      assert forall i | 1 <= i < |rules| :: rules[i] == rules[1..][i - 1];
      if rule.kind == AcceptKind then
        if !hit then false else Accepts(rules[1..], path, matches)
      else if rule.kind == RejectKind then
        if hit then false else Accepts(rules[1..], path, matches)
      else
        Accepts(rules[1..], path, matches)
  }

  /** Running two rule lists one after the other accepts exactly the paths both accept. */
  lemma AcceptsConcat(front: seq<Rule>, back: seq<Rule>, path: Path, matches: Matcher)
    ensures Accepts(front + back, path, matches)
        <==> Accepts(front, path, matches) && Accepts(back, path, matches)
  {
    var all := front + back;
    assert forall i | 0 <= i < |front| :: all[i] == front[i];
    assert forall i | 0 <= i < |back| :: all[|front| + i] == back[i];
  }

  /** Appending a rule never turns a rejected path into an accepted one. */
  lemma AppendNeverAdmits(rules: seq<Rule>, extra: Rule, path: Path, matches: Matcher)
    ensures Accepts(rules + [extra], path, matches) ==> Accepts(rules, path, matches)
  {
    AcceptsConcat(rules, [extra], path, matches);
  }

  /** Appending a reject rule for `pattern` removes exactly the accepted paths
      that `pattern` matches. */
  lemma AppendReject(rules: seq<Rule>, pattern: Pattern, path: Path, matches: Matcher)
    ensures Accepts(rules + [Rule(RejectKind, pattern)], path, matches)
        <==> Accepts(rules, path, matches) && !matches(path, pattern)
  {
    AcceptsConcat(rules, [Rule(RejectKind, pattern)], path, matches);
    assert Accepts([Rule(RejectKind, pattern)], path, matches) <==> !matches(path, pattern);
  }

  /** Appending an accept rule for `pattern` keeps exactly the accepted paths
      that `pattern` matches. */
  lemma AppendAccept(rules: seq<Rule>, pattern: Pattern, path: Path, matches: Matcher)
    ensures Accepts(rules + [Rule(AcceptKind, pattern)], path, matches)
        <==> Accepts(rules, path, matches) && matches(path, pattern)
  {
    AcceptsConcat(rules, [Rule(AcceptKind, pattern)], path, matches);
    assert Accepts([Rule(AcceptKind, pattern)], path, matches) <==> matches(path, pattern);
  }

  /** Inserting a rule whose method is neither "accept" nor "reject", at any
      position, changes no path's outcome. */
  lemma InsertInert(rules: seq<Rule>, k: nat, rule: Rule, path: Path, matches: Matcher)
    requires k <= |rules|
    requires Inert(rule)
    ensures Accepts(rules[..k] + [rule] + rules[k..], path, matches) == Accepts(rules, path, matches)
  {
    AcceptsConcat(rules[..k] + [rule], rules[k..], path, matches);
    AcceptsConcat(rules[..k], [rule], path, matches);
    AcceptsConcat(rules[..k], rules[k..], path, matches);
    assert rules[..k] + rules[k..] == rules;
    assert Accepts([rule], path, matches);
  }

  /** Removing a rule whose method is neither "accept" nor "reject" changes no
      path's outcome. */
  lemma RemoveInert(rules: seq<Rule>, k: nat, path: Path, matches: Matcher)
    requires k < |rules|
    requires Inert(rules[k])
    ensures Accepts(rules[..k] + rules[k + 1..], path, matches) == Accepts(rules, path, matches)
  {
    var rest := rules[..k] + rules[k + 1..];
    assert rest[..k] == rules[..k];
    assert rest[k..] == rules[k + 1..];
    assert rest[..k] + [rules[k]] + rest[k..] == rules;
    InsertInert(rest, k, rules[k], path, matches);
  }

  /** The outcome depends only on which rules are present, with their
      multiplicities: the order of the rules decides how soon a rejection is
      found, never whether it is found. */
  lemma ReorderKeepsOutcome(rules: seq<Rule>, reordered: seq<Rule>, path: Path, matches: Matcher)
    requires multiset(rules) == multiset(reordered)
    ensures Accepts(rules, path, matches) == Accepts(reordered, path, matches)
  {
    forall i | 0 <= i < |reordered|
      ensures reordered[i] in rules
    {
      assert reordered[i] in multiset(reordered);
    }
    forall i | 0 <= i < |rules|
      ensures rules[i] in reordered
    {
      assert rules[i] in multiset(rules);
    }
  }
}
