/** The verdict on a set of changed paths. Glob matching is a parameter of every definition. */
module Decisions {
  import opened Basics
  import opened Rules
  import opened Sorting
  import Text
  import Paths
  import Dedupe

  datatype Verdict = ALLOW | WARN | BLOCK

  datatype Risk = LOW | MEDIUM | HIGH | CRITICAL

  datatype Decision = Decision(
    verdict: Verdict, risk: Risk, approvalRequired: bool, reason: string,
    allowedScope: seq<string>, deniedScope: seq<string>, matchedRules: seq<string>)

  type Glob = (string, string) -> bool

  predicate PatternMatches(glob: Glob, pattern: string, paths: seq<string>) {
    exists path :: path in paths && (glob(path, pattern) || Text.Contains(path, pattern))
  }

  predicate RuleMatches(glob: Glob, rule: Rule, paths: seq<string>) {
    exists pattern :: pattern in rule.patterns && PatternMatches(glob, pattern, paths)
  }

  function PriorityKey(r: Rule): Key {
    Key(-r.priority, r.key)
  }

  function Filter(glob: Glob, rules: seq<Rule>, paths: seq<string>): seq<Rule> {
    if rules == [] then []
    else
      var n := |rules| - 1;
      Filter(glob, rules[..n], paths) + if RuleMatches(glob, rules[n], paths) then [rules[n]] else []
  }

  function Matched(glob: Glob, rules: seq<Rule>, paths: seq<string>): seq<Rule> {
    Filter(glob, SortBy(rules, PriorityKey), paths)
  }

  method MatchedRules(glob: Glob, rules: seq<Rule>, paths: seq<string>) returns (matched: seq<Rule>)
    ensures matched == Matched(glob, rules, paths)
  {
    var sorted := SortBy(rules, PriorityKey);
    matched := [];
    var i := 0;
    while i < |sorted|
      invariant 0 <= i <= |sorted|
      invariant matched == Filter(glob, sorted[..i], paths)
    {
      assert sorted[..i + 1][..i] == sorted[..i];
      if RuleMatches(glob, sorted[i], paths) {
        matched := matched + [sorted[i]];
      }
      i := i + 1;
    }
    assert sorted[..i] == sorted;
  }

  function WithEffect(rules: seq<Rule>, effect: Effect): seq<Rule> {
    if rules == [] then []
    else
      var n := |rules| - 1;
      WithEffect(rules[..n], effect) + if rules[n].effect == effect then [rules[n]] else []
  }

  function Keys(rules: seq<Rule>): seq<string> {
    seq(|rules|, i requires 0 <= i < |rules| => rules[i].key)
  }

  /** The decision for canonical paths and the rules that matched them. */
  function Decide(matched: seq<Rule>, paths: seq<string>, llm: Verdict, user: Option<Verdict>): Decision {
    var deny := WithEffect(matched, DenyHard);
    var approval := WithEffect(matched, RequireApproval);
    var scope := SortBy(paths, NameKey);
    if deny != [] then
      Decision(BLOCK, CRITICAL, false, deny[0].reason, [], scope, Keys(matched))
    else if approval != [] || user == Some(WARN) then
      Decision(WARN, MEDIUM, true, if approval != [] then approval[0].reason else "User warning requires approval.",
               scope, [], Keys(matched))
    else if llm == BLOCK || user == Some(BLOCK) then
      Decision(BLOCK, HIGH, false, "Requested block verdict.", [], scope, Keys(matched))
    else
      Decision(ALLOW, LOW, false, "Allowed within finite changed path scope.", scope, [], Keys(matched))
  }

  function DecideRules(glob: Glob, rules: seq<Rule>, paths: seq<string>, llm: Verdict,
                       user: Option<Verdict>): Decision {
    Decide(Matched(glob, rules, paths), paths, llm, user)
  }

  /** The evaluation of raw paths; a path that is not accepted makes it fail. */
  method Evaluate(glob: Glob, rules: seq<Rule>, changedPaths: seq<string>, llm: Verdict, user: Option<Verdict>)
    returns (r: Paths.Result<Decision>)
    ensures Paths.CanonicalList(changedPaths).Err? ==> r == Paths.Err(Paths.CanonicalList(changedPaths).error)
    ensures Paths.CanonicalList(changedPaths).Ok? ==>
              r == Paths.Ok(DecideRules(glob, rules, Paths.CanonicalList(changedPaths).value, llm, user))
  {
    var paths := Paths.CanonicalPaths(changedPaths);
    if paths.Err? {
      return Paths.Err(paths.error);
    }
    var matched := MatchedRules(glob, rules, paths.value);
    return Paths.Ok(Decide(matched, paths.value, llm, user));
  }

  // ----- what the verdict depends on

  /** Some rule with the effect matches some path. */
  ghost predicate Hits(glob: Glob, rules: seq<Rule>, paths: seq<string>, effect: Effect) {
    exists r :: r in rules && r.effect == effect && RuleMatches(glob, r, paths)
  }

  /** A BLOCK request that no user warning overrides. */
  predicate BlockRequested(llm: Verdict, user: Option<Verdict>) {
    user != Some(WARN) && (llm == BLOCK || user == Some(BLOCK))
  }

  ghost function VerdictFor(glob: Glob, rules: seq<Rule>, paths: seq<string>, llm: Verdict,
                            user: Option<Verdict>): Verdict {
    if Hits(glob, rules, paths, DenyHard) then BLOCK
    else if Hits(glob, rules, paths, RequireApproval) then WARN
    else if BlockRequested(llm, user) then BLOCK
    else if user == Some(WARN) then WARN
    else ALLOW
  }

  lemma {:induction false} FilterKeepsMatching(glob: Glob, rules: seq<Rule>, paths: seq<string>, r: Rule)
    ensures r in Filter(glob, rules, paths) <==> r in rules && RuleMatches(glob, r, paths)
    decreases |rules|
  {
    if rules != [] {
      var n := |rules| - 1;
      FilterKeepsMatching(glob, rules[..n], paths, r);
      assert rules == rules[..n] + [rules[n]];
    }
  }

  lemma {:induction false} WithEffectKeeps(rules: seq<Rule>, effect: Effect)
    ensures WithEffect(rules, effect) != [] <==> exists r :: r in rules && r.effect == effect
    decreases |rules|
  {
    if rules != [] {
      var n := |rules| - 1;
      WithEffectKeeps(rules[..n], effect);
      assert rules == rules[..n] + [rules[n]];
    }
  }

  lemma MatchedHits(glob: Glob, rules: seq<Rule>, paths: seq<string>, effect: Effect)
    ensures WithEffect(Matched(glob, rules, paths), effect) != [] <==> Hits(glob, rules, paths, effect)
  {
    var matched := Matched(glob, rules, paths);
    var sorted := SortBy(rules, PriorityKey);
    WithEffectKeeps(matched, effect);
    SortBySorts(rules, PriorityKey);
    forall r: Rule ensures r in matched <==> r in rules && RuleMatches(glob, r, paths) {
      FilterKeepsMatching(glob, sorted, paths, r);
      assert r in sorted <==> r in multiset(rules);
    }
  }

  /** The verdict of the code is decided by which effects are hit and what is requested. */
  lemma VerdictIsFor(glob: Glob, rules: seq<Rule>, paths: seq<string>, llm: Verdict, user: Option<Verdict>)
    ensures DecideRules(glob, rules, paths, llm, user).verdict == VerdictFor(glob, rules, paths, llm, user)
  {
    MatchedHits(glob, rules, paths, DenyHard);
    MatchedHits(glob, rules, paths, RequireApproval);
  }

  /** A matched hard denial blocks, whatever verdicts are requested. */
  lemma HardDenialBlocks(glob: Glob, rules: seq<Rule>, paths: seq<string>, llm: Verdict, user: Option<Verdict>, r: Rule)
    requires r in rules && r.effect == DenyHard && RuleMatches(glob, r, paths)
    ensures var d := DecideRules(glob, rules, paths, llm, user);
            d.verdict == BLOCK && d.risk == CRITICAL && !d.approvalRequired && d.allowedScope == []
  {
    MatchedHits(glob, rules, paths, DenyHard);
  }

  /** The allowed and the denied scope split the paths; only a BLOCK denies, and it denies all. */
  lemma ScopesPartition(matched: seq<Rule>, paths: seq<string>, llm: Verdict, user: Option<Verdict>)
    ensures var d := Decide(matched, paths, llm, user);
            && multiset(d.allowedScope) + multiset(d.deniedScope) == multiset(paths)
            && InOrder(d.allowedScope) && InOrder(d.deniedScope)
            && (d.verdict == BLOCK ==> d.allowedScope == [])
            && (d.verdict != BLOCK ==> d.deniedScope == [])
            && (d.approvalRequired <==> d.verdict == WARN)
  {
    hide WithEffect, Keys, SortBy;
    var scope := SortBy(paths, NameKey);
    NamesInOrder(paths);
    var d := Decide(matched, paths, llm, user);
    assert (d.allowedScope == [] && d.deniedScope == scope) || (d.allowedScope == scope && d.deniedScope == []);
  }

  // ----- whose reason is given

  lemma {:induction false} FilterStaysSorted(glob: Glob, rules: seq<Rule>, paths: seq<string>)
    requires Sorted(rules, PriorityKey)
    ensures Sorted(Filter(glob, rules, paths), PriorityKey)
    decreases |rules|
  {
    if rules != [] {
      var n := |rules| - 1;
      FilterStaysSorted(glob, rules[..n], paths);
      forall i | 0 <= i < |Filter(glob, rules[..n], paths)|
        ensures KeyLe(PriorityKey(Filter(glob, rules[..n], paths)[i]), PriorityKey(rules[n]))
      {
        var r := Filter(glob, rules[..n], paths)[i];
        FilterKeepsMatching(glob, rules[..n], paths, r);
        var j :| 0 <= j < n && rules[..n][j] == r;
        assert rules[j] == r;
      }
    }
  }

  /** The first rule with an effect comes before every other one with it. */
  lemma {:induction false} FirstWithEffect(rules: seq<Rule>, effect: Effect, r: Rule)
    requires Sorted(rules, PriorityKey) && r in rules && r.effect == effect
    ensures WithEffect(rules, effect) != []
    ensures var first := WithEffect(rules, effect)[0];
            first in rules && first.effect == effect && KeyLe(PriorityKey(first), PriorityKey(r))
    decreases |rules|
  {
    var n := |rules| - 1;
    assert rules == rules[..n] + [rules[n]];
    WithEffectKeeps(rules[..n], effect);
    if WithEffect(rules[..n], effect) != [] {
      var r' :| r' in rules[..n] && r'.effect == effect;
      FirstWithEffect(rules[..n], effect, if r in rules[..n] then r else r');
      var first := WithEffect(rules[..n], effect)[0];
      var i :| 0 <= i < n && rules[..n][i] == first;
      assert rules[i] == first;
      if r !in rules[..n] { assert r == rules[n]; }
    } else {
      assert r == rules[n];
      KeyLeTotal(PriorityKey(r), PriorityKey(r));
    }
  }

  /** The first matched rule with an effect: the one of highest priority, and of those the first by key. */
  lemma FirstMatched(glob: Glob, rules: seq<Rule>, paths: seq<string>, effect: Effect, r: Rule) returns (top: Rule)
    requires r in rules && r.effect == effect && RuleMatches(glob, r, paths)
    ensures top in rules && top.effect == effect && RuleMatches(glob, top, paths)
    ensures top.priority > r.priority || (top.priority == r.priority && StringLe(top.key, r.key))
    ensures WithEffect(Matched(glob, rules, paths), effect) != []
    ensures WithEffect(Matched(glob, rules, paths), effect)[0] == top
  {
    hide RuleMatches;
    var sorted := SortBy(rules, PriorityKey);
    var matched := Matched(glob, rules, paths);
    SortBySorts(rules, PriorityKey);
    FilterStaysSorted(glob, sorted, paths);
    assert r in multiset(rules) && r in sorted;
    FilterKeepsMatching(glob, sorted, paths, r);
    FirstWithEffect(matched, effect, r);
    top := WithEffect(matched, effect)[0];
    FilterKeepsMatching(glob, sorted, paths, top);
    assert top in multiset(sorted) && top in rules;
  }

  /** A block by a hard denial gives the reason of a matched denial of highest priority. */
  lemma ReasonIsOfTopPriority(glob: Glob, rules: seq<Rule>, paths: seq<string>, llm: Verdict,
                              user: Option<Verdict>, r: Rule)
    returns (top: Rule)
    requires r in rules && r.effect == DenyHard && RuleMatches(glob, r, paths)
    ensures top in rules && top.effect == DenyHard && RuleMatches(glob, top, paths) && top.priority >= r.priority
    ensures DecideRules(glob, rules, paths, llm, user).reason == top.reason
  {
    top := FirstMatched(glob, rules, paths, DenyHard, r);
  }

  /** The reason is that of the matched rule with this effect that comes first by priority and key. */
  ghost predicate ReasonOfTop(glob: Glob, rules: seq<Rule>, paths: seq<string>, effect: Effect, reason: string) {
    exists top :: top in rules && top.effect == effect && RuleMatches(glob, top, paths) && top.reason == reason
                  && forall r :: r in rules && r.effect == effect && RuleMatches(glob, r, paths)
                       ==> top.priority > r.priority || (top.priority == r.priority && StringLe(top.key, r.key))
  }

  lemma TopReason(glob: Glob, rules: seq<Rule>, paths: seq<string>, effect: Effect)
    requires Hits(glob, rules, paths, effect)
    ensures WithEffect(Matched(glob, rules, paths), effect) != []
    ensures ReasonOfTop(glob, rules, paths, effect, WithEffect(Matched(glob, rules, paths), effect)[0].reason)
  {
    hide RuleMatches, Matched, WithEffect;
    var r :| r in rules && r.effect == effect && RuleMatches(glob, r, paths);
    var top := FirstMatched(glob, rules, paths, effect, r);
    forall r' | r' in rules && r'.effect == effect && RuleMatches(glob, r', paths)
      ensures top.priority > r'.priority || (top.priority == r'.priority && StringLe(top.key, r'.key))
    {
      var top' := FirstMatched(glob, rules, paths, effect, r');
    }
  }

  /** The risk and the reason of every kind of decision. */
  lemma RiskAndReason(glob: Glob, rules: seq<Rule>, paths: seq<string>, llm: Verdict, user: Option<Verdict>)
    ensures var d := DecideRules(glob, rules, paths, llm, user);
            if Hits(glob, rules, paths, DenyHard) then
              d.risk == CRITICAL && ReasonOfTop(glob, rules, paths, DenyHard, d.reason)
            else if Hits(glob, rules, paths, RequireApproval) then
              d.risk == MEDIUM && ReasonOfTop(glob, rules, paths, RequireApproval, d.reason)
            else if user == Some(WARN) then
              d.risk == MEDIUM && d.reason == "User warning requires approval."
            else if llm == BLOCK || user == Some(BLOCK) then
              d.risk == HIGH && d.reason == "Requested block verdict."
            else d.risk == LOW && d.reason == "Allowed within finite changed path scope."
  {
    hide Matched, WithEffect, Hits, ReasonOfTop, SortBy;
    MatchedHits(glob, rules, paths, DenyHard);
    MatchedHits(glob, rules, paths, RequireApproval);
    if Hits(glob, rules, paths, DenyHard) {
      TopReason(glob, rules, paths, DenyHard);
    } else if Hits(glob, rules, paths, RequireApproval) {
      TopReason(glob, rules, paths, RequireApproval);
    }
  }

  /** A rule matches exactly if one of its patterns is accepted for a path by the glob or is part of it. */
  lemma MatchesExactly(glob: Glob, rule: Rule, paths: seq<string>)
    ensures RuleMatches(glob, rule, paths)
            <==> exists pattern, path :: pattern in rule.patterns && path in paths
                                         && (glob(path, pattern) || Text.PartOf(pattern, path))
  {
    hide Text.Contains, Text.PartOf;
    forall pattern: string, path: string ensures Text.Contains(path, pattern) <==> Text.PartOf(pattern, path) {
      Text.ContainsIsPart(path, pattern);
    }
    if RuleMatches(glob, rule, paths) {
      var pattern :| pattern in rule.patterns && PatternMatches(glob, pattern, paths);
      var path :| path in paths && (glob(path, pattern) || Text.Contains(path, pattern));
      assert glob(path, pattern) || Text.PartOf(pattern, path);
    }
    if pattern, path :| pattern in rule.patterns && path in paths
                        && (glob(path, pattern) || Text.PartOf(pattern, path)) {
      assert PatternMatches(glob, pattern, paths);
    }
  }

  lemma {:induction false} FilterCounts(glob: Glob, rules: seq<Rule>, paths: seq<string>, r: Rule)
    ensures multiset(Filter(glob, rules, paths))[r] == if RuleMatches(glob, r, paths) then multiset(rules)[r] else 0
    decreases |rules|
  {
    if rules != [] {
      FilterCounts(glob, rules[..|rules| - 1], paths, r);
      SplitLast(rules);
    }
  }

  /** The keys listed with a decision are those of the matching rules, by falling priority and then by key. */
  lemma MatchedRulesAre(glob: Glob, rules: seq<Rule>, paths: seq<string>, llm: Verdict, user: Option<Verdict>)
    returns (matched: seq<Rule>)
    ensures forall r :: multiset(matched)[r] == if RuleMatches(glob, r, paths) then multiset(rules)[r] else 0
    ensures forall i, j :: 0 <= i < j < |matched| ==>
              || matched[i].priority > matched[j].priority
              || (matched[i].priority == matched[j].priority && StringLe(matched[i].key, matched[j].key))
    ensures var keys := DecideRules(glob, rules, paths, llm, user).matchedRules;
            |keys| == |matched| && forall i :: 0 <= i < |keys| ==> keys[i] == matched[i].key
  {
    hide RuleMatches, SortBy;
    var sorted := SortBy(rules, PriorityKey);
    matched := Matched(glob, rules, paths);
    SortBySorts(rules, PriorityKey);
    forall r ensures multiset(matched)[r] == if RuleMatches(glob, r, paths) then multiset(rules)[r] else 0 {
      FilterCounts(glob, sorted, paths, r);
    }
    FilterStaysSorted(glob, sorted, paths);
    forall i, j | 0 <= i < j < |matched|
      ensures || matched[i].priority > matched[j].priority
              || (matched[i].priority == matched[j].priority && StringLe(matched[i].key, matched[j].key))
    {
      assert KeyLe(PriorityKey(matched[i]), PriorityKey(matched[j]));
    }
    KeysOf(matched, paths, llm, user);
  }

  lemma KeysOf(matched: seq<Rule>, paths: seq<string>, llm: Verdict, user: Option<Verdict>)
    ensures var keys := Decide(matched, paths, llm, user).matchedRules;
            |keys| == |matched| && forall i :: 0 <= i < |keys| ==> keys[i] == matched[i].key
  {
    hide WithEffect, SortBy;
  }

  // ----- combining rules and paths

  function Strictness(v: Verdict): nat {
    match v
    case ALLOW => 0
    case WARN => 1
    case BLOCK => 2
  }

  function Stricter(a: Verdict, b: Verdict): Verdict {
    if Strictness(a) < Strictness(b) then b else a
  }

  ghost predicate JoinsRules(glob: Glob, r1: seq<Rule>, r2: seq<Rule>, paths: seq<string>, llm: Verdict,
                             user: Option<Verdict>) {
    DecideRules(glob, r1 + r2, paths, llm, user).verdict
    == Stricter(DecideRules(glob, r1, paths, llm, user).verdict, DecideRules(glob, r2, paths, llm, user).verdict)
  }

  lemma HitsOfBoth(glob: Glob, r1: seq<Rule>, r2: seq<Rule>, paths: seq<string>, effect: Effect)
    ensures Hits(glob, r1 + r2, paths, effect) <==> Hits(glob, r1, paths, effect) || Hits(glob, r2, paths, effect)
  {
    assert forall r :: r in r1 + r2 <==> r in r1 || r in r2;
  }

  lemma RulesJoin(glob: Glob, r1: seq<Rule>, r2: seq<Rule>, paths: seq<string>, llm: Verdict, user: Option<Verdict>)
    requires !BlockRequested(llm, user)
    ensures JoinsRules(glob, r1, r2, paths, llm, user)
  {
    VerdictIsFor(glob, r1, paths, llm, user);
    VerdictIsFor(glob, r2, paths, llm, user);
    VerdictIsFor(glob, r1 + r2, paths, llm, user);
    HitsOfBoth(glob, r1, r2, paths, DenyHard);
    HitsOfBoth(glob, r1, r2, paths, RequireApproval);
  }

  /** Combining rule lists gives the stricter of the separate verdicts, for all rules and paths,
      exactly when no block is requested: approval is tested before a requested block. */
  lemma RulesJoinExactly(glob: Glob, llm: Verdict, user: Option<Verdict>)
    ensures (forall r1, r2, paths :: JoinsRules(glob, r1, r2, paths, llm, user)) <==> !BlockRequested(llm, user)
  {
    if BlockRequested(llm, user) {
      var rule := MatchingRule(glob);
      ApprovalSoftensBlock(glob, rule, ["a"], llm, user);
    } else {
      forall r1: seq<Rule>, r2: seq<Rule>, paths: seq<string> ensures JoinsRules(glob, r1, r2, paths, llm, user) {
        RulesJoin(glob, r1, r2, paths, llm, user);
      }
    }
  }

  /** Any approval rule that matches turns a requested block into a warning. */
  lemma ApprovalSoftensBlock(glob: Glob, rule: Rule, paths: seq<string>, llm: Verdict, user: Option<Verdict>)
    requires BlockRequested(llm, user) && rule.effect == RequireApproval && RuleMatches(glob, rule, paths)
    ensures DecideRules(glob, [], paths, llm, user).verdict == BLOCK
    ensures DecideRules(glob, [rule], paths, llm, user).verdict == WARN
    ensures !JoinsRules(glob, [], [rule], paths, llm, user)
  {
    hide DecideRules, RuleMatches;
    VerdictIsFor(glob, [], paths, llm, user);
    VerdictIsFor(glob, [rule], paths, llm, user);
    assert rule in [rule];
    assert Hits(glob, [rule], paths, RequireApproval);
    assert [] + [rule] == [rule];
  }

  lemma MatchingRule(glob: Glob) returns (rule: Rule)
    ensures rule.effect == RequireApproval && RuleMatches(glob, rule, ["a"])
  {
    rule := Rule("k", RequireApproval, 0, ["a"], "ask first");
    LettersDiffer(glob);
    assert "a" in rule.patterns;
  }

  /** Matching looks only at the set of paths and is additive in it. */
  lemma MatchesEither(glob: Glob, rule: Rule, p1: seq<string>, p2: seq<string>, p: seq<string>)
    requires forall x :: x in p <==> x in p1 || x in p2
    ensures RuleMatches(glob, rule, p) <==> RuleMatches(glob, rule, p1) || RuleMatches(glob, rule, p2)
  {
    forall pattern: string
      ensures PatternMatches(glob, pattern, p)
              <==> PatternMatches(glob, pattern, p1) || PatternMatches(glob, pattern, p2)
    {
    }
  }

  lemma HitsEither(glob: Glob, rules: seq<Rule>, p1: seq<string>, p2: seq<string>, p: seq<string>, effect: Effect)
    requires forall x :: x in p <==> x in p1 || x in p2
    ensures Hits(glob, rules, p, effect) <==> Hits(glob, rules, p1, effect) || Hits(glob, rules, p2, effect)
  {
    forall r: Rule
      ensures RuleMatches(glob, r, p) <==> RuleMatches(glob, r, p1) || RuleMatches(glob, r, p2)
    {
      MatchesEither(glob, r, p1, p2, p);
    }
  }

  /** The verdict on combined raw path lists is the stricter of the separate verdicts. */
  ghost predicate JoinsPaths(glob: Glob, rules: seq<Rule>, raw1: seq<string>, raw2: seq<string>,
                             llm: Verdict, user: Option<Verdict>)
    requires Paths.CanonicalList(raw1).Ok? && Paths.CanonicalList(raw2).Ok?
  {
    && Paths.CanonicalList(raw1 + raw2).Ok?
    && var p1, p2 := Paths.CanonicalList(raw1).value, Paths.CanonicalList(raw2).value;
       var p := Paths.CanonicalList(raw1 + raw2).value;
       DecideRules(glob, rules, p, llm, user).verdict
       == Stricter(DecideRules(glob, rules, p1, llm, user).verdict, DecideRules(glob, rules, p2, llm, user).verdict)
  }

  lemma PathsJoin(glob: Glob, rules: seq<Rule>, raw1: seq<string>, raw2: seq<string>, llm: Verdict,
                  user: Option<Verdict>)
    requires !BlockRequested(llm, user)
    requires Paths.CanonicalList(raw1).Ok? && Paths.CanonicalList(raw2).Ok?
    ensures JoinsPaths(glob, rules, raw1, raw2, llm, user)
  {
    CanonicalListOfConcat(Paths.Canonical, raw1, raw2);
    var p1, p2 := Paths.CanonicalList(raw1).value, Paths.CanonicalList(raw2).value;
    var p := Paths.CanonicalList(raw1 + raw2).value;
    VerdictIsFor(glob, rules, p1, llm, user);
    VerdictIsFor(glob, rules, p2, llm, user);
    VerdictIsFor(glob, rules, p, llm, user);
    HitsEither(glob, rules, p1, p2, p, DenyHard);
    HitsEither(glob, rules, p1, p2, p, RequireApproval);
  }

  /** Combining accepted path lists gives the stricter of the separate verdicts, for all rules and
      paths, exactly when no block is requested. */
  lemma PathsJoinExactly(glob: Glob, llm: Verdict, user: Option<Verdict>)
    ensures (forall rules, raw1, raw2 :: Paths.CanonicalList(raw1).Ok? && Paths.CanonicalList(raw2).Ok?
               ==> JoinsPaths(glob, rules, raw1, raw2, llm, user))
            <==> !BlockRequested(llm, user)
  {
    if BlockRequested(llm, user) {
      var rule := MatchingRule(glob);
      ApprovalSoftensBlockOfPath(glob, rule, llm, user);
    } else {
      forall rules: seq<Rule>, raw1: seq<string>, raw2: seq<string>
        | Paths.CanonicalList(raw1).Ok? && Paths.CanonicalList(raw2).Ok?
        ensures JoinsPaths(glob, rules, raw1, raw2, llm, user)
      {
        PathsJoin(glob, rules, raw1, raw2, llm, user);
      }
    }
  }

  /** No path at all is blocked on request, and adding one that needs approval softens this to a warning. */
  lemma ApprovalSoftensBlockOfPath(glob: Glob, rule: Rule, llm: Verdict, user: Option<Verdict>)
    requires BlockRequested(llm, user) && rule.effect == RequireApproval && RuleMatches(glob, rule, ["a"])
    ensures Paths.CanonicalList([]).Ok? && Paths.CanonicalList(["a"]).Ok?
    ensures !JoinsPaths(glob, [rule], [], ["a"], llm, user)
  {
    hide DecideRules, RuleMatches;
    PlainLists();
    assert [] + ["a"] == ["a"];
    ApprovalSoftensBlock(glob, rule, ["a"], llm, user);
    VerdictIsFor(glob, [rule], [], llm, user);
    NoPathsNoHits(glob, [rule], DenyHard);
    NoPathsNoHits(glob, [rule], RequireApproval);
  }

  lemma NoPathsNoHits(glob: Glob, rules: seq<Rule>, effect: Effect)
    ensures !Hits(glob, rules, [], effect)
  {
  }

  lemma PlainLists()
    ensures Paths.CanonicalList([]) == Paths.Ok([])
    ensures Paths.CanonicalList(["a"]) == Paths.Ok(["a"])
  {
    hide Paths.Canonical;
    assert ["a"][..0] == [] && [] + ["a"] == ["a"];
    PlainPath();
  }

  lemma PlainPath()
    ensures Paths.Canonical("a") == Paths.Ok("a")
  {
    hide Paths.Canonical, Text.Join;
    Paths.OneSegment("a");
  }

  lemma CanonicalListOfConcat(f: string -> Paths.Result<string>, raw1: seq<string>, raw2: seq<string>)
    requires Paths.ListBy(f, raw1).Ok? && Paths.ListBy(f, raw2).Ok?
    ensures Paths.ListBy(f, raw1 + raw2).Ok?
    ensures forall x :: x in Paths.ListBy(f, raw1 + raw2).value
                        <==> x in Paths.ListBy(f, raw1).value || x in Paths.ListBy(f, raw2).value
  {
    var raw := raw1 + raw2;
    Paths.ListByIsImage(f, raw1);
    Paths.ListByIsImage(f, raw2);
    Paths.ListByIsImage(f, raw);
    forall x
      ensures Paths.ImageBefore(f, raw, |raw|, x)
              <==> Paths.ImageBefore(f, raw1, |raw1|, x) || Paths.ImageBefore(f, raw2, |raw2|, x)
    {
      if Paths.ImageBefore(f, raw1, |raw1|, x) {
        var i :| 0 <= i < |raw1| && f(raw1[i]) == Paths.Ok(x);
        assert f(raw[i]) == Paths.Ok(x);
      }
      if Paths.ImageBefore(f, raw2, |raw2|, x) {
        var i :| 0 <= i < |raw2| && f(raw2[i]) == Paths.Ok(x);
        assert f(raw[|raw1| + i]) == Paths.Ok(x);
      }
      if Paths.ImageBefore(f, raw, |raw|, x) {
        var i :| 0 <= i < |raw| && f(raw[i]) == Paths.Ok(x);
        if i < |raw1| { assert f(raw1[i]) == Paths.Ok(x); } else { assert f(raw2[i - |raw1|]) == Paths.Ok(x); }
      }
    }
  }

  // ----- order and merging

  /** The verdict does not depend on the order of the rules; with distinct priority and key pairs
      the whole decision does not. */
  lemma RuleOrderIsIrrelevant(glob: Glob, a: seq<Rule>, b: seq<Rule>, paths: seq<string>, llm: Verdict,
                              user: Option<Verdict>)
    requires multiset(a) == multiset(b)
    ensures DecideRules(glob, a, paths, llm, user).verdict == DecideRules(glob, b, paths, llm, user).verdict
    ensures DistinctKeys(a, PriorityKey)
            ==> DecideRules(glob, a, paths, llm, user) == DecideRules(glob, b, paths, llm, user)
  {
    VerdictIsFor(glob, a, paths, llm, user);
    VerdictIsFor(glob, b, paths, llm, user);
    assert forall r: Rule :: r in a <==> r in b by {
      forall r: Rule ensures r in a <==> r in b {
        assert r in a <==> r in multiset(a);
        assert r in b <==> r in multiset(b);
      }
    }
    if DistinctKeys(a, PriorityKey) {
      SortBySorts(a, PriorityKey);
      DistinctKeysPermute(a, SortBy(a, PriorityKey), PriorityKey);
      SortIgnoresOrder(a, b, PriorityKey);
    }
  }

  // ----- when merging is safe

  /** The merged rule set gives the same verdict as the whole one. */
  ghost predicate MergeAgrees(glob: Glob, rules: seq<Rule>, paths: seq<string>, llm: Verdict, user: Option<Verdict>) {
    DecideRules(glob, Merged(rules), paths, llm, user).verdict == DecideRules(glob, rules, paths, llm, user).verdict
  }

  /** The patterns named by the rules with an effect. */
  function PatternsOf(rules: seq<Rule>, effect: Effect): set<string> {
    set r, p | r in rules && r.effect == effect && p in r.patterns :: p
  }

  ghost predicate AnyMatches(glob: Glob, patterns: set<string>, paths: seq<string>) {
    exists p :: p in patterns && PatternMatches(glob, p, paths)
  }

  /** Some pattern is part of a path and therefore matches it under every glob. */
  predicate OccurIn(patterns: set<string>, paths: seq<string>) {
    exists q, x :: q in patterns && x in paths && Text.Contains(x, q)
  }

  /** On these paths the guards match whenever one of the patterns does, under every glob. */
  predicate Guard(guards: set<string>, patterns: set<string>, paths: seq<string>) {
    patterns <= guards || OccurIn(guards, paths)
  }

  /** Merging loses no denial and no approval that matters under the requested verdicts. When a block is
      requested, only an approval that no denial accompanies changes the verdict. */
  predicate SafeToMerge(rules: seq<Rule>, paths: seq<string>, llm: Verdict, user: Option<Verdict>) {
    var deny, ask := PatternsOf(rules, DenyHard), PatternsOf(rules, RequireApproval);
    var denyLeft, askLeft := PatternsOf(Merged(rules), DenyHard), PatternsOf(Merged(rules), RequireApproval);
    if BlockRequested(llm, user) then
      Guard(askLeft + deny, ask, paths) && (Guard(denyLeft, askLeft, paths) || Guard(denyLeft, deny, paths))
    else
      Guard(denyLeft, deny, paths) && (user == Some(WARN) || Guard(denyLeft + askLeft, ask, paths))
  }

  lemma HitsByPatterns(glob: Glob, rules: seq<Rule>, paths: seq<string>, effect: Effect)
    ensures Hits(glob, rules, paths, effect) <==> AnyMatches(glob, PatternsOf(rules, effect), paths)
  {
    if Hits(glob, rules, paths, effect) {
      var r :| r in rules && r.effect == effect && RuleMatches(glob, r, paths);
      var p :| p in r.patterns && PatternMatches(glob, p, paths);
      assert p in PatternsOf(rules, effect);
    }
    if AnyMatches(glob, PatternsOf(rules, effect), paths) {
      var p :| p in PatternsOf(rules, effect) && PatternMatches(glob, p, paths);
      var r :| r in rules && r.effect == effect && p in r.patterns;
      assert RuleMatches(glob, r, paths);
    }
  }

  /** The verdict by the patterns that match. */
  lemma VerdictByPatterns(glob: Glob, rules: seq<Rule>, paths: seq<string>, llm: Verdict, user: Option<Verdict>)
    ensures DecideRules(glob, rules, paths, llm, user).verdict
            == if AnyMatches(glob, PatternsOf(rules, DenyHard), paths) then BLOCK
               else if AnyMatches(glob, PatternsOf(rules, RequireApproval), paths) then WARN
               else if BlockRequested(llm, user) then BLOCK
               else if user == Some(WARN) then WARN
               else ALLOW
  {
    hide DecideRules, AnyMatches, PatternsOf;
    VerdictIsFor(glob, rules, paths, llm, user);
    HitsByPatterns(glob, rules, paths, DenyHard);
    HitsByPatterns(glob, rules, paths, RequireApproval);
  }

  lemma MergedPatterns(rules: seq<Rule>, effect: Effect)
    ensures PatternsOf(Merged(rules), effect) <= PatternsOf(rules, effect)
  {
    forall r: Rule | r in Merged(rules) ensures r in rules {
      MergedAreWinners(rules);
      KeyOrderCoversMap(rules);
    }
  }

  lemma MatchesUnion(glob: Glob, a: set<string>, b: set<string>, paths: seq<string>)
    ensures AnyMatches(glob, a + b, paths) <==> AnyMatches(glob, a, paths) || AnyMatches(glob, b, paths)
  {
  }

  lemma SafeAgrees(glob: Glob, rules: seq<Rule>, paths: seq<string>, llm: Verdict, user: Option<Verdict>)
    requires SafeToMerge(rules, paths, llm, user)
    ensures MergeAgrees(glob, rules, paths, llm, user)
  {
    hide DecideRules, Merged, AnyMatches, PatternsOf, Guard;
    var deny, ask := PatternsOf(rules, DenyHard), PatternsOf(rules, RequireApproval);
    var denyLeft, askLeft := PatternsOf(Merged(rules), DenyHard), PatternsOf(Merged(rules), RequireApproval);
    VerdictByPatterns(glob, rules, paths, llm, user);
    VerdictByPatterns(glob, Merged(rules), paths, llm, user);
    SubsetMatches(glob, denyLeft, deny, paths) by { MergedPatterns(rules, DenyHard); }
    SubsetMatches(glob, askLeft, ask, paths) by { MergedPatterns(rules, RequireApproval); }
    MatchesUnion(glob, askLeft, deny, paths);
    MatchesUnion(glob, denyLeft, askLeft, paths);
    GuardMatches(glob, denyLeft, deny, paths);
    GuardMatches(glob, denyLeft, askLeft, paths);
    GuardMatches(glob, denyLeft + askLeft, ask, paths);
    GuardMatches(glob, askLeft + deny, ask, paths);
  }

  lemma SubsetMatches(glob: Glob, a: set<string>, b: set<string>, paths: seq<string>)
    requires a <= b
    ensures AnyMatches(glob, a, paths) ==> AnyMatches(glob, b, paths)
  {
  }

  lemma GuardMatches(glob: Glob, guards: set<string>, patterns: set<string>, paths: seq<string>)
    ensures Guard(guards, patterns, paths) && AnyMatches(glob, patterns, paths) ==> AnyMatches(glob, guards, paths)
  {
    if OccurIn(guards, paths) {
      var q, x :| q in guards && x in paths && Text.Contains(x, q);
      assert PatternMatches(glob, q, paths);
    }
  }

  /** The glob that accepts exactly the given patterns. */
  function GlobOf(accepted: set<string>): Glob {
    (path, pattern) => pattern in accepted
  }

  lemma GlobMatches(accepted: set<string>, patterns: set<string>, paths: seq<string>)
    requires paths != []
    ensures AnyMatches(GlobOf(accepted), patterns, paths) <==> !(accepted !! patterns) || OccurIn(patterns, paths)
  {
    if p :| p in accepted && p in patterns {
      assert paths[0] in paths && GlobOf(accepted)(paths[0], p);
      assert PatternMatches(GlobOf(accepted), p, paths);
    } else if OccurIn(patterns, paths) {
      var q, x :| q in patterns && x in paths && Text.Contains(x, q);
      assert PatternMatches(GlobOf(accepted), q, paths);
    }
  }

  /** If merging is not safe on some paths, it changes the verdict on them under some glob. */
  lemma UnsafeDisagrees(rules: seq<Rule>, paths: seq<string>, llm: Verdict, user: Option<Verdict>) returns (glob: Glob)
    requires paths != [] && !SafeToMerge(rules, paths, llm, user)
    ensures !MergeAgrees(glob, rules, paths, llm, user)
  {
    hide DecideRules, Merged, AnyMatches, PatternsOf, OccurIn, GlobOf;
    var deny, ask := PatternsOf(rules, DenyHard), PatternsOf(rules, RequireApproval);
    var denyLeft, askLeft := PatternsOf(Merged(rules), DenyHard), PatternsOf(Merged(rules), RequireApproval);
    MergedPatterns(rules, DenyHard);
    MergedPatterns(rules, RequireApproval);
    var accepted: set<string>;
    if BlockRequested(llm, user) {
      if !Guard(askLeft + deny, ask, paths) {
        var p :| p in ask && p !in askLeft + deny;
        accepted := {p};
      } else {
        var a :| a in askLeft && a !in denyLeft;
        var d :| d in deny && d !in denyLeft;
        accepted := {a, d};
      }
    } else if !Guard(denyLeft, deny, paths) {
      var p :| p in deny && p !in denyLeft;
      accepted := {p};
    } else {
      var p :| p in ask && p !in denyLeft + askLeft;
      accepted := {p};
    }
    glob := GlobOf(accepted);
    OccurUnion(askLeft, deny, paths);
    OccurUnion(denyLeft, askLeft, paths);
    OccurUnion(denyLeft, deny, paths);
    VerdictByPatterns(glob, rules, paths, llm, user);
    VerdictByPatterns(glob, Merged(rules), paths, llm, user);
    GlobMatches(accepted, deny, paths);
    GlobMatches(accepted, ask, paths);
    GlobMatches(accepted, denyLeft, paths);
    GlobMatches(accepted, askLeft, paths);
  }

  lemma OccurUnion(a: set<string>, b: set<string>, paths: seq<string>)
    ensures OccurIn(a + b, paths) <==> OccurIn(a, paths) || OccurIn(b, paths)
  {
  }

  /** On any changed paths and under any requested verdicts, merging keeps the verdict whatever the glob
      exactly when it is safe on them, which the rules and the paths alone decide. */
  lemma MergeSafeOnPaths(rules: seq<Rule>, paths: seq<string>, llm: Verdict, user: Option<Verdict>)
    ensures (forall glob :: MergeAgrees(glob, rules, paths, llm, user))
            <==> paths == [] || SafeToMerge(rules, paths, llm, user)
  {
    hide MergeAgrees, SafeToMerge;
    if SafeToMerge(rules, paths, llm, user) {
      forall glob ensures MergeAgrees(glob, rules, paths, llm, user) {
        SafeAgrees(glob, rules, paths, llm, user);
      }
    } else if paths == [] {
      forall glob ensures MergeAgrees(glob, rules, paths, llm, user) {
        NoPathsAgree(glob, rules, llm, user);
      }
    } else {
      var glob := UnsafeDisagrees(rules, paths, llm, user);
    }
  }

  lemma NoPathsAgree(glob: Glob, rules: seq<Rule>, llm: Verdict, user: Option<Verdict>)
    ensures MergeAgrees(glob, rules, [], llm, user)
  {
    hide DecideRules, Merged, PatternsOf;
    VerdictByPatterns(glob, rules, [], llm, user);
    VerdictByPatterns(glob, Merged(rules), [], llm, user);
  }

  /** Every pattern of a denial or approval rule is named, or made redundant by the empty pattern, in a
      merged rule that is as strong. */
  predicate WinnersCover(rules: seq<Rule>) {
    forall r, p :: r in rules && r.effect != Allow && p in r.patterns ==> WinnerCovers(rules, r.effect, p)
  }

  predicate WinnerCovers(rules: seq<Rule>, effect: Effect, p: string) {
    exists w :: w in Merged(rules) && Strength(w.effect) >= Strength(effect) && (p in w.patterns || "" in w.patterns)
  }

  lemma CoverIsSafe(rules: seq<Rule>, paths: seq<string>, llm: Verdict, user: Option<Verdict>)
    requires WinnersCover(rules) && paths != []
    ensures SafeToMerge(rules, paths, llm, user)
  {
    hide Merged;
    var deny, ask := PatternsOf(rules, DenyHard), PatternsOf(rules, RequireApproval);
    var denyLeft, askLeft := PatternsOf(Merged(rules), DenyHard), PatternsOf(Merged(rules), RequireApproval);
    MergedPatterns(rules, DenyHard);
    EmptyOccurs(paths);
    forall p | p in deny ensures p in denyLeft || "" in denyLeft {
      assert WinnerCovers(rules, DenyHard, p);
    }
    forall p | p in ask ensures p in denyLeft + askLeft || "" in denyLeft + askLeft {
      assert WinnerCovers(rules, RequireApproval, p);
    }
    assert Guard(denyLeft, deny, paths);
    assert Guard(denyLeft + askLeft, ask, paths);
    assert denyLeft + askLeft <= askLeft + deny;
  }

  lemma EmptyOccurs(paths: seq<string>)
    requires paths != []
    ensures forall patterns: set<string> :: "" in patterns ==> OccurIn(patterns, paths)
  {
    assert Text.OccursAt(paths[0], 0, "");
    assert paths[0] in paths && Text.Contains(paths[0], "");
  }

  /** On a path in which no pattern of a winner but the empty one occurs, safety means cover. */
  lemma SafeIsCover(rules: seq<Rule>, path: string)
    requires forall w, q :: w in Merged(rules) && q in w.patterns && Text.Contains(path, q) ==> q == ""
    requires SafeToMerge(rules, [path], ALLOW, None)
    ensures WinnersCover(rules)
  {
    hide Merged, Text.Contains;
    var denyLeft, askLeft := PatternsOf(Merged(rules), DenyHard), PatternsOf(Merged(rules), RequireApproval);
    forall r, p | r in rules && r.effect != Allow && p in r.patterns ensures WinnerCovers(rules, r.effect, p) {
      assert p in PatternsOf(rules, r.effect);
      var q := if r.effect == DenyHard then if p in denyLeft then p else ""
               else if p in denyLeft + askLeft then p else "";
      assert q in denyLeft || (r.effect == RequireApproval && q in askLeft);
    }
  }

  /** Without requested verdicts, merging keeps the verdict under every glob and on every list of texts
      exactly when the winners cover all patterns. */
  lemma MergeSafeOnAnyText(rules: seq<Rule>)
    ensures (forall glob, paths :: MergeAgrees(glob, rules, paths, ALLOW, None)) <==> WinnersCover(rules)
  {
    hide MergeAgrees, SafeToMerge, WinnersCover;
    if WinnersCover(rules) {
      forall glob, paths ensures MergeAgrees(glob, rules, paths, ALLOW, None) {
        MergeSafeOnPaths(rules, paths, ALLOW, None);
        if paths != [] { CoverIsSafe(rules, paths, ALLOW, None); }
      }
    } else if forall glob, paths :: MergeAgrees(glob, rules, paths, ALLOW, None) {
      MergeSafeOnPaths(rules, [""], ALLOW, None);
      assert forall q :: Text.Contains("", q) ==> q == "";
      SafeIsCover(rules, "");
    }
  }

  /** A character that is a canonical path by itself. */
  predicate PlainCharacter(c: char) {
    c != '/' && c != '\\'
  }

  /** Merging keeps the verdict on all accepted path lists and under every glob, for given requests. */
  ghost predicate AgreesOnAccepted(rules: seq<Rule>, llm: Verdict, user: Option<Verdict>) {
    forall glob, raw :: Paths.CanonicalList(raw).Ok?
                        ==> MergeAgrees(glob, rules, Paths.CanonicalList(raw).value, llm, user)
  }

  /** Merging keeps the verdict on every accepted list of changed paths, under every glob and whatever
      is requested, exactly when it is safe on every path of one character. */
  lemma MergeSafeExactly(rules: seq<Rule>, llm: Verdict, user: Option<Verdict>)
    ensures AgreesOnAccepted(rules, llm, user)
            <==> forall c :: PlainCharacter(c) ==> SafeToMerge(rules, [[c]], llm, user)
  {
    hide MergeAgrees, SafeToMerge, Paths.CanonicalList;
    if forall c :: PlainCharacter(c) ==> SafeToMerge(rules, [[c]], llm, user) {
      forall glob, raw | Paths.CanonicalList(raw).Ok?
        ensures MergeAgrees(glob, rules, Paths.CanonicalList(raw).value, llm, user)
      {
        var paths := Paths.CanonicalList(raw).value;
        MergeSafeOnPaths(rules, paths, llm, user);
        if paths != [] {
          var c := PlainCharacterOf(raw);
          SafeOnLonger(rules, c, paths, llm, user);
        }
      }
    }
    if AgreesOnAccepted(rules, llm, user) {
      forall c | PlainCharacter(c) ensures SafeToMerge(rules, [[c]], llm, user) {
        var raw := CharacterIsAccepted(c);
        MergeSafeOnPaths(rules, [[c]], llm, user);
      }
    }
  }

  /** If some character is not a pattern by itself, this is again the cover by winners. */
  lemma MergeSafeOnAccepted(rules: seq<Rule>, c: char)
    requires PlainCharacter(c) && forall w :: w in Merged(rules) ==> [c] !in w.patterns
    ensures AgreesOnAccepted(rules, ALLOW, None) <==> WinnersCover(rules)
  {
    hide MergeAgrees, SafeToMerge, WinnersCover, AgreesOnAccepted, Merged;
    MergeSafeExactly(rules, ALLOW, None);
    if AgreesOnAccepted(rules, ALLOW, None) {
      assert forall q :: Text.Contains([c], q) ==> q == "" || q == [c];
      SafeIsCover(rules, [c]);
    }
    if WinnersCover(rules) {
      forall d | PlainCharacter(d) ensures SafeToMerge(rules, [[d]], ALLOW, None) {
        CoverIsSafe(rules, [[d]], ALLOW, None);
      }
    }
  }

  lemma PlainCharacterOf(raw: seq<string>) returns (c: char)
    requires Paths.CanonicalList(raw).Ok? && Paths.CanonicalList(raw).value != []
    ensures PlainCharacter(c) && c in Paths.CanonicalList(raw).value[0]
  {
    hide Paths.Canonical, Paths.CanonicalList;
    var x := Paths.CanonicalList(raw).value[0];
    Paths.CanonicalListIsImage(raw);
    assert x in Paths.CanonicalList(raw).value;
    assert Paths.ImageBefore(Paths.Canonical, raw, |raw|, x);
    Paths.ImageExactly(x);
    c := '.';
    if x != "." {
      var segments :| segments != [] && Paths.CleanSegments(segments) && x == Text.Join(segments, "/");
      Paths.NormalFormCharacters(segments);
      c := x[0];
    }
  }

  lemma CharacterIsAccepted(c: char) returns (raw: seq<string>)
    requires PlainCharacter(c)
    ensures Paths.CanonicalList(raw) == Paths.Ok([[c]])
  {
    hide Paths.Canonical;
    if c != '.' { Paths.OneSegmentIsNormal([c]); }
    Paths.ShieldedIsAccepted([c]);
    var path := if [c] == "." then [c] else Paths.Shielded([c]);
    raw := [path];
    OnePathList(Paths.Canonical, path, [c]);
  }

  lemma OnePathList(f: string -> Paths.Result<string>, path: string, x: string)
    requires f(path) == Paths.Ok(x)
    ensures Paths.ListBy(f, [path]) == Paths.Ok([x])
  {
    assert [path][..0] == [] && [x][..0] == [] && [] + [x] == [x];
    assert Paths.EachBy(f, [path]) == Paths.Ok([x]);
    assert Dedupe.FirstOccurrences([x]) == [x] by { Dedupe.OneMore([], x); }
  }

  lemma SafeOnLonger(rules: seq<Rule>, c: char, paths: seq<string>, llm: Verdict, user: Option<Verdict>)
    requires paths != [] && c in paths[0] && SafeToMerge(rules, [[c]], llm, user)
    ensures SafeToMerge(rules, paths, llm, user)
  {
    hide Merged, PatternsOf;
    forall patterns: set<string> | OccurIn(patterns, [[c]]) ensures OccurIn(patterns, paths) {
      var q, x :| q in patterns && x in [[c]] && Text.Contains(x, q);
      PartOfCharacter(c, q, paths[0]);
    }
  }

  lemma PartOfCharacter(c: char, q: string, x: string)
    requires c in x && Text.Contains([c], q)
    ensures Text.Contains(x, q)
  {
    var i :| 0 <= i < |x| && x[i] == c;
    assert q == "" || q == [c];
    assert Text.OccursAt(x, i, q);
  }

  /** Rules with the same key name the same patterns. */
  ghost predicate SharedPatterns(rules: seq<Rule>) {
    forall i, j :: 0 <= i < |rules| && 0 <= j < |rules| && rules[i].key == rules[j].key
                   ==> rules[i].patterns == rules[j].patterns
  }

  /** Shared patterns are enough for the merged rule set to give the same verdict as the whole one,
      under any requested verdicts. */
  lemma MergeKeepsVerdict(glob: Glob, rules: seq<Rule>, paths: seq<string>, llm: Verdict, user: Option<Verdict>)
    requires SharedPatterns(rules)
    ensures MergeAgrees(glob, rules, paths, llm, user)
  {
    hide MergeAgrees, SafeToMerge;
    SharedIsCovered(rules);
    MergeSafeOnPaths(rules, paths, llm, user);
    if paths != [] { CoverIsSafe(rules, paths, llm, user); }
  }

  lemma SharedIsCovered(rules: seq<Rule>)
    requires SharedPatterns(rules)
    ensures WinnersCover(rules)
  {
    forall r, p | r in rules && r.effect != Allow && p in r.patterns ensures WinnerCovers(rules, r.effect, p) {
      var j :| 0 <= j < |rules| && rules[j] == r;
      assert HasKey(rules, r.key);
      var i := WinnerIsStrongest(rules, r.key);
      assert r in multiset(rules);
      NoneStronger(rules, r.key, r);
      MergedAreWinners(rules);
      assert rules[i] in Merged(rules) && rules[i].patterns == rules[j].patterns;
    }
  }

  ghost predicate LosesApproval(glob: Glob, rules: seq<Rule>, paths: seq<string>) {
    && DecideRules(glob, rules, paths, ALLOW, None).verdict == WARN
    && DecideRules(glob, Merged(rules), paths, ALLOW, None).verdict == ALLOW
  }

  /** Without shared patterns an approval can be lost: the stronger rule for the key looks elsewhere. */
  lemma MergeDropsWeaker(glob: Glob, ask: Rule, deny: Rule, paths: seq<string>)
    requires ask.key == deny.key && ask.effect == RequireApproval && deny.effect == DenyHard
    requires RuleMatches(glob, ask, paths) && !RuleMatches(glob, deny, paths)
    ensures LosesApproval(glob, [ask, deny], paths)
  {
    hide DecideRules, RuleMatches, Merged, ByKey;
    var rules := [ask, deny];
    assert ask in rules && forall r: Rule :: r in rules ==> r == ask || r == deny;
    assert Hits(glob, rules, paths, RequireApproval);
    VerdictIsFor(glob, rules, paths, ALLOW, None);
    DenyWins(ask, deny);
    forall r: Rule | r in Merged(rules) ensures r == deny {
      MergedAreWinners(rules);
    }
    VerdictIsFor(glob, Merged(rules), paths, ALLOW, None);
  }

  lemma DenyWins(ask: Rule, deny: Rule)
    requires ask.key == deny.key && ask.effect == RequireApproval && deny.effect == DenyHard
    ensures ByKey([ask, deny]) == map[deny.key := deny]
  {
    assert [ask, deny][..1] == [ask] && [ask][..0] == [];
    assert ByKey([ask]) == Put(map[], ask);
    assert ByKey([ask, deny]) == Put(ByKey([ask]), deny);
  }

  /** Such a pair of rules exists: patterns "a" and "b" for the same key, and the changed path "a". */
  lemma MergeCanLoseApproval(glob: Glob) returns (rules: seq<Rule>)
    requires !glob("a", "b")
    ensures LosesApproval(glob, rules, ["a"])
  {
    var ask, deny := DivergingRules(glob);
    rules := [ask, deny];
    MergeDropsWeaker(glob, ask, deny, ["a"]);
  }

  lemma DivergingRules(glob: Glob) returns (ask: Rule, deny: Rule)
    requires !glob("a", "b")
    ensures ask.key == deny.key && ask.effect == RequireApproval && deny.effect == DenyHard
    ensures RuleMatches(glob, ask, ["a"]) && !RuleMatches(glob, deny, ["a"])
  {
    ask := Rule("k", RequireApproval, 0, ["a"], "ask first");
    deny := Rule("k", DenyHard, 0, ["b"], "never");
    LettersDiffer(glob);
    assert "a" in ask.patterns;
  }

  lemma LettersDiffer(glob: Glob)
    ensures PatternMatches(glob, "a", ["a"])
    ensures PatternMatches(glob, "b", ["a"]) ==> glob("a", "b")
  {
    assert Text.OccursAt("a", 0, "a");
    assert "a" in ["a"] && Text.Contains("a", "a");
    assert !Text.Contains("a", "b") by {
      assert "a"[0..1] == "a" && "a"[1..1] == "";
      assert !Text.OccursAt("a", 0, "b") && !Text.OccursAt("a", 1, "b");
    }
  }
}
