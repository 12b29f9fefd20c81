/** Governance rules and their merging by key. */
module Rules {
  import opened Sorting

  datatype Effect = Allow | RequireApproval | DenyHard

  datatype Rule = Rule(key: string, effect: Effect, priority: int, patterns: seq<string>, reason: string)

  function Strength(e: Effect): int {
    match e
    case Allow => 0
    case RequireApproval => 1
    case DenyHard => 2
  }

  predicate Stronger(left: Rule, right: Rule) {
    if left.effect != right.effect then Strength(left.effect) > Strength(right.effect)
    else left.priority > right.priority
  }

  function SortKey(r: Rule): Key {
    Key(-Strength(r.effect), r.key)
  }

  function Put(m: map<string, Rule>, r: Rule): map<string, Rule> {
    if r.key !in m || Stronger(r, m[r.key]) then m[r.key := r] else m
  }

  /** The dictionary that the merge loop fills. */
  function ByKey(rules: seq<Rule>): map<string, Rule> {
    if rules == [] then map[] else Put(ByKey(rules[..|rules| - 1]), rules[|rules| - 1])
  }

  /** The keys in the order in which they entered the dictionary. */
  function KeyOrder(rules: seq<Rule>): seq<string> {
    if rules == [] then []
    else
      var n := |rules| - 1;
      KeyOrder(rules[..n]) + if rules[n].key in KeyOrder(rules[..n]) then [] else [rules[n].key]
  }

  lemma {:induction false} KeyOrderCoversMap(rules: seq<Rule>)
    ensures forall k :: k in KeyOrder(rules) <==> k in ByKey(rules)
    ensures forall i, j :: 0 <= i < j < |KeyOrder(rules)| ==> KeyOrder(rules)[i] != KeyOrder(rules)[j]
    ensures forall k :: k in ByKey(rules) ==> ByKey(rules)[k].key == k && ByKey(rules)[k] in rules
    decreases |rules|
  {
    if rules != [] {
      var n := |rules| - 1;
      KeyOrderCoversMap(rules[..n]);
      assert rules == rules[..n] + [rules[n]];
    }
  }

  function Values(m: map<string, Rule>, order: seq<string>): seq<Rule>
    requires forall i :: 0 <= i < |order| ==> order[i] in m
  {
    seq(|order|, i requires 0 <= i < |order| => m[order[i]])
  }

  function Merged(rules: seq<Rule>): seq<Rule> {
    KeyOrderCoversMap(rules);
    SortBy(Values(ByKey(rules), KeyOrder(rules)), SortKey)
  }

  method Merge(rules: seq<Rule>) returns (merged: seq<Rule>)
    ensures merged == Merged(rules)
  {
    var byKey: map<string, Rule> := map[];
    var order: seq<string> := [];
    var i := 0;
    while i < |rules|
      invariant 0 <= i <= |rules|
      invariant byKey == ByKey(rules[..i]) && order == KeyOrder(rules[..i])
    {
      var rule := rules[i];
      assert rules[..i + 1][..i] == rules[..i];
      KeyOrderCoversMap(rules[..i]);
      if rule.key !in byKey {
        order := order + [rule.key];
        byKey := byKey[rule.key := rule];
      } else if Stronger(rule, byKey[rule.key]) {
        byKey := byKey[rule.key := rule];
      }
      i := i + 1;
    }
    assert rules[..i] == rules;
    KeyOrderCoversMap(rules);
    merged := SortBy(Values(byKey, order), SortKey);
  }

  // ----- who wins a key

  ghost predicate HasKey(rules: seq<Rule>, k: string) {
    exists i :: 0 <= i < |rules| && rules[i].key == k
  }

  /** Position i holds the first of the strongest rules for its key. */
  ghost predicate WinsAt(rules: seq<Rule>, i: nat) {
    && i < |rules|
    && (forall j :: 0 <= j < i && rules[j].key == rules[i].key ==> Stronger(rules[i], rules[j]))
    && forall j :: i < j < |rules| && rules[j].key == rules[i].key ==> !Stronger(rules[j], rules[i])
  }

  lemma HasKeyStep(rules: seq<Rule>, k: string)
    requires rules != []
    ensures var n := |rules| - 1; HasKey(rules, k) <==> HasKey(rules[..n], k) || rules[n].key == k
  {
    var n := |rules| - 1;
    if HasKey(rules[..n], k) {
      var j :| 0 <= j < n && rules[..n][j].key == k;
      assert rules[j].key == k;
    }
    if HasKey(rules, k) && rules[n].key != k {
      var j :| 0 <= j < |rules| && rules[j].key == k;
      assert rules[..n][j].key == k;
    }
  }

  /** The merge keeps, for every key that occurs, the first of its strongest rules. */
  lemma {:induction false} WinnerIsStrongest(rules: seq<Rule>, k: string) returns (i: nat)
    ensures k in ByKey(rules) <==> HasKey(rules, k)
    ensures k in ByKey(rules) ==> WinsAt(rules, i) && rules[i].key == k && ByKey(rules)[k] == rules[i]
    decreases |rules|
  {
    i := 0;
    if rules != [] {
      var n := |rules| - 1;
      i := WinnerIsStrongest(rules[..n], k);
      HasKeyStep(rules, k);
      if rules[n].key == k && (k !in ByKey(rules[..n]) || Stronger(rules[n], ByKey(rules[..n])[k])) {
        i := n;
      }
    }
  }

  /** Who wins a key, by names: a denial if there is one, else an approval if there is one; among the
      rules with this effect the one of largest priority, and of those the first. */
  lemma WinnerByName(rules: seq<Rule>, k: string) returns (i: nat)
    requires HasKey(rules, k)
    ensures i < |rules| && rules[i].key == k && k in ByKey(rules) && ByKey(rules)[k] == rules[i]
    ensures rules[i].effect == DenyHard <==> exists r :: r in rules && r.key == k && r.effect == DenyHard
    ensures rules[i].effect == Allow <==> forall r :: r in rules && r.key == k ==> r.effect == Allow
    ensures forall j :: 0 <= j < |rules| && rules[j].key == k && rules[j].effect == rules[i].effect
              ==> rules[j].priority <= rules[i].priority
    ensures forall j :: 0 <= j < i && rules[j].key == k && rules[j].effect == rules[i].effect
              ==> rules[j].priority < rules[i].priority
  {
    i := WinnerIsStrongest(rules, k);
    assert forall r :: r in rules && r.key == k ==> Strength(r.effect) <= Strength(rules[i].effect) by {
      forall r | r in rules && r.key == k ensures Strength(r.effect) <= Strength(rules[i].effect) {
        NoneStronger(rules, k, r);
      }
    }
  }

  /** The order of the merged rules, by names: denials, then approvals, then allowances, each by key. */
  lemma MergedInOrder(rules: seq<Rule>, i: nat, j: nat)
    requires i < j < |Merged(rules)|
    ensures var a, b := Merged(rules)[i], Merged(rules)[j];
            && (b.effect == DenyHard ==> a.effect == DenyHard)
            && (a.effect == Allow ==> b.effect == Allow)
            && (a.effect == b.effect ==> StringLe(a.key, b.key))
  {
    MergedAreWinners(rules);
    assert KeyLe(SortKey(Merged(rules)[i]), SortKey(Merged(rules)[j]));
  }

  /** The effect and priority kept for a key do not depend on the order of the rules. */
  lemma EffectIgnoresOrder(a: seq<Rule>, b: seq<Rule>, k: string)
    requires multiset(a) == multiset(b)
    ensures k in ByKey(a) <==> k in ByKey(b)
    ensures k in ByKey(a) ==> ByKey(a)[k].effect == ByKey(b)[k].effect && ByKey(a)[k].priority == ByKey(b)[k].priority
  {
    var i := WinnerIsStrongest(a, k);
    var j := WinnerIsStrongest(b, k);
    if k in ByKey(a) {
      assert a[i] in multiset(b);
      var i' :| 0 <= i' < |b| && b[i'] == a[i];
      assert HasKey(b, k);
    }
    if k in ByKey(b) {
      assert b[j] in multiset(a);
      var j' :| 0 <= j' < |a| && a[j'] == b[j];
      assert HasKey(a, k);
    }
    if k in ByKey(a) && k in ByKey(b) {
      NoneStronger(a, k, b[j]);
      NoneStronger(b, k, a[i]);
    }
  }

  lemma NoneStronger(rules: seq<Rule>, k: string, r: Rule)
    requires k in ByKey(rules) && r in multiset(rules) && r.key == k
    ensures !Stronger(r, ByKey(rules)[k])
  {
    var i := WinnerIsStrongest(rules, k);
    var j :| 0 <= j < |rules| && rules[j] == r;
  }

  // ----- merging in steps

  /** Which of two dictionaries' entries survives when the second is merged into the first. */
  function Combine(a: map<string, Rule>, b: map<string, Rule>): map<string, Rule> {
    map k | k in a.Keys + b.Keys ::
      if k !in b || (k in a && !Stronger(b[k], a[k])) then a[k] else b[k]
  }

  lemma {:induction false} ByKeyOfConcat(a: seq<Rule>, b: seq<Rule>)
    ensures ByKey(a + b) == Combine(ByKey(a), ByKey(b))
    decreases |b|
  {
    if b == [] {
      assert a + b == a;
    } else {
      var n := |b| - 1;
      assert (a + b)[..|a| + n] == a + b[..n];
      ByKeyOfConcat(a, b[..n]);
      CombineStep(ByKey(a), ByKey(b[..n]), b[n]);
    }
  }

  lemma CombineStep(a: map<string, Rule>, b: map<string, Rule>, r: Rule)
    ensures Put(Combine(a, b), r) == Combine(a, Put(b, r))
  {
    var x, y := Put(Combine(a, b), r), Combine(a, Put(b, r));
    assert x.Keys == y.Keys;
    forall k | k in x.Keys ensures x[k] == y[k] {
    }
  }

  ghost predicate DistinctRuleKeys(rules: seq<Rule>) {
    forall i, j :: 0 <= i < j < |rules| ==> rules[i].key != rules[j].key
  }

  lemma {:induction false} ByKeyOfDistinct(rules: seq<Rule>)
    requires DistinctRuleKeys(rules)
    ensures forall r :: r in rules <==> r.key in ByKey(rules) && ByKey(rules)[r.key] == r
    decreases |rules|
  {
    if rules != [] {
      var n := |rules| - 1;
      ByKeyOfDistinct(rules[..n]);
      KeyOrderCoversMap(rules[..n]);
      assert rules == rules[..n] + [rules[n]];
    }
  }

  lemma ValuesAreWinners(rules: seq<Rule>, r: Rule)
    ensures forall i :: 0 <= i < |KeyOrder(rules)| ==> KeyOrder(rules)[i] in ByKey(rules)
    ensures DistinctRuleKeys(Values(ByKey(rules), KeyOrder(rules)))
    ensures r in Values(ByKey(rules), KeyOrder(rules)) <==> r.key in ByKey(rules) && ByKey(rules)[r.key] == r
  {
    KeyOrderCoversMap(rules);
    var order := KeyOrder(rules);
    if r.key in ByKey(rules) && ByKey(rules)[r.key] == r {
      var i :| 0 <= i < |order| && order[i] == r.key;
      assert Values(ByKey(rules), order)[i] == r;
    }
  }

  /** The merged list holds exactly the winners, sorted, one per key. */
  lemma MergedAreWinners(rules: seq<Rule>)
    ensures Sorted(Merged(rules), SortKey) && DistinctRuleKeys(Merged(rules))
    ensures forall r :: r in Merged(rules) <==> r.key in ByKey(rules) && ByKey(rules)[r.key] == r
  {
    KeyOrderCoversMap(rules);
    var values := Values(ByKey(rules), KeyOrder(rules));
    SortBySorts(values, SortKey);
    assert DistinctRuleKeys(values);
    PermutedKeysStayDistinct(values, Merged(rules));
    forall r ensures r in Merged(rules) <==> r.key in ByKey(rules) && ByKey(rules)[r.key] == r {
      ValuesAreWinners(rules, r);
      assert r in Merged(rules) <==> r in multiset(values);
    }
  }

  lemma PermutedKeysStayDistinct(s: seq<Rule>, t: seq<Rule>)
    requires multiset(s) == multiset(t) && DistinctRuleKeys(s)
    ensures DistinctRuleKeys(t)
  {
    DistinctKeysPermute(s, t, RuleName);
    forall i, j | 0 <= i < j < |t| ensures t[i].key != t[j].key {
      assert RuleName(t[i]) != RuleName(t[j]);
    }
  }

  function RuleName(r: Rule): Key {
    NameKey(r.key)
  }

  /** The merged list is determined by the winners alone. */
  lemma MergedFromWinners(a: seq<Rule>, b: seq<Rule>)
    requires ByKey(a) == ByKey(b)
    ensures Merged(a) == Merged(b)
  {
    MergedAreWinners(a);
    MergedAreWinners(b);
    SameMultiset(Merged(a), Merged(b));
    assert DistinctKeys(Merged(a), SortKey);
    SortedIsUnique(Merged(a), Merged(b), SortKey);
  }

  lemma SameMultiset(s: seq<Rule>, t: seq<Rule>)
    requires DistinctRuleKeys(s) && DistinctRuleKeys(t) && forall r :: r in s <==> r in t
    ensures multiset(s) == multiset(t)
  {
    forall r: Rule ensures multiset(s)[r] == multiset(t)[r] {
      OccursOnce(s, r, RuleName);
      OccursOnce(t, r, RuleName);
      assert r in s <==> r in multiset(s);
      assert r in t <==> r in multiset(t);
    }
  }

  /** Merging rule by rule, in batches or all at once gives the same list. */
  lemma MergeIsIncremental(a: seq<Rule>, b: seq<Rule>)
    ensures Merged(Merged(a) + b) == Merged(a + b)
  {
    MergedAreWinners(a);
    ByKeyOfDistinct(Merged(a));
    assert ByKey(Merged(a)) == ByKey(a) by {
      SameWinners(Merged(a), a);
    }
    ByKeyOfConcat(a, b);
    ByKeyOfConcat(Merged(a), b);
    MergedFromWinners(Merged(a) + b, a + b);
  }

  lemma SameWinners(a: seq<Rule>, b: seq<Rule>)
    requires forall r: Rule :: (r.key in ByKey(a) && ByKey(a)[r.key] == r)
                               <==> (r.key in ByKey(b) && ByKey(b)[r.key] == r)
    ensures ByKey(a) == ByKey(b)
  {
    KeyOrderCoversMap(a);
    KeyOrderCoversMap(b);
    forall k ensures k in ByKey(a) <==> k in ByKey(b) {
      if k in ByKey(a) { var r := ByKey(a)[k]; assert r.key == k; assert r.key in ByKey(b); }
      if k in ByKey(b) { var r := ByKey(b)[k]; assert r.key == k; assert r.key in ByKey(a); }
    }
    forall k | k in ByKey(a) ensures ByKey(a)[k] == ByKey(b)[k] {
      var r := ByKey(a)[k];
      assert r.key == k && ByKey(b)[r.key] == r;
    }
  }
}
