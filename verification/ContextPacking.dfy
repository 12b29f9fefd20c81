/** Packing optional context items into a character budget. */
module ContextPacking {
  import opened Sorting

  datatype TrustLabel = SYSTEM | TOOL_OUTPUT | REPOSITORY_CONTENT | UNTRUSTED_DATA

  datatype Item = Item(id: string, section: string, text: string, priority: int, trust: TrustLabel)

  datatype Package = Package(goal: string, items: seq<Item>, dropped: seq<string>, charCount: nat)

  /** Characters charged per optional item beyond its own. */
  const OVERHEAD := 8

  function Size(item: Item): nat {
    |item.text| + |item.id| + |item.section|
  }

  function TotalSize(items: seq<Item>): nat {
    if items == [] then 0 else TotalSize(items[..|items| - 1]) + Size(items[|items| - 1])
  }

  function PackageSize(goal: string, items: seq<Item>): nat {
    |goal| + TotalSize(items)
  }

  /** Repository content becomes untrusted data; every other label and everything else is kept. */
  function Untrusted(item: Item): (r: Item)
    ensures r.trust != REPOSITORY_CONTENT && r.(trust := item.trust) == item
    ensures r.trust != item.trust ==> item.trust == REPOSITORY_CONTENT && r.trust == UNTRUSTED_DATA
  {
    if item.trust == REPOSITORY_CONTENT then item.(trust := UNTRUSTED_DATA) else item
  }

  function UntrustedAll(items: seq<Item>): seq<Item> {
    seq(|items|, i requires 0 <= i < |items| => Untrusted(items[i]))
  }

  function RankKey(item: Item): Key {
    Key(-item.priority, item.id)
  }

  /** The optional items in the order in which they are tried. */
  function Ranked(knowledge: seq<Item>, repository: seq<Item>): seq<Item> {
    SortBy(knowledge + UntrustedAll(repository), RankKey)
  }

  datatype Packing = Packing(included: seq<Item>, dropped: seq<Item>, size: nat)

  /** The greedy pass over ranked items, starting from the size of the mandatory part. */
  function Pack(maxChars: int, start: nat, items: seq<Item>): Packing {
    if items == [] then Packing([], [], start)
    else
      var p := Pack(maxChars, start, items[..|items| - 1]);
      var item := items[|items| - 1];
      if p.size + Size(item) + OVERHEAD > maxChars then p.(dropped := p.dropped + [item])
      else p.(included := p.included + [item], size := p.size + Size(item) + OVERHEAD)
  }

  function Ids(items: seq<Item>): seq<string> {
    seq(|items|, i requires 0 <= i < |items| => items[i].id)
  }

  function Packed(maxChars: int, goal: string, mandatory: seq<Item>, ranked: seq<Item>): Package {
    var p := Pack(maxChars, PackageSize(goal, mandatory), ranked);
    Package(goal, mandatory + p.included, Ids(p.dropped), PackageSize(goal, mandatory + p.included))
  }

  method Build(maxChars: int, goal: string, governance: seq<Item>, policy: Item, error: Item,
               repository: seq<Item>, knowledge: seq<Item>)
    returns (r: Package)
    ensures r == Packed(maxChars, goal, governance + [policy, error], Ranked(knowledge, repository))
  {
    var mandatory := governance + [policy, error];
    var included := mandatory;
    var dropped: seq<string> := [];
    var start := PackageSize(goal, mandatory);
    var size := start;
    var optional := Ranked(knowledge, repository);
    var i := 0;
    while i < |optional|
      invariant 0 <= i <= |optional|
      invariant var p := Pack(maxChars, start, optional[..i]);
                included == mandatory + p.included && dropped == Ids(p.dropped) && size == p.size
    {
      assert optional[..i + 1][..i] == optional[..i];
      var item := optional[i];
      var next := size + |item.text| + |item.id| + |item.section| + OVERHEAD;
      if next > maxChars {
        dropped := dropped + [item.id];
      } else {
        included := included + [item];
        size := next;
      }
      i := i + 1;
    }
    assert optional[..i] == optional;
    r := Package(goal, included, dropped, PackageSize(goal, included));
  }

  // ----- what the greedy pass guarantees

  /** The included and the dropped items split the ranked ones. */
  lemma {:induction false} PackSplits(maxChars: int, start: nat, items: seq<Item>)
    ensures var p := Pack(maxChars, start, items);
            multiset(p.included) + multiset(p.dropped) == multiset(items)
    decreases |items|
  {
    if items != [] {
      PackSplits(maxChars, start, items[..|items| - 1]);
      SplitLast(items);
    }
  }

  /** The running size is the start plus what the included items cost. */
  lemma {:induction false} PackSize(maxChars: int, start: nat, items: seq<Item>)
    ensures var p := Pack(maxChars, start, items);
            && p.size == start + TotalSize(p.included) + OVERHEAD * |p.included|
            && (p.included != [] ==> p.size <= maxChars)
    decreases |items|
  {
    if items != [] {
      var n := |items| - 1;
      PackSize(maxChars, start, items[..n]);
      var p := Pack(maxChars, start, items[..n]);
      assert (p.included + [items[n]])[..|p.included|] == p.included;
    }
  }

  lemma {:induction false} SizeGrows(maxChars: int, start: nat, items: seq<Item>, i: nat)
    requires i <= |items|
    ensures Pack(maxChars, start, items[..i]).size <= Pack(maxChars, start, items).size
    decreases |items|
  {
    if i < |items| {
      var n := |items| - 1;
      assert items[..n][..i] == items[..i];
      SizeGrows(maxChars, start, items[..n], i);
    } else {
      assert items[..i] == items;
    }
  }

  /** Item i was taken when it was its turn. */
  predicate TakenAt(maxChars: int, start: nat, items: seq<Item>, i: nat)
    requires i < |items|
  {
    Pack(maxChars, start, items[..i]).size + |items[i].text| + |items[i].id| + |items[i].section| + 8 <= maxChars
  }

  /** The dropped items are those that did not fit when it was their turn. */
  lemma {:induction false} DroppedDidNotFit(maxChars: int, start: nat, items: seq<Item>, x: Item)
    requires x in Pack(maxChars, start, items).dropped
    ensures exists i :: 0 <= i < |items| && items[i] == x && !TakenAt(maxChars, start, items, i)
    decreases |items|
  {
    var n := |items| - 1;
    if x in Pack(maxChars, start, items[..n]).dropped {
      DroppedDidNotFit(maxChars, start, items[..n], x);
      var i :| 0 <= i < n && items[..n][i] == x && !TakenAt(maxChars, start, items[..n], i);
      assert items[..n][..i] == items[..i];
      assert items[i] == x && !TakenAt(maxChars, start, items, i);
    } else {
      assert items[n] == x && !TakenAt(maxChars, start, items, n);
    }
  }

  /** Nothing that was dropped would fit into the finished package. */
  lemma PackingIsMaximal(maxChars: int, start: nat, items: seq<Item>, x: Item)
    requires x in Pack(maxChars, start, items).dropped
    ensures Pack(maxChars, start, items).size + |x.text| + |x.id| + |x.section| + 8 > maxChars
  {
    DroppedDidNotFit(maxChars, start, items, x);
    var i :| 0 <= i < |items| && items[i] == x && !TakenAt(maxChars, start, items, i);
    SizeGrows(maxChars, start, items, i);
  }

  /** An item is passed over only for strictly smaller items of lower rank. */
  lemma PassedOverForSmaller(maxChars: int, start: nat, items: seq<Item>, i: nat, j: nat)
    requires i < j < |items|
    requires !TakenAt(maxChars, start, items, i) && TakenAt(maxChars, start, items, j)
    ensures |items[j].text| + |items[j].id| + |items[j].section|
            < |items[i].text| + |items[i].id| + |items[i].section|
  {
    SizeGrows(maxChars, start, items[..j], i);
    assert items[..j][..i] == items[..i];
  }

  /** TakenAt says exactly which ranked items are included. */
  lemma {:induction false} IncludedAreTaken(maxChars: int, start: nat, items: seq<Item>)
    ensures Pack(maxChars, start, items).included == TakenItems(maxChars, start, items)
    decreases |items|
  {
    if items != [] {
      var n := |items| - 1;
      IncludedAreTaken(maxChars, start, items[..n]);
      TakenPrefix(maxChars, start, items, n);
    }
  }

  ghost function TakenItems(maxChars: int, start: nat, items: seq<Item>): seq<Item> {
    TakenUpTo(maxChars, start, items, |items|)
  }

  ghost function TakenUpTo(maxChars: int, start: nat, items: seq<Item>, n: nat): seq<Item>
    requires n <= |items|
  {
    if n == 0 then []
    else
      TakenUpTo(maxChars, start, items, n - 1)
      + if TakenAt(maxChars, start, items, n - 1) then [items[n - 1]] else []
  }

  lemma {:induction false} TakenPrefix(maxChars: int, start: nat, items: seq<Item>, n: nat)
    requires n < |items|
    ensures TakenUpTo(maxChars, start, items[..|items| - 1], n) == TakenUpTo(maxChars, start, items, n)
    decreases n
  {
    if n > 0 {
      TakenPrefix(maxChars, start, items, n - 1);
      assert items[..|items| - 1][..n - 1] == items[..n - 1];
    }
  }

  // ----- the package

  lemma {:induction false} TotalSizeConcat(a: seq<Item>, b: seq<Item>)
    ensures TotalSize(a + b) == TotalSize(a) + TotalSize(b)
    decreases |b|
  {
    if b == [] {
      assert a + b == a;
    } else {
      assert (a + b)[..|a + b| - 1] == a + b[..|b| - 1];
      TotalSizeConcat(a, b[..|b| - 1]);
    }
  }

  /** The size of a package: the goal, and text, id and section of every item. */
  lemma PackageSizeIs(goal: string, items: seq<Item>, x: Item)
    ensures PackageSize(goal, []) == |goal|
    ensures PackageSize(goal, items + [x]) == PackageSize(goal, items) + |x.text| + |x.id| + |x.section|
  {
    assert (items + [x])[..|items|] == items;
  }

  /** Optional items are tried by falling priority, those of equal priority by id. */
  lemma RankedByPriority(knowledge: seq<Item>, repository: seq<Item>, i: nat, j: nat)
    requires i < j < |Ranked(knowledge, repository)|
    ensures var a, b := Ranked(knowledge, repository)[i], Ranked(knowledge, repository)[j];
            a.priority > b.priority || (a.priority == b.priority && StringLe(a.id, b.id))
  {
    hide SortBy;
    var all := knowledge + UntrustedAll(repository);
    SortBySorts(all, RankKey);
    assert KeyLe(RankKey(SortBy(all, RankKey)[i]), RankKey(SortBy(all, RankKey)[j]));
  }

  /** Every mandatory item is kept in front, the optional ones are split exactly, and as soon as one
      of them is included the budget holds with the overhead of all included ones. */
  lemma PackageKeepsBudget(maxChars: int, goal: string, mandatory: seq<Item>, ranked: seq<Item>)
    ensures var r := Packed(maxChars, goal, mandatory, ranked);
            var p := Pack(maxChars, PackageSize(goal, mandatory), ranked);
            && r.items == mandatory + p.included
            && r.goal == goal
            && |r.dropped| == |p.dropped| && (forall i :: 0 <= i < |p.dropped| ==> r.dropped[i] == p.dropped[i].id)
            && multiset(p.included) + multiset(p.dropped) == multiset(ranked)
            && r.charCount + 8 * |p.included| == p.size
            && (p.included != [] ==> r.charCount + 8 * |p.included| <= maxChars)
  {
    var start := PackageSize(goal, mandatory);
    PackSplits(maxChars, start, ranked);
    PackSize(maxChars, start, ranked);
    TotalSizeConcat(mandatory, Pack(maxChars, start, ranked).included);
  }

  /** The item is one of the repository list, its repository label replaced by the untrusted one. */
  ghost predicate ComesFromRepository(x: Item, repository: seq<Item>) {
    exists r :: r in repository && x.(trust := r.trust) == r
                && x.trust == if r.trust == REPOSITORY_CONTENT then UNTRUSTED_DATA else r.trust
  }

  lemma RankedOrigin(knowledge: seq<Item>, repository: seq<Item>, x: Item)
    requires x in multiset(Ranked(knowledge, repository))
    ensures x in knowledge || ComesFromRepository(x, repository)
  {
    hide SortBy, Ranked;
    var all := knowledge + UntrustedAll(repository);
    assert multiset(Ranked(knowledge, repository)) == multiset(all) by { RankedPermutes(knowledge, repository); }
    var j :| 0 <= j < |all| && all[j] == x;
    if j >= |knowledge| {
      assert x == Untrusted(repository[j - |knowledge|]) && repository[j - |knowledge|] in repository;
    }
  }

  /** The items tried are the knowledge items and the repository items, the latter relabelled. */
  lemma RankedPermutes(knowledge: seq<Item>, repository: seq<Item>)
    ensures multiset(Ranked(knowledge, repository)) == multiset(knowledge + UntrustedAll(repository))
    ensures |UntrustedAll(repository)| == |repository|
    ensures forall i :: 0 <= i < |repository| ==>
              var x, r := UntrustedAll(repository)[i], repository[i];
              && x.(trust := r.trust) == r
              && x.trust == if r.trust == REPOSITORY_CONTENT then UNTRUSTED_DATA else r.trust
  {
    SortBySorts(knowledge + UntrustedAll(repository), RankKey);
  }

  /** Whatever the budget lets in, repository content is never presented under a trusted label: behind
      the mandatory items every item is a knowledge item or comes relabelled from the repository. */
  lemma RepositoryIsUntrusted(maxChars: int, goal: string, mandatory: seq<Item>,
                              knowledge: seq<Item>, repository: seq<Item>, i: nat)
    requires |mandatory| <= i < |Packed(maxChars, goal, mandatory, Ranked(knowledge, repository)).items|
    ensures var x := Packed(maxChars, goal, mandatory, Ranked(knowledge, repository)).items[i];
            x in knowledge || ComesFromRepository(x, repository)
  {
    hide Ranked, Pack, ComesFromRepository, TotalSize, Ids;
    var ranked := Ranked(knowledge, repository);
    var p := Pack(maxChars, PackageSize(goal, mandatory), ranked);
    var x := p.included[i - |mandatory|];
    PackSplits(maxChars, PackageSize(goal, mandatory), ranked);
    assert x in multiset(p.included);
    RankedOrigin(knowledge, repository, x);
  }

  predicate DistinctIds(items: seq<Item>) {
    forall i, j :: 0 <= i < j < |items| ==> items[i].id != items[j].id
  }

  /** With distinct ids the package does not depend on the order of the optional items. */
  lemma InputOrderIsIrrelevant(maxChars: int, goal: string, mandatory: seq<Item>,
                               k1: seq<Item>, r1: seq<Item>, k2: seq<Item>, r2: seq<Item>)
    requires multiset(k1) == multiset(k2) && multiset(r1) == multiset(r2)
    requires DistinctIds(k1 + r1)
    ensures Packed(maxChars, goal, mandatory, Ranked(k1, r1)) == Packed(maxChars, goal, mandatory, Ranked(k2, r2))
  {
    hide Packed, SortBy;
    var a, b := k1 + UntrustedAll(r1), k2 + UntrustedAll(r2);
    assert multiset(a) == multiset(b) by { UntrustedAnyOrder(r1, r2); }
    RankingIsUnique(k1, r1);
    SortIgnoresOrder(a, b, RankKey);
  }

  lemma RankingIsUnique(knowledge: seq<Item>, repository: seq<Item>)
    requires DistinctIds(knowledge + repository)
    ensures DistinctKeys(Ranked(knowledge, repository), RankKey)
  {
    hide SortBy;
    var all := knowledge + UntrustedAll(repository);
    forall i, j | 0 <= i < j < |all| ensures RankKey(all[i]) != RankKey(all[j]) {
      assert all[i].id == (knowledge + repository)[i].id && all[j].id == (knowledge + repository)[j].id;
    }
    SortBySorts(all, RankKey);
    DistinctKeysPermute(all, SortBy(all, RankKey), RankKey);
  }

  lemma {:induction false} UntrustedAnyOrder(a: seq<Item>, b: seq<Item>)
    requires multiset(a) == multiset(b)
    ensures multiset(UntrustedAll(a)) == multiset(UntrustedAll(b))
    decreases |a|
  {
    if a == [] {
      NoElements(b);
    } else {
      var j := TakeOut(a, b);
      UntrustedAnyOrder(a[..|a| - 1], b[..j] + b[j + 1..]);
      UntrustedSplit(a, |a| - 1);
      UntrustedSplit(b, j);
      assert a[..|a| - 1] + a[|a|..] == a[..|a| - 1];
    }
  }

  lemma UntrustedSplit(items: seq<Item>, j: nat)
    requires j < |items|
    ensures multiset(UntrustedAll(items))
         == multiset(UntrustedAll(items[..j] + items[j + 1..])) + multiset{Untrusted(items[j])}
  {
    var front, back := UntrustedAll(items[..j]), UntrustedAll(items[j + 1..]);
    assert UntrustedAll(items) == front + [Untrusted(items[j])] + back;
    assert UntrustedAll(items[..j] + items[j + 1..]) == front + back;
  }
}
