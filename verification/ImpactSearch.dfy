/** The bounded level-by-level impact search: its executable form, the fold it
    computes, and what the reported symbols mean in the relation graph. */
module ImpactSearch {
  import opened Basics
  import opened ImpactGraph
  import Dedupe

  /** One reported symbol: its id, the level it was found on and the row that led to it. */
  datatype Hit = Hit(id: string, depth: nat, via: Relation)

  /** The state of the row loop of one level. */
  datatype Scan = Scan(seen: set<string>, next: set<string>, hits: seq<Hit>, truncated: bool)

  /** The state between two levels. */
  datatype Search = Search(frontier: set<string>, seen: set<string>, hits: seq<Hit>, truncated: bool)

  predicate Incident(r: Relation, frontier: set<string>) {
    r.source in frontier || r.target in frontier
  }

  function Neighbor(r: Relation, frontier: set<string>): string {
    if r.source in frontier then r.target else r.source
  }

  /** One row: rows the query does not select change nothing. */
  function ScanRow(q: Query, frontier: set<string>, depth: nat, maxNodes: int, s: Scan, r: Relation): Scan {
    var v := Neighbor(r, frontier);
    if s.truncated || !Incident(r, frontier) || v in s.seen then s
    else if |s.seen| >= maxNodes then s.(truncated := true)
    else if !InScope(q, v) then s
    else Scan(s.seen + {v}, s.next + {v}, s.hits + [Hit(v, depth, r)], false)
  }

  function ScanRows(q: Query, frontier: set<string>, depth: nat, maxNodes: int, rows: seq<Relation>, s: Scan): Scan {
    if rows == [] then s
    else
      var n := |rows| - 1;
      ScanRow(q, frontier, depth, maxNodes, ScanRows(q, frontier, depth, maxNodes, rows[..n], s), rows[n])
  }

  /** The rows that touch the frontier, in row order. */
  function Select(rows: seq<Relation>, frontier: set<string>): seq<Relation> {
    if rows == [] then []
    else
      var n := |rows| - 1;
      Select(rows[..n], frontier) + if Incident(rows[n], frontier) then [rows[n]] else []
  }

  /** The search after d levels; a finished search stays as it is. */
  function Levels(q: Query, maxNodes: int, d: nat): Search {
    if d == 0 then Search(q.start, q.start, [], false)
    else
      var p := Levels(q, maxNodes, d - 1);
      if p.truncated || p.frontier == {} then p else NextLevel(q, maxNodes, d, p)
  }

  function NextLevel(q: Query, maxNodes: int, d: nat, p: Search): Search {
    var s := ScanRows(q, p.frontier, d, maxNodes, q.rows, Scan(p.seen, {}, p.hits, false));
    Search(s.next, s.seen, s.hits, s.truncated)
  }

  function Run(q: Query, maxNodes: int, maxDepth: int): Search {
    Levels(q, maxNodes, if maxDepth < 0 then 0 else maxDepth)
  }

  // ----- one level, against any set of symbols already seen

  /** Row r joins v to a symbol of front. */
  predicate LeadsTo(front: set<string>, r: Relation, v: string) {
    (r.source in front && r.target == v) || (r.target in front && r.source == v)
  }

  /** h is the first of the rows that lead to its symbol from front. */
  ghost predicate FirstRow(rows: seq<Relation>, front: set<string>, h: Hit, k: nat) {
    && k < |rows|
    && rows[k] == h.via
    && LeadsTo(front, rows[k], h.id)
    && forall j :: 0 <= j < k ==> !LeadsTo(front, rows[j], h.id)
  }

  ghost predicate ByFirstRow(rows: seq<Relation>, front: set<string>, h: Hit) {
    exists k: nat :: FirstRow(rows, front, h, k)
  }

  ghost function Ids(hits: seq<Hit>): set<string> {
    set h | h in hits :: h.id
  }

  ghost predicate Distinct(hits: seq<Hit>) {
    forall i, j :: 0 <= i < j < |hits| ==> hits[i].id != hits[j].id
  }

  /** The hits are exactly the symbols seen beyond the start set, once each, within the budget. */
  ghost predicate Accounted(start: set<string>, maxNodes: int, seen: set<string>, hits: seq<Hit>) {
    && seen == start + Ids(hits)
    && |seen| == |start| + |hits|
    && Distinct(hits)
    && |seen| <= Max(|start|, maxNodes)
  }

  /** The hits that a level adds to those it was entered with. */
  ghost predicate LevelHits(q: Query, front: set<string>, d: nat, next: set<string>, before: seq<Hit>, hits: seq<Hit>) {
    && before <= hits
    && Ids(hits[|before|..]) == next
    && forall i :: |before| <= i < |hits| ==> hits[i].depth == d && ByFirstRow(q.rows, front, hits[i])
  }

  /** Everything the first i rows lead to from front is in seen. */
  ghost predicate Covered(q: Query, front: set<string>, i: nat, seen: set<string>)
    requires i <= |q.rows|
  {
    forall j, v :: 0 <= j < i && InScope(q, v) && LeadsTo(front, q.rows[j], v) ==> v in seen
  }

  /** The symbols seen are those seen before the level and, apart from them, its finds in scope. */
  ghost predicate SeenSplit(q: Query, before: set<string>, next: set<string>, seen: set<string>) {
    && seen == before + next
    && before !! next
    && forall v :: v in next ==> InScope(q, v)
  }

  ghost predicate MidLevel(q: Query, maxNodes: int, d: nat, p: Search, i: nat, s: Scan)
    requires i <= |q.rows|
  {
    && SeenSplit(q, p.seen, s.next, s.seen)
    && Accounted(q.start, maxNodes, s.seen, s.hits)
    && LevelHits(q, p.frontier, d, s.next, p.hits, s.hits)
    && (s.truncated ==> |s.seen| >= maxNodes)
    && (!s.truncated ==> Covered(q, p.frontier, i, s.seen))
  }

  lemma {:induction false} ScanKeepsMidLevel(q: Query, maxNodes: int, d: nat, p: Search, i: nat)
    requires i <= |q.rows| && p.frontier <= p.seen
    requires Accounted(q.start, maxNodes, p.seen, p.hits)
    ensures MidLevel(q, maxNodes, d, p, i,
                     ScanRows(q, p.frontier, d, maxNodes, q.rows[..i], Scan(p.seen, {}, p.hits, false)))
    decreases i
  {
    if i > 0 {
      assert q.rows[..i][..i - 1] == q.rows[..i - 1];
      var s := ScanRows(q, p.frontier, d, maxNodes, q.rows[..i - 1], Scan(p.seen, {}, p.hits, false));
      ScanKeepsMidLevel(q, maxNodes, d, p, i - 1);
      RowKeepsMidLevel(q, maxNodes, d, p, i, s);
    }
  }

  lemma RowKeepsMidLevel(q: Query, maxNodes: int, d: nat, p: Search, i: nat, s: Scan)
    requires 0 < i <= |q.rows| && p.frontier <= p.seen
    requires MidLevel(q, maxNodes, d, p, i - 1, s)
    ensures MidLevel(q, maxNodes, d, p, i, ScanRow(q, p.frontier, d, maxNodes, s, q.rows[i - 1]))
  {
    hide SeenSplit, Accounted, LevelHits, Covered;
    var r := q.rows[i - 1];
    var h := Hit(Neighbor(r, p.frontier), d, r);
    assert p.frontier <= s.seen by { SplitContains(q, p.seen, s.next, s.seen); }
    if s.truncated {
    } else if !Incident(r, p.frontier) || h.id in s.seen || (|s.seen| < maxNodes && !InScope(q, h.id)) {
      CoveredStep(q, p.frontier, i, s.seen, s.seen);
    } else if |s.seen| < maxNodes {
      CoveredStep(q, p.frontier, i, s.seen, s.seen + {h.id});
      SplitAdd(q, p.seen, s.next, s.seen, h.id);
      FirstLead(q, p.frontier, i, s.seen, h);
      LevelHitsAppend(q, p.frontier, d, s.next, p.hits, s.hits, h);
      NewHitIsAccounted(q.start, maxNodes, s.seen, s.hits, h);
    }
  }

  lemma SplitContains(q: Query, before: set<string>, next: set<string>, seen: set<string>)
    requires SeenSplit(q, before, next, seen)
    ensures before <= seen
  {
  }

  lemma SplitAdd(q: Query, before: set<string>, next: set<string>, seen: set<string>, v: string)
    requires SeenSplit(q, before, next, seen) && v !in seen && InScope(q, v)
    ensures SeenSplit(q, before, next + {v}, seen + {v})
  {
  }

  lemma CoveredStep(q: Query, front: set<string>, i: nat, seen: set<string>, seen': set<string>)
    requires 0 < i <= |q.rows| && Covered(q, front, i - 1, seen)
    requires front <= seen <= seen'
    requires var r := q.rows[i - 1];
             Incident(r, front) && InScope(q, Neighbor(r, front)) ==> Neighbor(r, front) in seen'
    ensures Covered(q, front, i, seen')
  {
  }

  lemma FirstLead(q: Query, front: set<string>, i: nat, seen: set<string>, h: Hit)
    requires 0 < i <= |q.rows| && Covered(q, front, i - 1, seen)
    requires h.via == q.rows[i - 1] && Incident(h.via, front)
    requires h.id == Neighbor(h.via, front) && InScope(q, h.id) && h.id !in seen
    ensures ByFirstRow(q.rows, front, h)
  {
    assert FirstRow(q.rows, front, h, i - 1);
  }

  lemma LevelHitsAppend(q: Query, front: set<string>, d: nat, next: set<string>, before: seq<Hit>,
                        hits: seq<Hit>, h: Hit)
    requires LevelHits(q, front, d, next, before, hits)
    requires h.depth == d && ByFirstRow(q.rows, front, h)
    ensures LevelHits(q, front, d, next + {h.id}, before, hits + [h])
  {
    assert (hits + [h])[|before|..] == hits[|before|..] + [h];
    IdsAppend(hits[|before|..], h);
  }

  lemma IdsAppend(hits: seq<Hit>, h: Hit)
    ensures Ids(hits + [h]) == Ids(hits) + {h.id}
  {
    assert forall g :: g in hits + [h] <==> g in hits || g == h;
  }

  lemma NewHitIsAccounted(start: set<string>, maxNodes: int, seen: set<string>, hits: seq<Hit>, h: Hit)
    requires Accounted(start, maxNodes, seen, hits)
    requires h.id !in seen && |seen| < maxNodes
    ensures Accounted(start, maxNodes, seen + {h.id}, hits + [h])
  {
    IdsAppend(hits, h);
    assert forall i :: 0 <= i < |hits| ==> hits[i].id in Ids(hits);
  }

  // ----- levels are the sets of equal distance

  /** The search stopped inside level l: all nearer levels are complete and the budget is used up. */
  ghost predicate CutAt(q: Query, maxNodes: int, d: nat, s: Search, l: nat) {
    && 0 < l <= d
    && Within(q, l - 1) <= s.seen <= Within(q, l)
    && |s.seen| >= maxNodes
  }

  ghost predicate Correct(q: Query, maxNodes: int, d: nat, s: Search) {
    && Accounted(q.start, maxNodes, s.seen, s.hits)
    && if s.truncated then exists l :: CutAt(q, maxNodes, d, s, l)
       else s.seen == Within(q, d) && s.frontier == Layer(q, d)
  }

  lemma NextIsLayer(q: Query, maxNodes: int, d: nat, p: Search, s: Scan)
    requires d > 0 && p.seen == Within(q, d - 1) && p.frontier == Layer(q, d - 1)
    requires MidLevel(q, maxNodes, d, p, |q.rows|, s)
    ensures s.next <= Layer(q, d)
    ensures !s.truncated ==> s.next == Layer(q, d)
  {
    forall v | v in s.next ensures v in Layer(q, d) {
      var i :| |p.hits| <= i < |s.hits| && s.hits[i].id == v;
      assert ByFirstRow(q.rows, p.frontier, s.hits[i]);
      var k: nat :| FirstRow(q.rows, p.frontier, s.hits[i], k);
      JoinedFromLayer(q, d, q.rows[k], v);
    }
    if !s.truncated {
      forall v | v in Layer(q, d) ensures v in s.next {
        var j := LedFromLayer(q, d, v);
        assert LeadsTo(p.frontier, q.rows[j], v);
      }
    }
  }

  lemma JoinedFromLayer(q: Query, d: nat, r: Relation, v: string)
    requires d > 0 && r in q.rows && LeadsTo(Layer(q, d - 1), r, v)
    requires InScope(q, v) && v !in Within(q, d - 1)
    ensures v in Layer(q, d)
  {
    var u := if r.source in Layer(q, d - 1) && r.target == v then r.source else r.target;
    assert Joins(r, u, v);
    assert Adjacent(q, u, v);
    assert u in Within(q, d - 1);
  }

  lemma LedFromLayer(q: Query, d: nat, v: string) returns (j: nat)
    requires d > 0 && v in Layer(q, d)
    ensures InScope(q, v) && v !in Within(q, d - 1)
    ensures j < |q.rows| && LeadsTo(Layer(q, d - 1), q.rows[j], v)
  {
    var u :| u in Within(q, d - 1) && Adjacent(q, u, v);
    assert u in Layer(q, d - 1);
    var r :| r in q.rows && Joins(r, u, v);
    j :| 0 <= j < |q.rows| && q.rows[j] == r;
  }

  lemma {:induction false} LevelsCorrect(q: Query, maxNodes: int, d: nat)
    ensures Correct(q, maxNodes, d, Levels(q, maxNodes, d))
    decreases d
  {
    hide Correct, NextLevel;
    if d == 0 {
      StartCorrect(q, maxNodes);
    } else {
      var p := Levels(q, maxNodes, d - 1);
      LevelsCorrect(q, maxNodes, d - 1);
      if p.truncated || p.frontier == {} {
        FinishedStaysCorrect(q, maxNodes, d, p);
      } else {
        NextLevelCorrect(q, maxNodes, d, p);
      }
    }
  }

  lemma StartCorrect(q: Query, maxNodes: int)
    ensures Correct(q, maxNodes, 0, Search(q.start, q.start, [], false))
  {
  }

  lemma FinishedStaysCorrect(q: Query, maxNodes: int, d: nat, p: Search)
    requires d > 0 && Correct(q, maxNodes, d - 1, p) && (p.truncated || p.frontier == {})
    ensures Correct(q, maxNodes, d, p)
  {
    if p.truncated {
      var l :| CutAt(q, maxNodes, d - 1, p, l);
      assert CutAt(q, maxNodes, d, p, l);
    } else {
      EmptyLayerEndsGrowth(q, d - 1);
    }
  }

  lemma NextLevelScan(q: Query, maxNodes: int, d: nat, p: Search) returns (s: Scan)
    requires d > 0 && !p.truncated && Correct(q, maxNodes, d - 1, p)
    ensures NextLevel(q, maxNodes, d, p) == Search(s.next, s.seen, s.hits, s.truncated)
    ensures MidLevel(q, maxNodes, d, p, |q.rows|, s)
    ensures s.next <= Layer(q, d) && (!s.truncated ==> s.next == Layer(q, d))
  {
    s := ScanRows(q, p.frontier, d, maxNodes, q.rows, Scan(p.seen, {}, p.hits, false));
    assert MidLevel(q, maxNodes, d, p, |q.rows|, s) by {
      assert q.rows[..|q.rows|] == q.rows;
      assert p.frontier <= p.seen;
      ScanKeepsMidLevel(q, maxNodes, d, p, |q.rows|);
    }
    NextIsLayer(q, maxNodes, d, p, s);
  }

  lemma NextLevelCorrect(q: Query, maxNodes: int, d: nat, p: Search)
    requires d > 0 && !p.truncated && Correct(q, maxNodes, d - 1, p)
    ensures Correct(q, maxNodes, d, NextLevel(q, maxNodes, d, p))
  {
    hide Accounted, LevelHits, Covered, NextLevel;
    var s := NextLevelScan(q, maxNodes, d, p);
    FinishedLevelCorrect(q, maxNodes, d, s);
  }

  lemma FinishedLevelCorrect(q: Query, maxNodes: int, d: nat, s: Scan)
    requires d > 0 && s.seen == Within(q, d - 1) + s.next && s.next <= Layer(q, d)
    requires if s.truncated then |s.seen| >= maxNodes else s.next == Layer(q, d)
    requires Accounted(q.start, maxNodes, s.seen, s.hits)
    ensures Correct(q, maxNodes, d, Search(s.next, s.seen, s.hits, s.truncated))
  {
    hide Accounted, Within, Layer;
    WithinIsLayered(q, d);
    if s.truncated {
      assert CutAt(q, maxNodes, d, Search(s.next, s.seen, s.hits, s.truncated), d);
    }
  }

  lemma NextLevelHits(q: Query, maxNodes: int, d: nat)
    requires d > 0
    ensures var p, s := Levels(q, maxNodes, d - 1), Levels(q, maxNodes, d);
            s != p ==> s.frontier <= Layer(q, d) && LevelHits(q, Layer(q, d - 1), d, s.frontier, p.hits, s.hits)
  {
    hide NextLevel, SeenSplit, Accounted, LevelHits, Covered, Within, Layer;
    var p := Levels(q, maxNodes, d - 1);
    if Levels(q, maxNodes, d) != p {
      LevelsCorrect(q, maxNodes, d - 1);
      var s := NextLevelScan(q, maxNodes, d, p);
    }
  }

  /** A hit names a symbol at exactly its depth, by the first row that leads to it from one level nearer. */
  lemma {:induction false} HitIsExact(q: Query, maxNodes: int, d: nat, h: Hit)
    requires h in Levels(q, maxNodes, d).hits
    ensures 1 <= h.depth <= d && h.id in Layer(q, h.depth)
    ensures ByFirstRow(q.rows, Layer(q, h.depth - 1), h)
    decreases d
  {
    assert d > 0;
    var p, s := Levels(q, maxNodes, d - 1), Levels(q, maxNodes, d);
    if h in p.hits {
      HitIsExact(q, maxNodes, d - 1, h);
    } else {
      NextLevelHits(q, maxNodes, d);
      NewHit(q, Layer(q, d - 1), d, s.frontier, p.hits, s.hits, h);
    }
  }

  lemma NewHit(q: Query, front: set<string>, d: nat, next: set<string>, before: seq<Hit>, hits: seq<Hit>, h: Hit)
    requires LevelHits(q, front, d, next, before, hits) && h in hits && h !in before
    ensures h.depth == d && h.id in next && ByFirstRow(q.rows, front, h)
  {
    var i :| 0 <= i < |hits| && hits[i] == h;
    assert forall k :: 0 <= k < |before| ==> hits[k] == before[k] && before[k] in before;
    assert hits[|before|..][i - |before|] == h;
  }

  // ----- the main results

  ghost predicate Reports(hits: seq<Hit>, v: string, d: nat) {
    exists h :: h in hits && h.id == v && h.depth == d
  }

  /** Without truncation the reported symbols are those at distance 1 to maxDepth, once each,
      every one with its distance as depth. */
  lemma UntruncatedIsExact(q: Query, maxNodes: int, maxDepth: int)
    requires !Run(q, maxNodes, maxDepth).truncated
    ensures var hits := Run(q, maxNodes, maxDepth).hits;
            && Distinct(hits)
            && forall v, d: nat :: Reports(hits, v, d) <==> 1 <= d <= maxDepth && AtDistance(q, v, d)
  {
    var d0 := if maxDepth < 0 then 0 else maxDepth;
    var hits := Run(q, maxNodes, maxDepth).hits;
    LevelsCorrect(q, maxNodes, d0);
    forall v, d: nat
      ensures Reports(hits, v, d) <==> 1 <= d <= maxDepth && AtDistance(q, v, d)
    {
      LayerIsDistance(q, v, d);
      if Reports(hits, v, d) {
        var h :| h in hits && h.id == v && h.depth == d;
        HitIsExact(q, maxNodes, d0, h);
      }
      if 1 <= d <= maxDepth && v in Layer(q, d) {
        WithinGrows(q, d, d0);
        SeenIsReported(q, maxNodes, d0, v, d);
      }
    }
  }

  lemma SeenIsReported(q: Query, maxNodes: int, d0: nat, v: string, d: nat)
    requires v in Levels(q, maxNodes, d0).seen && d > 0 && v in Layer(q, d)
    ensures Reports(Levels(q, maxNodes, d0).hits, v, d)
  {
    hide Levels;
    assert v !in q.start by { WithinGrows(q, 0, d - 1); }
    var h := SeenHasHit(q, maxNodes, d0, v);
    HitIsExact(q, maxNodes, d0, h);
    LayersAreDisjoint(q, v, d, h.depth);
  }

  lemma SeenHasHit(q: Query, maxNodes: int, d: nat, v: string) returns (h: Hit)
    requires v in Levels(q, maxNodes, d).seen && v !in q.start
    ensures h in Levels(q, maxNodes, d).hits && h.id == v
  {
    hide Levels, CutAt;
    LevelsCorrect(q, maxNodes, d);
    h :| h in Levels(q, maxNodes, d).hits && h.id == v;
  }

  lemma HitWasSeen(q: Query, maxNodes: int, d: nat, h: Hit)
    requires h in Levels(q, maxNodes, d).hits
    ensures h.id in Levels(q, maxNodes, d).seen
  {
    hide Levels, CutAt;
    LevelsCorrect(q, maxNodes, d);
  }

  /** Nothing deeper than l is reported, and everything nearer than l is. */
  ghost predicate CompleteBelow(q: Query, hits: seq<Hit>, l: nat) {
    && (forall h :: h in hits ==> h.depth <= l)
    && forall v, d: nat :: 1 <= d < l && AtDistance(q, v, d) ==> Reports(hits, v, d)
  }

  /** With truncation every reported depth is still the distance, all levels nearer than the one
      cut short are complete, and the budget is exactly used up. */
  lemma TruncatedIsHonest(q: Query, maxNodes: int, maxDepth: int)
    requires Run(q, maxNodes, maxDepth).truncated
    ensures var hits := Run(q, maxNodes, maxDepth).hits;
            && Distinct(hits)
            && (forall h :: h in hits ==> AtDistance(q, h.id, h.depth))
            && |q.start| + |hits| == Max(|q.start|, maxNodes)
            && exists l: nat :: 1 <= l <= maxDepth && CompleteBelow(q, hits, l)
  {
    var s := Run(q, maxNodes, maxDepth);
    assert maxDepth > 0;
    LevelsCorrect(q, maxNodes, maxDepth);
    forall h | h in s.hits ensures AtDistance(q, h.id, h.depth) {
      HitIsExact(q, maxNodes, maxDepth, h);
      LayerIsDistance(q, h.id, h.depth);
    }
    var l: nat :| CutAt(q, maxNodes, maxDepth, s, l);
    CutIsComplete(q, maxNodes, maxDepth, l);
  }

  lemma CutIsComplete(q: Query, maxNodes: int, d0: nat, l: nat)
    requires CutAt(q, maxNodes, d0, Levels(q, maxNodes, d0), l)
    ensures CompleteBelow(q, Levels(q, maxNodes, d0).hits, l)
  {
    hide Levels, AtDistance, Layer, Within;
    var s := Levels(q, maxNodes, d0);
    forall h | h in s.hits ensures h.depth <= l {
      HitIsExact(q, maxNodes, d0, h);
      HitWasSeen(q, maxNodes, d0, h);
      LayerWithin(q, h.id, h.depth, l);
    }
    forall v, d: nat | 1 <= d < l && AtDistance(q, v, d) ensures Reports(s.hits, v, d) {
      LayerIsDistance(q, v, d);
      NearerIsWithin(q, v, d, l - 1);
      SeenIsReported(q, maxNodes, d0, v, d);
    }
  }

  lemma NearerIsWithin(q: Query, v: string, d: nat, l: nat)
    requires v in Layer(q, d) && d <= l
    ensures v in Within(q, l)
  {
    WithinGrows(q, d, l);
  }

  /** Start and reported symbols together stay within the budget, unless the start set alone exceeds it. */
  lemma BudgetIsKept(q: Query, maxNodes: int, maxDepth: int)
    ensures |q.start| + |Run(q, maxNodes, maxDepth).hits| <= Max(|q.start|, maxNodes)
  {
    LevelsCorrect(q, maxNodes, if maxDepth < 0 then 0 else maxDepth);
  }

  /** Truncation is decided by the number of symbols in range, except when it equals the budget. */
  lemma TruncationThreshold(q: Query, maxNodes: int, maxDepth: nat)
    ensures |Within(q, maxDepth)| < maxNodes ==> !Run(q, maxNodes, maxDepth).truncated
    ensures |Within(q, maxDepth)| > Max(|q.start|, maxNodes) ==> Run(q, maxNodes, maxDepth).truncated
  {
    LevelsCorrect(q, maxNodes, maxDepth);
    var s := Run(q, maxNodes, maxDepth);
    if s.truncated {
      var l :| CutAt(q, maxNodes, maxDepth, s, l);
      WithinGrows(q, l, maxDepth);
      SubsetSize(s.seen, Within(q, maxDepth));
    }
  }

  lemma {:induction false} SubsetSize<T>(a: set<T>, b: set<T>)
    requires a <= b
    ensures |a| <= |b|
  {
    if a != {} {
      var x :| x in a;
      SubsetSize(a - {x}, b - {x});
    }
  }

  /** At equality the flag may be set although nothing was left out: the budget is tested before
      the neighbour's project and revision are. */
  lemma TruncatedWithoutLoss()
    ensures exists q: Query, m: int, d: int ::
              Run(q, m, d).truncated && forall v, e: nat :: e > 0 ==> !AtDistance(q, v, e)
  {
    var r := Relation("r", "a", "x", "CALLS");
    var q := Query([r], map[], "p", "1", {"a"});
    assert ScanRows(q, {"a"}, 1, 1, [r], Scan({"a"}, {}, [], false)).truncated by {
      assert [r][..0] == [];
    }
    assert Levels(q, 1, 0) == Search({"a"}, {"a"}, [], false);
    assert Run(q, 1, 1) == NextLevel(q, 1, 1, Levels(q, 1, 0));
    forall v, e: nat | e > 0 ensures !AtDistance(q, v, e) {
      forall p ensures !WalkTo(q, p, v, e) {
        assert |p| == e + 1 ==> !InScope(q, p[e]);
      }
    }
  }

  // ----- exactly when a search is truncated

  /** Row i of level l leads to a symbol that is not in range, and by then every symbol in range
      has been found. */
  ghost predicate IdleRow(q: Query, maxDepth: nat, l: nat, i: nat, v: string) {
    && 1 <= l <= maxDepth
    && i < |q.rows|
    && LeadsTo(Layer(q, l - 1), q.rows[i], v)
    && v !in Within(q, maxDepth)
    && forall w :: w in Within(q, maxDepth) ==> w in Within(q, l - 1) || LedBefore(q, Layer(q, l - 1), i, w)
  }

  ghost predicate LedBefore(q: Query, front: set<string>, i: nat, w: string)
    requires i <= |q.rows|
  {
    exists j :: 0 <= j < i && LeadsTo(front, q.rows[j], w)
  }

  /** The scan of the first i rows of level d, entered as p. */
  function ScanTo(q: Query, maxNodes: int, d: nat, p: Search, i: nat): Scan
    requires i <= |q.rows|
  {
    ScanRows(q, p.frontier, d, maxNodes, q.rows[..i], Scan(p.seen, {}, p.hits, false))
  }

  lemma ScanToNext(q: Query, maxNodes: int, d: nat, p: Search, i: nat)
    requires i < |q.rows|
    ensures ScanTo(q, maxNodes, d, p, i + 1)
            == ScanRow(q, p.frontier, d, maxNodes, ScanTo(q, maxNodes, d, p, i), q.rows[i])
  {
    assert q.rows[..i + 1][..i] == q.rows[..i];
  }

  /** A scan that is not stopped was not stopped earlier and has only grown. */
  lemma {:induction false} ScanGrows(q: Query, maxNodes: int, d: nat, p: Search, i: nat, k: nat)
    requires i <= k <= |q.rows| && !ScanTo(q, maxNodes, d, p, k).truncated
    ensures !ScanTo(q, maxNodes, d, p, i).truncated
    ensures ScanTo(q, maxNodes, d, p, i).seen <= ScanTo(q, maxNodes, d, p, k).seen
    decreases k
  {
    if i < k {
      ScanToNext(q, maxNodes, d, p, k - 1);
      ScanGrows(q, maxNodes, d, p, i, k - 1);
    }
  }

  lemma {:induction false} FoundWasLed(q: Query, maxNodes: int, d: nat, p: Search, i: nat, w: string)
    requires i <= |q.rows| && w in ScanTo(q, maxNodes, d, p, i).next
    ensures LedBefore(q, p.frontier, i, w)
    decreases i
  {
    if i > 0 {
      ScanToNext(q, maxNodes, d, p, i - 1);
      if w in ScanTo(q, maxNodes, d, p, i - 1).next {
        FoundWasLed(q, maxNodes, d, p, i - 1, w);
      } else {
        assert LeadsTo(p.frontier, q.rows[i - 1], w);
      }
    }
  }

  /** A stopped scan was stopped by some row, which leads to an unseen symbol at full budget. */
  lemma {:induction false} StoppingRow(q: Query, maxNodes: int, d: nat, p: Search, k: nat) returns (i: nat)
    requires k <= |q.rows| && ScanTo(q, maxNodes, d, p, k).truncated
    ensures i < k
    ensures var s := ScanTo(q, maxNodes, d, p, i);
            var v := Neighbor(q.rows[i], p.frontier);
            !s.truncated && LeadsTo(p.frontier, q.rows[i], v) && v !in s.seen && |s.seen| >= maxNodes
    decreases k
  {
    ScanToNext(q, maxNodes, d, p, k - 1);
    if ScanTo(q, maxNodes, d, p, k - 1).truncated {
      i := StoppingRow(q, maxNodes, d, p, k - 1);
    } else {
      i := k - 1;
    }
  }

  /** A truncated run was truncated in some level that it entered untruncated. */
  lemma {:induction false} StoppingLevel(q: Query, maxNodes: int, d: nat) returns (l: nat)
    requires Levels(q, maxNodes, d).truncated
    ensures 1 <= l <= d && !Levels(q, maxNodes, l - 1).truncated
    ensures ScanTo(q, maxNodes, l, Levels(q, maxNodes, l - 1), |q.rows|).truncated
    decreases d
  {
    if Levels(q, maxNodes, d - 1).truncated {
      l := StoppingLevel(q, maxNodes, d - 1);
    } else {
      l := d;
      assert q.rows[..|q.rows|] == q.rows;
    }
  }

  lemma EntersLevel(q: Query, maxNodes: int, l: nat, i: nat)
    requires l > 0 && i <= |q.rows| && !Levels(q, maxNodes, l - 1).truncated
    ensures var p := Levels(q, maxNodes, l - 1);
            && p.seen == Within(q, l - 1) && p.frontier == Layer(q, l - 1)
            && MidLevel(q, maxNodes, l, p, i, ScanTo(q, maxNodes, l, p, i))
  {
    LevelsCorrect(q, maxNodes, l - 1);
    ScanKeepsMidLevel(q, maxNodes, l, Levels(q, maxNodes, l - 1), i);
  }

  lemma {:induction false} ReachedIsInScope(q: Query, w: string, d: nat)
    requires w in Within(q, d) && w !in q.start
    ensures InScope(q, w)
    decreases d
  {
    if d > 0 && w in Within(q, d - 1) { ReachedIsInScope(q, w, d - 1); }
  }

  lemma SeenIsInRange(q: Query, maxNodes: int, maxDepth: nat, l: nat, i: nat)
    requires 1 <= l <= maxDepth && i <= |q.rows| && !Levels(q, maxNodes, l - 1).truncated
    ensures ScanTo(q, maxNodes, l, Levels(q, maxNodes, l - 1), i).seen <= Within(q, maxDepth)
  {
    hide Levels, ScanTo, Accounted, LevelHits, Covered;
    var p := Levels(q, maxNodes, l - 1);
    EntersLevel(q, maxNodes, l, i);
    WithinGrows(q, l - 1, maxDepth);
    var s := ScanTo(q, maxNodes, l, p, i);
    forall w | w in s.next ensures w in Within(q, maxDepth) {
      FoundWasLed(q, maxNodes, l, p, i, w);
      var j :| 0 <= j < i && LeadsTo(p.frontier, q.rows[j], w);
      JoinedFromLayer(q, l, q.rows[j], w);
      NearerIsWithin(q, w, l, maxDepth);
    }
  }

  lemma StoppedAtIdleRow(q: Query, maxNodes: int, maxDepth: nat) returns (l: nat, i: nat, v: string)
    requires |Within(q, maxDepth)| == Max(|q.start|, maxNodes)
    requires Levels(q, maxNodes, maxDepth).truncated
    ensures IdleRow(q, maxDepth, l, i, v)
  {
    hide Levels, ScanTo, Within, Layer, LevelHits, Covered;
    l := StoppingLevel(q, maxNodes, maxDepth);
    var p := Levels(q, maxNodes, l - 1);
    i := StoppingRow(q, maxNodes, l, p, |q.rows|);
    v := Neighbor(q.rows[i], p.frontier);
    var s := ScanTo(q, maxNodes, l, p, i);
    EntersLevel(q, maxNodes, l, i);
    SeenIsInRange(q, maxNodes, maxDepth, l, i);
    AllOfThem(s.seen, Within(q, maxDepth));
    forall w | w in s.next ensures LedBefore(q, p.frontier, i, w) {
      FoundWasLed(q, maxNodes, l, p, i, w);
    }
  }

  lemma AllOfThem<T>(a: set<T>, b: set<T>)
    requires a <= b && |a| >= |b|
    ensures a == b
  {
    SubsetSize(b - a, b);
    assert b == a + (b - a);
  }

  lemma NewInScope(q: Query, w: string, l: nat, d: nat)
    requires w in Within(q, d) && w !in Within(q, l)
    ensures InScope(q, w)
  {
    WithinGrows(q, 0, l);
    ReachedIsInScope(q, w, d);
  }

  lemma AllFoundByThen(q: Query, maxNodes: int, maxDepth: nat, l: nat, i: nat, v: string)
    requires IdleRow(q, maxDepth, l, i, v) && !Levels(q, maxNodes, l - 1).truncated
    requires !ScanTo(q, maxNodes, l, Levels(q, maxNodes, l - 1), i).truncated
    ensures ScanTo(q, maxNodes, l, Levels(q, maxNodes, l - 1), i).seen == Within(q, maxDepth)
  {
    hide Levels, ScanTo, Within, Layer, LevelHits, Accounted;
    var s := ScanTo(q, maxNodes, l, Levels(q, maxNodes, l - 1), i);
    EntersLevel(q, maxNodes, l, i);
    SeenIsInRange(q, maxNodes, maxDepth, l, i);
    forall w | w in Within(q, maxDepth) ensures w in s.seen {
      if w !in Within(q, l - 1) {
        NewInScope(q, w, l - 1, maxDepth);
      }
    }
  }

  lemma IdleRowStopsScan(q: Query, maxNodes: int, maxDepth: nat, l: nat, i: nat, v: string)
    requires |Within(q, maxDepth)| >= maxNodes
    requires IdleRow(q, maxDepth, l, i, v) && !Levels(q, maxNodes, l - 1).truncated
    ensures ScanTo(q, maxNodes, l, Levels(q, maxNodes, l - 1), |q.rows|).truncated
  {
    hide Levels, ScanTo, Within, Layer, MidLevel;
    var p := Levels(q, maxNodes, l - 1);
    if !ScanTo(q, maxNodes, l, p, |q.rows|).truncated {
      ScanGrows(q, maxNodes, l, p, i, |q.rows|);
      ScanGrows(q, maxNodes, l, p, i + 1, |q.rows|);
      AllFoundByThen(q, maxNodes, maxDepth, l, i, v);
      EntersLevel(q, maxNodes, l, i);
      WithinGrows(q, l - 1, maxDepth);
      LayerIsWithin(q, l - 1);
      ScanToNext(q, maxNodes, l, p, i);
      assert false;
    }
  }

  lemma LayerIsWithin(q: Query, d: nat)
    ensures Layer(q, d) <= Within(q, d)
  {
  }

  lemma IdleRowStops(q: Query, maxNodes: int, maxDepth: nat, l: nat, i: nat, v: string)
    requires |Within(q, maxDepth)| >= maxNodes
    requires IdleRow(q, maxDepth, l, i, v)
    ensures Levels(q, maxNodes, maxDepth).truncated
  {
    hide Within, Layer, ScanRows, MidLevel;
    assert q.rows[..|q.rows|] == q.rows;
    if !Levels(q, maxNodes, maxDepth).truncated {
      var p := Levels(q, maxNodes, l - 1);
      UntruncatedBefore(q, maxNodes, l - 1, maxDepth);
      UntruncatedBefore(q, maxNodes, l, maxDepth);
      IdleRowStopsScan(q, maxNodes, maxDepth, l, i, v);
      EntersLevel(q, maxNodes, l, 0);
      assert false;
    }
  }

  lemma UntruncatedBefore(q: Query, maxNodes: int, d: nat, e: nat)
    requires d <= e && !Levels(q, maxNodes, e).truncated
    ensures !Levels(q, maxNodes, d).truncated
  {
    if Levels(q, maxNodes, d).truncated { FinishedStays(q, maxNodes, d, e); }
  }

  /** Exactly when a search is truncated: more symbols are in range than the budget admits, or just
      as many and a row still leads elsewhere after the last of them was found. */
  lemma TruncatedExactly(q: Query, maxNodes: int, maxDepth: nat)
    ensures var size, most := |Within(q, maxDepth)|, Max(|q.start|, maxNodes);
            Run(q, maxNodes, maxDepth).truncated
            <==> size > most || (size == most && exists l: nat, i: nat, v :: IdleRow(q, maxDepth, l, i, v))
  {
    hide Levels, IdleRow, Within;
    TruncationThreshold(q, maxNodes, maxDepth);
    if |Within(q, maxDepth)| == Max(|q.start|, maxNodes) {
      if Levels(q, maxNodes, maxDepth).truncated {
        var l, i, v := StoppedAtIdleRow(q, maxNodes, maxDepth);
      }
      forall l: nat, i: nat, v | IdleRow(q, maxDepth, l, i, v) ensures Levels(q, maxNodes, maxDepth).truncated {
        IdleRowStops(q, maxNodes, maxDepth, l, i, v);
      }
    } else {
      StartIsInRange(q, maxDepth);
    }
  }

  lemma StartIsInRange(q: Query, d: nat)
    ensures |q.start| <= |Within(q, d)|
  {
    WithinGrows(q, 0, d);
    SubsetSize(q.start, Within(q, d));
  }

  // ----- growing the budget or the depth only adds at the end

  /** Two scans of the same rows under budgets m1 <= m2. */
  ghost predicate ScanPrefix(s1: Scan, s2: Scan) {
    if s1.truncated then s1.hits <= s2.hits else s1 == s2
  }

  lemma {:induction false} ScanRowsPrefix(q: Query, front: set<string>, d: nat, m1: int, m2: int,
                                          rows: seq<Relation>, s: Scan)
    requires m1 <= m2
    ensures ScanPrefix(ScanRows(q, front, d, m1, rows, s), ScanRows(q, front, d, m2, rows, s))
    ensures s.hits <= ScanRows(q, front, d, m2, rows, s).hits
    decreases |rows|
  {
    if rows != [] {
      ScanRowsPrefix(q, front, d, m1, m2, rows[..|rows| - 1], s);
    }
  }

  lemma {:induction false} LevelsPrefix(q: Query, m1: int, m2: int, d: nat)
    requires m1 <= m2
    ensures var s1, s2 := Levels(q, m1, d), Levels(q, m2, d);
            if s1.truncated then s1.hits <= s2.hits else s1 == s2
    decreases d
  {
    if d > 0 {
      LevelsPrefix(q, m1, m2, d - 1);
      var p1, p2 := Levels(q, m1, d - 1), Levels(q, m2, d - 1);
      if !p2.truncated {
        ScanRowsPrefix(q, p2.frontier, d, m1, m2, q.rows, Scan(p2.seen, {}, p2.hits, false));
      }
    }
  }

  /** A smaller node budget yields a prefix of the impacts; a sufficient one changes nothing. */
  lemma SmallerBudgetIsPrefix(q: Query, m1: int, m2: int, maxDepth: int)
    requires m1 <= m2
    ensures var r1, r2 := Run(q, m1, maxDepth), Run(q, m2, maxDepth);
            r1.hits <= r2.hits && (!r1.truncated ==> r1 == r2)
  {
    LevelsPrefix(q, m1, m2, if maxDepth < 0 then 0 else maxDepth);
  }

  /** A smaller depth limit yields exactly the impacts of the larger one up to that depth. */
  lemma {:induction false} SmallerDepthIsPrefix(q: Query, maxNodes: int, d1: nat, d2: nat)
    requires d1 <= d2
    ensures var h1, h2 := Run(q, maxNodes, d1).hits, Run(q, maxNodes, d2).hits;
            && h1 <= h2
            && (forall i :: 0 <= i < |h1| ==> h2[i].depth <= d1)
            && forall i :: |h1| <= i < |h2| ==> h2[i].depth > d1
    decreases d2
  {
    forall h | h in Levels(q, maxNodes, d1).hits ensures h.depth <= d1 {
      HitIsExact(q, maxNodes, d1, h);
    }
    if d1 < d2 {
      SmallerDepthIsPrefix(q, maxNodes, d1, d2 - 1);
      LevelAddsItsDepth(q, maxNodes, d2);
    }
  }

  lemma LevelAddsItsDepth(q: Query, maxNodes: int, d: nat)
    requires d > 0
    ensures var h1, h2 := Levels(q, maxNodes, d - 1).hits, Levels(q, maxNodes, d).hits;
            h1 <= h2 && forall i :: |h1| <= i < |h2| ==> h2[i].depth == d
  {
    NextLevelHits(q, maxNodes, d);
  }

  // ----- the analyzer

  /** An entry of the knowledge base whose status is STALE or CONFLICTING. */
  datatype DoubtfulKnowledge = DoubtfulKnowledge(id: string, projectId: string, scope: seq<string>)

  datatype Index = Index(rows: seq<Relation>, symbols: map<string, Symbol>, doubtful: seq<DoubtfulKnowledge>)

  datatype Impact = Impact(
    path: string, name: string, depth: nat, viaRelation: string,
    confidence: string, evidence: seq<string>, reason: Option<string>)

  datatype ImpactResult = ImpactResult(impacts: seq<Impact>, unknowns: seq<string>, truncated: bool)

  const CODE_INDEX_PREFIX := "code-index://"

  /** The part of a code-index reference after its last slash. */
  function SymbolId(ref: string): Option<string> {
    if CODE_INDEX_PREFIX <= ref then Some(AfterLastSlash(ref)) else None
  }

  function AfterLastSlash(s: string): (r: string)
    ensures '/' !in r && |r| <= |s| && s[|s| - |r|..] == r
    ensures |r| < |s| ==> s[|s| - |r| - 1] == '/'
  {
    if s == [] || s[|s| - 1] == '/' then [] else AfterLastSlash(s[..|s| - 1]) + [s[|s| - 1]]
  }

  function StartIds(refs: seq<string>): set<string> {
    set r | r in refs && SymbolId(r).Some? :: SymbolId(r).value
  }

  predicate Doubts(k: DoubtfulKnowledge, symbol: Symbol) {
    k.projectId == symbol.projectId && symbol.path in k.scope
  }

  /** The first doubtful entry of the symbol's project whose scope names its path. */
  function DoubtAbout(doubtful: seq<DoubtfulKnowledge>, symbol: Symbol): (r: Option<string>)
    ensures r.None? <==> forall k :: k in doubtful ==> !Doubts(k, symbol)
    ensures r.Some? ==> exists i :: 0 <= i < |doubtful| && doubtful[i].id == r.value && Doubts(doubtful[i], symbol)
                                    && forall j :: 0 <= j < i ==> !Doubts(doubtful[j], symbol)
  {
    if doubtful == [] then None
    else if Doubts(doubtful[0], symbol) then Some(doubtful[0].id)
    else DoubtAbout(doubtful[1..], symbol)
  }

  function ImpactOf(index: Index, h: Hit): Impact
    requires h.id in index.symbols
  {
    var symbol := index.symbols[h.id];
    var row := "relation://" + h.via.id;
    match DoubtAbout(index.doubtful, symbol)
    case Some(id) =>
      Impact(symbol.path, symbol.name, h.depth, h.via.kind, "uncertain", [row, "knowledge://" + id],
             Some("stale_knowledge"))
    case None => Impact(symbol.path, symbol.name, h.depth, h.via.kind, "confirmed", [row], None)
  }

  function Warning(impact: Impact): seq<string> {
    if impact.reason.Some? then [impact.path + ":" + impact.reason.value] else []
  }

  /** The warnings raised by a list of impacts, in order. */
  function Unknowns(impacts: seq<Impact>): seq<string> {
    if impacts == [] then []
    else
      var n := |impacts| - 1;
      Unknowns(impacts[..n]) + Warning(impacts[n])
  }

  function QueryOf(index: Index, projectId: string, revision: string, refs: seq<string>): Query {
    Query(index.rows, index.symbols, projectId, revision, StartIds(refs))
  }

  /** The impacts are the rendered hits of the run, in the same order. */
  ghost predicate Renders(index: Index, hits: seq<Hit>, impacts: seq<Impact>) {
    && |impacts| == |hits|
    && forall i :: 0 <= i < |hits| ==> hits[i].id in index.symbols && impacts[i] == ImpactOf(index, hits[i])
  }

  lemma {:induction false} ScanOfSelected(q: Query, front: set<string>, d: nat, m: int, rows: seq<Relation>, s: Scan)
    ensures ScanRows(q, front, d, m, Select(rows, front), s) == ScanRows(q, front, d, m, rows, s)
    decreases |rows|
  {
    if rows != [] {
      var n := |rows| - 1;
      ScanOfSelected(q, front, d, m, rows[..n], s);
      if Incident(rows[n], front) {
        assert Select(rows, front)[..|Select(rows, front)| - 1] == Select(rows[..n], front);
      } else {
        assert Select(rows, front) == Select(rows[..n], front);
      }
    }
  }

  lemma {:induction false} FinishedStays(q: Query, maxNodes: int, d: nat, e: nat)
    requires d <= e && (Levels(q, maxNodes, d).truncated || Levels(q, maxNodes, d).frontier == {})
    ensures Levels(q, maxNodes, e) == Levels(q, maxNodes, d)
    decreases e
  {
    if d < e { FinishedStays(q, maxNodes, d, e - 1); }
  }

  lemma {:induction false} SelectedIsIncident(rows: seq<Relation>, front: set<string>, i: nat)
    requires i < |Select(rows, front)|
    ensures Incident(Select(rows, front)[i], front)
    decreases |rows|
  {
    var n := |rows| - 1;
    if i < |Select(rows[..n], front)| { SelectedIsIncident(rows[..n], front, i); }
  }

  lemma {:induction false} StoppedScanStays(q: Query, front: set<string>, d: nat, m: int,
                                            rows: seq<Relation>, i: nat, s: Scan)
    requires i <= |rows|
    requires i == |rows| || ScanRows(q, front, d, m, rows[..i], s).truncated
    ensures ScanRows(q, front, d, m, rows, s) == ScanRows(q, front, d, m, rows[..i], s)
    decreases |rows|
  {
    if i < |rows| {
      var n := |rows| - 1;
      assert rows[..n][..i] == rows[..i];
      StoppedScanStays(q, front, d, m, rows[..n], i, s);
    } else {
      assert rows[..i] == rows;
    }
  }

  lemma RendersAppend(index: Index, hits: seq<Hit>, impacts: seq<Impact>, h: Hit)
    requires Renders(index, hits, impacts) && h.id in index.symbols
    ensures var impact := ImpactOf(index, h);
            && Renders(index, hits + [h], impacts + [impact])
            && Unknowns(impacts + [impact]) == Unknowns(impacts) + Warning(impact)
  {
    assert (impacts + [ImpactOf(index, h)])[..|impacts|] == impacts;
  }

  /** One level of the search: the row loop over the relations that touch the frontier. */
  method ExpandLevel(index: Index, q: Query, frontier: set<string>, depth: nat, maxNodes: int,
                     seen0: set<string>, impacts0: seq<Impact>, unknowns0: seq<string>, ghost hits0: seq<Hit>)
    returns (seen: set<string>, next: set<string>, impacts: seq<Impact>, unknowns: seq<string>, truncated: bool,
             ghost hits: seq<Hit>)
    requires q.rows == index.rows && q.symbols == index.symbols
    requires Renders(index, hits0, impacts0) && unknowns0 == Unknowns(impacts0)
    ensures Scan(seen, next, hits, truncated)
            == ScanRows(q, frontier, depth, maxNodes, q.rows, Scan(seen0, {}, hits0, false))
    ensures Renders(index, hits, impacts) && unknowns == Unknowns(impacts)
  {
    hide Renders, Unknowns, ImpactOf, Select;
    ghost var s0 := Scan(seen0, {}, hits0, false);
    var rows := Select(index.rows, frontier);
    seen, next, impacts, unknowns, truncated, hits := seen0, {}, impacts0, unknowns0, false, hits0;
    var i := 0;
    while i < |rows| && !truncated
      invariant 0 <= i <= |rows|
      invariant Scan(seen, next, hits, truncated) == ScanRows(q, frontier, depth, maxNodes, rows[..i], s0)
      invariant Renders(index, hits, impacts) && unknowns == Unknowns(impacts)
    {
      var relation := rows[i];
      SelectedIsIncident(index.rows, frontier, i);
      assert rows[..i + 1][..i] == rows[..i];
      var neighbor := if relation.source in frontier then relation.target else relation.source;
      if neighbor in seen {
      } else if |seen| >= maxNodes {
        truncated := true;
      } else if InScope(q, neighbor) {
        var hit := Hit(neighbor, depth, relation);
        var impact := ImpactOf(index, hit);
        unknowns := unknowns + Warning(impact);
        RendersAppend(index, hits, impacts, hit);
        impacts := impacts + [impact];
        seen := seen + {neighbor};
        next := next + {neighbor};
        hits := hits + [hit];
      }
      i := i + 1;
    }
    StoppedScanStays(q, frontier, depth, maxNodes, rows, i, s0);
    ScanOfSelected(q, frontier, depth, maxNodes, index.rows, s0);
  }

  // ----- what a report says, in terms of rows, symbols and references

  /** The reference names the symbol by what follows its last slash. */
  ghost predicate Names(ref: string, v: string) {
    "code-index://" <= ref && '/' !in v && exists front :: ref == front + "/" + v
  }

  ghost predicate Connects(r: Relation, u: string, v: string) {
    (r.source == u && r.target == v) || (r.source == v && r.target == u)
  }

  /** The symbol is in the index under the project and revision asked for. */
  ghost predicate Belongs(index: Index, projectId: string, revision: string, v: string) {
    && v in index.symbols
    && index.symbols[v].projectId == projectId
    && index.symbols[v].revision == revision
  }

  ghost predicate Linked(index: Index, u: string, v: string) {
    exists r :: r in index.rows && Connects(r, u, v)
  }

  /** A chain of rows from a symbol that some reference names, through symbols that belong. */
  ghost predicate Chain(index: Index, projectId: string, revision: string, refs: seq<string>, p: seq<string>) {
    && p != []
    && (exists ref :: ref in refs && Names(ref, p[0]))
    && forall i :: 0 < i < |p| ==>
         Belongs(index, projectId, revision, p[i]) && Linked(index, p[i - 1], p[i])
  }

  /** The shortest chain to v has d steps. */
  ghost predicate Distance(index: Index, projectId: string, revision: string, refs: seq<string>, v: string, d: nat) {
    && (exists p :: Chain(index, projectId, revision, refs, p) && |p| == d + 1 && p[d] == v)
    && forall p :: Chain(index, projectId, revision, refs, p) && p[|p| - 1] == v ==> |p| >= d + 1
  }

  /** Row k joins v to a symbol one step nearer, and no earlier row does. */
  ghost predicate FirstRowTo(index: Index, projectId: string, revision: string, refs: seq<string>,
                             v: string, d: nat, k: nat) {
    && d > 0 && k < |index.rows|
    && (exists u :: Distance(index, projectId, revision, refs, u, d - 1) && Connects(index.rows[k], u, v))
    && forall j, u :: 0 <= j < k && Distance(index, projectId, revision, refs, u, d - 1)
                      ==> !Connects(index.rows[j], u, v)
  }

  /** Entry i is the first doubtful one of the symbol's project that names its path. */
  ghost predicate FirstDoubt(index: Index, symbol: Symbol, i: nat) {
    && i < |index.doubtful|
    && index.doubtful[i].projectId == symbol.projectId && symbol.path in index.doubtful[i].scope
    && forall j :: 0 <= j < i ==> !(index.doubtful[j].projectId == symbol.projectId
                                    && symbol.path in index.doubtful[j].scope)
  }

  /** The impact tells the truth about symbol v. */
  ghost predicate Tells(index: Index, projectId: string, revision: string, refs: seq<string>,
                        impact: Impact, v: string) {
    && Belongs(index, projectId, revision, v)
    && impact.path == index.symbols[v].path && impact.name == index.symbols[v].name
    && Distance(index, projectId, revision, refs, v, impact.depth)
    && impact.evidence != []
    && (exists k: nat :: FirstRowTo(index, projectId, revision, refs, v, impact.depth, k)
                         && impact.viaRelation == index.rows[k].kind
                         && impact.evidence[0] == "relation://" + index.rows[k].id)
    && TellsDoubt(index, impact, index.symbols[v])
  }

  ghost predicate TellsDoubt(index: Index, impact: Impact, symbol: Symbol) {
    if exists i: nat :: FirstDoubt(index, symbol, i) then
      && impact.confidence == "uncertain" && impact.reason == Some("stale_knowledge") && |impact.evidence| == 2
      && exists i: nat :: FirstDoubt(index, symbol, i) && impact.evidence[1] == "knowledge://" + index.doubtful[i].id
    else impact.confidence == "confirmed" && impact.reason.None? && |impact.evidence| == 1
  }

  /** The impacts tell the truth about the given symbols, one each, nearest first, within the depth
      limit; without truncation about all symbols within it. */
  ghost predicate IsReport(index: Index, projectId: string, revision: string, refs: seq<string>, maxDepth: int,
                           r: ImpactResult, ids: seq<string>) {
    && |ids| == |r.impacts|
    && (forall i, j :: 0 <= i < j < |ids| ==> ids[i] != ids[j] && r.impacts[i].depth <= r.impacts[j].depth)
    && (forall i :: 0 <= i < |ids| ==>
          Tells(index, projectId, revision, refs, r.impacts[i], ids[i]) && 1 <= r.impacts[i].depth <= maxDepth)
    && (!r.truncated ==> forall v, d: nat :: 1 <= d <= maxDepth && Distance(index, projectId, revision, refs, v, d)
                           ==> v in ids)
  }

  /** One warning for the path of every uncertain impact, in the order of the impacts. */
  ghost predicate WarnsOf(r: ImpactResult) {
    && (forall text :: text in r.unknowns
          <==> exists i :: 0 <= i < |r.impacts| && WarnedBy(r.impacts[i], text))
    && (forall i, j :: 0 <= i < j < |r.unknowns| ==> r.unknowns[i] != r.unknowns[j])
    && (forall i, j, b :: 0 <= i < j < |r.unknowns| && 0 <= b < |r.impacts| && WarnedBy(r.impacts[b], r.unknowns[j])
          ==> exists a :: 0 <= a < b && WarnedBy(r.impacts[a], r.unknowns[i]))
  }

  ghost predicate WarnedBy(impact: Impact, text: string) {
    impact.confidence == "uncertain" && text == impact.path + ":stale_knowledge"
  }

  lemma NamesSymbol(ref: string, v: string)
    ensures Names(ref, v) <==> SymbolId(ref) == Some(v)
  {
    if CODE_INDEX_PREFIX <= ref {
      var r := AfterLastSlash(ref);
      assert ref[11] == '/' && '/' in ref && ref[0..] == ref;
      assert |r| < |ref|;
      assert ref == ref[..|ref| - |r| - 1] + "/" + r;
      if '/' !in v && exists front :: ref == front + "/" + v {
        var front :| ref == front + "/" + v;
        SameTail(front, v, ref[..|ref| - |r| - 1], r, ref);
      }
    }
  }

  lemma SameTail(a: string, v: string, b: string, w: string, s: string)
    requires s == a + "/" + v == b + "/" + w && '/' !in v && '/' !in w
    ensures v == w
  {
    assert s[|a|] == '/' && s[|b|] == '/';
    assert forall k :: |a| < k < |s| ==> s[k] == v[k - |a| - 1];
    assert forall k :: |b| < k < |s| ==> s[k] == w[k - |b| - 1];
    assert |a| == |b|;
    assert v == s[|a| + 1..] && w == s[|b| + 1..];
  }

  lemma StartsByName(index: Index, projectId: string, revision: string, refs: seq<string>, v: string)
    ensures v in QueryOf(index, projectId, revision, refs).start <==> exists ref :: ref in refs && Names(ref, v)
  {
    forall ref ensures Names(ref, v) <==> SymbolId(ref) == Some(v) {
      NamesSymbol(ref, v);
    }
    if v in StartIds(refs) {
      var ref :| ref in refs && SymbolId(ref).Some? && SymbolId(ref).value == v;
      assert Names(ref, v);
    }
  }

  lemma ChainIsWalk(index: Index, projectId: string, revision: string, refs: seq<string>, p: seq<string>)
    ensures Chain(index, projectId, revision, refs, p) <==> IsWalk(QueryOf(index, projectId, revision, refs), p)
  {
    hide StartIds, Names;
    var q := QueryOf(index, projectId, revision, refs);
    if p != [] { StartsByName(index, projectId, revision, refs, p[0]); }
    forall i | 0 < i < |p|
      ensures InScope(q, p[i]) && Adjacent(q, p[i - 1], p[i])
              <==> Belongs(index, projectId, revision, p[i]) && Linked(index, p[i - 1], p[i])
    {
      AdjacentByRow(index, q, p[i - 1], p[i]);
    }
  }

  lemma AdjacentByRow(index: Index, q: Query, u: string, v: string)
    requires q.rows == index.rows
    ensures Adjacent(q, u, v) <==> Linked(index, u, v)
  {
    if Adjacent(q, u, v) {
      var r :| r in q.rows && Joins(r, u, v);
      assert Connects(r, u, v);
    }
    if r :| r in index.rows && Connects(r, u, v) {
      assert Joins(r, u, v);
    }
  }

  lemma DistanceIs(index: Index, projectId: string, revision: string, refs: seq<string>, v: string, d: nat)
    ensures Distance(index, projectId, revision, refs, v, d)
            <==> AtDistance(QueryOf(index, projectId, revision, refs), v, d)
  {
    hide Names, Belongs, Linked, IsWalk, QueryOf;
    var q := QueryOf(index, projectId, revision, refs);
    forall p ensures Chain(index, projectId, revision, refs, p) <==> IsWalk(q, p) {
      ChainIsWalk(index, projectId, revision, refs, p);
    }
    if Distance(index, projectId, revision, refs, v, d) {
      var p :| Chain(index, projectId, revision, refs, p) && |p| == d + 1 && p[d] == v;
      assert WalkTo(q, p, v, d);
    }
    if AtDistance(q, v, d) {
      var p :| WalkTo(q, p, v, d);
      forall p' | Chain(index, projectId, revision, refs, p') && p'[|p'| - 1] == v ensures |p'| >= d + 1 {
        assert WalkTo(q, p', v, |p'| - 1);
      }
    }
  }

  lemma LedIsFirstRow(index: Index, projectId: string, revision: string, refs: seq<string>, h: Hit)
    requires h.depth > 0
    requires var q := QueryOf(index, projectId, revision, refs); ByFirstRow(q.rows, Layer(q, h.depth - 1), h)
    ensures exists k: nat :: FirstRowTo(index, projectId, revision, refs, h.id, h.depth, k) && index.rows[k] == h.via
  {
    hide Distance, Layer;
    var q := QueryOf(index, projectId, revision, refs);
    var front := Layer(q, h.depth - 1);
    forall u ensures u in front <==> Distance(index, projectId, revision, refs, u, h.depth - 1) {
      LayerIsDistance(q, u, h.depth - 1);
      DistanceIs(index, projectId, revision, refs, u, h.depth - 1);
    }
    var k: nat :| FirstRow(q.rows, front, h, k);
    var u := if h.via.source in front && h.via.target == h.id then h.via.source else h.via.target;
    assert u in front && Connects(index.rows[k], u, h.id);
    forall j, w | 0 <= j < k && Distance(index, projectId, revision, refs, w, h.depth - 1)
      ensures !Connects(index.rows[j], w, h.id)
    {
      assert w in front && !LeadsTo(front, q.rows[j], h.id);
    }
    assert FirstRowTo(index, projectId, revision, refs, h.id, h.depth, k);
  }

  lemma DoubtIsFirst(index: Index, h: Hit)
    requires h.id in index.symbols
    ensures TellsDoubt(index, ImpactOf(index, h), index.symbols[h.id])
  {
    var symbol := index.symbols[h.id];
    var doubt := DoubtAbout(index.doubtful, symbol);
    if doubt.Some? {
      var i :| 0 <= i < |index.doubtful| && index.doubtful[i].id == doubt.value && Doubts(index.doubtful[i], symbol)
               && forall j :: 0 <= j < i ==> !Doubts(index.doubtful[j], symbol);
      assert FirstDoubt(index, symbol, i);
    } else {
      forall i: nat | i < |index.doubtful| ensures !FirstDoubt(index, symbol, i) {
        assert !Doubts(index.doubtful[i], symbol);
      }
    }
  }

  lemma HitTells(index: Index, projectId: string, revision: string, refs: seq<string>, maxNodes: int, d: nat, h: Hit)
    requires h in Levels(QueryOf(index, projectId, revision, refs), maxNodes, d).hits && h.id in index.symbols
    ensures Tells(index, projectId, revision, refs, ImpactOf(index, h), h.id) && 1 <= h.depth <= d
    ensures ImpactOf(index, h).depth == h.depth
  {
    hide Levels, Distance, FirstRowTo, TellsDoubt, DoubtAbout, Within, Layer;
    var q := QueryOf(index, projectId, revision, refs);
    HitIsExact(q, maxNodes, d, h);
    LayerIsDistance(q, h.id, h.depth);
    DistanceIs(index, projectId, revision, refs, h.id, h.depth);
    assert Belongs(index, projectId, revision, h.id) by { LayerInScope(q, h.id, h.depth); }
    LedIsFirstRow(index, projectId, revision, refs, h);
    DoubtIsFirst(index, h);
  }

  lemma LayerInScope(q: Query, v: string, d: nat)
    requires d > 0 && v in Layer(q, d)
    ensures InScope(q, v)
  {
  }

  lemma {:induction false} HitsAscend(q: Query, maxNodes: int, d: nat)
    ensures var hits := Levels(q, maxNodes, d).hits;
            forall i, j :: 0 <= i < j < |hits| ==> hits[i].depth <= hits[j].depth
    decreases d
  {
    if d > 0 {
      HitsAscend(q, maxNodes, d - 1);
      LevelAddsItsDepth(q, maxNodes, d);
      forall h | h in Levels(q, maxNodes, d - 1).hits ensures h.depth <= d - 1 {
        HitIsExact(q, maxNodes, d - 1, h);
      }
    }
  }

  lemma RunIsReport(index: Index, projectId: string, revision: string, refs: seq<string>, maxDepth: int, maxNodes: int,
                    r: ImpactResult)
    returns (ids: seq<string>)
    requires var run := Run(QueryOf(index, projectId, revision, refs), maxNodes, maxDepth);
             r.truncated == run.truncated && Renders(index, run.hits, r.impacts)
    ensures IsReport(index, projectId, revision, refs, maxDepth, r, ids)
  {
    hide Levels, Distance, Tells, ImpactOf, QueryOf, AtDistance;
    var q := QueryOf(index, projectId, revision, refs);
    var d := if maxDepth < 0 then 0 else maxDepth;
    var hits := Levels(q, maxNodes, d).hits;
    ids := seq(|hits|, i requires 0 <= i < |hits| => hits[i].id);
    forall i | 0 <= i < |ids|
      ensures Tells(index, projectId, revision, refs, r.impacts[i], ids[i])
      ensures r.impacts[i].depth == hits[i].depth && 1 <= hits[i].depth <= maxDepth
    {
      HitTells(index, projectId, revision, refs, maxNodes, d, hits[i]);
    }
    HitsAscend(q, maxNodes, d);
    assert Distinct(hits) by { LevelsCorrect(q, maxNodes, d); }
    if !r.truncated {
      forall v, e: nat | 1 <= e <= maxDepth && Distance(index, projectId, revision, refs, v, e) ensures v in ids {
        UntruncatedIsExact(q, maxNodes, maxDepth);
        DistanceIs(index, projectId, revision, refs, v, e);
        assert Reports(hits, v, e);
        var h :| h in hits && h.id == v;
        var i :| 0 <= i < |hits| && hits[i] == h;
        assert ids[i] == v;
      }
    }
  }

  /** The warnings come from the impacts at these positions, which are those with a reason, in order. */
  ghost predicate WarnAt(impacts: seq<Impact>, warnings: seq<string>, at: seq<nat>) {
    && |at| == |warnings|
    && (forall i :: 0 <= i < |at| ==> at[i] < |impacts| && Warning(impacts[at[i]]) == [warnings[i]])
    && (forall i, j :: 0 <= i < j < |at| ==> at[i] < at[j])
    && (forall b :: 0 <= b < |impacts| && impacts[b].reason.Some? ==> b in at)
  }

  lemma {:induction false} UnknownsAreWarnings(impacts: seq<Impact>) returns (at: seq<nat>)
    ensures WarnAt(impacts, Unknowns(impacts), at)
    decreases |impacts|
  {
    hide WarnAt;
    at := [];
    if impacts == [] {
      NoWarnings();
    } else {
      var n := |impacts| - 1;
      at := UnknownsAreWarnings(impacts[..n]);
      OneMoreWarning(impacts, Unknowns(impacts[..n]), at);
      if impacts[n].reason.Some? { at := at + [n]; }
    }
  }

  lemma NoWarnings()
    ensures WarnAt([], [], [])
  {
  }

  lemma OneMoreWarning(impacts: seq<Impact>, warnings: seq<string>, at: seq<nat>)
    requires impacts != [] && WarnAt(impacts[..|impacts| - 1], warnings, at)
    ensures var n := |impacts| - 1;
            WarnAt(impacts, warnings + Warning(impacts[n]), if impacts[n].reason.Some? then at + [n] else at)
  {
    var n := |impacts| - 1;
    forall i | 0 <= i < |at| ensures at[i] < n && Warning(impacts[at[i]]) == [warnings[i]] {
      assert impacts[..n][at[i]] == impacts[at[i]];
    }
    forall b | 0 <= b < n && impacts[b].reason.Some? ensures b in at {
      assert impacts[..n][b] == impacts[b];
    }
    if impacts[n].reason.Some? {
      AddWarning(impacts, warnings, at);
    } else {
      assert warnings + [] == warnings;
    }
  }

  lemma AddWarning(impacts: seq<Impact>, warnings: seq<string>, at: seq<nat>)
    requires impacts != [] && impacts[|impacts| - 1].reason.Some? && |at| == |warnings|
    requires forall i :: 0 <= i < |at| ==> at[i] < |impacts| - 1 && Warning(impacts[at[i]]) == [warnings[i]]
    requires forall i, j :: 0 <= i < j < |at| ==> at[i] < at[j]
    requires forall b :: 0 <= b < |impacts| - 1 && impacts[b].reason.Some? ==> b in at
    ensures WarnAt(impacts, warnings + Warning(impacts[|impacts| - 1]), at + [|impacts| - 1])
  {
    var n := |impacts| - 1;
    assert (at + [n])[|at|] == n;
    assert forall b :: b in at ==> b in at + [n];
  }

  lemma RunWarns(index: Index, hits: seq<Hit>, r: ImpactResult)
    requires Renders(index, hits, r.impacts) && r.unknowns == Dedupe.FirstOccurrences(Unknowns(r.impacts))
    ensures WarnsOf(r)
  {
    hide Unknowns, Dedupe.FirstOccurrences, Renders;
    var s := Unknowns(r.impacts);
    var at := UnknownsAreWarnings(r.impacts);
    Dedupe.SameValuesOnce(s);
    forall b | 0 <= b < |r.impacts|
      ensures forall text :: WarnedBy(r.impacts[b], text) <==> Warning(r.impacts[b]) == [text]
      ensures Warning(r.impacts[b]) != [] ==> b in at
    {
      WarnedIsWarning(index, hits, r.impacts, b);
    }
    forall text ensures text in r.unknowns <==> exists b :: 0 <= b < |r.impacts| && WarnedBy(r.impacts[b], text) {
      if text in s {
        var i :| 0 <= i < |s| && s[i] == text;
        assert WarnedBy(r.impacts[at[i]], text);
      }
      if b :| 0 <= b < |r.impacts| && WarnedBy(r.impacts[b], text) {
        var i :| 0 <= i < |at| && at[i] == b;
        assert s[i] == text;
      }
    }
    forall i, j, b | 0 <= i < j < |r.unknowns| && 0 <= b < |r.impacts| && WarnedBy(r.impacts[b], r.unknowns[j])
      ensures exists a :: 0 <= a < b && WarnedBy(r.impacts[a], r.unknowns[i])
    {
      var k :| 0 <= k < |at| && at[k] == b;
      var l := Dedupe.InFirstOccurrenceOrder(s, i, j, k);
      assert WarnedBy(r.impacts[at[l]], r.unknowns[i]);
    }
  }

  lemma WarnedIsWarning(index: Index, hits: seq<Hit>, impacts: seq<Impact>, b: nat)
    requires Renders(index, hits, impacts) && b < |impacts|
    ensures forall text :: WarnedBy(impacts[b], text) <==> Warning(impacts[b]) == [text]
    ensures Warning(impacts[b]) != [] <==> impacts[b].reason.Some?
  {
    assert impacts[b] == ImpactOf(index, hits[b]);
    var text := impacts[b].path + ":stale_knowledge";
    assert ":stale_knowledge" == ":" + "stale_knowledge";
    assert impacts[b].path + ":" + "stale_knowledge" == text;
  }

  method Expand(index: Index, projectId: string, revision: string, refs: seq<string>, maxDepth: int, maxNodes: int)
    returns (r: ImpactResult)
    ensures var run := Run(QueryOf(index, projectId, revision, refs), maxNodes, maxDepth);
            && r.truncated == run.truncated
            && Renders(index, run.hits, r.impacts)
            && r.unknowns == Dedupe.FirstOccurrences(Unknowns(r.impacts))
    ensures exists ids :: IsReport(index, projectId, revision, refs, maxDepth, r, ids)
    ensures WarnsOf(r)
  {
    var q := QueryOf(index, projectId, revision, refs);
    ghost var hits: seq<Hit> := [];
    var frontier := q.start;
    var seen := frontier;
    var impacts: seq<Impact> := [];
    var unknowns: seq<string> := [];
    var truncated := false;
    var depth := 0;
    while depth < maxDepth && frontier != {} && !truncated
      invariant 0 <= depth <= Max(0, maxDepth)
      invariant Levels(q, maxNodes, depth) == Search(frontier, seen, hits, truncated)
      invariant Renders(index, hits, impacts) && unknowns == Unknowns(impacts)
      decreases maxDepth - depth
    {
      depth := depth + 1;
      seen, frontier, impacts, unknowns, truncated, hits :=
        ExpandLevel(index, q, frontier, depth, maxNodes, seen, impacts, unknowns, hits);
    }
    if depth < maxDepth {
      FinishedStays(q, maxNodes, depth, maxDepth);
    }
    r := ImpactResult(impacts, Dedupe.FirstOccurrences(unknowns), truncated);
    ghost var ids := RunIsReport(index, projectId, revision, refs, maxDepth, maxNodes, r);
    RunWarns(index, hits, r);
  }
}
