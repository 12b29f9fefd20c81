/** The relation graph that the impact search walks, and what distance from the
    start set means in it. Nothing in this module mentions the search itself. */
module ImpactGraph {

  /** A row of code_symbol_relations. */
  datatype Relation = Relation(id: string, source: string, target: string, kind: string)

  /** The columns of code_symbols that the search reads. */
  datatype Symbol = Symbol(projectId: string, revision: string, path: string, name: string)

  /** One search: the relation rows in the fixed order the query returns them, the
      symbol table, the project and revision asked for, and the start symbols. */
  datatype Query = Query(
    rows: seq<Relation>,
    symbols: map<string, Symbol>,
    projectId: string,
    revision: string,
    start: set<string>)

  predicate InScope(q: Query, v: string) {
    v in q.symbols && q.symbols[v].projectId == q.projectId && q.symbols[v].revision == q.revision
  }

  /** Relations count in either direction. */
  predicate Joins(r: Relation, u: string, v: string) {
    (r.source == u && r.target == v) || (r.target == u && r.source == v)
  }

  ghost predicate Adjacent(q: Query, u: string, v: string) {
    exists r :: r in q.rows && Joins(r, u, v)
  }

  /** A walk starts in the start set and then moves along relations through symbols in scope. */
  ghost predicate IsWalk(q: Query, p: seq<string>) {
    && |p| > 0
    && p[0] in q.start
    && forall i :: 0 < i < |p| ==> InScope(q, p[i]) && Adjacent(q, p[i - 1], p[i])
  }

  ghost predicate WalkTo(q: Query, p: seq<string>, v: string, d: nat) {
    IsWalk(q, p) && |p| == d + 1 && p[d] == v
  }

  /** Some walk of d steps ends in v, and no walk of fewer steps does. */
  ghost predicate AtDistance(q: Query, v: string, d: nat) {
    && (exists p :: WalkTo(q, p, v, d))
    && forall p, e: nat :: WalkTo(q, p, v, e) ==> d <= e
  }

  /** Symbols reached by walks of at most d steps, built level by level. */
  ghost function Within(q: Query, d: nat): set<string> {
    if d == 0 then q.start
    else Within(q, d - 1) + NeighborsOf(q, Within(q, d - 1))
  }

  ghost function NeighborsOf(q: Query, from: set<string>): set<string> {
    set v | v in q.symbols && InScope(q, v) && exists u :: u in from && Adjacent(q, u, v)
  }

  ghost function Layer(q: Query, d: nat): set<string> {
    if d == 0 then q.start else Within(q, d) - Within(q, d - 1)
  }

  lemma {:induction false} WalkIsWithin(q: Query, p: seq<string>, v: string, d: nat)
    requires WalkTo(q, p, v, d)
    ensures v in Within(q, d)
    decreases d
  {
    if d > 0 {
      assert WalkTo(q, p[..d], p[d - 1], d - 1);
      WalkIsWithin(q, p[..d], p[d - 1], d - 1);
      assert Adjacent(q, p[d - 1], p[d]);
    }
  }

  lemma WalkExtends(q: Query, p: seq<string>, u: string, d: nat, v: string)
    requires WalkTo(q, p, u, d) && InScope(q, v) && Adjacent(q, u, v)
    ensures WalkTo(q, p + [v], v, d + 1)
  {
  }

  lemma {:induction false} WithinHasWalk(q: Query, v: string, d: nat) returns (p: seq<string>, e: nat)
    requires v in Within(q, d)
    ensures e <= d && WalkTo(q, p, v, e)
    decreases d
  {
    if d == 0 {
      p, e := [v], 0;
    } else if v in Within(q, d - 1) {
      p, e := WithinHasWalk(q, v, d - 1);
    } else {
      var u :| u in Within(q, d - 1) && Adjacent(q, u, v);
      var p1, e1 := WithinHasWalk(q, u, d - 1);
      p, e := p1 + [v], e1 + 1;
      WalkExtends(q, p1, u, e1, v);
    }
  }

  lemma {:induction false} WithinGrows(q: Query, d: nat, e: nat)
    requires d <= e
    ensures Within(q, d) <= Within(q, e)
    decreases e
  {
    if d < e { WithinGrows(q, d, e - 1); }
  }

  lemma WithinIsLayered(q: Query, d: nat)
    requires d > 0
    ensures Within(q, d) == Within(q, d - 1) + Layer(q, d)
  {
    WithinGrows(q, d - 1, d);
  }

  /** The layers of Within are exactly the sets of equal distance. */
  lemma LayerIsDistance(q: Query, v: string, d: nat)
    ensures v in Layer(q, d) <==> AtDistance(q, v, d)
  {
    if v in Layer(q, d) {
      var p, e := WithinHasWalk(q, v, d);
      if e < d {
        WalkIsWithin(q, p, v, e);
        WithinGrows(q, e, d - 1);
      }
      assert WalkTo(q, p, v, d);
      forall p', e': nat | WalkTo(q, p', v, e') ensures d <= e' {
        WalkIsWithin(q, p', v, e');
        if e' < d { WithinGrows(q, e', d - 1); }
      }
    }
    if AtDistance(q, v, d) {
      var p :| WalkTo(q, p, v, d);
      WalkIsWithin(q, p, v, d);
      if d > 0 && v in Within(q, d - 1) {
        var p', e' := WithinHasWalk(q, v, d - 1);
        assert false;
      }
    }
  }

  lemma LayerWithin(q: Query, v: string, d: nat, l: nat)
    requires v in Layer(q, d) && v in Within(q, l)
    ensures d <= l
  {
    if d > l { WithinGrows(q, l, d - 1); }
  }

  /** Layers do not overlap, and an empty layer ends the growth. */
  lemma LayersAreDisjoint(q: Query, v: string, d: nat, e: nat)
    requires v in Layer(q, d) && v in Layer(q, e)
    ensures d == e
  {
    LayerWithin(q, v, d, e);
    LayerWithin(q, v, e, d);
  }

  lemma EmptyLayerEndsGrowth(q: Query, d: nat)
    requires Layer(q, d) == {}
    ensures Within(q, d + 1) == Within(q, d) && Layer(q, d + 1) == {}
  {
    if d > 0 {
      WithinGrows(q, d - 1, d);
      assert Within(q, d) == Within(q, d - 1);
    }
    assert Within(q, d + 1) == Within(q, d) + NeighborsOf(q, Within(q, d));
  }
}
