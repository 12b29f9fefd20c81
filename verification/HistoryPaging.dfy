/** Offset paging through a project's governance decisions, newest first, while new decisions are
    inserted at the head and existing ones are edited between two pages. */
module HistoryPaging {
  import opened Basics

  /** A decision as listed: its id and everything else about it. */
  datatype Row = Row(id: string, body: string)

  datatype Page = Page(items: seq<Row>, hasMore: bool, nextOffset: Option<nat>)

  function Min(a: nat, b: nat): nat {
    if a < b then a else b
  }

  /** The server's answer: limit + 1 rows are fetched to see whether more follow. */
  function ServePage(rows: seq<Row>, limit: nat, offset: nat): Page {
    var fetched := rows[Min(offset, |rows|)..Min(offset + limit + 1, |rows|)];
    var items := fetched[..Min(limit, |fetched|)];
    Page(items, |fetched| > limit, if |fetched| > limit then Some(offset + |items|) else None)
  }

  // ----- the client's list

  predicate Lists(items: seq<Row>, id: string) {
    exists i :: 0 <= i < |items| && items[i].id == id
  }

  function AddRow(items: seq<Row>, row: Row): seq<Row> {
    if Lists(items, row.id) then items else items + [row]
  }

  /** items with rows added in turn, each only if its id is not listed yet. */
  function AddRows(items: seq<Row>, rows: seq<Row>): seq<Row> {
    if rows == [] then items else AddRow(AddRows(items, rows[..|rows| - 1]), rows[|rows| - 1])
  }

  method DedupeBy(items: seq<Row>) returns (result: seq<Row>)
    ensures result == AddRows([], items)
  {
    var seen: set<string> := {};
    result := [];
    var i := 0;
    while i < |items|
      invariant 0 <= i <= |items|
      invariant result == AddRows([], items[..i])
      invariant forall id :: id in seen <==> Lists(result, id)
    {
      assert items[..i + 1][..i] == items[..i];
      if items[i].id !in seen {
        ListsAppend(result, items[i]);
        seen := seen + {items[i].id};
        result := result + [items[i]];
      }
      i := i + 1;
    }
    assert items[..i] == items;
  }

  lemma ListsAppend(items: seq<Row>, row: Row)
    ensures forall id :: Lists(items + [row], id) <==> Lists(items, id) || id == row.id
  {
    forall id ensures Lists(items + [row], id) <==> Lists(items, id) || id == row.id {
      if Lists(items, id) {
        var i :| 0 <= i < |items| && items[i].id == id;
        assert (items + [row])[i].id == id;
      }
      if id == row.id { assert (items + [row])[|items|].id == id; }
      if Lists(items + [row], id) && id != row.id {
        var i :| 0 <= i < |items + [row]| && (items + [row])[i].id == id;
        assert items[i].id == id;
      }
    }
  }

  datatype History = History(items: seq<Row>, hasMore: bool, nextOffset: Option<nat>)

  predicate WantsMore(h: History) {
    h.hasMore && h.nextOffset.Some?
  }

  class HistoryList {
    var items: seq<Row>
    var hasMore: bool
    var nextOffset: Option<nat>

    constructor (page: Page)
      ensures State() == History(page.items, page.hasMore, page.nextOffset)
    {
      items, hasMore, nextOffset := page.items, page.hasMore, page.nextOffset;
    }

    function State(): History
      reads this
    {
      History(items, hasMore, nextOffset)
    }

    /** The state update after a page was received. */
    method Append(page: Page)
      modifies this
      ensures State() == History(AddRows([], old(items) + page.items), page.hasMore, page.nextOffset)
    {
      items := DedupeBy(items + page.items);
      hasMore := page.hasMore;
      nextOffset := page.nextOffset;
    }
  }

  // ----- runs

  datatype System = System(rows: seq<Row>, client: History)

  datatype Step =
    | Insert(row: Row)
    | Edit(index: nat, body: string)
    | LoadMore(delivered: bool)

  function Begin(rows: seq<Row>, limit: nat): System {
    var page := ServePage(rows, limit, 0);
    System(rows, History(page.items, page.hasMore, page.nextOffset))
  }

  /** Ids are unique, so an insertion of an existing id is refused; a failed request changes nothing. */
  function Apply(s: System, limit: nat, step: Step): System {
    match step
    case Insert(row) => if Lists(s.rows, row.id) then s else s.(rows := [row] + s.rows)
    case Edit(index, body) =>
      if index < |s.rows| then s.(rows := s.rows[index := s.rows[index].(body := body)]) else s
    case LoadMore(delivered) =>
      if delivered && WantsMore(s.client) then
        var page := ServePage(s.rows, limit, s.client.nextOffset.value);
        s.(client := History(AddRows([], s.client.items + page.items), page.hasMore, page.nextOffset))
      else s
  }

  function Run(s: System, limit: nat, steps: seq<Step>): System {
    if steps == [] then s else Apply(Run(s, limit, steps[..|steps| - 1]), limit, steps[|steps| - 1])
  }

  // ----- adding rows

  predicate UniqueIds(rows: seq<Row>) {
    forall i, j :: 0 <= i < j < |rows| ==> rows[i].id != rows[j].id
  }

  lemma {:induction false} AddRowsKeepsUnique(items: seq<Row>, rows: seq<Row>)
    requires UniqueIds(items)
    ensures UniqueIds(AddRows(items, rows)) && items <= AddRows(items, rows)
    decreases |rows|
  {
    if rows != [] { AddRowsKeepsUnique(items, rows[..|rows| - 1]); }
  }

  /** The rows at these positions: the first of every id, in order. */
  ghost predicate FirstRows(items: seq<Row>, at: seq<nat>, kept: seq<Row>) {
    && |at| == |kept|
    && (forall i :: 0 <= i < |at| ==> at[i] < |items| && items[at[i]] == kept[i])
    && (forall i, j :: 0 <= i < j < |at| ==> at[i] < at[j])
    && (forall p :: 0 <= p < |items| ==> (p in at <==> !Lists(items[..p], items[p].id)))
  }

  lemma {:induction false} DedupeListsAll(items: seq<Row>, id: string)
    ensures Lists(AddRows([], items), id) <==> Lists(items, id)
    decreases |items|
  {
    if items != [] {
      var n := |items| - 1;
      hide Lists;
      DedupeListsAll(items[..n], id);
      ListsAppend(AddRows([], items[..n]), items[n]);
      ListsAppend(items[..n], items[n]);
      DedupeListsAll(items[..n], items[n].id);
      assert items == items[..n] + [items[n]];
    }
  }

  /** Removing duplicates keeps the first row of every id, in order. */
  lemma {:induction false} DedupeKeepsFirst(items: seq<Row>) returns (at: seq<nat>)
    ensures FirstRows(items, at, AddRows([], items))
    decreases |items|
  {
    hide FirstRows, Lists;
    at := [];
    if items == [] {
      NoRows();
    } else {
      var n := |items| - 1;
      at := DedupeKeepsFirst(items[..n]);
      OneMoreRow(items, at, AddRows([], items[..n]));
      DedupeListsAll(items[..n], items[n].id);
      if !Lists(items[..n], items[n].id) { at := at + [n]; }
    }
  }

  lemma NoRows()
    ensures FirstRows([], [], [])
  {
  }

  lemma OneMoreRow(items: seq<Row>, at: seq<nat>, kept: seq<Row>)
    requires items != [] && FirstRows(items[..|items| - 1], at, kept)
    ensures var n := |items| - 1;
            if Lists(items[..n], items[n].id) then FirstRows(items, at, kept)
            else FirstRows(items, at + [n], kept + [items[n]])
  {
    var n := |items| - 1;
    forall i | 0 <= i < |at| ensures at[i] < n && items[at[i]] == kept[i] {
      assert items[..n][at[i]] == items[at[i]];
    }
    forall p | 0 <= p < n ensures p in at <==> !Lists(items[..p], items[p].id) {
      assert items[..n][..p] == items[..p] && items[..n][p] == items[p];
    }
    assert forall p :: p in at + [n] <==> p in at || p == n;
  }

  /** Dedupe of a list whose front is already unique only touches what follows. */
  lemma {:induction false} DedupeOfUnique(items: seq<Row>, rows: seq<Row>)
    requires UniqueIds(items)
    ensures AddRows([], items + rows) == AddRows(items, rows)
    decreases |items| + |rows|
  {
    if rows != [] {
      assert (items + rows)[..|items + rows| - 1] == items + rows[..|rows| - 1];
      DedupeOfUnique(items, rows[..|rows| - 1]);
    } else if items != [] {
      var n := |items| - 1;
      assert items + rows == items;
      DedupeOfUnique(items[..n], []);
      assert items[..n] + [] == items[..n];
      assert !Lists(items[..n], items[n].id);
      assert items == items[..n] + [items[n]];
    } else {
      assert items + rows == [];
    }
  }

  /** The ids of items that belong to the first snapshot, in listing order. */
  ghost function Known(items: seq<Row>, snapshot: seq<string>): seq<string> {
    if items == [] then []
    else
      var n := |items| - 1;
      Known(items[..n], snapshot) + if items[n].id in snapshot then [items[n].id] else []
  }

  ghost predicate Distinct(ids: seq<string>) {
    forall i, j :: 0 <= i < j < |ids| ==> ids[i] != ids[j]
  }

  lemma {:induction false} KnownAreListed(items: seq<Row>, snapshot: seq<string>, id: string)
    ensures id in Known(items, snapshot) <==> id in snapshot && Lists(items, id)
    decreases |items|
  {
    if items != [] {
      var n := |items| - 1;
      KnownAreListed(items[..n], snapshot, id);
      ListsAppend(items[..n], items[n]);
      assert items == items[..n] + [items[n]];
    }
  }

  /** Adding one row to a list that shows the first m decisions of the snapshot. */
  lemma AddRowKnown(items: seq<Row>, snapshot: seq<string>, m: nat, row: Row)
    requires Distinct(snapshot) && m <= |snapshot| && Known(items, snapshot) == snapshot[..m]
    requires forall j :: m < j < |snapshot| ==> row.id != snapshot[j]
    ensures var m' := if m < |snapshot| && row.id == snapshot[m] then m + 1 else m;
            Known(AddRow(items, row), snapshot) == snapshot[..m']
  {
    KnownAreListed(items, snapshot, row.id);
    assert (items + [row])[..|items|] == items;
    if row.id in snapshot {
      var j :| 0 <= j < |snapshot| && snapshot[j] == row.id;
      if j < m { assert snapshot[..m][j] == row.id; }
      if Lists(items, row.id) {
        var i :| 0 <= i < m && snapshot[..m][i] == row.id;
      }
    }
  }

  /** The server's rows are the snapshot with newer decisions in front of it. */
  ghost predicate Extends(rows: seq<Row>, snapshot: seq<string>) {
    && |snapshot| <= |rows|
    && forall j :: 0 <= j < |snapshot| ==> rows[|rows| - |snapshot| + j].id == snapshot[j]
  }

  lemma PositionOf(rows: seq<Row>, snapshot: seq<string>, k: nat, j: nat)
    requires UniqueIds(rows) && Extends(rows, snapshot) && k < |rows| && j < |snapshot| && rows[k].id == snapshot[j]
    ensures j == k - (|rows| - |snapshot|)
  {
    assert rows[|rows| - |snapshot| + j].id == snapshot[j];
  }

  lemma AddRowsLast(items: seq<Row>, rows: seq<Row>, lo: nat, hi: nat)
    requires lo < hi <= |rows|
    ensures AddRows(items, rows[lo..hi]) == AddRow(AddRows(items, rows[lo..hi - 1]), rows[hi - 1])
  {
    assert rows[lo..hi][..hi - lo - 1] == rows[lo..hi - 1];
  }

  /** Adding a stretch of the server's rows that starts no later than where the list ends moves the
      end of the list to the end of the stretch. */
  lemma {:induction false} AddStretchKnown(items: seq<Row>, rows: seq<Row>, snapshot: seq<string>,
                                           m: nat, lo: nat, hi: nat)
    requires Distinct(snapshot) && UniqueIds(rows) && Extends(rows, snapshot)
    requires m <= |snapshot| && Known(items, snapshot) == snapshot[..m]
    requires lo <= hi <= |rows| && lo <= |rows| - |snapshot| + m
    ensures Known(AddRows(items, rows[lo..hi]), snapshot) == snapshot[..Max(m, hi - (|rows| - |snapshot|))]
    decreases hi
  {
    if lo < hi {
      hide AddRows, AddRow, Known;
      AddStretchKnown(items, rows, snapshot, m, lo, hi - 1);
      AddRowsLast(items, rows, lo, hi);
      StretchStep(AddRows(items, rows[lo..hi - 1]), rows, snapshot, Max(m, hi - 1 - (|rows| - |snapshot|)), hi);
    } else {
      assert rows[lo..hi] == [];
    }
  }

  lemma StretchStep(items: seq<Row>, rows: seq<Row>, snapshot: seq<string>, m: nat, hi: nat)
    requires Distinct(snapshot) && UniqueIds(rows) && Extends(rows, snapshot)
    requires m <= |snapshot| && Known(items, snapshot) == snapshot[..m]
    requires 0 < hi <= |rows| && hi - 1 <= |rows| - |snapshot| + m
    ensures Known(AddRow(items, rows[hi - 1]), snapshot) == snapshot[..Max(m, hi - (|rows| - |snapshot|))]
  {
    hide AddRow, Known;
    var a := |rows| - |snapshot|;
    forall j | 0 <= j < |snapshot| && rows[hi - 1].id == snapshot[j] ensures j == hi - 1 - a {
      PositionOf(rows, snapshot, hi - 1, j);
    }
    AddRowKnown(items, snapshot, m, rows[hi - 1]);
    assert hi > a ==> rows[a + (hi - 1 - a)].id == snapshot[hi - 1 - a];
  }

  /** What holds between any two steps, for the decisions present at the first page. */
  ghost predicate Inv(s: System, snapshot: seq<string>) {
    var m := |Known(s.client.items, snapshot)|;
    && Distinct(snapshot) && UniqueIds(s.rows) && Extends(s.rows, snapshot)
    && UniqueIds(s.client.items)
    && m <= |snapshot| && Known(s.client.items, snapshot) == snapshot[..m]
    && if s.client.hasMore
       then s.client.nextOffset.Some? && s.client.nextOffset.value <= |s.rows| - |snapshot| + m
       else m == |snapshot|
  }

  lemma StretchOfPage(rows: seq<Row>, limit: nat, offset: nat)
    requires offset <= |rows|
    ensures var page := ServePage(rows, limit, offset);
            var hi := Min(offset + limit, |rows|);
            && page.items == rows[offset..hi]
            && (page.hasMore <==> offset + limit < |rows|)
            && page.nextOffset == if page.hasMore then Some(hi) else None
  {
    var hi := Min(offset + limit, |rows|);
    var fetched := rows[offset..Min(offset + limit + 1, |rows|)];
    assert Min(limit, |fetched|) == hi - offset;
    assert forall k :: 0 <= k < hi - offset ==> fetched[k] == rows[offset + k];
    assert fetched[..hi - offset] == rows[offset..hi];
  }

  lemma PageKeepsInv(s: System, limit: nat, snapshot: seq<string>)
    requires limit >= 1 && Inv(s, snapshot) && WantsMore(s.client)
    ensures Inv(Apply(s, limit, LoadMore(true)), snapshot)
  {
    var a := |s.rows| - |snapshot|;
    var m := |Known(s.client.items, snapshot)|;
    var offset := s.client.nextOffset.value;
    var hi := Min(offset + limit, |s.rows|);
    StretchOfPage(s.rows, limit, offset);
    DedupeOfUnique(s.client.items, s.rows[offset..hi]);
    AddRowsKeepsUnique(s.client.items, s.rows[offset..hi]);
    AddStretchKnown(s.client.items, s.rows, snapshot, m, offset, hi);
  }

  lemma ListsFront(row: Row, rows: seq<Row>)
    requires UniqueIds(rows) && !Lists(rows, row.id)
    ensures UniqueIds([row] + rows)
  {
    forall j | 0 <= j < |rows| ensures rows[j].id != row.id {
    }
  }

  lemma StepKeepsInv(s: System, limit: nat, step: Step, snapshot: seq<string>)
    requires limit >= 1 && Inv(s, snapshot)
    ensures Inv(Apply(s, limit, step), snapshot)
  {
    match step
    case Insert(row) =>
      if !Lists(s.rows, row.id) { ListsFront(row, s.rows); }
    case Edit(index, body) =>
    case LoadMore(delivered) =>
      if delivered && WantsMore(s.client) { PageKeepsInv(s, limit, snapshot); }
  }

  ghost function IdsOf(rows: seq<Row>): seq<string> {
    seq(|rows|, i requires 0 <= i < |rows| => rows[i].id)
  }

  lemma BeginHolds(rows: seq<Row>, limit: nat)
    requires limit >= 1 && UniqueIds(rows)
    ensures Inv(Begin(rows, limit), IdsOf(rows))
  {
    var snapshot := IdsOf(rows);
    var hi := Min(limit, |rows|);
    StretchOfPage(rows, limit, 0);
    assert rows[0..hi] == rows[..hi];
    AddStretchKnown([], rows, snapshot, 0, 0, hi);
    DedupeOfUnique(rows[..hi], []);
    assert rows[..hi] + [] == rows[..hi];
  }

  /** In every run, each decision is listed at most once; of the decisions present at the first page
      a prefix is listed, in their order and without a gap; and once no more pages are announced all
      of them are listed. */
  lemma {:induction false} PagingIsComplete(rows: seq<Row>, limit: nat, steps: seq<Step>)
    requires limit >= 1 && UniqueIds(rows)
    ensures Inv(Run(Begin(rows, limit), limit, steps), IdsOf(rows))
    ensures var items := Run(Begin(rows, limit), limit, steps).client.items;
            && UniqueIds(items)
            && Known(items, IdsOf(rows)) <= IdsOf(rows)
            && (!Run(Begin(rows, limit), limit, steps).client.hasMore ==> Known(items, IdsOf(rows)) == IdsOf(rows))
    decreases |steps|
  {
    if steps == [] {
      BeginHolds(rows, limit);
    } else {
      var n := |steps| - 1;
      PagingIsComplete(rows, limit, steps[..n]);
      StepKeepsInv(Run(Begin(rows, limit), limit, steps[..n]), limit, steps[n], IdsOf(rows));
    }
  }

  // ----- paging comes to an end

  /** The rows asked for: one page at the beginning and one for every delivered request. */
  function Asked(limit: nat, steps: seq<Step>): nat {
    if steps == [] then limit
    else
      var n := |steps| - 1;
      Asked(limit, steps[..n]) + if steps[n] == LoadMore(true) then limit else 0
  }

  function Inserts(steps: seq<Step>): nat {
    if steps == [] then 0
    else
      var n := |steps| - 1;
      Inserts(steps[..n]) + if steps[n].Insert? then 1 else 0
  }

  /** While more is announced, the next offset is the number of rows asked for so far. */
  ghost predicate OffsetIs(s: System, asked: nat) {
    s.client.hasMore ==> asked < |s.rows| && s.client.nextOffset == Some(asked)
  }

  lemma OffsetStep(s: System, limit: nat, step: Step, asked: nat)
    requires OffsetIs(s, asked)
    ensures var s' := Apply(s, limit, step);
            && |s'.rows| <= |s.rows| + (if step.Insert? then 1 else 0)
            && OffsetIs(s', asked + if step == LoadMore(true) then limit else 0)
  {
    hide AddRows, Lists;
    if step == LoadMore(true) && WantsMore(s.client) {
      StretchOfPage(s.rows, limit, s.client.nextOffset.value);
    }
  }

  lemma {:induction false} OffsetIsAsked(rows: seq<Row>, limit: nat, steps: seq<Step>)
    ensures var s := Run(Begin(rows, limit), limit, steps);
            |s.rows| <= |rows| + Inserts(steps) && OffsetIs(s, Asked(limit, steps))
    decreases |steps|
  {
    hide Apply, OffsetIs;
    if steps == [] {
      FirstOffset(rows, limit);
    } else {
      var n := |steps| - 1;
      OffsetIsAsked(rows, limit, steps[..n]);
      OffsetStep(Run(Begin(rows, limit), limit, steps[..n]), limit, steps[n], Asked(limit, steps[..n]));
    }
  }

  lemma FirstOffset(rows: seq<Row>, limit: nat)
    ensures OffsetIs(Begin(rows, limit), limit)
  {
    StretchOfPage(rows, limit, 0);
  }

  /** As soon as as many rows were asked for as there were at first and were inserted since, however
      requests, insertions and edits alternate, all decisions present at the first page are listed. */
  lemma PagingFinishes(rows: seq<Row>, limit: nat, steps: seq<Step>)
    requires limit >= 1 && UniqueIds(rows)
    requires Asked(limit, steps) >= |rows| + Inserts(steps)
    ensures var client := Run(Begin(rows, limit), limit, steps).client;
            !client.hasMore && Known(client.items, IdsOf(rows)) == IdsOf(rows)
  {
    OffsetIsAsked(rows, limit, steps);
    PagingIsComplete(rows, limit, steps);
  }
}
