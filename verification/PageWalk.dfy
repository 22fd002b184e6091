/** Following the next-page cursor over a table that changes between pages. */
module PageWalk {
  import opened Common
  import opened IntOrder
  import opened LogQuery

  ghost predicate IdsDecrease(rows: seq<Row>) {
    forall i, j :: 0 <= i < j < |rows| ==> rows[i].id > rows[j].id
  }

  ghost predicate EachWanted(p: Params, rows: seq<Row>, ilike: Matcher) {
    forall i :: 0 <= i < |rows| ==> Wanted(p, rows[i], ilike)
  }

  /** Which rows one page returns, and what its cursor promises about the others. */
  lemma PageFacts(t: Table, p: Params, ilike: Matcher)
    requires p.limit >= 1
    ensures var (rows, next) := Page(t, p, ilike);
            && (forall i :: 0 <= i < |rows| ==> rows[i].id in t && t[rows[i].id] == rows[i])
            && EachWanted(p, rows, ilike)
            && IdsDecrease(rows)
            && |rows| <= p.limit
            && (next != 0 ==> |rows| == p.limit && next == rows[p.limit - 1].id > 0)
  {
    var ids := Descending(WantedIds(t, p, ilike));
    assert AllWanted(t, p, ilike) == RowsOf(t, ids);
    assert forall i :: 0 <= i < |ids| ==> ids[i] in WantedIds(t, p, ilike);
  }

  /** A wanted row is on this page, or its id lies below the cursor for the next one. */
  lemma PageOrLater(t: Table, p: Params, ilike: Matcher, id: int)
    requires p.limit >= 1 && id in t && Wanted(p, t[id], ilike)
    ensures var (rows, next) := Page(t, p, ilike);
            t[id] in rows || (next > 0 && id < next)
  {
    var ids := Descending(WantedIds(t, p, ilike));
    var all := AllWanted(t, p, ilike);
    assert id in WantedIds(t, p, ilike) && id in ids;
    var i :| 0 <= i < |ids| && ids[i] == id;
    assert all[i] == t[id];
    if |all| > p.limit {
      assert all[p.limit - 1].id == ids[p.limit - 1];
      assert ids[p.limit - 1] in WantedIds(t, p, ilike);
      if i < p.limit {
        assert all[..p.limit][i] == t[id];
      }
    }
  }

  /** The cursor is 0 exactly when no wanted row is left below this page. */
  lemma NextCursorIff(t: Table, p: Params, ilike: Matcher)
    requires p.limit >= 1
    ensures var (rows, next) := Page(t, p, ilike);
            next == 0 <==> forall id :: id in t && Wanted(p, t[id], ilike) ==> t[id] in rows
  {
    var (rows, next) := Page(t, p, ilike);
    var ids := Descending(WantedIds(t, p, ilike));
    PageFacts(t, p, ilike);
    if next == 0 {
      forall id | id in t && Wanted(p, t[id], ilike)
        ensures t[id] in rows
      {
        PageOrLater(t, p, ilike, id);
      }
    } else {
      var left := ids[p.limit];
      assert left in WantedIds(t, p, ilike);
      assert next == ids[p.limit - 1] > left;
      assert t[left] !in rows;
    }
  }

  /** What the table holds when each page is fetched. */
  type History = nat -> Table

  /** The pages a client gets that follows the cursor until it is 0; page k is fetched from `h(k)`. */
  function Walk(h: History, k: nat, p: Params, ilike: Matcher): seq<seq<Row>>
    requires p.limit >= 1
    decreases if p.cursor > 0 then 0 else 1, if p.cursor > 0 then p.cursor else 0
  {
    PageFacts(h(k), p, ilike);
    var (rows, next) := Page(h(k), p, ilike);
    [rows] + if next == 0 then [] else Walk(h, k + 1, p.(cursor := next), ilike)
  }

  function AllRows(pages: seq<seq<Row>>): seq<Row> {
    FlatMap((page: seq<Row>) => page, pages)
  }

  /** The walk, one page at a time. */
  lemma WalkStep(h: History, k: nat, p: Params, ilike: Matcher)
    requires p.limit >= 1
    ensures var (rows, next) := Page(h(k), p, ilike);
            && AllRows(Walk(h, k, p, ilike)) ==
               rows + (if next == 0 then [] else AllRows(Walk(h, k + 1, p.(cursor := next), ilike)))
            && |Walk(h, k, p, ilike)| == 1 + if next == 0 then 0 else |Walk(h, k + 1, p.(cursor := next), ilike)|
  {
    var (rows, next) := Page(h(k), p, ilike);
    var rest := if next == 0 then [] else Walk(h, k + 1, p.(cursor := next), ilike);
    assert ([rows] + rest)[1..] == rest;
    if next == 0 {
      assert AllRows([]) == [];
    }
  }

  lemma DecreaseAcross(p: Params, a: seq<Row>, b: seq<Row>, bound: int, ilike: Matcher)
    requires IdsDecrease(a) && IdsDecrease(b) && EachWanted(p, a, ilike)
    requires a != [] && a[|a| - 1].id == bound > 0
    requires EachWanted(p.(cursor := bound), b, ilike)
    ensures IdsDecrease(a + b) && EachWanted(p, a + b, ilike)
  {
  }

  /** Ids strictly decrease across all pages, so no row comes twice, and every row returned is wanted. */
  lemma {:induction false} WalkDecreases(h: History, k: nat, p: Params, ilike: Matcher)
    requires p.limit >= 1
    ensures IdsDecrease(AllRows(Walk(h, k, p, ilike)))
    ensures EachWanted(p, AllRows(Walk(h, k, p, ilike)), ilike)
    decreases if p.cursor > 0 then 0 else 1, if p.cursor > 0 then p.cursor else 0
  {
    var (rows, next) := Page(h(k), p, ilike);
    PageFacts(h(k), p, ilike);
    var later := if next == 0 then [] else AllRows(Walk(h, k + 1, p.(cursor := next), ilike));
    assert AllRows(Walk(h, k, p, ilike)) == rows + later by { WalkStep(h, k, p, ilike); }
    if next == 0 {
      assert rows + later == rows;
    } else {
      WalkDecreases(h, k + 1, p.(cursor := next), ilike);
      DecreaseAcross(p, rows, later, next, ilike);
    }
  }

  /** A row that is in the table for every page of the walk and wanted is returned, whatever else changes. */
  lemma {:induction false} WalkMissesNothing(h: History, k: nat, p: Params, ilike: Matcher, row: Row)
    requires p.limit >= 1 && Wanted(p, row, ilike)
    requires forall i :: k <= i < k + |Walk(h, k, p, ilike)| ==> row.id in h(i) && h(i)[row.id] == row
    ensures row in AllRows(Walk(h, k, p, ilike))
    decreases if p.cursor > 0 then 0 else 1, if p.cursor > 0 then p.cursor else 0
  {
    var (rows, next) := Page(h(k), p, ilike);
    PageFacts(h(k), p, ilike);
    WalkStep(h, k, p, ilike);
    assert row.id in h(k) && h(k)[row.id] == row;
    PageOrLater(h(k), p, ilike, row.id);
    if row !in rows {
      WalkMissesNothing(h, k + 1, p.(cursor := next), ilike, row);
    }
  }

  // ----- a table that does not change -----

  /** The wanted rows below a page are the wanted rows of the next page's parameters. */
  lemma RowsBelowPage(t: Table, p: Params, ilike: Matcher)
    requires p.limit >= 1 && |AllWanted(t, p, ilike)| > p.limit
    ensures AllWanted(t, p, ilike)[p.limit..] ==
            AllWanted(t, p.(cursor := AllWanted(t, p, ilike)[p.limit - 1].id), ilike)
  {
    var wanted := WantedIds(t, p, ilike);
    var ids := Descending(wanted);
    var next := ids[p.limit - 1];
    assert next in wanted;
    RowsOfTail(t, ids, p.limit);
    DescendingTail(wanted, p.limit);
    WantedBelow(t, p, ilike, next);
  }

  /** Moving the cursor down to a wanted id keeps exactly the wanted ids below it. */
  lemma WantedBelow(t: Table, p: Params, ilike: Matcher, next: int)
    requires next in WantedIds(t, p, ilike)
    ensures IdsBelow(WantedIds(t, p, ilike), next) == WantedIds(t, p.(cursor := next), ilike)
  {
  }

  lemma RowsOfTail(t: Table, ids: seq<int>, n: nat)
    requires n <= |ids| && forall i :: 0 <= i < |ids| ==> ids[i] in t
    ensures forall i :: 0 <= i < |ids[n..]| ==> ids[n..][i] in t
    ensures RowsOf(t, ids)[n..] == RowsOf(t, ids[n..])
  {
  }

  function Frozen(t: Table): History {
    (k: nat) => t
  }

  /** Every page but the last holds exactly `limit` rows, and the last is empty only if it is the only one. */
  ghost predicate FullPages(pages: seq<seq<Row>>, limit: int) {
    && pages != []
    && (forall i :: 0 <= i < |pages| - 1 ==> |pages[i]| == limit)
    && |pages[|pages| - 1]| <= limit
    && (|pages| > 1 ==> pages[|pages| - 1] != [])
  }

  /**
   On a table that does not change, the pages together are all wanted rows, newest first, cut into
   full pages.
   */
  lemma {:induction false} WalkFixedTable(t: Table, k: nat, p: Params, ilike: Matcher)
    requires p.limit >= 1
    ensures AllRows(Walk(Frozen(t), k, p, ilike)) == AllWanted(t, p, ilike)
    ensures FullPages(Walk(Frozen(t), k, p, ilike), p.limit)
    decreases if p.cursor > 0 then 0 else 1, if p.cursor > 0 then p.cursor else 0
  {
    var (rows, next) := Page(t, p, ilike);
    PageFacts(t, p, ilike);
    WalkStep(Frozen(t), k, p, ilike);
    if next != 0 {
      var p' := p.(cursor := next);
      WalkFixedTable(t, k + 1, p', ilike);
      PageThenRest(t, p, ilike);
      PrependFull(rows, Walk(Frozen(t), k + 1, p', ilike), p.limit);
    }
  }

  /** All wanted rows are those of the page followed by those its cursor leads to. */
  lemma PageThenRest(t: Table, p: Params, ilike: Matcher)
    requires p.limit >= 1
    ensures var (rows, next) := Page(t, p, ilike);
            && (next == 0 ==> AllWanted(t, p, ilike) == rows)
            && (next != 0 ==> AllWanted(t, p, ilike) == rows + AllWanted(t, p.(cursor := next), ilike))
            && (next != 0 ==> AllWanted(t, p.(cursor := next), ilike) != [])
  {
    var all := AllWanted(t, p, ilike);
    if |all| > p.limit {
      RowsBelowPage(t, p, ilike);
      TakeDrop(all, p.limit);
    }
  }

  lemma PrependFull(page: seq<Row>, rest: seq<seq<Row>>, limit: int)
    requires |page| == limit && FullPages(rest, limit) && AllRows(rest) != []
    ensures FullPages([page] + rest, limit)
  {
    if |rest| == 1 {
      assert AllRows(rest) == rest[0] + AllRows(rest[1..]);
    }
  }
}
