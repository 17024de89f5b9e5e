/** Following the cursor of a repository's metrics history. Rows carry their time
    in microseconds, the cursor is a time cut down to the millisecond. */
module HistoryPages {
  import opened Prelude

  datatype Row = Row(id: nat, createdAt: nat)

  datatype Page = Page(items: seq<Row>, nextCursor: Option<nat>)

  function Ms(r: Row): nat {
    r.createdAt / 1000
  }

  /** ORDER BY createdAt DESC, id DESC. */
  predicate Precedes(a: Row, b: Row) {
    a.createdAt > b.createdAt || (a.createdAt == b.createdAt && a.id > b.id)
  }

  ghost predicate Descending(rows: seq<Row>) {
    forall i, j :: 0 <= i < j < |rows| ==> Precedes(rows[i], rows[j])
  }

  predicate Within(r: Row, cursor: Option<nat>) {
    cursor.None? || r.createdAt < cursor.value * 1000
  }

  /** The rows older than the cursor, in order. */
  function Select(rows: seq<Row>, cursor: Option<nat>): (r: seq<Row>)
    ensures forall x :: x in r <==> x in rows && Within(x, cursor)
  {
    if rows == [] then [] else (if Within(rows[0], cursor) then [rows[0]] else []) + Select(rows[1..], cursor)
  }

  lemma {:induction false} SelectDescends(rows: seq<Row>, cursor: Option<nat>)
    requires Descending(rows)
    ensures Descending(Select(rows, cursor))
  {
    if rows != [] {
      SelectDescends(rows[1..], cursor);
      assert forall x | x in rows[1..] :: Precedes(rows[0], x);
    }
  }

  function Take(xs: seq<Row>, n: nat): seq<Row> {
    if |xs| <= n then xs else xs[..n]
  }

  /** Customer API: a limit of 0 on a non-empty result reads the cursor of a row
      that does not exist and throws. */
  function ToCursorPage(rows: seq<Row>, limit: nat): Result<Page, string> {
    if |rows| <= limit then Ok(Page(rows, None))
    else if limit == 0 then Err("TypeError")
    else Ok(Page(rows[..limit], Some(Ms(rows[limit - 1]))))
  }

  /** One page over `rows`, the repository's rows in query order. */
  function List(rows: seq<Row>, cursor: Option<nat>, limit: nat): Result<Page, string> {
    ToCursorPage(Take(Select(rows, cursor), limit + 1), limit)
  }

  lemma CutTaken(all: seq<Row>, limit: nat)
    requires 1 <= limit < |all|
    ensures ToCursorPage(Take(all, limit + 1), limit) == Ok(Page(all[..limit], Some(Ms(all[limit - 1]))))
  {
    assert Take(all, limit + 1)[..limit] == all[..limit];
  }

  lemma PageShape(rows: seq<Row>, cursor: Option<nat>, limit: nat)
    requires limit >= 1 && Descending(rows)
    ensures var page := List(rows, cursor, limit);
      && page.Ok?
      && Descending(page.value.items)
      && |page.value.items| == (if |Select(rows, cursor)| <= limit then |Select(rows, cursor)| else limit)
      && (page.value.nextCursor == None <==> |Select(rows, cursor)| <= limit)
      && (forall x | x in page.value.items :: x in rows && Within(x, cursor))
      && (page.value.nextCursor == None ==> forall x | x in rows && Within(x, cursor) :: x in page.value.items)
      && (page.value.nextCursor != None ==> page.value.items != [] && CutAt(rows, cursor, page.value))
  {
    var all := Select(rows, cursor);
    SelectDescends(rows, cursor);
    if |all| > limit {
      CutTaken(all, limit);
      CutShape(rows, cursor, all, limit);
      assert forall x | x in all[..limit] :: x in all;
    } else {
      assert List(rows, cursor, limit) == Ok(Page(all, None));
    }
  }

  /** A limit of 0 throws exactly when there is a row to list. */
  lemma LimitZeroThrowsIff(rows: seq<Row>, cursor: Option<nat>)
    ensures List(rows, cursor, 0).Err? <==> exists r :: r in rows && Within(r, cursor)
    ensures List(rows, cursor, 0).Ok? ==> List(rows, cursor, 0).value == Page([], None)
  {
    var all := Select(rows, cursor);
    if r :| r in rows && Within(r, cursor) { assert r in all; }
    if all != [] { assert all[0] in all; }
  }

  /** The page's cursor is its last row's; the rest of the selection is behind it. */
  ghost predicate CutAt(rows: seq<Row>, cursor: Option<nat>, page: Page)
    requires page.items != []
  {
    var last := page.items[|page.items| - 1];
    && page.nextCursor == Some(Ms(last))
    && (forall x | x in page.items :: x == last || Precedes(x, last))
    && (forall x | x in rows && Within(x, cursor) && x !in page.items :: Precedes(last, x))
  }

  lemma CutShape(rows: seq<Row>, cursor: Option<nat>, all: seq<Row>, limit: nat)
    requires 1 <= limit < |all| && Descending(all) && forall x :: x in all <==> x in rows && Within(x, cursor)
    ensures CutAt(rows, cursor, Page(all[..limit], Some(Ms(all[limit - 1]))))
  {
    var items, last := all[..limit], all[limit - 1];
    assert items[|items| - 1] == last;
    forall x | x in items ensures x == last || Precedes(x, last) { Before(all, limit, x); }
    forall x | x in all && x !in items ensures Precedes(last, x) { After(all, limit, x); }
  }

  lemma Before(all: seq<Row>, limit: nat, x: Row)
    requires 1 <= limit <= |all| && Descending(all) && x in all[..limit]
    ensures x == all[limit - 1] || Precedes(x, all[limit - 1])
  {
    var k :| 0 <= k < limit && all[..limit][k] == x;
    assert all[k] == x;
  }

  lemma After(all: seq<Row>, limit: nat, x: Row)
    requires 1 <= limit <= |all| && Descending(all) && x in all && x !in all[..limit]
    ensures Precedes(all[limit - 1], x)
  {
    assert all == all[..limit] + all[limit..];
    var k :| 0 <= k < |all| - limit && all[limit..][k] == x;
    assert all[limit + k] == x;
  }

  lemma NextIsEarlier(rows: seq<Row>, cursor: Option<nat>, limit: nat)
    requires limit >= 1 && Descending(rows)
    ensures var page := List(rows, cursor, limit).value;
      page.nextCursor != None && cursor != None ==> page.nextCursor.value < cursor.value
  {
    PageShape(rows, cursor, limit);
    var page := List(rows, cursor, limit).value;
    if page.nextCursor != None && cursor != None {
      assert page.items[|page.items| - 1] in page.items;
    }
  }

  /** Page after page until there is no cursor: the rows that come out, and the
      last row of every page but the final one. */
  ghost function Walk(rows: seq<Row>, cursor: Option<nat>, limit: nat): (seq<Row>, set<Row>)
    requires limit >= 1 && Descending(rows)
    decreases cursor.None?, if cursor.None? then 0 else cursor.value
  {
    PageShape(rows, cursor, limit);
    NextIsEarlier(rows, cursor, limit);
    var page := List(rows, cursor, limit).value;
    if page.nextCursor == None then (page.items, {})
    else
      var (rest, ends) := Walk(rows, page.nextCursor, limit);
      (page.items + rest, ends + {page.items[|page.items| - 1]})
  }

  /** `r` follows a page's last row inside that row's millisecond. */
  ghost predicate Skipped(ends: set<Row>, r: Row) {
    exists e :: e in ends && Precedes(e, r) && Ms(e) == Ms(r)
  }

  lemma Older(last: Row, x: Row, cursor: Option<nat>)
    requires Within(last, cursor) && Within(x, Some(Ms(last)))
    ensures Within(x, cursor) && Precedes(last, x) && Ms(x) < Ms(last)
  {
  }

  /** What a walk from `cursor` may return. */
  ghost predicate Descends(rows: seq<Row>, cursor: Option<nat>, walk: (seq<Row>, set<Row>)) {
    Descending(walk.0) && forall x | x in walk.0 || x in walk.1 :: x in rows && Within(x, cursor)
  }

  /** A page in front of a descending rest of older rows. */
  lemma StepDescends(rows: seq<Row>, cursor: Option<nat>, page: Page, walk: (seq<Row>, set<Row>), last: Row)
    requires page.items != [] && last == page.items[|page.items| - 1]
    requires Descends(rows, cursor, (page.items, {})) && CutAt(rows, cursor, page)
    requires Descends(rows, page.nextCursor, walk)
    ensures Descends(rows, cursor, (page.items + walk.0, walk.1 + {last}))
  {
    assert last in page.items;
    forall x | x in walk.0 || x in walk.1 ensures Within(x, cursor) && Precedes(last, x) { Older(last, x, cursor); }
    AppendDescending(page.items, walk.0, last);
  }

  lemma {:induction false} WalkDescends(rows: seq<Row>, cursor: Option<nat>, limit: nat)
    requires limit >= 1 && Descending(rows)
    ensures Descends(rows, cursor, Walk(rows, cursor, limit))
    decreases cursor.None?, if cursor.None? then 0 else cursor.value
  {
    PageShape(rows, cursor, limit);
    NextIsEarlier(rows, cursor, limit);
    var page := List(rows, cursor, limit).value;
    assert Descends(rows, cursor, (page.items, {}));
    if page.nextCursor != None {
      WalkDescends(rows, page.nextCursor, limit);
      StepDescends(rows, cursor, page, Walk(rows, page.nextCursor, limit), page.items[|page.items| - 1]);
    }
  }

  lemma AppendDescending(a: seq<Row>, b: seq<Row>, last: Row)
    requires Descending(a) && Descending(b)
    requires forall x | x in a :: x == last || Precedes(x, last)
    requires forall x | x in b :: Precedes(last, x)
    ensures Descending(a + b)
  {
    forall i, j | 0 <= i < j < |a + b| ensures Precedes((a + b)[i], (a + b)[j]) {
      if i < |a| <= j {
        assert a[i] in a && b[j - |a|] in b;
      }
    }
  }

  /** A page cut at its last row, and what the rest of the walk adds to it. A row
      the cursor still selects is decided by the rest. */
  lemma SelectedLater(page: Page, ends: set<Row>, last: Row, r: Row)
    requires forall x | x in page.items :: x == last || Precedes(x, last)
    requires Within(r, Some(Ms(last)))
    ensures r !in page.items
    ensures Skipped(ends + {last}, r) <==> Skipped(ends, r)
  {
    if e :| e in ends + {last} && Precedes(e, r) && Ms(e) == Ms(r) {
      assert e in ends;
    }
    if e :| e in ends && Precedes(e, r) && Ms(e) == Ms(r) {
      assert e in ends + {last};
    }
  }

  /** A row in the last row's millisecond or later is decided by the page. */
  lemma DecidedHere(page: Page, ends: set<Row>, last: Row, r: Row)
    requires forall x | x in page.items :: x == last || Precedes(x, last)
    requires r !in page.items ==> Precedes(last, r)
    requires forall e | e in ends :: Within(e, Some(Ms(last)))
    requires !Within(r, Some(Ms(last)))
    ensures r !in page.items <==> Skipped(ends + {last}, r)
  {
    if e :| e in ends + {last} && Precedes(e, r) && Ms(e) == Ms(r) {
      assert e in ends ==> Within(e, Some(Ms(last)));
      assert e == last;
    }
    if r !in page.items {
      assert last in ends + {last} && Ms(last) == Ms(r);
    }
  }

  lemma {:induction false} WalkOmits(rows: seq<Row>, cursor: Option<nat>, limit: nat, r: Row)
    requires limit >= 1 && Descending(rows)
    requires r in rows && Within(r, cursor)
    ensures r !in Walk(rows, cursor, limit).0 <==> Skipped(Walk(rows, cursor, limit).1, r)
    decreases cursor.None?, if cursor.None? then 0 else cursor.value
  {
    PageShape(rows, cursor, limit);
    NextIsEarlier(rows, cursor, limit);
    var page := List(rows, cursor, limit).value;
    if page.nextCursor != None {
      var last := page.items[|page.items| - 1];
      var (rest, ends) := Walk(rows, page.nextCursor, limit);
      WalkDescends(rows, page.nextCursor, limit);
      assert Walk(rows, cursor, limit) == (page.items + rest, ends + {last});
      if Within(r, page.nextCursor) {
        WalkOmits(rows, page.nextCursor, limit, r);
        SelectedLater(page, ends, last, r);
      } else {
        DecidedHere(page, ends, last, r);
      }
    }
  }

  /** Strictly descending, so no row twice; only rows of the table; and missing
      exactly what follows a page's last row within that row's millisecond. */
  ghost predicate Traverses(rows: seq<Row>, walk: (seq<Row>, set<Row>)) {
    && Descending(walk.0)
    && (forall x | x in walk.0 || x in walk.1 :: x in rows)
    && (forall x | x in rows :: x !in walk.0 <==> Skipped(walk.1, x))
  }

  /** History traversal, exactly. That it ends is part of `Walk`. */
  lemma {:induction false} HistoryTraversal(rows: seq<Row>, limit: nat)
    requires limit >= 1 && Descending(rows)
    ensures Traverses(rows, Walk(rows, None, limit))
  {
    WalkDescends(rows, None, limit);
    forall x | x in rows ensures x !in Walk(rows, None, limit).0 <==> Skipped(Walk(rows, None, limit).1, x) {
      WalkOmits(rows, None, limit, x);
    }
  }

  // ---- Exactly when a traversal is complete ----------------------------------------------

  /** Cutting `rows` from position `k` on into pages, no boundary lies inside a
      millisecond. */
  predicate Cuts(rows: seq<Row>, k: nat, limit: nat)
    requires k <= |rows| && limit >= 1
    decreases |rows| - k
  {
    |rows| - k <= limit || (Ms(rows[k + limit - 1]) != Ms(rows[k + limit]) && Cuts(rows, k + limit, limit))
  }

  lemma {:induction false} SelectEvery(rows: seq<Row>, cursor: Option<nat>)
    requires forall x | x in rows :: Within(x, cursor)
    ensures Select(rows, cursor) == rows
  {
    if rows != [] { SelectEvery(rows[1..], cursor); }
  }

  lemma {:induction false} BehindBoundary(rows: seq<Row>, m: nat, i: nat)
    requires Descending(rows) && 1 <= m <= i < |rows| && Ms(rows[m - 1]) != Ms(rows[m])
    ensures Within(rows[i], Some(Ms(rows[m - 1])))
  {
    assert Precedes(rows[m - 1], rows[m]) && (i == m || Precedes(rows[m], rows[i]));
  }

  lemma {:induction false} BeforeBoundary(rows: seq<Row>, m: nat, i: nat)
    requires Descending(rows) && i < m <= |rows|
    ensures !Within(rows[i], Some(Ms(rows[m - 1])))
  {
    assert i == m - 1 || Precedes(rows[i], rows[m - 1]);
  }

  /** Behind a boundary between two milliseconds the cursor selects all the rest. */
  lemma {:induction false} SelectSuffix(rows: seq<Row>, m: nat)
    requires Descending(rows) && 1 <= m < |rows| && Ms(rows[m - 1]) != Ms(rows[m])
    ensures Select(rows, Some(Ms(rows[m - 1]))) == rows[m..]
  {
    var cursor := Some(Ms(rows[m - 1]));
    forall i | 0 <= i < m ensures !Within(rows[i], cursor) { BeforeBoundary(rows, m, i); }
    forall i | m <= i < |rows| ensures Within(rows[i], cursor) { BehindBoundary(rows, m, i); }
    SplitSelect(rows, cursor, m);
  }

  lemma {:induction false} SplitSelect(rows: seq<Row>, cursor: Option<nat>, m: nat)
    requires m <= |rows|
    requires forall i | 0 <= i < m :: !Within(rows[i], cursor)
    requires forall i | m <= i < |rows| :: Within(rows[i], cursor)
    ensures Select(rows, cursor) == rows[m..]
  {
    if m == 0 {
      SelectEvery(rows, cursor);
    } else {
      assert !Within(rows[0], cursor);
      SplitSelect(rows[1..], cursor, m - 1);
      assert rows[1..][m - 1..] == rows[m..];
    }
  }

  /** The page a walk takes when the cursor selects the rows from `k` on. */
  lemma {:induction false} PageFrom(rows: seq<Row>, k: nat, cursor: Option<nat>, limit: nat)
    requires limit >= 1 && k <= |rows| && Select(rows, cursor) == rows[k..]
    ensures List(rows, cursor, limit) == Ok(
      if |rows| - k <= limit then Page(rows[k..], None) else Page(rows[k..k + limit], Some(Ms(rows[k + limit - 1]))))
  {
    if |rows| - k > limit { CutFrom(rows, k, limit); }
  }

  lemma {:induction false} CutFrom(rows: seq<Row>, k: nat, limit: nat)
    requires limit >= 1 && k + limit < |rows|
    ensures ToCursorPage(Take(rows[k..], limit + 1), limit) == Ok(Page(rows[k..k + limit], Some(Ms(rows[k + limit - 1]))))
  {
    CutTaken(rows[k..], limit);
    assert rows[k..][..limit] == rows[k..k + limit] && rows[k..][limit - 1] == rows[k + limit - 1];
  }

  /** A cut page in front of the rest of the walk. */
  lemma {:induction false} WalkOn(rows: seq<Row>, k: nat, cursor: Option<nat>, limit: nat)
    requires limit >= 1 && Descending(rows) && k + limit < |rows| && Select(rows, cursor) == rows[k..]
    ensures var rest := Walk(rows, Some(Ms(rows[k + limit - 1])), limit);
      Walk(rows, cursor, limit) == (rows[k..k + limit] + rest.0, rest.1 + {rows[k + limit - 1]})
  {
    PageFrom(rows, k, cursor, limit);
    NextIsEarlier(rows, cursor, limit);
  }

  lemma {:induction false} SamePrefix(rows: seq<Row>, k: nat, m: nat, out: seq<Row>, rest: seq<Row>)
    requires k <= m <= |rows| && out == rows[k..m] + rest
    ensures out == rows[k..] <==> rest == rows[m..]
  {
    assert rows[k..] == rows[k..m] + rows[m..];
    if out == rows[k..] { assert rest == out[m - k..]; }
  }

  /** The first row behind a boundary inside a millisecond is lost. */
  lemma {:induction false} BoundaryIsLost(rows: seq<Row>, k: nat, cursor: Option<nat>, limit: nat)
    requires limit >= 1 && Descending(rows) && k + limit < |rows| && Select(rows, cursor) == rows[k..]
    requires Ms(rows[k + limit - 1]) == Ms(rows[k + limit])
    ensures rows[k + limit] !in Walk(rows, cursor, limit).0
  {
    var r, last := rows[k + limit], rows[k + limit - 1];
    var ends := Walk(rows, cursor, limit).1;
    assert r == rows[k..][limit] && r in Select(rows, cursor);
    assert last in ends by { WalkOn(rows, k, cursor, limit); }
    assert Skipped(ends, r) by { assert last in ends && Precedes(last, r) && Ms(last) == Ms(r); }
    WalkOmits(rows, cursor, limit, r);
  }

  lemma {:induction false} LostIsMissing(rows: seq<Row>, k: nat, m: nat, out: seq<Row>)
    requires k <= m < |rows| && rows[m] !in out
    ensures out != rows[k..]
  {
    assert rows[k..][m - k] == rows[m];
  }

  lemma {:induction false} LastPage(rows: seq<Row>, k: nat, cursor: Option<nat>, limit: nat)
    requires limit >= 1 && Descending(rows) && k <= |rows| <= k + limit && Select(rows, cursor) == rows[k..]
    ensures Walk(rows, cursor, limit).0 == rows[k..]
  {
    PageFrom(rows, k, cursor, limit);
  }

  lemma {:induction false} CutPage(rows: seq<Row>, k: nat, cursor: Option<nat>, limit: nat)
    requires limit >= 1 && Descending(rows) && k + limit < |rows| && Select(rows, cursor) == rows[k..]
    ensures Walk(rows, cursor, limit).0 == rows[k..] <==>
      Walk(rows, Some(Ms(rows[k + limit - 1])), limit).0 == rows[k + limit..]
  {
    WalkOn(rows, k, cursor, limit);
    SamePrefix(rows, k, k + limit, Walk(rows, cursor, limit).0, Walk(rows, Some(Ms(rows[k + limit - 1])), limit).0);
  }

  lemma {:induction false} LostPage(rows: seq<Row>, k: nat, cursor: Option<nat>, limit: nat)
    requires limit >= 1 && Descending(rows) && k + limit < |rows| && Select(rows, cursor) == rows[k..]
    requires Ms(rows[k + limit - 1]) == Ms(rows[k + limit])
    ensures Walk(rows, cursor, limit).0 != rows[k..]
  {
    BoundaryIsLost(rows, k, cursor, limit);
    LostIsMissing(rows, k, k + limit, Walk(rows, cursor, limit).0);
  }

  lemma {:induction false} WalkFrom(rows: seq<Row>, k: nat, cursor: Option<nat>, limit: nat)
    requires limit >= 1 && Descending(rows) && k <= |rows| && Select(rows, cursor) == rows[k..]
    ensures Walk(rows, cursor, limit).0 == rows[k..] <==> Cuts(rows, k, limit)
    decreases |rows| - k
  {
    if |rows| - k <= limit {
      LastPage(rows, k, cursor, limit);
    } else if Ms(rows[k + limit - 1]) != Ms(rows[k + limit]) {
      SelectSuffix(rows, k + limit);
      WalkFrom(rows, k + limit, Some(Ms(rows[k + limit - 1])), limit);
      CutPage(rows, k, cursor, limit);
    } else {
      LostPage(rows, k, cursor, limit);
    }
  }

  /** Exactly when nothing is missing, on the table alone: no page boundary lies
      inside a millisecond. */
  lemma {:induction false} CompleteIff(rows: seq<Row>, limit: nat)
    requires limit >= 1 && Descending(rows)
    ensures Walk(rows, None, limit).0 == rows <==> Cuts(rows, 0, limit)
  {
    SelectEvery(rows, None);
    WalkFrom(rows, 0, None, limit);
  }

  /** When no two rows share a millisecond nothing is missing. */
  lemma {:induction false} CompleteWhenMillisecondsDiffer(rows: seq<Row>, limit: nat)
    requires limit >= 1 && Descending(rows)
    requires forall a, b | a in rows && b in rows && a != b :: Ms(a) != Ms(b)
    ensures Walk(rows, None, limit).0 == rows
  {
    CutsWhenDifferent(rows, 0, limit);
    CompleteIff(rows, limit);
  }

  lemma {:induction false} CutsWhenDifferent(rows: seq<Row>, k: nat, limit: nat)
    requires limit >= 1 && Descending(rows) && k <= |rows|
    requires forall a, b | a in rows && b in rows && a != b :: Ms(a) != Ms(b)
    ensures Cuts(rows, k, limit)
    decreases |rows| - k
  {
    if |rows| - k > limit {
      assert Precedes(rows[k + limit - 1], rows[k + limit]);
      CutsWhenDifferent(rows, k + limit, limit);
    }
  }

  /** Otherwise some page size loses a row: of any two neighbours in one millisecond
      the second is missing when a page ends between them. */
  lemma {:induction false} SameMillisecondIsLost(rows: seq<Row>, i: nat)
    requires Descending(rows) && i + 1 < |rows| && Ms(rows[i]) == Ms(rows[i + 1])
    ensures rows[..i + 1] <= Walk(rows, None, i + 1).0 && rows[i + 1] !in Walk(rows, None, i + 1).0
  {
    SelectEvery(rows, None);
    assert rows[..i + 1] <= Walk(rows, None, i + 1).0 by { WalkOn(rows, 0, None, i + 1); }
    BoundaryIsLost(rows, 0, None, i + 1);
  }

  /** So every page size works exactly when no two rows share a millisecond. */
  lemma {:induction false} EveryLimitIff(rows: seq<Row>)
    requires Descending(rows)
    ensures (forall limit: nat | limit >= 1 :: Walk(rows, None, limit).0 == rows) <==>
            (forall a, b | a in rows && b in rows && a != b :: Ms(a) != Ms(b))
  {
    if forall a, b | a in rows && b in rows && a != b :: Ms(a) != Ms(b) {
      forall limit: nat | limit >= 1 ensures Walk(rows, None, limit).0 == rows { CompleteWhenMillisecondsDiffer(rows, limit); }
    } else {
      var a, b :| a in rows && b in rows && a != b && Ms(a) == Ms(b);
      var i := Neighbours(rows, a, b);
      SameMillisecondIsLost(rows, i);
      assert rows[i + 1] in rows;
      assert Walk(rows, None, i + 1).0 != rows;
    }
  }

  /** Two rows of one millisecond have everything between them in it. */
  lemma {:induction false} Neighbours(rows: seq<Row>, a: Row, b: Row) returns (i: nat)
    requires Descending(rows) && a in rows && b in rows && a != b && Ms(a) == Ms(b)
    ensures i + 1 < |rows| && Ms(rows[i]) == Ms(rows[i + 1])
  {
    var j: nat :| j < |rows| && rows[j] == a;
    var k: nat :| k < |rows| && rows[k] == b;
    i := if j < k then j else k;
    var last := if j < k then k else j;
    assert Precedes(rows[i], rows[i + 1]) && (i + 1 == last || Precedes(rows[i + 1], rows[last]));
  }
}
