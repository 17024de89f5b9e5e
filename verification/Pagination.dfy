/** Cursor pages: the two `toCursorPage` helpers, ordered tables, and the listing
    by id whose table changes between pages.

    A UUID is compared as the number its 128 bits spell, as the database does. */
module Pagination {
  import opened Prelude

  datatype Page<T> = Page(items: seq<T>, nextCursor: Option<nat>)

  /** Admin API: with limit 0 there is no last item and so no cursor. */
  function ToCursorPage(rows: seq<nat>, limit: nat): Page<nat> {
    var items := if |rows| > limit then rows[..limit] else rows;
    Page(items, if |rows| > limit && items != [] then Some(items[|items| - 1]) else None)
  }

  // ---- Ordered queries -------------------------------------------------------------

  ghost predicate Ascending(xs: seq<nat>) {
    forall i, j :: 0 <= i < j < |xs| ==> xs[i] < xs[j]
  }

  function Min(s: set<nat>): (m: nat)
    requires s != {}
    ensures m in s && forall x | x in s :: m <= x
  {
    MinExists(s);
    var m :| m in s && forall x | x in s :: m <= x;
    m
  }

  lemma {:induction false} MinExists(s: set<nat>)
    requires s != {}
    ensures exists m :: m in s && forall x | x in s :: m <= x
    decreases |s|
  {
    var y :| y in s;
    var rest := s - {y};
    if rest == {} {
      assert s == {y};
    } else {
      MinExists(rest);
      var m :| m in rest && forall x | x in rest :: m <= x;
      var least := if y < m then y else m;
      assert forall x | x in s :: x == y || x in rest;
      assert least in s && forall x | x in s :: least <= x;
    }
  }

  /** ORDER BY id ASC. */
  function Sorted(s: set<nat>): (r: seq<nat>)
    ensures forall x :: x in r <==> x in s
    ensures Ascending(r) && |r| == |s|
    decreases |s|
  {
    if s == {} then [] else var m := Min(s); [m] + Sorted(s - {m})
  }

  lemma {:induction false} AscendingUnique(a: seq<nat>, b: seq<nat>)
    requires Ascending(a) && Ascending(b) && forall x :: x in a <==> x in b
    ensures a == b
  {
    if b != [] { assert b[0] in a; }
    if a != [] {
      assert a[0] in b && b != [] && b[0] in a;
      assert a[0] == b[0];
      forall x ensures x in a[1..] <==> x in b[1..] {
        if x in a[1..] { assert x in b && x != b[0]; }
        if x in b[1..] { assert x in a && x != a[0]; }
      }
      AscendingUnique(a[1..], b[1..]);
    }
  }

  function Take<T>(xs: seq<T>, n: nat): seq<T> {
    if |xs| <= n then xs else xs[..n]
  }

  /** A table: the owner of each row, by id. */
  type Table = map<nat, string>

  function Matching(t: Table, owner: Option<string>): set<nat> {
    set id | id in t && (owner.None? || t[id] == owner.value)
  }

  /** The row is there and, if an owner is asked for, its owner is that one. */
  predicate Fits(t: Table, owner: Option<string>, id: nat) {
    id in t && (owner == None || Some(t[id]) == owner)
  }

  function Beyond(ids: set<nat>, cursor: Option<nat>): set<nat> {
    set id | id in ids && (cursor.None? || id > cursor.value)
  }

  /** One page: rows after the cursor in id order, one more than the limit, cut. */
  function List(t: Table, cursor: Option<nat>, limit: nat, owner: Option<string>): Page<nat> {
    ToCursorPage(Take(Sorted(Beyond(Matching(t, owner), cursor)), limit + 1), limit)
  }

  // ---- Following the cursor ------------------------------------------------------------

  /** Page after page until there is no cursor; `tables[i]` is what page `i` sees.
      `done` tells whether the last page was reached. */
  function Follow(tables: seq<Table>, cursor: Option<nat>, limit: nat, owner: Option<string>): (r: (seq<nat>, bool)) {
    if tables == [] then ([], false)
    else
      var page := List(tables[0], cursor, limit, owner);
      if page.nextCursor == None then (page.items, true)
      else
        var (rest, done) := Follow(tables[1..], page.nextCursor, limit, owner);
        (page.items + rest, done)
  }

  lemma CutAscending(all: seq<nat>, limit: nat)
    requires 1 <= limit < |all| && Ascending(all)
    ensures ToCursorPage(Take(all, limit + 1), limit) == Page(all[..limit], Some(all[limit - 1]))
    ensures Ascending(all[..limit]) && forall x | x in all[..limit] :: x in all
    ensures forall x | x in all && x !in all[..limit] :: x > all[limit - 1]
  {
    var items := all[..limit];
    assert Take(all, limit + 1)[..limit] == items;
    forall x | x in all && x !in items ensures x > all[limit - 1] {
      assert all == items + all[limit..];
      var k :| 0 <= k < |all| - limit && all[limit..][k] == x;
      assert all[limit + k] == x;
    }
  }

  /** A page is the smallest ids beyond the cursor, as many as the limit allows; its own
      cursor is its last id, and it has one exactly when something is left beyond it. */
  lemma PageShape(t: Table, cursor: Option<nat>, limit: nat, owner: Option<string>)
    requires limit >= 1
    ensures var page := List(t, cursor, limit, owner);
      var beyond := Beyond(Matching(t, owner), cursor);
      && Ascending(page.items)
      && |page.items| == (if |beyond| <= limit then |beyond| else limit)
      && (page.nextCursor == None <==> |beyond| <= limit)
      && (forall x | x in page.items :: x in beyond && Fits(t, owner, x))
      && (page.nextCursor == None ==> forall x | x in beyond :: x in page.items)
      && (page.nextCursor != None ==>
            && page.items != [] && page.nextCursor.value == page.items[|page.items| - 1]
            && forall x | x in beyond && x !in page.items :: x > page.nextCursor.value)
  {
    var all := Sorted(Beyond(Matching(t, owner), cursor));
    if |all| > limit { CutAscending(all, limit); }
  }

  /** Rows present under the filter in every table the traversal sees. */
  ghost predicate Throughout(tables: seq<Table>, owner: Option<string>, id: nat) {
    forall t | t in tables :: Fits(t, owner, id)
  }

  /** `x` lies beyond the cursor and was in one of the tables seen. */
  ghost predicate Seen(tables: seq<Table>, cursor: Option<nat>, owner: Option<string>, x: nat) {
    (cursor.None? || x > cursor.value) && exists t :: t in tables && Fits(t, owner, x)
  }

  /** What a traversal from `cursor` may return. */
  ghost predicate Ascends(tables: seq<Table>, cursor: Option<nat>, owner: Option<string>, out: seq<nat>) {
    Ascending(out) && forall x | x in out :: Seen(tables, cursor, owner, x)
  }

  /** A page in front of an ascending rest of larger ids. */
  lemma {:induction false} StepAscends(tables: seq<Table>, cursor: Option<nat>, owner: Option<string>, items: seq<nat>, last: nat, rest: seq<nat>)
    requires tables != [] && items != [] && Ascending(items) && last == items[|items| - 1]
    requires forall x | x in items :: x in Beyond(Matching(tables[0], owner), cursor)
    requires Ascends(tables[1..], Some(last), owner, rest)
    ensures Ascends(tables, cursor, owner, items + rest)
  {
    assert tables[0] in tables && last in items;
    forall x | x in rest ensures Seen(tables, cursor, owner, x) {
      assert Seen(tables[1..], Some(last), owner, x);
      var t :| t in tables[1..] && Fits(t, owner, x);
      assert t in tables;
    }
    AppendAscending(items, rest, last);
  }

  lemma {:induction false} OutputAscends(tables: seq<Table>, cursor: Option<nat>, limit: nat, owner: Option<string>)
    requires limit >= 1
    ensures Ascends(tables, cursor, owner, Follow(tables, cursor, limit, owner).0)
  {
    if tables != [] {
      PageShape(tables[0], cursor, limit, owner);
      var page := List(tables[0], cursor, limit, owner);
      if page.nextCursor == None {
        LastAscends(tables, cursor, owner, page.items);
      } else {
        OutputAscends(tables[1..], page.nextCursor, limit, owner);
        StepAscends(tables, cursor, owner, page.items, page.nextCursor.value, Follow(tables[1..], page.nextCursor, limit, owner).0);
      }
    }
  }

  lemma {:induction false} LastAscends(tables: seq<Table>, cursor: Option<nat>, owner: Option<string>, items: seq<nat>)
    requires tables != [] && Ascending(items)
    requires forall x | x in items :: x in Beyond(Matching(tables[0], owner), cursor)
    ensures Ascends(tables, cursor, owner, items)
  {
    assert tables[0] in tables;
  }

  lemma AppendAscending(a: seq<nat>, b: seq<nat>, m: nat)
    requires Ascending(a) && Ascending(b) && a != [] && m == a[|a| - 1] && forall x | x in b :: x > m
    ensures Ascending(a + b)
  {
    forall i, j | 0 <= i < j < |a + b| ensures (a + b)[i] < (a + b)[j] {
      if i < |a| <= j { assert b[j - |a|] in b; }
    }
  }

  lemma {:induction false} OutputCovers(tables: seq<Table>, cursor: Option<nat>, limit: nat, owner: Option<string>, x: nat)
    requires limit >= 1 && Throughout(tables, owner, x) && (cursor.None? || x > cursor.value)
    requires Follow(tables, cursor, limit, owner).1
    ensures x in Follow(tables, cursor, limit, owner).0
  {
    PageShape(tables[0], cursor, limit, owner);
    var page := List(tables[0], cursor, limit, owner);
    assert tables[0] in tables;
    if page.nextCursor != None && x !in page.items {
      OutputCovers(tables[1..], page.nextCursor, limit, owner, x);
    }
  }

  /** Ids strictly ascending, so none twice; each was in some table seen; and when
      the last page was reached, every row present throughout has come out. */
  ghost predicate Stable(tables: seq<Table>, owner: Option<string>, out: seq<nat>, done: bool) {
    && Ascending(out)
    && (forall x | x in out :: Seen(tables, None, owner, x))
    && (done ==> forall x: nat | Throughout(tables, owner, x) :: x in out)
  }

  /** Keyset stability, whatever is inserted or deleted between pages. */
  lemma {:induction false} KeysetStability(tables: seq<Table>, limit: nat, owner: Option<string>)
    requires limit >= 1
    ensures Stable(tables, owner, Follow(tables, None, limit, owner).0, Follow(tables, None, limit, owner).1)
  {
    OutputAscends(tables, None, limit, owner);
    if Follow(tables, None, limit, owner).1 {
      forall x: nat | Throughout(tables, owner, x) ensures x in Follow(tables, None, limit, owner).0 {
        OutputCovers(tables, None, limit, owner, x);
      }
    }
  }

  /** Over one fixed table the traversal ends after at most one page per row and
      yields the whole filtered table in id order. */
  lemma FixedTableIsListedWhole(t: Table, limit: nat, owner: Option<string>, tables: seq<Table>)
    requires limit >= 1 && |tables| > |Matching(t, owner)|
    requires forall u | u in tables :: u == t
    ensures Follow(tables, None, limit, owner) == (Sorted(Matching(t, owner)), true)
    ensures Ascending(Follow(tables, None, limit, owner).0)
    ensures forall x :: x in Follow(tables, None, limit, owner).0 <==> Fits(t, owner, x)
  {
    assert Beyond(Matching(t, owner), None) == Matching(t, owner);
    Terminates(t, None, limit, owner, tables);
    KeysetStability(tables, limit, owner);
    var (out, done) := Follow(tables, None, limit, owner);
    forall x ensures x in out <==> x in Matching(t, owner) {
      if x in Matching(t, owner) { assert Throughout(tables, owner, x); }
      if x in out { assert Seen(tables, None, owner, x); }
    }
    AscendingUnique(out, Sorted(Matching(t, owner)));
  }

  /** A page that has a next cursor leaves fewer rows beyond it. */
  lemma PageShrinks(t: Table, cursor: Option<nat>, limit: nat, owner: Option<string>)
    requires limit >= 1 && List(t, cursor, limit, owner).nextCursor != None
    ensures |Beyond(Matching(t, owner), List(t, cursor, limit, owner).nextCursor)| < |Beyond(Matching(t, owner), cursor)|
  {
    PageShape(t, cursor, limit, owner);
    var page := List(t, cursor, limit, owner);
    var now, next := Beyond(Matching(t, owner), cursor), Beyond(Matching(t, owner), page.nextCursor);
    var last := page.items[|page.items| - 1];
    assert last in page.items && last in now && last !in next;
    assert next <= now - {last};
    Smaller(next, now - {last});
  }

  lemma {:induction false} Terminates(t: Table, cursor: Option<nat>, limit: nat, owner: Option<string>, tables: seq<Table>)
    requires limit >= 1 && |tables| > |Beyond(Matching(t, owner), cursor)|
    requires forall u | u in tables :: u == t
    ensures Follow(tables, cursor, limit, owner).1
    decreases |tables|
  {
    assert tables[0] in tables;
    var page := List(t, cursor, limit, owner);
    if page.nextCursor != None {
      PageShrinks(t, cursor, limit, owner);
      assert forall u | u in tables[1..] :: u in tables;
      Terminates(t, page.nextCursor, limit, owner, tables[1..]);
    }
  }

  lemma {:induction false} Smaller(a: set<nat>, b: set<nat>)
    requires a <= b
    ensures |a| <= |b|
    decreases |a|
  {
    if a != {} {
      var x :| x in a;
      Smaller(a - {x}, b - {x});
    }
  }

  /** A limit of 0 ends at once with nothing, whatever the table holds. */
  lemma LimitZeroListsNothing(t: Table, cursor: Option<nat>, owner: Option<string>)
    ensures List(t, cursor, 0, owner) == Page([], None)
  {
  }
}
