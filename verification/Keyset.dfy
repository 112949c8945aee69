/** Keyset pagination: `ORDER BY ts DESC, id DESC LIMIT n` with a (timestamp, id) cursor.

    Ids stand for their rank in the collation that SQL and the merge comparator are taken to share. */
module Keyset {
  import opened Wrappers

  /** A row's sort key.  `source` tells apart the tables of a merged feed and is 0 for a single table. */
  datatype Key = Key(ts: int, id: int, source: nat)

  /** `a` is listed before `b`: newest first, then the larger id, then the earlier source. */
  predicate Before(a: Key, b: Key) {
    a.ts > b.ts || (a.ts == b.ts && (a.id > b.id || (a.id == b.id && a.source < b.source)))
  }

  predicate Ordered(q: seq<Key>) {
    forall i, j :: 0 <= i < j < |q| ==> Before(q[i], q[j])
  }

  predicate IsFirst(k: Key, rows: set<Key>) {
    k in rows && forall x :: x in rows && x != k ==> Before(k, x)
  }

  lemma {:induction false} FirstExists(rows: set<Key>)
    requires rows != {}
    ensures exists k :: IsFirst(k, rows)
  {
    var x :| x in rows;
    if rows == {x} {
      assert IsFirst(x, rows);
    } else {
      assert rows - {x} != {};
      FirstExists(rows - {x});
      var k :| IsFirst(k, rows - {x});
      if Before(k, x) {
        assert IsFirst(k, rows);
      } else {
        forall y | y in rows && y != x ensures Before(x, y) {
          assert y == k || Before(k, y);
        }
        assert IsFirst(x, rows);
      }
    }
  }

  ghost function First(rows: set<Key>): Key
    requires rows != {}
    ensures IsFirst(First(rows), rows)
  {
    FirstExists(rows);
    var k :| IsFirst(k, rows);
    k
  }

  /** The whole result set in order. */
  ghost function Sorted(rows: set<Key>): seq<Key> {
    if rows == {} then [] else [First(rows)] + Sorted(rows - {First(rows)})
  }

  lemma {:induction false} SortedIsOrdered(rows: set<Key>)
    ensures |Sorted(rows)| == |rows| && Ordered(Sorted(rows))
    ensures forall k :: k in Sorted(rows) <==> k in rows
  {
    if rows != {} {
      var k := First(rows);
      SortedIsOrdered(rows - {k});
      assert |rows - {k}| == |rows| - 1;
    }
  }

  function Elements(q: seq<Key>): set<Key> {
    set k | k in q
  }

  function Take<T>(q: seq<T>, n: nat): seq<T> {
    if |q| <= n then q else q[..n]
  }

  /** An ordered list is determined by its elements. */
  lemma {:induction false} OrderedIsSorted(q: seq<Key>, rows: set<Key>)
    requires Ordered(q) && forall k :: k in q <==> k in rows
    ensures q == Sorted(rows)
    decreases |q|
  {
    if q == [] {
      assert rows == {};
    } else {

      assert q[0] in rows;
      assert IsFirst(q[0], rows);
      assert First(rows) == q[0];
      var rest := q[1..];
      assert forall k :: k in q <==> k == q[0] || k in rest;
      assert forall k :: k in rest <==> k in rows - {q[0]};
      OrderedIsSorted(rest, rows - {q[0]});
    }
  }

  /** What follows the first `n` rows is the rest of the set in order. */
  lemma {:induction false} SortedTail(rows: set<Key>, n: nat)
    requires n <= |Sorted(rows)|
    ensures Sorted(rows)[n..] == Sorted(rows - Elements(Sorted(rows)[..n]))
  {
    if n == 0 {
      assert rows - Elements(Sorted(rows)[..0]) == rows;
    } else {
      var k := First(rows);
      var rest := rows - {k};
      SortedTail(rest, n - 1);
      assert Sorted(rows)[n..] == Sorted(rest)[n - 1..];
      assert Sorted(rows)[..n] == [k] + Sorted(rest)[..n - 1];
      assert rows - Elements(Sorted(rows)[..n]) == rest - Elements(Sorted(rest)[..n - 1]);
    }
  }

  /** `SELECT ... ORDER BY ... LIMIT n` on the rows that pass the WHERE clause. */
  method Select(rows: set<Key>, n: nat) returns (q: seq<Key>)
    ensures q == Take(Sorted(rows), n)
  {
    q := [];
    var rest := rows;
    SortedIsOrdered(rows);
    while |q| < n && rest != {}
      invariant |q| <= n
      invariant q + Sorted(rest) == Sorted(rows)
      decreases |rest|
    {
      FirstExists(rest);
      var k :| k in rest && forall x :: x in rest && x != k ==> Before(k, x);
      FirstIsUnique(k, rest);
      assert q + [k] + Sorted(rest - {k}) == q + Sorted(rest);
      q, rest := q + [k], rest - {k};
    }
  }

  lemma FirstIsUnique(k: Key, rows: set<Key>)
    requires IsFirst(k, rows)
    ensures k == First(rows)
  {
  }

  /** Two result sets, one inside the other, agree on the first `n` rows if every row missing from the
      smaller one has `n` of its rows in front. */
  lemma {:induction false} TopAgrees(all: set<Key>, some: set<Key>, n: nat)
    requires some <= all
    requires forall x :: x in all && x !in some ==> |EarlierIn(some, x)| >= n
    ensures Take(Sorted(some), n) == Take(Sorted(all), n)
    decreases n
  {
    hide Sorted;
    hide EarlierIn;
    hide First;
    hide Take;
    if n == 0 {
      TakeNone(Sorted(all), Sorted(some));
    } else if all == {} {
      assert some == {};
    } else {
      var k := First(all);
      TopStep(all, some, n);
      TopAgrees(all - {k}, some - {k}, n - 1);
      TakeFirst(all, n);
      TakeFirst(some, n);
    }
  }

  lemma TakeNone(q: seq<Key>, r: seq<Key>)
    ensures Take(q, 0) == Take(r, 0)
  {
  }

  /** The first row of all is the first of the smaller set, and without it the condition holds for one row less. */
  lemma TopStep(all: set<Key>, some: set<Key>, n: nat)
    requires some <= all && all != {} && n > 0
    requires forall x :: x in all && x !in some ==> |EarlierIn(some, x)| >= n
    ensures some != {} && First(some) == First(all)
    ensures forall x :: x in all - {First(all)} && x !in some - {First(all)} ==> |EarlierIn(some - {First(all)}, x)| >= n - 1
  {
    var k := First(all);
    assert EarlierIn(some, k) == {};
    FirstIsUnique(k, some);
    forall x | x in all - {k} && x !in some - {k} ensures |EarlierIn(some - {k}, x)| >= n - 1 {
      SubsetSize(EarlierIn(some, x), EarlierIn(some - {k}, x) + {k});
    }
  }

  lemma TakeFirst(rows: set<Key>, n: nat)
    requires rows != {} && n > 0
    ensures Take(Sorted(rows), n) == [First(rows)] + Take(Sorted(rows - {First(rows)}), n - 1)
  {
    TakeCons(First(rows), Sorted(rows - {First(rows)}), n);
  }

  lemma TakeCons(k: Key, q: seq<Key>, n: nat)
    requires n > 0
    ensures Take([k] + q, n) == [k] + Take(q, n - 1)
  {
  }

  function EarlierIn(rows: set<Key>, x: Key): set<Key> {
    set w | w in rows && Before(w, x)
  }

  lemma SubsetSize<T>(a: set<T>, b: set<T>)
    requires a <= b
    ensures |a| <= |b|
  {
    assert b == a + (b - a);
  }

  // ---------- Pages of one table ----------

  /** A cursor written before the tiebreaker existed has no id. */
  datatype Cursor = Cursor(ts: int, id: Option<int>)

  /** The WHERE clause a cursor adds. */
  predicate After(c: Option<Cursor>, k: Key) {
    c.None? || k.ts < c.value.ts || (c.value.id.Some? && k.ts == c.value.ts && k.id < c.value.id.value)
  }

  function Remaining(rows: set<Key>, c: Option<Cursor>): set<Key> {
    set k | k in rows && After(c, k)
  }

  datatype Page = Page(rows: seq<Key>, next: Option<Cursor>)

  /** `limit` is clamped to 1..cap, one extra row is fetched, and a cursor is returned when it came. */
  function Clamp(limit: int, cap: nat): nat
    requires cap > 0
  {
    if limit < 1 then 1 else if limit > cap then cap else limit
  }

  /** The page made of an ordered result: `limit` of its first `limit + 1` rows. */
  function Cut(q: seq<Key>, limit: nat): Page
    requires limit > 0
  {
    var fetched := Take(q, limit + 1);
    var page := Take(fetched, limit);
    Page(page, if |fetched| > limit then Some(Cursor(page[|page| - 1].ts, Some(page[|page| - 1].id))) else None)
  }

  ghost function PageOf(rows: set<Key>, c: Option<Cursor>, limit: nat): Page
    requires limit > 0
  {
    Cut(Sorted(Remaining(rows, c)), limit)
  }

  /** The rows of a page are those the cursor admits, newest first and the larger id first; there are
      `limit` of them with a cursor to the last one, or there are fewer and none is left out. */
  lemma PageHolds(rows: set<Key>, c: Option<Cursor>, limit: nat)
    requires limit > 0
    ensures var p := PageOf(rows, c, limit);
            && (forall k :: k in p.rows ==>
                 && k in rows
                 && (c.None? || k.ts < c.value.ts || (c.value.id.Some? && k.ts == c.value.ts && k.id < c.value.id.value)))
            && (forall i, j :: 0 <= i < j < |p.rows| ==>
                 p.rows[i].ts > p.rows[j].ts || (p.rows[i].ts == p.rows[j].ts && p.rows[i].id >= p.rows[j].id))
            && |p.rows| <= limit && (p.next.Some? ==> |p.rows| == limit)
            && (p.next.Some? ==> p.next.value == Cursor(p.rows[|p.rows| - 1].ts, Some(p.rows[|p.rows| - 1].id)))
    ensures var p := PageOf(rows, c, limit);
            forall k ::
              && k in rows && k !in p.rows
              && (c.None? || k.ts < c.value.ts || (c.value.id.Some? && k.ts == c.value.ts && k.id < c.value.id.value))
              ==> p.next.Some? && (k.ts < p.next.value.ts || (k.ts == p.next.value.ts && k.id <= p.next.value.id.value))
  {
    SortedLists(Remaining(rows, c));
    CutHolds(Remaining(rows, c), limit, Sorted(Remaining(rows, c)));
  }

  lemma CutHolds(rows: set<Key>, limit: nat, q: seq<Key>)
    requires limit > 0 && Lists(q, rows)
    ensures var p := Cut(q, limit);
            && Ordered(p.rows) && (forall k :: k in p.rows ==> k in rows)
            && |p.rows| <= limit && (p.next.Some? ==> |p.rows| == limit)
            && (p.next.Some? ==> p.next.value == Cursor(p.rows[|p.rows| - 1].ts, Some(p.rows[|p.rows| - 1].id)))
            && forall k :: k in rows && k !in p.rows ==>
                 p.next.Some? && (k.ts < p.next.value.ts || (k.ts == p.next.value.ts && k.id <= p.next.value.id.value))
  {
    PrefixInOrder(q, rows, limit);
    forall k | k in rows && k !in Cut(q, limit).rows
      ensures |q| > limit && Before(q[limit - 1], k)
    {
      if |q| > limit { InPrefix(q, limit, k); }
    }
  }

  /** `listAuditLogs` and `ProcessedMessageDAO.listForUser`. */
  method List(rows: set<Key>, c: Option<Cursor>, limit: int, cap: nat) returns (page: Page)
    requires cap > 0
    ensures page == PageOf(rows, c, Clamp(limit, cap))
    ensures var size := if limit <= 0 then 1 else if limit <= cap then limit else cap;
            |page.rows| <= size && (page.next.Some? ==> |page.rows| == size)
    ensures forall k :: k in page.rows ==>
              && k in rows
              && (c.None? || k.ts < c.value.ts || (c.value.id.Some? && k.ts == c.value.ts && k.id < c.value.id.value))
    ensures forall i, j :: 0 <= i < j < |page.rows| ==>
              page.rows[i].ts > page.rows[j].ts || (page.rows[i].ts == page.rows[j].ts && page.rows[i].id >= page.rows[j].id)
    ensures page.next.Some? ==>
              && page.rows != []
              && page.next.value == Cursor(page.rows[|page.rows| - 1].ts, Some(page.rows[|page.rows| - 1].id))
    ensures forall k ::
              && k in rows && k !in page.rows
              && (c.None? || k.ts < c.value.ts || (c.value.id.Some? && k.ts == c.value.ts && k.id < c.value.id.value))
              ==> page.next.Some? && (k.ts < page.next.value.ts || (k.ts == page.next.value.ts && k.id <= page.next.value.id.value))
  {
    PageHolds(rows, c, Clamp(limit, cap));
    var n := Clamp(limit, cap);
    var fetched := Select(Remaining(rows, c), n + 1);
    var pageRows := Take(fetched, n);
    if |fetched| > n {
      var last := pageRows[|pageRows| - 1];
      return Page(pageRows, Some(Cursor(last.ts, Some(last.id))));
    }
    return Page(pageRows, None);
  }

  /** One request of a drain: the table as it is then, and the page size asked for. */
  datatype Fetch = Fetch(rows: set<Key>, limit: nat)

  /** Rows of one table; its primary key makes (timestamp, id) unique, so a set of keys is a table. */
  predicate SingleTable(rows: set<Key>) {
    forall k :: k in rows ==> k.source == 0
  }

  /** In an ordered list the rows after the first `n` are those listed after row `n`. */
  lemma InPrefix(q: seq<Key>, n: nat, k: Key)
    requires Ordered(q) && 0 < n <= |q| && k in q
    ensures k !in q[..n] <==> Before(q[n - 1], k)
  {
    var i :| 0 <= i < |q| && q[i] == k;
    if i < n {
      assert q[..n][i] == k;
      assert i < n - 1 ==> Before(q[i], q[n - 1]);
    } else {
      assert Before(q[n - 1], q[i]);
      forall j | 0 <= j < n ensures q[..n][j] != k {
        assert Before(q[j], q[i]);
      }
    }
  }

  predicate Lists(q: seq<Key>, rows: set<Key>) {
    Ordered(q) && |q| == |rows| && (forall k :: k in q ==> k in rows) && (forall k :: k in rows ==> k in q)
  }

  lemma SortedLists(rows: set<Key>)
    ensures Lists(Sorted(rows), rows)
  {
    SortedIsOrdered(rows);
  }

  lemma CutLeaves(rows: set<Key>, q: seq<Key>, n: nat, k: Key)
    requires SingleTable(rows) && Lists(q, rows) && 0 < n <= |q| && k in rows
    ensures k !in q[..n] <==> k.ts < q[n - 1].ts || (k.ts == q[n - 1].ts && k.id < q[n - 1].id)
  {
    assert q[n - 1] in q;
    InPrefix(q, n, k);
  }

  lemma CutIsNextRows(rows: set<Key>, c: Option<Cursor>, limit: nat, q: seq<Key>)
    requires limit > 0 && SingleTable(rows) && Lists(q, Remaining(rows, c))
    ensures var p := Cut(q, limit);
            && p.rows == Take(q, limit)
            && (p.next.Some? <==> |q| > limit)
            && (p.next.Some? ==> Remaining(rows, p.next) == Remaining(rows, c) - Elements(p.rows))
            && (p.next.None? ==> p.rows == q)
  {
    var p := Cut(q, limit);
    if p.next.Some? {
      assert q[limit - 1] in q;
      assert q[limit - 1] in Remaining(rows, c);
      forall k | k in rows ensures k in Remaining(rows, p.next) <==> k in Remaining(rows, c) && k !in q[..limit] {
        if k in Remaining(rows, c) { CutLeaves(Remaining(rows, c), q, limit, k); }
      }
    }
  }

  /** A page is the next `limit` rows in order, and nothing that is still there is skipped: what the new
      cursor leaves is what the old one left, less the page. */
  lemma PageIsNextRows(rows: set<Key>, c: Option<Cursor>, limit: nat)
    requires limit > 0 && SingleTable(rows)
    ensures var p := PageOf(rows, c, limit);
            && p.rows == Take(Sorted(Remaining(rows, c)), limit)
            && (p.next.Some? <==> |Remaining(rows, c)| > limit)
            && (p.next.Some? ==> Remaining(rows, p.next) == Remaining(rows, c) - Elements(p.rows))
            && (p.next.None? ==> Lists(p.rows, Remaining(rows, c)))
  {
    SortedLists(Remaining(rows, c));
    CutIsNextRows(rows, c, limit, Sorted(Remaining(rows, c)));
  }

  lemma PrefixIsNewer(q: seq<Key>, n: nat, k: Key)
    requires Ordered(q) && 0 < n <= |q|
    requires k.ts < q[n - 1].ts || (k.ts == q[n - 1].ts && k.id < q[n - 1].id)
    ensures forall x :: x in q[..n] ==> x.ts > k.ts || (x.ts == k.ts && x.id > k.id)
  {
    forall i | 0 <= i < n ensures q[i].ts > k.ts || (q[i].ts == k.ts && q[i].id > k.id) {
      assert i == n - 1 || Before(q[i], q[n - 1]);
    }
  }

  /** A later cursor admits only what the earlier one did, and only rows older than the page between
      them, whatever the table has become by then. */
  lemma CursorsOnlyAdvance(rows: set<Key>, c: Option<Cursor>, limit: nat, k: Key)
    requires limit > 0 && PageOf(rows, c, limit).next.Some? && After(PageOf(rows, c, limit).next, k)
    ensures After(c, k)
    ensures forall x :: x in PageOf(rows, c, limit).rows ==> x.ts > k.ts || (x.ts == k.ts && x.id > k.id)
  {
    SortedLists(Remaining(rows, c));
    CutOnlyAdvances(Remaining(rows, c), c, limit, Sorted(Remaining(rows, c)), k);
  }

  lemma CutOnlyAdvances(rows: set<Key>, c: Option<Cursor>, limit: nat, q: seq<Key>, k: Key)
    requires limit > 0 && Lists(q, rows) && (forall x :: x in rows ==> After(c, x))
    requires Cut(q, limit).next.Some? && After(Cut(q, limit).next, k)
    ensures After(c, k)
    ensures forall x :: x in Cut(q, limit).rows ==> x.ts > k.ts || (x.ts == k.ts && x.id > k.id)
  {
    var last := q[limit - 1];
    assert last in q && After(c, last);
    PrefixIsNewer(q, limit, k);
  }

  /** All pages fetched from cursor `c` on, until one comes back without a cursor. */
  ghost function Drain(fetches: seq<Fetch>, c: Option<Cursor>): seq<Key>
    requires forall f :: f in fetches ==> f.limit > 0
  {
    if fetches == [] then []
    else
      var p := PageOf(fetches[0].rows, c, fetches[0].limit);
      if p.next.None? then p.rows else p.rows + Drain(fetches[1..], p.next)
  }

  ghost predicate Finishes(fetches: seq<Fetch>, c: Option<Cursor>)
    requires forall f :: f in fetches ==> f.limit > 0
  {
    fetches != []
    && var p := PageOf(fetches[0].rows, c, fetches[0].limit);
       p.next.None? || Finishes(fetches[1..], p.next)
  }

  lemma PageInOrder(rows: set<Key>, c: Option<Cursor>, limit: nat)
    requires limit > 0
    ensures var p := PageOf(rows, c, limit);
            Ordered(p.rows) && forall k :: k in p.rows ==> k in rows && After(c, k)
  {
    SortedLists(Remaining(rows, c));
    PrefixInOrder(Sorted(Remaining(rows, c)), Remaining(rows, c), limit);
  }

  lemma PrefixInOrder(q: seq<Key>, rows: set<Key>, limit: nat)
    requires limit > 0 && Lists(q, rows)
    ensures Ordered(Cut(q, limit).rows) && forall k :: k in Cut(q, limit).rows ==> k in rows
  {
    assert forall k :: k in Cut(q, limit).rows ==> k in q;
  }

  lemma OrderedConcat(a: seq<Key>, b: seq<Key>)
    requires Ordered(a) && Ordered(b) && forall x, y :: x in a && y in b ==> Before(x, y)
    ensures Ordered(a + b)
  {
    forall i, j | 0 <= i < j < |a + b| ensures Before((a + b)[i], (a + b)[j]) {
      if i < |a| <= j {
        assert a[i] in a && b[j - |a|] in b;
      }
    }
  }

  lemma {:induction false} DrainInOrder(fetches: seq<Fetch>, c: Option<Cursor>)
    requires forall f :: f in fetches ==> f.limit > 0
    ensures Ordered(Drain(fetches, c))
    ensures forall k :: k in Drain(fetches, c) ==> After(c, k) && exists f :: f in fetches && k in f.rows
  {
    if fetches != [] {
      var rows, limit, rest := fetches[0].rows, fetches[0].limit, fetches[1..];
      var p := PageOf(rows, c, limit);
      PageInOrder(rows, c, limit);
      assert fetches[0] in fetches && forall f :: f in rest ==> f in fetches;
      if p.next.Some? {
        var tail := Drain(rest, p.next);
        DrainInOrder(rest, p.next);
        forall k | k in tail ensures After(c, k) && forall x :: x in p.rows ==> Before(x, k) {
          CursorsOnlyAdvance(rows, c, limit, k);
        }
        OrderedConcat(p.rows, tail);
      }
    }
  }

  lemma {:induction false} DrainMissesNothing(fetches: seq<Fetch>, c: Option<Cursor>, k: Key)
    requires forall f :: f in fetches ==> f.limit > 0 && k in f.rows && SingleTable(f.rows)
    requires Finishes(fetches, c) && After(c, k)
    ensures k in Drain(fetches, c)
  {
    var rows, limit, rest := fetches[0].rows, fetches[0].limit, fetches[1..];
    assert fetches[0] in fetches && forall f :: f in rest ==> f in fetches;
    PageIsNextRows(rows, c, limit);
    var p := PageOf(rows, c, limit);
    assert k in Remaining(rows, c);
    if p.next.Some? && k !in p.rows {
      assert k in Remaining(rows, p.next);
      DrainMissesNothing(rest, p.next, k);
    }
  }

  /** Draining the list while rows come and go between requests, with any page sizes and any ties: the
      result is strictly in order, so no row comes twice; every row came from the table; and a row that
      was there at every request comes exactly once. */
  lemma DrainIsExact(fetches: seq<Fetch>)
    requires forall f :: f in fetches ==> f.limit > 0 && SingleTable(f.rows)
    requires Finishes(fetches, None)
    ensures Ordered(Drain(fetches, None))
    ensures forall k :: (forall f :: f in fetches ==> k in f.rows) ==> k in Drain(fetches, None)
    ensures forall k :: k in Drain(fetches, None) ==> exists f :: f in fetches && k in f.rows
  {
    DrainInOrder(fetches, None);
    forall k | forall f :: f in fetches ==> k in f.rows ensures k in Drain(fetches, None) {
      DrainMissesNothing(fetches, None, k);
    }
  }

  /** A table that stands still is drained in at most one request per row and one more, and comes out as
      the sorted table. */
  lemma {:induction false} StillTableFinishes(rows: set<Key>, fetches: seq<Fetch>, c: Option<Cursor>)
    requires SingleTable(rows) && forall f :: f in fetches ==> f.limit > 0 && f.rows == rows
    requires |Remaining(rows, c)| < |fetches|
    ensures Finishes(fetches, c)
  {
    var rest := fetches[1..];
    assert fetches[0] in fetches && forall f :: f in rest ==> f in fetches;
    var p := PageOf(rows, c, fetches[0].limit);
    PageIsNextRows(rows, c, fetches[0].limit);
    PageInOrder(rows, c, fetches[0].limit);
    if p.next.Some? {
      assert p.rows[0] in Remaining(rows, c) && p.rows[0] in Elements(p.rows);
      assert Remaining(rows, p.next) <= Remaining(rows, c) - {p.rows[0]};
      SubsetSize(Remaining(rows, p.next), Remaining(rows, c) - {p.rows[0]});
      StillTableFinishes(rows, rest, p.next);
    }
  }

  lemma StillTableDrainsSorted(rows: set<Key>, fetches: seq<Fetch>)
    requires SingleTable(rows) && forall f :: f in fetches ==> f.limit > 0 && f.rows == rows
    requires |rows| < |fetches|
    ensures Finishes(fetches, None) && Drain(fetches, None) == Sorted(rows)
  {
    assert Remaining(rows, None) == rows;
    StillTableFinishes(rows, fetches, None);
    DrainIsExact(fetches);
    OrderedIsSorted(Drain(fetches, None), rows);
  }
}
