/** The activity feed: three tables paged together by one cursor, and its bounded export. */
module ActivityFeed {
  import opened Wrappers
  import opened Keyset

  /** `email_processed` is source 0, `action_created` 1 and `action_executed` 2. */
  const ALL_SOURCES: set<nat> := {0, 1, 2}

  /** The last timestamp of the previous page and, for each source on it, that source's last id. */
  datatype FeedCursor = FeedCursor(beforeTs: int, lastIds: map<nat, int>)

  /** The WHERE clause `pushTiebreak` builds for the row's source. */
  predicate Passes(c: Option<FeedCursor>, e: Key) {
    c.None? || e.ts < c.value.beforeTs
    || (e.source in c.value.lastIds && e.ts == c.value.beforeTs && e.id < c.value.lastIds[e.source])
  }

  /** Sources asked for; none asked for means all. */
  function Active(types: set<nat>): set<nat> {
    if types == {} then ALL_SOURCES else types * ALL_SOURCES
  }

  function FromSource(rows: set<Key>, c: Option<FeedCursor>, source: nat): set<Key> {
    set e | e in rows && e.source == source && Passes(c, e)
  }

  function Rest(rows: set<Key>, types: set<nat>, c: Option<FeedCursor>): set<Key> {
    set e | e in rows && e.source in Active(types) && Passes(c, e)
  }

  /** The id loop of `encodeCursor`: later entries of a source overwrite earlier ones. */
  function LastIds(page: seq<Key>): map<nat, int> {
    if page == [] then map[]
    else LastIds(page[..|page| - 1])[page[|page| - 1].source := page[|page| - 1].id]
  }

  datatype FeedPage = FeedPage(entries: seq<Key>, next: Option<FeedCursor>)

  function CutFeed(merged: seq<Key>, limit: nat): FeedPage
    requires limit > 0
  {
    var entries := Take(merged, limit);
    FeedPage(entries, if |merged| > limit then Some(FeedCursor(entries[|entries| - 1].ts, LastIds(entries))) else None)
  }

  /** The page a reader should get: cut from everything that is left. */
  ghost function FeedPageOf(rows: set<Key>, types: set<nat>, c: Option<FeedCursor>, limit: nat): FeedPage
    requires limit > 0
  {
    CutFeed(Sorted(Rest(rows, types, c)), limit)
  }

  // ---------- One page ----------

  lemma {:induction false} ElementsSize(q: seq<Key>)
    requires Ordered(q)
    ensures |Elements(q)| == |q|
  {
    if q != [] {
      var rest := q[..|q| - 1];
      ElementsSize(rest);
      assert Elements(q) == Elements(rest) + {q[|q| - 1]};
      forall i | 0 <= i < |rest| ensures rest[i] != q[|q| - 1] {
        assert Before(q[i], q[|q| - 1]);
      }
    }
  }

  /** A row beyond its source's first `n` has those `n` in front of it. */
  lemma BehindItsSource(own: set<Key>, q: seq<Key>, fetched: set<Key>, n: nat, x: Key)
    requires Lists(q, own) && x in own && x !in Take(q, n) && Elements(Take(q, n)) <= fetched
    ensures |EarlierIn(fetched, x)| >= n
  {
    assert x in q && |q| > n;
    if n > 0 {
      var head := q[..n];
      InPrefix(q, n, x);
      ElementsSize(head);
      forall w | w in head ensures Before(w, x) {
        var i :| 0 <= i < n && q[i] == w;
        assert i == n - 1 || Before(q[i], q[n - 1]);
      }
      assert Elements(head) <= EarlierIn(fetched, x);
      SubsetSize(Elements(head), EarlierIn(fetched, x));
    }
  }

  ghost function FirstOf(rows: set<Key>, types: set<nat>, c: Option<FeedCursor>, source: nat, n: nat): seq<Key> {
    if source in Active(types) then Take(Sorted(FromSource(rows, c, source)), n) else []
  }

  /** Taking only `limit + 1` rows of each source loses nothing: the merge starts with the same
      `limit + 1` rows as everything that is left. */
  lemma FetchSuffices(rows: set<Key>, types: set<nat>, c: Option<FeedCursor>, n: nat)
    ensures var fetched := Elements(FirstOf(rows, types, c, 0, n)) + Elements(FirstOf(rows, types, c, 1, n))
                           + Elements(FirstOf(rows, types, c, 2, n));
            Take(Sorted(fetched), n) == Take(Sorted(Rest(rows, types, c)), n)
  {
    var all := Rest(rows, types, c);
    var fetched := Elements(FirstOf(rows, types, c, 0, n)) + Elements(FirstOf(rows, types, c, 1, n))
                   + Elements(FirstOf(rows, types, c, 2, n));
    forall source | source in Active(types)
      ensures Elements(FirstOf(rows, types, c, source, n)) <= fetched
      ensures Elements(FirstOf(rows, types, c, source, n)) <= all
    {
      assert source in {0, 1, 2};
      SortedLists(FromSource(rows, c, source));
      TakeIsPart(Sorted(FromSource(rows, c, source)), FromSource(rows, c, source), n);
    }
    forall source | source !in Active(types) ensures Elements(FirstOf(rows, types, c, source, n)) == {} {
    }
    forall x | x in all && x !in fetched ensures |EarlierIn(fetched, x)| >= n {
      SortedLists(FromSource(rows, c, x.source));
      BehindItsSource(FromSource(rows, c, x.source), Sorted(FromSource(rows, c, x.source)), fetched, n, x);
    }
    TopAgrees(all, fetched, n);
  }

  lemma TakeIsPart(q: seq<Key>, rows: set<Key>, n: nat)
    requires Lists(q, rows)
    ensures Elements(Take(q, n)) <= rows
  {
    assert forall k :: k in Take(q, n) ==> k in q;
  }

  /** `results.flat()` and `merged.sort`. */
  method Merge(processed: seq<Key>, created: seq<Key>, executed: seq<Key>) returns (sorted: seq<Key>)
    ensures sorted == Sorted(Elements(processed) + Elements(created) + Elements(executed))
  {
    var merged := processed + created + executed;
    assert Elements(merged) == Elements(processed) + Elements(created) + Elements(executed);
    MergeKeepsAll(merged);
    sorted := Select(Elements(merged), |merged|);
  }

  /** What is left is what was asked for: all three sources when none is named. */
  lemma RestIsAsked(rows: set<Key>, types: set<nat>, c: Option<FeedCursor>)
    ensures forall e :: e in Rest(rows, types, c)
                        <==> e in rows && e.source <= 2 && (types == {} || e.source in types) && Passes(c, e)
  {
  }

  class ActivityDAO {
    /** The rows the caller's scope and application filter leave, tagged with their source. */
    var rows: set<Key>

    method Query(types: set<nat>, c: Option<FeedCursor>, source: nat, fetchLimit: nat) returns (q: seq<Key>)
      ensures q == FirstOf(rows, types, c, source, fetchLimit)
    {
      q := [];
      if source in Active(types) {
        q := Select(FromSource(rows, c, source), fetchLimit);
      }
    }

    /** `listForUser`: three queries of `limit + 1` rows, one merge sort, one slice.  The page is exactly
        the one cut from everything that is left, and that is the rows of the sources asked for, of all three if none
        is, that the cursor admits. */
    method ListForUser(types: set<nat>, c: Option<FeedCursor>, limit: int) returns (page: FeedPage)
      ensures page == FeedPageOf(rows, types, c, Clamp(limit, 100))
      ensures forall e :: e in page.entries ==>
                e in rows && e.source <= 2 && (types == {} || e.source in types) && Passes(c, e)
      ensures page.next.None? ==>
                forall e :: e in rows && e.source <= 2 && (types == {} || e.source in types) && Passes(c, e) ==>
                  e in page.entries
      ensures |page.entries| <= (if limit < 1 then 1 else if limit > 100 then 100 else limit)
      ensures page.next.Some? ==> |page.entries| == (if limit < 1 then 1 else if limit > 100 then 100 else limit)
    {
      var n := Clamp(limit, 100);
      var processed := Query(types, c, 0, n + 1);
      var created := Query(types, c, 1, n + 1);
      var executed := Query(types, c, 2, n + 1);
      var merged := Merge(processed, created, executed);
      FetchSuffices(rows, types, c, n + 1);
      SameCut(merged, Sorted(Rest(rows, types, c)), n);
      page := CutFeed(merged, n);
      PageIsNextEntries(rows, types, c, n);
      RestIsAsked(rows, types, c);
      assert forall e :: e in page.entries <==> e in Elements(page.entries);
    }
  }

  /** So a page holds the next `limit` entries of the sorted union, and a cursor iff more remain. */
  lemma PageIsNextEntries(rows: set<Key>, types: set<nat>, c: Option<FeedCursor>, limit: nat)
    requires limit > 0
    ensures var p := FeedPageOf(rows, types, c, limit);
            && p.entries == Take(Sorted(Rest(rows, types, c)), limit)
            && (p.next.Some? <==> |Rest(rows, types, c)| > limit)
            && Ordered(p.entries) && Elements(p.entries) <= Rest(rows, types, c)
            && (p.next.None? ==> Lists(p.entries, Rest(rows, types, c)))
  {
    SortedLists(Rest(rows, types, c));
    TakeIsPart(Sorted(Rest(rows, types, c)), Rest(rows, types, c), limit);
  }

  lemma MergeKeepsAll(merged: seq<Key>)
    ensures Take(Sorted(Elements(merged)), |merged|) == Sorted(Elements(merged))
  {
    SortedLists(Elements(merged));
    ElementsAtMost(merged);
  }

  lemma {:induction false} ElementsAtMost(q: seq<Key>)
    ensures |Elements(q)| <= |q|
  {
    if q != [] {
      ElementsAtMost(q[1..]);
      assert Elements(q) == Elements(q[1..]) + {q[0]};
    }
  }

  lemma SameCut(a: seq<Key>, b: seq<Key>, n: nat)
    requires n > 0 && Take(a, n + 1) == Take(b, n + 1)
    ensures CutFeed(a, n) == CutFeed(b, n)
  {
    assert |a| > n <==> |Take(a, n + 1)| == n + 1;
    assert |b| > n <==> |Take(b, n + 1)| == n + 1;
    assert Take(a, n) == Take(Take(a, n + 1), n);
    assert Take(b, n) == Take(Take(b, n + 1), n);
  }

  // ---------- What a cursor admits ----------

  /** Entry `f` is the last one of its source on the page. */
  predicate LastOfSource(page: seq<Key>, f: Key) {
    f in page && forall x :: x in page && x.source == f.source && x != f ==> Before(x, f)
  }

  lemma {:induction false} LastIdsAreLast(page: seq<Key>, source: nat)
    requires Ordered(page)
    ensures source in LastIds(page) <==> exists x :: x in page && x.source == source
    ensures source in LastIds(page) ==> exists f :: LastOfSource(page, f) && f.source == source && f.id == LastIds(page)[source]
  {
    if page != [] {
      var init, last := page[..|page| - 1], page[|page| - 1];
      LastIdsAreLast(init, source);
      assert forall x :: x in page <==> x in init || x == last;
      if last.source == source {
        forall x | x in page && x.source == source && x != last ensures Before(x, last) {
          var i :| 0 <= i < |init| && init[i] == x;
          assert Before(page[i], page[|page| - 1]);
        }
        assert LastOfSource(page, last);
      } else if source in LastIds(init) {
        var f :| LastOfSource(init, f) && f.source == source && f.id == LastIds(init)[source];
        assert LastOfSource(page, f);
      }
    }
  }

  predicate NotNewer(q: seq<Key>, e: Key) {
    forall x :: x in q ==> x.ts >= e.ts
  }

  /** Whatever the next cursor admits, from whatever state of the tables, the previous cursor admitted
      too, is not on the page between them, and is no newer than anything there. */
  lemma FeedCutOnlyAdvances(rest: set<Key>, c: Option<FeedCursor>, limit: nat, q: seq<Key>, e: Key)
    requires limit > 0 && Lists(q, rest) && forall x :: x in rest ==> Passes(c, x)
    requires CutFeed(q, limit).next.Some? && Passes(CutFeed(q, limit).next, e)
    ensures Passes(c, e) && e !in CutFeed(q, limit).entries && NotNewer(CutFeed(q, limit).entries, e)
  {
    var page, last := q[..limit], q[limit - 1];
    assert CutFeed(q, limit).entries == page && last in q;
    forall x | x in page ensures x.ts >= last.ts {
      var i :| 0 <= i < limit && q[i] == x;
      assert i == limit - 1 || Before(q[i], q[limit - 1]);
    }
    if e.ts == last.ts {
      LastIdsAreLast(page, e.source);
      var f :| LastOfSource(page, f) && f.source == e.source && f.id == LastIds(page)[e.source];
      assert f in q;
    }
  }

  /** An unreturned row the next cursor shuts out: it shares the boundary timestamp, and its source either
      is not on the page or last appears there with an id that is not greater. */
  predicate LostAt(page: seq<Key>, e: Key)
    requires page != []
  {
    e.ts == page[|page| - 1].ts && !(e.source in LastIds(page) && e.id < LastIds(page)[e.source])
  }

  lemma CutLosesExactly(rest: set<Key>, limit: nat, q: seq<Key>, e: Key)
    requires limit > 0 && Lists(q, rest) && CutFeed(q, limit).next.Some?
    requires e in rest && e !in CutFeed(q, limit).entries
    ensures Passes(CutFeed(q, limit).next, e) <==> !LostAt(CutFeed(q, limit).entries, e)
  {
    assert e in q && CutFeed(q, limit).entries == q[..limit];
    InPrefix(q, limit, e);
  }

  /** No timestamp occurs in two different sources. */
  predicate NoSharedTimestamps(rows: set<Key>) {
    forall a, b :: a in rows && b in rows && a.ts == b.ts ==> a.source == b.source
  }

  lemma CutLosesNothing(rest: set<Key>, limit: nat, q: seq<Key>, e: Key)
    requires limit > 0 && Lists(q, rest) && CutFeed(q, limit).next.Some? && NoSharedTimestamps(rest)
    requires e in rest && e !in CutFeed(q, limit).entries
    ensures Passes(CutFeed(q, limit).next, e)
  {
    var page, last := q[..limit], q[limit - 1];
    assert CutFeed(q, limit).entries == page && page[|page| - 1] == last;
    assert last in q && e in q && last in page;
    InPrefix(q, limit, e);
    CutLosesExactly(rest, limit, q, e);
    if e.ts == last.ts {
      LastIdsAreLast(page, e.source);
      assert page[..limit - 1] + [last] == page;
    }
  }

  /** Page by page: what the next cursor leaves is what was left, less the page, less exactly the rows
      lost at the boundary; and nothing is lost when no two sources share a timestamp. */
  lemma PageAccounting(rows: set<Key>, types: set<nat>, c: Option<FeedCursor>, limit: nat)
    requires limit > 0 && FeedPageOf(rows, types, c, limit).next.Some?
    ensures var p := FeedPageOf(rows, types, c, limit);
            var left := Rest(rows, types, c) - Elements(p.entries);
            && p.entries != [] && Elements(p.entries) <= Rest(rows, types, c)
            && Rest(rows, types, p.next) == (set e | e in left && !LostAt(p.entries, e))
            && (NoSharedTimestamps(Rest(rows, types, c)) ==> Rest(rows, types, p.next) == left)
  {
    var rest := Rest(rows, types, c);
    var q := Sorted(rest);
    SortedLists(rest);
    var p := FeedPageOf(rows, types, c, limit);
    TakeIsPart(q, rest, limit);
    forall e | e in rows && e.source in Active(types)
      ensures Passes(p.next, e) <==> e in rest && e !in p.entries && !LostAt(p.entries, e)
      ensures NoSharedTimestamps(rest) && e in rest && e !in p.entries ==> Passes(p.next, e)
    {
      if Passes(p.next, e) { FeedCutOnlyAdvances(rest, c, limit, q, e); }
      if e in rest && e !in p.entries {
        CutLosesExactly(rest, limit, q, e);
        if NoSharedTimestamps(rest) { CutLosesNothing(rest, limit, q, e); }
      }
    }
  }

  // ---------- Draining ----------

  /** One request of a drain: the tables as they are then, and the page size. */
  datatype FeedFetch = FeedFetch(rows: set<Key>, limit: nat)

  ghost function DrainFeed(fetches: seq<FeedFetch>, types: set<nat>, c: Option<FeedCursor>): seq<Key>
    requires forall f :: f in fetches ==> f.limit > 0
  {
    if fetches == [] then []
    else
      var p := FeedPageOf(fetches[0].rows, types, c, fetches[0].limit);
      if p.next.None? then p.entries else p.entries + DrainFeed(fetches[1..], types, p.next)
  }

  ghost predicate FeedFinishes(fetches: seq<FeedFetch>, types: set<nat>, c: Option<FeedCursor>)
    requires forall f :: f in fetches ==> f.limit > 0
  {
    fetches != []
    && var p := FeedPageOf(fetches[0].rows, types, c, fetches[0].limit);
       p.next.None? || FeedFinishes(fetches[1..], types, p.next)
  }

  /** Newest first by timestamp, and no entry twice. */
  predicate TimeOrderedUnique(q: seq<Key>) {
    forall i, j :: 0 <= i < j < |q| ==> q[i].ts >= q[j].ts && q[i] != q[j]
  }

  lemma TimeOrderedConcat(a: seq<Key>, b: seq<Key>)
    requires Ordered(a) && TimeOrderedUnique(b) && forall y :: y in b ==> y !in a && NotNewer(a, y)
    ensures TimeOrderedUnique(a + b)
  {
    forall i, j | 0 <= i < j < |a + b| ensures (a + b)[i].ts >= (a + b)[j].ts && (a + b)[i] != (a + b)[j] {
      if j < |a| {
        assert Before(a[i], a[j]);
      } else if i < |a| {
        assert a[i] in a && b[j - |a|] in b;
      }
    }
  }

  /** With any ties at all, and while the tables change between requests, a drain is in time order and
      never repeats an entry. */
  lemma {:induction false} DrainNeverRepeats(fetches: seq<FeedFetch>, types: set<nat>, c: Option<FeedCursor>)
    requires forall f :: f in fetches ==> f.limit > 0
    ensures TimeOrderedUnique(DrainFeed(fetches, types, c))
    ensures forall e :: e in DrainFeed(fetches, types, c) ==> Passes(c, e)
  {
    if fetches != [] {
      var rows, limit, later := fetches[0].rows, fetches[0].limit, fetches[1..];
      var p := FeedPageOf(rows, types, c, limit);
      assert fetches[0] in fetches && forall f :: f in later ==> f in fetches;
      PageIsNextEntries(rows, types, c, limit);
      assert forall e :: e in p.entries ==> e in Elements(p.entries);
      TimeOrderedConcat(p.entries, []);
      assert p.entries + [] == p.entries;
      if p.next.Some? {
        var tail := DrainFeed(later, types, p.next);
        DrainNeverRepeats(later, types, p.next);
        SortedLists(Rest(rows, types, c));
        forall e | e in tail ensures Passes(c, e) && e !in p.entries && NotNewer(p.entries, e) {
          FeedCutOnlyAdvances(Rest(rows, types, c), c, limit, Sorted(Rest(rows, types, c)), e);
        }
        TimeOrderedConcat(p.entries, tail);
      }
    }
  }

  /** If no state of the tables has one timestamp in two sources, a row that is there at every request is
      in the drain. */
  lemma {:induction false} DrainMissesNoEntry(fetches: seq<FeedFetch>, types: set<nat>, c: Option<FeedCursor>, e: Key)
    requires forall f :: f in fetches ==> f.limit > 0 && e in f.rows && NoSharedTimestamps(f.rows)
    requires FeedFinishes(fetches, types, c) && Passes(c, e)
    requires e.source <= 2 && (types == {} || e.source in types)
    ensures e in DrainFeed(fetches, types, c)
  {
    var rows, limit, later := fetches[0].rows, fetches[0].limit, fetches[1..];
    assert fetches[0] in fetches && forall f :: f in later ==> f in fetches;
    PageIsNextEntries(rows, types, c, limit);
    var p := FeedPageOf(rows, types, c, limit);
    assert e in Rest(rows, types, c);
    if p.next.Some? && e !in p.entries {
      PageAccounting(rows, types, c, limit);
      assert NoSharedTimestamps(Rest(rows, types, c));
      assert e in Rest(rows, types, p.next);
      DrainMissesNoEntry(later, types, p.next, e);
    }
  }

  // ---------- Tables that stand still ----------

  lemma NextLeavesLess(rows: set<Key>, types: set<nat>, c: Option<FeedCursor>, limit: nat)
    requires limit > 0 && FeedPageOf(rows, types, c, limit).next.Some?
    ensures |Rest(rows, types, FeedPageOf(rows, types, c, limit).next)| < |Rest(rows, types, c)|
  {
    PageAccounting(rows, types, c, limit);
    var p := FeedPageOf(rows, types, c, limit);
    assert p.entries[0] in Elements(p.entries);
    SubsetSize(Rest(rows, types, p.next), Rest(rows, types, c) - {p.entries[0]});
  }

  /** The whole feed read page by page with one page size. */
  ghost function DrainStill(rows: set<Key>, types: set<nat>, c: Option<FeedCursor>, limit: nat): seq<Key>
    requires limit > 0
    decreases |Rest(rows, types, c)|
  {
    var p := FeedPageOf(rows, types, c, limit);
    if p.next.None? then p.entries
    else
      NextLeavesLess(rows, types, c, limit);
      p.entries + DrainStill(rows, types, p.next, limit)
  }

  lemma SplitList(q: seq<Key>, limit: nat, after: seq<Key>)
    requires limit <= |q| && q[limit..] == after
    ensures q == Take(q, limit) + after && |q| == limit + |after|
  {
    assert Take(q, limit) == q[..limit];
  }

  lemma SplitSorted(rest: set<Key>, limit: nat)
    requires limit <= |rest|
    ensures Sorted(rest) == Take(Sorted(rest), limit) + Sorted(rest - Elements(Take(Sorted(rest), limit)))
    ensures |Sorted(rest)| == limit + |Sorted(rest - Elements(Take(Sorted(rest), limit)))|
  {
    SortedLists(rest);
    SortedTail(rest, limit);
    TakeIsPrefix(Sorted(rest), limit);
    SplitList(Sorted(rest), limit, Sorted(rest - Elements(Take(Sorted(rest), limit))));
  }

  lemma TakeIsPrefix(q: seq<Key>, n: nat)
    requires n <= |q|
    ensures Take(q, n) == q[..n]
  {
  }

  /** Without shared timestamps the drain is the sorted union, entry for entry. */
  lemma {:induction false} StillDrainIsSortedUnion(rows: set<Key>, types: set<nat>, c: Option<FeedCursor>, limit: nat)
    requires limit > 0 && NoSharedTimestamps(Rest(rows, types, c))
    ensures DrainStill(rows, types, c, limit) == Sorted(Rest(rows, types, c))
    decreases |Rest(rows, types, c)|
  {
    var p := FeedPageOf(rows, types, c, limit);
    PageIsNextEntries(rows, types, c, limit);
    SortedLists(Rest(rows, types, c));
    if p.next.Some? {
      PageAccounting(rows, types, c, limit);
      NextLeavesLess(rows, types, c, limit);
      SplitSorted(Rest(rows, types, c), limit);
      StillDrainIsSortedUnion(rows, types, p.next, limit);
    }
  }

  lemma SingleLastId(x: Key)
    ensures LastIds([x]) == map[x.source := x.id]
  {
    assert [x][..0] == [];
  }

  /** With pages of one entry, entries that share a timestamp come from one source. */
  lemma {:induction false} SinglesKeepOneSource(rows: set<Key>, types: set<nat>, c: Option<FeedCursor>)
    ensures var q := DrainStill(rows, types, c, 1);
            && (forall e :: e in q ==> Passes(c, e))
            && forall a, b :: a in q && b in q && a.ts == b.ts ==> a.source == b.source
    decreases |Rest(rows, types, c)|
  {
    var p := FeedPageOf(rows, types, c, 1);
    PageIsNextEntries(rows, types, c, 1);
    assert forall e :: e in p.entries ==> e in Elements(p.entries);
    if p.next.Some? {
      NextLeavesLess(rows, types, c, 1);
      SinglesKeepOneSource(rows, types, p.next);
      var x := p.entries[0];
      SingleLastId(x);
      assert p.entries == [x];
      SortedLists(Rest(rows, types, c));
      forall e | e in DrainStill(rows, types, p.next, 1) ensures Passes(c, e) && (e.ts == x.ts ==> e.source == x.source) {
        FeedCutOnlyAdvances(Rest(rows, types, c), c, 1, Sorted(Rest(rows, types, c)), e);
      }
    }
  }

  /** If no two sources share a timestamp, the feed read page by page gives exactly the rows of the sources asked for,
      and of all three if none is. */
  lemma DrainGivesWhatIsAsked(rows: set<Key>, types: set<nat>, limit: nat, e: Key)
    requires limit > 0 && forall a, b :: a in rows && b in rows && a.ts == b.ts ==> a.source == b.source
    ensures e in DrainStill(rows, types, None, limit)
            <==> e in rows && e.source <= 2 && (types == {} || e.source in types)
  {
    RestIsAsked(rows, types, None);
    StillDrainIsSortedUnion(rows, types, None, limit);
    SortedLists(Rest(rows, types, None));
    var q := DrainStill(rows, types, None, limit);
    assert e in q <==> e in Elements(q);
  }

  /** The feed is complete at every page size exactly when no timestamp is shared by two of the sources
      asked for. */
  lemma CompleteIffNoSharedTimestamps(rows: set<Key>, types: set<nat>)
    ensures (forall limit :: limit > 0 ==> Elements(DrainStill(rows, types, None, limit)) == Rest(rows, types, None))
            <==> NoSharedTimestamps(Rest(rows, types, None))
  {
    var all := Rest(rows, types, None);
    if NoSharedTimestamps(all) {
      forall limit | limit > 0 ensures Elements(DrainStill(rows, types, None, limit)) == all {
        StillDrainIsSortedUnion(rows, types, None, limit);
        SortedLists(all);
      }
    } else {
      SinglesKeepOneSource(rows, types, None);
      var a, b :| a in all && b in all && a.ts == b.ts && a.source != b.source;
      assert !(a in Elements(DrainStill(rows, types, None, 1)) && b in Elements(DrainStill(rows, types, None, 1)));
    }
  }

  // ---------- The bounded export ----------

  const EXPORT_PAGE_SIZE := 100
  const EXPORT_MAX_PAGES := 100

  /** What one more page of 100 for each of these states of the tables adds to the file, and whether a cursor is
      left over. */
  ghost function Export(tables: seq<set<Key>>, types: set<nat>, c: Option<FeedCursor>): (seq<Key>, bool)
    requires tables != []
  {
    var p := FeedPageOf(tables[0], types, c, 100);
    if p.next.None? then (p.entries, false)
    else if |tables| == 1 then (p.entries, true)
    else
      var later := Export(tables[1..], types, p.next);
      (p.entries + later.0, later.1)
  }

  /** The do/while loop of `exportActivity`; `tables` holds what the tables are at each request, as others write to
      them in between. */
  method ExportActivity(dao: ActivityDAO, types: set<nat>, tables: seq<set<Key>>)
    returns (entries: seq<Key>, truncated: bool)
    requires |tables| == EXPORT_MAX_PAGES
    modifies dao
    ensures (entries, truncated) == Export(tables, types, None)
  {
    hide Export;
    hide FeedPageOf;
    entries := [];
    var cursor: Option<FeedCursor> := None;
    var pages := 0;
    ghost var file := Export(tables, types, None);
    assert [] + file.0 == file.0 && tables[0..] == tables;
    while true
      invariant 0 <= pages < EXPORT_MAX_PAGES
      invariant file.0 == entries + Export(tables[pages..], types, cursor).0
      invariant file.1 == Export(tables[pages..], types, cursor).1
      decreases EXPORT_MAX_PAGES - pages
    {
      dao.rows := tables[pages];
      var page := dao.ListForUser(types, cursor, EXPORT_PAGE_SIZE);
      ExportUnfolds(tables, pages, types, cursor, entries);
      entries := entries + page.entries;
      cursor := page.next;
      pages := pages + 1;
      if cursor.None? || pages >= EXPORT_MAX_PAGES { break; }
    }
    truncated := cursor.Some?;
  }

  lemma ExportUnfolds(tables: seq<set<Key>>, n: nat, types: set<nat>, c: Option<FeedCursor>, before: seq<Key>)
    requires n < |tables|
    ensures var p, e := FeedPageOf(tables[n], types, c, 100), Export(tables[n..], types, c);
            if p.next.None? || n + 1 == |tables| then e == (p.entries, p.next.Some?)
            else before + e.0 == before + p.entries + Export(tables[n + 1..], types, p.next).0
                 && e.1 == Export(tables[n + 1..], types, p.next).1
  {
    assert tables[n..][1..] == tables[n + 1..];
  }

  function FetchesOf(tables: seq<set<Key>>): (fetches: seq<FeedFetch>)
    ensures |fetches| == |tables| && forall f :: f in fetches ==> f.limit == 100
    ensures forall i :: 0 <= i < |tables| ==> fetches[i] == FeedFetch(tables[i], 100)
  {
    if tables == [] then [] else [FeedFetch(tables[0], 100)] + FetchesOf(tables[1..])
  }

  /** The file is a drain with pages of 100, and it is truncated if and only if that drain does not finish. */
  lemma {:induction false} ExportIsDrain(tables: seq<set<Key>>, types: set<nat>, c: Option<FeedCursor>)
    requires tables != []
    ensures Export(tables, types, c).0 == DrainFeed(FetchesOf(tables), types, c)
    ensures Export(tables, types, c).1 <==> !FeedFinishes(FetchesOf(tables), types, c)
    decreases |tables|
  {
    hide FeedPageOf;
    var p := FeedPageOf(tables[0], types, c, 100);
    assert FetchesOf(tables)[1..] == FetchesOf(tables[1..]);
    if p.next.Some? {
      if |tables| == 1 {
        assert FetchesOf(tables[1..]) == [] && p.entries + [] == p.entries;
      } else {
        ExportIsDrain(tables[1..], types, p.next);
      }
    }
  }

  /** The file never repeats an entry and is in time order, whatever timestamps are shared and however the tables
      change between its requests. */
  lemma ExportNeverRepeats(tables: seq<set<Key>>, types: set<nat>, c: Option<FeedCursor>)
    requires tables != []
    ensures var e := Export(tables, types, c).0; TimeOrderedUnique(e) && forall x :: x in e ==> Passes(c, x)
  {
    ExportIsDrain(tables, types, c);
    DrainNeverRepeats(FetchesOf(tables), types, c);
  }

  /** If no state of the tables has one timestamp in two sources, a file that is not truncated holds every row that
      is there at every request. */
  lemma ExportMissesNoEntry(tables: seq<set<Key>>, types: set<nat>, e: Key)
    requires tables != [] && e.source <= 2 && (types == {} || e.source in types)
    requires forall rows :: rows in tables ==> e in rows && NoSharedTimestamps(rows)
    ensures Export(tables, types, None).1 || e in Export(tables, types, None).0
  {
    ExportIsDrain(tables, types, None);
    if !Export(tables, types, None).1 {
      forall f | f in FetchesOf(tables) ensures f.limit > 0 && e in f.rows && NoSharedTimestamps(f.rows) {
        var i :| 0 <= i < |tables| && FetchesOf(tables)[i] == f;
        assert tables[i] in tables;
      }
      DrainMissesNoEntry(FetchesOf(tables), types, None, e);
    }
  }

  /** Tables that nobody writes to during the export. */
  function Still(rows: set<Key>, pages: nat): seq<set<Key>> {
    seq(pages, _ => rows)
  }

  lemma PrefixGrows(q: seq<Key>, page: seq<Key>, after: seq<Key>, later: seq<Key>, pages: nat)
    requires pages > 1 && q == page + after && |page| == 100 && later == Take(after, 100 * (pages - 1))
    ensures page + later == Take(q, 100 * pages)
    ensures |after| > 100 * (pages - 1) <==> |q| > 100 * pages
  {
  }

  lemma NextLeavesTheTail(rows: set<Key>, types: set<nat>, c: Option<FeedCursor>)
    requires NoSharedTimestamps(Rest(rows, types, c)) && FeedPageOf(rows, types, c, 100).next.Some?
    ensures var p := FeedPageOf(rows, types, c, 100);
            && |p.entries| == 100
            && Sorted(Rest(rows, types, c)) == p.entries + Sorted(Rest(rows, types, p.next))
            && NoSharedTimestamps(Rest(rows, types, p.next))
  {
    PageIsNextEntries(rows, types, c, 100);
    PageAccounting(rows, types, c, 100);
    SortedLists(Rest(rows, types, c));
    SplitSorted(Rest(rows, types, c), 100);
  }

  lemma PageSizes(rows: set<Key>, types: set<nat>, c: Option<FeedCursor>, pages: nat)
    requires pages > 0
    ensures var p, q := FeedPageOf(rows, types, c, 100), Sorted(Rest(rows, types, c));
            && p.entries == Take(q, 100) && (p.next.Some? <==> |q| > 100)
            && (p.next.None? || pages == 1 ==> Take(q, 100 * pages) == Take(q, 100))
            && (p.next.None? ==> |q| <= 100 * pages)
  {
    PageIsNextEntries(rows, types, c, 100);
    SortedLists(Rest(rows, types, c));
  }

  /** When nobody writes meanwhile and no two sources share a timestamp the file is the first `100 * pages` entries of the sorted
      union, truncated iff there are more. */
  lemma {:induction false} ExportIsPrefix(rows: set<Key>, types: set<nat>, c: Option<FeedCursor>, pages: nat)
    requires pages > 0 && NoSharedTimestamps(Rest(rows, types, c))
    ensures var e := Export(Still(rows, pages), types, c);
            && e.0 == Take(Sorted(Rest(rows, types, c)), 100 * pages)
            && (e.1 <==> |Sorted(Rest(rows, types, c))| > 100 * pages)
    decreases pages
  {
    hide FeedPageOf;
    hide Rest;
    hide Sorted;
    hide Take;
    hide NoSharedTimestamps;
    var p := FeedPageOf(rows, types, c, 100);
    PageSizes(rows, types, c, pages);
    assert Still(rows, pages)[1..] == Still(rows, pages - 1);
    if p.next.Some? && pages > 1 {
      NextLeavesTheTail(rows, types, c);
      ExportIsPrefix(rows, types, p.next, pages - 1);
      PrefixGrows(Sorted(Rest(rows, types, c)), p.entries, Sorted(Rest(rows, types, p.next)),
                  Export(Still(rows, pages - 1), types, p.next).0, pages);
    }
  }

  /** `exportActivity` as a whole: at most 10,000 entries. */
  lemma ExportBound(rows: set<Key>, types: set<nat>)
    requires NoSharedTimestamps(Rest(rows, types, None))
    ensures var e := Export(Still(rows, EXPORT_MAX_PAGES), types, None);
            && e.0 == Take(Sorted(Rest(rows, types, None)), 10_000)
            && (e.1 <==> |Rest(rows, types, None)| > 10_000)
  {
    ExportIsPrefix(rows, types, None, EXPORT_MAX_PAGES);
    SortedLists(Rest(rows, types, None));
  }
}
