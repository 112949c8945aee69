/** The context audit log: chunked batch inserts that share one timestamp, and its keyset list. */
module AuditLog {
  import opened Wrappers
  import opened Keyset

  const MAX_BOUND_PARAMETERS := 100
  const COLUMNS := 11

  /** Rows per statement: `MAX_BOUND_PARAMETERS / COLUMNS`, rounded down. */
  const CHUNK := 9

  lemma ChunkFillsStatement()
    ensures CHUNK == MAX_BOUND_PARAMETERS / COLUMNS
    ensures Bound(CHUNK) <= MAX_BOUND_PARAMETERS < Bound(CHUNK + 1)
  {
  }

  /** Parameters one statement binds for `rows` rows. */
  function Bound(rows: nat): nat {
    COLUMNS * rows
  }

  datatype Input = Input(document: string, event: string)

  datatype Row = Row(id: int, input: Input, createdAt: int)

  function Flatten(chunks: seq<seq<Row>>): seq<Row> {
    if chunks == [] then [] else Flatten(chunks[..|chunks| - 1]) + chunks[|chunks| - 1]
  }

  function Stamped(inputs: seq<Input>, ids: seq<int>, now: int): seq<Row>
    requires |ids| == |inputs|
  {
    seq(|inputs|, k requires 0 <= k < |inputs| => Row(ids[k], inputs[k], now))
  }

  lemma NextChunk(inputs: seq<Input>, ids: seq<int>, now: int, offset: nat)
    requires |ids| == |inputs| && offset < |inputs|
    ensures var end := if offset + CHUNK < |inputs| then offset + CHUNK else |inputs|;
            var all := Stamped(inputs, ids, now);
            Take(all, offset) + Stamped(inputs[offset..end], ids[offset..end], now) == Take(all, offset + CHUNK)
  {
  }

  lemma NothingFlat()
    ensures Flatten([]) == [] && forall all: seq<Row> :: Take(all, 0) == []
  {
  }

  lemma StampedSize(inputs: seq<Input>, ids: seq<int>, now: int, offset: nat, end: nat)
    requires |ids| == |inputs| && offset <= end <= |inputs|
    ensures |Stamped(inputs[offset..end], ids[offset..end], now)| == end - offset
  {
  }

  lemma StampedRows(inputs: seq<Input>, ids: seq<int>, now: int, offset: nat)
    requires |ids| == |inputs| <= offset
    ensures var all := Stamped(inputs, ids, now);
            && |all| == |inputs| && Take(all, offset) == all
            && forall k :: 0 <= k < |inputs| ==> all[k] == Row(ids[k], inputs[k], now)
  {
  }

  lemma FlattenSnoc(chunks: seq<seq<Row>>, chunk: seq<Row>)
    ensures Flatten(chunks + [chunk]) == Flatten(chunks) + chunk
  {
    assert (chunks + [chunk])[..|chunks|] == chunks;
  }

  /** The keys that the list of one document pages over. */
  function KeysOf(rows: seq<Row>, document: string): set<Key> {
    set r | r in rows && r.input.document == document :: Key(r.createdAt, r.id, 0)
  }

  class ContextAuditLogDAO {
    var rows: seq<Row>

    /** One INSERT; the database refuses a statement with more than 100 bound parameters. */
    method Run(values: seq<Row>) returns (ok: bool)
      modifies this
      ensures ok <==> 11 * |values| <= 100
      ensures rows == if ok then old(rows) + values else old(rows)
    {
      ok := Bound(|values|) <= MAX_BOUND_PARAMETERS;
      if ok { rows := rows + values; }
    }

    /** `insertAuditLogs`: no statement is refused, every input is stored once and in order, all with the
        same timestamp, in as few statements as the parameter cap allows. */
    method InsertAuditLogs(inputs: seq<Input>, ids: seq<int>, now: int) returns (chunks: seq<seq<Row>>)
      requires |ids| == |inputs|
      modifies this
      ensures rows == old(rows) + Stamped(inputs, ids, now) && Flatten(chunks) == Stamped(inputs, ids, now)
      ensures |rows| == |old(rows)| + |inputs|
      ensures forall k :: 0 <= k < |inputs| ==> rows[|old(rows)| + k] == Row(ids[k], inputs[k], now)
      ensures forall c :: c in chunks ==> 0 < |c| && 11 * |c| <= 100
      ensures |inputs| <= |chunks| * 9 < |inputs| + 9
    {
      hide Flatten;
      hide Stamped;
      hide Take;
      chunks := [];
      NothingFlat();
      var offset := 0;
      ghost var all := Stamped(inputs, ids, now);
      while offset < |inputs|
        invariant 0 <= offset == |chunks| * CHUNK < |inputs| + CHUNK
        invariant Flatten(chunks) == Take(all, offset)
        invariant rows == old(rows) + Take(all, offset)
        invariant forall c :: c in chunks ==> 0 < |c| && 11 * |c| <= 100
      {
        var end := if offset + CHUNK < |inputs| then offset + CHUNK else |inputs|;
        var chunk := Stamped(inputs[offset..end], ids[offset..end], now);
        NextChunk(inputs, ids, now, offset);
        var ok := Run(chunk);
        FlattenSnoc(chunks, chunk);
        StampedSize(inputs, ids, now, offset, end);
        assert old(rows) + Take(all, offset) + chunk == old(rows) + (Take(all, offset) + chunk);
        chunks := chunks + [chunk];
        offset := offset + CHUNK;
      }
      StampedRows(inputs, ids, now, offset);
      assert forall k :: 0 <= k < |inputs| ==> rows[|old(rows)| + k] == all[k];
    }

    /** `listAuditLogs`. */
    method ListAuditLogs(document: string, c: Option<Cursor>, limit: int) returns (page: Page)
      ensures page == PageOf(KeysOf(rows, document), c, Clamp(limit, 100))
      ensures |page.rows| <= 100
      ensures forall k :: k in page.rows ==>
                exists r :: r in rows && r.input.document == document && k == Key(r.createdAt, r.id, 0)
      ensures c.None? && page.next.None? ==>
                forall r :: r in rows && r.input.document == document ==> Key(r.createdAt, r.id, 0) in page.rows
    {
      page := List(KeysOf(rows, document), c, limit, 100);
    }
  }

  /** Draining one document's log while batches are appended and old rows deleted between requests: each
      row present throughout comes out exactly once, however many share its timestamp. */
  lemma LogDrainsExactly(logs: seq<seq<Row>>, limits: seq<int>, document: string, fetches: seq<Fetch>)
    requires |logs| == |limits| == |fetches|
    requires forall i :: 0 <= i < |logs| ==> fetches[i] == Fetch(KeysOf(logs[i], document), Clamp(limits[i], 100))
    requires forall f :: f in fetches ==> f.limit > 0
    requires Finishes(fetches, None)
    ensures Ordered(Drain(fetches, None))
    ensures forall k :: k in Drain(fetches, None) ==>
              exists i, r :: 0 <= i < |logs| && r in logs[i] && r.input.document == document && k == Key(r.createdAt, r.id, 0)
    ensures forall r: Row :: r.input.document == document && (forall i :: 0 <= i < |logs| ==> r in logs[i]) ==>
              Key(r.createdAt, r.id, 0) in Drain(fetches, None)
  {
    DrainIsExact(fetches);
    forall r: Row | r.input.document == document && (forall i :: 0 <= i < |logs| ==> r in logs[i])
      ensures Key(r.createdAt, r.id, 0) in Drain(fetches, None)
    {
      forall f | f in fetches ensures Key(r.createdAt, r.id, 0) in f.rows {
        var i :| 0 <= i < |fetches| && fetches[i] == f;
        assert r in logs[i];
      }
    }
  }
}
