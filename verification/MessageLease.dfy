/** Claiming a message for processing: `tryStart` and the status marks on `processed_messages`.

    A worker runs `tryStart` one SQL statement at a time, interleaved with every other worker.  The
    timestamps it binds are read before the statement that stores them, so each may lag the clock. */
module MessageLease {
  import opened Wrappers

  const STALE_AFTER := 900

  datatype Status = Processing | Summarized | Skipped | Error

  /** `UNIQUE (application_id, provider_message_id)`. */
  datatype Key = Key(application: string, message: string)

  datatype Row = Row(fingerprint: Option<string>, status: Status, updatedAt: int)

  type Table = map<Key, Row>

  /** The unique index on (application, provider, stable fingerprint), where a fingerprint is set.  An
      application has one provider, so the provider adds nothing to the key. */
  predicate FingerprintTaken(t: Table, key: Key, fingerprint: Option<string>) {
    fingerprint.Some?
    && exists k :: k in t && k != key && k.application == key.application && t[k].fingerprint == fingerprint
  }

  /** `INSERT OR IGNORE`: a conflict on either unique constraint inserts nothing. */
  predicate Insertable(t: Table, key: Key, fingerprint: Option<string>) {
    key !in t && !FingerprintTaken(t, key, fingerprint)
  }

  function Insert(t: Table, key: Key, fingerprint: Option<string>, now: int): Table {
    if Insertable(t, key, fingerprint) then t[key := Row(fingerprint, Processing, now)] else t
  }

  /** The WHERE clause of `claimRetry` as bound: the observed status, and staleness if it is
      `processing`.  The observed `updated_at` is not part of it. */
  predicate Reclaimable(t: Table, key: Key, observed: Status, now: int) {
    key in t && t[key].status == observed && (!t[key].status.Processing? || t[key].updatedAt <= now - STALE_AFTER)
  }

  function Coalesce(a: Option<string>, b: Option<string>): Option<string> {
    if a.Some? then a else b
  }

  /** The statement throws when the fingerprint it would store belongs to another row. */
  predicate ReclaimThrows(t: Table, key: Key, observed: Status, fingerprint: Option<string>, now: int) {
    Reclaimable(t, key, observed, now) && FingerprintTaken(t, key, fingerprint)
  }

  function Reclaim(t: Table, key: Key, observed: Status, fingerprint: Option<string>, now: int): Table {
    if Reclaimable(t, key, observed, now) && !FingerprintTaken(t, key, fingerprint)
    then t[key := t[key].(status := Processing, fingerprint := Coalesce(fingerprint, t[key].fingerprint), updatedAt := now)]
    else t
  }

  /** `updateStatus`: no condition on the current status. */
  function Mark(t: Table, key: Key, status: Status, now: int): Table {
    if key in t then t[key := t[key].(status := status, updatedAt := now)] else t
  }

  predicate Prunable(row: Row, olderThan: int) {
    row.updatedAt < olderThan && (row.status.Summarized? || row.status.Skipped?)
  }

  /** Whether an uninterrupted `tryStart` may take the message over from an earlier attempt. */
  predicate MayRetry(t: Table, key: Key, fingerprint: Option<string>, now: int) {
    && key in t
    && (t[key].status.Error? || (t[key].status.Processing? && t[key].updatedAt <= now - STALE_AFTER))
    && !FingerprintTaken(t, key, fingerprint)
  }

  class ProcessedMessageDAO {
    var rows: Table

    /** `tryStart` with nobody else in between: it wins exactly when the message and its fingerprint are
        new, or a retry is allowed and the row is in error or has been processing for 900 seconds. */
    method TryStart(key: Key, fingerprint: Option<string>, allowRetry: bool, now: int) returns (started: bool)
      modifies this
      ensures started <==>
                && (fingerprint.None?
                    || forall k :: k in old(rows) && k != key && k.application == key.application ==>
                         old(rows)[k].fingerprint != fingerprint)
                && (key !in old(rows)
                    || (allowRetry && old(rows)[key].status.Error?)
                    || (allowRetry && old(rows)[key].status.Processing? && old(rows)[key].updatedAt <= now - 900))
      ensures !started ==> rows == old(rows)
      ensures started ==> key in rows
      ensures started ==>
                var kept := if fingerprint.None? && key in old(rows) then old(rows)[key].fingerprint else fingerprint;
                rows[key] == Row(kept, Processing, now)
      ensures started ==> rows.Keys == old(rows.Keys) + {key}
      ensures started ==> forall k :: k in old(rows) && k != key ==> rows[k] == old(rows)[k]
    {
      var conflict := exists k :: k in rows && fingerprint.Some? && k != key && k.application == key.application
                                  && rows[k].fingerprint == fingerprint;
      assert conflict == FingerprintTaken(rows, key, fingerprint);
      var inserted := key !in rows && !conflict;
      if inserted {
        rows := rows[key := Row(fingerprint, Processing, now)];
      }
      if inserted || !allowRetry { return inserted; }
      if key !in rows || (rows[key].status != Processing && rows[key].status != Error) { return false; }
      if fingerprint.Some? && conflict { return false; }
      var observed := rows[key].status;
      var row := rows[key];
      if row.status != observed || (row.status == Processing && row.updatedAt > now - STALE_AFTER) { return false; }
      var kept := if fingerprint.Some? then fingerprint else row.fingerprint;
      rows := rows[key := row.(status := Processing, fingerprint := kept, updatedAt := now)];
      return true;
    }

    method UpdateStatus(key: Key, status: Status, now: int)
      modifies this
      ensures rows == Mark(old(rows), key, status, now)
      ensures rows == if key !in old(rows) then old(rows)
                      else old(rows)[key := Row(old(rows)[key].fingerprint, status, now)]
    {
      if key in rows {
        rows := rows[key := rows[key].(status := status, updatedAt := now)];
      }
    }
  }

  /** The condition on which `tryStart` and its separate statements claim, in the terms of the table. */
  lemma ClaimableIff(t: Table, key: Key, fingerprint: Option<string>, allowRetry: bool, now: int)
    ensures Insertable(t, key, fingerprint) || (allowRetry && MayRetry(t, key, fingerprint, now))
            <==> && (fingerprint.None?
                     || forall k :: k in t && k != key && k.application == key.application ==>
                          t[k].fingerprint != fingerprint)
                 && (key !in t || (allowRetry && t[key].status.Error?)
                     || (allowRetry && t[key].status.Processing? && t[key].updatedAt <= now - 900))
  {
  }

  /** Rows of other applications play no part in it. */
  lemma OtherApplicationsDoNotMatter(t: Table, u: Table, key: Key, fingerprint: Option<string>, allowRetry: bool, now: int)
    requires forall k: Key :: k.application == key.application ==> (k in t <==> k in u) && (k in t ==> t[k] == u[k])
    ensures (Insertable(t, key, fingerprint) || (allowRetry && MayRetry(t, key, fingerprint, now)))
            <==> (Insertable(u, key, fingerprint) || (allowRetry && MayRetry(u, key, fingerprint, now)))
  {
    assert FingerprintTaken(t, key, fingerprint) <==> FingerprintTaken(u, key, fingerprint);
  }

  // ---------- Workers ----------

  /** The statement a worker runs next; `Holding` means its claim succeeded with timestamp `at`. */
  datatype Pc =
    | Inserting(now: int) | Selecting | Matching(observed: Status) | Claiming(observed: Status)
    | Holding(at: int, marked: bool) | Ended

  datatype Worker = Worker(key: Key, fingerprint: Option<string>, allowRetry: bool, pc: Pc)

  /** What happened to one message, oldest first. */
  datatype Entry = Claimed(worker: nat, at: int) | Marked(marker: nat, status: Status) | Deleted

  datatype State = State(rows: Table, clock: int, workers: seq<Worker>, history: map<Key, seq<Entry>>)

  datatype Event =
    | Tick(seconds: nat)
    | Arrive(key: Key, fingerprint: Option<string>, allowRetry: bool)
    | RunInsert(worker: nat)
    | RunSelect(worker: nat)
    | RunMatch(worker: nat)
    | RunClaim(worker: nat, now: int)
    | RunMark(worker: nat, status: Status)
    | Abandon(worker: nat)
    | Prune(olderThan: int, chosen: set<Key>)

  const INITIAL := State(map[], 0, [], map[])

  function HistoryOf(s: State, key: Key): seq<Entry> {
    if key in s.history then s.history[key] else []
  }

  function Note(s: State, key: Key, entry: Entry): State {
    s.(history := s.history[key := HistoryOf(s, key) + [entry]])
  }

  function Goto(s: State, w: nat, pc: Pc): State
    requires w < |s.workers|
  {
    s.(workers := s.workers[w := s.workers[w].(pc := pc)])
  }

  function StepInsert(s: State, w: nat): State
    requires w < |s.workers| && s.workers[w].pc.Inserting?
  {
    var x := s.workers[w];
    if Insertable(s.rows, x.key, x.fingerprint) then
      Goto(Note(s.(rows := Insert(s.rows, x.key, x.fingerprint, x.pc.now)), x.key, Claimed(w, x.pc.now)),
           w, Holding(x.pc.now, false))
    else Goto(s, w, if x.allowRetry then Selecting else Ended)
  }

  function StepSelect(s: State, w: nat): State
    requires w < |s.workers|
  {
    var x := s.workers[w];
    if x.key in s.rows && (s.rows[x.key].status.Processing? || s.rows[x.key].status.Error?)
    then Goto(s, w, Matching(s.rows[x.key].status))
    else Goto(s, w, Ended)
  }

  function StepMatch(s: State, w: nat): State
    requires w < |s.workers| && s.workers[w].pc.Matching?
  {
    var x := s.workers[w];
    if FingerprintTaken(s.rows, x.key, x.fingerprint) then Goto(s, w, Ended)
    else Goto(s, w, Claiming(x.pc.observed))
  }

  function StepClaim(s: State, w: nat, now: int): State
    requires w < |s.workers| && s.workers[w].pc.Claiming?
  {
    var x := s.workers[w];
    if Reclaimable(s.rows, x.key, x.pc.observed, now) && !ReclaimThrows(s.rows, x.key, x.pc.observed, x.fingerprint, now) then
      Goto(Note(s.(rows := Reclaim(s.rows, x.key, x.pc.observed, x.fingerprint, now)), x.key, Claimed(w, now)),
           w, Holding(now, false))
    else Goto(s, w, Ended)
  }

  function StepMark(s: State, w: nat, status: Status): State
    requires w < |s.workers| && s.workers[w].pc.Holding?
  {
    var x := s.workers[w];
    if x.key !in s.rows then Goto(s, w, Holding(x.pc.at, true))
    else Goto(Note(s.(rows := Mark(s.rows, x.key, status, s.clock)), x.key, Marked(w, status)), w, Holding(x.pc.at, true))
  }

  function Step(s: State, e: Event): State {
    match e
    case Tick(seconds) => s.(clock := s.clock + seconds)
    case Arrive(key, fingerprint, allowRetry) =>
      s.(workers := s.workers + [Worker(key, fingerprint, allowRetry, Inserting(s.clock))])
    case RunInsert(w) => if w < |s.workers| && s.workers[w].pc.Inserting? then StepInsert(s, w) else s
    case RunSelect(w) => if w < |s.workers| && s.workers[w].pc.Selecting? then StepSelect(s, w) else s
    case RunMatch(w) => if w < |s.workers| && s.workers[w].pc.Matching? then StepMatch(s, w) else s
    case RunClaim(w, now) =>
      if w < |s.workers| && s.workers[w].pc.Claiming? && now <= s.clock then StepClaim(s, w, now) else s
    case RunMark(w, status) =>
      if w < |s.workers| && s.workers[w].pc.Holding? && !status.Processing? then StepMark(s, w, status) else s
    case Abandon(w) => if w < |s.workers| then Goto(s, w, Ended) else s
    case Prune(olderThan, chosen) =>
      if forall k :: k in chosen ==> k in s.rows && Prunable(s.rows[k], olderThan)
      then s.(rows := s.rows - chosen,
              history := s.history + map k | k in chosen :: HistoryOf(s, k) + [Deleted])
      else s
  }

  function Exec(s: State, events: seq<Event>): State {
    if events == [] then s else Step(Exec(s, events[..|events| - 1]), events[|events| - 1])
  }

  /** A row goes with the retention of messages if and only if it is summarized or skipped, was last written before
      the cutoff, and is among those selected. */
  lemma PrunedIff(s: State, olderThan: int, chosen: set<Key>, key: Key)
    requires key in s.rows
    ensures var s' := Step(s, Prune(olderThan, chosen));
            && (key in s'.rows ==> s'.rows[key] == s.rows[key])
            && (key !in s'.rows ==> s.rows[key].status in {Summarized, Skipped} && s.rows[key].updatedAt < olderThan)
    ensures chosen == {key} && s.rows[key].status in {Summarized, Skipped} && s.rows[key].updatedAt < olderThan ==>
              key !in Step(s, Prune(olderThan, chosen)).rows
  {
  }

  // ---------- One worker on its own ----------

  /** Worker `w` runs all its statements with nobody else in between. */
  function Solo(s: State, w: nat, now: int): State {
    Step(Step(Step(Step(s, RunInsert(w)), RunSelect(w)), RunMatch(w)), RunClaim(w, now))
  }

  lemma SoloInsertable(s: State, w: nat)
    requires w < |s.workers| && s.workers[w].pc == Inserting(s.clock)
    requires Insertable(s.rows, s.workers[w].key, s.workers[w].fingerprint)
    ensures Solo(s, w, s.clock) == StepInsert(s, w) && StepInsert(s, w).workers[w].pc.Holding?
  {
  }

  lemma SoloRetry(s: State, w: nat)
    requires w < |s.workers| && s.workers[w].pc == Inserting(s.clock)
    requires !Insertable(s.rows, s.workers[w].key, s.workers[w].fingerprint)
    ensures var x, s' := s.workers[w], Solo(s, w, s.clock);
            && (s'.workers[w].pc.Holding? <==> x.allowRetry && MayRetry(s.rows, x.key, x.fingerprint, s.clock))
            && (s'.workers[w].pc.Holding? ==>
                  s'.rows == s.rows[x.key := Row(Coalesce(x.fingerprint, s.rows[x.key].fingerprint), Processing, s.clock)])
            && (!s'.workers[w].pc.Holding? ==> s'.rows == s.rows)
  {
    hide FingerprintTaken;
    var x := s.workers[w];
    var s1 := Step(s, RunInsert(w));
    assert s1.rows == s.rows;
    if x.allowRetry && x.key in s.rows && (s.rows[x.key].status.Processing? || s.rows[x.key].status.Error?) {
      var s2 := Step(s1, RunSelect(w));
      assert s2.workers[w].pc == Matching(s.rows[x.key].status);
      var s3 := Step(s2, RunMatch(w));
      assert s3.rows == s.rows;
    }
  }

  /** The statements of one worker, run without interruption, claim exactly when `TryStart` does and leave
      the table that it leaves. */
  lemma SoloIsTryStart(s: State, w: nat)
    requires w < |s.workers| && s.workers[w].pc == Inserting(s.clock)
    ensures var x, s' := s.workers[w], Solo(s, w, s.clock);
            && (s'.workers[w].pc.Holding? <==>
                  && (x.fingerprint.None?
                      || forall k :: k in s.rows && k != x.key && k.application == x.key.application ==>
                           s.rows[k].fingerprint != x.fingerprint)
                  && (x.key !in s.rows || (x.allowRetry && s.rows[x.key].status.Error?)
                      || (x.allowRetry && s.rows[x.key].status.Processing? && s.rows[x.key].updatedAt <= s.clock - 900)))
            && s'.rows == if s'.workers[w].pc.Holding?
                          then s.rows[x.key := Row(if x.fingerprint.None? && x.key in s.rows then s.rows[x.key].fingerprint
                                                   else x.fingerprint, Processing, s.clock)]
                          else s.rows
  {
    var x := s.workers[w];
    ClaimableIff(s.rows, x.key, x.fingerprint, x.allowRetry, s.clock);
    hide Solo;
    hide FingerprintTaken;
    if Insertable(s.rows, x.key, x.fingerprint) {
      SoloInsertable(s, w);
    } else {
      SoloRetry(s, w);
    }
  }

  // ---------- The lease ----------

  /** What may follow what in one message's history. */
  predicate Follows(before: Option<Entry>, next: Entry) {
    match next
    case Claimed(_, at) =>
      || before.None? || before.value.Deleted? || (before.value.Marked? && before.value.status.Error?)
      || (before.value.Claimed? && at >= before.value.at + STALE_AFTER)
    case Marked(_, status) => before.Some? && !before.value.Deleted? && !status.Processing?
    case Deleted =>
      before.Some? && before.value.Marked? && (before.value.status.Summarized? || before.value.status.Skipped?)
  }

  function Last(h: seq<Entry>): Option<Entry> {
    if h == [] then None else Some(h[|h| - 1])
  }

  predicate Legal(h: seq<Entry>) {
    forall i :: 0 <= i < |h| ==> Follows(Last(h[..i]), h[i])
  }

  /** The row is exactly what the end of the history says it is. */
  predicate Agrees(t: Table, key: Key, h: seq<Entry>) {
    match Last(h)
    case None => key !in t
    case Some(Deleted) => key !in t
    case Some(Claimed(_, at)) => key in t && t[key].status.Processing? && t[key].updatedAt == at
    case Some(Marked(_, status)) => key in t && t[key].status == status && !status.Processing?
  }

  predicate KeyOk(s: State, key: Key) {
    Legal(HistoryOf(s, key)) && Agrees(s.rows, key, HistoryOf(s, key))
  }

  predicate WorkerOk(x: Worker, clock: int) {
    match x.pc
    case Inserting(now) => now <= clock
    case Matching(observed) => observed.Processing? || observed.Error?
    case Claiming(observed) => observed.Processing? || observed.Error?
    case Holding(at, _) => at <= clock
    case _ => true
  }

  ghost predicate LeaseInv(s: State) {
    && (forall key :: KeyOk(s, key))
    && (forall w :: 0 <= w < |s.workers| ==> WorkerOk(s.workers[w], s.clock))
  }

  lemma LegalSnoc(h: seq<Entry>, e: Entry)
    requires Legal(h) && Follows(Last(h), e)
    ensures Legal(h + [e])
  {
    forall i | 0 <= i < |h + [e]| ensures Follows(Last((h + [e])[..i]), (h + [e])[i]) {
      assert (h + [e])[..i] == h[..i];
      assert i == |h| ==> h[..i] == h;
    }
  }

  /** A turn that changes one row and appends the matching entry to that message's history. */
  lemma NoteKeepsLeaseInv(s: State, s': State, key: Key, entry: Entry, w: nat)
    requires LeaseInv(s) && w < |s.workers| == |s'.workers| && s'.clock == s.clock
    requires Follows(Last(HistoryOf(s, key)), entry)
    requires s'.history == s.history[key := HistoryOf(s, key) + [entry]]
    requires forall k :: k != key ==> (k in s'.rows <==> k in s.rows) && (k in s.rows ==> s'.rows[k] == s.rows[k])
    requires Agrees(s'.rows, key, [entry])
    requires forall v :: 0 <= v < |s.workers| && v != w ==> s'.workers[v] == s.workers[v]
    requires WorkerOk(s'.workers[w], s.clock)
    ensures LeaseInv(s')
  {
    assert KeyOk(s, key);
    LegalSnoc(HistoryOf(s, key), entry);
    forall k ensures KeyOk(s', k) {
      assert KeyOk(s, k);
      if k == key {
        assert HistoryOf(s', k) == HistoryOf(s, key) + [entry];
      } else {
        assert HistoryOf(s', k) == HistoryOf(s, k);
      }
    }
  }

  /** A turn that leaves rows and histories alone. */
  lemma QuietTurnKeepsLeaseInv(s: State, s': State)
    requires LeaseInv(s) && s'.rows == s.rows && s'.history == s.history
    requires forall w :: 0 <= w < |s'.workers| ==> WorkerOk(s'.workers[w], s'.clock)
    ensures LeaseInv(s')
  {
    forall k ensures KeyOk(s', k) {
      assert KeyOk(s, k);
    }
  }

  lemma InsertKeepsLeaseInv(s: State, w: nat)
    requires LeaseInv(s) && w < |s.workers| && s.workers[w].pc.Inserting?
    ensures LeaseInv(StepInsert(s, w))
  {
    var x := s.workers[w];
    assert KeyOk(s, x.key) && WorkerOk(x, s.clock);
    if Insertable(s.rows, x.key, x.fingerprint) {
      NoteKeepsLeaseInv(s, StepInsert(s, w), x.key, Claimed(w, x.pc.now), w);
    } else {
      QuietTurnKeepsLeaseInv(s, StepInsert(s, w));
    }
  }

  lemma ClaimKeepsLeaseInv(s: State, w: nat, now: int)
    requires LeaseInv(s) && w < |s.workers| && s.workers[w].pc.Claiming? && now <= s.clock
    ensures LeaseInv(StepClaim(s, w, now))
  {
    var x := s.workers[w];
    assert KeyOk(s, x.key) && WorkerOk(x, s.clock);
    if Reclaimable(s.rows, x.key, x.pc.observed, now) && !ReclaimThrows(s.rows, x.key, x.pc.observed, x.fingerprint, now) {
      NoteKeepsLeaseInv(s, StepClaim(s, w, now), x.key, Claimed(w, now), w);
    } else {
      QuietTurnKeepsLeaseInv(s, StepClaim(s, w, now));
    }
  }

  lemma MarkKeepsLeaseInv(s: State, w: nat, status: Status)
    requires LeaseInv(s) && w < |s.workers| && s.workers[w].pc.Holding? && !status.Processing?
    ensures LeaseInv(StepMark(s, w, status))
  {
    var x := s.workers[w];
    assert KeyOk(s, x.key) && WorkerOk(x, s.clock);
    if x.key in s.rows {
      NoteKeepsLeaseInv(s, StepMark(s, w, status), x.key, Marked(w, status), w);
    } else {
      QuietTurnKeepsLeaseInv(s, StepMark(s, w, status));
    }
  }

  lemma PruneKeepsLeaseInv(s: State, olderThan: int, chosen: set<Key>)
    requires LeaseInv(s)
    ensures LeaseInv(Step(s, Prune(olderThan, chosen)))
  {
    var s' := Step(s, Prune(olderThan, chosen));
    forall k ensures KeyOk(s', k) {
      assert KeyOk(s, k);
      if k in chosen && HistoryOf(s', k) != HistoryOf(s, k) {
        LegalSnoc(HistoryOf(s, k), Deleted);
      }
    }
  }

  lemma StepKeepsLeaseInv(s: State, e: Event)
    requires LeaseInv(s)
    ensures LeaseInv(Step(s, e))
  {
    match e {
      case RunInsert(w) => if w < |s.workers| && s.workers[w].pc.Inserting? { InsertKeepsLeaseInv(s, w); }
      case RunClaim(w, now) =>
        if w < |s.workers| && s.workers[w].pc.Claiming? && now <= s.clock { ClaimKeepsLeaseInv(s, w, now); }
      case RunMark(w, status) =>
        if w < |s.workers| && s.workers[w].pc.Holding? && !status.Processing? { MarkKeepsLeaseInv(s, w, status); }
      case Prune(olderThan, chosen) => PruneKeepsLeaseInv(s, olderThan, chosen);
      case _ => QuietTurnKeepsLeaseInv(s, Step(s, e));
    }
  }

  lemma {:induction false} ExecKeepsLeaseInv(s: State, events: seq<Event>)
    requires LeaseInv(s)
    ensures LeaseInv(Exec(s, events))
  {
    if events != [] {
      ExecKeepsLeaseInv(s, events[..|events| - 1]);
      StepKeepsLeaseInv(Exec(s, events[..|events| - 1]), events[|events| - 1]);
    }
  }

  lemma {:induction false} ClaimsApart(h: seq<Entry>, i: nat, j: nat)
    requires Legal(h) && i < j < |h| && forall k :: i <= k <= j ==> h[k].Claimed?
    ensures h[j].at >= h[i].at + STALE_AFTER * (j - i)
    decreases j
  {
    assert Follows(Last(h[..j]), h[j]) && Last(h[..j]) == Some(h[j - 1]);
    if i < j - 1 { ClaimsApart(h, i, j - 1); }
  }

  predicate LeaseRespected(h: seq<Entry>) {
    && (forall i, j :: 0 <= i < j < |h| && (forall k :: i <= k <= j ==> h[k].Claimed?) ==>
          h[j].at >= h[i].at + STALE_AFTER * (j - i))
    && (forall j :: 0 < j < |h| && h[j].Claimed? && h[j - 1].Marked? ==> h[j - 1].status.Error?)
  }

  lemma LegalRespectsLease(h: seq<Entry>)
    requires Legal(h)
    ensures LeaseRespected(h)
  {
    forall i, j | 0 <= i < j < |h| && (forall k :: i <= k <= j ==> h[k].Claimed?)
      ensures h[j].at >= h[i].at + STALE_AFTER * (j - i)
    {
      ClaimsApart(h, i, j);
    }
    forall j | 0 < j < |h| && h[j].Claimed? && h[j - 1].Marked? ensures h[j - 1].status.Error? {
      assert Follows(Last(h[..j]), h[j]) && Last(h[..j]) == Some(h[j - 1]);
    }
  }

  /** With no mark in between, successive claims of one message carry timestamps at least 900 seconds
      apart each; and a claim never comes straight after the message was summarized or skipped. */
  lemma LeaseHolds(events: seq<Event>, key: Key)
    ensures LeaseRespected(HistoryOf(Exec(INITIAL, events), key))
  {
    ExecKeepsLeaseInv(INITIAL, events);
    assert KeyOk(Exec(INITIAL, events), key);
    LegalRespectsLease(HistoryOf(Exec(INITIAL, events), key));
  }

  /** No two messages of an application hold the same fingerprint. */
  ghost predicate FingerprintsUnique(t: Table) {
    forall k, m :: k in t && m in t && k != m && k.application == m.application && t[k].fingerprint.Some? ==>
      t[k].fingerprint != t[m].fingerprint
  }

  lemma StepKeepsFingerprints(s: State, e: Event)
    requires FingerprintsUnique(s.rows)
    ensures FingerprintsUnique(Step(s, e).rows)
  {
  }

  lemma {:induction false} OneRowPerFingerprint(events: seq<Event>)
    ensures FingerprintsUnique(Exec(INITIAL, events).rows)
  {
    if events != [] {
      OneRowPerFingerprint(events[..|events| - 1]);
      StepKeepsFingerprints(Exec(INITIAL, events[..|events| - 1]), events[|events| - 1]);
    }
  }

  // ---------- Prompt workers ----------

  /** Every mark is the first of its claim and comes less than 900 seconds after it. */
  predicate PromptMark(s: State, e: Event) {
    e.RunMark? && e.worker < |s.workers| && s.workers[e.worker].pc.Holding? ==>
      !s.workers[e.worker].pc.marked && s.clock < s.workers[e.worker].pc.at + STALE_AFTER
  }

  predicate Prompt(s: State, events: seq<Event>) {
    events == [] || (Prompt(s, events[..|events| - 1]) && PromptMark(Exec(s, events[..|events| - 1]), events[|events| - 1]))
  }

  /** In a prompt history every mark answers the claim right before it, and nothing but pruning follows
      a final status. */
  predicate Alternates(h: seq<Entry>) {
    && (forall j :: 0 <= j < |h| && h[j].Marked? ==> j > 0 && h[j - 1].Claimed? && h[j - 1].worker == h[j].marker)
    && (forall j :: 0 < j < |h| && h[j - 1].Marked? && !h[j - 1].status.Error? ==> h[j].Deleted?)
  }

  /** A worker that may still mark holds the newest claim of its message. */
  predicate LiveHoldsNewest(s: State, w: nat) {
    w < |s.workers| && s.workers[w].pc.Holding? && !s.workers[w].pc.marked && s.clock < s.workers[w].pc.at + STALE_AFTER ==>
      Last(HistoryOf(s, s.workers[w].key)) == Some(Claimed(w, s.workers[w].pc.at))
  }

  ghost predicate PromptInv(s: State) {
    && LeaseInv(s)
    && (forall key :: Alternates(HistoryOf(s, key)))
    && (forall w: nat :: LiveHoldsNewest(s, w))
  }

  lemma AlternatesSnoc(h: seq<Entry>, e: Entry)
    requires Alternates(h) && Follows(Last(h), e)
    requires e.Marked? ==> Last(h).Some? && Last(h).value.Claimed? && Last(h).value.worker == e.marker
    ensures Alternates(h + [e])
  {
  }

  /** A turn in which worker `w` appends its own claim, or its own mark, to its message's history. */
  lemma NoteKeepsPromptInv(s: State, s': State, entry: Entry, w: nat)
    requires PromptInv(s) && LeaseInv(s') && w < |s.workers| == |s'.workers| && s'.clock == s.clock
    requires Follows(Last(HistoryOf(s, s.workers[w].key)), entry)
    requires s'.history == s.history[s.workers[w].key := HistoryOf(s, s.workers[w].key) + [entry]]
    requires forall v :: 0 <= v < |s.workers| && v != w ==> s'.workers[v] == s.workers[v]
    requires s'.workers[w].key == s.workers[w].key && s'.workers[w].pc.Holding?
    requires match entry
             case Claimed(v, at) => v == w && at <= s.clock && s'.workers[w].pc == Holding(at, false)
             case Marked(v, _) => v == w && s'.workers[w].pc.marked
                                  && Last(HistoryOf(s, s.workers[w].key)) == Some(Claimed(w, s'.workers[w].pc.at))
             case Deleted => false
    ensures PromptInv(s')
  {
    var key := s.workers[w].key;
    var h := HistoryOf(s, key);
    forall k ensures Alternates(HistoryOf(s', k)) {
      assert Alternates(HistoryOf(s, k));
      if k == key { AlternatesSnoc(h, entry); }
    }
    forall v: nat ensures LiveHoldsNewest(s', v) {
      assert LiveHoldsNewest(s, v);
      assert v < |s.workers| && v != w && s.workers[v].key != key ==>
          HistoryOf(s', s.workers[v].key) == HistoryOf(s, s.workers[v].key);
    }
  }

  lemma QuietTurnKeepsPromptInv(s: State, s': State)
    requires PromptInv(s) && LeaseInv(s') && s'.history == s.history && s'.clock >= s.clock && |s'.workers| >= |s.workers|
    requires forall v :: 0 <= v < |s'.workers| && s'.workers[v].pc.Holding? && !s'.workers[v].pc.marked ==>
               v < |s.workers| && s'.workers[v] == s.workers[v]
    ensures PromptInv(s')
  {
    forall k ensures Alternates(HistoryOf(s', k)) {
      assert Alternates(HistoryOf(s, k));
    }
    forall v: nat ensures LiveHoldsNewest(s', v) {
      assert LiveHoldsNewest(s, v);
    }
  }

  lemma PruneKeepsPromptInv(s: State, olderThan: int, chosen: set<Key>)
    requires PromptInv(s)
    ensures PromptInv(Step(s, Prune(olderThan, chosen)))
  {
    var s' := Step(s, Prune(olderThan, chosen));
    PruneKeepsLeaseInv(s, olderThan, chosen);
    forall k ensures Alternates(HistoryOf(s', k)) {
      assert Alternates(HistoryOf(s, k)) && KeyOk(s, k);
      if HistoryOf(s', k) != HistoryOf(s, k) { AlternatesSnoc(HistoryOf(s, k), Deleted); }
    }
    forall v: nat ensures LiveHoldsNewest(s', v) {
      assert LiveHoldsNewest(s, v);
      if v < |s.workers| { assert KeyOk(s, s.workers[v].key); }
    }
  }

  lemma InsertKeepsPromptInv(s: State, w: nat)
    requires PromptInv(s) && w < |s.workers| && s.workers[w].pc.Inserting?
    ensures PromptInv(StepInsert(s, w))
  {
    var x := s.workers[w];
    InsertKeepsLeaseInv(s, w);
    assert KeyOk(s, x.key) && WorkerOk(x, s.clock);
    if Insertable(s.rows, x.key, x.fingerprint) {
      NoteKeepsPromptInv(s, StepInsert(s, w), Claimed(w, x.pc.now), w);
    } else {
      QuietTurnKeepsPromptInv(s, StepInsert(s, w));
    }
  }

  lemma ClaimKeepsPromptInv(s: State, w: nat, now: int)
    requires PromptInv(s) && w < |s.workers| && s.workers[w].pc.Claiming? && now <= s.clock
    ensures PromptInv(StepClaim(s, w, now))
  {
    var x := s.workers[w];
    ClaimKeepsLeaseInv(s, w, now);
    assert KeyOk(s, x.key) && WorkerOk(x, s.clock);
    if Reclaimable(s.rows, x.key, x.pc.observed, now) && !ReclaimThrows(s.rows, x.key, x.pc.observed, x.fingerprint, now) {
      NoteKeepsPromptInv(s, StepClaim(s, w, now), Claimed(w, now), w);
    } else {
      QuietTurnKeepsPromptInv(s, StepClaim(s, w, now));
    }
  }

  lemma MarkKeepsPromptInv(s: State, w: nat, status: Status)
    requires PromptInv(s) && w < |s.workers| && s.workers[w].pc.Holding? && !status.Processing?
    requires PromptMark(s, RunMark(w, status))
    ensures PromptInv(StepMark(s, w, status))
  {
    var x := s.workers[w];
    MarkKeepsLeaseInv(s, w, status);
    assert KeyOk(s, x.key) && LiveHoldsNewest(s, w);
    NoteKeepsPromptInv(s, StepMark(s, w, status), Marked(w, status), w);
  }

  lemma StepKeepsPromptInv(s: State, e: Event)
    requires PromptInv(s) && PromptMark(s, e)
    ensures PromptInv(Step(s, e))
  {
    StepKeepsLeaseInv(s, e);
    match e {
      case RunInsert(w) => if w < |s.workers| && s.workers[w].pc.Inserting? { InsertKeepsPromptInv(s, w); }
      case RunClaim(w, now) =>
        if w < |s.workers| && s.workers[w].pc.Claiming? && now <= s.clock { ClaimKeepsPromptInv(s, w, now); }
      case RunMark(w, status) =>
        if w < |s.workers| && s.workers[w].pc.Holding? && !status.Processing? { MarkKeepsPromptInv(s, w, status); }
      case Prune(olderThan, chosen) => PruneKeepsPromptInv(s, olderThan, chosen);
      case _ => QuietTurnKeepsPromptInv(s, Step(s, e));
    }
  }

  lemma {:induction false} ExecKeepsPromptInv(s: State, events: seq<Event>)
    requires PromptInv(s) && Prompt(s, events)
    ensures PromptInv(Exec(s, events))
  {
    if events != [] {
      ExecKeepsPromptInv(s, events[..|events| - 1]);
      StepKeepsPromptInv(Exec(s, events[..|events| - 1]), events[|events| - 1]);
    }
  }

  /** Worker `w` holds an unanswered claim on `key` that is less than 900 seconds old. */
  predicate MayMark(s: State, w: nat, key: Key) {
    w < |s.workers| && s.workers[w].key == key
    && s.workers[w].pc.Holding? && !s.workers[w].pc.marked && s.clock < s.workers[w].pc.at + STALE_AFTER
  }

  predicate IsSummary(e: Entry) {
    e.Marked? && e.status.Summarized?
  }

  /** Between two summaries of one message the message was pruned. */
  predicate SummarizedOnce(h: seq<Entry>) {
    forall i, j :: 0 <= i < j < |h| && IsSummary(h[i]) && IsSummary(h[j]) ==> exists k :: i < k < j && h[k].Deleted?
  }

  lemma AlternatingSummarizesOnce(h: seq<Entry>)
    requires Alternates(h)
    ensures SummarizedOnce(h)
  {
    forall i, j | 0 <= i < j < |h| && IsSummary(h[i]) && IsSummary(h[j]) ensures exists k :: i < k < j && h[k].Deleted? {
      assert h[(i + 1) - 1].Marked?;
      assert h[i + 1].Deleted?;
    }
  }

  /** If every worker marks at most once and within 900 seconds of its claim, claims and marks alternate
      apart from abandoned claims, at most one worker may still mark any message, a message is summarized
      at most once between prunings, and whatever status was marked last is the row's until the next claim
      or pruning. */
  lemma PromptWorkersAlternate(events: seq<Event>, key: Key)
    requires Prompt(INITIAL, events)
    ensures var s := Exec(INITIAL, events);
            var h := HistoryOf(s, key);
            && Alternates(h) && SummarizedOnce(h)
            && (h != [] && h[|h| - 1].Marked? ==> key in s.rows && s.rows[key].status == h[|h| - 1].status)
            && (forall v: nat, w: nat :: MayMark(s, v, key) && MayMark(s, w, key) ==> v == w)
  {
    ExecKeepsPromptInv(INITIAL, events);
    var s := Exec(INITIAL, events);
    assert KeyOk(s, key);
    AlternatingSummarizesOnce(HistoryOf(s, key));
    forall v: nat, w: nat | MayMark(s, v, key) && MayMark(s, w, key) ensures v == w {
      assert LiveHoldsNewest(s, v) && LiveHoldsNewest(s, w);
    }
  }

  // ---------- When a final mark is final ----------

  /** Worker `w` holds a claim on `key` that it has not answered, however old. */
  predicate Unanswered(s: State, w: nat, key: Key) {
    w < |s.workers| && s.workers[w].key == key && s.workers[w].pc.Holding? && !s.workers[w].pc.marked
  }

  predicate AnswersOnce(s: State, e: Event) {
    e.RunMark? && e.worker < |s.workers| && s.workers[e.worker].pc.Holding? ==> !s.workers[e.worker].pc.marked
  }

  /** Every claim is marked at most once. */
  predicate AnswersOnceRun(s: State, events: seq<Event>) {
    events == []
    || (AnswersOnceRun(s, events[..|events| - 1]) && AnswersOnce(Exec(s, events[..|events| - 1]), events[|events| - 1]))
  }

  predicate IsFinal(h: seq<Entry>) {
    h != [] && h[|h| - 1].Marked? && (h[|h| - 1].status.Summarized? || h[|h| - 1].status.Skipped?)
  }

  /** Nothing followed `h` but its message's pruning and what came after that. */
  predicate StaysFinal(h: seq<Entry>, h': seq<Entry>) {
    h <= h' && (|h| < |h'| ==> h'[|h|].Deleted?)
  }

  ghost predicate FinalFor(s: State, key: Key, h: seq<Entry>) {
    var h' := HistoryOf(s, key);
    (h' == h && forall w: nat :: !Unanswered(s, w, key)) || (h < h' && h'[|h|].Deleted?)
  }

  lemma HistoryGrows(s: State, e: Event, key: Key)
    ensures HistoryOf(s, key) <= HistoryOf(Step(s, e), key)
  {
  }

  /** Nobody can claim a message that was summarized or skipped and is still there. */
  lemma FinalIsUnclaimable(s: State, key: Key)
    requires LeaseInv(s) && IsFinal(HistoryOf(s, key))
    ensures key in s.rows && !s.rows[key].status.Processing? && !s.rows[key].status.Error?
    ensures forall w :: 0 <= w < |s.workers| && s.workers[w].pc.Claiming? ==>
              s.workers[w].pc.observed.Processing? || s.workers[w].pc.observed.Error?
  {
    assert KeyOk(s, key);
    forall w | 0 <= w < |s.workers| ensures WorkerOk(s.workers[w], s.clock) {
    }
  }

  lemma FinalStep(s: State, e: Event, key: Key)
    requires LeaseInv(s) && IsFinal(HistoryOf(s, key)) && AnswersOnce(s, e)
    requires forall w: nat :: !Unanswered(s, w, key)
    ensures FinalFor(Step(s, e), key, HistoryOf(s, key))
  {
    FinalIsUnclaimable(s, key);
    hide LeaseInv;
    hide FingerprintTaken;
    assert e.RunMark? ==> !Unanswered(s, e.worker, key);
    var h, s' := HistoryOf(s, key), Step(s, e);
    if HistoryOf(s', key) == h {
      forall w: nat ensures !Unanswered(s', w, key) {
        assert !Unanswered(s, w, key);
      }
    }
  }

  lemma {:induction false} FinalRun(s: State, events: seq<Event>, key: Key)
    requires LeaseInv(s) && IsFinal(HistoryOf(s, key)) && AnswersOnceRun(s, events)
    requires forall w: nat :: !Unanswered(s, w, key)
    ensures FinalFor(Exec(s, events), key, HistoryOf(s, key))
  {
    hide LeaseInv;
    hide Step;
    hide AnswersOnce;
    hide Unanswered;
    if events != [] {
      var init, last := events[..|events| - 1], events[|events| - 1];
      FinalRun(s, init, key);
      ExecKeepsLeaseInv(s, init);
      var mid := Exec(s, init);
      HistoryGrows(mid, last, key);
      if HistoryOf(mid, key) == HistoryOf(s, key) && forall w: nat :: !Unanswered(mid, w, key) {
        FinalStep(mid, last, key);
      }
    }
  }

  /** While each claim is marked at most once: a summary or a skip stays the last word on its message, until that is
      pruned, in every run from here on, if and only if nobody holds an unanswered claim on it now. */
  lemma FinalMarkIff(s: State, key: Key)
    requires LeaseInv(s) && IsFinal(HistoryOf(s, key))
    ensures (forall events :: AnswersOnceRun(s, events) ==> StaysFinal(HistoryOf(s, key), HistoryOf(Exec(s, events), key)))
            <==> forall w: nat :: !Unanswered(s, w, key)
  {
    var h := HistoryOf(s, key);
    if forall w: nat :: !Unanswered(s, w, key) {
      forall events | AnswersOnceRun(s, events) ensures StaysFinal(h, HistoryOf(Exec(s, events), key)) {
        FinalRun(s, events, key);
      }
    } else {
      var w: nat :| Unanswered(s, w, key);
      var events := LateMark(s, key, w);
      assert !StaysFinal(h, HistoryOf(Exec(s, events), key));
    }
  }

  lemma LateMark(s: State, key: Key, w: nat) returns (events: seq<Event>)
    requires LeaseInv(s) && IsFinal(HistoryOf(s, key)) && Unanswered(s, w, key)
    ensures AnswersOnceRun(s, events)
    ensures HistoryOf(Exec(s, events), key) == HistoryOf(s, key) + [Marked(w, Summarized)]
  {
    FinalIsUnclaimable(s, key);
    events := [RunMark(w, Summarized)];
    assert events[..0] == [] && Exec(s, events) == Step(s, RunMark(w, Summarized));
    assert AnswersOnceRun(s, events[..0]);
  }

  lemma Snoc(events: seq<Event>, e: Event) returns (longer: seq<Event>)
    ensures longer == events + [e] && Exec(INITIAL, longer) == Step(Exec(INITIAL, events), e)
  {
    longer := events + [e];
    assert longer[..|events|] == events;
  }

  /** Promptness is needed: a worker that marks after its lease ran out summarizes a message again. */
  lemma LateMarkSummarizesTwice()
    ensures exists events, key :: !SummarizedOnce(HistoryOf(Exec(INITIAL, events), key))
  {
    var key := Key("app", "msg");
    var run := TakenOverRun(key);
    run := Snoc(run, RunMark(1, Summarized));
    assert HistoryOf(Exec(INITIAL, run), key) == [Claimed(0, 0), Claimed(1, 900), Marked(1, Summarized)];
    run := Snoc(run, RunMark(0, Summarized));
    var h := HistoryOf(Exec(INITIAL, run), key);
    assert h == [Claimed(0, 0), Claimed(1, 900), Marked(1, Summarized), Marked(0, Summarized)];
    assert IsSummary(h[2]) && IsSummary(h[3]);
  }

  /** The `updated_at` a worker saw need not be there any more when its claim wins. */
  lemma ClaimWinsAfterChange() returns (events: seq<Event>, more: seq<Event>, w: nat, key: Key)
    ensures var seen, found := Exec(INITIAL, events), Exec(INITIAL, events + more);
            var won := Exec(INITIAL, events + more + [RunClaim(w, 1800)]);
            && w < |seen.workers| && w < |found.workers| && w < |won.workers|
            && seen.workers[w].key == key && seen.workers[w].pc.Matching? && found.workers[w].pc.Claiming?
            && key in seen.rows && key in found.rows && seen.rows[key].updatedAt != found.rows[key].updatedAt
            && won.workers[w].pc.Holding?
  {
    hide Exec;
    hide Step;
    w, key := 1, Key("app", "msg");
    var read := WaitingRun(key);
    SecondSelects(Exec(INITIAL, read), key);
    events := Snoc(read, RunSelect(1));
    var taken := TakenMeanwhile(key, events);
    SecondWins(Exec(INITIAL, taken), key);
    more := taken[|events|..];
    assert taken == events + more;
    var won := Snoc(taken, RunClaim(1, 1800));
  }

  lemma SecondSelects(s: State, key: Key)
    requires var first := Worker(key, None, false, Holding(0, false));
             s == State(map[key := Row(None, Processing, 0)], 900, [first, Worker(key, None, true, Selecting)],
                        map[key := [Claimed(0, 0)]])
    ensures Step(s, RunSelect(1)) == s.(workers := [s.workers[0], Worker(key, None, true, Matching(Processing))])
  {
  }

  lemma SecondWins(s: State, key: Key)
    requires |s.workers| == 3 && s.workers[1] == Worker(key, None, true, Claiming(Processing))
    requires s.clock == 1800 && s.rows == map[key := Row(None, Processing, 900)]
    ensures |Step(s, RunClaim(1, 1800)).workers| == 3 && Step(s, RunClaim(1, 1800)).workers[1].pc.Holding?
  {
  }

  /** A third worker claims the message after the second has read it; a lease later the second is about to claim. */
  lemma TakenMeanwhile(key: Key, read: seq<Event>) returns (run: seq<Event>)
    requires var first := Worker(key, None, false, Holding(0, false));
             Exec(INITIAL, read) == State(map[key := Row(None, Processing, 0)], 900,
                                          [first, Worker(key, None, true, Matching(Processing))], map[key := [Claimed(0, 0)]])
    ensures read <= run
    ensures var first, third := Worker(key, None, false, Holding(0, false)), Worker(key, None, true, Holding(900, false));
            Exec(INITIAL, run) == State(map[key := Row(None, Processing, 900)], 1800,
                                        [first, Worker(key, None, true, Claiming(Processing)), third],
                                        map[key := [Claimed(0, 0), Claimed(2, 900)]])
  {
    hide Exec;
    var first, second := Worker(key, None, false, Holding(0, false)), Worker(key, None, true, Claiming(Processing));
    var rows, history := map[key := Row(None, Processing, 0)], map[key := [Claimed(0, 0)]];
    run := Snoc(read, RunMatch(1));
    assert Exec(INITIAL, run) == State(rows, 900, [first, second], history);
    run := Snoc(run, Arrive(key, None, true));
    assert Exec(INITIAL, run) == State(rows, 900, [first, second, Worker(key, None, true, Inserting(900))], history);
    run := Snoc(run, RunInsert(2));
    assert Exec(INITIAL, run) == State(rows, 900, [first, second, Worker(key, None, true, Selecting)], history);
    run := Snoc(run, RunSelect(2));
    assert Exec(INITIAL, run) == State(rows, 900, [first, second, Worker(key, None, true, Matching(Processing))], history);
    run := Snoc(run, RunMatch(2));
    assert Exec(INITIAL, run) == State(rows, 900, [first, second, Worker(key, None, true, Claiming(Processing))], history);
    var before := Exec(INITIAL, run);
    assert HistoryOf(before, key) + [Claimed(2, 900)] == [Claimed(0, 0), Claimed(2, 900)];
    assert !ReclaimThrows(before.rows, key, Processing, None, 900);
    run := Snoc(run, RunClaim(2, 900));
    var third := Worker(key, None, true, Holding(900, false));
    assert Exec(INITIAL, run) == State(map[key := Row(None, Processing, 900)], 900, [first, second, third],
                                       map[key := [Claimed(0, 0), Claimed(2, 900)]]);
    run := Snoc(run, Tick(900));
  }

  /** The second worker takes the message over exactly when the first one's lease runs out. */
  lemma TakenOverRun(key: Key) returns (run: seq<Event>)
    ensures var s := Exec(INITIAL, run);
            && key in s.rows && |s.workers| == 2 && s.workers[0].key == s.workers[1].key == key
            && s.workers[0].pc == Holding(0, false) && s.workers[1].pc == Holding(900, false)
            && HistoryOf(s, key) == [Claimed(0, 0), Claimed(1, 900)]
  {
    run := WaitingRun(key);
    var s := Exec(INITIAL, run);
    run := Snoc(run, RunSelect(1));
    assert Exec(INITIAL, run) == Goto(s, 1, Matching(Processing));
    run := Snoc(run, RunMatch(1));
    assert Exec(INITIAL, run).workers[1].pc == Claiming(Processing);
    run := Snoc(run, RunClaim(1, 900));
  }

  lemma WaitingRun(key: Key) returns (run: seq<Event>)
    ensures var first := Worker(key, None, false, Holding(0, false));
            Exec(INITIAL, run) == State(map[key := Row(None, Processing, 0)], 900,
                                        [first, Worker(key, None, true, Selecting)], map[key := [Claimed(0, 0)]])
  {
    run := Snoc([], Arrive(key, None, false));
    assert Exec(INITIAL, run) == State(map[], 0, [Worker(key, None, false, Inserting(0))], map[]);
    run := Snoc(run, RunInsert(0));
    var first := Worker(key, None, false, Holding(0, false));
    var s := Exec(INITIAL, run);
    assert s.history[key] == [Claimed(0, 0)];
    assert s.workers == [first] && s.rows == map[key := Row(None, Processing, 0)] && s.history == map[key := [Claimed(0, 0)]];
    run := Snoc(run, Tick(900));
    run := Snoc(run, Arrive(key, None, true));
    assert Exec(INITIAL, run).workers == [first, Worker(key, None, true, Inserting(900))];
    run := Snoc(run, RunInsert(1));
  }
}
