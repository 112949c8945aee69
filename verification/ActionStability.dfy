/** What can still happen to an action that is scheduled, or that has ended: exactly which turns and which
    executors can undo it. */
module ActionStability {
  import opened Wrappers
  import opened EmailActionTable
  import opened ActionLifecycle

  // ---------- Rows and their messages ----------

  /** Ids are used once, every action's message exists, and no message was written in the future. */
  predicate Keyed(s: State) {
    && s.rows.Keys <= s.used
    && (forall id :: id in s.rows ==> s.rows[id].message in s.messages)
    && (forall m :: m in s.messages ==> s.messages[m].updatedAt <= s.clock)
  }

  lemma ExecutorKeepsRows(s: State, e: nat, outcome: Outcome)
    requires e < |s.execs|
    ensures var s' := StepExecutor(s, e, outcome);
            && s'.rows.Keys == s.rows.Keys && s'.used == s.used && s'.messages == s.messages && s'.clock == s.clock
            && s'.requests == s.requests
            && forall id :: id in s.rows ==>
                 s'.rows[id].message == s.rows[id].message && s'.rows[id].expiresAt == s.rows[id].expiresAt
  {
    ExecutorStatement(s, e, outcome);
    hide StepExecutor;
  }

  lemma StartTurn(s: State, e: nat, outcome: Outcome) returns (pc: Pc)
    requires e < |s.execs| && (s.execs[e].pc.Claiming? || s.execs[e].pc.Handling?)
    ensures var s' := StepExecutor(s, e, outcome);
            s'.execs == s.execs[e := s.execs[e].(pc := pc)]
            && (s'.rows == s.rows || s'.rows == Claim(s.rows, s.execs[e].id, s.clock))
  {
    hide Claim;
    hide Claimable;
    pc := StepExecutor(s, e, outcome).execs[e].pc;
  }

  /** An executor's turn moves that executor alone. */
  lemma ExecutorMoves(s: State, e: nat, outcome: Outcome)
    requires e < |s.execs|
    ensures var s' := StepExecutor(s, e, outcome);
            && |s'.execs| == |s.execs| && s'.execs[e].id == s.execs[e].id && s'.execs[e].snapshot == s.execs[e].snapshot
            && forall y :: 0 <= y < |s.execs| && y != e ==> s'.execs[y] == s.execs[y]
  {
    hide StepExecutor;
    if IsMark(s.execs[e].pc) {
      var pc := MarkTurn(s, e, outcome);
    } else if s.execs[e].pc.Claiming? || s.execs[e].pc.Handling? {
      var pc := StartTurn(s, e, outcome);
    } else {
      var pc := PlainTurn(s, e, outcome);
    }
  }

  lemma StepKeepsKeyed(s: State, e: Event)
    requires Keyed(s)
    ensures Keyed(Step(s, e))
  {
    if e.Advance? && e.exec < |s.execs| { ExecutorKeepsRows(s, e.exec, e.outcome); }
    hide StepExecutor;
  }

  lemma {:induction false} ExecKeepsKeyed(s: State, events: seq<Event>)
    requires Keyed(s)
    ensures Keyed(Exec(s, events))
  {
    if events != [] {
      ExecKeepsKeyed(s, events[..|events| - 1]);
      StepKeepsKeyed(Exec(s, events[..|events| - 1]), events[|events| - 1]);
    }
  }

  lemma StepKeepsClock(s: State, e: Event)
    ensures s.clock <= Step(s, e).clock
  {
  }

  lemma ExecSnoc(s: State, events: seq<Event>, e: Event)
    ensures Exec(s, events + [e]) == Step(Exec(s, events), e)
  {
    assert (events + [e])[..|events|] == events;
  }

  // ---------- A scheduled action until its window ends ----------

  /** The instant at which the window of a scheduled row ends. */
  function WindowEnd(row: Row): int
    requires row.scheduledFor.Some?
  {
    WindowStart(row) + SCHEDULE_BUFFER
  }

  /** The turn of an executor that may write to its row. */
  predicate Writes(pc: Pc, outcome: Outcome) {
    (pc.Claiming? || IsMark(pc)) && !outcome.Threw?
  }

  /** The turns that act on this action: an executor's claim or mark that takes effect, a request, the cleanup
      of its message's pending actions, the deletion of its application; and retention below the periods of 31
      days for actions and `keep` days for messages. */
  predicate Touches(s: State, e: Event, id: ActionId, keep: nat) {
    match e
    case Advance(x, outcome) => x < |s.execs| && s.execs[x].id == id && Writes(s.execs[x].pc, outcome)
    case Apply(r) => r < |s.requests| && s.requests[r].id == id
    case DropMessage(message) => id in s.rows && s.rows[id].message == message
    case DeleteApplication(application) =>
      id in s.rows && s.rows[id].message in s.messages && s.messages[s.rows[id].message].application == application
    case Prune(days, _) => days < 31
    case PruneMessages(days, _) => days < keep
    case _ => false
  }

  predicate Untouched(s: State, events: seq<Event>, id: ActionId, keep: nat) {
    events == []
    || (Untouched(s, events[..|events| - 1], id, keep)
        && !Touches(Exec(s, events[..|events| - 1]), events[|events| - 1], id, keep))
  }

  /** From when the retention of a message counts at the earliest: its last mark, or now while it has no final
      one. */
  function Since(s: State, message: string): int
    requires message in s.messages
  {
    if s.messages[message].final then s.messages[message].updatedAt else s.clock
  }

  /** The message cannot be pruned before `end`. */
  predicate Kept(s: State, message: string, keep: nat, end: int) {
    message in s.messages && Since(s, message) + keep * DAY >= end - 1
  }

  lemma WriterlessTurn(s: State, e: nat, outcome: Outcome, id: ActionId)
    requires e < |s.execs| && id in s.rows && !(s.execs[e].id == id && Writes(s.execs[e].pc, outcome))
    ensures id in StepExecutor(s, e, outcome).rows && StepExecutor(s, e, outcome).rows[id] == s.rows[id]
  {
    ExecutorStatement(s, e, outcome);
    if s.execs[e].id == id { assert StepExecutor(s, e, outcome).rows == s.rows; }
    hide StepExecutor;
  }

  lemma UntouchedRow(s: State, e: Event, id: ActionId, keep: nat)
    requires TimeInv(s) && Keyed(s) && IsPending(s.rows, id) && s.rows[id].scheduledFor.Some?
    requires s.clock < WindowEnd(s.rows[id]) && !e.PruneMessages? && !Touches(s, e, id, keep)
    ensures id in Step(s, e).rows && Step(s, e).rows[id] == s.rows[id]
  {
    if e.Advance? && e.exec < |s.execs| { WriterlessTurn(s, e.exec, e.outcome, id); }
    WindowIsSafe(s, id, if e.Prune? && e.retentionDays >= 31 then e.retentionDays else 31);
    hide StepExecutor;
    hide TimeInv;
  }

  lemma UntouchedMessage(s: State, e: Event, message: string, keep: nat, end: int)
    requires Kept(s, message, keep, end) && (forall m :: m in s.messages ==> s.messages[m].updatedAt <= s.clock)
    requires !e.PruneMessages?
    requires e.DeleteApplication? ==> s.messages[message].application != e.application
    ensures Kept(Step(s, e), message, keep, end)
  {
    if e.Advance? && e.exec < |s.execs| { ExecutorKeepsRows(s, e.exec, e.outcome); }
    hide StepExecutor;
  }

  lemma UntouchedPrune(s: State, e: Event, id: ActionId, keep: nat)
    requires e.PruneMessages? && e.messageDays >= keep && id in s.rows && s.rows[id].scheduledFor.Some?
    requires s.clock < WindowEnd(s.rows[id]) && Kept(s, s.rows[id].message, keep, WindowEnd(s.rows[id]))
    ensures id in Step(s, e).rows && Step(s, e).rows[id] == s.rows[id]
    ensures Kept(Step(s, e), s.rows[id].message, keep, WindowEnd(s.rows[id]))
  {
    assert e.messageDays * DAY >= keep * DAY;
    assert s.rows[id].message !in PrunableMessages(s.messages, s.clock - e.messageDays * DAY);
  }

  lemma UntouchedStep(s: State, e: Event, id: ActionId, keep: nat)
    requires TimeInv(s) && Keyed(s) && IsPending(s.rows, id) && s.rows[id].scheduledFor.Some?
    requires s.clock < WindowEnd(s.rows[id]) && Kept(s, s.rows[id].message, keep, WindowEnd(s.rows[id]))
    requires !Touches(s, e, id, keep)
    ensures id in Step(s, e).rows && Step(s, e).rows[id] == s.rows[id]
    ensures Kept(Step(s, e), s.rows[id].message, keep, WindowEnd(s.rows[id]))
  {
    hide Step;
    hide TimeInv;
    if e.PruneMessages? {
      UntouchedPrune(s, e, id, keep);
    } else {
      UntouchedRow(s, e, id, keep);
      UntouchedMessage(s, e, s.rows[id].message, keep, WindowEnd(s.rows[id]));
    }
  }

  /** Over any run whose clock ends inside the window, in which nothing acts on the action and whose message is
      kept as long, its row is exactly what it was, and it can be claimed and passes the due filter whenever
      the clock is past the window's start. */
  lemma {:induction false} ScheduledActionSurvives(s: State, events: seq<Event>, id: ActionId, keep: nat)
    requires TimeInv(s) && Keyed(s) && IsPending(s.rows, id) && s.rows[id].scheduledFor.Some?
    requires Kept(s, s.rows[id].message, keep, WindowEnd(s.rows[id]))
    requires Untouched(s, events, id, keep) && Exec(s, events).clock < WindowEnd(s.rows[id])
    ensures var s' := Exec(s, events);
            && id in s'.rows && s'.rows[id] == s.rows[id] && Claimable(s'.rows, id, s'.clock)
            && (Due(s'.rows[id], s'.clock) <==> WindowStart(s.rows[id]) <= s'.clock)
            && Kept(s', s.rows[id].message, keep, WindowEnd(s.rows[id]))
  {
    hide Step;
    hide TimeInv;
    hide Keyed;
    hide Kept;
    if events != [] {
      var init, last := events[..|events| - 1], events[|events| - 1];
      var mid := Exec(s, init);
      StepKeepsClock(mid, last);
      ScheduledActionSurvives(s, init, id, keep);
      ExecKeepsTimeInv(s, init);
      ExecKeepsKeyed(s, init);
      UntouchedStep(mid, last, id, keep);
    }
    ExecKeepsTimeInv(s, events);
    WindowIsSafe(Exec(s, events), id, 31);
  }

  predicate InPlace(s: State, id: ActionId, row: Row) {
    id in s.rows && s.rows[id] == row
  }

  /** The retention of messages decides: the row lasts through every such run if and only if its message's
      retention, counted from its final mark or from now, does not end before the window does. */
  lemma RetentionDecides(s: State, id: ActionId, keep: nat)
    requires TimeInv(s) && Keyed(s) && IsPending(s.rows, id) && s.rows[id].scheduledFor.Some?
    requires s.clock < WindowEnd(s.rows[id])
    ensures (forall events :: Untouched(s, events, id, keep) && Exec(s, events).clock < WindowEnd(s.rows[id])
                              ==> InPlace(Exec(s, events), id, s.rows[id]))
            <==> Kept(s, s.rows[id].message, keep, WindowEnd(s.rows[id]))
  {
    var row := s.rows[id];
    if Kept(s, row.message, keep, WindowEnd(row)) {
      forall events | Untouched(s, events, id, keep) && Exec(s, events).clock < WindowEnd(row)
        ensures InPlace(Exec(s, events), id, row)
      {
        ScheduledActionSurvives(s, events, id, keep);
      }
    } else {
      var events := PrunedWithMessage(s, id, keep);
      assert !InPlace(Exec(s, events), id, row);
    }
  }

  lemma UntouchedSnoc(s: State, events: seq<Event>, e: Event, id: ActionId, keep: nat)
    requires Untouched(s, events, id, keep) && !Touches(Exec(s, events), e, id, keep)
    ensures Untouched(s, events + [e], id, keep) && Exec(s, events + [e]) == Step(Exec(s, events), e)
  {
    ExecSnoc(s, events, e);
    assert (events + [e])[..|events|] == events;
  }

  /** The message gets its final mark now, if it had none, and is pruned at the last instant of the window. */
  lemma PrunedWithMessage(s: State, id: ActionId, keep: nat) returns (events: seq<Event>)
    requires Keyed(s) && id in s.rows && s.rows[id].scheduledFor.Some? && s.clock < WindowEnd(s.rows[id])
    requires !Kept(s, s.rows[id].message, keep, WindowEnd(s.rows[id]))
    ensures Untouched(s, events, id, keep) && Exec(s, events).clock < WindowEnd(s.rows[id])
    ensures id !in Exec(s, events).rows
  {
    var row := s.rows[id];
    var m, wait := row.message, WindowEnd(row) - 1 - s.clock;
    events := [];
    var s1 := s;
    if !s.messages[m].final {
      UntouchedSnoc(s, events, MarkMessage(m, true), id, keep);
      events := events + [MarkMessage(m, true)];
      s1 := Step(s, MarkMessage(m, true));
    }
    assert Exec(s, events) == s1 && s1.messages[m].final && s1.messages[m].updatedAt + keep * DAY < WindowEnd(row) - 1;
    UntouchedSnoc(s, events, Tick(wait), id, keep);
    events := events + [Tick(wait)];
    var s2 := Step(s1, Tick(wait));
    UntouchedSnoc(s, events, PruneMessages(keep, {m}), id, keep);
    events := events + [PruneMessages(keep, {m})];
    assert m in PrunableMessages(s2.messages, s2.clock - keep * DAY);
    assert Exec(s, events) == DeleteMessages(s2, {m});
  }

  // ---------- An action that has ended ----------

  predicate Terminal(status: Status) {
    status.Succeeded? || status.Failed? || status.Expired?
  }

  predicate HasStatus(s: State, id: ActionId, status: Status) {
    id in s.rows ==> s.rows[id].status == status
  }

  /** A mark of another status that takes effect on the action. */
  predicate Overwrites(s: State, e: Event, id: ActionId) {
    && e.Advance? && e.exec < |s.execs| && s.execs[e.exec].id == id && id in s.rows
    && IsMark(s.execs[e.exec].pc) && !e.outcome.Threw? && s.rows[id].status != MarkOf(s.execs[e.exec].pc)
  }

  lemma ExecutorOverwrites(s: State, x: nat, outcome: Outcome, id: ActionId)
    requires x < |s.execs| && id in s.rows && !s.rows[id].status.Pending?
    ensures id in StepExecutor(s, x, outcome).rows
    ensures StepExecutor(s, x, outcome).rows[id].status
            == if s.execs[x].id == id && IsMark(s.execs[x].pc) && !outcome.Threw? then MarkOf(s.execs[x].pc)
               else s.rows[id].status
  {
    hide StepExecutor;
    if IsMark(s.execs[x].pc) {
      var pc := MarkTurn(s, x, outcome);
    } else if s.execs[x].pc.Claiming? || s.execs[x].pc.Handling? {
      var pc := StartTurn(s, x, outcome);
    } else {
      var pc := PlainTurn(s, x, outcome);
    }
  }

  /** One turn changes the status of an ended action if and only if it is such a mark. */
  lemma TurnOverwrites(s: State, e: Event, id: ActionId)
    requires s.rows.Keys <= s.used && id in s.rows && Terminal(s.rows[id].status)
    ensures Overwrites(s, e, id) <==> !HasStatus(Step(s, e), id, s.rows[id].status)
  {
    if e.Advance? && e.exec < |s.execs| { ExecutorOverwrites(s, e.exec, e.outcome, id); }
    hide StepExecutor;
  }

  predicate NeverOverwritten(s: State, events: seq<Event>, id: ActionId) {
    events == []
    || (NeverOverwritten(s, events[..|events| - 1], id)
        && !Overwrites(Exec(s, events[..|events| - 1]), events[|events| - 1], id))
  }

  predicate KeepsStatus(s: State, events: seq<Event>, id: ActionId, status: Status) {
    forall k :: 0 <= k <= |events| ==> HasStatus(Exec(s, events[..k]), id, status)
  }

  lemma GoneStaysGone(s: State, e: Event, id: ActionId)
    requires s.rows.Keys <= s.used && id in s.used
    ensures Step(s, e).rows.Keys <= Step(s, e).used && id in Step(s, e).used
    ensures id !in s.rows ==> id !in Step(s, e).rows
  {
    StepKeepsUsed(s, e, id);
    if id !in s.rows { StepNeverRevives(s, e, id); }
  }

  lemma KeepsStatusSnoc(s: State, events: seq<Event>, id: ActionId, status: Status)
    requires events != []
    ensures KeepsStatus(s, events, id, status)
            <==> KeepsStatus(s, events[..|events| - 1], id, status) && HasStatus(Exec(s, events), id, status)
  {
    hide Exec;
    hide HasStatus;
    var init := events[..|events| - 1];
    if KeepsStatus(s, events, id, status) {
      assert events[..|events|] == events;
      forall k | 0 <= k <= |init| ensures HasStatus(Exec(s, init[..k]), id, status) {
        assert init[..k] == events[..k];
      }
    }
    if KeepsStatus(s, init, id, status) && HasStatus(Exec(s, events), id, status) {
      forall k | 0 <= k <= |events| ensures HasStatus(Exec(s, events[..k]), id, status) {
        assert events[..k] == if k < |events| then init[..k] else events;
      }
    }
  }

  /** Over any run an ended action keeps its status, as long as it exists, if and only if no executor's mark of
      another status takes effect on it. */
  lemma {:induction false} TerminalStatusStays(s: State, events: seq<Event>, id: ActionId)
    requires s.rows.Keys <= s.used && id in s.rows && Terminal(s.rows[id].status)
    ensures KeepsStatus(s, events, id, s.rows[id].status) <==> NeverOverwritten(s, events, id)
    ensures Exec(s, events).rows.Keys <= Exec(s, events).used && id in Exec(s, events).used
  {
    hide Step;
    hide Overwrites;
    if events != [] {
      var init, last := events[..|events| - 1], events[|events| - 1];
      var mid := Exec(s, init);
      TerminalStatusStays(s, init, id);
      KeepsStatusSnoc(s, events, id, s.rows[id].status);
      GoneStaysGone(mid, last, id);
      if KeepsStatus(s, init, id, s.rows[id].status) {
        assert init[..|init|] == init;
        assert HasStatus(mid, id, s.rows[id].status);
        if id in mid.rows {
          TurnOverwrites(mid, last, id);
        } else {
          NothingToOverwrite(mid, last, id);
        }
      }
    }
  }

  lemma NothingToOverwrite(s: State, e: Event, id: ActionId)
    requires id !in s.rows
    ensures !Overwrites(s, e, id)
  {
  }

  /** The executors that can still mark an ended action otherwise: one that entered with an unfinished snapshot
      or is about to mark it expired; one with the handler's outcome still ahead; one about to mark it failed. */
  predicate Threatens(x: Executor, status: Status) {
    match x.pc
    case Entered => !Terminal(x.snapshot.status) && !status.Expired?
    case Expiring => !status.Expired?
    case Handling => true
    case HandlerRunning => true
    case MarkingSucceeded => true
    case RecordingSucceeded => !status.Failed?
    case MarkingFailed => !status.Failed?
    case _ => false
  }

  predicate Unthreatened(s: State, id: ActionId, status: Status) {
    && s.rows.Keys <= s.used && id in s.used && HasStatus(s, id, status)
    && forall x :: 0 <= x < |s.execs| && s.execs[x].id == id ==> !Threatens(s.execs[x], status)
  }

  lemma ClaimerUnthreatened(s: State, x: nat, outcome: Outcome, status: Status)
    requires Terminal(status) && x < |s.execs| && s.execs[x].pc.Claiming?
    requires s.execs[x].id in s.rows ==> s.rows[s.execs[x].id].status == status
    ensures |StepExecutor(s, x, outcome).execs| == |s.execs| && !Threatens(StepExecutor(s, x, outcome).execs[x], status)
  {
    assert !Claimable(s.rows, s.execs[x].id, s.clock);
  }

  lemma OtherUnthreatened(s: State, x: nat, outcome: Outcome, status: Status)
    requires Terminal(status) && x < |s.execs| && !Threatens(s.execs[x], status)
    requires !s.execs[x].pc.Claiming?
    ensures |StepExecutor(s, x, outcome).execs| == |s.execs| && !Threatens(StepExecutor(s, x, outcome).execs[x], status)
  {
    hide Mark;
    hide Claim;
    hide Claimable;
  }

  lemma ExecutorKeepsUnthreatened(s: State, x: nat, outcome: Outcome, id: ActionId, status: Status)
    requires Terminal(status) && Unthreatened(s, id, status) && x < |s.execs|
    ensures Unthreatened(StepExecutor(s, x, outcome), id, status)
  {
    ExecutorKeepsRows(s, x, outcome);
    if id in s.rows { ExecutorOverwrites(s, x, outcome, id); }
    ExecutorMoves(s, x, outcome);
    if s.execs[x].id == id {
      if s.execs[x].pc.Claiming? {
        ClaimerUnthreatened(s, x, outcome, status);
      } else {
        OtherUnthreatened(s, x, outcome, status);
      }
    }
    hide StepExecutor;
    hide Threatens;
  }

  lemma StepKeepsUnthreatened(s: State, e: Event, id: ActionId, status: Status)
    requires Terminal(status) && Unthreatened(s, id, status)
    ensures Unthreatened(Step(s, e), id, status)
  {
    if e.Advance? && e.exec < |s.execs| { ExecutorKeepsUnthreatened(s, e.exec, e.outcome, id, status); }
    hide StepExecutor;
    GoneStaysGone(s, e, id);
  }

  lemma {:induction false} ExecKeepsUnthreatened(s: State, events: seq<Event>, id: ActionId, status: Status)
    requires Terminal(status) && Unthreatened(s, id, status)
    ensures Unthreatened(Exec(s, events), id, status)
  {
    hide Unthreatened;
    if events != [] {
      ExecKeepsUnthreatened(s, events[..|events| - 1], id, status);
      StepKeepsUnthreatened(Exec(s, events[..|events| - 1]), events[|events| - 1], id, status);
    }
  }

  /** Executor `x` is at an await of action `id`, whose row is there. */
  predicate Stands(s: State, x: nat, id: ActionId, pc: Pc) {
    x < |s.execs| && s.execs[x].id == id && id in s.rows && s.execs[x].pc == pc
  }

  lemma MarkNow(s: State, x: nat, id: ActionId, pc: Pc) returns (s': State)
    requires Stands(s, x, id, pc) && IsMark(pc)
    ensures s' == Step(s, Advance(x, Ok)) && id in s'.rows && s'.rows[id].status == MarkOf(pc)
  {
    s' := Step(s, Advance(x, Ok));
  }

  lemma Moves(s: State, x: nat, id: ActionId, pc: Pc, outcome: Outcome, next: Pc) returns (s': State)
    requires Stands(s, x, id, pc)
    requires || (pc.Handling? && next == if outcome.Ok? then HandlerRunning else MarkingFailed)
             || (pc.HandlerRunning? && next == if outcome.Ok? then MarkingSucceeded else MarkingFailed)
             || (pc.MarkingSucceeded? && outcome.Threw? && next == MarkingFailed)
             || (pc.RecordingSucceeded? && !outcome.Ok? && next == MarkingFailed)
    ensures s' == Step(s, Advance(x, outcome)) && Stands(s', x, id, next)
  {
    s' := Step(s, Advance(x, outcome));
  }

  lemma ExecOne(s: State, a: Event)
    ensures Exec(s, [a]) == Step(s, a)
  {
    assert [a][..0] == [];
  }

  lemma ExecTwo(s: State, a: Event, b: Event)
    ensures Exec(s, [a, b]) == Step(Step(s, a), b)
  {
    ExecOne(s, a);
    assert [a, b][..1] == [a];
  }

  lemma ExecThree(s: State, a: Event, b: Event, c: Event)
    ensures Exec(s, [a, b, c]) == Step(Step(Step(s, a), b), c)
  {
    ExecTwo(s, a, b);
    assert [a, b, c][..2] == [a, b];
  }

  /** An executor that entered with an unfinished snapshot expires the action once the snapshot's deadline is
      past. */
  lemma EnteredExpires(s: State, x: nat, id: ActionId) returns (events: seq<Event>)
    requires Stands(s, x, id, Entered) && !Terminal(s.execs[x].snapshot.status)
    ensures id in Exec(s, events).rows && Exec(s, events).rows[id].status == Expired
    ensures Exec(s, events).clock == Max(s.clock, s.execs[x].snapshot.expiresAt)
  {
    var wait := Max(s.clock, s.execs[x].snapshot.expiresAt) - s.clock;
    var s1 := Step(s, Tick(wait));
    var s2 := Step(s1, Advance(x, Ok));
    assert Stands(s2, x, id, Expiring);
    var s3 := MarkNow(s2, x, id, Expiring);
    ExecThree(s, Tick(wait), Advance(x, Ok), Advance(x, Ok));
    events := [Tick(wait), Advance(x, Ok), Advance(x, Ok)];
  }

  lemma ThreatIsReal(s: State, x: nat, id: ActionId) returns (events: seq<Event>)
    requires x < |s.execs| && s.execs[x].id == id && id in s.rows && Terminal(s.rows[id].status)
    requires Threatens(s.execs[x], s.rows[id].status)
    ensures !HasStatus(Exec(s, events), id, s.rows[id].status)
  {
    hide Step;
    var pc := s.execs[x].pc;
    assert Stands(s, x, id, pc);
    if pc.Entered? {
      events := EnteredExpires(s, x, id);
    } else if IsMark(pc) && MarkOf(pc) != s.rows[id].status {
      var s1 := MarkNow(s, x, id, pc);
      ExecOne(s, Advance(x, Ok));
      events := [Advance(x, Ok)];
    } else if !s.rows[id].status.Failed? {
      var s1 := Moves(s, x, id, pc, Threw, MarkingFailed);
      var s2 := MarkNow(s1, x, id, MarkingFailed);
      ExecTwo(s, Advance(x, Threw), Advance(x, Ok));
      events := [Advance(x, Threw), Advance(x, Ok)];
    } else if pc.HandlerRunning? {
      var s1 := Moves(s, x, id, pc, Ok, MarkingSucceeded);
      var s2 := MarkNow(s1, x, id, MarkingSucceeded);
      ExecTwo(s, Advance(x, Ok), Advance(x, Ok));
      events := [Advance(x, Ok), Advance(x, Ok)];
    } else {
      var s1 := Moves(s, x, id, pc, Ok, HandlerRunning);
      var s2 := Moves(s1, x, id, HandlerRunning, Ok, MarkingSucceeded);
      var s3 := MarkNow(s2, x, id, MarkingSucceeded);
      ExecThree(s, Advance(x, Ok), Advance(x, Ok), Advance(x, Ok));
      events := [Advance(x, Ok), Advance(x, Ok), Advance(x, Ok)];
    }
  }

  /** A terminal status is final, in every run from here on, if and only if no executor threatens it now. */
  lemma TerminalIsFinalIff(s: State, id: ActionId)
    requires s.rows.Keys <= s.used && id in s.rows && Terminal(s.rows[id].status)
    ensures (forall events :: HasStatus(Exec(s, events), id, s.rows[id].status))
            <==> forall x :: 0 <= x < |s.execs| && s.execs[x].id == id ==> !Threatens(s.execs[x], s.rows[id].status)
  {
    var status := s.rows[id].status;
    if forall x :: 0 <= x < |s.execs| && s.execs[x].id == id ==> !Threatens(s.execs[x], status) {
      forall events ensures HasStatus(Exec(s, events), id, status) {
        ExecKeepsUnthreatened(s, events, id, status);
      }
    } else {
      var x :| 0 <= x < |s.execs| && s.execs[x].id == id && Threatens(s.execs[x], status);
      var events := ThreatIsReal(s, x, id);
    }
  }

  // ---------- Expiry before the window ----------

  /** An executor marks this action expired. */
  predicate Expires(s: State, e: Event, id: ActionId) {
    && e.Advance? && e.exec < |s.execs| && s.execs[e.exec].id == id && id in s.rows
    && s.execs[e.exec].pc.Expiring? && !e.outcome.Threw?
  }

  predicate IsExpired(s: State, id: ActionId) {
    id in s.rows && s.rows[id].status.Expired?
  }

  /** The row has not expired and, if it is there, its deadline is `deadline` or later. */
  predicate Unexpired(s: State, id: ActionId, deadline: int) {
    s.rows.Keys <= s.used && id in s.used && !IsExpired(s, id) && (id in s.rows ==> deadline <= s.rows[id].expiresAt)
  }

  lemma ExecutorExpires(s: State, x: nat, outcome: Outcome, id: ActionId)
    requires x < |s.execs| && id in s.rows && !s.rows[id].status.Expired?
    ensures id in StepExecutor(s, x, outcome).rows
    ensures StepExecutor(s, x, outcome).rows[id].status.Expired?
            <==> s.execs[x].id == id && s.execs[x].pc.Expiring? && !outcome.Threw?
  {
    hide StepExecutor;
    if IsMark(s.execs[x].pc) {
      var pc := MarkTurn(s, x, outcome);
    } else if s.execs[x].pc.Claiming? || s.execs[x].pc.Handling? {
      var pc := StartTurn(s, x, outcome);
    } else {
      var pc := PlainTurn(s, x, outcome);
    }
  }

  /** Before its deadline, a turn expires an action if and only if it is the effective expiry mark of one of its
      executors. */
  lemma TurnExpires(s: State, e: Event, id: ActionId, deadline: int)
    requires Unexpired(s, id, deadline) && s.clock < deadline
    ensures IsExpired(Step(s, e), id) <==> Expires(s, e, id)
    ensures !Expires(s, e, id) ==> Unexpired(Step(s, e), id, deadline)
  {
    if e.Advance? && e.exec < |s.execs| {
      ExecutorKeepsRows(s, e.exec, e.outcome);
      if id in s.rows { ExecutorExpires(s, e.exec, e.outcome, id); }
    }
    hide StepExecutor;
    GoneStaysGone(s, e, id);
  }

  predicate NeverExpires(s: State, events: seq<Event>, id: ActionId) {
    events == []
    || (NeverExpires(s, events[..|events| - 1], id)
        && !Expires(Exec(s, events[..|events| - 1]), events[|events| - 1], id))
  }

  predicate StaysUnexpired(s: State, events: seq<Event>, id: ActionId) {
    forall k :: 0 <= k <= |events| ==> !IsExpired(Exec(s, events[..k]), id)
  }

  lemma StaysUnexpiredSnoc(s: State, events: seq<Event>, id: ActionId)
    requires events != []
    ensures StaysUnexpired(s, events, id)
            <==> StaysUnexpired(s, events[..|events| - 1], id) && !IsExpired(Exec(s, events), id)
  {
    hide Exec;
    hide IsExpired;
    var init := events[..|events| - 1];
    if StaysUnexpired(s, events, id) {
      assert events[..|events|] == events;
      forall k | 0 <= k <= |init| ensures !IsExpired(Exec(s, init[..k]), id) {
        assert init[..k] == events[..k];
      }
    }
    if StaysUnexpired(s, init, id) && !IsExpired(Exec(s, events), id) {
      forall k | 0 <= k <= |events| ensures !IsExpired(Exec(s, events[..k]), id) {
        assert events[..k] == if k < |events| then init[..k] else events;
      }
    }
  }

  /** Over any run that ends before the deadline, the action expires at some point if and only if one of its
      executors' expiry marks takes effect. */
  lemma {:induction false} ExpiredEarlyIff(s: State, events: seq<Event>, id: ActionId, deadline: int)
    requires Unexpired(s, id, deadline) && Exec(s, events).clock < deadline
    ensures StaysUnexpired(s, events, id) <==> NeverExpires(s, events, id)
    ensures NeverExpires(s, events, id) ==> Unexpired(Exec(s, events), id, deadline)
  {
    hide Step;
    hide Expires;
    hide IsExpired;
    hide Unexpired;
    if events == [] {
      AtStart(s, id, deadline);
    } else {
      var init, last := events[..|events| - 1], events[|events| - 1];
      var mid := Exec(s, init);
      StepKeepsClock(mid, last);
      ExpiredEarlyIff(s, init, id, deadline);
      StaysUnexpiredSnoc(s, events, id);
      if NeverExpires(s, init, id) {
        TurnExpires(mid, last, id, deadline);
      }
    }
  }

  lemma AtStart(s: State, id: ActionId, deadline: int)
    requires Unexpired(s, id, deadline)
    ensures StaysUnexpired(s, [], id) && NeverExpires(s, [], id)
  {
    var none: seq<Event> := [];
    forall k | 0 <= k <= |none| ensures Exec(s, none[..k]) == s {
      assert none[..k] == none;
    }
  }

  /** An executor about to mark the action expired, or that entered with an unfinished snapshot whose deadline
      lies before `end`. */
  predicate Stale(x: Executor, end: int) {
    x.pc.Expiring? || (x.pc.Entered? && !Terminal(x.snapshot.status) && x.snapshot.expiresAt < end)
  }

  predicate NoneStale(s: State, id: ActionId, deadline: int, end: int) {
    Unexpired(s, id, deadline) && forall x :: 0 <= x < |s.execs| && s.execs[x].id == id ==> !Stale(s.execs[x], end)
  }

  lemma MoverExpiring(s: State, x: nat, outcome: Outcome)
    requires x < |s.execs|
    ensures var s' := StepExecutor(s, x, outcome);
            && |s'.execs| == |s.execs| && !s'.execs[x].pc.Entered?
            && (s'.execs[x].pc.Expiring? ==>
                  && s.execs[x].pc.Entered? && !Terminal(s.execs[x].snapshot.status)
                  && s.execs[x].snapshot.expiresAt <= s.clock)
  {
    hide Mark;
    hide Claim;
    hide Claimable;
  }

  lemma ExecutorKeepsNoneStale(s: State, x: nat, outcome: Outcome, id: ActionId, deadline: int, end: int)
    requires NoneStale(s, id, deadline, end) && x < |s.execs| && s.clock < end
    ensures var s' := StepExecutor(s, x, outcome);
            forall y :: 0 <= y < |s'.execs| && s'.execs[y].id == id ==> !Stale(s'.execs[y], end)
  {
    ExecutorMoves(s, x, outcome);
    MoverExpiring(s, x, outcome);
    hide StepExecutor;
  }

  lemma StepKeepsNoneStale(s: State, e: Event, id: ActionId, deadline: int, end: int)
    requires NoneStale(s, id, deadline, end) && s.clock < end <= deadline
    ensures NoneStale(Step(s, e), id, deadline, end)
  {
    assert !Expires(s, e, id);
    TurnExpires(s, e, id, deadline);
    if e.Advance? && e.exec < |s.execs| { ExecutorKeepsNoneStale(s, e.exec, e.outcome, id, deadline, end); }
    hide StepExecutor;
    hide Unexpired;
    assert e.Begin? && id in s.rows ==> deadline <= s.rows[id].expiresAt by { DeadlineIs(s, id, deadline); }
  }

  lemma DeadlineIs(s: State, id: ActionId, deadline: int)
    requires Unexpired(s, id, deadline)
    ensures id in s.rows ==> deadline <= s.rows[id].expiresAt
  {
  }

  lemma {:induction false} ExecKeepsNoneStale(s: State, events: seq<Event>, id: ActionId, deadline: int, end: int)
    requires NoneStale(s, id, deadline, end) && end <= deadline
    requires Exec(s, events).clock < end
    ensures NoneStale(Exec(s, events), id, deadline, end)
  {
    hide NoneStale;
    hide Step;
    if events != [] {
      var init, last := events[..|events| - 1], events[|events| - 1];
      StepKeepsClock(Exec(s, init), last);
      ExecKeepsNoneStale(s, init, id, deadline, end);
      StepKeepsNoneStale(Exec(s, init), last, id, deadline, end);
    }
  }

  /** Some run from here on expires the action before `end`. */
  ghost predicate MayExpireEarly(s: State, id: ActionId, end: int) {
    exists events :: Exec(s, events).clock < end && IsExpired(Exec(s, events), id)
  }

  lemma StaleExpires(s: State, x: nat, id: ActionId, end: int)
    requires x < |s.execs| && s.execs[x].id == id && id in s.rows && Stale(s.execs[x], end) && s.clock < end
    ensures MayExpireEarly(s, id, end)
  {
    hide Step;
    assert Stands(s, x, id, s.execs[x].pc);
    if s.execs[x].pc.Expiring? {
      var s1 := MarkNow(s, x, id, Expiring);
      ExecOne(s, Advance(x, Ok));
      AdvanceKeepsClock(s, x, Ok);
      assert IsExpired(Exec(s, [Advance(x, Ok)]), id);
    } else {
      var events := EnteredExpires(s, x, id);
      assert IsExpired(Exec(s, events), id);
    }
  }

  lemma AdvanceKeepsClock(s: State, x: nat, outcome: Outcome)
    ensures Step(s, Advance(x, outcome)).clock == s.clock
  {
    if x < |s.execs| { ExecutorKeepsRows(s, x, outcome); }
    hide StepExecutor;
  }

  /** A pending scheduled action can be expired before its window has ended, in some run from here on, if and only
      if one of its executors now is stale: about to mark it expired, or entered with an unfinished snapshot
      whose deadline comes before the window ends. */
  lemma EarlyExpiryIff(s: State, id: ActionId)
    requires TimeInv(s) && Keyed(s) && IsPending(s.rows, id) && s.rows[id].scheduledFor.Some?
    requires s.clock < WindowEnd(s.rows[id])
    ensures MayExpireEarly(s, id, WindowEnd(s.rows[id]))
            <==> exists x :: 0 <= x < |s.execs| && s.execs[x].id == id && Stale(s.execs[x], WindowEnd(s.rows[id]))
  {
    var end, deadline := WindowEnd(s.rows[id]), s.rows[id].expiresAt;
    assert RowTimesOk(s.rows[id], s.clock) && end <= deadline;
    if exists x :: 0 <= x < |s.execs| && s.execs[x].id == id && Stale(s.execs[x], end) {
      var x :| 0 <= x < |s.execs| && s.execs[x].id == id && Stale(s.execs[x], end);
      StaleExpires(s, x, id, end);
    } else if MayExpireEarly(s, id, end) {
      var events :| Exec(s, events).clock < end && IsExpired(Exec(s, events), id);
      assert NoneStale(s, id, deadline, end);
      ExecKeepsNoneStale(s, events, id, deadline, end);
    }
  }

  /** In every reachable state, an executor about to mark its action expired entered with an unfinished snapshot
      whose deadline is past. */
  predicate ExpiringIsStale(s: State) {
    forall x :: 0 <= x < |s.execs| && s.execs[x].pc.Expiring? ==>
      !Terminal(s.execs[x].snapshot.status) && s.execs[x].snapshot.expiresAt <= s.clock
  }

  lemma StepKeepsExpiringIsStale(s: State, e: Event)
    requires ExpiringIsStale(s)
    ensures ExpiringIsStale(Step(s, e))
  {
    if e.Advance? && e.exec < |s.execs| {
      ExecutorKeepsRows(s, e.exec, e.outcome);
      ExecutorMoves(s, e.exec, e.outcome);
      MoverExpiring(s, e.exec, e.outcome);
    }
    hide StepExecutor;
  }

  lemma {:induction false} OnlyStaleExecutorsExpire(events: seq<Event>)
    ensures ExpiringIsStale(Exec(INITIAL, events))
  {
    if events != [] {
      OnlyStaleExecutorsExpire(events[..|events| - 1]);
      StepKeepsExpiringIsStale(Exec(INITIAL, events[..|events| - 1]), events[|events| - 1]);
    }
  }

  // ---------- Runs in which these things happen ----------

  predicate StatusAfter(events: seq<Event>, id: ActionId, status: Status) {
    var rows := Exec(INITIAL, events).rows; id in rows && rows[id].status == status
  }

  lemma Snoc(events: seq<Event>, e: Event) returns (longer: seq<Event>)
    ensures longer == events + [e] && Exec(INITIAL, longer) == Step(Exec(INITIAL, events), e)
  {
    ExecSnoc(INITIAL, events, e);
    longer := events + [e];
  }

  const MESSAGES := map["m" := Message("app", true, 0)]

  /** A state with one action of the one message, which was finished at time 0. */
  function Single(row: Row, execs: seq<Executor>, requests: seq<Request>, clock: int): State {
    State(map["a" := row], {"a"}, clock, execs, requests, map[], [], MESSAGES)
  }

  function Fresh(expiresAt: int): Row {
    Row(Pending, expiresAt, None, None, 0, "m", true)
  }

  lemma NothingDone()
    ensures Exec(INITIAL, []) == INITIAL
  {
  }

  /** The message arrives, is summarized and gets its action. */
  lemma Born(expiresAt: int) returns (events: seq<Event>)
    ensures Exec(INITIAL, events) == Single(Fresh(expiresAt), [], [], 0)
  {
    hide Exec;
    hide StepExecutor;
    NothingDone();
    var s1 := INITIAL.(messages := map["m" := Message("app", false, 0)]);
    var s2 := INITIAL.(messages := MESSAGES);
    assert Step(INITIAL, Receive("m", "app")) == s1;
    assert Step(s1, MarkMessage("m", true)) == s2;
    assert Step(s2, Create("a", expiresAt, "m", true)) == Single(Fresh(expiresAt), [], [], 0);
    events := Snoc([], Receive("m", "app"));
    events := Snoc(events, MarkMessage("m", true));
    events := Snoc(events, Create("a", expiresAt, "m", true));
  }

  /** A run in which one executor has just claimed the only action. */
  lemma ClaimedRun() returns (events: seq<Event>)
    ensures var s := Exec(INITIAL, events);
            && s.execs == [Executor("a", Fresh(10), Handling)]
            && s.rows == map["a" := Fresh(10).(status := Executing)] && s.clock == 0
  {
    events := Born(10);
    events := Snoc(events, Begin("a"));
    assert Exec(INITIAL, events) == Single(Fresh(10), [Executor("a", Fresh(10), Entered)], [], 0);
    events := Snoc(events, Advance(0, Ok));
    assert Exec(INITIAL, events) == Single(Fresh(10), [Executor("a", Fresh(10), Claiming)], [], 0);
    events := Snoc(events, Advance(0, Ok));
  }

  lemma SucceededRun() returns (events: seq<Event>)
    ensures var s := Exec(INITIAL, events);
            && s.execs == [Executor("a", Fresh(10), RecordingSucceeded)]
            && s.rows == map["a" := Fresh(10).(status := Succeeded)]
  {
    events := ClaimedRun();
    events := Snoc(events, Advance(0, Ok));
    assert Exec(INITIAL, events).execs[0].pc.HandlerRunning?;
    events := Snoc(events, Advance(0, Ok));
    assert Exec(INITIAL, events).execs[0].pc.MarkingSucceeded?;
    assert Exec(INITIAL, events).rows == map["a" := Fresh(10).(status := Executing)];
    assert Exec(INITIAL, events).clock == 0;
    events := Snoc(events, Advance(0, Ok));
  }

  /** A success whose bookkeeping fails is overwritten: terminal statuses are not absorbing. */
  lemma SuccessMayBecomeFailure()
    ensures exists events, more :: StatusAfter(events, "a", Succeeded) && StatusAfter(events + more, "a", Failed)
  {
    var run := SucceededRun();
    var longer := Snoc(run, Advance(0, Threw));
    longer := Snoc(longer, Advance(0, Ok));
    assert longer == run + [Advance(0, Threw), Advance(0, Ok)];
    assert StatusAfter(run, "a", Succeeded) && StatusAfter(longer, "a", Failed);
  }

  lemma RequestTurns(events: seq<Event>, row: Row, execs: seq<Executor>, done: seq<Request>, clock: int, change: Change)
    returns (longer: seq<Event>)
    requires Exec(INITIAL, events) == Single(row, execs, done, clock) && Accepted(row, change, clock)
    ensures Exec(INITIAL, longer)
            == Single(ApplyChange(map["a" := row], "a", change, clock)["a"], execs, done + [Request("a", change, true)], clock)
  {
    longer := Snoc(events, Ask("a", change));
    assert Exec(INITIAL, longer) == Single(row, execs, done + [Request("a", change, false)], clock);
    longer := Snoc(longer, Apply(|done|));
  }

  lemma WaitTurn(events: seq<Event>, row: Row, execs: seq<Executor>, done: seq<Request>, clock: int, seconds: nat)
    returns (longer: seq<Event>)
    requires Exec(INITIAL, events) == Single(row, execs, done, clock)
    ensures Exec(INITIAL, longer) == Single(row, execs, done, clock + seconds)
  {
    longer := Snoc(events, Tick(seconds));
  }

  /** An executor with an old snapshot expires a row that has since been rescheduled and has not reached its
      window. */
  lemma StaleExecutorExpiresScheduledRow()
    ensures exists events, more ::
              && var before := Exec(INITIAL, events);
              && IsPending(before.rows, "a") && before.rows["a"].scheduledFor.Some?
              && Exec(before, more).clock < WindowStart(before.rows["a"])
              && IsExpired(Exec(before, more), "a")
  {
    var born := Born(10);
    var begun := Snoc(born, Begin("a"));
    var stale := [Executor("a", Fresh(10), Entered)];
    var events := RequestTurns(begun, Fresh(10), stale, [], 0, ScheduleTo(1000));
    var before := Exec(INITIAL, events);
    var more := EnteredExpires(before, 0, "a");
  }

  lemma SnoozedTwice() returns (events: seq<Event>)
    ensures Exec(INITIAL, events)
            == Single(Row(Pending, 66 * DAY, Some(65 * DAY), None, 35 * DAY, "m", true), [],
                      [Request("a", SnoozeTo(35 * DAY), true), Request("a", SnoozeTo(65 * DAY), true)], 65 * DAY)
  {
    hide Exec;
    var row0 := Fresh(7 * DAY);
    events := Born(7 * DAY);
    events := WaitTurn(events, row0, [], [], 0, 5 * DAY);
    events := RequestTurns(events, row0, [], [], 5 * DAY, SnoozeTo(35 * DAY));
    var row1 := Row(Pending, 36 * DAY, Some(35 * DAY), None, 5 * DAY, "m", true);
    var done1 := [Request("a", SnoozeTo(35 * DAY), true)];
    assert Exec(INITIAL, events) == Single(row1, [], done1, 5 * DAY);
    events := WaitTurn(events, row1, [], done1, 5 * DAY, 30 * DAY);
    events := RequestTurns(events, row1, [], done1, 35 * DAY, SnoozeTo(65 * DAY));
    var row2 := Row(Pending, 66 * DAY, Some(65 * DAY), None, 35 * DAY, "m", true);
    var done2 := done1 + [Request("a", SnoozeTo(65 * DAY), true)];
    assert Exec(INITIAL, events) == Single(row2, [], done2, 35 * DAY);
    events := WaitTurn(events, row2, [], done2, 35 * DAY, 30 * DAY);
  }

  /** With every default (expiry after 7 days, message retention 90 days), an action of a message finished on
      day 0 is snoozed on days 5 and 35, scheduled on day 65 for day 95, and goes with its message in between,
      although nobody acts on it. */
  lemma ScheduledActionGoesWithMessage()
    ensures exists events, more ::
              && var before := Exec(INITIAL, events);
              && IsPending(before.rows, "a") && before.rows["a"].scheduledFor.Some?
              && Untouched(before, more, "a", 90) && Exec(before, more).clock < WindowEnd(before.rows["a"])
              && "a" !in Exec(before, more).rows
  {
    hide Exec;
    var row2 := Row(Pending, 66 * DAY, Some(65 * DAY), None, 35 * DAY, "m", true);
    var done2 := [Request("a", SnoozeTo(35 * DAY), true), Request("a", SnoozeTo(65 * DAY), true)];
    var events := SnoozedTwice();
    events := RequestTurns(events, row2, [], done2, 65 * DAY, ScheduleTo(95 * DAY));
    var row3 := Row(Pending, 95 * DAY + SCHEDULE_BUFFER, Some(65 * DAY), Some(95 * DAY), 65 * DAY, "m", true);
    var done3 := done2 + [Request("a", ScheduleTo(95 * DAY), true)];
    var before := Single(row3, [], done3, 65 * DAY);
    assert Exec(INITIAL, events) == before;
    assert Keyed(before) && !Kept(before, "m", 90, WindowEnd(row3));
    var more := PrunedWithMessage(before, "a", 90);
  }
}
