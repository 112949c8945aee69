/** The life of an email action under any number of concurrent executors, user requests and sweeps.

    An executor is `executeAction` cut at its awaits; it holds the snapshot it was handed, which may be
    long out of date.  A snooze or schedule request is validated in one turn and applied in a later one.
    Every SQL statement is one atomic turn and reads the clock, which never goes back. */
module ActionLifecycle {
  import opened Wrappers
  import opened EmailActionTable

  const MAX_SNOOZE := 2_592_000
  const SNOOZE_BUFFER := 86_400
  const SCHEDULE_BUFFER := 3_600
  const DAY := 86_400

  /** The await an executor has reached. */
  datatype Pc =
    | Entered | Expiring | RecordingExpired | Claiming | Handling | HandlerRunning
    | MarkingSucceeded | RecordingSucceeded | MarkingFailed | RecordingFailed | Finished

  datatype Executor = Executor(id: ActionId, snapshot: Row, pc: Pc)

  /** How one awaited operation ended: it worked, it threw without effect, or it took effect and threw. */
  datatype Outcome = Ok | Threw | Unacknowledged

  datatype Change = SnoozeTo(until: int) | Unsnooze | ScheduleTo(at: int) | Unschedule

  /** A validated request on its way to its UPDATE. */
  datatype Request = Request(id: ActionId, change: Change, applied: bool)

  /** A row of `processed_messages`; `final` means summarized or skipped. */
  datatype Message = Message(application: string, final: bool, updatedAt: int)

  /** `claims` and `started` are history: who claimed each action, and each handler start in order. */
  datatype State = State(
    rows: Table, used: set<ActionId>, clock: int, execs: seq<Executor>, requests: seq<Request>,
    claims: map<ActionId, nat>, started: seq<ActionId>, messages: map<string, Message>)

  datatype Event =
    | Tick(seconds: nat)
    | Receive(message: string, application: string)
    | MarkMessage(message: string, final: bool)
    | PruneMessages(messageDays: nat, gone: set<string>)
    | DeleteApplication(application: string)
    | Create(id: ActionId, expiresAt: int, message: string, autoExecutable: bool)
    | Begin(id: ActionId)
    | Advance(exec: nat, outcome: Outcome)
    | Crash(exec: nat)
    | Ask(id: ActionId, change: Change)
    | Apply(request: nat)
    | SweepExpired(chosen: set<ActionId>)
    | Prune(retentionDays: nat, chosen: set<ActionId>)
    | DropMessage(message: string)

  const INITIAL := State(map[], {}, 0, [], [], map[], [], map[])

  function Goto(s: State, e: nat, pc: Pc): State
    requires e < |s.execs|
  {
    s.(execs := s.execs[e := s.execs[e].(pc := pc)])
  }

  /** One turn of `executeAction`. */
  function StepExecutor(s: State, e: nat, outcome: Outcome): State
    requires e < |s.execs|
  {
    var x := s.execs[e];
    var effect := !outcome.Threw?;
    match x.pc
    case Entered =>
      if !outcome.Ok? || x.snapshot.status.Succeeded? || x.snapshot.status.Failed? || x.snapshot.status.Expired?
      then Goto(s, e, Finished)
      else Goto(s, e, if x.snapshot.expiresAt <= s.clock then Expiring else Claiming)
    case Expiring =>
      var s1 := if effect then s.(rows := Mark(s.rows, x.id, Expired, s.clock)) else s;
      Goto(s1, e, if outcome.Ok? then RecordingExpired else Finished)
    case RecordingExpired => Goto(s, e, Finished)
    case Claiming =>
      if effect && Claimable(s.rows, x.id, s.clock) then
        Goto(s.(rows := Claim(s.rows, x.id, s.clock), claims := s.claims[x.id := e]), e,
             if outcome.Ok? then Handling else Finished)
      else Goto(s, e, Finished)
    case Handling =>
      if outcome.Ok? then Goto(s.(started := s.started + [x.id]), e, HandlerRunning) else Goto(s, e, MarkingFailed)
    case HandlerRunning => Goto(s, e, if outcome.Ok? then MarkingSucceeded else MarkingFailed)
    case MarkingSucceeded =>
      var s1 := if effect then s.(rows := Mark(s.rows, x.id, Succeeded, s.clock)) else s;
      Goto(s1, e, if outcome.Ok? then RecordingSucceeded else MarkingFailed)
    case RecordingSucceeded => Goto(s, e, if outcome.Ok? then Finished else MarkingFailed)
    case MarkingFailed =>
      var s1 := if effect then s.(rows := Mark(s.rows, x.id, Failed, s.clock)) else s;
      Goto(s1, e, if outcome.Ok? then RecordingFailed else Finished)
    case RecordingFailed => Goto(s, e, Finished)
    case Finished => s
  }

  /** The awaits an executor has left at most. */
  function Left(pc: Pc): nat {
    match pc
    case Entered => 7
    case Expiring => 1 case RecordingExpired => 1
    case Claiming => 6 case Handling => 5 case HandlerRunning => 4
    case MarkingSucceeded => 3 case RecordingSucceeded => 2 case MarkingFailed => 1 case RecordingFailed => 1
    case Finished => 0
  }

  /** Executor `e` run to its end with nobody else in between; `script` says how each await ends. */
  ghost function Drive(s: State, e: nat, script: Pc -> Outcome): State
    requires e < |s.execs|
    decreases Left(s.execs[e].pc), s.execs[e].pc.MarkingFailed? || s.execs[e].pc.Expiring?
  {
    if s.execs[e].pc.Finished? then s else Drive(StepExecutor(s, e, script(s.execs[e].pc)), e, script)
  }

  /** The table and clock of `s` are what a lone executor at `pc` works on. */
  ghost predicate Alone(s: State, dao: EmailActionDAO, id: ActionId, now: int, pc: Pc)
    reads dao
  {
    |s.execs| == 1 && s.execs[0].id == id && s.execs[0].pc == pc && s.rows == dao.rows && s.clock == now
  }

  /** The catch block. */
  method RecordFailure(dao: EmailActionDAO, id: ActionId, now: int, script: Pc -> Outcome, ghost s: State)
    requires Alone(s, dao, id, now, MarkingFailed)
    modifies dao
    ensures dao.rows == Drive(s, 0, script).rows && Drive(s, 0, script).started == s.started
    ensures dao.rows == if id !in old(dao.rows) || script(MarkingFailed).Threw? then old(dao.rows)
                        else old(dao.rows)[id := old(dao.rows)[id].(status := Failed, updatedAt := now)]
  {
    if !script(MarkingFailed).Threw? { dao.UpdateStatus(id, Failed, now); }
    ghost var s1 := StepExecutor(s, 0, script(MarkingFailed));
    assert Drive(s, 0, script) == Drive(s1, 0, script);
    assert s1.execs[0].pc.RecordingFailed? ==> Drive(s1, 0, script) == StepExecutor(s1, 0, script(RecordingFailed));
  }

  /** The two writes after the handler, still inside the try. */
  method RecordSuccess(dao: EmailActionDAO, id: ActionId, now: int, script: Pc -> Outcome, ghost s: State)
    requires Alone(s, dao, id, now, MarkingSucceeded)
    modifies dao
    ensures dao.rows == Drive(s, 0, script).rows && Drive(s, 0, script).started == s.started
    ensures var caught := !script(MarkingSucceeded).Ok? || !script(RecordingSucceeded).Ok?;
            dao.rows == if id !in old(dao.rows) then old(dao.rows)
                        else if caught && !script(MarkingFailed).Threw? then
                          old(dao.rows)[id := old(dao.rows)[id].(status := Failed, updatedAt := now)]
                        else if !script(MarkingSucceeded).Threw? then
                          old(dao.rows)[id := old(dao.rows)[id].(status := Succeeded, updatedAt := now)]
                        else old(dao.rows)
  {
    if !script(MarkingSucceeded).Threw? { dao.UpdateStatus(id, Succeeded, now); }
    ghost var s1 := StepExecutor(s, 0, script(MarkingSucceeded));
    assert Drive(s, 0, script) == Drive(s1, 0, script);
    if !script(MarkingSucceeded).Ok? {
      RecordFailure(dao, id, now, script, s1);
      return;
    }
    ghost var s2 := StepExecutor(s1, 0, script(RecordingSucceeded));
    assert Drive(s1, 0, script) == Drive(s2, 0, script);
    if !script(RecordingSucceeded).Ok? {
      RecordFailure(dao, id, now, script, s2);
    }
  }

  /** The try block, entered once the claim is won. */
  method RunHandler(dao: EmailActionDAO, id: ActionId, now: int, script: Pc -> Outcome, ghost s: State) returns (starts: nat)
    requires Alone(s, dao, id, now, Handling) && s.started == []
    modifies dao
    ensures dao.rows == Drive(s, 0, script).rows && starts == |Drive(s, 0, script).started|
    ensures starts == if script(Handling).Ok? then 1 else 0
    ensures var worked := script(Handling).Ok? && script(HandlerRunning).Ok?;
            var caught := !worked || !script(MarkingSucceeded).Ok? || !script(RecordingSucceeded).Ok?;
            dao.rows == if id !in old(dao.rows) then old(dao.rows)
                        else if caught && !script(MarkingFailed).Threw? then
                          old(dao.rows)[id := old(dao.rows)[id].(status := Failed, updatedAt := now)]
                        else if worked && !script(MarkingSucceeded).Threw? then
                          old(dao.rows)[id := old(dao.rows)[id].(status := Succeeded, updatedAt := now)]
                        else old(dao.rows)
  {
    ghost var s1 := StepExecutor(s, 0, script(Handling));
    assert Drive(s, 0, script) == Drive(s1, 0, script);
    if !script(Handling).Ok? {
      RecordFailure(dao, id, now, script, s1);
      return 0;
    }
    ghost var s2 := StepExecutor(s1, 0, script(HandlerRunning));
    assert Drive(s1, 0, script) == Drive(s2, 0, script);
    if script(HandlerRunning).Ok? {
      RecordSuccess(dao, id, now, script, s2);
    } else {
      RecordFailure(dao, id, now, script, s2);
    }
    return 1;
  }

  /** `executeAction` with its early returns and its try/catch.  The handler starts if and only if the
      snapshot is open and not overdue and the claim is won and acknowledged.  A row whose claim took effect ends
      `failed` when anything after the claim threw and that could be written, and otherwise `succeeded` when that
      could.  Run alone it does exactly what its turns do one after another. */
  method ExecuteAction(dao: EmailActionDAO, id: ActionId, snapshot: Row, now: int, script: Pc -> Outcome)
    returns (handlerStarts: nat)
    modifies dao
    ensures var alone := Drive(State(old(dao.rows), {}, now, [Executor(id, snapshot, Entered)], [], map[], [], map[]), 0, script);
            dao.rows == alone.rows && handlerStarts == |alone.started|
    ensures var open := script(Entered).Ok? && snapshot.status in {Pending, Executing};
            var won := open && now < snapshot.expiresAt && !script(Claiming).Threw?
                       && id in old(dao.rows) && old(dao.rows)[id].status == Pending && now < old(dao.rows)[id].expiresAt;
            var worked := script(Handling).Ok? && script(HandlerRunning).Ok?;
            var caught := !worked || !script(MarkingSucceeded).Ok? || !script(RecordingSucceeded).Ok?;
            && handlerStarts == (if won && script(Claiming).Ok? && script(Handling).Ok? then 1 else 0)
            && dao.rows ==
                 if open && snapshot.expiresAt <= now && !script(Expiring).Threw? && id in old(dao.rows) then
                   old(dao.rows)[id := old(dao.rows)[id].(status := Expired, updatedAt := now)]
                 else if !won then old(dao.rows)
                 else
                   var status := if !script(Claiming).Ok? then Executing
                                 else if caught && !script(MarkingFailed).Threw? then Failed
                                 else if worked && !script(MarkingSucceeded).Threw? then Succeeded
                                 else Executing;
                   old(dao.rows)[id := old(dao.rows)[id].(status := status, updatedAt := now)]
  {
    ghost var s := State(dao.rows, {}, now, [Executor(id, snapshot, Entered)], [], map[], [], map[]);
    ghost var s1 := StepExecutor(s, 0, script(Entered));
    assert Drive(s, 0, script) == Drive(s1, 0, script);
    if !script(Entered).Ok? || snapshot.status == Succeeded || snapshot.status == Failed || snapshot.status == Expired {
      return 0;
    }
    if snapshot.expiresAt <= now {
      if !script(Expiring).Threw? { dao.UpdateStatus(id, Expired, now); }
      ghost var s2 := StepExecutor(s1, 0, script(Expiring));
      assert Drive(s1, 0, script) == Drive(s2, 0, script);
      assert s2.execs[0].pc.RecordingExpired? ==> Drive(s2, 0, script) == StepExecutor(s2, 0, script(RecordingExpired));
      return 0;
    }
    ghost var s2 := StepExecutor(s1, 0, script(Claiming));
    assert Drive(s1, 0, script) == Drive(s2, 0, script);
    if script(Claiming).Threw? { return 0; }
    var claimed := dao.ClaimForExecution(id, now);
    if !claimed || !script(Claiming).Ok? { return 0; }
    handlerStarts := RunHandler(dao, id, now, script, s2);
  }

  /** `snoozeAction` and `scheduleAction` up to their write: the checks each makes on the row it read. */
  predicate Accepted(row: Row, change: Change, now: int) {
    && row.status.Pending?
    && match change
       case SnoozeTo(until) => now < until <= now + MAX_SNOOZE
       case ScheduleTo(at) => row.autoExecutable && now < at <= now + MAX_SNOOZE
       case _ => true
  }

  function ApplyChange(t: Table, id: ActionId, change: Change, now: int): Table {
    match change
    case SnoozeTo(until) => Snooze(t, id, until, until + SNOOZE_BUFFER, now)
    case Unsnooze => DropSnooze(t, id, now)
    case ScheduleTo(at) => Schedule(t, id, at, at + SCHEDULE_BUFFER, now)
    case Unschedule => DropSchedule(t, id, now)
  }

  datatype Answer = NotFound | BadRequest | Done

  /** `snoozeAction`: with no time given the snooze is cancelled. */
  method SnoozeAction(dao: EmailActionDAO, id: ActionId, until: Option<int>, now: int) returns (answer: Answer)
    modifies dao
    ensures answer.NotFound? <==> id !in old(dao.rows)
    ensures answer.Done? <==>
              && id in old(dao.rows) && old(dao.rows)[id].status.Pending?
              && (until.Some? ==> now < until.value <= now + 2_592_000)
    ensures !answer.Done? ==> dao.rows == old(dao.rows)
    ensures answer.Done? && until.None? ==>
              dao.rows == old(dao.rows)[id := old(dao.rows)[id].(snoozedUntil := None, updatedAt := now)]
    ensures answer.Done? && until.Some? ==>
              var row, end := old(dao.rows)[id], until.value + 86_400;
              dao.rows == old(dao.rows)[id := row.(snoozedUntil := until, updatedAt := now,
                                                   expiresAt := if row.expiresAt < end then end else row.expiresAt)]
    ensures var change := if until.Some? then SnoozeTo(until.value) else Unsnooze;
            && (answer.Done? <==> id in old(dao.rows) && Accepted(old(dao.rows)[id], change, now))
            && dao.rows == if answer.Done? then ApplyChange(old(dao.rows), id, change, now) else old(dao.rows)
  {
    if id !in dao.rows { return NotFound; }
    if dao.rows[id].status != Pending { return BadRequest; }
    var changed;
    if until.None? {
      changed := dao.CancelSnooze(id, now);
    } else {
      if until.value <= now { return BadRequest; }
      if until.value - now > MAX_SNOOZE { return BadRequest; }
      changed := dao.SnoozeAction(id, until.value, until.value + SNOOZE_BUFFER, now);
    }
    return Done;
  }

  /** `scheduleAction`: with no time given the schedule is cancelled. */
  method ScheduleAction(dao: EmailActionDAO, id: ActionId, at: Option<int>, now: int) returns (answer: Answer)
    modifies dao
    ensures answer.NotFound? <==> id !in old(dao.rows)
    ensures answer.Done? <==>
              && id in old(dao.rows) && old(dao.rows)[id].status.Pending?
              && (at.Some? ==> old(dao.rows)[id].autoExecutable && now < at.value <= now + 2_592_000)
    ensures !answer.Done? ==> dao.rows == old(dao.rows)
    ensures answer.Done? && at.None? ==>
              dao.rows == old(dao.rows)[id := old(dao.rows)[id].(scheduledFor := None, updatedAt := now)]
    ensures answer.Done? && at.Some? ==>
              var row, end := old(dao.rows)[id], at.value + 3_600;
              dao.rows == old(dao.rows)[id := row.(scheduledFor := at, updatedAt := now,
                                                   expiresAt := if row.expiresAt < end then end else row.expiresAt)]
    ensures var change := if at.Some? then ScheduleTo(at.value) else Unschedule;
            && (answer.Done? <==> id in old(dao.rows) && Accepted(old(dao.rows)[id], change, now))
            && dao.rows == if answer.Done? then ApplyChange(old(dao.rows), id, change, now) else old(dao.rows)
  {
    if id !in dao.rows { return NotFound; }
    if dao.rows[id].status != Pending { return BadRequest; }
    var changed;
    if at.None? {
      changed := dao.CancelSchedule(id, now);
    } else {
      if !dao.rows[id].autoExecutable { return BadRequest; }
      if at.value <= now { return BadRequest; }
      if at.value - now > MAX_SNOOZE { return BadRequest; }
      changed := dao.ScheduleAction(id, at.value, at.value + SCHEDULE_BUFFER, now);
    }
    return Done;
  }

  /** What the retention of processed messages selects. */
  function PrunableMessages(messages: map<string, Message>, olderThan: int): set<string> {
    set m | m in messages && messages[m].final && messages[m].updatedAt < olderThan
  }

  /** Messages go, and their actions with them. */
  function DeleteMessages(s: State, gone: set<string>): State {
    s.(messages := s.messages - gone, rows := Cascade(s.rows, gone))
  }

  function Step(s: State, e: Event): State {
    match e
    case Tick(seconds) => s.(clock := s.clock + seconds)
    case Receive(message, application) =>
      if message in s.messages then s else s.(messages := s.messages[message := Message(application, false, s.clock)])
    case MarkMessage(message, final) =>
      if message !in s.messages then s
      else s.(messages := s.messages[message := s.messages[message].(final := final, updatedAt := s.clock)])
    case PruneMessages(days, gone) =>
      if gone <= PrunableMessages(s.messages, s.clock - days * DAY) then DeleteMessages(s, gone) else s
    case DeleteApplication(application) =>
      DeleteMessages(s, set m | m in s.messages && s.messages[m].application == application)
    case Create(id, expiresAt, message, autoExecutable) =>
      if id in s.used || message !in s.messages then s
      else s.(rows := s.rows[id := Row(Pending, expiresAt, None, None, s.clock, message, autoExecutable)],
              used := s.used + {id})
    case Begin(id) => if id in s.rows then s.(execs := s.execs + [Executor(id, s.rows[id], Entered)]) else s
    case Advance(x, outcome) => if x < |s.execs| then StepExecutor(s, x, outcome) else s
    case Crash(x) => if x < |s.execs| then Goto(s, x, Finished) else s
    case Ask(id, change) =>
      if id in s.rows && Accepted(s.rows[id], change, s.clock)
      then s.(requests := s.requests + [Request(id, change, false)])
      else s
    case Apply(r) =>
      if r < |s.requests| && !s.requests[r].applied
      then s.(rows := ApplyChange(s.rows, s.requests[r].id, s.requests[r].change, s.clock),
              requests := s.requests[r := s.requests[r].(applied := true)])
      else s
    case SweepExpired(chosen) =>
      if chosen <= ExpirableIds(s.rows, s.clock) then s.(rows := Expire(s.rows, chosen, s.clock)) else s
    case Prune(days, chosen) =>
      if chosen <= DeletableIds(s.rows, s.clock - days * DAY) then s.(rows := Delete(s.rows, chosen)) else s
    case DropMessage(message) => s.(rows := DropPendingOfMessage(s.rows, message))
  }

  function Exec(s: State, events: seq<Event>): State {
    if events == [] then s else Step(Exec(s, events[..|events| - 1]), events[|events| - 1])
  }

  /** A request is written once, a message that is known already is not recorded again, and an executor that crashed
      does nothing more. */
  lemma RepeatsChangeNothing(s: State, r: nat, message: string, first: string, second: string, x: nat, outcome: Outcome)
    ensures Step(Step(s, Apply(r)), Apply(r)) == Step(s, Apply(r))
    ensures Step(Step(s, Receive(message, first)), Receive(message, second)) == Step(s, Receive(message, first))
    ensures Step(Step(s, Crash(x)), Advance(x, outcome)) == Step(s, Crash(x))
  {
    hide ApplyChange;
  }

  // ---------- At most one handler start ----------

  predicate NoRepeats(q: seq<ActionId>) {
    forall i, j :: 0 <= i < j < |q| ==> q[i] != q[j]
  }

  /** A pending row has no claim; an executor about to start the handler owns the only claim of its
      action and no handler was started for it; every start has a claim behind it. */
  predicate ClaimInv(s: State) {
    && s.rows.Keys <= s.used && s.claims.Keys <= s.used
    && (forall id :: IsPending(s.rows, id) ==> id !in s.claims)
    && (forall e :: 0 <= e < |s.execs| ==> s.execs[e].id in s.used)
    && (forall e :: 0 <= e < |s.execs| && s.execs[e].pc.Handling? ==>
          s.execs[e].id in s.claims && s.claims[s.execs[e].id] == e && s.execs[e].id !in s.started)
    && (forall id :: id in s.started ==> id in s.claims)
    && NoRepeats(s.started)
  }

  /** Turns other than a claim or a start only rewrite rows that stay out of `pending`. */
  lemma QuietTurnKeepsClaimInv(s: State, s': State, e: nat)
    requires ClaimInv(s) && e < |s.execs| == |s'.execs|
    requires s'.rows.Keys == s.rows.Keys && s'.used == s.used && s'.claims == s.claims && s'.started == s.started
    requires forall id :: IsPending(s'.rows, id) ==> IsPending(s.rows, id)
    requires forall f :: 0 <= f < |s.execs| && f != e ==> s'.execs[f] == s.execs[f]
    requires s'.execs[e].id == s.execs[e].id && !s'.execs[e].pc.Handling?
    ensures ClaimInv(s')
  {
  }

  lemma ClaimTurnKeepsClaimInv(s: State, e: nat, outcome: Outcome)
    requires ClaimInv(s) && e < |s.execs| && s.execs[e].pc.Claiming?
    ensures ClaimInv(StepExecutor(s, e, outcome))
  {
    var s', id := StepExecutor(s, e, outcome), s.execs[e].id;
    if !outcome.Threw? && Claimable(s.rows, id, s.clock) {
      assert id !in s.claims && id !in s.started;
      assert forall f :: 0 <= f < |s.execs| && s.execs[f].pc.Handling? ==> s.execs[f].id != id;
    }
  }

  lemma StartTurnKeepsClaimInv(s: State, e: nat, outcome: Outcome)
    requires ClaimInv(s) && e < |s.execs| && s.execs[e].pc.Handling?
    ensures ClaimInv(StepExecutor(s, e, outcome))
  {
    var s' := StepExecutor(s, e, outcome);
    forall f | 0 <= f < |s'.execs| && s'.execs[f].pc.Handling? ensures s'.execs[f].id !in s'.started {
      assert f != e && s.execs[f] == s'.execs[f];
    }
  }

  /** The status an executor's mark writes. */
  function MarkOf(pc: Pc): Status {
    if pc.Expiring? then Expired else if pc.MarkingSucceeded? then Succeeded else Failed
  }

  predicate IsMark(pc: Pc) {
    pc.Expiring? || pc.MarkingSucceeded? || pc.MarkingFailed?
  }

  lemma MarkTurn(s: State, e: nat, outcome: Outcome) returns (pc: Pc)
    requires e < |s.execs| && IsMark(s.execs[e].pc)
    ensures var x := s.execs[e];
            var rows := if outcome.Threw? then s.rows else Mark(s.rows, x.id, MarkOf(x.pc), s.clock);
            StepExecutor(s, e, outcome) == Goto(s.(rows := rows), e, pc) && !pc.Handling?
  {
    hide Mark;
    pc := StepExecutor(s, e, outcome).execs[e].pc;
  }

  lemma PlainTurn(s: State, e: nat, outcome: Outcome) returns (pc: Pc)
    requires e < |s.execs| && !IsMark(s.execs[e].pc) && !s.execs[e].pc.Claiming? && !s.execs[e].pc.Handling?
    ensures StepExecutor(s, e, outcome) == Goto(s, e, pc) && !pc.Handling?
  {
    pc := StepExecutor(s, e, outcome).execs[e].pc;
    assert s.execs[e].pc.Finished? ==> s.execs[e := s.execs[e].(pc := Finished)] == s.execs;
  }

  lemma OtherTurnKeepsClaimInv(s: State, e: nat, outcome: Outcome)
    requires ClaimInv(s) && e < |s.execs| && !s.execs[e].pc.Claiming? && !s.execs[e].pc.Handling?
    ensures ClaimInv(StepExecutor(s, e, outcome))
  {
    hide StepExecutor;
    hide ClaimInv;
    if IsMark(s.execs[e].pc) {
      var pc := MarkTurn(s, e, outcome);
    } else {
      var pc := PlainTurn(s, e, outcome);
    }
    QuietTurnKeepsClaimInv(s, StepExecutor(s, e, outcome), e);
  }

  lemma ExecutorKeepsClaimInv(s: State, e: nat, outcome: Outcome)
    requires ClaimInv(s) && e < |s.execs|
    ensures ClaimInv(StepExecutor(s, e, outcome))
  {
    hide ClaimInv;
    hide StepExecutor;
    if s.execs[e].pc.Claiming? {
      ClaimTurnKeepsClaimInv(s, e, outcome);
    } else if s.execs[e].pc.Handling? {
      StartTurnKeepsClaimInv(s, e, outcome);
    } else {
      OtherTurnKeepsClaimInv(s, e, outcome);
    }
  }

  lemma StepKeepsClaimInv(s: State, e: Event)
    requires ClaimInv(s)
    ensures ClaimInv(Step(s, e))
  {
    if e.Advance? && e.exec < |s.execs| {
      ExecutorKeepsClaimInv(s, e.exec, e.outcome);
    }
  }

  lemma {:induction false} ExecKeepsClaimInv(s: State, events: seq<Event>)
    requires ClaimInv(s)
    ensures ClaimInv(Exec(s, events))
  {
    if events != [] {
      ExecKeepsClaimInv(s, events[..|events| - 1]);
      StepKeepsClaimInv(Exec(s, events[..|events| - 1]), events[|events| - 1]);
    }
  }

  /** Over every interleaving, no action's handler is started twice. */
  lemma HandlerStartsAtMostOnce(events: seq<Event>)
    ensures var started := Exec(INITIAL, events).started;
            forall i, j :: 0 <= i < j < |started| ==> started[i] != started[j]
  {
    ExecKeepsClaimInv(INITIAL, events);
  }

  /** An action that exists or existed and is not pending now. */
  predicate LeftPending(s: State, id: ActionId) {
    id in s.used && !IsPending(s.rows, id)
  }

  lemma StepKeepsLeftPending(s: State, e: Event, id: ActionId)
    requires LeftPending(s, id)
    ensures LeftPending(Step(s, e), id)
  {
  }

  /** No turn brings an action back to `pending`, not even after its row was deleted. */
  lemma {:induction false} PendingNeverReturns(s: State, events: seq<Event>, id: ActionId)
    requires LeftPending(s, id)
    ensures LeftPending(Exec(s, events), id)
  {
    if events != [] {
      PendingNeverReturns(s, events[..|events| - 1], id);
      StepKeepsLeftPending(Exec(s, events[..|events| - 1]), events[|events| - 1], id);
    }
  }

  /** An action that left `pending` never passes the filter of the due list again. */
  lemma EndedNeverDue(s: State, events: seq<Event>, id: ActionId)
    requires LeftPending(s, id) && id in Exec(s, events).rows
    ensures !Due(Exec(s, events).rows[id], Exec(s, events).clock)
  {
    hide Exec;
    PendingNeverReturns(s, events, id);
  }

  // ---------- What may be scheduled ----------

  /** A request is accepted if and only if its row is pending and its time lies within the next 30 days, and, for a
      schedule, the action's type may run unattended. */
  lemma AskIff(s: State, id: ActionId, change: Change)
    ensures |Step(s, Ask(id, change)).requests| == |s.requests| + 1
            <==> && id in s.rows && s.rows[id].status.Pending?
                 && (change.SnoozeTo? ==> s.clock < change.until <= s.clock + 30 * DAY)
                 && (change.ScheduleTo? ==>
                       s.rows[id].autoExecutable && s.clock < change.at <= s.clock + 30 * DAY)
  {
    assert 30 * DAY == 2_592_000;
  }

  /** Only actions that may run unattended are scheduled, or about to be. */
  predicate AutoInv(s: State) {
    && s.rows.Keys <= s.used && (forall r :: 0 <= r < |s.requests| ==> s.requests[r].id in s.used)
    && (forall id :: id in s.rows && s.rows[id].scheduledFor.Some? ==> s.rows[id].autoExecutable)
    && (forall r :: 0 <= r < |s.requests| && s.requests[r].change.ScheduleTo? && s.requests[r].id in s.rows ==>
          s.rows[s.requests[r].id].autoExecutable)
  }

  lemma ExecutorKeepsAutoInv(s: State, e: nat, outcome: Outcome)
    requires AutoInv(s) && e < |s.execs|
    ensures AutoInv(StepExecutor(s, e, outcome))
  {
    ExecutorStatement(s, e, outcome);
    hide StepExecutor;
  }

  lemma StepKeepsAutoInv(s: State, e: Event)
    requires AutoInv(s)
    ensures AutoInv(Step(s, e))
  {
    if e.Advance? && e.exec < |s.execs| { ExecutorKeepsAutoInv(s, e.exec, e.outcome); }
    hide StepExecutor;
  }

  lemma {:induction false} ExecKeepsAutoInv(s: State, events: seq<Event>)
    requires AutoInv(s)
    ensures AutoInv(Exec(s, events))
  {
    hide AutoInv;
    hide Step;
    if events != [] {
      ExecKeepsAutoInv(s, events[..|events| - 1]);
      StepKeepsAutoInv(Exec(s, events[..|events| - 1]), events[|events| - 1]);
    }
  }

  /** In every reachable state, whatever is scheduled may run unattended. */
  lemma OnlyAutoIsScheduled(events: seq<Event>, id: ActionId)
    requires id in Exec(INITIAL, events).rows && Exec(INITIAL, events).rows[id].scheduledFor.Some?
    ensures Exec(INITIAL, events).rows[id].autoExecutable
  {
    hide Exec;
    ExecKeepsAutoInv(INITIAL, events);
  }

  // ---------- Expiry and the scheduled window ----------

  /** Expiry stays past the snooze and schedule buffers, and neither instant lies more than the
      permitted 30 days after the row was last written. */
  predicate RowTimesOk(row: Row, clock: int) {
    && row.updatedAt <= clock
    && (row.scheduledFor.Some? ==>
          row.scheduledFor.value + SCHEDULE_BUFFER <= row.expiresAt && row.scheduledFor.value <= row.updatedAt + MAX_SNOOZE)
    && (row.snoozedUntil.Some? ==>
          row.snoozedUntil.value + SNOOZE_BUFFER <= row.expiresAt && row.snoozedUntil.value <= row.updatedAt + MAX_SNOOZE)
  }

  predicate TableTimesOk(t: Table, clock: int) {
    forall id :: id in t ==> RowTimesOk(t[id], clock)
  }

  predicate WithinReach(change: Change, clock: int) {
    match change
    case SnoozeTo(until) => until <= clock + MAX_SNOOZE
    case ScheduleTo(at) => at <= clock + MAX_SNOOZE
    case _ => true
  }

  predicate TimeInv(s: State) {
    TableTimesOk(s.rows, s.clock) && forall r :: 0 <= r < |s.requests| ==> WithinReach(s.requests[r].change, s.clock)
  }

  lemma StatementsKeepTimes(t: Table, id: ActionId, status: Status, change: Change, now: int)
    requires TableTimesOk(t, now) && WithinReach(change, now)
    ensures TableTimesOk(Mark(t, id, status, now), now)
    ensures TableTimesOk(Claim(t, id, now), now)
    ensures TableTimesOk(ApplyChange(t, id, change, now), now)
  {
  }

  /** An executor's turn runs at most one statement on its own row. */
  lemma ExecutorStatement(s: State, e: nat, outcome: Outcome)
    requires e < |s.execs|
    ensures var s', id := StepExecutor(s, e, outcome), s.execs[e].id;
            && s'.clock == s.clock && s'.requests == s.requests && s'.used == s.used && s'.messages == s.messages
            && (s'.rows == s.rows || s'.rows == Claim(s.rows, id, s.clock)
                || exists status :: s'.rows == Mark(s.rows, id, status, s.clock))
  {
    var s', x := StepExecutor(s, e, outcome), s.execs[e];
    if x.pc.Expiring? && !outcome.Threw? {
      assert s'.rows == Mark(s.rows, x.id, Expired, s.clock);
    } else if x.pc.MarkingSucceeded? && !outcome.Threw? {
      assert s'.rows == Mark(s.rows, x.id, Succeeded, s.clock);
    } else if x.pc.MarkingFailed? && !outcome.Threw? {
      assert s'.rows == Mark(s.rows, x.id, Failed, s.clock);
    }
  }

  lemma ExecutorKeepsTimeInv(s: State, e: nat, outcome: Outcome)
    requires TimeInv(s) && e < |s.execs|
    ensures TimeInv(StepExecutor(s, e, outcome))
  {
    ExecutorStatement(s, e, outcome);
    var s', id := StepExecutor(s, e, outcome), s.execs[e].id;
    forall status ensures TableTimesOk(Mark(s.rows, id, status, s.clock), s.clock) {
      StatementsKeepTimes(s.rows, id, status, Unsnooze, s.clock);
    }
    StatementsKeepTimes(s.rows, id, Expired, Unsnooze, s.clock);
  }

  lemma StepKeepsTimeInv(s: State, e: Event)
    requires TimeInv(s)
    ensures TimeInv(Step(s, e))
  {
    match e
    case Advance(x, outcome) =>
      if x < |s.execs| { ExecutorKeepsTimeInv(s, x, outcome); }
    case Apply(r) =>
      if r < |s.requests| {
        StatementsKeepTimes(s.rows, s.requests[r].id, Expired, s.requests[r].change, s.clock);
      }
    case _ =>
  }

  /** Later deadlines only: a row that survives a turn expires no earlier than before. */
  lemma StepNeverShortens(s: State, e: Event, id: ActionId)
    requires s.rows.Keys <= s.used && id in s.rows && id in Step(s, e).rows
    ensures s.rows[id].expiresAt <= Step(s, e).rows[id].expiresAt
  {
    if e.Advance? && e.exec < |s.execs| { ExecutorStatement(s, e.exec, e.outcome); }
    hide StepExecutor;
  }

  lemma {:induction false} ExecKeepsTimeInv(s: State, events: seq<Event>)
    requires TimeInv(s)
    ensures TimeInv(Exec(s, events))
  {
    if events != [] {
      ExecKeepsTimeInv(s, events[..|events| - 1]);
      StepKeepsTimeInv(Exec(s, events[..|events| - 1]), events[|events| - 1]);
    }
  }

  /** In every reachable state the deadline clears both buffers. */
  lemma ExpiryClearsBuffers(events: seq<Event>, id: ActionId)
    requires id in Exec(INITIAL, events).rows
    ensures var row := Exec(INITIAL, events).rows[id];
            && (row.scheduledFor.Some? ==> row.expiresAt >= row.scheduledFor.value + SCHEDULE_BUFFER)
            && (row.snoozedUntil.Some? ==> row.expiresAt >= row.snoozedUntil.value + SNOOZE_BUFFER)
  {
    ExecKeepsTimeInv(INITIAL, events);
  }

  /** Once created, an id is never created again, so a row present at both ends of a run was there
      all along. */
  lemma StepNeverRevives(s: State, e: Event, id: ActionId)
    requires id in s.used && id !in s.rows
    ensures id in Step(s, e).used && id !in Step(s, e).rows
  {
    if e.Advance? && e.exec < |s.execs| { ExecutorStatement(s, e.exec, e.outcome); }
    hide StepExecutor;
  }

  lemma StepKeepsUsed(s: State, e: Event, id: ActionId)
    requires s.rows.Keys <= s.used && id in s.used
    ensures Step(s, e).rows.Keys <= Step(s, e).used && id in Step(s, e).used
  {
    if e.Advance? && e.exec < |s.execs| { ExecutorStatement(s, e.exec, e.outcome); }
    hide StepExecutor;
  }

  lemma {:induction false} ExpiryNeverDecreases(s: State, events: seq<Event>, id: ActionId)
    requires s.rows.Keys <= s.used && id in s.rows
    ensures var s' := Exec(s, events);
            && s'.rows.Keys <= s'.used && id in s'.used
            && (id in s'.rows ==> s.rows[id].expiresAt <= s'.rows[id].expiresAt)
  {
    hide Step;
    if events != [] {
      var init, last := events[..|events| - 1], events[|events| - 1];
      ExpiryNeverDecreases(s, init, id);
      var mid := Exec(s, init);
      StepKeepsUsed(mid, last, id);
      if id in mid.rows {
        if id in Step(mid, last).rows { StepNeverShortens(mid, last, id); }
      } else {
        StepNeverRevives(mid, last, id);
      }
    }
  }

  /** The window in which a scheduled action may run: after both instants, for one hour. */
  function WindowStart(row: Row): int
    requires row.scheduledFor.Some?
  {
    if row.snoozedUntil.Some? then Max(row.scheduledFor.value, row.snoozedUntil.value) else row.scheduledFor.value
  }

  /** In every reachable state, a pending scheduled row whose window has not ended is out of reach of the
      expiry sweep and of a retention sweep of 31 days or more; and from the window's start on it passes the
      filter of the due list and can be claimed. */
  lemma ScheduledWindow(events: seq<Event>, id: ActionId, days: nat)
    requires IsPending(Exec(INITIAL, events).rows, id) && Exec(INITIAL, events).rows[id].scheduledFor.Some?
    requires days >= 31
    ensures var s := Exec(INITIAL, events);
            var row := s.rows[id];
            s.clock < WindowStart(row) + SCHEDULE_BUFFER ==>
              && !Expirable(row, s.clock) && !Deletable(row, s.clock - days * DAY)
              && (Due(row, s.clock) <==> WindowStart(row) <= s.clock)
              && Claimable(s.rows, id, s.clock)
  {
    hide Exec;
    hide TimeInv;
    assert TimeInv(INITIAL) by { NothingYet(); }
    ExecKeepsTimeInv(INITIAL, events);
    var s := Exec(INITIAL, events);
    if s.clock < WindowStart(s.rows[id]) + SCHEDULE_BUFFER { WindowIsSafe(s, id, days); }
  }

  lemma NothingYet()
    ensures TimeInv(INITIAL)
  {
  }

  lemma WindowIsSafe(s: State, id: ActionId, days: nat)
    requires TimeInv(s) && IsPending(s.rows, id) && s.rows[id].scheduledFor.Some? && days >= 31
    requires s.clock < WindowStart(s.rows[id]) + SCHEDULE_BUFFER
    ensures var row := s.rows[id];
            && !Expirable(row, s.clock) && !Deletable(row, s.clock - days * DAY)
            && (Due(row, s.clock) <==> WindowStart(row) <= s.clock)
            && Claimable(s.rows, id, s.clock)
  {
    assert days * DAY >= 31 * DAY;
    assert RowTimesOk(s.rows[id], s.clock);
  }
}
