/** Handing queue messages to workflow instances: one batch call, and on failure one call per message. */
module QueueDispatch {
  import opened Wrappers

  datatype Message = Message(id: string, body: string)

  /** `emw_` + a hash of queue and message id; the hash is taken to be injective. */
  datatype InstanceId = InstanceId(queue: string, message: string)

  type Instances = map<InstanceId, string>

  datatype Verdict = Ack | Retry

  /** A failure of `create` other than finding the id taken: its text, and whether it took effect. */
  datatype Fault = Fault(text: string, created: bool)

  function Lower(c: char): char {
    if 'A' <= c <= 'Z' then c + 32 as char else c
  }

  /** `word` stands at index `i` of `text`, whatever the case. */
  predicate WordAt(text: string, word: string, i: nat) {
    i + |word| <= |text| && forall j :: 0 <= j < |word| ==> Lower(text[i + j]) == word[j]
  }

  /** `/already exists|duplicate|exists/i`; the first alternative is a case of the last. */
  predicate LooksDuplicate(text: string) {
    exists i :: 0 <= i < |text| && (WordAt(text, "duplicate", i) || WordAt(text, "exists", i))
  }

  /** `duplicate`, each letter in either case. */
  predicate SaysDuplicate(text: string, i: nat) {
    && i + 9 <= |text|
    && text[i] in {'d', 'D'} && text[i + 1] in {'u', 'U'} && text[i + 2] in {'p', 'P'}
    && text[i + 3] in {'l', 'L'} && text[i + 4] in {'i', 'I'} && text[i + 5] in {'c', 'C'}
    && text[i + 6] in {'a', 'A'} && text[i + 7] in {'t', 'T'} && text[i + 8] in {'e', 'E'}
  }

  /** `exists`, each letter in either case. */
  predicate SaysExists(text: string, i: nat) {
    && i + 6 <= |text|
    && text[i] in {'e', 'E'} && text[i + 1] in {'x', 'X'} && text[i + 2] in {'i', 'I'}
    && text[i + 3] in {'s', 'S'} && text[i + 4] in {'t', 'T'} && text[i + 5] in {'s', 'S'}
  }

  /** What the pattern matches, letter by letter. */
  lemma LooksDuplicateIff(text: string)
    ensures LooksDuplicate(text) <==> exists i :: 0 <= i < |text| && (SaysDuplicate(text, i) || SaysExists(text, i))
  {
    forall i | 0 <= i < |text|
      ensures WordAt(text, "duplicate", i) <==> SaysDuplicate(text, i)
      ensures WordAt(text, "exists", i) <==> SaysExists(text, i)
    {
      WordIs(text, i);
    }
  }

  lemma WordIs(text: string, i: nat)
    ensures WordAt(text, "duplicate", i) <==> SaysDuplicate(text, i)
    ensures WordAt(text, "exists", i) <==> SaysExists(text, i)
  {
    var d, e := "duplicate", "exists";
    if i + 9 <= |text| {
      assert (forall j :: 0 <= j < 9 ==> Lower(text[i + j]) == d[j]) <==>
        (Lower(text[i]) == d[0] && Lower(text[i + 1]) == d[1] && Lower(text[i + 2]) == d[2] && Lower(text[i + 3]) == d[3]
         && Lower(text[i + 4]) == d[4] && Lower(text[i + 5]) == d[5] && Lower(text[i + 6]) == d[6]
         && Lower(text[i + 7]) == d[7] && Lower(text[i + 8]) == d[8]);
    }
    if i + 6 <= |text| {
      assert (forall j :: 0 <= j < 6 ==> Lower(text[i + j]) == e[j]) <==>
        (Lower(text[i]) == e[0] && Lower(text[i + 1]) == e[1] && Lower(text[i + 2]) == e[2] && Lower(text[i + 3]) == e[3]
         && Lower(text[i + 4]) == e[4] && Lower(text[i + 5]) == e[5]);
    }
  }

  const ALREADY_EXISTS := "instance already exists"

  lemma AlreadyExistsLooksDuplicate()
    ensures LooksDuplicate(ALREADY_EXISTS)
  {
    assert WordAt(ALREADY_EXISTS, "exists", 17);
  }

  function IdOf(queue: string, m: Message): InstanceId {
    InstanceId(queue, m.id)
  }

  function Add(t: Instances, queue: string, m: Message): Instances {
    if IdOf(queue, m) in t then t else t[IdOf(queue, m) := m.body]
  }

  /** The text `create` throws, or nothing when it made the instance. */
  function CreateError(t: Instances, queue: string, m: Message, fault: Option<Fault>): Option<string> {
    if fault.Some? then Some(fault.value.text)
    else if IdOf(queue, m) in t then Some(ALREADY_EXISTS) else None
  }

  function AfterCreate(t: Instances, queue: string, m: Message, fault: Option<Fault>): Instances {
    if fault.Some? && !fault.value.created then t else Add(t, queue, m)
  }

  /** The fault tells the truth: it reads like a duplicate only if the instance is there. */
  predicate Honest(t: Instances, queue: string, m: Message, fault: Option<Fault>) {
    fault.Some? && LooksDuplicate(fault.value.text) ==> fault.value.created || IdOf(queue, m) in t
  }

  function IdsOf(queue: string, batch: seq<Message>): set<InstanceId> {
    set m | m in batch :: IdOf(queue, m)
  }

  /** How far a batch call gets. */
  function Reached(batch: seq<Message>, completed: nat, fails: bool): (n: nat)
    ensures n <= |batch|
  {
    if fails && completed < |batch| then completed else |batch|
  }

  /** The new instances hold the bodies of messages of the batch, the old ones what they held. */
  ghost predicate Extends(t: Instances, t': Instances, queue: string, batch: seq<Message>) {
    && t.Keys <= t'.Keys && (forall id :: id in t ==> t'[id] == t[id])
    && forall id :: id in t' && id !in t ==> exists m :: m in batch && id == IdOf(queue, m) && t'[id] == m.body
  }

  class EmailProcessingWorkflow {
    var instances: Instances

    /** Creates every instance that does not exist yet, or fails after creating some of them. */
    method CreateBatch(queue: string, batch: seq<Message>, completed: nat, fails: bool) returns (ok: bool)
      modifies this
      ensures ok == !fails && Extends(old(instances), instances, queue, batch)
      ensures instances.Keys == old(instances.Keys) + IdsOf(queue, batch[..Reached(batch, completed, fails)])
    {
      var n := Reached(batch, completed, fails);
      for k := 0 to n
        invariant Extends(old(instances), instances, queue, batch)
        invariant instances.Keys == old(instances.Keys) + IdsOf(queue, batch[..k])
      {
        assert batch[..k + 1] == batch[..k] + [batch[k]];
        assert IdsOf(queue, batch[..k + 1]) == IdsOf(queue, batch[..k]) + {IdOf(queue, batch[k])};
        if IdOf(queue, batch[k]) !in instances {
          instances := instances[IdOf(queue, batch[k]) := batch[k].body];
        }
      }
      return !fails;
    }

    method Create(queue: string, m: Message, fault: Option<Fault>) returns (error: Option<string>)
      modifies this
      ensures error == CreateError(old(instances), queue, m, fault)
      ensures instances == AfterCreate(old(instances), queue, m, fault)
      ensures error.None? <==> fault.None? && InstanceId(queue, m.id) !in old(instances)
      ensures fault.Some? ==> error == Some(fault.value.text)
      ensures instances == if InstanceId(queue, m.id) in old(instances) || (fault.Some? && !fault.value.created)
                           then old(instances) else old(instances)[InstanceId(queue, m.id) := m.body]
    {
      if fault.Some? {
        if fault.value.created && IdOf(queue, m) !in instances {
          instances := instances[IdOf(queue, m) := m.body];
        }
        return Some(fault.value.text);
      }
      if IdOf(queue, m) in instances { return Some(ALREADY_EXISTS); }
      instances := instances[IdOf(queue, m) := m.body];
      return None;
    }
  }

  /** One acknowledgement or retry request made to the queue. */
  datatype Call = Call(index: nat, verdict: Verdict)

  predicate TakenForDuplicate(fault: Option<Fault>) {
    fault.Some? && LooksDuplicate(fault.value.text)
  }

  function VerdictOf(batchFails: bool, fault: Option<Fault>): Verdict {
    if !batchFails || fault.None? || TakenForDuplicate(fault) then Ack else Retry
  }

  /** A single `create` leaves its instance behind. */
  predicate Leaves(fault: Option<Fault>) {
    fault.None? || fault.value.created
  }

  /** What the handler makes of the outcome of a single `create`. */
  function Reads(error: Option<string>): Verdict {
    if error.None? || LooksDuplicate(error.value) then Ack else Retry
  }

  function Upto(n: nat): (r: set<nat>)
    ensures |r| == n && forall k: nat :: k in r <==> k < n
  {
    if n == 0 then {} else Upto(n - 1) + {n - 1}
  }

  ghost predicate Distinct(calls: seq<Call>) {
    forall i, j :: 0 <= i < j < |calls| ==> calls[i].index != calls[j].index
  }

  function Indices(calls: seq<Call>): set<nat> {
    set i | 0 <= i < |calls| :: calls[i].index
  }

  /** The ids that the single creates at these positions leave behind. */
  function Left(queue: string, batch: seq<Message>, faults: seq<Option<Fault>>, done: set<nat>): set<InstanceId>
    requires |faults| == |batch| && forall k :: k in done ==> k < |batch|
  {
    set k | k in done && Leaves(faults[k]) :: IdOf(queue, batch[k])
  }

  lemma LeftOneMore(queue: string, batch: seq<Message>, faults: seq<Option<Fault>>, done: set<nat>, k: nat)
    requires |faults| == |batch| && (forall k :: k in done ==> k < |batch|) && k < |batch|
    ensures Left(queue, batch, faults, done + {k})
            == Left(queue, batch, faults, done) + if Leaves(faults[k]) then {IdOf(queue, batch[k])} else {}
  {
  }

  /** The ids that exist after a call, from its inputs. */
  function IdsAfter(
    ids: set<InstanceId>, queue: string, batch: seq<Message>, completed: nat, batchFails: bool, faults: seq<Option<Fault>>)
    : set<InstanceId>
    requires |faults| == |batch|
  {
    ids + IdsOf(queue, batch[..Reached(batch, completed, batchFails)])
    + if batchFails then Left(queue, batch, faults, Upto(|batch|)) else {}
  }

  /** The calls settle every message of the batch once, with these verdicts. */
  ghost predicate Settles(calls: seq<Call>, batchFails: bool, faults: seq<Option<Fault>>) {
    && |calls| == |faults| && Distinct(calls) && Indices(calls) == Upto(|faults|)
    && VerdictsOk(calls, batchFails, faults)
  }

  ghost predicate VerdictsOk(calls: seq<Call>, batchFails: bool, faults: seq<Option<Fault>>) {
    forall i :: 0 <= i < |calls| ==>
      calls[i].index < |faults| && calls[i].verdict == VerdictOf(batchFails, faults[calls[i].index])
  }

  lemma NoCalls(batchFails: bool, faults: seq<Option<Fault>>)
    ensures Distinct([]) && Indices([]) == {} && VerdictsOk([], batchFails, faults)
  {
  }

  lemma OneMoreCall(calls: seq<Call>, c: Call, batchFails: bool, faults: seq<Option<Fault>>)
    requires Distinct(calls) && VerdictsOk(calls, batchFails, faults)
    requires c.index < |faults| && c.index !in Indices(calls) && c.verdict == VerdictOf(batchFails, faults[c.index])
    ensures Distinct(calls + [c]) && Indices(calls + [c]) == Indices(calls) + {c.index}
    ensures VerdictsOk(calls + [c], batchFails, faults)
  {
    hide LooksDuplicate;
    assert forall i :: 0 <= i < |calls| ==> (calls + [c])[i] == calls[i] && calls[i].index in Indices(calls);
    assert (calls + [c])[|calls|] == c;
  }

  method AcknowledgeAll(n: nat, ghost faults: seq<Option<Fault>>) returns (calls: seq<Call>)
    requires |faults| == n
    ensures Settles(calls, false, faults)
  {
    hide Distinct;
    hide Indices;
    hide VerdictsOk;
    calls := [];
    NoCalls(false, faults);
    for k := 0 to n
      invariant |calls| == k && Distinct(calls) && Indices(calls) == Upto(k) && VerdictsOk(calls, false, faults)
    {
      OneMoreCall(calls, Call(k, Ack), false, faults);
      assert Upto(k + 1) == Upto(k) + {k};
      calls := calls + [Call(k, Ack)];
    }
  }

  predicate Parts(done: set<nat>, running: set<nat>, n: nat) {
    done !! running && done + running == Upto(n)
  }

  lemma PartsMove(done: set<nat>, running: set<nat>, n: nat, k: nat)
    requires Parts(done, running, n) && k in running
    ensures Parts(done + {k}, running - {k}, n) && k !in done && k < n && running - {k} < running
  {
  }

  lemma PartsEnd(done: set<nat>, n: nat)
    requires Parts(done, {}, n)
    ensures done == Upto(n)
  {
  }

  /** A fallback on its way: the creates in `done` have returned, those in `waiting` are not settled yet. */
  ghost predicate Midway(
    t: Instances, t': Instances, queue: string, batch: seq<Message>, faults: seq<Option<Fault>>,
    errors: map<nat, Option<string>>, calls: seq<Call>, done: set<nat>, waiting: set<nat>)
  {
    && |faults| == |batch| && (forall k :: k in done ==> k < |batch|) && waiting <= done && errors.Keys == done
    && (forall k :: k in done ==> Reads(errors[k]) == VerdictOf(true, faults[k]))
    && Distinct(calls) && Indices(calls) == done - waiting && VerdictsOk(calls, true, faults)
    && Extends(t, t', queue, batch) && t'.Keys == t.Keys + Left(queue, batch, faults, done)
  }

  lemma CreateStep(
    t: Instances, t': Instances, queue: string, batch: seq<Message>, faults: seq<Option<Fault>>,
    errors: map<nat, Option<string>>, calls: seq<Call>, done: set<nat>, waiting: set<nat>, k: nat)
    requires Midway(t, t', queue, batch, faults, errors, calls, done, waiting) && k < |batch| && k !in done
    ensures Midway(t, AfterCreate(t', queue, batch[k], faults[k]), queue, batch, faults,
                   errors[k := CreateError(t', queue, batch[k], faults[k])], calls, done + {k}, waiting + {k})
  {
    hide Distinct;
    hide Indices;
    hide VerdictsOk;
    hide Extends;
    hide Left;
    hide Reads;
    hide VerdictOf;
    hide CreateError;
    hide AfterCreate;
    CreateExtends(t, t', queue, batch, faults, done, k);
    ErrorReads(t', queue, batch[k], faults[k]);
    DoneMoves(done, waiting, k);
  }

  lemma SettleStep(
    t: Instances, t': Instances, queue: string, batch: seq<Message>, faults: seq<Option<Fault>>,
    errors: map<nat, Option<string>>, calls: seq<Call>, done: set<nat>, waiting: set<nat>, k: nat)
    requires Midway(t, t', queue, batch, faults, errors, calls, done, waiting) && k in waiting
    ensures k in errors && Midway(t, t', queue, batch, faults, errors, calls + [Call(k, Reads(errors[k]))], done, waiting - {k})
  {
    hide Distinct;
    hide Indices;
    hide VerdictsOk;
    hide Extends;
    hide Left;
    hide Reads;
    hide VerdictOf;
    OneMoreCall(calls, Call(k, Reads(errors[k])), true, faults);
    DoneMoves(done, waiting, k);
  }

  /** The fallback.  The single creates run at the same time: they take effect, and settle their messages, in
      any order. */
  method CreateEach(workflow: EmailProcessingWorkflow, queue: string, batch: seq<Message>, faults: seq<Option<Fault>>)
    returns (calls: seq<Call>)
    requires |faults| == |batch|
    modifies workflow
    ensures Settles(calls, true, faults) && Extends(old(workflow.instances), workflow.instances, queue, batch)
    ensures workflow.instances.Keys == old(workflow.instances.Keys) + Left(queue, batch, faults, Upto(|batch|))
  {
    calls := [];
    NoCalls(true, faults);
    var errors: map<nat, Option<string>>, waiting: set<nat>, running := map[], {}, Upto(|batch|);
    ghost var done: set<nat> := {};
    NothingLeft(workflow.instances, queue, batch, faults);
    assert Midway(workflow.instances, workflow.instances, queue, batch, faults, errors, calls, done, waiting);
    assert Parts(done, running, |batch|);
    hide *;
    while running != {} || waiting != {}
      invariant Parts(done, running, |batch|)
      invariant Midway(old(workflow.instances), workflow.instances, queue, batch, faults, errors, calls, done, waiting)
      decreases running, waiting
    {
      if
      case running != {} =>
        var k :| k in running;
        PartsMove(done, running, |batch|, k);
        CreateStep(old(workflow.instances), workflow.instances, queue, batch, faults, errors, calls, done, waiting, k);
        var error := workflow.Create(queue, batch[k], faults[k]);
        errors, running, waiting, done := errors[k := error], running - {k}, waiting + {k}, done + {k};
      case waiting != {} =>
        var k :| k in waiting;
        SettleStep(old(workflow.instances), workflow.instances, queue, batch, faults, errors, calls, done, waiting, k);
        calls, waiting := calls + [Call(k, Reads(errors[k]))], waiting - {k};
    }
    PartsEnd(done, |batch|);
    AllSettled(old(workflow.instances), workflow.instances, queue, batch, faults, errors, calls);
  }

  lemma AllSettled(
    t: Instances, t': Instances, queue: string, batch: seq<Message>, faults: seq<Option<Fault>>,
    errors: map<nat, Option<string>>, calls: seq<Call>)
    requires Midway(t, t', queue, batch, faults, errors, calls, Upto(|batch|), {})
    ensures |faults| == |batch| && Settles(calls, true, faults)
    ensures Extends(t, t', queue, batch) && t'.Keys == t.Keys + Left(queue, batch, faults, Upto(|batch|))
  {
    CountCalls(calls);
  }

  lemma {:induction false} CountCalls(calls: seq<Call>)
    requires Distinct(calls)
    ensures |Indices(calls)| == |calls|
  {
    if calls == [] {
      assert Indices(calls) == {};
    } else {
      var init, last := calls[..|calls| - 1], calls[|calls| - 1];
      CountCalls(init);
      assert Indices(calls) == Indices(init) + {last.index};
      assert last.index !in Indices(init);
    }
  }

  lemma DoneMoves(done: set<nat>, waiting: set<nat>, k: nat)
    requires waiting <= done
    ensures k !in done ==> (done + {k}) - (waiting + {k}) == done - waiting
    ensures k in waiting ==> done - (waiting - {k}) == done - waiting + {k}
  {
  }

  lemma NothingLeft(t: Instances, queue: string, batch: seq<Message>, faults: seq<Option<Fault>>)
    requires |faults| == |batch|
    ensures Extends(t, t, queue, batch) && Left(queue, batch, faults, {}) == {}
  {
  }

  lemma ErrorReads(t: Instances, queue: string, m: Message, fault: Option<Fault>)
    ensures Reads(CreateError(t, queue, m, fault)) == VerdictOf(true, fault)
  {
    AlreadyExistsLooksDuplicate();
  }

  lemma CreateExtends(
    t: Instances, t': Instances, queue: string, batch: seq<Message>, faults: seq<Option<Fault>>, done: set<nat>, k: nat)
    requires |faults| == |batch| && (forall i :: i in done ==> i < |batch|) && k < |batch|
    requires Extends(t, t', queue, batch) && t'.Keys == t.Keys + Left(queue, batch, faults, done)
    ensures var t'' := AfterCreate(t', queue, batch[k], faults[k]);
            Extends(t, t'', queue, batch) && t''.Keys == t.Keys + Left(queue, batch, faults, done + {k})
  {
    LeftOneMore(queue, batch, faults, done, k);
  }

  /** Which messages are acknowledged with an instance, from the calls made. */
  lemma LossIff(calls: seq<Call>, queue: string, batch: seq<Message>, batchFails: bool, faults: seq<Option<Fault>>, ids: set<InstanceId>)
    requires |faults| == |batch| && Settles(calls, batchFails, faults)
    requires !batchFails ==> forall k :: 0 <= k < |batch| ==> IdOf(queue, batch[k]) in ids
    requires batchFails ==> Left(queue, batch, faults, Upto(|batch|)) <= ids
    ensures (forall i :: 0 <= i < |calls| && calls[i].verdict.Ack? ==> IdOf(queue, batch[calls[i].index]) in ids)
            <==> !batchFails || forall k :: 0 <= k < |batch| && TakenForDuplicate(faults[k]) ==> IdOf(queue, batch[k]) in ids
  {
    hide LooksDuplicate;
    forall k | 0 <= k < |batch| && batchFails && TakenForDuplicate(faults[k]) && IdOf(queue, batch[k]) !in ids
      ensures exists i :: 0 <= i < |calls| && calls[i].verdict.Ack? && IdOf(queue, batch[calls[i].index]) !in ids
    {
      assert k in Indices(calls);
    }
    forall i | 0 <= i < |calls| && batchFails && calls[i].verdict.Ack? && !TakenForDuplicate(faults[calls[i].index])
      ensures IdOf(queue, batch[calls[i].index]) in ids
    {
      assert IdOf(queue, batch[calls[i].index]) in Left(queue, batch, faults, Upto(|batch|));
    }
  }

  lemma ExtendsTwice(t: Instances, t': Instances, t'': Instances, queue: string, batch: seq<Message>)
    requires Extends(t, t', queue, batch) && Extends(t', t'', queue, batch)
    ensures Extends(t, t'', queue, batch)
  {
  }

  /** The ids after a call are the old ones, those the batch call got to, and, when it failed, those of the single
      creates that worked or took effect. */
  lemma IdsAfterIff(
    ids: set<InstanceId>, queue: string, batch: seq<Message>, completed: nat, batchFails: bool, faults: seq<Option<Fault>>)
    requires |faults| == |batch|
    ensures forall id :: id in IdsAfter(ids, queue, batch, completed, batchFails, faults) <==>
              id in ids
              || exists k :: 0 <= k < |batch| && id == InstanceId(queue, batch[k].id)
                             && (k < completed || !batchFails || faults[k].None? || faults[k].value.created)
  {
    var n := Reached(batch, completed, batchFails);
    var left := Left(queue, batch, faults, Upto(|batch|));
    forall id ensures id in IdsOf(queue, batch[..n]) <==> exists k :: 0 <= k < n && id == InstanceId(queue, batch[k].id) {
      IdIn(id, queue, batch, n);
    }
    forall id ensures id in left <==> exists k :: 0 <= k < |batch| && Leaves(faults[k]) && id == InstanceId(queue, batch[k].id) {
      if k :| 0 <= k < |batch| && Leaves(faults[k]) && id == InstanceId(queue, batch[k].id) { assert k in Upto(|batch|); }
    }
  }

  lemma IdIn(id: InstanceId, queue: string, batch: seq<Message>, n: nat)
    requires n <= |batch|
    ensures id in IdsOf(queue, batch[..n]) <==> exists k :: 0 <= k < n && id == InstanceId(queue, batch[k].id)
  {
    if k :| 0 <= k < n && id == InstanceId(queue, batch[k].id) { assert batch[..n][k] in batch[..n]; }
  }

  /** Settled means one call for each message, with the verdict its failure calls for. */
  lemma SettlesEach(calls: seq<Call>, batchFails: bool, faults: seq<Option<Fault>>)
    requires Settles(calls, batchFails, faults)
    ensures |calls| == |faults| && forall i :: 0 <= i < |calls| ==> calls[i].index < |faults|
    ensures forall i, j :: 0 <= i < j < |calls| ==> calls[i].index != calls[j].index
    ensures forall i :: 0 <= i < |calls| ==>
              (calls[i].verdict.Ack? <==>
                 !batchFails || faults[calls[i].index].None? || LooksDuplicate(faults[calls[i].index].value.text))
  {
    hide LooksDuplicate;
  }

  /** `onQueue`.  Whatever the order in which a fallback's creates take effect: every message is settled once,
      which ids exist is fixed, and so is every verdict; and no message is acknowledged without its instance if
      and only if every failure that reads like a duplicate was of an instance that is there in the end. */
  method OnQueue(
    workflow: EmailProcessingWorkflow, queue: string, batch: seq<Message>,
    completed: nat, batchFails: bool, faults: seq<Option<Fault>>)
    returns (calls: seq<Call>)
    requires |faults| == |batch|
    modifies workflow
    ensures Settles(calls, batchFails, faults) && Extends(old(workflow.instances), workflow.instances, queue, batch)
    ensures |calls| == |batch| && forall i :: 0 <= i < |calls| ==> calls[i].index < |batch|
    ensures forall i, j :: 0 <= i < j < |calls| ==> calls[i].index != calls[j].index
    ensures forall i :: 0 <= i < |calls| ==>
              (calls[i].verdict.Ack? <==>
                 !batchFails || faults[calls[i].index].None? || LooksDuplicate(faults[calls[i].index].value.text))
    ensures workflow.instances.Keys
            == IdsAfter(old(workflow.instances.Keys), queue, batch, completed, batchFails, faults)
    ensures forall id :: id in workflow.instances <==>
              id in old(workflow.instances)
              || exists k :: 0 <= k < |batch| && id == InstanceId(queue, batch[k].id)
                             && (k < completed || !batchFails || faults[k].None? || faults[k].value.created)
    ensures (forall i :: 0 <= i < |calls| && calls[i].verdict.Ack? ==>
               IdOf(queue, batch[calls[i].index]) in workflow.instances)
            <==> !batchFails || forall k :: 0 <= k < |batch| && TakenForDuplicate(faults[k]) ==>
                   IdOf(queue, batch[k])
                   in IdsAfter(old(workflow.instances.Keys), queue, batch, completed, batchFails, faults)
  {
    hide LooksDuplicate;
    hide Settles;
    hide Distinct;
    hide Indices;
    hide VerdictsOk;
    var ok := workflow.CreateBatch(queue, batch, completed, batchFails);
    if ok {
      calls := AcknowledgeAll(|batch|, faults);
    } else {
      ghost var between := workflow.instances;
      calls := CreateEach(workflow, queue, batch, faults);
      ExtendsTwice(old(workflow.instances), between, workflow.instances, queue, batch);
    }
    LossIff(calls, queue, batch, batchFails, faults, workflow.instances.Keys);
    IdsAfterIff(old(workflow.instances.Keys), queue, batch, completed, batchFails, faults);
    SettlesEach(calls, batchFails, faults);
  }

  // ---------- Deliveries, crashes and redeliveries ----------

  /** `ready` holds the messages whose handler has reached its acknowledgement; a crash empties it. */
  datatype State = State(instances: Instances, created: seq<InstanceId>, ready: set<Message>, acked: set<Message>)

  datatype Event =
    | BatchCreate(batch: seq<Message>, made: seq<Message>, ok: bool)
    | CreateOne(message: Message, fault: Option<Fault>)
    | Acknowledge(message: Message)
    | Crash

  const INITIAL := State(map[], [], {}, {})

  function Made(s: State, queue: string, m: Message): State {
    if IdOf(queue, m) in s.instances then s
    else s.(instances := Add(s.instances, queue, m), created := s.created + [IdOf(queue, m)])
  }

  function MakeAll(s: State, queue: string, batch: seq<Message>): State
    decreases |batch|
  {
    if batch == [] then s else MakeAll(Made(s, queue, batch[0]), queue, batch[1..])
  }

  function Step(s: State, queue: string, e: Event): State {
    match e
    case BatchCreate(batch, made, ok) =>
      if ok then var s' := MakeAll(s, queue, batch); s'.(ready := s'.ready + set m | m in batch)
      else if forall m :: m in made ==> m in batch then MakeAll(s, queue, made) else s
    case CreateOne(m, fault) =>
      var error := CreateError(s.instances, queue, m, fault);
      var s' := if fault.Some? && !fault.value.created then s else Made(s, queue, m);
      if error.None? || LooksDuplicate(error.value) then s'.(ready := s'.ready + {m}) else s'
    case Acknowledge(m) =>
      if m in s.ready then s.(ready := s.ready - {m}, acked := s.acked + {m}) else s
    case Crash => s.(ready := {})
  }

  function Exec(queue: string, events: seq<Event>): State {
    if events == [] then INITIAL else Step(Exec(queue, events[..|events| - 1]), queue, events[|events| - 1])
  }

  /** Instances are the ids ever created, each created once. */
  ghost predicate CreatedOnce(s: State) {
    && (forall i, j :: 0 <= i < j < |s.created| ==> s.created[i] != s.created[j])
    && (forall id :: id in s.created <==> id in s.instances)
  }

  /** Every message acknowledged or about to be has its instance. */
  ghost predicate Backed(s: State, queue: string) {
    forall m :: m in s.ready + s.acked ==> IdOf(queue, m) in s.instances
  }

  lemma {:induction false} MakeAllMakes(s: State, queue: string, batch: seq<Message>)
    requires CreatedOnce(s)
    ensures var s' := MakeAll(s, queue, batch);
            && CreatedOnce(s') && s'.ready == s.ready && s'.acked == s.acked
            && s.instances.Keys <= s'.instances.Keys
            && forall m :: m in batch ==> IdOf(queue, m) in s'.instances
    decreases |batch|
  {
    if batch != [] {
      MakeAllMakes(Made(s, queue, batch[0]), queue, batch[1..]);
      assert forall m :: m in batch ==> m == batch[0] || m in batch[1..];
    }
  }

  lemma StepKeepsCreated(s: State, queue: string, e: Event)
    requires CreatedOnce(s)
    ensures CreatedOnce(Step(s, queue, e))
  {
    if e.BatchCreate? {
      MakeAllMakes(s, queue, e.batch);
      MakeAllMakes(s, queue, e.made);
    }
  }

  /** Over any run of deliveries, partial failures, crashes and redeliveries, whatever the failures say, no
      message's instance is created twice. */
  lemma {:induction false} NoInstanceTwice(queue: string, events: seq<Event>)
    ensures CreatedOnce(Exec(queue, events))
  {
    if events != [] {
      NoInstanceTwice(queue, events[..|events| - 1]);
      StepKeepsCreated(Exec(queue, events[..|events| - 1]), queue, events[|events| - 1]);
    }
  }

  predicate HonestStep(s: State, queue: string, e: Event) {
    e.CreateOne? ==> Honest(s.instances, queue, e.message, e.fault)
  }

  /** No failure reads like a duplicate of an instance that is not there. */
  predicate HonestRun(queue: string, events: seq<Event>) {
    events == []
    || (HonestRun(queue, events[..|events| - 1])
        && HonestStep(Exec(queue, events[..|events| - 1]), queue, events[|events| - 1]))
  }

  /** One turn leaves a message about to be acknowledged without its instance if and only if it is a misleading
      failure. */
  lemma StepBackedIff(s: State, queue: string, e: Event)
    requires CreatedOnce(s) && Backed(s, queue)
    ensures Backed(Step(s, queue, e), queue) <==> HonestStep(s, queue, e)
  {
    match e {
      case BatchCreate(batch, made, _) =>
        MakeAllMakes(s, queue, batch);
        MakeAllMakes(s, queue, made);
      case CreateOne(m, fault) =>
        AlreadyExistsLooksDuplicate();
        if !HonestStep(s, queue, e) { assert m in Step(s, queue, e).ready; }
      case _ =>
    }
  }

  /** Wherever the run is cut and some message's handler acknowledges next, the acknowledged messages have their
      instances. */
  ghost predicate NoneLost(queue: string, events: seq<Event>) {
    forall k, m, m' :: 0 <= k <= |events| && m' in Exec(queue, events[..k] + [Acknowledge(m)]).acked ==>
      IdOf(queue, m') in Exec(queue, events[..k] + [Acknowledge(m)]).instances
  }

  ghost predicate AlwaysBacked(queue: string, events: seq<Event>) {
    forall k :: 0 <= k <= |events| ==> Backed(Exec(queue, events[..k]), queue)
  }

  lemma AckNext(queue: string, events: seq<Event>, m: Message)
    ensures Exec(queue, events + [Acknowledge(m)]) == Step(Exec(queue, events), queue, Acknowledge(m))
  {
    assert (events + [Acknowledge(m)])[..|events|] == events;
  }

  lemma NoneLostIsBacked(queue: string, events: seq<Event>)
    ensures NoneLost(queue, events) <==> AlwaysBacked(queue, events)
  {
    hide Exec;
    if NoneLost(queue, events) {
      forall k, m | 0 <= k <= |events| && m in Exec(queue, events[..k]).ready + Exec(queue, events[..k]).acked
        ensures IdOf(queue, m) in Exec(queue, events[..k]).instances
      {
        AckNext(queue, events[..k], m);
        assert m in Exec(queue, events[..k] + [Acknowledge(m)]).acked;
      }
    }
    if AlwaysBacked(queue, events) {
      forall k, m, m' | 0 <= k <= |events| && m' in Exec(queue, events[..k] + [Acknowledge(m)]).acked
        ensures IdOf(queue, m') in Exec(queue, events[..k] + [Acknowledge(m)]).instances
      {
        AckNext(queue, events[..k], m);
        assert Backed(Exec(queue, events[..k]), queue);
      }
    }
  }

  lemma AlwaysBackedSnoc(queue: string, events: seq<Event>)
    requires events != []
    ensures AlwaysBacked(queue, events)
            <==> AlwaysBacked(queue, events[..|events| - 1]) && Backed(Exec(queue, events), queue)
  {
    hide Exec;
    hide Backed;
    var init := events[..|events| - 1];
    if AlwaysBacked(queue, events) {
      assert events[..|events|] == events;
      forall k | 0 <= k <= |init| ensures Backed(Exec(queue, init[..k]), queue) {
        assert init[..k] == events[..k];
      }
    }
    if AlwaysBacked(queue, init) && Backed(Exec(queue, events), queue) {
      forall k | 0 <= k <= |events| ensures Backed(Exec(queue, events[..k]), queue) {
        assert events[..k] == if k < |events| then init[..k] else events;
      }
    }
  }

  lemma {:induction false} AlwaysBackedIff(queue: string, events: seq<Event>)
    ensures AlwaysBacked(queue, events) <==> HonestRun(queue, events)
    ensures HonestRun(queue, events) ==> Backed(Exec(queue, events), queue)
  {
    hide Step;
    hide HonestStep;
    if events == [] {
      assert forall k :: 0 <= k <= 0 ==> events[..k] == [];
      assert Exec(queue, []) == INITIAL;
    } else {
      var init, last := events[..|events| - 1], events[|events| - 1];
      AlwaysBackedIff(queue, init);
      NoInstanceTwice(queue, init);
      AlwaysBackedSnoc(queue, events);
      if HonestRun(queue, init) { StepBackedIff(Exec(queue, init), queue, last); }
    }
  }

  /** Over any run of deliveries, partial failures, crashes and redeliveries: no message is ever acknowledged
      without its instance, now or by the next acknowledgement, if and only if no failure misleads. */
  lemma NoMessageLostIff(queue: string, events: seq<Event>)
    ensures NoneLost(queue, events) <==> HonestRun(queue, events)
  {
    NoneLostIsBacked(queue, events);
    AlwaysBackedIff(queue, events);
  }

  /** Honesty is needed: an unrelated failure that mentions `exists` is taken for a duplicate, and the
      message is acknowledged with no instance. */
  lemma MisleadingFaultLosesMessage(queue: string, m: Message)
    ensures exists events :: m in Exec(queue, events).acked && IdOf(queue, m) !in Exec(queue, events).instances
  {
    var fault := Fault("namespace no longer exists", false);
    assert WordAt(fault.text, "exists", 20);
    var e1, e2 := CreateOne(m, Some(fault)), Acknowledge(m);
    assert Exec(queue, []) == INITIAL;
    assert [e1][..0] == [] && [e1, e2][..1] == [e1];
    assert Exec(queue, [e1]) == Step(INITIAL, queue, e1);
    assert m in Exec(queue, [e1, e2]).acked;
  }
}
