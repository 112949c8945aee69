/** `runExclusive`: token operations chained on one mutable tail promise.

    The event loop is modelled one turn at a time.  A turn is an arrival (the synchronous body of
    `runExclusive`), the start of a chained operation once its predecessor has settled, a settlement
    with success or failure, or one `finally` callback.  Turns whose guard is false change nothing, so
    every list of events is a run and a theorem about all lists is a theorem about all interleavings. */
module ExclusiveChain {
  import opened Wrappers

  datatype Phase = Waiting | Running | Settled(ok: bool)

  /** One promise made by `runExclusive`; `previous` is the tail it was chained onto, if any. */
  datatype Operation = Operation(previous: Option<nat>, phase: Phase, finalized: bool)

  /** `tail` is the field `currentOperation`; `starts` records the order in which operations began. */
  datatype State = State(tail: Option<nat>, ops: seq<Operation>, starts: seq<nat>)

  datatype Event = Arrive | Start(op: nat) | Settle(op: nat, ok: bool) | Finally(op: nat)

  const INITIAL := State(None, [], [])

  predicate Enabled(s: State, e: Event) {
    match e
    case Arrive => true
    case Start(i) =>
      i < |s.ops| && s.ops[i].phase.Waiting? && s.ops[i].previous.Some?
      && s.ops[i].previous.value < |s.ops| && s.ops[s.ops[i].previous.value].phase.Settled?
    case Settle(i, _) => i < |s.ops| && s.ops[i].phase.Running?
    case Finally(i) => i < |s.ops| && s.ops[i].phase.Settled? && !s.ops[i].finalized
  }

  function Step(s: State, e: Event): State {
    if !Enabled(s, e) then s else
    match e
    case Arrive =>
      var id := |s.ops|;
      if s.tail.Some? then State(Some(id), s.ops + [Operation(s.tail, Waiting, false)], s.starts)
      else State(Some(id), s.ops + [Operation(None, Running, false)], s.starts + [id])
    case Start(i) => s.(ops := s.ops[i := s.ops[i].(phase := Running)], starts := s.starts + [i])
    case Settle(i, ok) => s.(ops := s.ops[i := s.ops[i].(phase := Settled(ok))])
    case Finally(i) =>
      State(if s.tail == Some(i) then None else s.tail, s.ops[i := s.ops[i].(finalized := true)], s.starts)
  }

  function Exec(s: State, events: seq<Event>): State {
    if events == [] then s else Step(Exec(s, events[..|events| - 1]), events[|events| - 1])
  }

  /** The worker object.  Its fields are the tail and the promises the event loop still knows about. */
  class OAuth2TokenRefreshWorker {
    var currentOperation: Option<nat>
    var promises: seq<Operation>
    var started: seq<nat>

    function Model(): State
      reads this
    {
      State(currentOperation, promises, started)
    }

    constructor ()
      ensures Model() == INITIAL
    {
      currentOperation, promises, started := None, [], [];
    }

    method RunExclusive() returns (promise: nat)
      modifies this
      ensures Model() == Step(old(Model()), Arrive)
      ensures promise == |old(promises)| && currentOperation == Some(promise)
      ensures promises == old(promises) + [Operation(old(currentOperation),
                                                     if old(currentOperation).None? then Running else Waiting, false)]
      ensures started == old(started) + if old(currentOperation).None? then [promise] else []
    {
      var previousOperation := currentOperation;
      promise := |promises|;
      if previousOperation.Some? {
        promises := promises + [Operation(previousOperation, Waiting, false)];
      } else {
        promises := promises + [Operation(None, Running, false)];
        started := started + [promise];
      }
      currentOperation := Some(promise);
    }

    method OnFinally(promise: nat)
      requires Enabled(Model(), Finally(promise))
      modifies this
      ensures Model() == Step(old(Model()), Finally(promise))
      ensures currentOperation == if old(currentOperation) == Some(promise) then None else old(currentOperation)
      ensures promise < |old(promises)| && promises == old(promises)[promise := old(promises)[promise].(finalized := true)]
    {
      promises := promises[promise := promises[promise].(finalized := true)];
      if currentOperation == Some(promise) {
        currentOperation := None;
      }
    }
  }

  predicate AtMostOneRunning(s: State) {
    forall i, j :: 0 <= i < |s.ops| && 0 <= j < |s.ops| && s.ops[i].phase.Running? && s.ops[j].phase.Running? ==> i == j
  }

  predicate AllSettled(s: State) {
    forall i :: 0 <= i < |s.ops| ==> s.ops[i].phase.Settled?
  }

  /** What every turn keeps: the started operations are a prefix of the arrivals, only the last of
      them can be unsettled, and every waiting operation is chained onto its immediate predecessor. */
  predicate Inv(s: State) {
    && |s.starts| <= |s.ops|
    && (forall k :: 0 <= k < |s.starts| ==> s.starts[k] == k)
    && (forall i :: 0 <= i < |s.ops| ==> (s.ops[i].phase.Waiting? <==> |s.starts| <= i))
    && (forall i :: 0 <= i < |s.starts| - 1 ==> s.ops[i].phase.Settled?)
    && (forall i :: |s.starts| <= i < |s.ops| ==> i > 0 && s.ops[i].previous == Some(i - 1))
    && (forall i :: 0 <= i < |s.ops| && s.ops[i].finalized ==> s.ops[i].phase.Settled?)
    && (s.tail.Some? ==> s.tail.value == |s.ops| - 1 && !s.ops[s.tail.value].finalized)
    && (s.tail.None? ==> AllSettled(s) && (|s.ops| > 0 ==> s.ops[|s.ops| - 1].finalized))
  }

  lemma StepKeepsInv(s: State, e: Event)
    requires Inv(s)
    ensures Inv(Step(s, e))
  {
    if Enabled(s, e) {
      var s' := Step(s, e);
      match e
      case Arrive =>
        assert |s.starts| < |s.ops| ==> s.ops[|s.starts|].phase.Waiting?;
        assert s.tail.Some? ==> s'.ops[|s.ops|].previous == Some(|s.ops| - 1);
      case Start(i) =>
        assert i == |s.starts|;
      case Settle(i, _) =>
        assert i == |s.starts| - 1;
      case Finally(i) =>
    }
  }

  lemma {:induction false} ExecKeepsInv(s: State, events: seq<Event>)
    requires Inv(s)
    ensures Inv(Exec(s, events))
  {
    if events != [] {
      ExecKeepsInv(s, events[..|events| - 1]);
      StepKeepsInv(Exec(s, events[..|events| - 1]), events[|events| - 1]);
    }
  }

  /** Safety over every interleaving: operations never overlap, they begin in arrival order, and the
      tail is cleared exactly when the newest operation has settled and run its callback, which is
      only once everything before it has settled too. */
  lemma MutualExclusion(events: seq<Event>)
    ensures var s := Exec(INITIAL, events);
            && AtMostOneRunning(s)
            && |s.starts| <= |s.ops| && (forall k :: 0 <= k < |s.starts| ==> s.starts[k] == k)
            && (forall i :: 0 <= i < |s.starts| - 1 ==> s.ops[i].phase.Settled?)
            && (s.tail.None? ==> AllSettled(s))
            && (s.tail.None? <==> |s.ops| == 0 || s.ops[|s.ops| - 1].finalized)
  {
    ExecKeepsInv(INITIAL, events);
  }

  /** Turns still owed to an operation: one to start it and one to settle it. */
  function Owed(ops: seq<Operation>): nat {
    if ops == [] then 0
    else Owed(ops[..|ops| - 1])
         + (match ops[|ops| - 1].phase case Waiting => 2 case Running => 1 case Settled(_) => 0)
  }

  lemma {:induction false} OwedUpdate(ops: seq<Operation>, i: nat, op: Operation)
    requires i < |ops|
    ensures Owed(ops[i := op]) == Owed(ops) - Owed([ops[i]]) + Owed([op])
    ensures Owed(ops) >= Owed([ops[i]])
  {
    var last := |ops| - 1;
    assert [ops[i]][..0] == [] && [op][..0] == [];
    if i == last {
      assert ops[i := op][..last] == ops[..last];
    } else {
      OwedUpdate(ops[..last], i, op);
      assert ops[i := op][..last] == ops[..last][i := op];
    }
  }

  lemma {:induction false} OwedZero(ops: seq<Operation>)
    ensures Owed(ops) == 0 <==> forall i :: 0 <= i < |ops| ==> ops[i].phase.Settled?
  {
    if ops != [] {
      OwedZero(ops[..|ops| - 1]);
      assert forall i :: 0 <= i < |ops| - 1 ==> ops[..|ops| - 1][i] == ops[i];
    }
  }

  /** No failure blocks a later caller.  In every reachable state each start or settlement strictly
      lowers the turns owed, and while anything is owed one of them is possible: either an operation
      is running, or the oldest waiting one may start whatever its predecessor's outcome was. */
  lemma NoFailureBlocks(events: seq<Event>, e: Event)
    requires e.Start? || e.Settle?
    ensures var s := Exec(INITIAL, events);
            && (Enabled(s, e) ==> Owed(Step(s, e).ops) == Owed(s.ops) - 1)
            && (Owed(s.ops) == 0 <==> AllSettled(s))
            && (!AllSettled(s) ==> SomeoneCanMove(s))
  {
    ExecKeepsInv(INITIAL, events);
    var s := Exec(INITIAL, events);
    OwedZero(s.ops);
    OwedOfStep(s, e);
    if !AllSettled(s) { UnsettledCanMove(s); }
  }

  /** The last started operation is running, or the next one in line is free to start. */
  predicate SomeoneCanMove(s: State) {
    || (|s.starts| > 0 && Enabled(s, Settle(|s.starts| - 1, true)) && Enabled(s, Settle(|s.starts| - 1, false)))
    || Enabled(s, Start(|s.starts|))
  }

  lemma UnsettledCanMove(s: State)
    requires Inv(s) && !AllSettled(s)
    ensures SomeoneCanMove(s)
  {
    if |s.starts| > 0 && s.ops[|s.starts| - 1].phase.Running? {
      assert Enabled(s, Settle(|s.starts| - 1, true));
    } else {
      assert |s.starts| < |s.ops|;
    }
  }

  lemma OwedOfStep(s: State, e: Event)
    requires e.Start? || e.Settle?
    ensures Enabled(s, e) ==> Owed(Step(s, e).ops) == Owed(s.ops) - 1
  {
    if Enabled(s, e) {
      var op := Step(s, e).ops[e.op];
      OwedUpdate(s.ops, e.op, op);
      assert [op][..0] == [] && [s.ops[e.op]][..0] == [];
    }
  }
}
