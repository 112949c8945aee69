/** Refreshing rotating refresh tokens (section 6 of RFC 6749) through the exclusive section.

    A refresh reads the credentials row, presents the stored token, and writes back the token the
    provider issued.  Every await is a separate event, so other refreshes can arrive, start, fail or
    finish in between; only `ExclusiveChain` keeps two of them from being in the middle together. */
module TokenRotation {
  import opened Wrappers
  import Chain = ExclusiveChain

  type Token = nat

  /** The columns of `connected_applications` that a refresh looks at. */
  datatype Row = Row(token: Token, oauth2: bool, connected: bool)

  /** Where a refresh stands between two awaits. */
  datatype Pc = Fresh | Calling(presented: Token) | Writing(issued: Token) | Storing | Over

  datatype Refresh = Refresh(app: string, force: bool, pc: Pc)

  /** One request at the provider: what was presented and what was valid at that moment. */
  datatype Call = Call(app: string, presented: Token, current: Token)

  /** The provider may keep the token, repeat it in its reply, or rotate to a new one. */
  datatype Reply = Keep | Echo | Rotate

  /** A write-back takes effect, fails without effect, or takes effect and throws. */
  datatype WriteEnd = Written | Failed | Unacknowledged

  /** `lost` collects the applications whose rotated token never reached the row. */
  datatype State = State(
    chain: Chain.State, jobs: seq<Refresh>, rows: map<string, Row>,
    provider: map<string, Token>, minted: nat, calls: seq<Call>, lost: set<string>)

  datatype Event =
    | Arrive(app: string, force: bool)
    | Start(op: nat)
    | Finally(op: nat)
    | CacheHit(op: nat)
    | Read(op: nat)
    | Present(op: nat, reply: Reply, delivered: bool)
    | Write(op: nat, end: WriteEnd)
    | Store(op: nat, succeeds: bool)
    | Fail(op: nat)
    | SetConnected(app: string, connected: bool)

  predicate Running(s: State, i: nat) {
    i < |s.jobs| && i < |s.chain.ops| && s.chain.ops[i].phase.Running?
  }

  function Goto(s: State, i: nat, pc: Pc): State
    requires i < |s.jobs|
  {
    s.(jobs := s.jobs[i := s.jobs[i].(pc := pc)])
  }

  function Settle(s: State, i: nat, ok: bool): State
    requires i < |s.jobs|
  {
    Goto(s, i, Over).(chain := Chain.Step(s.chain, Chain.Settle(i, ok)))
  }

  /** The token the row holds now is not the one the provider expects next. */
  function Losing(s: State, app: string, issued: Token): set<string> {
    if app in s.rows && s.rows[app].token == issued then s.lost else s.lost + {app}
  }

  function StepPresent(s: State, i: nat, reply: Reply, delivered: bool): State
    requires i < |s.jobs| && s.jobs[i].pc.Calling?
  {
    var app, presented := s.jobs[i].app, s.jobs[i].pc.presented;
    if app !in s.provider then Settle(s, i, false) else
    var s1 := s.(calls := s.calls + [Call(app, presented, s.provider[app])]);
    if presented != s.provider[app] then Settle(s1, i, false)
    else
      var current := if reply.Rotate? then s.minted else presented;
      var s2 := s1.(provider := s.provider[app := current], minted := if reply.Rotate? then s.minted + 1 else s.minted);
      if !delivered then Settle(s2.(lost := Losing(s, app, current)), i, false)
      else if reply.Keep? then Goto(s2, i, Storing)
      else Goto(s2, i, Writing(current))
  }

  /** `updateOAuth2RefreshToken`: a missing or non-OAuth2 row is silently left alone. */
  function StoreToken(rows: map<string, Row>, app: string, issued: Token): map<string, Row> {
    if app in rows && rows[app].oauth2 then rows[app := rows[app].(token := issued)] else rows
  }

  class ConnectedApplicationDAO {
    var rows: map<string, Row>

    method GetById(app: string) returns (row: Option<Row>)
      ensures row == if app in rows then Some(rows[app]) else None
    {
      if app in rows { return Some(rows[app]); }
      return None;
    }

    /** Read, change one field of the credentials, write the whole row back. */
    method UpdateOAuth2RefreshToken(app: string, issued: Token)
      modifies this
      ensures rows == StoreToken(old(rows), app, issued)
      ensures rows == if app in old(rows) && old(rows)[app].oauth2
                      then old(rows)[app := Row(issued, true, old(rows)[app].connected)] else old(rows)
      ensures rows.Keys == old(rows.Keys)
      ensures forall a :: a in rows ==> rows[a].(token := 0) == old(rows)[a].(token := 0)
    {
      var application := GetById(app);
      if application.None? || !application.value.oauth2 { return; }
      rows := rows[app := application.value.(token := issued)];
    }
  }

  function StepWrite(s: State, i: nat, end: WriteEnd): State
    requires i < |s.jobs| && s.jobs[i].pc.Writing?
  {
    var app, issued := s.jobs[i].app, s.jobs[i].pc.issued;
    if end.Failed? then Settle(s.(lost := Losing(s, app, issued)), i, false)
    else
      var rows := StoreToken(s.rows, app, issued);
      var s' := s.(rows := rows, lost := Losing(s.(rows := rows), app, issued));
      if end.Written? then Goto(s', i, Storing) else Settle(s', i, false)
  }

  function StepRead(s: State, i: nat): State
    requires i < |s.jobs|
  {
    var app := s.jobs[i].app;
    if app in s.rows && s.rows[app].oauth2 && s.rows[app].connected then Goto(s, i, Calling(s.rows[app].token))
    else Settle(s, i, false)
  }

  function Step(s: State, e: Event): State {
    match e
    case Arrive(app, force) =>
      s.(chain := Chain.Step(s.chain, Chain.Arrive), jobs := s.jobs + [Refresh(app, force, Fresh)])
    case Start(i) => s.(chain := Chain.Step(s.chain, Chain.Start(i)))
    case Finally(i) => s.(chain := Chain.Step(s.chain, Chain.Finally(i)))
    case CacheHit(i) => if Running(s, i) && s.jobs[i].pc.Fresh? && !s.jobs[i].force then Settle(s, i, true) else s
    case Read(i) => if Running(s, i) && s.jobs[i].pc.Fresh? then StepRead(s, i) else s
    case Present(i, reply, delivered) =>
      if Running(s, i) && s.jobs[i].pc.Calling? then StepPresent(s, i, reply, delivered) else s
    case Write(i, end) => if Running(s, i) && s.jobs[i].pc.Writing? then StepWrite(s, i, end) else s
    case Store(i, succeeds) => if Running(s, i) && s.jobs[i].pc.Storing? then Settle(s, i, succeeds) else s
    case Fail(i) => if Running(s, i) && (s.jobs[i].pc.Fresh? || s.jobs[i].pc.Calling?) then Settle(s, i, false) else s
    case SetConnected(app, connected) =>
      if app in s.rows then s.(rows := s.rows[app := s.rows[app].(connected := connected)]) else s
  }

  function Exec(s: State, events: seq<Event>): State {
    if events == [] then s else Step(Exec(s, events[..|events| - 1]), events[|events| - 1])
  }

  /** How the awaits of one refresh end: `secret` is the read in front of the cache, `ready` stands for the status
      write and the row read between the cache and the call. */
  datatype Script = Script(
    secret: bool, cached: bool, ready: bool, reply: Reply, delivered: bool, write: WriteEnd, stored: bool)

  /** The refresh gets as far as the row's credentials. */
  predicate Asks(force: bool, script: Script) {
    script.secret && (force || !script.cached) && script.ready
  }

  /** Refresh `i` alone: its awaits in the order in which `refreshAccessToken` makes them. */
  function Solo(s: State, i: nat, script: Script): State {
    var s0 := if script.secret then s else Step(s, Fail(i));
    var s1 := if script.cached then Step(s0, CacheHit(i)) else s0;
    var s2 := Step(if script.ready then s1 else Step(s1, Fail(i)), Read(i));
    var s3 := Step(s2, Present(i, script.reply, script.delivered));
    Step(Step(s3, Write(i, script.write)), Store(i, script.stored))
  }

  /** The authorization server: it accepts the current token of an application only. */
  class Provider {
    var current: map<string, Token>
    var minted: nat

    /** `None` is a rejection or a lost reply; otherwise the token in the reply, if it holds one. */
    method Refresh(app: string, presented: Token, reply: Reply, delivered: bool) returns (r: Option<Option<Token>>)
      modifies this
      ensures app !in old(current) || presented != old(current)[app] ==>
                r == None && current == old(current) && minted == old(minted)
      ensures app in old(current) && presented == old(current)[app] ==>
                var issued := if reply.Rotate? then old(minted) else presented;
                && current == old(current)[app := issued]
                && minted == (if reply.Rotate? then old(minted) + 1 else old(minted))
                && r == if !delivered then None else if reply.Keep? then Some(None) else Some(Some(issued))
    {
      if app !in current || presented != current[app] { return None; }
      var issued := presented;
      if reply.Rotate? {
        issued := minted;
        current, minted := current[app := issued], minted + 1;
      }
      if !delivered { return None; }
      return Some(if reply.Keep? then None else Some(issued));
    }
  }

  /** A state in which refresh `i` has just begun to run. */
  predicate Begun(s: State, i: nat, app: string, force: bool) {
    Running(s, i) && s.jobs[i] == Refresh(app, force, Fresh)
  }

  /** Refresh `i` is over, and these are the row table and the provider it leaves. */
  predicate Leaves(s: State, i: nat, ok: bool, rows: map<string, Row>, current: map<string, Token>, minted: nat) {
    && i < |s.chain.ops| && s.chain.ops[i].phase == Chain.Settled(ok)
    && s.rows == rows && s.provider == current && s.minted == minted
  }

  lemma SettleLeaves(s: State, i: nat, ok: bool)
    requires Running(s, i)
    ensures Leaves(Settle(s, i, ok), i, ok, s.rows, s.provider, s.minted)
  {
  }

  /** A refresh that is over does nothing more. */
  lemma OverStays(s: State, i: nat, script: Script)
    requires i < |s.chain.ops| && s.chain.ops[i].phase.Settled?
    ensures Step(s, CacheHit(i)) == s && Step(s, Fail(i)) == s
    ensures Step(s, Read(i)) == s && Step(s, Present(i, script.reply, script.delivered)) == s
    ensures Step(s, Write(i, script.write)) == s && Step(s, Store(i, script.stored)) == s
  {
  }

  lemma SoloCached(s: State, i: nat, app: string, script: Script)
    requires Begun(s, i, app, false) && script.secret && script.cached
    ensures Leaves(Solo(s, i, script), i, true, s.rows, s.provider, s.minted)
  {
    hide Chain.Step;
    SettleLeaves(s, i, true);
    OverStays(Settle(s, i, true), i, script);
  }

  lemma SoloFailsEarly(s: State, i: nat, app: string, force: bool, script: Script)
    requires Begun(s, i, app, force) && (!script.secret || ((force || !script.cached) && !script.ready))
    ensures Leaves(Solo(s, i, script), i, false, s.rows, s.provider, s.minted)
  {
    hide Chain.Step;
    hide StepRead;
    hide StepPresent;
    hide StepWrite;
    hide Leaves;
    SettleLeaves(s, i, false);
    OverStays(Settle(s, i, false), i, script);
  }

  predicate Readable(rows: map<string, Row>, app: string) {
    app in rows && rows[app].oauth2 && rows[app].connected
  }

  lemma SoloUnreadable(s: State, i: nat, app: string, force: bool, script: Script)
    requires Begun(s, i, app, force) && Asks(force, script) && !Readable(s.rows, app)
    ensures Leaves(Solo(s, i, script), i, false, s.rows, s.provider, s.minted)
  {
    hide Chain.Step;
    SettleLeaves(s, i, false);
    OverStays(Settle(s, i, false), i, script);
  }

  /** The state behind the read and the call. */
  lemma SoloCalls(s: State, i: nat, app: string, force: bool, script: Script) returns (s3: State)
    requires Begun(s, i, app, force) && Asks(force, script) && Readable(s.rows, app)
    ensures s3 == StepPresent(Goto(s, i, Calling(s.rows[app].token)), i, script.reply, script.delivered)
    ensures Solo(s, i, script) == Step(Step(s3, Write(i, script.write)), Store(i, script.stored))
  {
    hide Chain.Step;
    s3 := StepPresent(Goto(s, i, Calling(s.rows[app].token)), i, script.reply, script.delivered);
  }

  lemma SoloRefused(s: State, i: nat, app: string, force: bool, script: Script)
    requires Begun(s, i, app, force) && Asks(force, script) && Readable(s.rows, app)
    requires app !in s.provider || s.rows[app].token != s.provider[app]
    ensures Leaves(Solo(s, i, script), i, false, s.rows, s.provider, s.minted)
  {
    hide Chain.Step;
    var s3 := SoloCalls(s, i, app, force, script);
    var s2 := Goto(s, i, Calling(s.rows[app].token));
    var s1 := if app in s.provider then s2.(calls := s2.calls + [Call(app, s.rows[app].token, s.provider[app])]) else s2;
    SettleLeaves(s1, i, false);
    OverStays(Settle(s1, i, false), i, script);
  }

  function Issued(s: State, app: string, script: Script): Token
    requires app in s.rows
  {
    if script.reply.Rotate? then s.minted else s.rows[app].token
  }

  function MintedAfter(s: State, script: Script): nat {
    if script.reply.Rotate? then s.minted + 1 else s.minted
  }

  predicate Accepted(s: State, app: string) {
    Readable(s.rows, app) && app in s.provider && s.rows[app].token == s.provider[app]
  }

  lemma SoloUndelivered(s: State, i: nat, app: string, force: bool, script: Script)
    requires Begun(s, i, app, force) && Asks(force, script) && Accepted(s, app) && !script.delivered
    ensures Leaves(Solo(s, i, script), i, false, s.rows, s.provider[app := Issued(s, app, script)], MintedAfter(s, script))
  {
    hide Chain.Step;
    hide Losing;
    var s3 := SoloCalls(s, i, app, force, script);
    var s2 := Goto(s, i, Calling(s.rows[app].token));
    var issued := Issued(s, app, script);
    var s1 := s2.(calls := s2.calls + [Call(app, s.rows[app].token, s.provider[app])]);
    var s0 := s1.(provider := s2.provider[app := issued], minted := MintedAfter(s, script), lost := Losing(s2, app, issued));
    assert s3 == Settle(s0, i, false);
    SettleLeaves(s0, i, false);
    OverStays(s3, i, script);
  }

  lemma SoloStores(s: State, i: nat, stored: bool)
    requires Running(s, i) && s.jobs[i].pc.Storing?
    ensures Step(s, Store(i, stored)) == Settle(s, i, stored)
    ensures Leaves(Step(s, Store(i, stored)), i, stored, s.rows, s.provider, s.minted)
  {
    hide Chain.Step;
    SettleLeaves(s, i, stored);
  }

  lemma SoloDelivered(s: State, i: nat, app: string, force: bool, script: Script)
    requires Begun(s, i, app, force) && Asks(force, script) && Accepted(s, app) && script.delivered
    ensures var issued := Issued(s, app, script);
            var rows := if script.reply.Keep? || script.write.Failed? then s.rows else StoreToken(s.rows, app, issued);
            Leaves(Solo(s, i, script), i, (script.reply.Keep? || script.write.Written?) && script.stored, rows,
                   s.provider[app := issued], MintedAfter(s, script))
  {
    hide Chain.Step;
    hide Losing;
    hide StoreToken;
    var s3 := SoloCalls(s, i, app, force, script);
    var s4 := Step(s3, Write(i, script.write));
    if script.reply.Keep? {
      assert s4 == s3;
      SoloStores(s4, i, script.stored);
    } else if script.write.Written? {
      assert Running(s4, i) && s4.jobs[i].pc.Storing?;
      SoloStores(s4, i, script.stored);
    } else {
      var issued := s3.jobs[i].pc.issued;
      var s2 := if script.write.Failed? then s3 else s3.(rows := StoreToken(s3.rows, app, issued));
      var s5 := s2.(lost := Losing(s2, app, issued));
      SettleLeaves(s5, i, false);
      OverStays(s4, i, script);
    }
  }

  /** `refreshAccessToken`: cache, row, provider, write-back, token store, in this order.  Run alone it does
      exactly what its events do. */
  method RefreshAccessToken(
    dao: ConnectedApplicationDAO, provider: Provider, app: string, force: bool, script: Script, ghost s: State, ghost i: nat)
    returns (ok: bool)
    requires Begun(s, i, app, force)
    requires s.rows == dao.rows && s.provider == provider.current && s.minted == provider.minted
    modifies dao, provider
    ensures Leaves(Solo(s, i, script), i, ok, dao.rows, provider.current, provider.minted)
    ensures var asks := script.secret && (force || !script.cached) && script.ready
                        && app in old(dao.rows) && old(dao.rows)[app].oauth2 && old(dao.rows)[app].connected;
            var accepted := asks && app in old(provider.current) && old(provider.current)[app] == old(dao.rows)[app].token;
            var rotates := accepted && script.reply.Rotate?;
            var issued := if rotates || !accepted then old(provider.minted) else old(dao.rows)[app].token;
            && (ok <==>
                  || (script.secret && !force && script.cached)
                  || (accepted && script.delivered && script.stored && (script.reply.Keep? || script.write.Written?)))
            && provider.current == (if accepted then old(provider.current)[app := issued] else old(provider.current))
            && provider.minted == old(provider.minted) + (if rotates then 1 else 0)
            && dao.rows == if accepted && script.delivered && !script.reply.Keep? && !script.write.Failed?
                           then old(dao.rows)[app := old(dao.rows)[app].(token := issued)] else old(dao.rows)
  {
    hide Solo;
    hide Leaves;
    hide Begun;
    if !script.secret {
      SoloFailsEarly(s, i, app, force, script);
      return false;
    }
    if !force && script.cached {
      SoloCached(s, i, app, script);
      return true;
    }
    if !script.ready {
      SoloFailsEarly(s, i, app, force, script);
      return false;
    }
    var row := dao.GetById(app);
    if row.None? || !row.value.oauth2 || !row.value.connected {
      SoloUnreadable(s, i, app, force, script);
      return false;
    }
    var reply := provider.Refresh(app, row.value.token, script.reply, script.delivered);
    if reply.None? {
      if Accepted(s, app) {
        SoloUndelivered(s, i, app, force, script);
      } else {
        SoloRefused(s, i, app, force, script);
      }
      return false;
    }
    SoloDelivered(s, i, app, force, script);
    if reply.value.Some? {
      if script.write == Failed { return false; }
      dao.UpdateOAuth2RefreshToken(app, reply.value.value);
      if script.write == Unacknowledged { return false; }
    }
    return script.stored;
  }

  /** A freshly started worker over rows whose tokens the provider currently accepts. */
  predicate Initial(s: State) {
    && s.chain == Chain.INITIAL && s.jobs == [] && s.calls == [] && s.lost == {}
    && s.rows.Keys == s.provider.Keys
    && forall app :: app in s.rows ==> s.rows[app].token == s.provider[app] < s.minted
  }

  /** Some refresh of `app` holds an issued token it has not written yet. */
  predicate WriteInFlight(s: State, app: string) {
    exists i :: 0 <= i < |s.jobs| && s.jobs[i].pc.Writing? && s.jobs[i].app == app
  }

  ghost predicate Inv(s: State) {
    && Chain.Inv(s.chain) && |s.jobs| == |s.chain.ops|
    && (forall i :: 0 <= i < |s.jobs| && !s.jobs[i].pc.Fresh? && !s.jobs[i].pc.Over? ==> s.chain.ops[i].phase.Running?)
    && s.rows.Keys == s.provider.Keys
    && (forall app :: app in s.rows ==> s.rows[app].token < s.minted && s.provider[app] < s.minted)
    && (forall i :: 0 <= i < |s.jobs| && s.jobs[i].pc.Calling? ==>
          s.jobs[i].app in s.rows && s.jobs[i].pc.presented == s.rows[s.jobs[i].app].token && s.rows[s.jobs[i].app].oauth2)
    && (forall i :: 0 <= i < |s.jobs| && s.jobs[i].pc.Writing? ==>
          s.jobs[i].app in s.rows && s.jobs[i].pc.issued == s.provider[s.jobs[i].app]
          && s.jobs[i].app !in s.lost && s.rows[s.jobs[i].app].oauth2)
    && (forall app :: app in s.rows && app !in s.lost && !WriteInFlight(s, app) ==> s.rows[app].token == s.provider[app])
    && (forall app :: app in s.rows && app in s.lost ==> s.rows[app].token != s.provider[app])
    && (forall c :: c in s.calls && c.app !in s.lost ==> c.presented == c.current)
  }

  /** At most one refresh is past `Fresh`, so nobody else's token can go stale under it. */
  lemma OnlyOneActive(s: State, i: nat, j: nat)
    requires Inv(s) && Running(s, i) && j < |s.jobs| && j != i
    ensures s.jobs[j].pc.Fresh? || s.jobs[j].pc.Over?
  {
    assert s.chain.ops[j].phase.Running? ==> i < |s.chain.starts| && j < |s.chain.starts|;
  }

  lemma OthersIdle(s: State, i: nat)
    requires Inv(s) && Running(s, i)
    ensures forall j :: 0 <= j < |s.jobs| && j != i ==> s.jobs[j].pc.Fresh? || s.jobs[j].pc.Over?
  {
    forall j | 0 <= j < |s.jobs| && j != i ensures s.jobs[j].pc.Fresh? || s.jobs[j].pc.Over? {
      OnlyOneActive(s, i, j);
    }
  }

  lemma ChainSettles(c: Chain.State, i: nat, ok: bool)
    requires Chain.Inv(c) && i < |c.ops| && c.ops[i].phase.Running?
    ensures var c' := Chain.Step(c, Chain.Settle(i, ok));
            && Chain.Inv(c') && |c'.ops| == |c.ops|
            && forall j :: 0 <= j < |c.ops| && j != i ==> c'.ops[j] == c.ops[j]
  {
    Chain.StepKeepsInv(c, Chain.Settle(i, ok));
  }

  lemma SettleKeepsInv(s: State, i: nat, ok: bool)
    requires Inv(s) && Running(s, i) && !s.jobs[i].pc.Writing?
    ensures Inv(Settle(s, i, ok))
  {
    hide Chain.Step;
    hide Chain.Inv;
    ChainSettles(s.chain, i, ok);
    OthersIdle(s, i);
    var s' := Settle(s, i, ok);
    forall app | app in s'.rows && app !in s'.lost ensures s'.rows[app].token == s'.provider[app] {
      assert !WriteInFlight(s, app);
    }
  }

  lemma DeliveredKeepsInv(s: State, i: nat, reply: Reply)
    requires Inv(s) && Running(s, i) && s.jobs[i].pc.Calling?
    requires s.jobs[i].app in s.provider && s.jobs[i].pc.presented == s.provider[s.jobs[i].app]
    ensures Inv(StepPresent(s, i, reply, true))
  {
    hide Chain.Step;
    hide Chain.Inv;
    hide Settle;
    OthersIdle(s, i);
    var s' := StepPresent(s, i, reply, true);
    var app := s.jobs[i].app;
    assert forall a :: !WriteInFlight(s, a);
    assert app !in s.lost;
    if s'.jobs[i].pc.Writing? {
      assert WriteInFlight(s', app);
    }
  }

  lemma UndeliveredKeepsInv(s: State, i: nat, reply: Reply)
    requires Inv(s) && Running(s, i) && s.jobs[i].pc.Calling?
    requires s.jobs[i].app in s.provider && s.jobs[i].pc.presented == s.provider[s.jobs[i].app]
    ensures Inv(StepPresent(s, i, reply, false))
  {
    hide Chain.Step;
    hide Chain.Inv;
    ChainSettles(s.chain, i, false);
    OthersIdle(s, i);
    var s' := StepPresent(s, i, reply, false);
    assert forall a :: !WriteInFlight(s, a);
    assert s.jobs[i].app !in s.lost;
  }

  lemma LoggedKeepsInv(s: State, c: Call)
    requires Inv(s) && (c.app !in s.lost ==> c.presented == c.current)
    ensures Inv(s.(calls := s.calls + [c]))
  {
    hide Chain.Inv;
    var s' := s.(calls := s.calls + [c]);
    assert forall app :: WriteInFlight(s, app) <==> WriteInFlight(s', app);
  }

  lemma PresentKeepsInv(s: State, i: nat, reply: Reply, delivered: bool)
    requires Inv(s) && Running(s, i) && s.jobs[i].pc.Calling?
    ensures Inv(StepPresent(s, i, reply, delivered))
  {
    var app, presented := s.jobs[i].app, s.jobs[i].pc.presented;
    InvGives(s, i);
    hide Inv;
    hide Settle;
    if presented == s.provider[app] {
      if delivered { DeliveredKeepsInv(s, i, reply); } else { UndeliveredKeepsInv(s, i, reply); }
    } else {
      var c := Call(app, presented, s.provider[app]);
      LoggedKeepsInv(s, c);
      SettleKeepsInv(s.(calls := s.calls + [c]), i, false);
    }
  }

  lemma InvGives(s: State, i: nat)
    requires Inv(s) && Running(s, i) && s.jobs[i].pc.Calling?
    ensures s.jobs[i].app in s.provider && (s.jobs[i].pc.presented == s.provider[s.jobs[i].app] <==> s.jobs[i].app !in s.lost)
  {
    hide Chain.Inv;
    OthersIdle(s, i);
    assert !WriteInFlight(s, s.jobs[i].app);
  }

  lemma WriteKeepsInv(s: State, i: nat, end: WriteEnd)
    requires Inv(s) && Running(s, i) && s.jobs[i].pc.Writing?
    ensures Inv(StepWrite(s, i, end))
  {
    hide Chain.Step;
    hide Chain.Inv;
    ChainSettles(s.chain, i, false);
    OthersIdle(s, i);
    var s' := StepWrite(s, i, end);
    var app := s.jobs[i].app;
    forall a | a in s'.rows && a !in s'.lost ensures s'.rows[a].token == s'.provider[a] {
      assert a != app ==> !WriteInFlight(s, a);
    }
  }

  lemma SameJobsInFlight(s: State, s': State)
    requires |s.jobs| <= |s'.jobs|
    requires forall i :: 0 <= i < |s.jobs| && s.jobs[i].pc.Writing? ==> s'.jobs[i] == s.jobs[i]
    ensures forall app :: WriteInFlight(s, app) ==> WriteInFlight(s', app)
  {
    forall app | WriteInFlight(s, app) ensures WriteInFlight(s', app) {
      var i :| 0 <= i < |s.jobs| && s.jobs[i].pc.Writing? && s.jobs[i].app == app;
      assert s'.jobs[i].app == app;
    }
  }

  /** Arrivals, starts, `finally` callbacks and status changes touch no credential. */
  lemma BystanderKeepsInv(s: State, s': State)
    requires Inv(s) && Chain.Inv(s'.chain) && |s'.jobs| == |s'.chain.ops| && |s.jobs| <= |s'.jobs|
    requires forall i :: 0 <= i < |s.jobs| ==> s'.jobs[i] == s.jobs[i]
    requires forall i :: |s.jobs| <= i < |s'.jobs| ==> s'.jobs[i].pc.Fresh?
    requires forall i :: 0 <= i < |s.jobs| && s.chain.ops[i].phase.Running? ==> s'.chain.ops[i].phase.Running?
    requires s'.rows.Keys == s.rows.Keys
    requires forall app :: app in s.rows ==>
               s'.rows[app].token == s.rows[app].token && s'.rows[app].oauth2 == s.rows[app].oauth2
    requires s'.provider == s.provider && s'.minted == s.minted && s'.calls == s.calls && s'.lost == s.lost
    ensures Inv(s')
  {
    SameJobsInFlight(s, s');
  }

  lemma ReadKeepsInv(s: State, i: nat)
    requires Inv(s) && Running(s, i) && s.jobs[i].pc.Fresh?
    ensures Inv(StepRead(s, i))
  {
    var s' := StepRead(s, i);
    if s'.jobs[i].pc.Over? {
      SettleKeepsInv(s, i, false);
    } else {
      OthersIdle(s, i);
      SameJobsInFlight(s, s');
    }
  }

  lemma ChainTurnKeepsRunning(c: Chain.State, e: Chain.Event)
    requires Chain.Inv(c) && !e.Settle?
    ensures var c' := Chain.Step(c, e);
            && Chain.Inv(c') && |c'.ops| == |c.ops| + (if e.Arrive? then 1 else 0)
            && forall i :: 0 <= i < |c.ops| && c.ops[i].phase.Running? ==> c'.ops[i].phase.Running?
  {
    Chain.StepKeepsInv(c, e);
  }

  lemma ChainTurnKeepsInv(s: State, e: Event, turn: Chain.Event)
    requires Inv(s) && !turn.Settle?
    requires match e case Arrive(_, _) => turn.Arrive? case Start(i) => turn == Chain.Start(i)
               case Finally(i) => turn == Chain.Finally(i) case _ => false
    ensures Inv(Step(s, e))
  {
    ChainTurnKeepsRunning(s.chain, turn);
    BystanderKeepsInv(s, Step(s, e));
  }

  lemma StatusKeepsInv(s: State, app: string, connected: bool)
    requires Inv(s)
    ensures Inv(Step(s, SetConnected(app, connected)))
  {
    BystanderKeepsInv(s, Step(s, SetConnected(app, connected)));
  }

  lemma StepKeepsInv(s: State, e: Event)
    requires Inv(s)
    ensures Inv(Step(s, e))
  {
    hide Inv;
    hide StepRead;
    hide StepPresent;
    hide StepWrite;
    hide Settle;
    match e {
      case Arrive(_, _) => ChainTurnKeepsInv(s, e, Chain.Arrive);
      case Start(i) => ChainTurnKeepsInv(s, e, Chain.Start(i));
      case Finally(i) => ChainTurnKeepsInv(s, e, Chain.Finally(i));
      case SetConnected(app, connected) => StatusKeepsInv(s, app, connected);
      case CacheHit(i) => if Running(s, i) && s.jobs[i].pc.Fresh? { SettleKeepsInv(s, i, true); }
      case Read(i) => if Running(s, i) && s.jobs[i].pc.Fresh? { ReadKeepsInv(s, i); }
      case Present(i, reply, delivered) =>
        if Running(s, i) && s.jobs[i].pc.Calling? { PresentKeepsInv(s, i, reply, delivered); }
      case Write(i, end) => if Running(s, i) && s.jobs[i].pc.Writing? { WriteKeepsInv(s, i, end); }
      case Store(i, succeeds) => if Running(s, i) && s.jobs[i].pc.Storing? { SettleKeepsInv(s, i, succeeds); }
      case Fail(i) => if Running(s, i) && !s.jobs[i].pc.Writing? { SettleKeepsInv(s, i, false); }
    }
  }

  lemma {:induction false} ExecKeepsInv(s: State, events: seq<Event>)
    requires Inv(s)
    ensures Inv(Exec(s, events))
  {
    if events != [] {
      ExecKeepsInv(s, events[..|events| - 1]);
      StepKeepsInv(Exec(s, events[..|events| - 1]), events[|events| - 1]);
    }
  }

  /** The event loses a rotation of `app`: the provider issued a new token, and its reply never arrives, or its
      write fails. */
  predicate Loses(s: State, e: Event, app: string) {
    match e
    case Present(i, reply, delivered) =>
      Running(s, i) && s.jobs[i].pc.Calling? && s.jobs[i].app == app && reply.Rotate? && !delivered
    case Write(i, end) =>
      && Running(s, i) && s.jobs[i].pc.Writing? && s.jobs[i].app == app && end.Failed?
      && app in s.rows && s.rows[app].token != s.jobs[i].pc.issued
    case _ => false
  }

  predicate NeverLoses(s: State, events: seq<Event>, app: string) {
    events == []
    || (NeverLoses(s, events[..|events| - 1], app)
        && !Loses(Exec(s, events[..|events| - 1]), events[|events| - 1], app))
  }

  lemma StepKeepsLost(s: State, e: Event)
    ensures s.lost <= Step(s, e).lost && Step(s, e).rows.Keys == s.rows.Keys
  {
    hide Chain.Step;
  }

  lemma PresentLosesIff(s: State, i: nat, reply: Reply, delivered: bool, app: string)
    requires Inv(s) && app in s.rows && app !in s.lost && Running(s, i) && s.jobs[i].pc.Calling?
    ensures app in StepPresent(s, i, reply, delivered).lost <==> s.jobs[i].app == app && reply.Rotate? && !delivered
  {
    hide Chain.Step;
    hide Chain.Inv;
    InvGives(s, i);
    CallingToken(s, i);
  }

  lemma CallingToken(s: State, i: nat)
    requires Inv(s) && Running(s, i) && s.jobs[i].pc.Calling?
    ensures var app := s.jobs[i].app;
            app in s.rows && s.rows[app].token == s.jobs[i].pc.presented && s.rows[app].token < s.minted
  {
    hide Chain.Inv;
  }

  lemma WriteLosesIff(s: State, i: nat, end: WriteEnd, app: string)
    requires Inv(s) && app in s.rows && app !in s.lost && Running(s, i) && s.jobs[i].pc.Writing?
    ensures app in StepWrite(s, i, end).lost
            <==> s.jobs[i].app == app && end.Failed? && s.rows[app].token != s.jobs[i].pc.issued
  {
    hide Chain.Step;
    hide Chain.Inv;
    assert s.rows[s.jobs[i].app].oauth2;
  }

  /** One event makes an application lost if and only if it loses a rotation of it. */
  lemma StepLosesIff(s: State, e: Event, app: string)
    requires Inv(s) && app in s.rows && app !in s.lost
    ensures app in Step(s, e).lost <==> Loses(s, e, app)
  {
    hide Inv;
    hide Chain.Step;
    hide StepPresent;
    hide StepWrite;
    match e {
      case Present(i, reply, delivered) =>
        if Running(s, i) && s.jobs[i].pc.Calling? { PresentLosesIff(s, i, reply, delivered, app); }
      case Write(i, end) =>
        if Running(s, i) && s.jobs[i].pc.Writing? { WriteLosesIff(s, i, end, app); }
      case _ =>
    }
  }

  /** After any run an application is lost if and only if some event of the run lost a rotation of it. */
  lemma {:induction false} LostIff(s0: State, events: seq<Event>, app: string)
    requires Inv(s0) && app in s0.rows && app !in s0.lost
    ensures app in Exec(s0, events).rows && (app in Exec(s0, events).lost <==> !NeverLoses(s0, events, app))
  {
    hide Inv;
    hide Step;
    hide Loses;
    if events != [] {
      var init, last := events[..|events| - 1], events[|events| - 1];
      var mid := Exec(s0, init);
      LostIff(s0, init, app);
      ExecKeepsInv(s0, init);
      StepKeepsLost(mid, last);
      if app !in mid.lost { StepLosesIff(mid, last, app); }
    }
  }

  lemma InitialInv(s0: State)
    requires Initial(s0)
    ensures Inv(s0) && s0.lost == {}
  {
  }

  lemma {:induction false} RowsStay(s0: State, events: seq<Event>)
    ensures Exec(s0, events).rows.Keys == s0.rows.Keys
  {
    hide Step;
    if events != [] {
      RowsStay(s0, events[..|events| - 1]);
      StepKeepsLost(Exec(s0, events[..|events| - 1]), events[|events| - 1]);
    }
  }

  lemma InvSaysCurrent(s: State)
    requires Inv(s)
    ensures s.rows.Keys == s.provider.Keys
    ensures forall app :: app in s.rows && !WriteInFlight(s, app) ==> (s.rows[app].token == s.provider[app] <==> app !in s.lost)
    ensures forall c :: c in s.calls && c.app !in s.lost ==> c.presented == c.current
  {
    hide Chain.Inv;
  }

  /** In any run, for an application with no issued token still on its way to the row: the stored token is the
      provider's current one if and only if no event lost a rotation of that application; and then every call made
      for it presented the current token. */
  lemma StoredTokenIsCurrent(s0: State, events: seq<Event>, app: string)
    requires Initial(s0) && app in s0.rows
    ensures var s := Exec(s0, events);
            && app in s.rows && s.rows.Keys == s.provider.Keys
            && (!WriteInFlight(s, app) ==> (s.rows[app].token == s.provider[app] <==> NeverLoses(s0, events, app)))
            && (NeverLoses(s0, events, app) ==> forall c :: c in s.calls && c.app == app ==> c.presented == c.current)
  {
    hide Inv;
    InitialInv(s0);
    ExecKeepsInv(s0, events);
    InvSaysCurrent(Exec(s0, events));
    LostIff(s0, events, app);
  }

  lemma CallsHaveRows(s: State)
    requires Inv(s)
    ensures forall i :: 0 <= i < |s.jobs| && s.jobs[i].pc.Calling? ==> s.jobs[i].app in s.rows
  {
    hide Chain.Inv;
  }

  lemma {:induction false} CallsAreForRows(s0: State, events: seq<Event>)
    requires Inv(s0) && s0.calls == []
    ensures forall c :: c in Exec(s0, events).calls ==> c.app in s0.rows
  {
    hide Inv;
    hide Chain.Step;
    if events != [] {
      var init := events[..|events| - 1];
      CallsAreForRows(s0, init);
      ExecKeepsInv(s0, init);
      RowsStay(s0, init);
      CallsHaveRows(Exec(s0, init));
    }
  }

  /** If no event loses a rotation, every provider call of every run presents the current token, and outside the
      window between a call and its write the row and the provider agree for every application. */
  lemma ExclusiveRotationIsSafe(s0: State, events: seq<Event>)
    requires Initial(s0) && forall app :: app in s0.rows ==> NeverLoses(s0, events, app)
    ensures var s := Exec(s0, events);
            && s.rows.Keys == s.provider.Keys
            && (forall c :: c in s.calls ==> c.presented == c.current)
            && (forall app :: app in s.rows && !WriteInFlight(s, app) ==> s.rows[app].token == s.provider[app])
  {
    hide Inv;
    hide Exec;
    hide NeverLoses;
    InitialInv(s0);
    ExecKeepsInv(s0, events);
    InvSaysCurrent(Exec(s0, events));
    RowsStay(s0, events);
    CallsAreForRows(s0, events);
    forall app | app in s0.rows ensures app !in Exec(s0, events).lost {
      LostIff(s0, events, app);
    }
  }

  /** Event `k` of the run read the row of `app`, connected and with this token. */
  predicate ReadAt(s0: State, events: seq<Event>, k: nat, app: string, token: Token)
    requires k < |events|
  {
    var s := Exec(s0, events[..k]);
    && events[k].Read? && events[k].op < |s.jobs| && s.jobs[events[k].op].app == app
    && app in s.rows && s.rows[app].oauth2 && s.rows[app].connected && s.rows[app].token == token
  }

  ghost predicate WasRead(s0: State, events: seq<Event>, app: string, token: Token) {
    exists k :: 0 <= k < |events| && ReadAt(s0, events, k, app, token)
  }

  lemma StillRead(s0: State, events: seq<Event>, app: string, token: Token)
    requires events != [] && WasRead(s0, events[..|events| - 1], app, token)
    ensures WasRead(s0, events, app, token)
  {
    hide Exec;
    var init := events[..|events| - 1];
    var k :| 0 <= k < |init| && ReadAt(s0, init, k, app, token);
    assert init[..k] == events[..k] && init[k] == events[k];
    assert ReadAt(s0, events, k, app, token);
  }

  lemma JustRead(s0: State, events: seq<Event>, app: string, token: Token)
    requires events != []
    requires var s, e := Exec(s0, events[..|events| - 1]), events[|events| - 1];
             && e.Read? && e.op < |s.jobs| && s.jobs[e.op].app == app
             && app in s.rows && s.rows[app].oauth2 && s.rows[app].connected && s.rows[app].token == token
    ensures WasRead(s0, events, app, token)
  {
    assert ReadAt(s0, events, |events| - 1, app, token);
  }

  /** Where a refresh's next call, and a logged one, come from. */
  lemma CallsComeFrom(s: State, e: Event)
    ensures var s' := Step(s, e);
            && (forall i :: 0 <= i < |s'.jobs| && s'.jobs[i].pc.Calling? ==>
                  (i < |s.jobs| && s.jobs[i] == s'.jobs[i])
                  || (e == Read(i) && i < |s.jobs| && s.jobs[i].app == s'.jobs[i].app && s'.jobs[i].app in s.rows
                      && var row := s.rows[s'.jobs[i].app];
                         row.oauth2 && row.connected && row.token == s'.jobs[i].pc.presented))
            && (forall c :: c in s'.calls ==>
                  c in s.calls
                  || exists i :: 0 <= i < |s.jobs| && s.jobs[i].app == c.app && s.jobs[i].pc == Calling(c.presented))
  {
    hide Chain.Step;
    if e.Present? && e.op < |s.jobs| && s.jobs[e.op].pc.Calling? {
      assert s.jobs[e.op].pc == Calling(s.jobs[e.op].pc.presented);
    }
  }

  /** Every call ever made presents a token that was read from a row that was connected then. */
  lemma {:induction false} CallsFollowConnectedReads(s0: State, events: seq<Event>)
    requires s0.jobs == [] && s0.calls == []
    ensures var s := Exec(s0, events);
            && (forall c :: c in s.calls ==> WasRead(s0, events, c.app, c.presented))
            && (forall i :: 0 <= i < |s.jobs| && s.jobs[i].pc.Calling? ==>
                  WasRead(s0, events, s.jobs[i].app, s.jobs[i].pc.presented))
  {
    hide Step;
    hide WasRead;
    if events != [] {
      var init, last := events[..|events| - 1], events[|events| - 1];
      var mid := Exec(s0, init);
      CallsFollowConnectedReads(s0, init);
      CallsComeFrom(mid, last);
      var s := Exec(s0, events);
      forall c | c in s.calls ensures WasRead(s0, events, c.app, c.presented) {
        assert WasRead(s0, init, c.app, c.presented);
        StillRead(s0, events, c.app, c.presented);
      }
      forall i | 0 <= i < |s.jobs| && s.jobs[i].pc.Calling? ensures WasRead(s0, events, s.jobs[i].app, s.jobs[i].pc.presented) {
        if i < |mid.jobs| && mid.jobs[i] == s.jobs[i] {
          StillRead(s0, events, s.jobs[i].app, s.jobs[i].pc.presented);
        } else {
          JustRead(s0, events, s.jobs[i].app, s.jobs[i].pc.presented);
        }
      }
    }
  }

  /** `app` is lost in `s`, and every call made for it after the first `n` was rejected. */
  ghost predicate Rejected(s: State, app: string, n: nat) {
    && app in s.rows && app in s.lost && n <= |s.calls|
    && forall k :: n <= k < |s.calls| && s.calls[k].app == app ==> s.calls[k].presented != s.calls[k].current
  }

  lemma StepKeepsRejected(s: State, e: Event, app: string, n: nat)
    requires Inv(s) && Rejected(s, app, n)
    ensures Rejected(Step(s, e), app, n)
  {
    hide Chain.Step;
    hide Chain.Inv;
    hide WriteInFlight;
    match e
    case Present(i, _, _) =>
      assert Running(s, i) && s.jobs[i].pc.Calling? && s.jobs[i].app == app ==> s.jobs[i].pc.presented != s.provider[app];
    case _ =>
      assert Step(s, e).calls == s.calls;
  }

  /** A lost rotation is final until the application is authorized anew: whatever refreshes happen next, it stays
      lost and every further call for it presents a token the provider rejects. */
  lemma {:induction false} LostRotationIsFinal(s: State, more: seq<Event>, app: string)
    requires Inv(s) && app in s.rows && app in s.lost
    ensures Rejected(Exec(s, more), app, |s.calls|)
  {
    if more != [] {
      LostRotationIsFinal(s, more[..|more| - 1], app);
      ExecKeepsInv(s, more[..|more| - 1]);
      StepKeepsRejected(Exec(s, more[..|more| - 1]), more[|more| - 1], app, |s.calls|);
    }
  }

  /** Such a loss does happen: one failed write after a rotation is enough. */
  lemma {:induction false} FailedWriteLosesRotation(s0: State, app: string)
    requires Initial(s0) && app in s0.rows && s0.rows[app].oauth2 && s0.rows[app].connected
    ensures exists events :: app in Exec(s0, events).lost
  {
    var s1 := Step(s0, Arrive(app, true));
    assert Running(s1, 0) && s1.jobs[0] == Refresh(app, true, Fresh);
    var s2 := Step(s1, Read(0));
    assert Running(s2, 0) && s2.jobs[0].pc == Calling(s0.provider[app]);
    var s3 := Step(s2, Present(0, Rotate, true));
    assert Running(s3, 0) && s3.jobs[0].pc == Writing(s0.minted) && s3.rows == s0.rows;
    assert app in Step(s3, Write(0, Failed)).lost;
    ExecSnoc(s0, [], Arrive(app, true));
    ExecSnoc(s0, [] + [Arrive(app, true)], Read(0));
    ExecSnoc(s0, [] + [Arrive(app, true)] + [Read(0)], Present(0, Rotate, true));
    ExecSnoc(s0, [] + [Arrive(app, true)] + [Read(0)] + [Present(0, Rotate, true)], Write(0, Failed));
  }

  lemma ExecSnoc(s: State, events: seq<Event>, e: Event)
    ensures Exec(s, events + [e]) == Step(Exec(s, events), e)
  {
    assert (events + [e])[..|events|] == events;
  }
}
