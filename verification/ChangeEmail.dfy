/** The script that moves an account to a new sign-in address: a guard and three ordered statements. */
module ChangeEmail {
  import opened Wrappers

  /** `anchor` is `users.email`; timestamps are left out. */
  datatype User = User(anchor: string, current: Option<string>)

  /** A row of `user_emails`. */
  datatype Entry = Entry(userId: string, verified: bool)

  datatype Db = Db(users: map<string, User>, registry: map<string, Entry>)

  // ---------- Values that may be written into a statement ----------

  predicate IsAlphanumeric(c: char) {
    ('A' <= c <= 'Z') || ('a' <= c <= 'z') || ('0' <= c <= '9')
  }

  predicate AllLocal(s: string) {
    forall c :: c in s ==> IsAlphanumeric(c) || c in {'.', '_', '%', '+', '-'}
  }

  predicate AllDomain(s: string) {
    forall c :: c in s ==> IsAlphanumeric(c) || c in {'.', '-'}
  }

  /** `sqlEmail` accepts it. */
  predicate IsPlainEmail(s: string) {
    exists k :: 0 < k < |s| - 1 && s[k] == '@' && AllLocal(s[..k]) && AllDomain(s[k + 1..])
  }

  /** `sqlToken` accepts it. */
  predicate IsToken(s: string) {
    s != "" && forall c :: c in s ==> IsAlphanumeric(c) || c in {'_', '.', '@', '-'}
  }

  function LowerChar(c: char): char {
    if 'A' <= c <= 'Z' then c + ('a' - 'A') else c
  }

  function Lower(s: string): (r: string)
    ensures |r| == |s| && forall k :: 0 <= k < |s| ==> r[k] == LowerChar(s[k])
    ensures forall k :: 0 <= k < |s| ==> r[k] as int == s[k] as int + if 65 <= s[k] as int <= 90 then 32 else 0
  {
    if s == "" then "" else [LowerChar(s[0])] + Lower(s[1..])
  }

  /** An ASCII letter or digit, by its code. */
  predicate IsLetterOrDigit(c: char) {
    48 <= c as int <= 57 || 65 <= c as int <= 90 || 97 <= c as int <= 122
  }

  /** What is accepted as an address is exactly a nonempty local part, one `@`, and a nonempty domain of the listed
      characters. */
  lemma PlainEmailIff(local: string, domain: string)
    requires '@' !in local
    ensures IsPlainEmail(local + "@" + domain) <==>
              && local != "" && domain != ""
              && (forall c :: c in local ==> IsLetterOrDigit(c) || c in ".%+_-")
              && (forall c :: c in domain ==> IsLetterOrDigit(c) || c in ".-")
    ensures !IsPlainEmail(local)
  {
    var s, n := local + "@" + domain, |local|;
    assert s[..n] == local && s[n] == '@' && s[n + 1..] == domain;
    SameClasses(local, domain);
    forall k | n < k < |s| ensures !AllLocal(s[..k]) {
      assert s[..k][n] in s[..k];
    }
    assert forall k :: 0 <= k < n ==> local[k] in local;
  }

  lemma SameClasses(local: string, domain: string)
    ensures AllLocal(local) <==> forall c :: c in local ==> IsLetterOrDigit(c) || c in ".%+_-"
    ensures AllDomain(domain) <==> forall c :: c in domain ==> IsLetterOrDigit(c) || c in ".-"
  {
    forall c: char
      ensures IsAlphanumeric(c) <==> IsLetterOrDigit(c)
      ensures c in ".%+_-" <==> c in {'.', '_', '%', '+', '-'}
      ensures c in ".-" <==> c in {'.', '-'}
    {
      assert ".%+_-"[0] == '.' && ".%+_-"[1] == '%' && ".%+_-"[2] == '+' && ".%+_-"[3] == '_' && ".%+_-"[4] == '-';
      assert ".-"[0] == '.' && ".-"[1] == '-';
    }
  }

  lemma TokenIff(s: string)
    ensures IsToken(s) <==> s != "" && forall i :: 0 <= i < |s| ==> IsLetterOrDigit(s[i]) || s[i] in {'_', '.', '@', '-'}
  {
    forall c: char ensures IsAlphanumeric(c) <==> IsLetterOrDigit(c) {}
    assert forall i :: 0 <= i < |s| ==> s[i] in s;
  }

  lemma EmailHasNoQuote(s: string, k: nat, i: nat)
    requires k < |s| && s[k] == '@' && AllLocal(s[..k]) && AllDomain(s[k + 1..]) && i < |s|
    ensures s[i] != '\''
  {
    if i < k {
      assert s[i] == s[..k][i] && s[i] in s[..k];
    } else if i > k {
      assert s[i] == s[k + 1..][i - k - 1] && s[i] in s[k + 1..];
    }
  }

  /** An accepted value, lowercased or not, has no quote in it, so the literal around it ends where it should. */
  lemma AcceptedHasNoQuote(s: string)
    requires IsPlainEmail(s) || IsToken(s)
    ensures '\'' !in s && '\'' !in Lower(s)
  {
    hide AllLocal;
    hide AllDomain;
    forall i | 0 <= i < |s| ensures s[i] != '\'' {
      assert s[i] in s;
      if IsPlainEmail(s) {
        var k :| 0 < k < |s| - 1 && s[k] == '@' && AllLocal(s[..k]) && AllDomain(s[k + 1..]);
        EmailHasNoQuote(s, k, i);
      }
    }
  }

  // ---------- The statements ----------

  /** Statement 1: `INSERT INTO user_emails ... ON CONFLICT(email) DO UPDATE`. */
  function Claim(db: Db, id: string, target: string): Db {
    db.(registry := db.registry[target := Entry(id, true)])
  }

  /** Statement 2: `UPDATE users SET current_email`. */
  function Move(db: Db, id: string, target: string): Db
    requires id in db.users
  {
    db.(users := db.users[id := db.users[id].(current := Some(target))])
  }

  /** Statement 3: `UPDATE user_emails SET is_verified = 0`. */
  function Revoke(db: Db, id: string, target: string): Db {
    db.(registry := map e | e in db.registry ::
          if db.registry[e].userId == id && e != target then db.registry[e].(verified := false) else db.registry[e])
  }

  /** What the unique index on `current_email` forbids in statement 2. */
  predicate Collides(db: Db, id: string, target: string) {
    exists v :: v in db.users && v != id && db.users[v].current == Some(target)
  }

  /** The database when the first `n` of the three statements have run. */
  function After(db: Db, id: string, target: string, n: nat): Db
    requires id in db.users
  {
    if n == 0 then db
    else if n == 1 then Claim(db, id, target)
    else if n == 2 then Move(Claim(db, id, target), id, target)
    else Revoke(Move(Claim(db, id, target), id, target), id, target)
  }

  /** The guard: the address is a verified one of another account. */
  predicate Taken(db: Db, id: string, target: string) {
    target in db.registry && db.registry[target].userId in db.users
    && db.registry[target].verified && db.registry[target].userId != id
  }

  // ---------- The script ----------

  datatype Args = Args(account: Option<string>, id: Option<string>, to: string, dryRun: bool)

  predicate Given(x: Option<string>) {
    x.Some? && x.value != ""
  }

  /** The account the arguments name: by id when one is given, else by its sign-in address. */
  predicate Matches(db: Db, args: Args, id: string) {
    && id in db.users
    && if Given(args.id) then id == args.id.value
       else Given(args.account) && db.users[id].current.Some?
            && Lower(db.users[id].current.value) == Lower(args.account.value)
  }

  /** How a run ends; only `Applied` and `Failed` have written anything. */
  datatype Outcome =
    | Usage
    | NotPlain
    | NoAccount
    | AlreadyTaken(id: string)
    | DryRun(id: string)
    | Failed(id: string)
    | Applied(id: string)

  class Database {
    var users: map<string, User>
    var registry: map<string, Entry>

    function State(): Db
      reads this
    {
      Db(users, registry)
    }

    method ClaimAddress(id: string, target: string)
      modifies this
      ensures State() == Claim(old(State()), id, target)
    {
      registry := registry[target := Entry(id, true)];
    }

    /** Fails on the unique index. */
    method MoveAddress(id: string, target: string) returns (ok: bool)
      requires id in users
      modifies this
      ensures ok == !Collides(old(State()), id, target)
      ensures ok <==> forall v :: v in old(users) && v != id ==> old(users)[v].current != Some(target)
      ensures State() == if ok then Move(old(State()), id, target) else old(State())
    {
      if exists v :: v in users && v != id && users[v].current == Some(target) { return false; }
      users := users[id := users[id].(current := Some(target))];
      return true;
    }

    method RevokeOthers(id: string, target: string)
      modifies this
      ensures State() == Revoke(old(State()), id, target)
    {
      registry := map e | e in registry ::
        if registry[e].userId == id && e != target then registry[e].(verified := false) else registry[e];
    }

    /** `main`, of whose statements the first `reached` take effect. */
    method Run(args: Args, reached: nat) returns (r: Outcome)
      requires reached <= 3
      modifies this
      ensures r.Usage? <==> !((args.id.Some? && args.id.value != "") || (args.account.Some? && args.account.value != "")) || args.to == ""
      ensures r.NotPlain? ==> || (Given(args.id) && !IsToken(args.id.value))
                              || (!Given(args.id) && !IsPlainEmail(args.account.value))
                              || !IsPlainEmail(args.to)
                              || exists id :: Matches(old(State()), args, id) && !IsToken(id)
      ensures !r.Usage? ==>
                if (args.id.Some? && args.id.value != "") then IsToken(args.id.value) || r.NotPlain? else IsPlainEmail(args.account.value) || r.NotPlain?
      ensures !r.Usage? && (if (args.id.Some? && args.id.value != "") then IsToken(args.id.value) else IsPlainEmail(args.account.value)) ==>
                (r.NoAccount? <==> forall id :: !Matches(old(State()), args, id))
      ensures var named := r.AlreadyTaken? || r.DryRun? || r.Failed? || r.Applied?;
              named ==> && Matches(old(State()), args, r.id) && IsPlainEmail(args.to) && IsToken(r.id)
                          && (r.AlreadyTaken? <==> Taken(old(State()), r.id, Lower(args.to)))
                          && (r.AlreadyTaken? <==>
                                && Lower(args.to) in old(registry) && old(registry)[Lower(args.to)].verified
                                && old(registry)[Lower(args.to)].userId != r.id
                                && old(registry)[Lower(args.to)].userId in old(users))
                          && (r.DryRun? <==> args.dryRun && !r.AlreadyTaken?)
                          && r.id in old(users)
                          && (args.id.Some? && args.id.value != "" ==> r.id == args.id.value)
                          && (args.id.None? || args.id.value == "" ==>
                                && args.account.Some? && old(users)[r.id].current.Some?
                                && Lower(old(users)[r.id].current.value) == Lower(args.account.value))
      ensures r.Applied? ==> State() == After(old(State()), r.id, Lower(args.to), reached)
      ensures r.Failed? ==> && reached >= 2
                            && Collides(Claim(old(State()), r.id, Lower(args.to)), r.id, Lower(args.to))
                            && State() == Claim(old(State()), r.id, Lower(args.to))
      ensures !r.Applied? && !r.Failed? ==> State() == old(State())
    {
      if (!Given(args.id) && !Given(args.account)) || args.to == "" { return Usage; }
      if Given(args.id) {
        if !IsToken(args.id.value) { return NotPlain; }
      } else if !IsPlainEmail(args.account.value) {
        return NotPlain;
      }
      if !(exists id :: id in users && Matches(State(), args, id)) { return NoAccount; }
      var account: string :| account in users && Matches(State(), args, account);
      if !IsPlainEmail(args.to) || !IsToken(account) { return NotPlain; }
      var target := Lower(args.to);
      if Taken(State(), account, target) { return AlreadyTaken(account); }
      if args.dryRun { return DryRun(account); }
      if reached >= 1 { ClaimAddress(account, target); }
      if reached >= 2 {
        var ok := MoveAddress(account, target);
        if !ok { return Failed(account); }
      }
      if reached >= 3 { RevokeOthers(account, target); }
      return Applied(account);
    }
  }

  // ---------- What every prefix keeps ----------

  /** Every account's current address is a verified registry entry of its own; the registry is keyed on
      lowercased addresses and its owners exist. */
  predicate Sound(db: Db) {
    && (forall u :: u in db.users && db.users[u].current.Some? ==>
          db.users[u].current.value in db.registry && db.registry[db.users[u].current.value] == Entry(u, true))
    && (forall e :: e in db.registry ==> Lower(e) == e && db.registry[e].userId in db.users)
  }

  function VerifiedOf(db: Db, id: string): set<string> {
    set e | e in db.registry && db.registry[e] == Entry(id, true)
  }

  /** No account but `id` loses a verified address, and no anchor changes. */
  ghost predicate OthersKept(before: Db, after: Db, id: string) {
    && (forall v :: v != id ==> VerifiedOf(before, v) <= VerifiedOf(after, v))
    && after.users.Keys == before.users.Keys
    && (forall u :: u in before.users ==> after.users[u].anchor == before.users[u].anchor)
    && (forall u :: u in before.users && u != id ==> after.users[u] == before.users[u])
  }

  predicate Ready(db: Db, id: string, target: string) {
    Sound(db) && id in db.users && Lower(target) == target && !Taken(db, id, target)
  }

  lemma ClaimKeepsSound(db: Db, id: string, target: string)
    requires Ready(db, id, target)
    ensures Sound(Claim(db, id, target)) && OthersKept(db, Claim(db, id, target), id)
  {
    var after := Claim(db, id, target);
    forall v | v != id ensures VerifiedOf(db, v) <= VerifiedOf(after, v) {
      forall e | e in VerifiedOf(db, v) ensures e in VerifiedOf(after, v) {
        assert e != target;
      }
    }
  }

  lemma MoveKeepsSound(db: Db, id: string, target: string)
    requires Sound(db) && id in db.users && target in VerifiedOf(db, id)
    ensures Sound(Move(db, id, target)) && !Collides(db, id, target)
    ensures Move(db, id, target).registry == db.registry
  {
  }

  lemma RevokeKeepsSound(db: Db, id: string, target: string)
    requires Sound(db) && id in db.users && db.users[id].current == Some(target)
    ensures Sound(Revoke(db, id, target)) && VerifiedOf(Revoke(db, id, target), id) == {target}
    ensures Revoke(db, id, target).users == db.users
    ensures forall v :: v != id ==> VerifiedOf(Revoke(db, id, target), v) == VerifiedOf(db, v)
  {
    var after := Revoke(db, id, target);
    assert after.registry.Keys == db.registry.Keys;
  }

  lemma StatementsKeepSound(db: Db, id: string, target: string) returns (claimed: Db, moved: Db, end: Db)
    requires Ready(db, id, target)
    ensures claimed == After(db, id, target, 1) && moved == After(db, id, target, 2) && end == After(db, id, target, 3)
    ensures claimed == Claim(db, id, target) && moved == Move(claimed, id, target) && end == Revoke(moved, id, target)
    ensures Sound(claimed) && OthersKept(db, claimed, id) && target in VerifiedOf(claimed, id)
    ensures !Collides(claimed, id, target)
    ensures Sound(moved) && moved.registry == claimed.registry && moved.users[id].current == Some(target)
    ensures Sound(end) && end.users == moved.users && VerifiedOf(end, id) == {target}
    ensures forall v :: v != id ==> VerifiedOf(end, v) == VerifiedOf(moved, v)
  {
    hide Sound;
    hide OthersKept;
    hide Collides;
    claimed := Claim(db, id, target);
    moved := Move(claimed, id, target);
    end := Revoke(moved, id, target);
    ClaimKeepsSound(db, id, target);
    assert target in VerifiedOf(claimed, id);
    MoveKeepsSound(claimed, id, target);
    RevokeKeepsSound(moved, id, target);
  }

  lemma LaterKeepsOthers(db: Db, claimed: Db, moved: Db, later: Db, id: string, target: string)
    requires id in claimed.users && OthersKept(db, claimed, id) && moved == Move(claimed, id, target)
    requires later.users == moved.users
    requires forall v :: v != id ==> VerifiedOf(later, v) == VerifiedOf(moved, v)
    ensures OthersKept(db, later, id)
  {
    forall v | v != id ensures VerifiedOf(db, v) <= VerifiedOf(later, v) {
      assert VerifiedOf(moved, v) == VerifiedOf(claimed, v);
    }
  }

  /** After every prefix of the statements each account's current address is still a verified one of its own,
      no other account has lost a verified address, no anchor has changed, statement 2 meets no other holder
      of the address, and from the first statement on the account can sign in with the new address. */
  lemma EveryPrefixIsSound(db: Db, id: string, target: string, n: nat)
    requires Ready(db, id, target) && n <= 3
    ensures Sound(After(db, id, target, n)) && OthersKept(db, After(db, id, target, n), id)
    ensures !Collides(Claim(db, id, target), id, target)
    ensures VerifiedOf(db, id) != {} || n > 0 ==> VerifiedOf(After(db, id, target, n), id) != {}
    ensures n > 0 ==> target in VerifiedOf(After(db, id, target, n), id)
  {
    hide Sound;
    hide Collides;
    hide After;
    var claimed, moved, end := StatementsKeepSound(db, id, target);
    StartIs(db, id, target);
    assert target in VerifiedOf(moved, id);
    LaterKeepsOthers(db, claimed, moved, moved, id, target);
    LaterKeepsOthers(db, claimed, moved, end, id, target);
    assert n == 0 || n == 1 || n == 2 || n == 3;
  }

  lemma StartIs(db: Db, id: string, target: string)
    requires id in db.users
    ensures After(db, id, target, 0) == db && OthersKept(db, db, id)
  {
  }

  /** At the end the account has the new address and no other verified one. */
  lemma EndsWithOneAddress(db: Db, id: string, target: string)
    requires Ready(db, id, target)
    ensures var end := After(db, id, target, 3);
            end.users[id].current == Some(target) && VerifiedOf(end, id) == {target}
  {
    var moved := Move(Claim(db, id, target), id, target);
    EveryPrefixIsSound(db, id, target, 2);
    RevokeKeepsSound(moved, id, target);
  }

  /** What the three statements make of a registry row. */
  lemma RowAtEnd(db: Db, id: string, target: string, e: string)
    requires id in db.users
    ensures var end := After(db, id, target, 3);
            && (e in end.registry <==> e in db.registry || e == target)
            && (e == target ==> end.registry[e] == Entry(id, true))
            && (e in db.registry && e != target ==>
                  end.registry[e] == if db.registry[e].userId == id then Entry(id, false) else db.registry[e])
  {
  }

  lemma SameRows(db: Db, cut: Db, id: string, target: string)
    requires id in db.users && id in cut.users
    requires forall e :: e in cut.registry || e == target <==> e in db.registry || e == target
    requires forall e :: e in db.registry && e != target ==>
               cut.registry[e].userId == db.registry[e].userId
               && (db.registry[e].userId != id ==> cut.registry[e] == db.registry[e])
    requires cut.users[id := cut.users[id].(current := Some(target))]
             == db.users[id := db.users[id].(current := Some(target))]
    ensures After(cut, id, target, 3) == After(db, id, target, 3)
  {
    var again, end := After(cut, id, target, 3), After(db, id, target, 3);
    forall e ensures e in again.registry <==> e in end.registry
             ensures e in end.registry ==> again.registry[e] == end.registry[e]
    {
      RowAtEnd(db, id, target, e);
      RowAtEnd(cut, id, target, e);
    }
    assert again.registry == end.registry;
  }

  /** Running again, after a success or from wherever a run was cut off, is let through by the guard and leads
      to the same database. */
  lemma RunningAgainCompletes(db: Db, id: string, target: string, n: nat)
    requires Ready(db, id, target) && n <= 3
    ensures Ready(After(db, id, target, n), id, target)
    ensures After(After(db, id, target, n), id, target, 3) == After(db, id, target, 3)
  {
    hide Sound;
    EveryPrefixIsSound(db, id, target, n);
    SameRows(db, After(db, id, target, n), id, target);
  }

  /** The new address then names the account, and only it. */
  lemma NewAddressNamesAccount(db: Db, id: string, target: string, args: Args, v: string)
    requires Ready(db, id, target) && !Given(args.id) && args.account == Some(target) && target != ""
    ensures Matches(After(db, id, target, 3), args, v) <==> v == id
  {
    var end := After(db, id, target, 3);
    EveryPrefixIsSound(db, id, target, 3);
    EndsWithOneAddress(db, id, target);
    if Matches(end, args, v) {
      var address := end.users[v].current.value;
      assert Lower(address) == address;
    }
  }

  /** The guard refuses exactly the runs whose first statement would take a verified address from another
      account. */
  lemma GuardIsExact(db: Db, id: string, target: string)
    requires Sound(db)
    ensures Taken(db, id, target)
            <==> exists v :: v != id && !(VerifiedOf(db, v) <= VerifiedOf(Claim(db, id, target), v))
  {
    var after := Claim(db, id, target);
    if Taken(db, id, target) {
      var v := db.registry[target].userId;
      assert target in VerifiedOf(db, v) && target !in VerifiedOf(after, v);
    }
    if exists v :: v != id && !(VerifiedOf(db, v) <= VerifiedOf(after, v)) {
      var v :| v != id && !(VerifiedOf(db, v) <= VerifiedOf(after, v));
      var e :| e in VerifiedOf(db, v) && e !in VerifiedOf(after, v);
      assert e == target;
    }
  }

  /** Revoking first would leave the account without any verified address, unless it already owned the new
      one. */
  lemma RevokingFirstLocksOut(db: Db, id: string, target: string)
    ensures VerifiedOf(Revoke(db, id, target), id) == {} <==> target !in VerifiedOf(db, id)
  {
    var after := Revoke(db, id, target);
    if target in VerifiedOf(db, id) {
      assert target in VerifiedOf(after, id);
    }
  }
}
