/** The resumable self-reply of the Outlook client: send, find in Sent Items, copy to Inbox, delete.

    An attempt may stop at any remote call, before or after the call took effect, and is retried later.
    Searches run against an index that may lag; a script says of each folder whether the index had caught up
    with it when the attempt began.  Only messages carrying this email's marker are part of the mailbox here. */
module SummaryReply {
  import opened Wrappers

  /** `hidden` holds the messages the search index does not show yet; ids below `next` are taken. */
  datatype Mailbox = Mailbox(inbox: seq<nat>, sent: seq<nat>, hidden: set<nat>, replies: nat, next: nat)

  /** A remote call completes, fails without effect, or takes effect and ends the attempt all the same. */
  datatype Ending = Completes | FailsBefore | FailsAfter

  /** How one attempt goes: `searchesBeforeFailure` folder searches succeed before one throws, and the
      sent reply shows up at poll number `visibleAtPoll`. */
  datatype Script = Script(
    inboxCaughtUp: bool, sentCaughtUp: bool, searchesBeforeFailure: nat, send: Ending, visibleAtPoll: nat,
    copy: Ending, delete: Ending)

  datatype Result = Result(mailbox: Mailbox, completed: bool)

  /** Delays of 1, 2 and 4 seconds: one immediate poll and three more. */
  const POLLS := 4

  const EMPTY := Mailbox([], [], {}, 0, 0)

  function FirstVisible(folder: seq<nat>, hidden: set<nat>): Option<nat> {
    if folder == [] then None
    else if folder[0] !in hidden then Some(folder[0]) else FirstVisible(folder[1..], hidden)
  }

  function Without(folder: seq<nat>, id: nat): seq<nat> {
    if folder == [] then []
    else if folder[0] == id then Without(folder[1..], id) else [folder[0]] + Without(folder[1..], id)
  }

  function Send(m: Mailbox): Mailbox {
    m.(sent := m.sent + [m.next], hidden := m.hidden + {m.next}, replies := m.replies + 1, next := m.next + 1)
  }

  function Copy(m: Mailbox): Mailbox {
    m.(inbox := m.inbox + [m.next], hidden := m.hidden + {m.next}, next := m.next + 1)
  }

  /** A message already gone (404) counts as deleted. */
  function Delete(m: Mailbox, id: nat): Mailbox {
    m.(sent := Without(m.sent, id))
  }

  function Ids(folder: seq<nat>): set<nat> {
    set id | id in folder
  }

  /** The mailbox as the attempt finds it. */
  function Look(m: Mailbox, script: Script): Mailbox {
    m.(hidden := m.hidden - (if script.inboxCaughtUp then Ids(m.inbox) else {})
                          - (if script.sentCaughtUp then Ids(m.sent) else {}))
  }

  function FinishDelete(m: Mailbox, id: nat, ending: Ending): Result {
    Result(if ending.FailsBefore? then m else Delete(m, id), ending.Completes?)
  }

  function FinishCopy(m: Mailbox, id: nat, script: Script): Result {
    match script.copy
    case FailsBefore => Result(m, false)
    case FailsAfter => Result(Copy(m), false)
    case Completes => FinishDelete(Copy(m), id, script.delete)
  }

  /** `findSentSummaryMessage`: the index shows the reply from poll `visibleAtPoll` on. */
  function FindSent(m: Mailbox, script: Script): (Mailbox, Option<nat>) {
    if script.visibleAtPoll < POLLS then
      var shown := m.(hidden := m.hidden - Ids(m.sent));
      (shown, FirstVisible(shown.sent, shown.hidden))
    else (m, FirstVisible(m.sent, m.hidden))
  }

  /** `sendSelfSummaryReply` as a function of the mailbox and of how its calls end. */
  function Attempt(m0: Mailbox, script: Script): Result {
    var m := Look(m0, script);
    if script.searchesBeforeFailure == 0 then Result(m, false)
    else if script.searchesBeforeFailure == 1 then Result(m, false)
    else
      var inInbox, inSent := FirstVisible(m.inbox, m.hidden), FirstVisible(m.sent, m.hidden);
      if inInbox.Some? then
        if inSent.Some? then FinishDelete(m, inSent.value, script.delete) else Result(m, true)
      else if inSent.Some? then FinishCopy(m, inSent.value, script)
      else
        match script.send
        case FailsBefore => Result(m, false)
        case FailsAfter => Result(Send(m), false)
        case Completes =>
          var found := FindSent(Send(m), script);
          if found.1.None? then Result(found.0, false) else FinishCopy(found.0, found.1.value, script)
  }

  lemma {:induction false} WithoutOne(folder: seq<nat>, id: nat)
    ensures id !in Without(folder, id) && forall x :: x != id ==> (x in Without(folder, id) <==> x in folder)
  {
    if folder != [] { WithoutOne(folder[1..], id); }
  }

  class OutlookClient {
    var mailbox: Mailbox

    method FindSummaryMessageInFolder(inbox: bool) returns (id: Option<nat>)
      ensures id == FirstVisible(if inbox then mailbox.inbox else mailbox.sent, mailbox.hidden)
      ensures var folder := if inbox then mailbox.inbox else mailbox.sent;
              if id.None? then forall x :: x in folder ==> x in mailbox.hidden
              else exists i :: 0 <= i < |folder| && folder[i] == id.value && id.value !in mailbox.hidden
                               && forall j :: 0 <= j < i ==> folder[j] in mailbox.hidden
    {
      var folder := if inbox then mailbox.inbox else mailbox.sent;
      var i := 0;
      while i < |folder|
        invariant i <= |folder|
        invariant forall j :: 0 <= j < i ==> folder[j] in mailbox.hidden
        invariant FirstVisible(folder, mailbox.hidden) == FirstVisible(folder[i..], mailbox.hidden)
      {
        if folder[i] !in mailbox.hidden { return Some(folder[i]); }
        i := i + 1;
      }
      return None;
    }

    /** The poll loop: up to four searches, the index catching up in between. */
    method FindSentSummaryMessage(script: Script) returns (id: Option<nat>)
      requires mailbox.sent != [] && FirstVisible(mailbox.sent, mailbox.hidden).None?
      modifies this
      ensures (mailbox, id) == FindSent(old(mailbox), script)
      ensures id.Some? <==> script.visibleAtPoll < 4
      ensures mailbox == old(mailbox).(hidden := mailbox.hidden)
      ensures id.Some? ==> id.value in mailbox.sent
    {
      var attempt := 0;
      while attempt < POLLS
        invariant 0 <= attempt <= POLLS
        invariant mailbox == old(mailbox)
        invariant attempt <= script.visibleAtPoll
        decreases POLLS - attempt
      {
        if attempt == script.visibleAtPoll {
          mailbox := mailbox.(hidden := mailbox.hidden - Ids(mailbox.sent));
          assert mailbox.sent[0] !in mailbox.hidden;
        }
        id := FindSummaryMessageInFolder(false);
        if id.Some? { return; }
        attempt := attempt + 1;
      }
      return None;
    }

    /** Copy to Inbox, then delete the original: the common tail of a first attempt and of a resumed one. */
    method CopyThenDelete(id: nat, script: Script) returns (completed: bool)
      modifies this
      ensures Result(mailbox, completed) == FinishCopy(old(mailbox), id, script)
      ensures completed <==> script.copy.Completes? && script.delete.Completes?
      ensures mailbox.replies == old(mailbox.replies)
      ensures mailbox.inbox == old(mailbox.inbox) + if script.copy.FailsBefore? then [] else [old(mailbox.next)]
      ensures if script.copy.Completes? && !script.delete.FailsBefore?
              then id !in mailbox.sent && forall x :: x != id ==> (x in mailbox.sent <==> x in old(mailbox.sent))
              else mailbox.sent == old(mailbox.sent)
    {
      if script.copy == FailsBefore { return false; }
      mailbox := Copy(mailbox);
      if script.copy == FailsAfter { return false; }
      completed := DeleteMessage(id, script.delete);
    }

    method DeleteMessage(id: nat, ending: Ending) returns (completed: bool)
      modifies this
      ensures Result(mailbox, completed) == FinishDelete(old(mailbox), id, ending)
      ensures completed <==> ending.Completes?
      ensures mailbox == old(mailbox).(sent := mailbox.sent)
      ensures if ending.FailsBefore? then mailbox.sent == old(mailbox.sent)
              else id !in mailbox.sent && forall x :: x != id ==> (x in mailbox.sent <==> x in old(mailbox.sent))
    {
      WithoutOne(mailbox.sent, id);
      if ending == FailsBefore { return false; }
      mailbox := Delete(mailbox, id);
      return ending == Completes;
    }

    /** `sendSelfSummaryReply`, step by step with its early returns.  A copy that the inbox shows ends it; otherwise a
        reply that Sent Items show is copied; otherwise one is sent, and copied if four polls find it. */
    method SendSelfSummaryReply(script: Script) returns (completed: bool)
      modifies this
      ensures Result(mailbox, completed) == Attempt(old(mailbox), script)
    {
      mailbox := Look(mailbox, script);
      if script.searchesBeforeFailure == 0 { return false; }
      var inInbox := FindSummaryMessageInFolder(true);
      if script.searchesBeforeFailure == 1 { return false; }
      if inInbox.Some? {
        var stale := FindSummaryMessageInFolder(false);
        if stale.None? { return true; }
        completed := DeleteMessage(stale.value, script.delete);
        return;
      }
      var inSent := FindSummaryMessageInFolder(false);
      if inSent.Some? {
        completed := CopyThenDelete(inSent.value, script);
        return;
      }
      if script.send == FailsBefore { return false; }
      NothingVisibleAfterSend(mailbox);
      mailbox := Send(mailbox);
      if script.send == FailsAfter { return false; }
      var sent := FindSentSummaryMessage(script);
      if sent.None? { return false; }
      completed := CopyThenDelete(sent.value, script);
    }
  }

  lemma {:induction false} InvisibleSnoc(folder: seq<nat>, hidden: set<nat>, id: nat)
    requires FirstVisible(folder, hidden).None?
    ensures FirstVisible(folder + [id], hidden + {id}).None?
  {
    if folder == [] {
      assert [id][1..] == [];
    } else {
      assert (folder + [id])[1..] == folder[1..] + [id];
      InvisibleSnoc(folder[1..], hidden, id);
    }
  }

  lemma NothingVisibleAfterSend(m: Mailbox)
    requires FirstVisible(m.sent, m.hidden).None?
    ensures FirstVisible(Send(m).sent, Send(m).hidden).None?
  {
    InvisibleSnoc(m.sent, m.hidden, m.next);
  }

  /** Whether a search of the folder finds anything, given what the index had caught up with. */
  lemma {:induction false} VisibleIff(folder: seq<nat>, hidden: set<nat>)
    ensures FirstVisible(folder, hidden).Some? <==> exists x :: x in folder && x !in hidden
    ensures FirstVisible(folder, hidden).Some? ==>
              FirstVisible(folder, hidden).value in folder && FirstVisible(folder, hidden).value !in hidden
  {
    if folder != [] {
      VisibleIff(folder[1..], hidden);
      assert forall x :: x in folder <==> x == folder[0] || x in folder[1..];
    }
  }

  /** What a search of one folder shows at the beginning of an attempt. */
  ghost predicate Finds(m: Mailbox, script: Script, folder: seq<nat>) {
    exists x :: x in folder && (x in m.hidden ==> (script.inboxCaughtUp && x in m.inbox) || (script.sentCaughtUp && x in m.sent))
  }

  lemma FindsIff(m: Mailbox, script: Script)
    ensures FirstVisible(m.inbox, Look(m, script).hidden).Some? <==> Finds(m, script, m.inbox)
    ensures FirstVisible(m.sent, Look(m, script).hidden).Some? <==> Finds(m, script, m.sent)
  {
    VisibleIff(m.inbox, Look(m, script).hidden);
    VisibleIff(m.sent, Look(m, script).hidden);
  }

  /** A reply is sent if and only if neither folder shows one, and then copied if and only if it is sent without
      failure and found by four polls; a reply that only Sent Items show is copied. */
  lemma AttemptIff(m: Mailbox, script: Script)
    ensures var r := Attempt(m, script);
            var searched := script.searchesBeforeFailure >= 2;
            var inInbox, inSent := Finds(m, script, m.inbox), Finds(m, script, m.sent);
            var copies := searched && !inInbox && (inSent || (script.send.Completes? && script.visibleAtPoll < 4));
            && r.mailbox.replies == m.replies + (if searched && !inInbox && !inSent && !script.send.FailsBefore? then 1 else 0)
            && m.inbox <= r.mailbox.inbox
            && |r.mailbox.inbox| == |m.inbox| + (if copies && !script.copy.FailsBefore? then 1 else 0)
            && (r.completed <==>
                  || (searched && inInbox && (inSent ==> script.delete.Completes?))
                  || (copies && script.copy.Completes? && script.delete.Completes?))
  {
    FindsIff(m, script);
    hide Finds;
    hide FirstVisible;
    var seen := Look(m, script);
    if FirstVisible(seen.sent, seen.hidden).None? { SendIsFound(seen, script); }
  }

  lemma SendIsFound(m: Mailbox, script: Script)
    requires FirstVisible(m.sent, m.hidden).None?
    ensures var found := FindSent(Send(m), script);
            && (found.1.Some? <==> script.visibleAtPoll < 4)
            && found.0 == Send(m).(hidden := found.0.hidden)
  {
    NothingVisibleAfterSend(m);
    var shown := Send(m).(hidden := Send(m).hidden - Ids(Send(m).sent));
    assert m.next in shown.sent && m.next !in shown.hidden;
    VisibleIff(shown.sent, shown.hidden);
  }

  /** A reply leaves Sent Items if and only if it was found there and its inbox copy is there or was just made; nothing
      else leaves, and what was sent stays unless it was copied. */
  lemma SentAfterIff(m: Mailbox, script: Script)
    ensures var r := Attempt(m, script);
            var searched := script.searchesBeforeFailure >= 2;
            var inInbox, inSent := Finds(m, script, m.inbox), Finds(m, script, m.sent);
            && (!searched || (inInbox && !inSent) ==> r.mailbox.sent == m.sent)
            && (searched && inSent ==>
                  if !script.delete.FailsBefore? && (inInbox || script.copy.Completes?)
                  then exists id :: id in m.sent && r.mailbox.sent == Without(m.sent, id)
                  else r.mailbox.sent == m.sent)
            && (searched && !inInbox && !inSent ==>
                  if script.send.FailsBefore? then r.mailbox.sent == m.sent
                  else if FindsIt(script) && script.copy.Completes? && !script.delete.FailsBefore?
                  then |r.mailbox.sent| <= |m.sent|
                  else r.mailbox.sent == m.sent + [m.next])
  {
    FindsIff(m, script);
    VisibleIff(m.sent, Look(m, script).hidden);
    hide Finds;
    hide FirstVisible;
    hide Without;
    var seen := Look(m, script);
    if script.searchesBeforeFailure >= 2 && Finds(m, script, m.sent) {
      assert Attempt(m, script).mailbox.sent in
        {m.sent, Without(m.sent, FirstVisible(seen.sent, seen.hidden).value)};
    }
    if FirstVisible(seen.sent, seen.hidden).None? {
      SendIsFound(seen, script);
      var found := FindSent(Send(seen), script);
      if found.1.Some? { FoundWithout(seen, script); }
    }
  }

  lemma {:induction false} WithoutShorter(folder: seq<nat>, id: nat)
    ensures |Without(folder, id)| <= |folder| - (if id in folder then 1 else 0)
  {
    if folder != [] {
      WithoutShorter(folder[1..], id);
      assert id in folder <==> id == folder[0] || id in folder[1..];
    }
  }

  lemma FoundWithout(m: Mailbox, script: Script)
    requires FindSent(Send(m), script).1.Some?
    ensures |Without(m.sent + [m.next], FindSent(Send(m), script).1.value)| <= |m.sent|
  {
    var found := FindSent(Send(m), script);
    VisibleIff(Send(m).sent, found.0.hidden);
    WithoutShorter(m.sent + [m.next], found.1.value);
  }

  // ---------- Any number of attempts ----------

  /** At most one reply and one inbox copy, and a reply that was sent is still in one of the folders. */
  predicate Inv(m: Mailbox) {
    && m.replies <= 1 && |m.inbox| <= 1 && |m.sent| <= 1
    && (m.replies == 0 ==> m.inbox == [] && m.sent == [])
    && (m.replies == 1 ==> m.inbox != [] || m.sent != [])
  }

  lemma SingleFolder(folder: seq<nat>, hidden: set<nat>, id: nat)
    requires |folder| <= 1
    ensures FirstVisible(folder, hidden) == if folder == [] || folder[0] in hidden then None else Some(folder[0])
    ensures Without(folder, id) == if folder == [id] then [] else folder
  {
    if folder != [] { assert folder[1..] == []; }
  }

  predicate Shown(folder: seq<nat>, hidden: set<nat>) {
    FirstVisible(folder, hidden).Some?
  }

  /** The attempt gets past its first two searches without having found an inbox copy. */
  predicate MissesInbox(m: Mailbox, script: Script) {
    script.searchesBeforeFailure >= 2 && !Shown(m.inbox, m.hidden)
  }

  /** A reply is out, neither folder shows anything, and the send takes effect again. */
  predicate RepliesAgain(m: Mailbox, script: Script) {
    m.replies == 1 && MissesInbox(m, script) && !Shown(m.sent, m.hidden) && !script.send.FailsBefore?
  }

  /** An inbox copy is there but not shown, and the reply in Sent Items, one shown at once or one sent and found
      by the polls, is copied with effect. */
  predicate CopiesAgain(m: Mailbox, script: Script) {
    && m.inbox != [] && MissesInbox(m, script) && !script.copy.FailsBefore?
    && (Shown(m.sent, m.hidden) || (script.send.Completes? && script.visibleAtPoll < POLLS))
  }

  predicate Doubles(m: Mailbox, script: Script) {
    RepliesAgain(Look(m, script), script) || CopiesAgain(Look(m, script), script)
  }

  predicate OneEach(m: Mailbox) {
    m.replies <= 1 && |m.inbox| <= 1
  }

  lemma SentIsFound(m: Mailbox, script: Script)
    requires Inv(m) && !Shown(m.sent, m.hidden)
    ensures var found := FindSent(Send(m), script);
            && (found.1.Some? <==> script.visibleAtPoll < POLLS)
            && found.0.(hidden := {}) == Send(m).(hidden := {})
            && (m.sent == [] && found.1.Some? ==> found.1.value == m.next)
  {
    NothingVisibleAfterSend(m);
    var s := Send(m);
    assert s.sent == m.sent + [m.next] && s.sent[0] in Ids(s.sent);
    if m.sent == [] { assert s.sent == [m.next]; }
  }

  /** When the inbox shows a copy, the attempt does nothing but clean up. */
  lemma InboxSeen(m: Mailbox, script: Script)
    requires Inv(m) && Shown(Look(m, script).inbox, Look(m, script).hidden) && script.searchesBeforeFailure >= 2
    ensures var r, seen := Attempt(m, script), Look(m, script);
            var clears := Shown(seen.sent, seen.hidden) && !script.delete.FailsBefore?;
            && r.mailbox.replies == m.replies && r.mailbox.inbox == m.inbox
            && r.mailbox.sent == (if clears then [] else m.sent)
            && (r.completed <==> !Shown(seen.sent, seen.hidden) || script.delete.Completes?)
  {
    hide Send;
    hide FindSent;
    var seen := Look(m, script);
    SingleFolder(seen.sent, seen.hidden, if seen.sent == [] then 0 else seen.sent[0]);
  }

  /** When only Sent Items show the reply, it is copied and deleted. */
  lemma SentSeen(m: Mailbox, script: Script)
    requires Inv(m) && !Shown(Look(m, script).inbox, Look(m, script).hidden) && script.searchesBeforeFailure >= 2
    requires Shown(Look(m, script).sent, Look(m, script).hidden)
    ensures var r := Attempt(m, script);
            && r.mailbox.replies == m.replies && m.sent != []
            && |r.mailbox.inbox| == |m.inbox| + (if script.copy.FailsBefore? then 0 else 1)
            && r.mailbox.sent == (if script.copy.Completes? && !script.delete.FailsBefore? then [] else m.sent)
            && (r.completed <==> script.copy.Completes? && script.delete.Completes?)
  {
    hide Send;
    hide FindSent;
    var seen := Look(m, script);
    SingleFolder(seen.sent, seen.hidden, if seen.sent == [] then 0 else seen.sent[0]);
  }

  lemma NotSearched(m: Mailbox, script: Script)
    requires script.searchesBeforeFailure < 2
    ensures Attempt(m, script) == Result(Look(m, script), false)
  {
  }

  predicate FindsIt(script: Script) {
    script.send.Completes? && script.visibleAtPoll < POLLS
  }

  /** When neither does, a reply is sent, and copied and deleted if the polls find it. */
  lemma NoneSeen(m: Mailbox, script: Script)
    requires Inv(m) && !Shown(Look(m, script).inbox, Look(m, script).hidden) && script.searchesBeforeFailure >= 2
    requires !Shown(Look(m, script).sent, Look(m, script).hidden)
    ensures var r := Attempt(m, script);
            && r.mailbox.replies == m.replies + (if script.send.FailsBefore? then 0 else 1)
            && |r.mailbox.inbox| == |m.inbox| + (if FindsIt(script) && !script.copy.FailsBefore? then 1 else 0)
            && (script.send.FailsBefore? ==> r.mailbox.inbox == m.inbox && r.mailbox.sent == m.sent)
            && (m.sent == [] && !script.send.FailsBefore? ==>
                  |r.mailbox.sent| == if FindsIt(script) && script.copy.Completes? && !script.delete.FailsBefore? then 0 else 1)
            && (r.completed <==> FindsIt(script) && script.copy.Completes? && script.delete.Completes?)
  {
    var seen := Look(m, script);
    SentIsFound(seen, script);
    var found := FindSent(Send(seen), script);
    SendAdds(seen);
    hide FindSent;
    hide FirstVisible;
    hide Send;
    SingleFolder([m.next], {}, m.next);
    assert [] + [m.next] == [m.next];
  }

  lemma SendAdds(m: Mailbox)
    ensures var s := Send(m);
            s.inbox == m.inbox && s.sent == m.sent + [m.next] && s.replies == m.replies + 1 && s.next == m.next + 1
  {
  }

  lemma ShownIsThere(m: Mailbox, script: Script)
    ensures var seen := Look(m, script);
            && (Shown(seen.inbox, seen.hidden) ==> m.inbox != []) && (Shown(seen.sent, seen.hidden) ==> m.sent != [])
  {
  }

  /** Which attempts, from a mailbox in order, send a second reply, and which make a second inbox copy. */
  lemma AttemptDoublesIff(m: Mailbox, script: Script)
    requires Inv(m)
    ensures var r := Attempt(m, script).mailbox;
            && (r.replies > 1 <==> RepliesAgain(Look(m, script), script))
            && (|r.inbox| > 1 <==> CopiesAgain(Look(m, script), script))
            && (OneEach(r) <==> Inv(r))
  {
    hide Attempt;
    ShownIsThere(m, script);
    hide Shown;
    var seen := Look(m, script);
    if script.searchesBeforeFailure < 2 {
      NotSearched(m, script);
    } else if Shown(seen.inbox, seen.hidden) {
      InboxSeen(m, script);
    } else if Shown(seen.sent, seen.hidden) {
      SentSeen(m, script);
    } else {
      NoneSeen(m, script);
    }
  }

  /** A copy that exists is shown; and while there is none, a sent reply is. */
  predicate SafeView(m: Mailbox) {
    (m.inbox != [] ==> Shown(m.inbox, m.hidden)) && (m.inbox == [] && m.sent != [] ==> Shown(m.sent, m.hidden))
  }

  /** What the index shows is safe, whatever the calls of the attempt then do, if and only if it shows a copy
      that exists and, while there is none, a sent reply that exists. */
  lemma SafeViewIff(m: Mailbox, view: Script)
    requires Inv(m)
    ensures SafeView(Look(m, view))
            <==> forall n, send, poll, copy, delete ::
                   OneEach(Attempt(m, view.(searchesBeforeFailure := n, send := send, visibleAtPoll := poll,
                                            copy := copy, delete := delete)).mailbox)
  {
    if SafeView(Look(m, view)) {
      forall n, send, poll, copy, delete
        ensures OneEach(Attempt(m, view.(searchesBeforeFailure := n, send := send, visibleAtPoll := poll,
                                         copy := copy, delete := delete)).mailbox)
      {
        SafeAttempt(m, view.(searchesBeforeFailure := n, send := send, visibleAtPoll := poll, copy := copy, delete := delete));
      }
    } else {
      var worst := view.(searchesBeforeFailure := 2, send := Completes, visibleAtPoll := 0, copy := Completes,
                         delete := Completes);
      AttemptDoublesIff(m, worst);
      assert Look(m, worst) == Look(m, view);
      assert Doubles(m, worst);
      assert !OneEach(Attempt(m, worst).mailbox);
    }
  }

  lemma SafeAttempt(m: Mailbox, script: Script)
    requires Inv(m) && SafeView(Look(m, script))
    ensures Inv(Attempt(m, script).mailbox)
  {
    AttemptDoublesIff(m, script);
  }

  /** An attempt that completes in safe view leaves one inbox copy, and nothing in Sent Items unless the copy was
      found and a leftover in Sent Items was not shown. */
  lemma CompletedAttempt(m: Mailbox, script: Script)
    requires Inv(m) && SafeView(Look(m, script)) && Attempt(m, script).completed
    ensures var r, seen := Attempt(m, script).mailbox, Look(m, script);
            && |r.inbox| == 1 && r.replies == 1
            && (r.sent == [] <==> !(m.inbox != [] && m.sent != [] && !Shown(seen.sent, seen.hidden)))
  {
    hide Attempt;
    ShownIsThere(m, script);
    hide Shown;
    var seen := Look(m, script);
    if script.searchesBeforeFailure < 2 {
      NotSearched(m, script);
    } else if Shown(seen.inbox, seen.hidden) {
      InboxSeen(m, script);
    } else if Shown(seen.sent, seen.hidden) {
      SentSeen(m, script);
    } else {
      NoneSeen(m, script);
    }
  }

  function Retry(scripts: seq<Script>): Mailbox {
    if scripts == [] then EMPTY else Attempt(Retry(scripts[..|scripts| - 1]), scripts[|scripts| - 1]).mailbox
  }

  predicate NeverDoubles(scripts: seq<Script>) {
    scripts == []
    || (NeverDoubles(scripts[..|scripts| - 1]) && !Doubles(Retry(scripts[..|scripts| - 1]), scripts[|scripts| - 1]))
  }

  predicate AlwaysOneEach(scripts: seq<Script>) {
    forall k :: 0 <= k <= |scripts| ==> OneEach(Retry(scripts[..k]))
  }

  lemma AlwaysOneEachSnoc(scripts: seq<Script>)
    requires scripts != []
    ensures AlwaysOneEach(scripts) <==> AlwaysOneEach(scripts[..|scripts| - 1]) && OneEach(Retry(scripts))
  {
    hide Retry;
    hide OneEach;
    var init := scripts[..|scripts| - 1];
    if AlwaysOneEach(scripts) {
      assert scripts[..|scripts|] == scripts;
      forall k | 0 <= k <= |init| ensures OneEach(Retry(init[..k])) {
        assert init[..k] == scripts[..k];
      }
    }
    if AlwaysOneEach(init) && OneEach(Retry(scripts)) {
      forall k | 0 <= k <= |scripts| ensures OneEach(Retry(scripts[..k])) {
        assert scripts[..k] == if k < |scripts| then init[..k] else scripts;
      }
    }
  }

  /** Over any number of attempts stopped anywhere, there is never more than one reply and one inbox copy if and
      only if no attempt starts while the index hides what would have stopped it, and then takes effect. */
  lemma {:induction false} OneReplyOneCopyIff(scripts: seq<Script>)
    ensures AlwaysOneEach(scripts) <==> NeverDoubles(scripts)
    ensures NeverDoubles(scripts) ==> Inv(Retry(scripts))
  {
    hide Attempt;
    hide Doubles;
    if scripts == [] {
      assert forall k :: 0 <= k <= 0 ==> scripts[..k] == [];
      assert Retry([]) == EMPTY;
    } else {
      var init, last := scripts[..|scripts| - 1], scripts[|scripts| - 1];
      OneReplyOneCopyIff(init);
      AlwaysOneEachSnoc(scripts);
      if NeverDoubles(init) { DoublesIff(Retry(init), last); }
    }
  }

  lemma DoublesIff(m: Mailbox, script: Script)
    requires Inv(m)
    ensures Doubles(m, script) <==> !OneEach(Attempt(m, script).mailbox)
    ensures !Doubles(m, script) ==> Inv(Attempt(m, script).mailbox)
  {
    AttemptDoublesIff(m, script);
  }

  predicate SafeRun(scripts: seq<Script>) {
    scripts == []
    || (SafeRun(scripts[..|scripts| - 1])
        && SafeView(Look(Retry(scripts[..|scripts| - 1]), scripts[|scripts| - 1])))
  }

  /** If the index shows enough whenever an attempt begins, then over any number of attempts stopped anywhere
      at most one reply is sent and at most one inbox copy exists. */
  lemma {:induction false} OneReplyOneCopy(scripts: seq<Script>)
    requires SafeRun(scripts)
    ensures Inv(Retry(scripts))
  {
    if scripts != [] {
      OneReplyOneCopy(scripts[..|scripts| - 1]);
      SafeAttempt(Retry(scripts[..|scripts| - 1]), scripts[|scripts| - 1]);
    }
  }

  /** From any mailbox in order and safely shown, an undisturbed attempt completes. */
  lemma UndisturbedAttemptCompletes(m: Mailbox, script: Script)
    requires Inv(m) && SafeView(Look(m, script)) && script.searchesBeforeFailure >= 2 && script.visibleAtPoll < POLLS
    requires script.send.Completes? && script.copy.Completes? && script.delete.Completes?
    ensures Attempt(m, script).completed
  {
    var seen := Look(m, script);
    if !Shown(seen.sent, seen.hidden) { SentIsFound(seen, script); }
  }

  lemma TwoAttempts(a: Script, b: Script)
    ensures Retry([a]) == Attempt(EMPTY, a).mailbox && Retry([a, b]) == Attempt(Attempt(EMPTY, a).mailbox, b).mailbox
  {
    assert Retry([]) == EMPTY;
    assert [a][..0] == [] && [a, b][..1] == [a];
  }

  /** Without any condition on the index a retry sends a second reply. */
  lemma LaggingIndexSendsTwice()
    ensures exists scripts :: Retry(scripts).replies == 2
  {
    var stopped := Script(false, false, 2, FailsAfter, 0, Completes, Completes);
    TwoAttempts(stopped, stopped);
    var m := Attempt(EMPTY, stopped).mailbox;
    assert m == Send(EMPTY);
    AttemptDoublesIff(m, stopped);
    SingleFolder([0], {0}, 0);
    assert m.sent == [0];
    assert Retry([stopped, stopped]).replies == 2;
  }

  lemma CopiedFrom(script: Script) returns (m: Mailbox)
    requires script.searchesBeforeFailure >= 2 && script.send.Completes? && script.visibleAtPoll == 0
    ensures m == Mailbox([1], [0], {1}, 1, 2)
    ensures Attempt(EMPTY, script)
            == match script.copy
               case FailsBefore => Result(Mailbox([], [0], {}, 1, 1), false)
               case FailsAfter => Result(m, false)
               case Completes => FinishDelete(m, 0, script.delete)
  {
    m := Mailbox([1], [0], {1}, 1, 2);
    var seen := Look(EMPTY, script);
    assert seen == EMPTY && Send(EMPTY) == Mailbox([], [0], {0}, 1, 1);
    var shown := Mailbox([], [0], {}, 1, 1);
    assert Send(EMPTY).hidden - Ids([0]) == {};
    assert FindSent(Send(EMPTY), script) == (shown, Some(0));
    assert Copy(shown) == m;
  }

  /** That Sent Items is always shown is not enough: a copy the index still hides, after a delete that took
      effect, gets a second reply. */
  lemma InboxLagSendsTwice()
    ensures exists scripts: seq<Script> :: (forall script :: script in scripts ==> script.sentCaughtUp) && Retry(scripts).replies == 2
  {
    var first := Script(false, true, 2, Completes, 0, Completes, FailsAfter);
    TwoAttempts(first, first);
    var copied := CopiedFrom(first);
    var m := Attempt(EMPTY, first).mailbox;
    SingleFolder([0], {}, 0);
    assert m == Mailbox([1], [], {1}, 1, 2);
    SingleFolder([1], {1}, 1);
    AttemptDoublesIff(m, first);
    assert Retry([first, first]).replies > 1;
    assert Attempt(m, first).mailbox.replies <= 2;
  }
}
