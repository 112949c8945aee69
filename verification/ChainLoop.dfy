/** The codemod's loop as it runs on every text, a scan that gets lost in an unclosed comment included: such a scan
    may end anywhere, in front of its own call too, and the loop may go back or never end. */
module ChainLoop {
  import opened ArgumentSplit
  import opened ChainRewrite
  import opened ChainScanner
  import opened Positions
  import opened Wrappers

  // ---------- One turn ----------

  /** Where `scan_call` ends for the call that opens at `i`, if it ends; `None` is an exception. */
  function EndOf(text: string, i: nat): (r: Option<nat>)
    ensures r.Some? ==> 2 <= r.value <= |text|
  {
    if i >= |text| || text[i] != '(' then None
    else
      match ScanOutcome(text, i)
      case Closed(n) => Some(n)
      case RanOff => OutcomeIsLater(text, i); Some(|text|)
      case _ => None
  }

  /** The scan of the call at `i` never ends. */
  predicate Hangs(text: string, i: nat) {
    i < |text| && text[i] == '(' && !ScanEnds(text, i)
  }

  lemma OutcomeIsLater(text: string, i: nat)
    requires ScanOutcome(text, i) == RanOff
    ensures |text| >= 2
  {
    var first := CallFrom(text, i + 1, 1);
    if first.Lost? {
      AgainIsLater(text, first.depth);
    } else {
      RanOffInComment(text, i + 1, 1);
    }
  }

  lemma {:induction false} AgainIsLater(text: string, depth: nat)
    requires depth > 0 && Again(text, depth) == RanOff
    ensures |text| >= 2
    decreases depth
  {
    var r := CallFrom(text, 1, depth);
    if r.Lost? && r.depth < depth {
      AgainIsLater(text, r.depth);
    } else {
      RanOffInComment(text, 1, depth);
    }
  }

  /** `text[a:b]`: empty when it ends before it begins. */
  function Slice(text: string, a: nat, b: nat): string {
    if a <= b <= |text| then text[a..b] else ""
  }

  /** `strip_results_then`: where the text goes on behind `i`. */
  function AfterThen(text: string, i: nat): (r: Option<nat>)
    requires i <= |text|
    ensures r.Some? ==> r.value <= |text|
  {
    var c := SkipSpace(text, i);
    if !At(text, c, ".then") then Some(i)
    else
      var end := EndOf(text, c + 5);
      if end.None? then None
      else if Contains(Slice(text, c + 6, end.value - 1), "results") then end
      else Some(i)
  }

  predicate ThenHangs(text: string, i: nat)
    requires i <= |text|
  {
    At(text, SkipSpace(text, i), ".then") && Hangs(text, SkipSpace(text, i) + 5)
  }

  /** What one turn of the loop makes of the `this.database` at `start`; `Derail` if one of its scans never ends. */
  function Turn(text: string, start: nat): (r: Decision)
    requires At(text, start, HEAD)
    ensures r.Skip? || r.Replace? ==> r.next <= |text|
  {
    var c1 := SkipSpace(text, start + |HEAD|);
    if !At(text, c1, ".prepare") then Skip(start + |HEAD|)
    else
      var sqlEnd := EndOf(text, c1 + 8);
      if Hangs(text, c1 + 8) then Derail
      else if sqlEnd.None? then Throw
      else BindTurn(text, c1 + 8, sqlEnd.value)
  }

  function BindTurn(text: string, sqlOpen: nat, sqlEnd: nat): (r: Decision)
    requires 2 <= sqlEnd <= |text|
    ensures r.Skip? || r.Replace? ==> r.next <= |text|
  {
    var c2 := SkipSpace(text, sqlEnd);
    if !At(text, c2, ".bind") then Skip(sqlEnd)
    else
      var bindEnd := EndOf(text, c2 + 5);
      if Hangs(text, c2 + 5) then Derail
      else if bindEnd.None? then Throw
      else
        var segments := Segments(Slice(text, c2 + 6, bindEnd.value - 1));
        if segments.None? then Throw
        else LastTurn(text, Slice(text, sqlOpen + 1, sqlEnd - 1), bindEnd.value, Arguments(segments.value))
  }

  function LastTurn(text: string, sql: string, bindEnd: nat, arguments: seq<string>): (r: Decision)
    requires bindEnd <= |text|
    ensures r.Skip? || r.Replace? ==> r.next <= |text|
  {
    var c3 := SkipSpace(text, bindEnd);
    var verb := VerbAt(text, c3, 0);
    if verb.None? then Skip(bindEnd)
    else
      var verbEnd := c3 + 1 + |VERBS[verb.value]|;
      var after := TypeEnd(text, verbEnd);
      if after.None? then Throw
      else if !At(text, after.value, "()") then Skip(bindEnd)
      else
        var next := AfterThen(text, after.value + 2);
        if ThenHangs(text, after.value + 2) then Derail
        else if next.None? then Throw
        else Replace(Replacement(VERBS[verb.value], text[verbEnd..after.value], sql, arguments), next.value)
  }

  method ScanAt(text: string, i: nat) returns (end: Option<nat>)
    requires !Hangs(text, i)
    ensures end == EndOf(text, i)
  {
    if i >= |text| || text[i] != '(' { return None; }
    end := ScanCall(text, i);
  }

  /** `strip_results_then`; the text behind `next` is what it returns. */
  method StripResultsThen(text: string, pos: nat) returns (next: Option<nat>)
    requires pos <= |text| && !ThenHangs(text, pos)
    ensures next == AfterThen(text, pos)
  {
    hide EndOf;
    var cursor := SkipSpace(text, pos);
    if !At(text, cursor, ".then") { return Some(pos); }
    cursor := cursor + 5;
    var end := ScanAt(text, cursor);
    if end.None? { return None; }
    var body := Slice(text, cursor + 1, end.value - 1);
    if !Contains(body, "results") { return Some(pos); }
    return end;
  }

  /** One turn of the loop of `rewrite`. */
  method ReadChain(t: string, start: nat) returns (d: Decision)
    requires At(t, start, HEAD) && Turn(t, start) != Derail
    ensures d == Turn(t, start)
  {
    hide SkipSpace;
    hide EndOf;
    hide Hangs;
    hide BindTurn;
    var cursor := SkipSpace(t, start + |HEAD|);
    if !At(t, cursor, ".prepare") { return Skip(start + |HEAD|); }
    var sqlOpen := cursor + 8;
    var sqlEnd := ScanAt(t, sqlOpen);
    if sqlEnd.None? { return Throw; }
    d := ReadBind(t, sqlOpen, sqlEnd.value);
  }

  method ReadBind(t: string, sqlOpen: nat, sqlEnd: nat) returns (d: Decision)
    requires 2 <= sqlEnd <= |t| && BindTurn(t, sqlOpen, sqlEnd) != Derail
    ensures d == BindTurn(t, sqlOpen, sqlEnd)
  {
    hide SkipSpace;
    hide EndOf;
    hide Segments;
    hide LastTurn;
    hide Hangs;
    hide Slice;
    var sql := Slice(t, sqlOpen + 1, sqlEnd - 1);
    var cursor := SkipSpace(t, sqlEnd);
    if !At(t, cursor, ".bind") { return Skip(sqlEnd); }
    var bindOpen := cursor + 5;
    var bindEnd := ScanAt(t, bindOpen);
    if bindEnd.None? { return Throw; }
    var bindings := SplitArgs(Slice(t, bindOpen + 1, bindEnd.value - 1));
    if bindings.None? { return Throw; }
    d := ReadVerb(t, sql, bindEnd.value, bindings.value);
  }

  method ReadVerb(t: string, sql: string, bindEnd: nat, bindings: seq<string>) returns (d: Decision)
    requires bindEnd <= |t| && LastTurn(t, sql, bindEnd, bindings) != Derail
    ensures d == LastTurn(t, sql, bindEnd, bindings)
  {
    hide SkipSpace;
    hide VerbAt;
    hide TypeEnd;
    hide AfterThen;
    hide Replacement;
    var cursor := SkipSpace(t, bindEnd);
    var verb := VerbAt(t, cursor, 0);
    if verb.None? { return Skip(bindEnd); }
    var verbEnd := cursor + 1 + |VERBS[verb.value]|;
    var after := TypeEnd(t, verbEnd);
    if after.None? { return Throw; }
    if !At(t, after.value, "()") { return Skip(bindEnd); }
    var replacement := Replacement(VERBS[verb.value], t[verbEnd..after.value], sql, bindings);
    var next := StripResultsThen(t, after.value + 2);
    if next.None? { return Throw; }
    return Replace(replacement, next.value);
  }

  // ---------- The loop ----------

  datatype Loop = Going(text: string, pos: nat, count: nat) | Over(outcome: Outcome)

  /** One turn; a loop in which a scan never ends stays where it is. */
  function LoopTurn(l: Loop): Loop
    requires l.Going?
  {
    var start := Find(l.text, HEAD, l.pos);
    if start.None? then Over(Done(l.text, l.count))
    else
      match Turn(l.text, start.value)
      case Throw => Over(Raised)
      case Derail => l
      case Skip(next) => Going(l.text, next, l.count)
      case Replace(replacement, next) =>
        Going(l.text[..start.value] + replacement + l.text[next..], start.value + |replacement|, l.count + 1)
  }

  function LoopTurns(l: Loop, n: nat): Loop
    decreases n
  {
    if n == 0 || l.Over? then l else LoopTurns(LoopTurn(l), n - 1)
  }

  ghost predicate RewriteEnds(text: string) {
    exists n :: LoopTurns(Going(text, 0, 0), n).Over?
  }

  /** What `rewrite` returns or raises. */
  ghost function RewriteResult(text: string): Outcome
    requires RewriteEnds(text)
  {
    var n :| LoopTurns(Going(text, 0, 0), n).Over?;
    LoopTurns(Going(text, 0, 0), n).outcome
  }

  lemma {:induction false} LoopTurnsAdd(l: Loop, m: nat, n: nat)
    ensures LoopTurns(l, m + n) == LoopTurns(LoopTurns(l, m), n)
    decreases m
  {
    hide LoopTurn;
    if m > 0 && l.Going? { LoopTurnsAdd(LoopTurn(l), m - 1, n); }
  }

  lemma OverStaysOver(l: Loop, n: nat)
    requires l.Over?
    ensures LoopTurns(l, n) == l
  {
  }

  lemma EndsOnce(l: Loop, m: nat, n: nat)
    requires LoopTurns(l, m).Over? && LoopTurns(l, n).Over?
    ensures LoopTurns(l, m) == LoopTurns(l, n)
  {
    hide LoopTurn;
    if m <= n {
      LoopTurnsAdd(l, m, n - m);
      OverStaysOver(LoopTurns(l, m), n - m);
    } else {
      LoopTurnsAdd(l, n, m - n);
      OverStaysOver(LoopTurns(l, n), m - n);
    }
  }

  lemma {:induction false} StuckNeverEnds(l: Loop, n: nat)
    requires l.Going? && LoopTurn(l) == l
    ensures LoopTurns(l, n) == l
    decreases n
  {
    hide LoopTurn;
    if n > 0 { StuckNeverEnds(l, n - 1); }
  }

  /** What one turn makes of a loop that ends after `left` more. */
  lemma OneTurn(text: string, pos: nat, count: nat, left: nat, r: Outcome)
    requires LoopTurns(Going(text, pos, count), left) == Over(r)
    ensures left > 0 && LoopTurns(LoopTurn(Going(text, pos, count)), left - 1) == Over(r)
    ensures var start := Find(text, HEAD, pos);
            if start.None? then r == Done(text, count)
            else
              var d := Turn(text, start.value);
              && d != Derail && (d.Throw? ==> r == Raised)
              && (d.Skip? ==> LoopTurn(Going(text, pos, count)) == Going(text, d.next, count))
              && (d.Replace? ==>
                    LoopTurn(Going(text, pos, count))
                    == Going(text[..start.value] + d.replacement + text[d.next..], start.value + |d.replacement|, count + 1))
  {
    hide Find;
    hide Turn;
    var l := Going(text, pos, count);
    if LoopTurn(l) == l { StuckNeverEnds(l, left); }
    if LoopTurn(l).Over? { OverStaysOver(LoopTurn(l), left - 1); }
  }

  lemma SomeTurns(text: string) returns (n: nat)
    requires RewriteEnds(text)
    ensures LoopTurns(Going(text, 0, 0), n) == Over(RewriteResult(text))
  {
    hide LoopTurns;
    n :| LoopTurns(Going(text, 0, 0), n).Over? && RewriteResult(text) == LoopTurns(Going(text, 0, 0), n).outcome;
  }

  /** `rewrite`, whenever it ends. */
  method Rewrite(text: string) returns (r: Outcome)
    requires RewriteEnds(text)
    ensures r == RewriteResult(text)
  {
    hide *;
    ghost var left := SomeTurns(text);
    var t := text;
    var count: nat := 0;
    var pos: nat := 0;
    while true
      invariant LoopTurns(Going(t, pos, count), left) == Over(RewriteResult(text))
      decreases left
    {
      OneTurn(t, pos, count, left, RewriteResult(text));
      left := left - 1;
      var found := Find(t, HEAD, pos);
      if found.None? { break; }
      var start := found.value;
      AtFits(t, start, HEAD);
      var d := ReadChain(t, start);
      match d
      case Throw => return Raised;
      case Skip(next) =>
        pos := next;
      case Replace(replacement, next) =>
        t := t[..start] + replacement + t[next..];
        pos := start + |replacement|;
        count := count + 1;
    }
    return Done(t, count);
  }

  // ---------- Where no scan gets lost ----------

  lemma SameEnd(text: string, i: nat)
    requires !Derails(text, i)
    ensures !Hangs(text, i) && EndOf(text, i) == CallEnd(text, i)
  {
  }

  lemma SameSlice(text: string, a: nat, b: nat)
    requires a <= b <= |text|
    ensures Slice(text, a, b) == text[a..b]
  {
  }

  lemma SameThen(text: string, i: nat)
    requires i <= |text| && !ThenDerails(text, i)
    ensures !ThenHangs(text, i) && AfterThen(text, i) == ThenEnd(text, i)
  {
    hide EndOf;
    hide CallEnd;
    hide Derails;
    hide Hangs;
    var c := SkipSpace(text, i);
    if At(text, c, ".then") { SameEnd(text, c + 5); }
  }

  lemma SameLast(text: string, start: nat, sql: string, bindEnd: nat, arguments: seq<string>)
    requires start < bindEnd <= |text| && VerbTurn(text, start, sql, bindEnd, arguments) != Derail
    ensures LastTurn(text, sql, bindEnd, arguments) == VerbTurn(text, start, sql, bindEnd, arguments)
  {
    hide SkipSpace;
    hide VerbAt;
    hide TypeEnd;
    hide ThenEnd;
    hide AfterThen;
    hide ThenDerails;
    hide ThenHangs;
    hide Replacement;
    var c3 := SkipSpace(text, bindEnd);
    var verb := VerbAt(text, c3, 0);
    if verb.Some? {
      var after := TypeEnd(text, c3 + 1 + |VERBS[verb.value]|);
      if after.Some? && At(text, after.value, "()") { SameThen(text, after.value + 2); }
    }
  }

  lemma SameBind(text: string, start: nat, sqlOpen: nat, sqlEnd: nat)
    requires start < sqlOpen && CallEnd(text, sqlOpen) == Some(sqlEnd) && BindAt(text, start, sqlOpen, sqlEnd) != Derail
    ensures BindTurn(text, sqlOpen, sqlEnd) == BindAt(text, start, sqlOpen, sqlEnd)
  {
    hide SkipSpace;
    hide CallEnd;
    hide EndOf;
    hide Derails;
    hide Hangs;
    hide Segments;
    hide Arguments;
    hide At;
    hide VerbTurn;
    hide LastTurn;
    var c2 := SkipSpace(text, sqlEnd);
    if At(text, c2, ".bind") {
      SameEnd(text, c2 + 5);
      var bindEnd := CallEnd(text, c2 + 5);
      if bindEnd.Some? {
        var segments := Segments(text[c2 + 6..bindEnd.value - 1]);
        if segments.Some? {
          SameLast(text, start, text[sqlOpen + 1..sqlEnd - 1], bindEnd.value, Arguments(segments.value));
        }
      }
    }
  }

  /** When no scan of a turn gets lost, the turn is the decision about the chain there. */
  lemma TurnIsDecision(text: string, start: nat)
    requires At(text, start, HEAD) && ChainAt(text, start) != Derail
    ensures Turn(text, start) == ChainAt(text, start)
  {
    hide SkipSpace;
    hide CallEnd;
    hide EndOf;
    hide Derails;
    hide Hangs;
    hide BindAt;
    hide BindTurn;
    var c1 := SkipSpace(text, start + |HEAD|);
    if At(text, c1, ".prepare") {
      SameEnd(text, c1 + 8);
      var sqlEnd := CallEnd(text, c1 + 8);
      if sqlEnd.Some? { SameBind(text, start, c1 + 8, sqlEnd.value); }
    }
  }

  lemma {:induction false} LoopReaches(text: string, pos: nat, count: nat) returns (n: nat)
    requires pos <= |text| && RewriteFrom(text, pos, count) != Derailed
    ensures LoopTurns(Going(text, pos, count), n) == Over(RewriteFrom(text, pos, count))
    decreases |text| - pos
  {
    hide Find;
    hide ChainAt;
    hide Turn;
    var found := Find(text, HEAD, pos);
    if found.None? {
      n := 1;
    } else {
      var start := found.value;
      TurnIsDecision(text, start);
      match ChainAt(text, start)
      case Throw =>
        n := 1;
      case Skip(next) =>
        var m := LoopReaches(text, next, count);
        n := m + 1;
      case Replace(replacement, next) =>
        var m := LoopReaches(text[..start] + replacement + text[next..], start + |replacement|, count + 1);
        n := m + 1;
    }
  }

  /** On a text on which no scan gets lost the loop ends, with the rewritten text. */
  lemma RewriteIsExact(text: string)
    requires RewriteFrom(text, 0, 0) != Derailed
    ensures RewriteEnds(text) && RewriteResult(text) == RewriteFrom(text, 0, 0)
  {
    hide LoopTurns;
    var n := LoopReaches(text, 0, 0);
    var m :| LoopTurns(Going(text, 0, 0), m).Over? && RewriteResult(text) == LoopTurns(Going(text, 0, 0), m).outcome;
    EndsOnce(Going(text, 0, 0), m, n);
  }
}
