/** The codemod: chains `this.database.prepare(sql).bind(args).verb()` become `this.verb(sql, [args])`, in
    place, and everything else stays as it is. */
module ChainRewrite {
  import opened ArgumentSplit
  import opened ChainScanner
  import opened Positions
  import opened Wrappers

  const VERBS: seq<string> := ["all", "first", "run", "batch"]

  const HEAD := "this.database"

  // ---------- The pieces of the search ----------

  /** `text.find(pattern, i)`. */
  function Find(text: string, pattern: string, i: nat): (r: Option<nat>)
    ensures r.Some? ==> i <= r.value && At(text, r.value, pattern)
    ensures forall k :: i <= k < (if r.Some? then r.value else |text|) ==> !At(text, k, pattern)
    decreases |text| - i
  {
    if i >= |text| then (if At(text, i, pattern) then Some(i) else None)
    else if At(text, i, pattern) then Some(i)
    else Find(text, pattern, i + 1)
  }

  /** The end of the space that `\s*` matches at `i`. */
  function SkipSpace(text: string, i: nat): (r: nat)
    requires i <= |text|
    ensures i <= r <= |text| && AllSpace(text[i..r])
    decreases |text| - i
  {
    if i < |text| && IsSpace(text[i]) then
      var r := SkipSpace(text, i + 1);
      assert text[i..r] == [text[i]] + text[i + 1..r];
      r
    else i
  }

  predicate AllSpace(s: string) {
    forall c :: c in s ==> IsSpace(c)
  }

  /** The end of the call that opens at `i`.  `None` is an exception: the AssertionError or IndexError of a
      missing parenthesis, or the ValueError of an unbalanced call. */
  function CallEnd(text: string, i: nat): (r: Option<nat>)
    ensures r.Some? ==> i + 2 <= r.value <= |text| && text[i] == '('
  {
    if i >= |text| || text[i] != '(' then None
    else
      match CallFrom(text, i + 1, 1)
      case Closed(n) => Some(n)
      case RanOff => RanOffIsLater(text, i); Some(|text|)
      case _ => None
  }

  /** The scan of the call at `i` meets a block comment that is never closed and goes astray. */
  predicate Derails(text: string, i: nat) {
    i < |text| && text[i] == '(' && CallFrom(text, i + 1, 1).Lost?
  }

  lemma RanOffIsLater(text: string, i: nat)
    requires CallFrom(text, i + 1, 1) == RanOff
    ensures i + 2 <= |text|
  {
    RanOffInComment(text, i + 1, 1);
  }

  /** The first verb, from number `v` on, that stands behind a dot at `i`. */
  function VerbAt(text: string, i: nat, v: nat): (r: Option<nat>)
    ensures r.Some? ==> v <= r.value < |VERBS| && At(text, i, "." + VERBS[r.value])
    decreases |VERBS| - v
  {
    if v >= |VERBS| then None else if At(text, i, "." + VERBS[v]) then Some(v) else VerbAt(text, i, v + 1)
  }

  /** The end of the type argument at `i`, if there is one; `None` is the ValueError of a missing `>`. */
  function TypeEnd(text: string, i: nat): (r: Option<nat>)
    requires i <= |text|
    ensures r.Some? ==> i <= r.value <= |text|
  {
    if !At(text, i, "<") then Some(i)
    else
      var close := Find(text, ">", i);
      if close.None? then None else Some(close.value + 1)
  }

  predicate Contains(s: string, pattern: string) {
    exists k :: 0 <= k <= |s| && At(s, k, pattern)
  }

  /** Containing a pattern is being what stands before it, the pattern, and what stands behind it. */
  lemma ContainsIff(s: string, pattern: string)
    ensures Contains(s, pattern) <==> exists before: string, after: string :: s == before + pattern + after
  {
    if Contains(s, pattern) {
      var k :| 0 <= k <= |s| && At(s, k, pattern);
      AtSlice(s, k, k + |pattern|, pattern);
      assert s == s[..k] + pattern + s[k + |pattern|..];
    }
    if before: string, after: string :| s == before + pattern + after {
      AtWhole(s);
      AtSplit(s, 0, before + pattern, after);
      AtSplit(s, 0, before, pattern);
    }
  }

  /** `strip_results_then`: where the text goes on behind `i`, past a `.then(...)` that mentions `results`. */
  function ThenEnd(text: string, i: nat): (r: Option<nat>)
    requires i <= |text|
    ensures r.Some? ==> i <= r.value <= |text|
  {
    var c := SkipSpace(text, i);
    if !At(text, c, ".then") then Some(i)
    else
      var end := CallEnd(text, c + 5);
      if end.None? then None
      else if Contains(text[c + 6..end.value - 1], "results") then end
      else Some(i)
  }

  predicate ThenDerails(text: string, i: nat)
    requires i <= |text|
  {
    At(text, SkipSpace(text, i), ".then") && Derails(text, SkipSpace(text, i) + 5)
  }

  // ---------- The replacement ----------

  function DropCommas(s: string): string {
    if s != "" && s[|s| - 1] == ',' then DropCommas(s[..|s| - 1]) else s
  }

  /** Where `str.splitlines` breaks. */
  predicate IsLineBreak(c: char) {
    ('\n' <= c <= '\r') || ('\U{1C}' <= c <= '\U{1E}') || c == '\U{85}' || c == '\U{2028}' || c == '\U{2029}'
  }

  lemma LineBreakIff(c: char)
    ensures IsLineBreak(c) <==> c as int in {0xA, 0xB, 0xC, 0xD, 0x1C, 0x1D, 0x1E, 0x85, 0x2028, 0x2029}
  {
  }

  /** The lines of `s`; the empty ones that a two-character line break adds are dropped with all others. */
  function Lines(s: string): (r: seq<string>)
    ensures r != []
  {
    if s == "" then [""]
    else
      var later := Lines(s[1..]);
      if IsLineBreak(s[0]) then [""] + later else [[s[0]] + later[0]] + later[1..]
  }

  function NotEmpty(parts: seq<string>): seq<string> {
    if parts == [] then [] else (if parts[0] == "" then [] else [parts[0]]) + NotEmpty(parts[1..])
  }

  /** The query on one line. */
  function Flatten(sql: string): string {
    Join(" ", NotEmpty(StripAll(Lines(DropCommas(Strip(sql))))))
  }

  function Replacement(verb: string, typeArg: string, sql: string, arguments: seq<string>): string {
    "this." + verb + typeArg + "(" + Flatten(sql) + ", [" + Join(", ", arguments) + "])"
  }

  // ---------- One chain ----------

  datatype Decision =
    | Skip(next: nat)
    | Replace(replacement: string, next: nat)
    | Throw
    | Derail

  /** What one turn of the loop makes of the `this.database` at `start`. */
  function ChainAt(text: string, start: nat): (r: Decision)
    requires At(text, start, HEAD)
    ensures r.Skip? || r.Replace? ==> start < r.next <= |text|
  {
    var c1 := SkipSpace(text, start + |HEAD|);
    if !At(text, c1, ".prepare") then Skip(start + |HEAD|)
    else
      var sqlEnd := CallEnd(text, c1 + 8);
      if Derails(text, c1 + 8) then Derail
      else if sqlEnd.None? then Throw
      else BindAt(text, start, c1 + 8, sqlEnd.value)
  }

  function BindAt(text: string, start: nat, sqlOpen: nat, sqlEnd: nat): (r: Decision)
    requires start < sqlOpen && CallEnd(text, sqlOpen) == Some(sqlEnd)
    ensures r.Skip? || r.Replace? ==> start < r.next <= |text|
  {
    var c2 := SkipSpace(text, sqlEnd);
    if !At(text, c2, ".bind") then Skip(sqlEnd)
    else
      var bindEnd := CallEnd(text, c2 + 5);
      if Derails(text, c2 + 5) then Derail
      else if bindEnd.None? then Throw
      else
        var segments := Segments(text[c2 + 6..bindEnd.value - 1]);
        if segments.None? then Throw
        else VerbTurn(text, start, text[sqlOpen + 1..sqlEnd - 1], bindEnd.value, Arguments(segments.value))
  }

  function VerbTurn(text: string, start: nat, sql: string, bindEnd: nat, arguments: seq<string>): (r: Decision)
    requires start < bindEnd <= |text|
    ensures r.Skip? || r.Replace? ==> start < r.next <= |text|
  {
    var c3 := SkipSpace(text, bindEnd);
    var verb := VerbAt(text, c3, 0);
    if verb.None? then Skip(bindEnd)
    else
      var verbEnd := c3 + 1 + |VERBS[verb.value]|;
      var after := TypeEnd(text, verbEnd);
      if after.None? then Throw
      else if !At(text, after.value, "()") then Skip(bindEnd)
      else
        var next := ThenEnd(text, after.value + 2);
        if ThenDerails(text, after.value + 2) then Derail
        else if next.None? then Throw
        else Replace(Replacement(VERBS[verb.value], text[verbEnd..after.value], sql, arguments), next.value)
  }

  // ---------- The whole text ----------

  /** `Derailed` stands for whatever follows when a scan meets an unclosed block comment. */
  datatype Outcome = Done(text: string, count: nat) | Raised | Derailed

  /** The text that the loop leaves when it is at `pos`. */
  function RewriteFrom(text: string, pos: nat, count: nat): Outcome
    requires pos <= |text|
    decreases |text| - pos
  {
    var start := Find(text, HEAD, pos);
    if start.None? then Done(text, count)
    else
      match ChainAt(text, start.value)
      case Throw => Raised
      case Derail => Derailed
      case Skip(next) => RewriteFrom(text, next, count)
      case Replace(replacement, next) =>
        RewriteFrom(text[..start.value] + replacement + text[next..], start.value + |replacement|, count + 1)
  }

  /** Comments stay closed behind a replacement. */
  lemma SuffixStaysClosed(text: string, next: nat, front: string)
    requires next <= |text| && CommentsClosed(text, next)
    ensures CommentsClosed(front + text[next..], |front|)
  {
    var t := front + text[next..];
    forall k | |front| <= k < |t| && StartsBlock(t, k) ensures BlockEnd(t, k).Some? {
      var m := k - |front| + next;
      assert t[k] == text[m] && t[k + 1] == text[m + 1];
      assert StartsBlock(text, m);
      var e := BlockEnd(text, m).value;
      var d := e - next + |front|;
      assert t[d] == text[e] && t[d + 1] == text[e + 1];
      assert EndsBlock(t, d);
    }
  }

  lemma ClosedCallEnds(text: string, pos: nat, i: nat)
    requires CommentsClosed(text, pos) && pos <= i
    ensures !Derails(text, i)
  {
    if i < |text| { NotLost(text, i + 1, 1); }
  }

  lemma ClosedChainEnds(text: string, pos: nat, start: nat)
    requires CommentsClosed(text, pos) && pos <= start && At(text, start, HEAD)
    ensures ChainAt(text, start) != Derail
  {
    hide CommentsClosed;
    hide Derails;
    forall i: nat | pos <= i ensures !Derails(text, i) {
      ClosedCallEnds(text, pos, i);
    }
  }

  /** When every block comment is closed the loop never goes astray. */
  lemma {:induction false} ClosedTextIsRewritten(text: string, pos: nat, count: nat)
    requires pos <= |text| && CommentsClosed(text, pos)
    ensures RewriteFrom(text, pos, count) != Derailed
    decreases |text| - pos
  {
    hide ChainAt;
    hide Find;
    var found := Find(text, HEAD, pos);
    if found.Some? {
      var start := found.value;
      ClosedChainEnds(text, pos, start);
      match ChainAt(text, start)
      case Throw =>
      case Skip(next) => ClosedTextIsRewritten(text, next, count);
      case Replace(replacement, next) =>
        SuffixStaysClosed(text, next, text[..start] + replacement);
        ClosedTextIsRewritten(text[..start] + replacement + text[next..], start + |replacement|, count + 1);
    }
  }

  // ---------- What a rewrite is ----------

  /** The parts of a chain as they stand in the text; the calls keep their parentheses. */
  datatype Chain = Chain(space1: string, sqlCall: string, space2: string, bindCall: string, space3: string,
                         verb: string, typeArg: string, envelope: string)

  ghost predicate IsCall(call: string) {
    IsPiece(call, 0, |call|, '(', InCall, ')')
  }

  /** A call that runs into a line comment at the end of the text. */
  predicate RunsOff(call: string) {
    call != "" && call[0] == '(' && CallFrom(call, 1, 1) == RanOff
  }

  function Inner(call: string): string
    requires |call| >= 2
  {
    call[1..|call| - 1]
  }

  predicate IsTypeArg(s: string) {
    s == "" || (|s| > 1 && s[0] == '<' && s[|s| - 1] == '>' && '>' !in s[..|s| - 1])
  }

  /** Nothing, or a `.then(...)` that mentions `results` and, like a chain itself, may stand behind space. */
  ghost predicate IsEnvelope(s: string) {
    s == ""
    || exists space, call ::
         && s == space + ".then" + call && AllSpace(space) && |call| >= 2 && (IsCall(call) || RunsOff(call))
         && Contains(Inner(call), "results")
  }

  /** The four verbs whose chains are rewritten. */
  predicate IsVerb(s: string) {
    s in {"all", "first", "run", "batch"}
  }

  lemma VerbsAreWords(s: string)
    ensures s in VERBS <==> IsVerb(s)
  {
    assert VERBS[0] == "all" && VERBS[1] == "first" && VERBS[2] == "run" && VERBS[3] == "batch";
  }

  ghost predicate IsChain(c: Chain) {
    && AllSpace(c.space1) && AllSpace(c.space2) && AllSpace(c.space3)
    && |c.sqlCall| >= 2 && IsCall(c.sqlCall) && |c.bindCall| >= 2 && IsCall(c.bindCall)
    && Segments(Inner(c.bindCall)).Some? && IsVerb(c.verb) && IsTypeArg(c.typeArg) && IsEnvelope(c.envelope)
  }

  function Original(c: Chain): string {
    HEAD + c.space1 + ".prepare" + c.sqlCall + c.space2 + ".bind" + c.bindCall + c.space3
    + ("." + c.verb) + c.typeArg + "()" + c.envelope
  }

  /** The same verb called with the query on one line and the arguments in brackets. */
  function Rewritten(c: Chain): string
    requires |c.sqlCall| >= 2 && |c.bindCall| >= 2 && Segments(Inner(c.bindCall)).Some?
  {
    var arguments := Join(", ", Arguments(Segments(Inner(c.bindCall)).value));
    "this." + c.verb + c.typeArg + "(" + Flatten(Inner(c.sqlCall)) + ", [" + arguments + "])"
  }

  /** What the loop steps over in one go: `this.database`, with the call of its `prepare` and that of its `bind` as
      far as they are there. */
  ghost predicate IsSkipped(s: string) {
    || s == HEAD
    || (exists space, call :: s == HEAD + space + ".prepare" + call && AllSpace(space) && EndsCall(call))
    || (exists space1, call1, space2, call2 ::
          && s == HEAD + space1 + ".prepare" + call1 + space2 + ".bind" + call2
          && AllSpace(space1) && EndsCall(call1) && AllSpace(space2) && EndsCall(call2))
  }

  ghost predicate EndsCall(call: string) {
    IsCall(call) || RunsOff(call)
  }

  /** A text as what stays and what is rewritten. */
  datatype Piece = Kept(s: string) | Skipped(s: string) | Changed(chain: Chain)

  ghost predicate IsPieceOfRun(p: Piece) {
    match p
    case Kept(s) => !Contains(s, HEAD)
    case Skipped(s) => IsSkipped(s)
    case Changed(c) => IsChain(c)
  }

  ghost predicate ArePieces(pieces: seq<Piece>) {
    forall p :: p in pieces ==> IsPieceOfRun(p)
  }

  function PieceBefore(p: Piece): string {
    match p
    case Kept(s) => s
    case Skipped(s) => s
    case Changed(c) => Original(c)
  }

  ghost function PieceAfter(p: Piece): string
    requires IsPieceOfRun(p)
  {
    match p
    case Kept(s) => s
    case Skipped(s) => s
    case Changed(c) => Rewritten(c)
  }

  function Before(pieces: seq<Piece>): string {
    if pieces == [] then "" else PieceBefore(pieces[0]) + Before(pieces[1..])
  }

  ghost function After(pieces: seq<Piece>): string
    requires ArePieces(pieces)
  {
    if pieces == [] then ""
    else
      assert pieces[0] in pieces;
      PieceAfter(pieces[0]) + After(pieces[1..])
  }

  ghost function Changes(pieces: seq<Piece>): nat {
    if pieces == [] then 0 else (if pieces[0].Changed? then 1 else 0) + Changes(pieces[1..])
  }

  lemma InnerSlice(text: string, i: nat, n: nat)
    requires i + 2 <= n <= |text|
    ensures |text[i..n]| >= 2 && Inner(text[i..n]) == text[i + 1..n - 1]
  {
    var call, inner := text[i..n], text[i + 1..n - 1];
    forall k | 0 <= k < |inner| ensures Inner(call)[k] == inner[k] {
      assert Inner(call)[k] == call[k + 1] == text[i + 1 + k];
    }
  }

  lemma ClosedIsCall(text: string, i: nat, n: nat)
    requires i < |text| && text[i] == '(' && CallFrom(text, i + 1, 1) == Closed(n)
    ensures IsCall(text[i..n])
  {
    hide CallFrom;
    ScanCallIsExact(text, i, n);
    var b :| WellFormed(b, InCall) && text[i..n] == ['('] + Render(b) + [')'];
    assert text[i..n][0..|text[i..n]|] == text[i..n];
  }

  /** The texts are the same from `i` and `j` on. */
  predicate SameFrom(s: string, i: nat, t: string, j: nat) {
    && i <= |s| && j <= |t| && |s| - i == |t| - j
    && forall k :: i <= k < |s| ==> s[k] == t[k - i + j]
  }

  lemma SameStart(s: string, i: nat, t: string, j: nat)
    requires SameFrom(s, i, t, j)
    ensures i <= |s| && j <= |t| && |s| - i == |t| - j
    ensures i < |s| ==> t[j] == s[i]
    ensures i + 1 < |s| ==> t[j + 1] == s[i + 1]
  {
  }

  lemma SameRest(s: string, i: nat, t: string, j: nat, n: nat)
    requires SameFrom(s, i, t, j) && i <= n <= |s|
    ensures SameFrom(s, n, t, j + (n - i))
  {
  }

  lemma {:induction false} LineMoves(s: string, i: nat, t: string, j: nat)
    requires SameFrom(s, i, t, j)
    ensures LineEnd(t, j) == match LineEnd(s, i) case None => None case Some(n) => Some(j + (n - i))
    decreases |s| - i
  {
    hide SameFrom;
    SameStart(s, i, t, j);
    if i < |s| {
      SameRest(s, i, t, j, i + 1);
      LineMoves(s, i + 1, t, j + 1);
    }
  }

  lemma {:induction false} BlockMoves(s: string, i: nat, t: string, j: nat)
    requires SameFrom(s, i, t, j)
    ensures BlockEnd(t, j) == match BlockEnd(s, i) case None => None case Some(n) => Some(j + (n - i))
    decreases |s| - i
  {
    hide SameFrom;
    SameStart(s, i, t, j);
    if i < |s| {
      SameRest(s, i, t, j, i + 1);
      BlockMoves(s, i + 1, t, j + 1);
    }
  }

  lemma QuotedAgain(s: string, i: nat, t: string, j: nat, n: nat)
    requires SameFrom(s, i, t, j) && i < |s| && IsQuote(s[i]) && StringFrom(s, s[i], i + 1) == Some(n)
    ensures StringFrom(t, s[i], j + 1) == Some(j + (n - i))
  {
    hide StringFrom;
    var x := s[i + 1..n];
    forall k | 0 <= k < |x| ensures t[j + 1 + k] == x[k] {
      assert x[k] == s[i + 1 + k];
    }
    StringMoves(s, i + 1, t, j + 1, s[i]);
  }

  /** A scan that runs off the end does so on the rest of the text alone. */
  lemma {:induction false} RanOffMoves(s: string, i: nat, t: string, j: nat, depth: nat)
    requires depth > 0 && SameFrom(s, i, t, j) && CallFrom(s, i, depth) == RanOff
    ensures CallFrom(t, j, depth) == RanOff
    decreases |s| - i
  {
    hide SameFrom;
    hide IsQuote;
    hide StringFrom;
    hide LineEnd;
    hide BlockEnd;
    SameStart(s, i, t, j);
    if IsQuote(s[i]) {
      var n := StringFrom(s, s[i], i + 1).value;
      QuotedAgain(s, i, t, j, n);
      SameRest(s, i, t, j, n);
      RanOffMoves(s, n, t, j + (n - i), depth);
    } else if StartsLine(s, i) {
      LineMoves(s, i, t, j);
      if LineEnd(s, i).Some? {
        var n := LineEnd(s, i).value;
        SameRest(s, i, t, j, n);
        RanOffMoves(s, n, t, j + (n - i), depth);
      }
    } else if StartsBlock(s, i) {
      var n := BlockEnd(s, i).value;
      BlockMoves(s, i, t, j);
      SameRest(s, i, t, j, n + 2);
      RanOffMoves(s, n + 2, t, j + (n + 2 - i), depth);
    } else {
      SameRest(s, i, t, j, i + 1);
      RanOffMoves(s, i + 1, t, j + 1,
                  if s[i] == '(' then depth + 1 else if s[i] == ')' then depth - 1 else depth);
    }
  }

  lemma RestRunsOff(text: string, i: nat)
    requires i < |text| && text[i] == '(' && CallFrom(text, i + 1, 1) == RanOff
    ensures RunsOff(text[i..|text|])
  {
    var call := text[i..|text|];
    assert SameFrom(text, i + 1, call, 1);
    RanOffMoves(text, i + 1, call, 1, 1);
  }

  lemma Slices(text: string, a: nat, b: nat, c: nat)
    requires a <= b <= c <= |text|
    ensures text[a..b] + text[b..c] == text[a..c]
  {
  }

  lemma ThenIsCall(text: string, i: nat, n: nat)
    requires CallEnd(text, i) == Some(n)
    ensures |text[i..n]| >= 2 && (IsCall(text[i..n]) || RunsOff(text[i..n]))
    ensures Inner(text[i..n]) == text[i + 1..n - 1]
  {
    hide CallFrom;
    hide IsCall;
    hide RunsOff;
    InnerSlice(text, i, n);
    if CallFrom(text, i + 1, 1) == RanOff {
      RestRunsOff(text, i);
    } else {
      ClosedIsCall(text, i, n);
    }
  }

  lemma ThenFound(text: string, i: nat, c: nat, n: nat)
    requires i <= c <= |text| && AllSpace(text[i..c]) && At(text, c, ".then") && CallEnd(text, c + 5) == Some(n)
    requires Contains(text[c + 6..n - 1], "results")
    ensures IsEnvelope(text[i..n])
  {
    hide At;
    hide CallEnd;
    hide AllSpace;
    hide IsCall;
    hide RunsOff;
    hide Contains;
    var space, call := text[i..c], text[c + 5..n];
    ThenIsCall(text, c + 5, n);
    ThenSlices(text, i, c, n);
    assert text[i..n] == space + ".then" + call;
  }

  lemma ThenSlices(text: string, i: nat, c: nat, n: nat)
    requires i <= c && c + 5 <= n <= |text| && At(text, c, ".then")
    ensures text[i..n] == text[i..c] + ".then" + text[c + 5..n]
  {
    hide At;
    AtSlice(text, c, c + 5, ".then");
    Slices(text, i, c, c + 5);
    Slices(text, i, c + 5, n);
  }

  lemma EnvelopeFound(text: string, i: nat)
    requires i <= |text| && ThenEnd(text, i).Some?
    ensures IsEnvelope(text[i..ThenEnd(text, i).value])
  {
    hide At;
    hide CallEnd;
    hide SkipSpace;
    hide Contains;
    hide AllSpace;
    hide IsEnvelope;
    var c, n := SkipSpace(text, i), ThenEnd(text, i).value;
    if n == i {
      assert text[i..n] == "";
      NoEnvelope();
    } else {
      ThenFound(text, i, c, n);
    }
  }

  lemma NoEnvelope()
    ensures IsEnvelope("")
  {
  }

  lemma TypeArgFound(text: string, i: nat)
    requires i <= |text| && TypeEnd(text, i).Some?
    ensures IsTypeArg(text[i..TypeEnd(text, i).value])
  {
    if At(text, i, "<") {
      var n := Find(text, ">", i).value;
      AtHead(text, i, "<");
      AtHead(text, n, ">");
      var s := text[i..n + 1];
      assert n > i;
      forall k | 0 <= k < n - i ensures s[k] != '>' {
        assert !At(text, i + k, ">");
        AtChar(text, i + k, '>');
      }
      assert s[..|s| - 1] == text[i..n];
    }
  }

  /** From the end of the bind call to the end of the chain. */
  lemma VerbFound(text: string, start: nat, sql: string, bindEnd: nat, arguments: seq<string>)
    returns (space3: string, verb: string, typeArg: string, envelope: string)
    requires start < bindEnd <= |text| && VerbTurn(text, start, sql, bindEnd, arguments).Replace?
    ensures AllSpace(space3) && IsVerb(verb) && IsTypeArg(typeArg) && IsEnvelope(envelope)
    ensures var d := VerbTurn(text, start, sql, bindEnd, arguments);
            && bindEnd <= d.next && d.replacement == Replacement(verb, typeArg, sql, arguments)
            && text[bindEnd..d.next] == space3 + ("." + verb) + typeArg + "()" + envelope
  {
    hide At;
    hide Replacement;
    hide IsTypeArg;
    hide IsEnvelope;
    hide SkipSpace;
    hide VerbAt;
    hide TypeEnd;
    hide ThenEnd;
    var c3 := SkipSpace(text, bindEnd);
    verb := VERBS[VerbAt(text, c3, 0).value];
    VerbsAreWords(verb);
    var verbEnd := c3 + 1 + |verb|;
    var after := TypeEnd(text, verbEnd).value;
    var next := ThenEnd(text, after + 2).value;
    space3, typeArg, envelope := text[bindEnd..c3], text[verbEnd..after], text[after + 2..next];
    TypeArgFound(text, verbEnd);
    EnvelopeFound(text, after + 2);
    BackSlices(text, bindEnd, c3, "." + verb, after, next);
  }

  lemma BackSlices(text: string, bindEnd: nat, c3: nat, dotVerb: string, after: nat, next: nat)
    requires bindEnd <= c3 && c3 + |dotVerb| <= after && after + 2 <= next <= |text|
    requires At(text, c3, dotVerb) && At(text, after, "()")
    ensures text[bindEnd..next]
            == text[bindEnd..c3] + dotVerb + text[c3 + |dotVerb|..after] + "()" + text[after + 2..next]
  {
    hide At;
    AtSlice(text, c3, c3 + |dotVerb|, dotVerb);
    AtSlice(text, after, after + 2, "()");
    Slices(text, bindEnd, c3, c3 + |dotVerb|);
    Slices(text, bindEnd, c3 + |dotVerb|, after);
    Slices(text, bindEnd, after, after + 2);
    Slices(text, bindEnd, after + 2, next);
  }

  lemma ClosedBeforeVerb(text: string, i: nat, n: nat)
    requires CallEnd(text, i) == Some(n) && n < |text|
    ensures IsCall(text[i..n])
  {
    ClosedIsCall(text, i, n);
  }

  lemma {:induction false} VerbNeedsText(text: string, i: nat, v: nat)
    requires VerbAt(text, i, v).Some?
    ensures i < |text|
    decreases |VERBS| - v
  {
    AtHead(text, i, "." + VERBS[VerbAt(text, i, v).value]);
  }

  lemma FrontSlices(text: string, start: nat, c1: nat, sqlEnd: nat, c2: nat, bindEnd: nat)
    requires At(text, start, HEAD) && At(text, c1, ".prepare") && At(text, c2, ".bind")
    requires start + |HEAD| <= c1 && c1 + 8 <= sqlEnd <= c2 && c2 + 5 <= bindEnd <= |text|
    ensures text[start..bindEnd]
            == HEAD + text[start + |HEAD|..c1] + ".prepare" + text[c1 + 8..sqlEnd] + text[sqlEnd..c2] + ".bind"
               + text[c2 + 5..bindEnd]
  {
    hide At;
    var afterHead := start + |HEAD|;
    AtSlice(text, start, afterHead, HEAD);
    AtSlice(text, c1, c1 + 8, ".prepare");
    AtSlice(text, c2, c2 + 5, ".bind");
    Slices(text, start, afterHead, c1);
    Slices(text, start, c1, c1 + 8);
    Slices(text, start, c1 + 8, sqlEnd);
    Slices(text, start, sqlEnd, c2);
    Slices(text, start, c2, c2 + 5);
    Slices(text, start, c2 + 5, bindEnd);
  }

  /** The steps of a turn that ends in a replacement. */
  lemma StepsOfChain(text: string, start: nat) returns (c1: nat, sqlEnd: nat, c2: nat, bindEnd: nat)
    requires At(text, start, HEAD) && ChainAt(text, start).Replace?
    ensures start + |HEAD| <= c1 <= |text| && AllSpace(text[start + |HEAD|..c1]) && At(text, c1, ".prepare")
    ensures CallEnd(text, c1 + 8) == Some(sqlEnd) && sqlEnd <= c2 <= |text| && AllSpace(text[sqlEnd..c2])
    ensures At(text, c2, ".bind") && CallEnd(text, c2 + 5) == Some(bindEnd)
    ensures Segments(text[c2 + 6..bindEnd - 1]).Some?
    ensures ChainAt(text, start)
            == VerbTurn(text, start, text[c1 + 9..sqlEnd - 1], bindEnd,
                        Arguments(Segments(text[c2 + 6..bindEnd - 1]).value))
  {
    hide SkipSpace;
    hide AllSpace;
    hide Derails;
    hide At;
    hide VerbTurn;
    hide CallEnd;
    hide Segments;
    c1 := SkipSpace(text, start + |HEAD|);
    sqlEnd := CallEnd(text, c1 + 8).value;
    c2 := SkipSpace(text, sqlEnd);
    bindEnd := CallEnd(text, c2 + 5).value;
  }

  lemma ReplacementIsRewritten(c: Chain)
    requires |c.sqlCall| >= 2 && |c.bindCall| >= 2 && Segments(Inner(c.bindCall)).Some?
    ensures Rewritten(c)
            == Replacement(c.verb, c.typeArg, Inner(c.sqlCall), Arguments(Segments(Inner(c.bindCall)).value))
  {
  }

  /** What is replaced is a chain, and what replaces it is the chain's rewriting. */
  lemma ChainFound(text: string, start: nat) returns (c: Chain)
    requires At(text, start, HEAD) && ChainAt(text, start).Replace?
    ensures IsChain(c) && Rewritten(c) == ChainAt(text, start).replacement
    ensures text[start..ChainAt(text, start).next] == Original(c)
  {
    hide At;
    hide ChainAt;
    hide VerbTurn;
    hide Replacement;
    hide CallEnd;
    hide IsTypeArg;
    hide IsEnvelope;
    hide IsCall;
    hide AllSpace;
    hide Segments;
    var c1, sqlEnd, c2, bindEnd := StepsOfChain(text, start);
    var sqlCall, bindCall := text[c1 + 8..sqlEnd], text[c2 + 5..bindEnd];
    InnerSlice(text, c1 + 8, sqlEnd);
    InnerSlice(text, c2 + 5, bindEnd);
    var arguments := Arguments(Segments(Inner(bindCall)).value);
    var space3, verb, typeArg, envelope := VerbFound(text, start, Inner(sqlCall), bindEnd, arguments);
    NotAtEnd(text, c2, bindEnd, sqlEnd, start, Inner(sqlCall), arguments);
    ClosedBeforeVerb(text, c1 + 8, sqlEnd);
    ClosedBeforeVerb(text, c2 + 5, bindEnd);
    c := Chain(text[start + |HEAD|..c1], sqlCall, text[sqlEnd..c2], bindCall, space3, verb, typeArg, envelope);
    ReplacementIsRewritten(c);
    FrontSlices(text, start, c1, sqlEnd, c2, bindEnd);
    Slices(text, start, bindEnd, ChainAt(text, start).next);
    Regroup(text[start..bindEnd], space3, "." + verb, typeArg, envelope);
  }

  lemma Regroup(front: string, a: string, b: string, c: string, d: string)
    ensures front + (a + b + c + "()" + d) == front + a + b + c + "()" + d
  {
  }

  lemma NotAtEnd(text: string, c2: nat, bindEnd: nat, sqlEnd: nat, start: nat, sql: string, arguments: seq<string>)
    requires start < bindEnd <= |text| && VerbTurn(text, start, sql, bindEnd, arguments).Replace?
    requires sqlEnd <= c2 && CallEnd(text, c2 + 5) == Some(bindEnd)
    ensures sqlEnd < |text| && bindEnd < |text|
  {
    VerbNeedsText(text, SkipSpace(text, bindEnd), 0);
  }

  lemma PiecesCons(p: Piece, later: seq<Piece>)
    requires ArePieces(later) && IsPieceOfRun(p)
    ensures ArePieces([p] + later)
    ensures Before([p] + later) == PieceBefore(p) + Before(later)
    ensures After([p] + later) == PieceAfter(p) + After(later)
    ensures Changes([p] + later) == (if p.Changed? then 1 else 0) + Changes(later)
  {
    assert ([p] + later)[1..] == later;
  }

  lemma NoPieces()
    ensures ArePieces([]) && Before([]) == "" && After([]) == "" && Changes([]) == 0
  {
  }

  /** In front of the next `this.database` there is none. */
  lemma KeptPiece(text: string, pos: nat, n: nat)
    requires pos <= n <= |text| && (Find(text, HEAD, pos).None? ==> n == |text|)
    requires Find(text, HEAD, pos).Some? ==> n == Find(text, HEAD, pos).value
    ensures IsPieceOfRun(Kept(text[pos..n]))
  {
    var s := text[pos..n];
    forall k | 0 <= k <= |s| ensures !At(s, k, HEAD) {
      if At(s, k, HEAD) {
        forall m | 0 <= m < |HEAD| ensures text[pos + k + m] == HEAD[m] {
          assert s[k + m] == HEAD[m];
        }
        assert At(text, pos + k, HEAD);
      }
    }
  }

  lemma CallAt(text: string, i: nat, n: nat)
    requires CallEnd(text, i) == Some(n)
    ensures EndsCall(text[i..n])
  {
    ThenIsCall(text, i, n);
  }

  lemma IsSkippedOnce(space: string, call: string)
    requires AllSpace(space) && EndsCall(call)
    ensures IsSkipped(HEAD + space + ".prepare" + call)
  {
  }

  lemma IsSkippedTwice(space1: string, call1: string, space2: string, call2: string)
    requires AllSpace(space1) && EndsCall(call1) && AllSpace(space2) && EndsCall(call2)
    ensures IsSkipped(HEAD + space1 + ".prepare" + call1 + space2 + ".bind" + call2)
  {
  }

  lemma SkippedBind(text: string, start: nat, sqlOpen: nat, sqlEnd: nat)
    requires At(text, start, HEAD) && start + |HEAD| + 8 <= sqlOpen && CallEnd(text, sqlOpen) == Some(sqlEnd)
    requires AllSpace(text[start + |HEAD|..sqlOpen - 8]) && At(text, sqlOpen - 8, ".prepare")
    requires BindAt(text, start, sqlOpen, sqlEnd).Skip?
    ensures IsSkipped(text[start..BindAt(text, start, sqlOpen, sqlEnd).next])
  {
    hide At;
    hide SkipSpace;
    hide AllSpace;
    hide CallEnd;
    hide EndsCall;
    hide IsSkipped;
    hide Segments;
    hide VerbTurn;
    var c1, c2 := sqlOpen - 8, SkipSpace(text, sqlEnd);
    var space1, call1 := text[start + |HEAD|..c1], text[sqlOpen..sqlEnd];
    CallAt(text, sqlOpen, sqlEnd);
    if !At(text, c2, ".bind") {
      HeadSlices(text, start, c1, sqlEnd);
      IsSkippedOnce(space1, call1);
    } else {
      var bindEnd := CallEnd(text, c2 + 5).value;
      CallAt(text, c2 + 5, bindEnd);
      FrontSlices(text, start, c1, sqlEnd, c2, bindEnd);
      IsSkippedTwice(space1, call1, text[sqlEnd..c2], text[c2 + 5..bindEnd]);
      SkippedVerb(text, start, text[sqlOpen + 1..sqlEnd - 1], bindEnd, Arguments(Segments(text[c2 + 6..bindEnd - 1]).value));
    }
  }

  lemma SkippedVerb(text: string, start: nat, sql: string, bindEnd: nat, arguments: seq<string>)
    requires start < bindEnd <= |text| && VerbTurn(text, start, sql, bindEnd, arguments).Skip?
    ensures VerbTurn(text, start, sql, bindEnd, arguments).next == bindEnd
  {
    hide At;
    hide SkipSpace;
    hide VerbAt;
    hide TypeEnd;
    hide ThenEnd;
    hide Replacement;
  }

  lemma HeadSlices(text: string, start: nat, c1: nat, sqlEnd: nat)
    requires At(text, start, HEAD) && At(text, c1, ".prepare") && start + |HEAD| <= c1 && c1 + 8 <= sqlEnd <= |text|
    ensures text[start..sqlEnd] == HEAD + text[start + |HEAD|..c1] + ".prepare" + text[c1 + 8..sqlEnd]
  {
    hide At;
    AtSlice(text, start, start + |HEAD|, HEAD);
    AtSlice(text, c1, c1 + 8, ".prepare");
    Slices(text, start, start + |HEAD|, c1);
    Slices(text, start, c1, c1 + 8);
    Slices(text, start, c1 + 8, sqlEnd);
  }

  lemma SkippedPiece(text: string, start: nat)
    requires At(text, start, HEAD) && ChainAt(text, start).Skip?
    ensures IsPieceOfRun(Skipped(text[start..ChainAt(text, start).next]))
  {
    hide At;
    hide SkipSpace;
    hide CallEnd;
    hide BindAt;
    hide AllSpace;
    var c1 := SkipSpace(text, start + |HEAD|);
    if At(text, c1, ".prepare") {
      SkippedBind(text, start, c1 + 8, CallEnd(text, c1 + 8).value);
    } else {
      AtSlice(text, start, start + |HEAD|, HEAD);
    }
  }

  /** `rewrite` changes chains and nothing else: the text is a list of pieces, the result has the same list
      with every chain in it rewritten, and the count is the number of chains.  What is kept holds no
      `this.database`, so a chain that is left stands in a call that the loop stepped over. */
  lemma {:induction false} OnlyChainsChange(text: string, pos: nat, count: nat) returns (pieces: seq<Piece>)
    requires pos <= |text| && RewriteFrom(text, pos, count).Done?
    ensures ArePieces(pieces) && text[pos..] == Before(pieces)
    ensures RewriteFrom(text, pos, count) == Done(text[..pos] + After(pieces), count + Changes(pieces))
    decreases |text| - pos
  {
    hide At;
    hide ChainAt;
    hide Find;
    hide IsPieceOfRun;
    hide Original;
    hide Rewritten;
    hide ArePieces;
    hide Before;
    hide After;
    hide Changes;
    var found := Find(text, HEAD, pos);
    if found.None? {
      NoPieces();
      KeptPiece(text, pos, |text|);
      PiecesCons(Kept(text[pos..|text|]), []);
      pieces := [Kept(text[pos..|text|])] + [];
      assert text[pos..|text|] == text[pos..] && text[..pos] + text[pos..] == text;
    } else if ChainAt(text, found.value).Skip? {
      pieces := SkippedAndLater(text, pos, count, found.value);
    } else {
      pieces := ChainAndLater(text, pos, count, found.value);
    }
  }

  lemma {:induction false} SkippedAndLater(text: string, pos: nat, count: nat, start: nat) returns (pieces: seq<Piece>)
    requires pos <= |text| && RewriteFrom(text, pos, count).Done?
    requires Find(text, HEAD, pos) == Some(start) && ChainAt(text, start).Skip?
    ensures ArePieces(pieces) && text[pos..] == Before(pieces)
    ensures RewriteFrom(text, pos, count) == Done(text[..pos] + After(pieces), count + Changes(pieces))
    decreases |text| - pos, 0
  {
    hide At;
    hide ChainAt;
    hide Find;
    hide IsPieceOfRun;
    hide Original;
    hide Rewritten;
    hide ArePieces;
    hide Before;
    hide After;
    hide Changes;
    var next := ChainAt(text, start).next;
    var later := OnlyChainsChange(text, next, count);
    KeptPiece(text, pos, start);
    SkippedPiece(text, start);
    PiecesCons(Skipped(text[start..next]), later);
    PiecesCons(Kept(text[pos..start]), [Skipped(text[start..next])] + later);
    pieces := [Kept(text[pos..start])] + ([Skipped(text[start..next])] + later);
    SteppedOver(text, pos, start, next, After(later));
  }

  lemma SteppedOver(text: string, pos: nat, start: nat, next: nat, rest: string)
    requires pos <= start <= next <= |text|
    ensures text[pos..] == text[pos..start] + (text[start..next] + text[next..])
    ensures text[..next] + rest == text[..pos] + (text[pos..start] + (text[start..next] + rest))
  {
    Halves(text, start, next, rest);
    Halves(text, pos, start, text[start..next] + rest);
  }

  lemma Halves(text: string, a: nat, b: nat, rest: string)
    requires a <= b <= |text|
    ensures text[..b] + rest == text[..a] + (text[a..b] + rest)
  {
    assert text[..b] == text[..a] + text[a..b];
  }

  lemma {:induction false} ChainAndLater(text: string, pos: nat, count: nat, start: nat) returns (pieces: seq<Piece>)
    requires pos <= |text| && RewriteFrom(text, pos, count).Done?
    requires Find(text, HEAD, pos) == Some(start) && ChainAt(text, start).Replace?
    ensures ArePieces(pieces) && text[pos..] == Before(pieces)
    ensures RewriteFrom(text, pos, count) == Done(text[..pos] + After(pieces), count + Changes(pieces))
    decreases |text| - pos, 0
  {
    hide At;
    hide ChainAt;
    hide Find;
    hide IsPieceOfRun;
    hide Original;
    hide Rewritten;
    hide ArePieces;
    hide Before;
    hide After;
    hide Changes;
    var replacement, next := ChainAt(text, start).replacement, ChainAt(text, start).next;
    var c := ChainFound(text, start);
    var front := text[..start] + replacement;
    var t := front + text[next..];
    var later := OnlyChainsChange(t, |front|, count + 1);
    FrontAndRest(front, text[next..]);
    ChangedPiece(c);
    KeptPiece(text, pos, start);
    PiecesCons(Changed(c), later);
    PiecesCons(Kept(text[pos..start]), [Changed(c)] + later);
    pieces := [Kept(text[pos..start])] + ([Changed(c)] + later);
    Reassembled(text, pos, start, next, replacement, After(later));
  }

  lemma ChangedPiece(c: Chain)
    requires IsChain(c)
    ensures IsPieceOfRun(Changed(c))
  {
  }

  lemma FrontAndRest(front: string, rest: string)
    ensures (front + rest)[|front|..] == rest && (front + rest)[..|front|] == front
  {
  }

  lemma Reassembled(text: string, pos: nat, start: nat, next: nat, replacement: string, rest: string)
    requires pos <= start <= next <= |text|
    ensures text[pos..] == text[pos..start] + (text[start..next] + text[next..])
    ensures text[..start] + replacement + rest == text[..pos] + (text[pos..start] + (replacement + rest))
  {
    Halves(text, pos, start, replacement + rest);
    assert text[..start] + replacement + rest == text[..start] + (replacement + rest);
  }

  // ---------- Every chain is rewritten ----------

  lemma {:induction false} SpaceSkipped(text: string, i: nat, space: string)
    requires At(text, i, space) && AllSpace(space)
    requires i + |space| == |text| || !IsSpace(text[i + |space|])
    ensures SkipSpace(text, i) == i + |space|
    decreases |space|
  {
    hide IsSpace;
    if space != "" {
      AtHead(text, i, space);
      assert space[0] in space && forall c :: c in space[1..] ==> c in space;
      SpaceSkipped(text, i + 1, space[1..]);
    }
  }

  /** Space in front of a dot. */
  lemma SkipsToDot(text: string, i: nat, space: string, word: string)
    requires At(text, i, space) && AllSpace(space) && At(text, i + |space|, "." + word)
    ensures SkipSpace(text, i) == i + |space|
  {
    hide SkipSpace;
    AtHead(text, i + |space|, "." + word);
    SpaceSkipped(text, i, space);
  }

  lemma CallStands(text: string, i: nat, call: string)
    requires At(text, i, call) && IsCall(call)
    ensures CallEnd(text, i) == Some(i + |call|) && !Derails(text, i)
    ensures |call| >= 2 && i + |call| <= |text| && text[i + 1..i + |call| - 1] == Inner(call)
  {
    hide At;
    hide CallFrom;
    var b :| WellFormed(b, InCall) && call[0..|call|] == ['('] + Render(b) + [')'];
    var n := i + |call|;
    AtFits(text, i, call);
    AtSlice(text, i, n, call);
    assert call[0..|call|] == call;
    assert text[i..n] == ['('] + Render(b) + [')'];
    assert text[i] == text[i..n][0];
    ScanCallIsExact(text, i, n);
    InnerSlice(text, i, n);
  }

  lemma VerbStands(text: string, i: nat, verb: string)
    requires IsVerb(verb) && At(text, i, "." + verb)
    ensures VerbAt(text, i, 0).Some? && VERBS[VerbAt(text, i, 0).value] == verb
  {
    VerbsAreWords(verb);
    var v :| 0 <= v < |VERBS| && VERBS[v] == verb;
    FirstLetter(text, i, verb);
    forall u | 0 <= u < |VERBS| && At(text, i, "." + VERBS[u]) ensures u == v {
      FirstLetter(text, i, VERBS[u]);
    }
    assert VerbAt(text, i, v) == Some(v);
    FirstVerb(text, i, 0, v);
  }

  lemma FirstLetter(text: string, i: nat, verb: string)
    requires IsVerb(verb) && At(text, i, "." + verb)
    ensures i + 1 < |text| && text[i + 1] == verb[0]
  {
    AtSplit(text, i, ".", verb);
    AtHead(text, i + 1, verb);
  }

  lemma {:induction false} FirstVerb(text: string, i: nat, u: nat, v: nat)
    requires u <= v < |VERBS| && At(text, i, "." + VERBS[v])
    requires forall w :: 0 <= w < |VERBS| && At(text, i, "." + VERBS[w]) ==> w == v
    ensures VerbAt(text, i, u) == Some(v)
    decreases v - u
  {
    hide At;
    if u < v { FirstVerb(text, i, u + 1, v); }
  }

  lemma {:induction false} FindIs(text: string, pattern: string, i: nat, k: nat)
    requires i <= k && At(text, k, pattern) && pattern != ""
    requires forall m :: i <= m < k ==> !At(text, m, pattern)
    ensures Find(text, pattern, i) == Some(k)
    decreases k - i
  {
    AtHead(text, k, pattern);
    if i < k { FindIs(text, pattern, i + 1, k); }
  }

  lemma TypeArgStands(text: string, i: nat, typeArg: string)
    requires IsTypeArg(typeArg) && At(text, i, typeArg) && At(text, i + |typeArg|, "()")
    ensures i <= |text| && TypeEnd(text, i) == Some(i + |typeArg|)
  {
    AtHead(text, i + |typeArg|, "()");
    if typeArg == "" {
      AtChar(text, i, '<');
    } else {
      var last := |typeArg| - 1;
      AtChar(text, i, '<');
      AtChar(text, i + last, '>');
      forall m | i <= m < i + last ensures !At(text, m, ">") {
        assert typeArg[m - i] in typeArg[..last] by { assert typeArg[..last][m - i] == typeArg[m - i]; }
        AtChar(text, m, '>');
        assert text[i + (m - i)] == typeArg[m - i];
      }
      FindIs(text, ">", i, i + last);
    }
  }

  /** From the end of the bind call on. */
  lemma VerbRewritten(text: string, start: nat, sql: string, bindEnd: nat, arguments: seq<string>, c: Chain)
    requires start < bindEnd <= |text| && AllSpace(c.space3) && IsVerb(c.verb) && IsTypeArg(c.typeArg)
    requires At(text, bindEnd, c.space3 + ("." + c.verb) + c.typeArg + "()")
    requires var tail := bindEnd + |c.space3| + 1 + |c.verb| + |c.typeArg| + 2;
             tail <= |text| && ThenEnd(text, tail) == Some(tail + |c.envelope|) && !ThenDerails(text, tail)
    ensures VerbTurn(text, start, sql, bindEnd, arguments)
            == Replace(Replacement(c.verb, c.typeArg, sql, arguments),
                       bindEnd + |c.space3| + 1 + |c.verb| + |c.typeArg| + 2 + |c.envelope|)
  {
    hide At;
    hide SkipSpace;
    hide VerbAt;
    hide TypeEnd;
    hide ThenEnd;
    hide ThenDerails;
    hide Replacement;
    hide AllSpace;
    hide IsTypeArg;
    var c3 := bindEnd + |c.space3|;
    var verbEnd := c3 + 1 + |c.verb|;
    AtSplit(text, bindEnd, c.space3 + ("." + c.verb) + c.typeArg, "()");
    AtSplit(text, bindEnd, c.space3 + ("." + c.verb), c.typeArg);
    AtSplit(text, bindEnd, c.space3, "." + c.verb);
    SkipsToDot(text, bindEnd, c.space3, c.verb);
    VerbStands(text, c3, c.verb);
    TypeArgStands(text, verbEnd, c.typeArg);
    AtFits(text, verbEnd, c.typeArg);
    AtSlice(text, verbEnd, verbEnd + |c.typeArg|, c.typeArg);
  }

  /** What stands behind the envelope, if there is none here. */
  lemma NoThen(text: string, i: nat)
    requires i <= |text| && !At(text, SkipSpace(text, i), ".then")
    ensures ThenEnd(text, i) == Some(i) && !ThenDerails(text, i)
  {
  }

  /** A `.then(...)` goes with the chain if and only if it mentions `results`. */
  lemma ThenStands(text: string, i: nat, space: string, call: string)
    requires AllSpace(space) && IsCall(call) && At(text, i, space + ".then" + call)
    ensures i <= |text| && |call| >= 2 && !ThenDerails(text, i)
    ensures ThenEnd(text, i) == Some(if Contains(Inner(call), "results") then i + |space| + 5 + |call| else i)
  {
    hide At;
    hide CallEnd;
    hide Contains;
    hide IsCall;
    hide AllSpace;
    hide SkipSpace;
    hide Derails;
    AtSplit(text, i, space + ".then", call);
    AtSplit(text, i, space, ".then");
    AtFits(text, i, space);
    assert ".then" == "." + "then";
    SkipsToDot(text, i, space, "then");
    CallStands(text, i + |space| + 5, call);
  }

  lemma PartsStand(text: string, start: nat, c: Chain)
    requires At(text, start, Original(c))
    ensures At(text, start, HEAD)
    ensures At(text, start + |HEAD|, c.space1)
    ensures At(text, start + |HEAD| + |c.space1|, ".prepare")
    ensures var sqlOpen := start + |HEAD| + |c.space1| + 8;
            && At(text, sqlOpen, c.sqlCall) && At(text, sqlOpen + |c.sqlCall|, c.space2)
            && At(text, sqlOpen + |c.sqlCall| + |c.space2|, ".bind")
            && At(text, sqlOpen + |c.sqlCall| + |c.space2| + 5, c.bindCall)
            && At(text, sqlOpen + |c.sqlCall| + |c.space2| + 5 + |c.bindCall|,
                  c.space3 + ("." + c.verb) + c.typeArg + "()")
  {
    hide At;
    var front := HEAD + c.space1 + ".prepare" + c.sqlCall + c.space2 + ".bind" + c.bindCall;
    var back := c.space3 + ("." + c.verb) + c.typeArg + "()";
    Regroup(front, c.space3, "." + c.verb, c.typeArg, c.envelope);
    Associates(front, back, c.envelope);
    assert Original(c) == front + back + c.envelope;
    AtSplit(text, start, front + back, c.envelope);
    AtSplit(text, start, front, back);
    AtSplit(text, start, HEAD + c.space1 + ".prepare" + c.sqlCall + c.space2 + ".bind", c.bindCall);
    AtSplit(text, start, HEAD + c.space1 + ".prepare" + c.sqlCall + c.space2, ".bind");
    AtSplit(text, start, HEAD + c.space1 + ".prepare" + c.sqlCall, c.space2);
    AtSplit(text, start, HEAD + c.space1 + ".prepare", c.sqlCall);
    AtSplit(text, start, HEAD + c.space1, ".prepare");
    AtSplit(text, start, HEAD, c.space1);
  }

  /** The converse of `ChainFound`: wherever a chain stands, with two balanced calls, it is replaced by its
      rewriting. */
  lemma ChainIsRewritten(text: string, start: nat, c: Chain)
    requires IsChain(c) && At(text, start, Original(c))
    requires var tail := start + |Original(c)| - |c.envelope|;
             ThenEnd(text, tail) == Some(tail + |c.envelope|) && !ThenDerails(text, tail)
    ensures At(text, start, HEAD)
    ensures ChainAt(text, start) == Replace(Rewritten(c), start + |Original(c)|)
  {
    hide At;
    hide ChainAt;
    hide SkipSpace;
    hide CallEnd;
    hide Derails;
    hide VerbTurn;
    hide ThenEnd;
    hide ThenDerails;
    hide Replacement;
    hide Rewritten;
    hide Original;
    hide Segments;
    hide IsCall;
    hide AllSpace;
    hide IsTypeArg;
    hide IsEnvelope;
    var c1 := start + |HEAD| + |c.space1|;
    var sqlEnd := c1 + 8 + |c.sqlCall|;
    var c2 := sqlEnd + |c.space2|;
    var bindEnd := c2 + 5 + |c.bindCall|;
    PartsStand(text, start, c);
    assert ".prepare" == "." + "prepare" && ".bind" == "." + "bind";
    SkipsToDot(text, start + |HEAD|, c.space1, "prepare");
    CallStands(text, c1 + 8, c.sqlCall);
    SkipsToDot(text, sqlEnd, c.space2, "bind");
    CallStands(text, c2 + 5, c.bindCall);
    var arguments := Arguments(Segments(Inner(c.bindCall)).value);
    TurnReachesVerb(text, start, c1, sqlEnd, c2, bindEnd);
    OriginalLength(c);
    AtFits(text, start, Original(c));
    VerbRewritten(text, start, Inner(c.sqlCall), bindEnd, arguments, c);
    ReplacementIsRewritten(c);
  }

  /** A turn that finds both calls comes to the verb. */
  lemma TurnReachesVerb(text: string, start: nat, c1: nat, sqlEnd: nat, c2: nat, bindEnd: nat)
    requires At(text, start, HEAD) && start + |HEAD| <= |text| && SkipSpace(text, start + |HEAD|) == c1
    requires At(text, c1, ".prepare") && CallEnd(text, c1 + 8) == Some(sqlEnd) && !Derails(text, c1 + 8)
    requires SkipSpace(text, sqlEnd) == c2 && At(text, c2, ".bind")
    requires CallEnd(text, c2 + 5) == Some(bindEnd) && !Derails(text, c2 + 5)
    requires Segments(text[c2 + 6..bindEnd - 1]).Some?
    ensures ChainAt(text, start)
            == VerbTurn(text, start, text[c1 + 9..sqlEnd - 1], bindEnd,
                        Arguments(Segments(text[c2 + 6..bindEnd - 1]).value))
  {
    hide At;
    hide SkipSpace;
    hide CallEnd;
    hide Derails;
    hide VerbTurn;
    hide Segments;
  }

  /** So when the loop comes to a chain it puts the rewriting in its place, counts it, and goes on behind it. */
  lemma LoopRewritesChain(text: string, pos: nat, count: nat, start: nat, c: Chain)
    requires pos <= |text| && Find(text, HEAD, pos) == Some(start) && IsChain(c) && At(text, start, Original(c))
    requires var tail := start + |Original(c)| - |c.envelope|;
             ThenEnd(text, tail) == Some(tail + |c.envelope|) && !ThenDerails(text, tail)
    ensures start + |Original(c)| <= |text|
    ensures RewriteFrom(text, pos, count)
            == RewriteFrom(text[..start] + Rewritten(c) + text[start + |Original(c)|..], start + |Rewritten(c)|, count + 1)
  {
    hide At;
    hide ChainAt;
    hide Find;
    hide IsChain;
    hide Original;
    hide Rewritten;
    hide ThenEnd;
    hide ThenDerails;
    AtFits(text, start, Original(c));
    ChainIsRewritten(text, start, c);
  }

  lemma OriginalLength(c: Chain)
    ensures |Original(c)|
            == |HEAD| + |c.space1| + 8 + |c.sqlCall| + |c.space2| + 5 + |c.bindCall| + |c.space3| + 1 + |c.verb|
               + |c.typeArg| + 2 + |c.envelope|
  {
  }

  lemma OneLetterCall(c: char)
    requires IsAlphabetic(c)
    ensures IsCall(['(', c, ')'])
  {
    var call, b := ['(', c, ')'], Ch(c, End);
    assert Render(b) == [c] + "";
    assert ['('] + Render(b) + [')'] == call == call[0..|call|];
    assert WellFormed(b, InCall);
  }

  predicate IsAlphabetic(c: char) {
    'a' <= c <= 'z'
  }

  lemma OneLetterStays(c: char)
    requires IsAlphabetic(c)
    ensures Strip([c]) == [c] && DropCommas([c]) == [c] && Flatten([c]) == [c]
    ensures Segments([c]) == Some([[c]]) && Arguments([[c]]) == [[c]]
  {
    assert [c][1..] == "" && [[c]][..0] == [] && [[c]][1..] == [];
    assert Strip([c]) == [c];
    assert Lines("") == [""] && Lines([c]) == [[c] + ""] + [];
    assert StripAll([]) == [] && StripAll([[c]]) == [[c]] + [] == [[c]];
    assert NotEmpty([[c]]) == [[c]] + NotEmpty([]) == [[c]];
    assert EndDepth([c], 1, 0) == Some(0) && AreSegments([[c]]);
    SplitIsExact([c], [[c]]);
  }

  const SMALLEST := Chain("", "(s)", "", "(a)", "", "all", "", "")

  lemma SmallestIsChain()
    ensures IsChain(SMALLEST) && Inner("(s)") == "s" && Inner("(a)") == "a"
  {
    hide IsCall;
    hide Segments;
    OneLetterCall('s');
    OneLetterCall('a');
    OneLetterStays('a');
    assert "(s)" == ['(', 's', ')'] && "(a)" == ['(', 'a', ')'];
    assert Inner("(s)") == "s" && Inner("(a)") == "a";
    assert VERBS[0] == "all";
  }

  /** The smallest chain, and what becomes of it. */
  lemma SmallestIsRewritten()
    ensures IsChain(SMALLEST) && Original(SMALLEST) == "this.database.prepare(s).bind(a).all()"
    ensures Rewritten(SMALLEST) == "this.all(s, [a])"
  {
    SmallestIsChain();
    hide IsChain;
    hide Segments;
    hide Flatten;
    hide Arguments;
    OneLetterStays('s');
    OneLetterStays('a');
    assert Join(", ", ["a"]) == "a";
    assert HEAD + "" + ".prepare" + "(s)" + "" == "this.database.prepare(s)";
    assert "this.database.prepare(s)" + ".bind" + "(a)" + "" == "this.database.prepare(s).bind(a)";
    assert "." + "all" == ".all";
    assert "this.database.prepare(s).bind(a)" + ".all" + "" + "()" + "" == "this.database.prepare(s).bind(a).all()";
    assert "this." + "all" + "" + "(" + "s" + ", [" + "a" + "])" == "this.all(s, [a])";
  }

  // ---------- What is kept inside a chain ----------

  /** The characters that are not space. */
  function Visible(s: string): string {
    if s == "" then "" else (if IsSpace(s[0]) then "" else [s[0]]) + Visible(s[1..])
  }

  lemma VisibleCons(c: char, s: string)
    ensures Visible([c] + s) == (if IsSpace(c) then "" else [c]) + Visible(s)
  {
    hide IsSpace;
    assert ([c] + s)[1..] == s;
  }

  lemma {:induction false} VisibleConcat(a: string, b: string)
    ensures Visible(a + b) == Visible(a) + Visible(b)
  {
    hide IsSpace;
    if a == "" {
      assert a + b == b;
    } else {
      hide Visible;
      VisibleConcat(a[1..], b);
      VisibleCons(a[0], a[1..] + b);
      VisibleCons(a[0], a[1..]);
      assert a == [a[0]] + a[1..] && a + b == [a[0]] + (a[1..] + b);
      Associates(if IsSpace(a[0]) then "" else [a[0]], Visible(a[1..]), Visible(b));
    }
  }

  lemma {:induction false} VisibleStripRight(s: string)
    ensures Visible(StripRight(s)) == Visible(s)
    decreases |s|
  {
    if s != "" && IsSpace(s[|s| - 1]) {
      var init, last := s[..|s| - 1], [s[|s| - 1]];
      assert s == init + last;
      VisibleConcat(init, last);
      assert Visible(last) == "";
      VisibleStripRight(init);
    }
  }

  lemma {:induction false} VisibleStrip(s: string)
    ensures Visible(Strip(s)) == Visible(s)
  {
    if s != "" && IsSpace(s[0]) {
      VisibleStrip(s[1..]);
    } else {
      VisibleStripRight(s);
    }
  }

  /** The words of `s`, the first of them continuing `current`. */
  function WordsFrom(s: string, current: string): seq<string> {
    if s == "" then (if current == "" then [] else [current])
    else if IsSpace(s[0]) then (if current == "" then [] else [current]) + WordsFrom(s[1..], "")
    else WordsFrom(s[1..], current + [s[0]])
  }

  function Words(s: string): seq<string> {
    WordsFrom(s, "")
  }

  /** Space between two texts keeps their words apart. */
  lemma {:induction false} WordsApart(a: string, space: char, b: string, current: string)
    requires IsSpace(space)
    ensures WordsFrom(a + [space] + b, current) == WordsFrom(a, current) + Words(b)
    decreases |a|
  {
    hide IsSpace;
    var s := a + [space] + b;
    if a == "" {
      assert s[1..] == b;
    } else {
      assert s[1..] == a[1..] + [space] + b;
      if IsSpace(a[0]) {
        WordsApart(a[1..], space, b, "");
      } else {
        WordsApart(a[1..], space, b, current + [a[0]]);
      }
    }
  }

  lemma {:induction false} WordsStripRight(s: string)
    ensures Words(StripRight(s)) == Words(s)
    decreases |s|
  {
    hide IsSpace;
    if s != "" && IsSpace(s[|s| - 1]) {
      var init := s[..|s| - 1];
      assert s == init + [s[|s| - 1]] + "";
      WordsApart(init, s[|s| - 1], "", "");
      WordsStripRight(init);
    }
  }

  lemma {:induction false} WordsStrip(s: string)
    ensures Words(Strip(s)) == Words(s)
  {
    hide IsSpace;
    if s != "" && IsSpace(s[0]) {
      WordsStrip(s[1..]);
    } else {
      WordsStripRight(s);
    }
  }

  function AllWords(parts: seq<string>): seq<string> {
    if parts == [] then [] else Words(parts[0]) + AllWords(parts[1..])
  }

  lemma WordsCons(c: char, s: string, current: string)
    ensures WordsFrom([c] + s, current)
            == if IsSpace(c) then (if current == "" then [] else [current]) + Words(s) else WordsFrom(s, current + [c])
  {
    hide IsSpace;
    assert ([c] + s)[1..] == s;
  }

  lemma AllWordsCons(part: string, parts: seq<string>)
    ensures AllWords([part] + parts) == Words(part) + AllWords(parts)
  {
    assert ([part] + parts)[1..] == parts;
  }

  lemma {:induction false} WordsOfLines(s: string, current: string)
    ensures WordsFrom(s, current) == WordsFrom(Lines(s)[0], current) + AllWords(Lines(s)[1..])
    decreases |s|
  {
    hide IsSpace;
    hide IsLineBreak;
    hide AllWords;
    if s == "" {
      NoWords();
      assert Lines(s)[1..] == [];
    } else {
      hide WordsFrom;
      var c, later := s[0], Lines(s[1..]);
      assert s == [c] + s[1..];
      WordsCons(c, s[1..], current);
      if IsLineBreak(c) {
        BreakIsSpace(c);
        WordsOfLines(s[1..], "");
        assert Lines(s)[1..] == later && later == [later[0]] + later[1..];
        AllWordsCons(later[0], later[1..]);
        CurrentOnly(current);
      } else {
        assert Lines(s)[1..] == later[1..];
        WordsOfLines(s[1..], if IsSpace(c) then "" else current + [c]);
        WordsCons(c, later[0], current);
        Associates(if current == "" then [] else [current], Words(later[0]), AllWords(later[1..]));
      }
    }
  }

  lemma NoWords()
    ensures AllWords([]) == []
  {
  }

  lemma CurrentOnly(current: string)
    ensures WordsFrom("", current) == if current == "" then [] else [current]
  {
  }

  lemma BreakIsSpace(c: char)
    requires IsLineBreak(c)
    ensures IsSpace(c)
  {
  }

  lemma {:induction false} WordsOfJoin(parts: seq<string>)
    ensures Words(Join(" ", NotEmpty(StripAll(parts)))) == AllWords(parts)
    decreases |parts|
  {
    hide Strip;
    hide IsSpace;
    hide Join;
    if parts == [] {
      NothingJoined();
    } else {
      var later := NotEmpty(StripAll(parts[1..]));
      WordsOfJoin(parts[1..]);
      assert StripAll(parts)[1..] == StripAll(parts[1..]);
      WordsOfFront(parts[0], later);
      assert [] + later == later;
    }
  }

  lemma NothingJoined()
    ensures Join(" ", []) == "" && Words("") == []
  {
  }

  lemma WordsOfFront(x: string, later: seq<string>)
    ensures Strip(x) != "" ==> Words(Join(" ", [Strip(x)] + later)) == Words(x) + Words(Join(" ", later))
    ensures Strip(x) == "" ==> Words(x) == []
  {
    hide Strip;
    WordsStrip(x);
    if later == [] {
      assert [Strip(x)] + later == [Strip(x)];
    } else {
      JoinCons(" ", Strip(x), later);
      WordsApart(Strip(x), ' ', Join(" ", later), "");
    }
  }

  lemma {:induction false} DropsOnlyCommas(s: string) returns (n: nat)
    ensures s == DropCommas(s) + seq(n, _ => ',')
    ensures DropCommas(s) == "" || DropCommas(s)[|DropCommas(s)| - 1] != ','
    decreases |s|
  {
    n := 0;
    if s != "" && s[|s| - 1] == ',' {
      var m := DropsOnlyCommas(s[..|s| - 1]);
      n := m + 1;
      assert s == s[..|s| - 1] + [','];
      assert seq(n, _ => ',') == seq(m, _ => ',') + [','];
    }
  }

  /** Flattening keeps the words of the query, each apart from the next, and drops nothing but commas at its
      end and space. */
  lemma FlattenKeepsWords(sql: string) returns (kept: string, n: nat)
    ensures Strip(sql) == kept + seq(n, _ => ',') && (kept == "" || kept[|kept| - 1] != ',')
    ensures Words(Flatten(sql)) == Words(kept)
  {
    hide IsSpace;
    kept := DropCommas(Strip(sql));
    n := DropsOnlyCommas(Strip(sql));
    WordsOfLines(kept, "");
    WordsOfJoin(Lines(kept));
  }

  lemma FlattenIsOneLine(sql: string)
    ensures forall c :: c in Flatten(sql) ==> !IsLineBreak(c)
  {
    var lines := Lines(DropCommas(Strip(sql)));
    LinesHaveNoBreaks(DropCommas(Strip(sql)));
    JoinHasNoBreaks(lines);
  }

  predicate Unbroken(s: string) {
    forall c :: c in s ==> !IsLineBreak(c)
  }

  lemma {:induction false} LinesHaveNoBreaks(s: string)
    ensures forall line :: line in Lines(s) ==> Unbroken(line)
  {
    if s != "" {
      LinesHaveNoBreaks(s[1..]);
      assert Lines(s[1..])[0] in Lines(s[1..]);
    }
  }

  lemma {:induction false} JoinHasNoBreaks(lines: seq<string>)
    requires forall line :: line in lines ==> Unbroken(line)
    ensures Unbroken(Join(" ", NotEmpty(StripAll(lines))))
    decreases |lines|
  {
    hide Strip;
    if lines != [] {
      var later := NotEmpty(StripAll(lines[1..]));
      JoinHasNoBreaks(lines[1..]);
      assert StripAll(lines)[1..] == StripAll(lines[1..]);
      assert Unbroken(lines[0]);
      var a, b := StripCutsSpace(lines[0]);
      assert [] + later == later;
      if later == [] {
        assert [Strip(lines[0])] + later == [Strip(lines[0])];
      } else {
        JoinCons(" ", Strip(lines[0]), later);
      }
    }
  }

  lemma {:induction false} CommasAreVisible(n: nat)
    ensures Visible(seq(n, _ => ',')) == seq(n, _ => ',')
  {
    if n > 0 {
      assert seq(n, _ => ',')[1..] == seq(n - 1, _ => ',');
      CommasAreVisible(n - 1);
    }
  }

  lemma {:induction false} VisibleArguments(segments: seq<string>)
    requires segments != []
    ensures Visible(Join(",", segments))
            == Visible(Join(", ", Arguments(segments)))
               + (if |segments| > 1 && Strip(segments[|segments| - 1]) == "" then "," else "")
    decreases |segments|
  {
    hide Arguments;
    hide Join;
    hide Strip;
    hide IsSpace;
    var x, later := segments[0], segments[1..];
    assert segments == [x] + later;
    if later == [] {
      assert segments == [x];
      VisibleOne(x);
    } else {
      hide Visible;
      VisibleArguments(later);
      VisiblePlus(x, later);
      ArgumentsCons(x, later);
      VisibleMore(x, Arguments(later));
      LastIsLast(x, later);
      CommasAreVisible(1);
      assert seq(1, _ => ',') == ",";
      Glued(Visible(x), Visible(Join(", ", Arguments(later))),
            if |later| > 1 && Strip(later[|later| - 1]) == "" then "," else "");
    }
  }

  lemma Glued(x: string, rest: string, end: string)
    ensures x + "," + (rest + end) == x + ("," + rest) + end
    ensures rest == "" && end == "" ==> x + "," + (rest + end) == x + "" + ","
  {
  }

  lemma VisibleOne(x: string)
    ensures Visible(Join(",", [x])) == Visible(Join(", ", Arguments([x])))
  {
    VisibleStrip(x);
    assert [x][..0] == [];
  }

  lemma VisiblePlus(x: string, later: seq<string>)
    requires later != []
    ensures Visible(Join(",", [x] + later)) == Visible(x) + Visible(",") + Visible(Join(",", later))
  {
    JoinCons(",", x, later);
    VisibleConcat(x + ",", Join(",", later));
    VisibleConcat(x, ",");
  }

  lemma LastIsLast(x: string, later: seq<string>)
    requires later != []
    ensures ([x] + later)[|later|] == later[|later| - 1]
    ensures Arguments(later) == [] ==> |later| == 1
    ensures |later| == 1 ==> (Arguments(later) == [] <==> Strip(later[0]) == "")
    ensures Visible(Join(", ", [])) == ""
  {
    assert |later| == 1 ==> later[..0] == [];
    if |later| > 1 { assert Arguments(later) != [] by { assert later[..|later| - 1] != []; } }
  }

  lemma ArgumentsCons(x: string, later: seq<string>)
    requires later != []
    ensures Arguments([x] + later) == [Strip(x)] + Arguments(later)
  {
    var segments := [x] + later;
    assert segments[..|segments| - 1] == [x] + later[..|later| - 1];
    assert ([x] + later[..|later| - 1])[1..] == later[..|later| - 1];
    assert segments[|segments| - 1] == later[|later| - 1];
  }

  lemma VisibleMore(x: string, rest: seq<string>)
    ensures Visible(Join(", ", [Strip(x)] + rest))
            == Visible(x) + (if rest == [] then "" else Visible(",") + Visible(Join(", ", rest)))
  {
    VisibleStrip(x);
    if rest == [] {
      assert [Strip(x)] + rest == [Strip(x)];
    } else {
      JoinCons(", ", Strip(x), rest);
      VisibleConcat(Strip(x) + ", ", Join(", ", rest));
      VisibleConcat(Strip(x), ", ");
      assert Visible(", ") == "," == Visible(",");
    }
  }

  /** The arguments keep every visible character in order; only a comma behind the last one goes. */
  lemma ArgumentsKeepBindings(bindings: string)
    requires Segments(bindings).Some?
    ensures var arguments := Join(", ", Arguments(Segments(bindings).value));
            Visible(bindings) == Visible(arguments) || Visible(bindings) == Visible(arguments) + ","
  {
    SplitIsExact(bindings, Segments(bindings).value);
    VisibleArguments(Segments(bindings).value);
  }

  lemma LinesCons(c: char, s: string, first: string, later: seq<string>)
    requires Lines(s) == [first] + later
    ensures Lines([c] + s) == if IsLineBreak(c) then [""] + ([first] + later) else [[c] + first] + later
  {
    assert ([c] + s)[1..] == s && Lines(s)[0] == first && Lines(s)[1..] == later;
  }

  lemma TwoLines()
    ensures Lines("//x\ns") == ["//x", "s"]
  {
    hide Lines;
    NoLine();
    LinesCons('s', "", "", []);
    assert ['s'] + "" == "s" && [""] + [] == [""];
    LinesCons('\n', "s", "s", []);
    assert ['\n'] + "s" == "\ns" && [""] + (["s"] + []) == [""] + ["s"];
    LinesCons('x', "\ns", "", ["s"]);
    assert ['x'] + "\ns" == "x\ns" && ['x'] + "" == "x";
    LinesCons('/', "x\ns", "x", ["s"]);
    assert ['/'] + "x\ns" == "/x\ns" && ['/'] + "x" == "/x";
    LinesCons('/', "/x\ns", "/x", ["s"]);
    assert ['/'] + "/x\ns" == "//x\ns" && ['/'] + "/x" == "//x";
  }

  lemma NoLine()
    ensures Lines("") == [""] + []
  {
  }

  lemma FlattenTwoLines()
    ensures Flatten("//x\ns") == "//x s"
  {
    hide Lines;
    var sql := "//x\ns";
    assert Strip(sql) == sql && DropCommas(sql) == sql;
    TwoLines();
    assert ["//x", "s"][1..] == ["s"] && ["s"][1..] == [];
    assert Strip("//x") == "//x" && Strip("s") == "s";
    assert StripAll(["//x", "s"]) == ["//x", "s"];
    assert NotEmpty(["//x", "s"]) == ["//x", "s"];
    assert Join(" ", ["//x", "s"]) == "//x s";
  }

  /** A line comment in the query loses its line break, and with it the rest of the call goes. */
  lemma CommentSwallowsCall()
    ensures Flatten("//x\ns") == "//x s" && CallFrom("(" + Flatten("//x\ns") + ", [a])", 1, 1) == RanOff
  {
    FlattenTwoLines();
    hide Flatten;
    hide CallFrom;
    var call := "(//x s, [a])";
    assert "(" + "//x s" + ", [a])" == call;
    assert call[1..|call|] == "//" + "x s, [a])";
    AtSlice(call, 1, |call|, "//" + "x s, [a])");
    LastLineRunsOff(call, 1, 1, "x s, [a])");
  }
}
