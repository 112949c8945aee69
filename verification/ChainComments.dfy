/** Comments in what the codemod rewrites: when the rewriting of a chain is a call again. */
module ChainComments {
  import opened ArgumentSplit
  import opened ChainRewrite
  import opened ChainScanner
  import opened Positions
  import opened Wrappers

  // ---------- Line comments in a call ----------

  /** The scan of `scan_call` from position `i` inside `depth` parentheses meets a line comment. */
  predicate MeetsLine(text: string, i: nat, depth: nat)
    requires depth > 0
    decreases |text| - i
  {
    if i >= |text| then false
    else if IsQuote(text[i]) then
      var end := StringFrom(text, text[i], i + 1); end.Some? && MeetsLine(text, end.value, depth)
    else if StartsLine(text, i) then true
    else if StartsBlock(text, i) then
      var end := BlockEnd(text, i); end.Some? && MeetsLine(text, end.value + 2, depth)
    else if text[i] == '(' then MeetsLine(text, i + 1, depth + 1)
    else if text[i] == ')' then depth > 1 && MeetsLine(text, i + 1, depth - 1)
    else MeetsLine(text, i + 1, depth)
  }

  /** A call has a line comment, outside strings and other comments. */
  predicate HasLineComment(call: string) {
    MeetsLine(call, 1, 1)
  }

  /** The same of a body of the grammar. */
  predicate NoLine(b: Body) {
    match b
    case End => true
    case Ch(_, rest) => NoLine(rest)
    case Esc(_, rest) => NoLine(rest)
    case Hole(inner, rest) => NoLine(inner) && NoLine(rest)
    case Quoted(_, body, rest) => NoLine(body) && NoLine(rest)
    case Nest(_, inner, rest) => NoLine(inner) && NoLine(rest)
    case LineComment(_, _) => false
    case BlockComment(_, rest) => NoLine(rest)
  }

  /** Strings and braces know no comments. */
  lemma {:induction false} OnlyCallsHaveLines(b: Body, mode: Mode)
    requires WellFormed(b, mode) && !mode.InCall?
    ensures NoLine(b)
  {
    match b
    case End =>
    case Ch(_, rest) => OnlyCallsHaveLines(rest, mode);
    case Esc(_, rest) => OnlyCallsHaveLines(rest, mode);
    case Hole(inner, rest) =>
      OnlyCallsHaveLines(inner, InBraces);
      OnlyCallsHaveLines(rest, mode);
    case Quoted(q, body, rest) =>
      OnlyCallsHaveLines(body, InString(q));
      OnlyCallsHaveLines(rest, mode);
    case Nest(_, inner, rest) =>
      OnlyCallsHaveLines(inner, mode);
      OnlyCallsHaveLines(rest, mode);
  }

  lemma MeetsInPlain(text: string, i: nat, depth: nat, c: char, after: string)
    requires depth > 0 && PlainIn(c, InCall, after) && At(text, i, [c] + (after + ")"))
    ensures MeetsLine(text, i, depth) == MeetsLine(text, i + 1, depth) && At(text, i + 1, after + ")")
  {
    AtOne(text, i, c, after + ")");
    AfterIs(text, i + 1, after, ')', '/');
    AfterIs(text, i + 1, after, ')', '*');
  }

  lemma MeetsInQuoted(text: string, i: nat, depth: nat, end: nat)
    requires depth > 0 && i < |text| && IsQuote(text[i]) && StringFrom(text, text[i], i + 1) == Some(end)
    ensures MeetsLine(text, i, depth) == MeetsLine(text, end, depth)
  {
  }

  lemma MeetsInParens(text: string, i: nat, depth: nat)
    requires depth > 0 && i < |text|
    ensures text[i] == '(' ==> MeetsLine(text, i, depth) == MeetsLine(text, i + 1, depth + 1)
    ensures text[i] == ')' ==> MeetsLine(text, i, depth + 1) == MeetsLine(text, i + 1, depth)
  {
  }

  lemma MeetsInComment(text: string, i: nat, depth: nat, b: Body)
    requires (b.LineComment? || b.BlockComment?) && WellFormed(b, InCall)
    requires depth > 0 && At(text, i, Render(b) + ")")
    ensures b.LineComment? ==> MeetsLine(text, i, depth)
    ensures b.BlockComment? ==> MeetsLine(text, i, depth) == MeetsLine(text, i + 3 + |b.s|, depth)
    ensures At(text, i + 3 + |b.s|, Render(b.rest) + ")") && |Render(b)| == 3 + |b.s| + |Render(b.rest)|
  {
    hide At;
    var after := Render(b.rest) + ")";
    if b.LineComment? {
      assert Render(b) + ")" == "/" + ("/" + b.s) + "\n" + after;
      LineEndIs(text, i, b.s, after);
    } else {
      assert Render(b) + ")" == "/" + b.s + "*/" + after;
      BlockEndIs(text, i, b.s, after);
    }
  }

  /** The scan of a body meets a line comment in it, or else goes on behind it. */
  lemma {:induction false} MeetsOrPasses(text: string, i: nat, depth: nat, b: Body)
    requires depth > 0 && WellFormed(b, InCall) && At(text, i, Render(b) + ")")
    ensures MeetsLine(text, i, depth) <==> !NoLine(b) || MeetsLine(text, i + |Render(b)|, depth)
    decreases b
  {
    hide At;
    hide MeetsLine;
    hide StringFrom;
    hide PlainIn;
    hide CommentText;
    hide Render;
    match b
    case End =>
      EndIsEmpty();
    case Ch(c, rest) =>
      SplitInCall(text, i, b);
      MeetsInPlain(text, i, depth, c, Render(rest));
      MeetsOrPasses(text, i + 1, depth, rest);
    case Quoted(q, body, rest) =>
      SplitInCall(text, i, b);
      PassesString(text, q, i + 1, body);
      OnlyCallsHaveLines(body, InString(q));
      MeetsInQuoted(text, i, depth, i + 2 + |Render(body)|);
      MeetsOrPasses(text, i + 2 + |Render(body)|, depth, rest);
    case Nest(open, inner, rest) =>
      var n := i + 1 + |Render(inner)|;
      SplitInCall(text, i, b);
      MeetsInParens(text, i, depth);
      MeetsOrPasses(text, i + 1, depth + 1, inner);
      MeetsInParens(text, n, depth);
      MeetsOrPasses(text, n + 1, depth, rest);
    case LineComment(s, rest) =>
      MeetsInComment(text, i, depth, b);
    case BlockComment(s, rest) =>
      MeetsInComment(text, i, depth, b);
      MeetsOrPasses(text, i + 3 + |s|, depth, rest);
  }

  lemma BodyOfCall(call: string) returns (b: Body)
    requires |call| >= 2 && IsCall(call)
    ensures WellFormed(b, InCall) && Render(b) == Inner(call) && (HasLineComment(call) <==> !NoLine(b))
  {
    hide At;
    hide MeetsLine;
    b :| WellFormed(b, InCall) && call[0..|call|] == ['('] + Render(b) + [')'];
    assert call[0..|call|] == call && Inner(call) == Render(b);
    PieceAt(call, 0, |call|, '(', b, ')');
    MeetsOrPasses(call, 1, 1, b);
    MeetsNoneAtEnd(call, 1 + |Render(b)|);
  }

  lemma MeetsNoneAtEnd(text: string, i: nat)
    requires i < |text| && text[i] == ')'
    ensures !MeetsLine(text, i, 1)
  {
  }

  // ---------- Changes of space ----------

  /** What becomes of one character: it stays, it goes, it becomes a space, or it is a comma that gets a space
      behind it. */
  datatype Bit = Same(c: char) | Drop(c: char) | Swap(c: char) | Spaced

  function CharOf(b: Bit): char {
    if b.Spaced? then ',' else b.c
  }

  function Made(b: Bit): string {
    match b
    case Same(c) => [c]
    case Drop(_) => ""
    case Swap(_) => " "
    case Spaced => ", "
  }

  function Left(bits: seq<Bit>): (s: string)
    ensures |s| == |bits| && forall i :: 0 <= i < |bits| ==> s[i] == CharOf(bits[i])
  {
    if bits == [] then "" else [CharOf(bits[0])] + Left(bits[1..])
  }

  function Right(bits: seq<Bit>): string {
    if bits == [] then "" else Made(bits[0]) + Right(bits[1..])
  }

  /** Only space becomes a space; only space and commas go, at the end or in front of what ends in a space or a
      comma. */
  predicate BitOk(bits: seq<Bit>, i: nat)
    requires i < |bits|
  {
    match bits[i]
    case Swap(c) => IsSpace(c)
    case Drop(c) =>
      && (IsSpace(c) || c == ',')
      && (i + 1 < |bits| ==> bits[i + 1].Drop? || bits[i + 1].Swap? || CharOf(bits[i + 1]) == ',')
    case _ => true
  }

  predicate Ok(bits: seq<Bit>) {
    forall i :: 0 <= i < |bits| ==> BitOk(bits, i)
  }

  predicate Shut(bits: seq<Bit>) {
    bits != [] ==> !bits[|bits| - 1].Drop?
  }

  /** A character that such changes leave alone. */
  predicate Firm(c: char) {
    !IsSpace(c) && c != ','
  }

  lemma OkPart(bits: seq<Bit>, m: nat, n: nat)
    requires Ok(bits) && m <= n <= |bits|
    ensures Ok(bits[m..n])
    ensures n < |bits| && Firm(CharOf(bits[n])) ==> Shut(bits[m..n])
  {
    var part := bits[m..n];
    forall i | 0 <= i < |part| ensures BitOk(part, i) {
      assert BitOk(bits, m + i);
    }
    if n < |bits| && Firm(CharOf(bits[n])) && part != [] {
      assert BitOk(bits, n - 1) && BitOk(bits, n);
    }
  }

  lemma FirmStays(bits: seq<Bit>, i: nat)
    requires Ok(bits) && i < |bits| && Firm(CharOf(bits[i]))
    ensures bits[i] == Same(CharOf(bits[i]))
  {
    assert BitOk(bits, i);
  }

  lemma {:induction false} RightCat(a: seq<Bit>, b: seq<Bit>)
    ensures Right(a + b) == Right(a) + Right(b)
  {
    if a == [] {
      assert a + b == b;
    } else {
      assert (a + b)[1..] == a[1..] + b;
      RightCat(a[1..], b);
    }
  }

  lemma {:induction false} RightShows(bits: seq<Bit>)
    requires Ok(bits) && Shut(bits) && bits != []
    ensures Right(bits) != ""
    ensures bits[0].Drop? ==> Right(bits)[0] == ' ' || Right(bits)[0] == ','
  {
    if bits[0].Drop? {
      assert BitOk(bits, 0);
      OkPart(bits, 1, |bits|);
      assert bits[1..|bits|] == bits[1..];
      RightShows(bits[1..]);
    }
  }

  /** A firm character starts what is made exactly when it started what was there. */
  lemma {:induction false} StartStays(bits: seq<Bit>, d: char)
    requires Ok(bits) && Firm(d)
    ensures StartsWith(Right(bits), d) <==> StartsWith(Left(bits), d)
  {
    if bits != [] {
      assert BitOk(bits, 0);
      if bits[0].Drop? {
        OkPart(bits, 1, |bits|);
        assert bits[1..|bits|] == bits[1..];
        StartStays(bits[1..], d);
        if |bits| > 1 { assert BitOk(bits, 1); }
      }
    }
  }

  lemma PlainStays(c: char, mode: Mode, bits: seq<Bit>, after: string)
    requires Ok(bits) && after == Left(bits) && PlainIn(c, mode, after)
    ensures PlainIn(c, mode, Right(bits))
  {
    StartStays(bits, '{');
    StartStays(bits, '/');
    StartStays(bits, '*');
  }

  lemma RightOne(b: Bit)
    ensures Right([b]) == Made(b)
  {
    assert [b][1..] == [] && Made(b) + "" == Made(b);
  }

  lemma LeftPart(bits: seq<Bit>, m: nat, n: nat)
    requires m <= n <= |bits|
    ensures Left(bits[m..n]) == Left(bits)[m..n]
  {
  }

  lemma TailOf<T>(s: seq<T>, n: nat)
    requires n <= |s|
    ensures s[n..|s|] == s[n..]
  {
  }

  lemma LaterShut(bits: seq<Bit>, n: nat)
    requires n <= |bits| && Shut(bits)
    ensures Shut(bits[n..])
  {
  }

  lemma Later(bits: seq<Bit>, n: nat)
    requires Ok(bits) && n <= |bits|
    ensures Ok(bits[n..]) && (Shut(bits) ==> Shut(bits[n..])) && Left(bits[n..]) == Left(bits)[n..]
  {
    hide *;
    OkPart(bits, n, |bits|);
    LeftPart(bits, n, |bits|);
    TailOf(bits, n);
    TailOf(Left(bits), n);
    if Shut(bits) { LaterShut(bits, n); }
  }

  lemma SliceAround(s: string, front: string, d: char, back: string)
    requires s == front + [d] + back
    ensures s[|front|] == d && s[0..|front|] == front && s[|front| + 1..|s|] == back
  {
  }

  /** A firm character in the middle: what is in front of it and what is behind it change on their own. */
  lemma CutAtFirm(bits: seq<Bit>, front: string, d: char, back: string) returns (a: seq<Bit>, b: seq<Bit>)
    requires Ok(bits) && Left(bits) == front + [d] + back && Firm(d)
    ensures Ok(a) && Shut(a) && Ok(b) && (Shut(bits) ==> Shut(b))
    ensures Left(a) == front && Left(b) == back && Right(bits) == Right(a) + [d] + Right(b)
  {
    hide Firm;
    hide Right;
    hide Left;
    hide Ok;
    hide Shut;
    var n := |front|;
    a, b := bits[0..n], bits[n + 1..];
    SliceAround(Left(bits), front, d, back);
    FirmStays(bits, n);
    OkPart(bits, 0, n);
    LeftPart(bits, 0, n);
    Later(bits, n + 1);
    assert Left(bits)[n + 1..] == Left(bits)[n + 1..|bits|];
    assert bits == a + [Same(d)] + b;
    RightAround(a, d, b);
  }

  lemma RightAround(a: seq<Bit>, d: char, b: seq<Bit>)
    ensures Right(a + [Same(d)] + b) == Right(a) + [d] + Right(b)
  {
    RightCat(a + [Same(d)], b);
    RightCat(a, [Same(d)]);
    RightOne(Same(d));
  }

  /** A bracketed piece in front: its brackets stay. */
  lemma BracketsStay(bits: seq<Bit>, open: char, inner: string, close: char, rest: string) returns (mid: seq<Bit>, later: seq<Bit>)
    requires Ok(bits) && Left(bits) == [open] + inner + [close] + rest && Firm(open) && Firm(close)
    ensures Ok(mid) && Shut(mid) && Ok(later) && (Shut(bits) ==> Shut(later))
    ensures Left(mid) == inner && Left(later) == rest
    ensures Right(bits) == [open] + Right(mid) + [close] + Right(later)
  {
    hide Ok;
    hide Shut;
    hide Firm;
    hide Right;
    hide Left;
    var none, more;
    assert [open] + inner + [close] + rest == "" + [open] + (inner + [close] + rest);
    none, more := CutAtFirm(bits, "", open, inner + [close] + rest);
    mid, later := CutAtFirm(more, inner, close, rest);
    NothingLeft(none);
    assert "" + [open] + Right(more) == [open] + Right(more);
    assert [open] + (Right(mid) + [close] + Right(later)) == [open] + Right(mid) + [close] + Right(later);
  }

  lemma NothingLeft(bits: seq<Bit>)
    requires Left(bits) == ""
    ensures bits == [] && Right(bits) == ""
  {
  }

  lemma FirmPunctuation(q: char)
    ensures Firm('$') && Firm('{') && Firm('}') && Firm('(') && Firm(')') && Firm('/') && Firm('*') && Firm('\\')
    ensures IsQuote(q) ==> Firm(q)
  {
  }

  lemma EndsBlockCons(x: string, s: string, k: nat)
    requires k >= |x|
    ensures EndsBlock(x + s, k) <==> EndsBlock(s, k - |x|)
  {
  }

  lemma NoEndHere(b: Bit, later: seq<Bit>)
    requires Ok(later) && Shut(later) && !EndsBlock([CharOf(b)] + Left(later) + "*/", 0)
    ensures Made(b) != "" ==> !EndsBlock(Made(b) + (Right(later) + "*/"), 0)
  {
    hide Ok;
    hide Shut;
    FirmPunctuation('/');
    StartStays(later, '/');
    if later != [] { RightShows(later); }
    var was := [CharOf(b)] + Left(later) + "*/";
    assert Left(later) != "" ==> was[1] == Left(later)[0];
    assert Left(later) == "" ==> was[1] == '*';
  }

  /** No end of a block comment comes up that was not there. */
  lemma {:induction false} NoNewEnd(bits: seq<Bit>, k: nat)
    requires Ok(bits) && Shut(bits) && k < |Right(bits)|
    requires forall m :: 0 <= m < |bits| ==> !EndsBlock(Left(bits) + "*/", m)
    ensures !EndsBlock(Right(bits) + "*/", k)
    decreases |bits|
  {
    hide Ok;
    hide Shut;
    hide EndsBlock;
    var b, later := bits[0], bits[1..];
    Later(bits, 1);
    assert Left(bits) + "*/" == [CharOf(b)] + (Left(later) + "*/") == [CharOf(b)] + Left(later) + "*/";
    forall m | 0 <= m < |later| ensures !EndsBlock(Left(later) + "*/", m) {
      assert !EndsBlock(Left(bits) + "*/", m + 1);
      EndsBlockCons([CharOf(b)], Left(later) + "*/", m + 1);
    }
    assert Right(bits) + "*/" == Made(b) + (Right(later) + "*/");
    if k >= |Made(b)| {
      NoNewEnd(later, k - |Made(b)|);
      EndsBlockCons(Made(b), Right(later) + "*/", k);
    } else if k == 0 {
      assert !EndsBlock(Left(bits) + "*/", 0);
      NoEndHere(b, later);
    } else {
      SecondIsSpace(b, Right(later) + "*/");
    }
  }

  lemma SecondIsSpace(b: Bit, x: string)
    requires |Made(b)| == 2
    ensures !EndsBlock(Made(b) + x, 1)
  {
  }

  // ---------- A body after such changes ----------

  /** The text of a block comment stays one. */
  lemma CommentStays(bits: seq<Bit>, s: string)
    requires Ok(bits) && Shut(bits) && Left(bits) == s && CommentText(s)
    ensures CommentText(Right(bits))
  {
    if bits != [] {
      assert s[0] == '*';
      FirmStays(bits, 0);
      forall k | 0 <= k < |Right(bits)| ensures !EndsBlock(Right(bits) + "*/", k) {
        NoNewEnd(bits, k);
      }
    }
  }

  /** A string body that starts with a space or a comma starts with a plain character. */
  lemma FirstIsPlain(b: Body, q: char)
    requires WellFormed(b, InString(q)) && Render(b) != "" && (Render(b)[0] == ' ' || Render(b)[0] == ',')
    ensures b.Ch? && b.c == Render(b)[0] && Render(b) == [b.c] + Render(b.rest)
  {
  }

  lemma Parts(b: Body)
    ensures b.Ch? ==> Render(b) == [b.c] + Render(b.rest)
    ensures b.Esc? ==> Render(b) == ['\\', b.c] + Render(b.rest)
    ensures b.Hole? ==> Render(b) == ['$'] + (['{'] + Render(b.inner) + ['}'] + Render(b.rest))
    ensures b.Quoted? ==> Render(b) == [b.quote] + Render(b.body) + [b.quote] + Render(b.rest)
    ensures b.Nest? ==> Render(b) == [b.open] + Render(b.inner) + [CloseOf(b.open)] + Render(b.rest)
    ensures b.BlockComment? ==> Render(b) == ['/'] + b.s + ['*'] + (['/'] + Render(b.rest))
  {
    if b.BlockComment? { assert "/" + b.s + "*/" + Render(b.rest) == ['/'] + b.s + ['*'] + (['/'] + Render(b.rest)); }
  }

  lemma RightCons(bits: seq<Bit>)
    requires bits != []
    ensures Right(bits) == Made(bits[0]) + Right(bits[1..])
  {
  }

  lemma SqueezeCh(c: char, mode: Mode, bits: seq<Bit>, t: Body) returns (r: Body)
    requires Ok(bits) && bits != [] && CharOf(bits[0]) == c && PlainIn(c, mode, Left(bits)[1..])
    requires WellFormed(t, mode) && NoLine(t) && Render(t) == Right(bits[1..])
    requires mode.InString? ==> IsQuote(mode.quote)
    ensures WellFormed(r, mode) && NoLine(r) && Render(r) == Right(bits)
  {
    hide IsSpace;
    hide Ok;
    hide Right;
    Later(bits, 1);
    RightCons(bits);
    match bits[0]
    case Same(_) =>
      PlainStays(c, mode, bits[1..], Left(bits)[1..]);
      r := Ch(c, t);
    case Drop(_) =>
      r := t;
      assert "" + Render(t) == Render(t);
    case Swap(_) => r := Ch(' ', t);
    case Spaced =>
      r := Ch(',', Ch(' ', t));
      assert Render(r) == [','] + ([' '] + Render(t)) == ", " + Render(t);
  }

  /** An escape and what becomes of the character it escapes. */
  lemma EscapeStays(bits: seq<Bit>)
    requires Ok(bits) && Shut(bits) && |bits| >= 2 && CharOf(bits[0]) == '\\'
    ensures Right(bits) == ['\\'] + (Made(bits[1]) + Right(bits[2..]))
    ensures bits[1].Drop? ==> Right(bits[2..]) != "" && (Right(bits[2..])[0] == ' ' || Right(bits[2..])[0] == ',')
  {
    hide Right;
    FirmPunctuation('$');
    FirmStays(bits, 0);
    Later(bits, 1);
    var rest := bits[1..];
    assert rest[1..] == bits[2..];
    RightCons(bits);
    RightCons(rest);
    if bits[1].Drop? {
      RightShows(rest);
      assert "" + Right(bits[2..]) == Right(bits[2..]);
    }
  }

  lemma SqueezeEsc(c: char, q: char, bits: seq<Bit>, t: Body) returns (r: Body)
    requires Ok(bits) && Shut(bits) && |bits| >= 2 && CharOf(bits[0]) == '\\' && CharOf(bits[1]) == c
    requires IsQuote(q) && WellFormed(t, InString(q)) && Render(t) == Right(bits[2..])
    ensures WellFormed(r, InString(q)) && Render(r) == Right(bits)
  {
    hide IsSpace;
    hide Ok;
    hide Shut;
    hide Right;
    EscapeStays(bits);
    match bits[1]
    case Same(_) =>
      r := Esc(c, t);
      assert ['\\'] + ([c] + Render(t)) == ['\\', c] + Render(t);
    case Swap(_) =>
      r := Esc(' ', t);
      assert ['\\'] + (" " + Render(t)) == ['\\', ' '] + Render(t);
    case Spaced =>
      r := Esc(',', Ch(' ', t));
      assert ['\\'] + (", " + Render(t)) == ['\\', ','] + ([' '] + Render(t));
    case Drop(_) =>
      FirstIsPlain(t, q);
      r := Esc(t.c, t.rest);
      assert ['\\'] + ("" + ([t.c] + Render(t.rest))) == ['\\', t.c] + Render(t.rest);
  }

  lemma SqueezeComment(s: string, bits: seq<Bit>, rest: string) returns (mid: seq<Bit>, later: seq<Bit>)
    requires Ok(bits) && CommentText(s) && Left(bits) == ['/'] + s + ['*'] + (['/'] + rest)
    ensures Ok(later) && Left(later) == rest && CommentText(Right(mid))
    ensures Right(bits) == "/" + Right(mid) + "*/" + Right(later)
  {
    hide Ok;
    hide Shut;
    hide CommentText;
    hide Firm;
    hide Right;
    hide Left;
    FirmPunctuation('/');
    var slash;
    mid, slash := BracketsStay(bits, '/', s, '*', ['/'] + rest);
    CommentStays(mid, s);
    assert ['/'] + rest == "" + ['/'] + rest;
    var none;
    none, later := CutAtFirm(slash, "", '/', rest);
    NothingLeft(none);
    assert ['/'] + Right(mid) + ['*'] + ("" + ['/'] + Right(later)) == "/" + Right(mid) + "*/" + Right(later);
  }

  lemma SqueezeHole(inner: string, bits: seq<Bit>, rest: string) returns (mid: seq<Bit>, later: seq<Bit>)
    requires Ok(bits) && Left(bits) == ['$'] + (['{'] + inner + ['}'] + rest)
    ensures Ok(mid) && Shut(mid) && Ok(later) && (Shut(bits) ==> Shut(later))
    ensures Left(mid) == inner && Left(later) == rest
    ensures Right(bits) == ['$'] + (['{'] + Right(mid) + ['}'] + Right(later))
  {
    hide Ok;
    hide Shut;
    hide Firm;
    hide Right;
    hide Left;
    FirmPunctuation('$');
    var tail := ['{'] + inner + ['}'] + rest;
    assert ['$'] + tail == "" + ['$'] + tail;
    var none, more := CutAtFirm(bits, "", '$', tail);
    mid, later := BracketsStay(more, '{', inner, '}', rest);
    NothingLeft(none);
    assert "" + ['$'] + Right(more) == ['$'] + Right(more);
  }

  lemma FirstAndRest(s: string, c: char, rest: string)
    requires s == [c] + rest
    ensures s[0] == c && s[1..] == rest
  {
  }

  lemma TwoAndRest(s: string, c: char, d: char, rest: string)
    requires s == [c, d] + rest
    ensures s[0] == c && s[1] == d && s[2..] == rest
  {
  }

  /** A body without line comments is a body after the changes too. */
  lemma {:induction false} Squeeze(b: Body, bits: seq<Bit>, mode: Mode) returns (t: Body)
    requires WellFormed(b, mode) && NoLine(b) && Ok(bits) && Left(bits) == Render(b)
    requires mode.InString? ==> Shut(bits) && IsQuote(mode.quote)
    ensures WellFormed(t, mode) && NoLine(t) && Render(t) == Right(bits)
    decreases b
  {
    hide Ok;
    hide Shut;
    hide CommentText;
    hide Firm;
    hide Right;
    hide PlainIn;
    hide Render;
    hide Left;
    Parts(b);
    match b
    case End =>
      t := End;
      EndIsEmpty();
      NothingLeft(bits);
    case Ch(c, rest) =>
      FirstAndRest(Left(bits), c, Render(rest));
      Later(bits, 1);
      t := Squeeze(rest, bits[1..], mode);
      PlainAfter(b, mode);
      t := SqueezeCh(c, mode, bits, t);
    case Esc(c, rest) =>
      TwoAndRest(Left(bits), '\\', c, Render(rest));
      Later(bits, 2);
      t := Squeeze(rest, bits[2..], mode);
      t := SqueezeEsc(c, mode.quote, bits, t);
      OnlyCallsHaveLines(t, mode);
    case Hole(inner, rest) =>
      var mid, later := SqueezeHole(Render(inner), bits, Render(rest));
      var i := Squeeze(inner, mid, InBraces);
      var r := Squeeze(rest, later, mode);
      t := Hole(i, r);
      Parts(t);
    case Quoted(q, body, rest) =>
      FirmPunctuation(q);
      var mid, later := BracketsStay(bits, q, Render(body), q, Render(rest));
      var i := Squeeze(body, mid, InString(q));
      var r := Squeeze(rest, later, mode);
      t := Quoted(q, i, r);
      Parts(t);
    case Nest(open, inner, rest) =>
      FirmPunctuation(open);
      var mid, later := BracketsStay(bits, open, Render(inner), CloseOf(open), Render(rest));
      var i := Squeeze(inner, mid, mode);
      var r := Squeeze(rest, later, mode);
      t := Nest(open, i, r);
      Parts(t);
    case BlockComment(s, rest) =>
      var mid, later := SqueezeComment(s, bits, Render(rest));
      var r := Squeeze(rest, later, mode);
      t := BlockComment(Right(mid), r);
      CommentParts(Right(mid), r);
  }

  lemma PlainAfter(b: Body, mode: Mode)
    requires b.Ch? && WellFormed(b, mode)
    ensures PlainIn(b.c, mode, Render(b.rest))
  {
  }

  lemma CommentParts(s: string, rest: Body)
    ensures Render(BlockComment(s, rest)) == "/" + s + "*/" + Render(rest)
  {
  }

  // ---------- What flattening and the split change ----------

  /** `s` with every character kept. */
  function All(s: string): (bits: seq<Bit>)
    ensures |bits| == |s| && forall i :: 0 <= i < |s| ==> bits[i] == Same(s[i])
  {
    if s == "" then [] else [Same(s[0])] + All(s[1..])
  }

  /** `s` with every character gone. */
  function Gone(s: string): (bits: seq<Bit>)
    ensures |bits| == |s| && forall i :: 0 <= i < |s| ==> bits[i] == Drop(s[i])
  {
    if s == "" then [] else [Drop(s[0])] + Gone(s[1..])
  }

  lemma {:induction false} AllStays(s: string)
    ensures Left(All(s)) == s && Right(All(s)) == s
  {
    if s != "" {
      AllStays(s[1..]);
      assert All(s)[1..] == All(s[1..]);
    }
  }

  lemma {:induction false} GoneGoes(s: string)
    ensures Left(Gone(s)) == s && Right(Gone(s)) == ""
  {
    if s != "" {
      GoneGoes(s[1..]);
      assert Gone(s)[1..] == Gone(s[1..]);
    }
  }

  /** A gap becomes one space. */
  function Gap(w: string): seq<Bit>
    requires w != ""
  {
    Gone(w[..|w| - 1]) + [Swap(w[|w| - 1])]
  }

  lemma GapIsSpace(w: string)
    requires w != ""
    ensures Left(Gap(w)) == w && Right(Gap(w)) == " "
  {
    var front, last := w[..|w| - 1], w[|w| - 1];
    GoneGoes(front);
    RightCat(Gone(front), [Swap(last)]);
    RightOne(Swap(last));
    LeftCat(Gone(front), [Swap(last)]);
    assert Left([Swap(last)]) == [last];
    assert front + [last] == w;
  }

  lemma LeftCat(a: seq<Bit>, b: seq<Bit>)
    ensures Left(a + b) == Left(a) + Left(b)
  {
  }

  /** Something that does not end in what goes may stand in front of anything; what goes, in front of what starts
      with a swapped space or a comma. */
  lemma OkCat(a: seq<Bit>, b: seq<Bit>)
    requires Ok(a) && Ok(b)
    requires Shut(a) || b == [] || b[0].Drop? || b[0].Swap? || CharOf(b[0]) == ','
    ensures Ok(a + b)
    ensures b != [] && Shut(b) ==> Shut(a + b)
  {
    forall i | 0 <= i < |a + b| ensures BitOk(a + b, i) {
      if i < |a| { assert BitOk(a, i); } else { assert BitOk(b, i - |a|); }
    }
  }

  lemma AllOk(s: string)
    ensures Ok(All(s)) && Shut(All(s))
  {
  }

  predicate Loose(s: string) {
    forall c :: c in s ==> IsSpace(c) || c == ','
  }

  lemma GoneOk(s: string)
    requires Loose(s)
    ensures Ok(Gone(s))
  {
    forall i | 0 <= i < |s| ensures BitOk(Gone(s), i) {
      assert s[i] in s;
    }
  }

  lemma GapOk(w: string)
    requires w != "" && Spaces(w)
    ensures Ok(Gap(w)) && Shut(Gap(w)) && Gap(w) != []
    ensures Gap(w)[0].Drop? || Gap(w)[0].Swap?
  {
    var front, last := w[..|w| - 1], w[|w| - 1];
    assert last in w && forall c :: c in front ==> c in w;
    GoneOk(front);
    OkCat(Gone(front), [Swap(last)]);
  }

  /** `bits` turn `s`, less the space in front of it, into `r`. */
  predicate Makes(s: string, front: string, bits: seq<Bit>, r: string) {
    s == front + Left(bits) && Spaces(front) && Ok(bits) && r == Right(bits)
  }

  lemma Both(x: seq<Bit>, y: seq<Bit>)
    requires Ok(x) && Ok(y)
    requires Shut(x) || y == [] || y[0].Drop? || y[0].Swap? || CharOf(y[0]) == ','
    ensures Ok(x + y) && Left(x + y) == Left(x) + Left(y) && Right(x + y) == Right(x) + Right(y)
    ensures y != [] && Shut(y) ==> Shut(x + y)
  {
    hide Ok;
    hide Left;
    hide Right;
    OkCat(x, y);
    LeftCat(x, y);
    RightCat(x, y);
  }

  lemma MakesIt(front: string, bits: seq<Bit>)
    requires Spaces(front) && Ok(bits)
    ensures Makes(front + Left(bits), front, bits, Right(bits))
  {
  }

  /** A core with space around it. */
  lemma CoreAlone(s: string, a: string, core: string, z: string) returns (bits: seq<Bit>)
    requires s == a + core + z && Spaces(a) && Loose(z)
    ensures Makes(s, a, bits, core)
  {
    hide *;
    AllStays(core);
    GoneGoes(z);
    AllOk(core);
    GoneOk(z);
    bits := All(core) + Gone(z);
    Both(All(core), Gone(z));
    MakesIt(a, bits);
    assert core + "" == core && a + (core + z) == a + core + z;
  }

  /** A core, a gap, and what comes behind it. */
  lemma CoreThen(a: string, core: string, gap: string, later: seq<Bit>) returns (bits: seq<Bit>)
    requires Spaces(a) && gap != "" && Spaces(gap) && Ok(later)
    ensures Makes(a + core + gap + Left(later), a, bits, core + " " + Right(later))
  {
    hide *;
    AllStays(core);
    GapIsSpace(gap);
    AllOk(core);
    GapOk(gap);
    var front := All(core) + Gap(gap);
    Both(All(core), Gap(gap));
    bits := front + later;
    Both(front, later);
    MakesIt(a, bits);
    assert a + core + gap + Left(later) == a + (core + gap + Left(later));
  }

  lemma SpacesCat(x: string, y: string)
    ensures Spaces(x) && Spaces(y) ==> Spaces(x + y)
    ensures Loose(x) && Loose(y) ==> Loose(x + y)
    ensures Spaces(x) ==> Loose(x)
  {
  }

  /** The lines of a text, put on one line. */
  lemma {:induction false} LinesTurn(t: string) returns (front: string, bits: seq<Bit>)
    ensures Makes(t, front, bits, Join(" ", NotEmpty(StripAll(Lines(t)))))
    ensures NotEmpty(StripAll(Lines(t))) == [] ==> Spaces(t)
    decreases |t|
  {
    hide Makes;
    hide IsSpace;
    hide IsLineBreak;
    hide Strip;
    hide Lines;
    hide StripAll;
    hide NotEmpty;
    hide Join;
    var line, eol, rest := FirstLine(t);
    var a, z := StripCutsSpace(line);
    SpacesCat(z, "");
    if eol == "" {
      LineAlone(line);
      assert t == line;
      bits := CoreAlone(line, a, Strip(line), z);
      front := a;
      if Strip(line) == "" {
        SpacesCat(a, z);
        assert t == a + z;
      }
    } else {
      var front2, bits2 := LinesTurn(rest);
      MoreLines(line, eol, rest);
      front, bits := LineThen(line, eol, rest, a, z, front2, bits2);
    }
  }

  /** `t` is its first line, and a line break and the rest if it has one. */
  lemma {:induction false} FirstLine(t: string) returns (line: string, eol: string, rest: string)
    ensures t == line + eol + rest && |eol| <= 1 && (eol == "" ==> rest == "")
    ensures (forall c :: c in line ==> !IsLineBreak(c)) && (forall c :: c in eol ==> IsLineBreak(c))
    decreases |t|
  {
    hide IsLineBreak;
    if t == "" {
      line, eol, rest := "", "", "";
    } else if IsLineBreak(t[0]) {
      line, eol, rest := "", t[..1], t[1..];
    } else {
      line, eol, rest := FirstLine(t[1..]);
      assert t == [t[0]] + t[1..];
      line := [t[0]] + line;
    }
  }

  lemma {:induction false} LinesOfFirst(line: string, tail: string)
    requires forall c :: c in line ==> !IsLineBreak(c)
    ensures Lines(line + tail) == [line + Lines(tail)[0]] + Lines(tail)[1..]
    decreases |line|
  {
    hide IsLineBreak;
    if line == "" {
      assert line + tail == tail;
      assert "" + Lines(tail)[0] == Lines(tail)[0];
    } else {
      assert line[0] in line && forall c :: c in line[1..] ==> c in line;
      LinesOfFirst(line[1..], tail);
      assert (line + tail)[1..] == line[1..] + tail;
      assert [line[0]] + (line[1..] + Lines(tail)[0]) == line + Lines(tail)[0];
    }
  }

  lemma LineAlone(line: string)
    requires forall c :: c in line ==> !IsLineBreak(c)
    ensures NotEmpty(StripAll(Lines(line))) == if Strip(line) == "" then [] else [Strip(line)]
    ensures Join(" ", NotEmpty(StripAll(Lines(line)))) == Strip(line)
  {
    hide IsLineBreak;
    hide Strip;
    LinesOfFirst(line, "");
    assert line + "" == line && [line][1..] == [] && [Strip(line)][1..] == [];
    assert Lines(line) == [line] && StripAll([line]) == [Strip(line)];
  }

  lemma MoreLines(line: string, eol: string, rest: string)
    requires (forall c :: c in line ==> !IsLineBreak(c)) && |eol| == 1 && IsLineBreak(eol[0])
    ensures NotEmpty(StripAll(Lines(line + eol + rest)))
            == (if Strip(line) == "" then [] else [Strip(line)]) + NotEmpty(StripAll(Lines(rest)))
    ensures IsSpace(eol[0])
  {
    hide Strip;
    BreakIsSpace(eol[0]);
    hide IsLineBreak;
    var tail := eol + rest;
    assert tail[1..] == rest && line + eol + rest == line + tail;
    LinesOfFirst(line, tail);
    assert Lines(tail) == [""] + Lines(rest) && line + "" == line;
    var lines := [line] + Lines(rest);
    assert Lines(line + tail) == lines && lines[1..] == Lines(rest);
    var stripped := StripAll(lines);
    assert stripped == [Strip(line)] + StripAll(Lines(rest)) && stripped[1..] == StripAll(Lines(rest));
  }

  lemma LineThen(line: string, eol: string, rest: string, a: string, z: string, front2: string, bits2: seq<Bit>)
    returns (front: string, bits: seq<Bit>)
    requires line == a + Strip(line) + z && Spaces(a) && Spaces(z) && |eol| == 1 && IsSpace(eol[0])
    requires Makes(rest, front2, bits2, Join(" ", NotEmpty(StripAll(Lines(rest)))))
    requires NotEmpty(StripAll(Lines(rest))) == [] ==> Spaces(rest)
    ensures var parts := (if Strip(line) == "" then [] else [Strip(line)]) + NotEmpty(StripAll(Lines(rest)));
            Makes(line + eol + rest, front, bits, Join(" ", parts)) && (parts == [] ==> Spaces(line + eol + rest))
  {
    hide Strip;
    hide Lines;
    hide IsSpace;
    hide Ok;
    hide Left;
    hide Right;
    hide StripAll;
    hide NotEmpty;
    var core, more := Strip(line), NotEmpty(StripAll(Lines(rest)));
    assert Spaces(eol);
    SpacesCat(z, eol);
    SpacesCat(z + eol, front2);
    SpacesCat(z + eol, rest);
    SpacesCat(a, z + eol + front2);
    SpacesCat(a, z + eol + rest);
    if core == "" {
      assert [] + more == more && line == a + z;
      front, bits := a + (z + eol + front2), bits2;
      assert line + eol + rest == front + Left(bits);
      assert line + eol + rest == a + (z + eol + rest);
    } else if more == [] {
      assert [core] + more == [core];
      SpacesCat(z + eol + rest, "");
      front := a;
      bits := CoreAlone(line + eol + rest, a, core, z + eol + rest);
    } else {
      JoinCons(" ", core, more);
      front := a;
      bits := CoreThen(a, core, z + eol + front2, bits2);
      assert line + eol + rest == a + core + (z + eol + front2) + Left(bits2);
    }
  }

  /** The flattened query. */
  lemma FlattenTurns(sql: string) returns (front: string, bits: seq<Bit>)
    ensures Makes(sql, front, bits, Flatten(sql))
  {
    hide Strip;
    hide Lines;
    hide DropCommas;
    hide StripAll;
    hide NotEmpty;
    hide IsSpace;
    hide Ok;
    var a, z := StripCutsSpace(sql);
    var kept := DropCommas(Strip(sql));
    var n := DropsOnlyCommas(Strip(sql));
    var commas := seq(n, _ => ',');
    var front2, bits2 := LinesTurn(kept);
    front, bits := WithTail(kept, a, front2, bits2, Flatten(sql), commas, z);
    assert sql == a + kept + (commas + z);
  }

  lemma WithTail(kept: string, a: string, front2: string, bits2: seq<Bit>, r: string, commas: string, z: string)
    returns (front: string, bits: seq<Bit>)
    requires Makes(kept, front2, bits2, r) && Spaces(a) && Spaces(z) && forall c :: c in commas ==> c == ','
    ensures Makes(a + kept + (commas + z), front, bits, r)
  {
    hide IsSpace;
    hide Ok;
    hide Left;
    hide Right;
    SpacesCat(a, front2);
    SpacesCat(z, "");
    SpacesCat(commas, z);
    var tail := commas + z;
    GoneOk(tail);
    GoneGoes(tail);
    Both(bits2, Gone(tail));
    front, bits := a + front2, bits2 + Gone(tail);
    MakesIt(front, bits);
    assert Right(bits2) + "" == Right(bits2);
    assert a + front2 + (Left(bits2) + tail) == a + (front2 + Left(bits2)) + tail;
  }

  /** A core, a comma, and what comes behind it. */
  lemma CommaThen(a: string, core: string, z: string, gap: string, later: seq<Bit>) returns (bits: seq<Bit>)
    requires Spaces(a) && Spaces(z) && Spaces(gap) && Ok(later)
    ensures Makes(a + core + z + "," + (gap + Left(later)), a, bits, core + ", " + Right(later))
  {
    hide *;
    AllStays(core);
    AllOk(core);
    GoneGoes(z);
    SpacesAreLoose(z);
    GoneOk(z);
    var front := All(core) + Gone(z);
    Both(All(core), Gone(z));
    var comma := CommaBits(gap);
    Both(front, comma);
    bits := front + comma + later;
    Both(front + comma, later);
    MakesIt(a, bits);
    assert a + (core + z + ("," + gap) + Left(later)) == a + core + z + "," + (gap + Left(later));
    assert core + "" + ", " + Right(later) == core + ", " + Right(later);
  }

  lemma SpacesAreLoose(z: string)
    requires Spaces(z)
    ensures Loose(z)
  {
  }

  /** A comma and the gap behind it. */
  lemma CommaBits(gap: string) returns (bits: seq<Bit>)
    requires Spaces(gap)
    ensures Ok(bits) && Shut(bits) && Left(bits) == "," + gap && Right(bits) == ", "
    ensures bits != [] && CharOf(bits[0]) == ','
  {
    if gap == "" {
      bits := [Spaced];
      RightOne(Spaced);
      assert Left(bits) == "," && "," + gap == ",";
    } else {
      AllStays(",");
      AllOk(",");
      GapIsSpace(gap);
      GapOk(gap);
      bits := All(",") + Gap(gap);
      Both(All(","), Gap(gap));
    }
  }

  /** The split argument list, put together again. */
  lemma {:induction false} ArgumentsTurn(segments: seq<string>) returns (front: string, bits: seq<Bit>)
    requires segments != []
    ensures Makes(Join(",", segments), front, bits, Join(", ", Arguments(segments)))
    ensures Arguments(segments) == [] ==> Spaces(Join(",", segments))
    decreases |segments|
  {
    hide Makes;
    hide IsSpace;
    hide Strip;
    hide Arguments;
    hide Join;
    var x, later := segments[0], segments[1..];
    assert segments == [x] + later;
    var a, z := StripCutsSpace(x);
    if later == [] {
      assert segments == [x];
      front := a;
      bits := LastArgument(x, a, z);
    } else {
      var front2, bits2 := ArgumentsTurn(later);
      front, bits := OneMoreArgument(x, later, a, z, front2, bits2);
    }
  }

  lemma LastArgument(x: string, a: string, z: string) returns (bits: seq<Bit>)
    requires x == a + Strip(x) + z && Spaces(a) && Spaces(z)
    ensures Makes(Join(",", [x]), a, bits, Join(", ", Arguments([x])))
    ensures Arguments([x]) == [] ==> Spaces(Join(",", [x]))
  {
    hide Makes;
    hide IsSpace;
    hide Strip;
    assert [x][..0] == [];
    assert Arguments([x]) == if Strip(x) == "" then [] else [Strip(x)];
    SpacesAreLoose(z);
    bits := CoreAlone(x, a, Strip(x), z);
    if Strip(x) == "" {
      SpacesCat(a, z);
      assert x == a + z;
    }
  }

  lemma OneMoreArgument(x: string, later: seq<string>, a: string, z: string, front2: string, bits2: seq<Bit>)
    returns (front: string, bits: seq<Bit>)
    requires x == a + Strip(x) + z && Spaces(a) && Spaces(z) && later != []
    requires Makes(Join(",", later), front2, bits2, Join(", ", Arguments(later)))
    requires Arguments(later) == [] ==> Spaces(Join(",", later))
    ensures Makes(Join(",", [x] + later), front, bits, Join(", ", Arguments([x] + later)))
    ensures Arguments([x] + later) != []
  {
    hide IsSpace;
    hide Strip;
    hide Arguments;
    hide Ok;
    hide Left;
    hide Right;
    var core, rest := Strip(x), Join(",", later);
    JoinCons(",", x, later);
    ArgumentsCons(x, later);
    front := a;
    if Arguments(later) == [] {
      assert [core] + Arguments(later) == [core];
      SpacesAreLoose(z);
      SpacesAreLoose(rest);
      SpacesCat(z, ",");
      SpacesCat(z + ",", rest);
      assert x + "," + rest == a + core + (z + "," + rest);
      bits := CoreAlone(x + "," + rest, a, core, z + "," + rest);
    } else {
      JoinCons(", ", core, Arguments(later));
      bits := CommaThen(a, core, z, front2, bits2);
      assert x + "," + rest == a + core + z + "," + (front2 + Left(bits2));
    }
  }

  // ---------- The rewritten call ----------

  lemma {:induction false} TrimFront(b: Body, front: string, m: string) returns (t: Body)
    requires WellFormed(b, InCall) && Render(b) == front + m && Spaces(front)
    ensures WellFormed(t, InCall) && Render(t) == m && (NoLine(t) <==> NoLine(b))
    decreases |front|
  {
    if front == "" {
      t := b;
    } else {
      assert front[0] in front && Render(b)[0] == front[0];
      FirmPunctuation('$');
      assert forall c :: c in front[1..] ==> c in front;
      hide IsSpace;
      hide PlainIn;
      assert b.Ch?;
      FirstAndRest(Render(b), b.c, Render(b.rest));
      assert Render(b)[1..] == front[1..] + m;
      t := TrimFront(b.rest, front[1..], m);
    }
  }

  /** A body without line comments, less the space in front, after the changes. */
  lemma Tidied(b: Body, front: string, bits: seq<Bit>, r: string) returns (t: Body)
    requires WellFormed(b, InCall) && NoLine(b) && Makes(Render(b), front, bits, r)
    ensures WellFormed(t, InCall) && Render(t) == r
  {
    hide Ok;
    var m := TrimFront(b, front, Left(bits));
    t := Squeeze(m, bits, InCall);
  }

  lemma StartAppend(a: string, x: string, d: char)
    requires StartsWith(a + x, d) && !StartsWith(x, d)
    ensures StartsWith(a, d)
  {
  }

  lemma {:induction false} Append(b: Body, tail: Body) returns (r: Body)
    requires WellFormed(b, InCall) && WellFormed(tail, InCall)
    requires !StartsWith(Render(tail), '/') && !StartsWith(Render(tail), '*')
    ensures WellFormed(r, InCall) && Render(r) == Render(b) + Render(tail)
    decreases b
  {
    hide CommentText;
    match b
    case End =>
      r := tail;
      assert "" + Render(tail) == Render(tail);
    case Ch(c, rest) =>
      var more := Append(rest, tail);
      r := Ch(c, more);
      if StartsWith(Render(more), '/') { StartAppend(Render(rest), Render(tail), '/'); }
      if StartsWith(Render(more), '*') { StartAppend(Render(rest), Render(tail), '*'); }
      assert [c] + (Render(rest) + Render(tail)) == [c] + Render(rest) + Render(tail);
    case Quoted(q, body, rest) =>
      var more := Append(rest, tail);
      r := Quoted(q, body, more);
      Reassociate([q] + Render(body) + [q], Render(rest), Render(tail));
    case Nest(open, inner, rest) =>
      var more := Append(rest, tail);
      r := Nest(open, inner, more);
      Reassociate([open] + Render(inner) + [CloseOf(open)], Render(rest), Render(tail));
    case LineComment(s, rest) =>
      var more := Append(rest, tail);
      r := LineComment(s, more);
      Reassociate("/" + ("/" + s) + "\n", Render(rest), Render(tail));
    case BlockComment(s, rest) =>
      var more := Append(rest, tail);
      r := BlockComment(s, more);
      Reassociate("/" + s + "*/", Render(rest), Render(tail));
  }

  lemma Reassociate(x: string, y: string, z: string)
    ensures x + (y + z) == x + y + z
  {
  }

  /** The call that a query and an argument list in brackets make. */
  function CallWith(query: string, arguments: string): string {
    "(" + query + ", [" + arguments + "])"
  }

  lemma PlainFront(c: char, b: Body) returns (r: Body)
    requires WellFormed(b, InCall) && (c == ',' || c == ' ' || c == '[')
    ensures WellFormed(r, InCall) && Render(r) == [c] + Render(b)
  {
    r := Ch(c, b);
  }

  lemma TailBody(inner: Body) returns (tail: Body)
    requires WellFormed(inner, InCall)
    ensures WellFormed(tail, InCall) && Render(tail) == ", [" + Render(inner)
  {
    hide *;
    var x := Render(inner);
    tail := PlainFront('[', inner);
    tail := PlainFront(' ', tail);
    tail := PlainFront(',', tail);
    assert [','] + ([' '] + (['['] + x)) == ", [" + x;
  }

  lemma BracketBody() returns (b: Body)
    ensures WellFormed(b, InCall) && Render(b) == "]"
  {
    b := Ch(']', End);
    assert Render(b) == [']'] + "";
  }

  lemma CallOfBody(b: Body, call: string)
    requires WellFormed(b, InCall) && call == "(" + Render(b) + ")"
    ensures IsCall(call)
  {
    assert call[0..|call|] == ['('] + Render(b) + [')'];
  }

  lemma BodiesMakeCall(query: Body, arguments: Body)
    requires WellFormed(query, InCall) && WellFormed(arguments, InCall)
    ensures IsCall(CallWith(Render(query), Render(arguments)))
  {
    hide WellFormed;
    hide Render;
    hide IsCall;
    var bracket := BracketBody();
    var inner := Append(arguments, bracket);
    var tail := TailBody(inner);
    var b := Append(query, tail);
    var call := CallWith(Render(query), Render(arguments));
    assert call == "(" + Render(b) + ")";
    CallOfBody(b, call);
  }

  // ---------- A line comment that loses its line break ----------

  lemma RestParts(o: Open)
    ensures o.OpenCh? ==> RenderRest(o) == [o.c] + RenderRest(o.rest)
    ensures o.OpenQuoted? ==> RenderRest(o) == [o.quote] + Render(o.body) + [o.quote] + RenderRest(o.rest)
    ensures o.OpenBlock? ==> RenderRest(o) == "/" + o.s + "*/" + RenderRest(o.rest)
    ensures o.Deeper? ==> RenderRest(o) == ['('] + RenderRest(o.rest)
    ensures o.Higher? ==> RenderRest(o) == [')'] + RenderRest(o.rest)
  {
  }

  lemma PlainBefore(c: char, after: string, x: string)
    requires PlainIn(c, InCall, after) && StartsWith(x, ')')
    ensures PlainIn(c, InCall, after + x)
  {
    if StartsWith(after + x, '/') { StartAppend(after, x, '/'); }
    if StartsWith(after + x, '*') { StartAppend(after, x, '*'); }
  }

  lemma PrependedNest(inner: string, rest: string, x: string)
    ensures ['('] + (inner + ([')'] + (rest + x))) == ['('] + inner + [')'] + rest + x
  {
  }

  /** A body in front of what stays open, its parenthesis closed first. */
  lemma {:induction false} Prepend(b: Body, o: Open, depth: nat) returns (p: Open)
    requires WellFormed(b, InCall) && NoLine(b) && StaysOpen(o, depth) && StartsWith(RenderRest(o), ')') && depth > 0
    ensures StaysOpen(p, depth) && RenderRest(p) == Render(b) + RenderRest(o)
    decreases b
  {
    hide CommentText;
    hide PlainIn;
    hide Render;
    hide RenderRest;
    Parts(b);
    var x := RenderRest(o);
    match b
    case End =>
      EndIsEmpty();
      p := o;
      assert "" + x == x;
    case Ch(c, rest) =>
      var more := Prepend(rest, o, depth);
      p := OpenCh(c, more);
      PlainBefore(c, Render(rest), x);
      Reassociate([c], Render(rest), x);
      RestParts(p);
    case Quoted(q, body, rest) =>
      var more := Prepend(rest, o, depth);
      p := OpenQuoted(q, body, more);
      Reassociate([q] + Render(body) + [q], Render(rest), x);
      RestParts(p);
    case Nest(open, inner, rest) =>
      var more := Prepend(rest, o, depth);
      RestParts(Higher(more));
      var front := Prepend(inner, Higher(more), depth + 1);
      p := Deeper(front);
      RestParts(p);
      PrependedNest(Render(inner), Render(rest), x);
    case BlockComment(s, rest) =>
      var more := Prepend(rest, o, depth);
      p := OpenBlock(s, more);
      CommentParts(s, rest);
      Reassociate("/" + s + "*/", Render(rest), x);
      RestParts(p);
  }

  lemma {:induction false} LineHasSlash(b: Body)
    requires WellFormed(b, InCall) && !NoLine(b)
    ensures Render(b) != ""
  {
  }

  predicate OneLine(s: string) {
    '\n' !in s
  }

  lemma RestOneLine(x: string, y: string, tail: string)
    requires OneLine(x + y + tail)
    ensures OneLine(y + tail)
  {
    assert x + y + tail == x + (y + tail);
    assert forall c :: c in y + tail ==> c in x + (y + tail);
  }

  lemma PlainOpened(c: char, rest: Body, u: string, bits: seq<Bit>, tail: string)
    requires PlainIn(c, InCall, Render(rest)) && Render(rest) != "" && StartsWith(tail, ',')
    requires Ok(bits) && Left(bits) == Render(rest) + u
    ensures PlainIn(c, InCall, Right(bits) + tail)
  {
    FirmPunctuation('$');
    StartStays(bits, '/');
    StartStays(bits, '*');
    if StartsWith(Right(bits) + tail, '/') { StartAppend(Right(bits), tail, '/'); }
    if StartsWith(Right(bits) + tail, '*') { StartAppend(Right(bits), tail, '*'); }
  }

  lemma OpenedOne(c: char, o: Open, x: string, tail: string, depth: nat) returns (p: Open)
    requires StaysOpen(o, depth) && RenderRest(o) == x + tail && PlainIn(c, InCall, x + tail)
    ensures StaysOpen(p, depth) && RenderRest(p) == [c] + x + tail
  {
    p := OpenCh(c, o);
    Reassociate([c], x, tail);
  }

  lemma OpenedCh(c: char, rest: Body, u: string, bits: seq<Bit>, tail: string, depth: nat, o: Open) returns (p: Open)
    requires Ok(bits) && bits != [] && CharOf(bits[0]) == c && PlainIn(c, InCall, Render(rest)) && Render(rest) != ""
    requires Left(bits)[1..] == Render(rest) + u && StartsWith(tail, ',')
    requires StaysOpen(o, depth) && RenderRest(o) == Right(bits[1..]) + tail
    ensures StaysOpen(p, depth) && RenderRest(p) == Right(bits) + tail
  {
    hide IsSpace;
    hide Ok;
    hide Left;
    hide Right;
    hide Render;
    hide RenderRest;
    hide StaysOpen;
    Later(bits, 1);
    RightCons(bits);
    var x := Right(bits[1..]);
    match bits[0]
    case Same(_) =>
      PlainOpened(c, rest, u, bits[1..], tail);
      p := OpenedOne(c, o, x, tail, depth);
    case Drop(_) =>
      p := o;
      assert "" + x == x;
    case Swap(_) =>
      p := OpenedOne(' ', o, x, tail, depth);
      assert [' '] + x == " " + x;
    case Spaced =>
      p := OpenedOne(' ', o, x, tail, depth);
      p := OpenedOne(',', p, [' '] + x, tail, depth);
      assert [','] + ([' '] + x) == ", " + x;
  }

  lemma OpenedLine(s: string, u: string, bits: seq<Bit>, tail: string, depth: nat) returns (o: Open)
    requires Ok(bits) && Left(bits) == "/" + ("/" + s) + "\n" + u && OneLine(Right(bits) + tail)
    ensures StaysOpen(o, depth) && RenderRest(o) == Right(bits) + tail
  {
    hide Ok;
    hide Shut;
    hide Firm;
    hide Right;
    hide Left;
    FirmPunctuation('/');
    var back := s + "\n" + u;
    assert "/" + ("/" + s) + "\n" + u == "" + ['/'] + ("" + ['/'] + back);
    var none, more := CutAtFirm(bits, "", '/', "" + ['/'] + back);
    var none2, text := CutAtFirm(more, "", '/', back);
    NothingLeft(none);
    NothingLeft(none2);
    assert Right(bits) + tail == "//" + (Right(text) + tail);
    o := LastLine(Right(text) + tail);
    assert forall c :: c in Right(text) + tail ==> c in Right(bits) + tail;
  }

  /** From the first line comment on, everything up to the end is that comment. */
  lemma {:induction false} Swallowed(b: Body, u: string, bits: seq<Bit>, tail: string, depth: nat) returns (o: Open)
    requires WellFormed(b, InCall) && !NoLine(b) && Ok(bits) && Left(bits) == Render(b) + u && depth > 0
    requires OneLine(Right(bits) + tail) && StartsWith(tail, ',')
    ensures StaysOpen(o, depth) && RenderRest(o) == Right(bits) + tail
    decreases b, 2
  {
    hide Ok;
    hide Shut;
    hide CommentText;
    hide Firm;
    hide Right;
    hide PlainIn;
    hide Render;
    hide Left;
    hide OneLine;
    Parts(b);
    match b
    case Ch(c, rest) =>
      LineHasSlash(rest);
      FirstAndRest(Left(bits), c, Render(rest) + u);
      Later(bits, 1);
      RightCons(bits);
      RestOneLine(Made(bits[0]), Right(bits[1..]), tail);
      o := Swallowed(rest, u, bits[1..], tail, depth);
      PlainAfter(b, InCall);
      o := OpenedCh(c, rest, u, bits, tail, depth, o);
    case Quoted(q, body, rest) =>
      FirmPunctuation(q);
      OnlyCallsHaveLines(body, InString(q));
      Reassociate([q] + Render(body) + [q], Render(rest), u);
      var mid, later := BracketsStay(bits, q, Render(body), q, Render(rest) + u);
      var i := Squeeze(body, mid, InString(q));
      RestOneLine([q] + Right(mid) + [q], Right(later), tail);
      o := Swallowed(rest, u, later, tail, depth);
      o := OpenQuoted(q, i, o);
      Reassociate([q] + Right(mid) + [q], Right(later), tail);
    case Nest(open, inner, rest) =>
      o := SwallowedNest(b, u, bits, tail, depth);
    case LineComment(s, rest) =>
      LineParts(s, rest);
      Reassociate("/" + ("/" + s) + "\n", Render(rest), u);
      o := OpenedLine(s, Render(rest) + u, bits, tail, depth);
    case BlockComment(s, rest) =>
      Reassociate(['/'] + s + ['*'], ['/'] + Render(rest), u);
      Reassociate(['/'], Render(rest), u);
      var mid, later := SqueezeComment(s, bits, Render(rest) + u);
      RestOneLine("/" + Right(mid) + "*/", Right(later), tail);
      o := Swallowed(rest, u, later, tail, depth);
      o := OpenBlock(Right(mid), o);
      Reassociate("/" + Right(mid) + "*/", Right(later), tail);
  }

  lemma LineParts(s: string, rest: Body)
    ensures Render(LineComment(s, rest)) == "/" + ("/" + s) + "\n" + Render(rest)
  {
  }

  lemma {:induction false} SwallowedNest(b: Body, u: string, bits: seq<Bit>, tail: string, depth: nat) returns (o: Open)
    requires b.Nest? && WellFormed(b, InCall) && !NoLine(b) && Ok(bits) && Left(bits) == Render(b) + u && depth > 0
    requires OneLine(Right(bits) + tail) && StartsWith(tail, ',')
    ensures StaysOpen(o, depth) && RenderRest(o) == Right(bits) + tail
    decreases b, 1
  {
    hide Ok;
    hide Right;
    hide Render;
    hide Left;
    hide OneLine;
    hide RenderRest;
    hide StaysOpen;
    Parts(b);
    if NoLine(b.inner) {
      Reassociate(['('] + Render(b.inner) + [')'], Render(b.rest), u);
      o := SwallowedBehind(b, u, bits, tail, depth);
    } else {
      NestAround(Render(b.inner), Render(b.rest), u);
      o := SwallowedInside(b, [')'] + Render(b.rest) + u, bits, tail, depth);
    }
  }

  lemma NestAround(inner: string, rest: string, u: string)
    ensures ['('] + inner + [')'] + rest + u == "" + ['('] + (inner + ([')'] + rest + u))
  {
  }

  /** The comment stands behind the parentheses. */
  lemma {:induction false} SwallowedBehind(b: Body, u: string, bits: seq<Bit>, tail: string, depth: nat) returns (o: Open)
    requires b.Nest? && WellFormed(b, InCall) && !NoLine(b) && NoLine(b.inner) && Ok(bits) && depth > 0
    requires Left(bits) == ['('] + Render(b.inner) + [')'] + (Render(b.rest) + u)
    requires OneLine(Right(bits) + tail) && StartsWith(tail, ',')
    ensures StaysOpen(o, depth) && RenderRest(o) == Right(bits) + tail
    decreases b, 0
  {
    hide Ok;
    hide Shut;
    hide Firm;
    hide Right;
    hide Render;
    hide Left;
    hide OneLine;
    hide RenderRest;
    FirmPunctuation('(');
    var inner, rest := b.inner, b.rest;
    var mid, later := BracketsStay(bits, '(', Render(inner), ')', Render(rest) + u);
    var i := Squeeze(inner, mid, InCall);
    RestOneLine(['('] + Right(mid) + [')'], Right(later), tail);
    var more := Swallowed(rest, u, later, tail, depth);
    RestParts(Higher(more));
    var p := Prepend(i, Higher(more), depth + 1);
    o := Deeper(p);
    RestParts(o);
    PrependedNest(Right(mid), Right(later), tail);
  }

  /** The comment stands inside the parentheses. */
  lemma {:induction false} SwallowedInside(b: Body, u: string, bits: seq<Bit>, tail: string, depth: nat) returns (o: Open)
    requires b.Nest? && WellFormed(b, InCall) && !NoLine(b.inner) && Ok(bits) && depth > 0
    requires Left(bits) == "" + ['('] + (Render(b.inner) + u)
    requires OneLine(Right(bits) + tail) && StartsWith(tail, ',')
    ensures StaysOpen(o, depth) && RenderRest(o) == Right(bits) + tail
    decreases b, 0
  {
    hide Ok;
    hide Shut;
    hide Firm;
    hide Right;
    hide Render;
    hide Left;
    hide OneLine;
    hide RenderRest;
    FirmPunctuation('(');
    var none, more := CutAtFirm(bits, "", '(', Render(b.inner) + u);
    NothingLeft(none);
    assert "" + ['('] + Right(more) == ['('] + Right(more);
    RestOneLine(['('], Right(more), tail);
    var p := Swallowed(b.inner, u, more, tail, depth + 1);
    o := Deeper(p);
    RestParts(o);
    Reassociate(['('], Right(more), tail);
  }

  // ---------- Main result ----------

  lemma TrimmedLeft(b: Body, front: string, bits: seq<Bit>, r: string) returns (t: Body)
    requires WellFormed(b, InCall) && Makes(Render(b), front, bits, r)
    ensures WellFormed(t, InCall) && Left(bits) == Render(t) + "" && (NoLine(t) <==> NoLine(b))
    ensures Ok(bits) && Right(bits) == r
  {
    t := TrimFront(b, front, Left(bits));
  }

  lemma TailIsOneLine(flat: string, arguments: string)
    requires OneLine(flat) && OneLine(arguments)
    ensures OneLine(flat + (", [" + arguments + "])"))
  {
  }

  lemma OpenedCallIsNone(call: string, o: Open)
    requires StaysOpen(o, 1) && call == "(" + RenderRest(o)
    ensures CallFrom(call, 1, 1) == RanOff && !IsCall(call)
  {
    hide CallFrom;
    hide StaysOpen;
    hide RenderRest;
    assert call[1..|call|] == RenderRest(o);
    AtSlice(call, 1, |call|, RenderRest(o));
    OpenRunsOff(call, 1, 1, o);
    ScanCallIsExact(call, 0, |call|);
  }

  /** A query with a line comment and arguments without a line break: the call runs off. */
  lemma CommentRunsOff(query: Body, arguments: string, front: string, bits: seq<Bit>, flat: string)
    requires WellFormed(query, InCall) && !NoLine(query) && Makes(Render(query), front, bits, flat)
    requires OneLine(flat) && OneLine(arguments)
    ensures CallFrom(CallWith(flat, arguments), 1, 1) == RanOff && !IsCall(CallWith(flat, arguments))
  {
    hide *;
    var t := TrimmedLeft(query, front, bits, flat);
    var tail := ", [" + arguments + "])";
    TailIsOneLine(flat, arguments);
    StartsWithComma(arguments);
    var o := Swallowed(t, "", bits, tail, 1);
    CallWithTail(flat, arguments);
    OpenedCallIsNone(CallWith(flat, arguments), o);
  }

  lemma StartsWithComma(arguments: string)
    ensures StartsWith(", [" + arguments + "])", ',')
  {
  }

  lemma CallWithTail(flat: string, arguments: string)
    ensures CallWith(flat, arguments) == "(" + (flat + (", [" + arguments + "])"))
  {
  }

  function ArgumentsOf(c: Chain): string
    requires |c.bindCall| >= 2 && Segments(Inner(c.bindCall)).Some?
  {
    Join(", ", Arguments(Segments(Inner(c.bindCall)).value))
  }

  /** The call in the rewriting of a chain. */
  function RewrittenCall(c: Chain): string
    requires |c.sqlCall| >= 2 && |c.bindCall| >= 2 && Segments(Inner(c.bindCall)).Some?
  {
    CallWith(Flatten(Inner(c.sqlCall)), ArgumentsOf(c))
  }

  lemma InFrontOfCall(x: string, flat: string, arguments: string)
    ensures x + "(" + flat + ", [" + arguments + "])" == x + CallWith(flat, arguments)
  {
  }

  /** It stands behind the verb and its type argument. */
  lemma RewrittenHasCall(c: Chain)
    requires |c.sqlCall| >= 2 && |c.bindCall| >= 2 && Segments(Inner(c.bindCall)).Some?
    ensures Rewritten(c) == "this." + c.verb + c.typeArg + RewrittenCall(c)
  {
    hide Flatten;
    hide Arguments;
    hide Segments;
    hide Join;
    hide CallWith;
    InFrontOfCall("this." + c.verb + c.typeArg, Flatten(Inner(c.sqlCall)), ArgumentsOf(c));
  }

  lemma FlatIsOneLine(sql: string)
    ensures OneLine(Flatten(sql))
  {
    FlattenIsOneLine(sql);
    assert IsLineBreak('\n');
  }

  /** For a chain without line comments in its argument list.  If there is none in its query either, the rewriting
      is a call again; and if the arguments stay on one line, it is one only then. */
  lemma RewritingIsCallIff(c: Chain)
    requires IsChain(c) && !HasLineComment(c.bindCall)
    ensures !HasLineComment(c.sqlCall) ==> IsCall(RewrittenCall(c))
    ensures '\n' !in ArgumentsOf(c) ==> (IsCall(RewrittenCall(c)) <==> !HasLineComment(c.sqlCall))
  {
    hide Flatten;
    hide Arguments;
    hide Segments;
    hide Join;
    hide Makes;
    hide HasLineComment;
    hide WellFormed;
    hide CallFrom;
    var segments := Segments(Inner(c.bindCall)).value;
    SplitIsExact(Inner(c.bindCall), segments);
    var query := BodyOfCall(c.sqlCall);
    var list := BodyOfCall(c.bindCall);
    var front1, bits1 := FlattenTurns(Inner(c.sqlCall));
    var front2, bits2 := ArgumentsTurn(segments);
    if NoLine(query) {
      var q := Tidied(query, front1, bits1, Flatten(Inner(c.sqlCall)));
      var a := Tidied(list, front2, bits2, ArgumentsOf(c));
      BodiesMakeCall(q, a);
    } else if '\n' !in ArgumentsOf(c) {
      FlatIsOneLine(Inner(c.sqlCall));
      CommentRunsOff(query, ArgumentsOf(c), front1, bits1, Flatten(Inner(c.sqlCall)));
    }
  }

  lemma {:induction false} RightIsFromLeft(bits: seq<Bit>, c: char)
    requires c in Right(bits)
    ensures c in Left(bits) || c == ' ' || c == ','
  {
    assert Right(bits) == Made(bits[0]) + Right(bits[1..]);
    if c in Made(bits[0]) {
      assert CharOf(bits[0]) in Left(bits);
    } else {
      RightIsFromLeft(bits[1..], c);
      assert Left(bits) == [CharOf(bits[0])] + Left(bits[1..]);
    }
  }

  lemma LineHasBreak(s: string, rest: Body)
    ensures !OneLine(Render(LineComment(s, rest)))
  {
    assert ("/" + ("/" + s) + "\n")[|s| + 2] == '\n';
  }

  lemma {:induction false} NoBreakNoLine(b: Body)
    requires OneLine(Render(b)) && WellFormed(b, InCall)
    ensures NoLine(b)
  {
    hide PlainIn;
    hide CommentText;
    match b
    case End =>
    case Ch(c, rest) =>
      assert Render(b) == [c] + Render(rest);
      assert forall x :: x in Render(rest) ==> x in Render(b);
      NoBreakNoLine(rest);
    case Quoted(q, body, rest) =>
      assert forall x :: x in Render(rest) ==> x in Render(b);
      OnlyCallsHaveLines(body, InString(q));
      NoBreakNoLine(rest);
    case Nest(_, inner, rest) =>
      assert forall x :: x in Render(rest) || x in Render(inner) ==> x in Render(b);
      NoBreakNoLine(inner);
      NoBreakNoLine(rest);
    case LineComment(s, rest) =>
      LineHasBreak(s, rest);
    case BlockComment(s, rest) =>
      assert forall x :: x in Render(rest) ==> x in Render(b);
      NoBreakNoLine(rest);
  }

  /** When the argument list has no line break, the rewriting is a call again if and only if there is no line
      comment in the query. */
  lemma OneLineArgumentsIff(c: Chain)
    requires IsChain(c) && '\n' !in Inner(c.bindCall)
    ensures IsCall(RewrittenCall(c)) <==> !HasLineComment(c.sqlCall)
  {
    hide Arguments;
    hide Segments;
    hide Join;
    hide HasLineComment;
    hide WellFormed;
    hide RewrittenCall;
    hide NoLine;
    hide Render;
    var segments := Segments(Inner(c.bindCall)).value;
    SplitIsExact(Inner(c.bindCall), segments);
    var list := BodyOfCall(c.bindCall);
    NoBreakNoLine(list);
    var front, bits := ArgumentsTurn(segments);
    assert '\n' in Left(bits) ==> '\n' in front + Left(bits);
    if '\n' in ArgumentsOf(c) { RightIsFromLeft(bits, '\n'); }
    RewritingIsCallIff(c);
  }
}
