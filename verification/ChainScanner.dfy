/** The delimiter scanner of the codemod: strings, braces and calls, each skipped as a whole. */
module ChainScanner {
  import opened Positions
  import opened Wrappers

  predicate IsQuote(c: char) {
    c == '\'' || c == '"' || c == '`'
  }

  // ---------- Strings and braces ----------

  /** `skip_string` from position `i` inside a string: the position behind its closing quote. */
  function StringFrom(text: string, quote: char, i: nat): (r: Option<nat>)
    ensures r.Some? ==> i < r.value <= |text|
    decreases |text| - i
  {
    if i >= |text| then None
    else if text[i] == '\\' then StringFrom(text, quote, i + 2)
    else if text[i] == '$' && quote == '`' && i + 1 < |text| && text[i + 1] == '{' then
      var close := BracesFrom(text, i + 2, 1);
      if close.None? then None else StringFrom(text, quote, close.value + 1)
    else if text[i] == quote then Some(i + 1)
    else StringFrom(text, quote, i + 1)
  }

  /** `scan_braced` from position `i` inside `depth` braces: the position of the last one's `}`. */
  function BracesFrom(text: string, i: nat, depth: nat): (r: Option<nat>)
    requires depth > 0
    ensures r.Some? ==> i <= r.value < |text| && text[r.value] == '}'
    decreases |text| - i
  {
    if i >= |text| then None
    else if IsQuote(text[i]) then
      var end := StringFrom(text, text[i], i + 1);
      if end.None? then None else BracesFrom(text, end.value, depth)
    else if text[i] == '{' then BracesFrom(text, i + 1, depth + 1)
    else if text[i] == '}' then if depth == 1 then Some(i) else BracesFrom(text, i + 1, depth - 1)
    else BracesFrom(text, i + 1, depth)
  }

  /** `skip_string`; `None` stands for the ValueError. */
  method SkipString(text: string, i: nat) returns (end: Option<nat>)
    requires i < |text| && IsQuote(text[i])
    ensures end == StringFrom(text, text[i], i + 1)
    decreases |text| - i
  {
    var quote := text[i];
    var j := i + 1;
    while j < |text|
      invariant i < j && StringFrom(text, quote, j) == StringFrom(text, quote, i + 1)
      decreases |text| - j
    {
      if text[j] == '\\' {
        j := j + 2;
        continue;
      }
      if text[j] == '$' && quote == '`' && j + 1 < |text| && text[j + 1] == '{' {
        var close := ScanBraced(text, j + 1);
        if close.None? { return None; }
        j := close.value + 1;
        continue;
      }
      if text[j] == quote { return Some(j + 1); }
      j := j + 1;
    }
    return None;
  }

  /** `scan_braced`. */
  method ScanBraced(text: string, open: nat) returns (close: Option<nat>)
    requires open < |text| && text[open] == '{'
    ensures close == BracesFrom(text, open + 1, 1)
    decreases |text| - open
  {
    var depth := 0;
    var i := open;
    while i < |text|
      invariant open <= i && depth >= 0 && (i == open <==> depth == 0)
      invariant i > open ==> BracesFrom(text, i, depth) == BracesFrom(text, open + 1, 1)
      decreases |text| - i
    {
      var ch := text[i];
      if IsQuote(ch) {
        var end := SkipString(text, i);
        if end.None? { return None; }
        i := end.value;
        continue;
      }
      if ch == '{' {
        depth := depth + 1;
      } else if ch == '}' {
        depth := depth - 1;
        if depth == 0 { return Some(i); }
      }
      i := i + 1;
    }
    return None;
  }

  // ---------- Calls ----------

  function LineEnd(text: string, i: nat): (r: Option<nat>)
    ensures r.Some? ==> i <= r.value < |text| && text[r.value] == '\n'
    ensures forall k :: i <= k < (if r.Some? then r.value else |text|) ==> text[k] != '\n'
    decreases |text| - i
  {
    if i >= |text| then None else if text[i] == '\n' then Some(i) else LineEnd(text, i + 1)
  }

  predicate EndsBlock(text: string, k: nat) {
    k + 1 < |text| && text[k] == '*' && text[k + 1] == '/'
  }

  // `text.find("*/", i)`.
  function BlockEnd(text: string, i: nat): (r: Option<nat>)
    ensures r.Some? ==> i <= r.value && EndsBlock(text, r.value)
    ensures forall k :: i <= k && (r.None? || k < r.value) ==> !EndsBlock(text, k)
    decreases |text| - i
  {
    if i >= |text| then None else if EndsBlock(text, i) then Some(i) else BlockEnd(text, i + 1)
  }

  predicate StartsLine(text: string, i: nat) {
    i + 1 < |text| && text[i] == '/' && text[i + 1] == '/'
  }

  predicate StartsBlock(text: string, i: nat) {
    i + 1 < |text| && text[i] == '/' && text[i + 1] == '*'
  }

  /** How `scan_call` ends: behind the closing parenthesis; at the end of the text, in a line comment; with
      a ValueError; or, inside `depth` parentheses, at a block comment that is never closed, where the search
      for its end gives -1 and the scan starts again at position 1. */
  datatype Call = Closed(end: nat) | RanOff | Unbalanced | Lost(depth: nat)

  /** `scan_call` from position `i` inside `depth` parentheses. */
  function CallFrom(text: string, i: nat, depth: nat): (r: Call)
    requires depth > 0
    ensures r.Closed? ==> i < r.end <= |text| && text[r.end - 1] == ')'
    ensures r.Lost? ==> r.depth > 0
    decreases |text| - i
  {
    if i >= |text| then Unbalanced
    else if IsQuote(text[i]) then
      var end := StringFrom(text, text[i], i + 1);
      if end.None? then Unbalanced else CallFrom(text, end.value, depth)
    else if StartsLine(text, i) then
      var end := LineEnd(text, i);
      if end.None? then RanOff else CallFrom(text, end.value, depth)
    else if StartsBlock(text, i) then
      var end := BlockEnd(text, i);
      if end.None? then Lost(depth) else CallFrom(text, end.value + 2, depth)
    else if text[i] == '(' then CallFrom(text, i + 1, depth + 1)
    else if text[i] == ')' then if depth == 1 then Closed(i + 1) else CallFrom(text, i + 1, depth - 1)
    else CallFrom(text, i + 1, depth)
  }

  /** Every block comment that starts at `i` or later is closed. */
  predicate CommentsClosed(text: string, i: nat) {
    forall k :: i <= k < |text| && StartsBlock(text, k) ==> BlockEnd(text, k).Some?
  }

  /** Then no call that begins there meets an unclosed one. */
  lemma {:induction false} NotLost(text: string, i: nat, depth: nat)
    requires depth > 0 && CommentsClosed(text, i)
    ensures !CallFrom(text, i, depth).Lost?
    decreases |text| - i
  {
    if i < |text| {
      if IsQuote(text[i]) {
        var end := StringFrom(text, text[i], i + 1);
        if end.Some? { NotLost(text, end.value, depth); }
      } else if StartsLine(text, i) {
        var end := LineEnd(text, i);
        if end.Some? { NotLost(text, end.value, depth); }
      } else if StartsBlock(text, i) {
        NotLost(text, BlockEnd(text, i).value + 2, depth);
      } else if text[i] == '(' {
        NotLost(text, i + 1, depth + 1);
      } else if text[i] != ')' || depth > 1 {
        NotLost(text, i + 1, if text[i] == ')' then depth - 1 else depth);
      }
    }
  }

  // ---------- The notation the scanner reads ----------

  datatype Mode = InString(quote: char) | InBraces | InCall

  datatype Body =
    | End
    | Ch(c: char, rest: Body)
    | Esc(c: char, rest: Body)
    | Hole(inner: Body, rest: Body)
    | Quoted(quote: char, body: Body, rest: Body)
    | Nest(open: char, inner: Body, rest: Body)
    | LineComment(s: string, rest: Body)
    | BlockComment(s: string, rest: Body)

  function CloseOf(open: char): char {
    if open == '{' then '}' else ')'
  }

  function OpenOf(mode: Mode): char {
    if mode.InBraces? then '{' else '('
  }

  function Render(b: Body): string {
    match b
    case End => ""
    case Ch(c, rest) => [c] + Render(rest)
    case Esc(c, rest) => ['\\', c] + Render(rest)
    case Hole(inner, rest) => "$" + (['{'] + Render(inner) + ['}'] + Render(rest))
    case Quoted(q, body, rest) => [q] + Render(body) + [q] + Render(rest)
    case Nest(open, inner, rest) => [open] + Render(inner) + [CloseOf(open)] + Render(rest)
    case LineComment(s, rest) => "/" + ("/" + s) + "\n" + Render(rest)
    case BlockComment(s, rest) => "/" + s + "*/" + Render(rest)
  }

  predicate StartsWith(s: string, c: char) {
    s != "" && s[0] == c
  }

  /** A character that means nothing where it stands, given what follows it. */
  predicate PlainIn(c: char, mode: Mode, after: string) {
    match mode
    case InString(q) => c != '\\' && c != q && !(q == '`' && c == '$' && StartsWith(after, '{'))
    case InBraces => c !in {'\'', '"', '`'} && c != '{' && c != '}'
    case InCall =>
      c !in {'\'', '"', '`'} && c != '(' && c != ')' && !(c == '/' && (StartsWith(after, '/') || StartsWith(after, '*')))
  }

  /** The text of a block comment between its `/` and its first `*` `/`; it is empty in the comment made of
      slash, star, slash. */
  predicate CommentText(s: string) {
    (s == "" || s[0] == '*') && forall k :: 0 <= k < |s| ==> !EndsBlock(s + "*/", k)
  }

  /** Strings have escapes and, between backquotes, holes; braces have strings and braces; calls have strings,
      parentheses and comments. */
  predicate WellFormed(b: Body, mode: Mode) {
    match b
    case End => true
    case Ch(c, rest) => PlainIn(c, mode, Render(rest)) && WellFormed(rest, mode)
    case Esc(_, rest) => mode.InString? && WellFormed(rest, mode)
    case Hole(inner, rest) => mode == InString('`') && WellFormed(inner, InBraces) && WellFormed(rest, mode)
    case Quoted(q, body, rest) =>
      !mode.InString? && q in {'\'', '"', '`'} && WellFormed(body, InString(q)) && WellFormed(rest, mode)
    case Nest(open, inner, rest) =>
      !mode.InString? && open == OpenOf(mode) && WellFormed(inner, mode) && WellFormed(rest, mode)
    case LineComment(s, rest) => mode.InCall? && '\n' !in s && WellFormed(rest, mode)
    case BlockComment(s, rest) => mode.InCall? && CommentText(s) && WellFormed(rest, mode)
  }

  // ---------- The scanners pass what is well-formed ----------

  lemma AtPair(text: string, i: nat, a: char, b: char, rest: string)
    requires At(text, i, [a, b] + rest)
    ensures i + 1 < |text| && text[i] == a && text[i + 1] == b && At(text, i + 2, rest)
  {
    AtSplit(text, i, [a, b], rest);
    AtHead(text, i, [a, b]);
    AtHead(text, i + 1, [a, b][1..]);
  }

  lemma AtBracketed(text: string, i: nat, open: char, inner: string, close: char, rest: string)
    requires At(text, i, [open] + inner + [close] + rest)
    ensures i + 1 + |inner| < |text| && text[i] == open && text[i + 1 + |inner|] == close
    ensures At(text, i + 1, inner) && At(text, i + 1, inner + [close]) && At(text, i + 2 + |inner|, rest)
  {
    AtSplit(text, i, [open] + inner + [close], rest);
    AtEnclosed(text, i, open, inner, close);
    assert At(text, i + 1 + |inner|, [close]);
    AtSplit(text, i + 1, inner, [close]);
  }

  lemma AtOne(text: string, i: nat, c: char, rest: string)
    requires At(text, i, [c] + rest)
    ensures i < |text| && text[i] == c && At(text, i + 1, rest)
  {
    AtHead(text, i, [c] + rest);
    assert ([c] + rest)[1..] == rest;
  }

  /** What follows a character is what follows it in the text. */
  lemma AfterIs(text: string, i: nat, after: string, close: char, d: char)
    requires At(text, i, after + [close]) && close != d
    ensures (i < |text| && text[i] == d) <==> StartsWith(after, d)
  {
    AtHead(text, i, after + [close]);
  }

  lemma StepInString(text: string, q: char, i: nat, c: char, after: string)
    requires PlainIn(c, InString(q), after) && IsQuote(q) && At(text, i, [c] + (after + [q]))
    ensures StringFrom(text, q, i) == StringFrom(text, q, i + 1) && At(text, i + 1, after + [q])
  {
    AtOne(text, i, c, after + [q]);
    AfterIs(text, i + 1, after, q, '{');
  }

  lemma StepHole(text: string, i: nat, inner: string, tail: string)
    requires At(text, i, ['$'] + (['{'] + inner + ['}'] + tail))
    requires BracesFrom(text, i + 2, 1) == Some(i + 2 + |inner|)
    ensures StringFrom(text, '`', i) == StringFrom(text, '`', i + 3 + |inner|)
  {
    AtOne(text, i, '$', ['{'] + inner + ['}'] + tail);
    AtBracketed(text, i + 1, '{', inner, '}', tail);
  }

  lemma BracesClose(text: string, i: nat)
    requires i < |text| && text[i] == '}'
    ensures BracesFrom(text, i, 1) == Some(i)
  {
  }

  lemma StringEnds(text: string, q: char, i: nat)
    requires IsQuote(q) && At(text, i, [q])
    ensures StringFrom(text, q, i) == Some(i + 1)
  {
    AtHead(text, i, [q]);
  }

  lemma StepEscaped(text: string, q: char, i: nat)
    requires i < |text| && text[i] == '\\'
    ensures StringFrom(text, q, i) == StringFrom(text, q, i + 2)
  {
  }

  lemma SplitInString(b: Body, q: char)
    requires WellFormed(b, InString(q))
    ensures b.End? ==> Render(b) + [q] == [q]
    ensures b.Ch? ==> Render(b) + [q] == [b.c] + (Render(b.rest) + [q])
    ensures b.Esc? ==> Render(b) + [q] == ['\\', b.c] + (Render(b.rest) + [q])
    ensures b.Hole? ==> Render(b) + [q] == ['$'] + (['{'] + Render(b.inner) + ['}'] + (Render(b.rest) + [q]))
  {
    hide WellFormed;
  }

  lemma {:induction false} PassesString(text: string, q: char, i: nat, b: Body)
    requires IsQuote(q) && WellFormed(b, InString(q)) && At(text, i, Render(b) + [q])
    ensures StringFrom(text, q, i) == Some(i + |Render(b)| + 1)
    decreases b
  {
    hide At;
    hide StringFrom;
    hide BracesFrom;
    hide Render;
    SplitInString(b, q);
    match b
    case End =>
      StringEnds(text, q, i);
    case Ch(c, rest) =>
      StepInString(text, q, i, c, Render(rest));
      PassesString(text, q, i + 1, rest);
    case Esc(c, rest) =>
      AtPair(text, i, '\\', c, Render(rest) + [q]);
      StepEscaped(text, q, i);
      PassesString(text, q, i + 2, rest);
    case Hole(inner, rest) =>
      var tail := Render(rest) + [q];
      AtOne(text, i, '$', ['{'] + Render(inner) + ['}'] + tail);
      AtBracketed(text, i + 1, '{', Render(inner), '}', tail);
      PassesBraces(text, i + 2, 1, inner);
      BracesClose(text, i + 2 + |Render(inner)|);
      StepHole(text, i, Render(inner), tail);
      PassesString(text, q, i + 3 + |Render(inner)|, rest);
  }

  lemma StepInBraces(text: string, i: nat, depth: nat)
    requires depth > 0 && i < |text|
    ensures text[i] == '{' ==> BracesFrom(text, i, depth) == BracesFrom(text, i + 1, depth + 1)
    ensures text[i] == '}' ==> BracesFrom(text, i, depth + 1) == BracesFrom(text, i + 1, depth)
    ensures !IsQuote(text[i]) && text[i] != '{' && text[i] != '}'
            ==> BracesFrom(text, i, depth) == BracesFrom(text, i + 1, depth)
  {
  }

  lemma StepQuotedInBraces(text: string, i: nat, depth: nat, end: nat)
    requires depth > 0 && i < |text| && IsQuote(text[i]) && StringFrom(text, text[i], i + 1) == Some(end)
    ensures BracesFrom(text, i, depth) == BracesFrom(text, end, depth)
  {
  }

  lemma {:induction false} PassesBraces(text: string, i: nat, depth: nat, b: Body)
    requires depth > 0 && WellFormed(b, InBraces) && At(text, i, Render(b))
    ensures BracesFrom(text, i, depth) == BracesFrom(text, i + |Render(b)|, depth)
    decreases b
  {
    hide At;
    hide StringFrom;
    hide BracesFrom;
    match b
    case End =>
    case Ch(c, rest) =>
      AtOne(text, i, c, Render(rest));
      StepInBraces(text, i, depth);
      PassesBraces(text, i + 1, depth, rest);
    case Quoted(q, body, rest) =>
      AtBracketed(text, i, q, Render(body), q, Render(rest));
      PassesString(text, q, i + 1, body);
      StepQuotedInBraces(text, i, depth, i + 2 + |Render(body)|);
      PassesBraces(text, i + 2 + |Render(body)|, depth, rest);
    case Nest(open, inner, rest) =>
      var n := i + 1 + |Render(inner)|;
      AtBracketed(text, i, '{', Render(inner), '}', Render(rest));
      StepInBraces(text, i, depth);
      PassesBraces(text, i + 1, depth + 1, inner);
      StepInBraces(text, n, depth);
      PassesBraces(text, n + 1, depth, rest);
  }

  lemma BlockEndIs(text: string, i: nat, s: string, rest: string)
    requires CommentText(s) && At(text, i, "/" + s + "*/" + rest)
    ensures StartsBlock(text, i) && BlockEnd(text, i) == Some(i + 1 + |s|) && At(text, i + 3 + |s|, rest)
  {
    AtSplit(text, i, "/" + s + "*/", rest);
    assert "/" + s + "*/" == ['/'] + (s + "*/");
    AtOne(text, i, '/', s + "*/");
    forall k | 0 <= k < |s + "*/"| ensures text[i + 1 + k] == (s + "*/")[k] {
    }
    forall k | i <= k < i + 1 + |s| ensures !EndsBlock(text, k) {
      if k > i { assert !EndsBlock(s + "*/", k - i - 1); }
    }
    assert (s + "*/")[|s|] == '*' && (s + "*/")[|s| + 1] == '/';
    assert EndsBlock(text, i + 1 + |s|);
    assert (s + "*/")[0] == '*';
  }

  lemma LineEndIs(text: string, i: nat, s: string, rest: string)
    requires '\n' !in s && At(text, i, "/" + ("/" + s) + "\n" + rest)
    ensures StartsLine(text, i) && LineEnd(text, i) == Some(i + 2 + |s|) && At(text, i + 3 + |s|, rest)
  {
    AtBracketed(text, i, '/', "/" + s, '\n', rest);
    forall k | 0 <= k < |"/" + s| ensures text[i + 1 + k] == ("/" + s)[k] && text[i + 1 + k] != '\n' {
      if k > 0 { assert ("/" + s)[k] == s[k - 1]; }
    }
    assert text[i + 1] == ("/" + s)[0];
    forall k | i <= k < i + 2 + |s| ensures text[k] != '\n' {
      if k > i {
        var m := k - i - 1;
        assert text[i + 1 + m] == ("/" + s)[m];
      }
    }
    assert text[i + 2 + |s|] == '\n';
  }

  lemma StepPlain(text: string, i: nat, depth: nat, c: char, after: string)
    requires depth > 0 && PlainIn(c, InCall, after) && At(text, i, [c] + (after + ")"))
    ensures CallFrom(text, i, depth) == CallFrom(text, i + 1, depth) && At(text, i + 1, after + ")")
  {
    AtOne(text, i, c, after + ")");
    AfterIs(text, i + 1, after, ')', '/');
    AfterIs(text, i + 1, after, ')', '*');
  }

  lemma StepQuoted(text: string, i: nat, depth: nat, end: nat)
    requires depth > 0 && i < |text| && IsQuote(text[i]) && StringFrom(text, text[i], i + 1) == Some(end)
    ensures CallFrom(text, i, depth) == CallFrom(text, end, depth)
  {
  }

  lemma StepParens(text: string, i: nat, depth: nat)
    requires depth > 0 && i < |text|
    ensures text[i] == '(' ==> CallFrom(text, i, depth) == CallFrom(text, i + 1, depth + 1)
    ensures text[i] == ')' ==> CallFrom(text, i, depth + 1) == CallFrom(text, i + 1, depth)
  {
  }

  lemma StepLineComment(text: string, i: nat, depth: nat, s: string, rest: string)
    requires depth > 0 && '\n' !in s && At(text, i, "/" + ("/" + s) + "\n" + rest)
    ensures CallFrom(text, i, depth) == CallFrom(text, i + 3 + |s|, depth) && At(text, i + 3 + |s|, rest)
  {
    LineEndIs(text, i, s, rest);
    assert text[i + 2 + |s|] == '\n';
  }

  lemma StepBlockComment(text: string, i: nat, depth: nat, s: string, rest: string)
    requires depth > 0 && CommentText(s) && At(text, i, "/" + s + "*/" + rest)
    ensures CallFrom(text, i, depth) == CallFrom(text, i + 3 + |s|, depth) && At(text, i + 3 + |s|, rest)
  {
    BlockEndIs(text, i, s, rest);
  }

  lemma EndIsEmpty()
    ensures Render(End) == ""
  {
  }

  /** The parts of a body, found in the text. */
  lemma SplitInCall(text: string, i: nat, b: Body)
    requires b.Ch? || b.Quoted? || (b.Nest? && b.open == '(')
    requires At(text, i, Render(b) + ")")
    ensures b.Ch? ==> At(text, i, [b.c] + (Render(b.rest) + ")")) && |Render(b)| == 1 + |Render(b.rest)|
    ensures b.Quoted? ==>
              && i < |text| && text[i] == b.quote && At(text, i + 1, Render(b.body) + [b.quote])
              && At(text, i + 2 + |Render(b.body)|, Render(b.rest) + ")")
              && |Render(b)| == 2 + |Render(b.body)| + |Render(b.rest)|
    ensures b.Nest? ==>
              && i + 1 + |Render(b.inner)| < |text| && text[i] == '(' && text[i + 1 + |Render(b.inner)|] == ')'
              && At(text, i + 1, Render(b.inner) + ")") && At(text, i + 2 + |Render(b.inner)|, Render(b.rest) + ")")
              && |Render(b)| == 2 + |Render(b.inner)| + |Render(b.rest)|
  {
    hide At;
    var after := Render(b.rest) + ")";
    if b.Ch? {
      assert Render(b) + ")" == [b.c] + after;
    } else if b.Quoted? {
      assert Render(b) + ")" == [b.quote] + Render(b.body) + [b.quote] + after;
      AtBracketed(text, i, b.quote, Render(b.body), b.quote, after);
    } else {
      assert Render(b) + ")" == ['('] + Render(b.inner) + [')'] + after;
      AtBracketed(text, i, '(', Render(b.inner), ')', after);
    }
  }

  lemma PassesComment(text: string, i: nat, depth: nat, b: Body)
    requires (b.LineComment? || b.BlockComment?) && WellFormed(b, InCall)
    requires depth > 0 && At(text, i, Render(b) + ")")
    ensures CallFrom(text, i, depth) == CallFrom(text, i + 3 + |b.s|, depth)
    ensures At(text, i + 3 + |b.s|, Render(b.rest) + ")") && |Render(b)| == 3 + |b.s| + |Render(b.rest)|
  {
    hide At;
    hide CallFrom;
    var after := Render(b.rest) + ")";
    if b.LineComment? {
      assert Render(b) + ")" == "/" + ("/" + b.s) + "\n" + after;
      StepLineComment(text, i, depth, b.s, after);
    } else {
      assert Render(b) + ")" == "/" + b.s + "*/" + after;
      StepBlockComment(text, i, depth, b.s, after);
    }
  }

  lemma {:induction false} PassesCall(text: string, i: nat, depth: nat, b: Body)
    requires depth > 0 && WellFormed(b, InCall) && At(text, i, Render(b) + ")")
    ensures CallFrom(text, i, depth) == CallFrom(text, i + |Render(b)|, depth)
    decreases b
  {
    hide At;
    hide CallFrom;
    hide StringFrom;
    hide PlainIn;
    hide CommentText;
    hide Render;
    match b
    case End =>
      EndIsEmpty();
    case Ch(c, rest) =>
      SplitInCall(text, i, b);
      StepPlain(text, i, depth, c, Render(rest));
      PassesCall(text, i + 1, depth, rest);
    case Quoted(q, body, rest) =>
      SplitInCall(text, i, b);
      PassesString(text, q, i + 1, body);
      StepQuoted(text, i, depth, i + 2 + |Render(body)|);
      PassesCall(text, i + 2 + |Render(body)|, depth, rest);
    case Nest(open, inner, rest) =>
      var n := i + 1 + |Render(inner)|;
      SplitInCall(text, i, b);
      StepParens(text, i, depth);
      PassesCall(text, i + 1, depth + 1, inner);
      StepParens(text, n, depth);
      PassesCall(text, n + 1, depth, rest);
    case LineComment(s, rest) =>
      PassesComment(text, i, depth, b);
      PassesCall(text, i + 3 + |s|, depth, rest);
    case BlockComment(s, rest) =>
      PassesComment(text, i, depth, b);
      PassesCall(text, i + 3 + |s|, depth, rest);
  }

  // ---------- What the scanners pass is well-formed ----------

  /** What a scanner has behind it when it stops: one body for each bracket open where it started. */
  function RenderOpen(bodies: seq<Body>, close: char): string
    requires bodies != []
  {
    if |bodies| == 1 then Render(bodies[0]) else Render(bodies[0]) + [close] + RenderOpen(bodies[1..], close)
  }

  predicate AllWellFormed(bodies: seq<Body>, mode: Mode) {
    forall b :: b in bodies ==> WellFormed(b, mode)
  }

  lemma ExtendFirst(bodies: seq<Body>, b: Body, x: string, close: char)
    requires bodies != [] && Render(b) == x + Render(bodies[0])
    ensures RenderOpen([b] + bodies[1..], close) == x + RenderOpen(bodies, close)
  {
    assert ([b] + bodies[1..])[1..] == bodies[1..];
  }

  lemma Regroup(o: string, a: string, x: string, c: string, r: string)
    ensures o + a + x + c == o + (a + x + c)
    ensures (o + a + x + c) + x + r == o + (a + x + (c + x + r))
  {
  }

  lemma MergeFirstTwo(bodies: seq<Body>, open: char)
    requires |bodies| >= 2
    ensures RenderOpen([Nest(open, bodies[0], bodies[1])] + bodies[2..], CloseOf(open))
            == [open] + RenderOpen(bodies, CloseOf(open))
  {
    var merged := [Nest(open, bodies[0], bodies[1])] + bodies[2..];
    assert merged[1..] == bodies[2..] == bodies[1..][1..];
    var later := if |bodies| > 2 then RenderOpen(bodies[2..], CloseOf(open)) else "";
    Regroup([open], Render(bodies[0]), [CloseOf(open)], Render(bodies[1]), later);
  }

  lemma StillWellFormed(bodies: seq<Body>, b: Body, n: nat, mode: Mode)
    requires n <= |bodies| && AllWellFormed(bodies, mode) && WellFormed(b, mode)
    ensures AllWellFormed([b] + bodies[n..], mode)
  {
  }

  lemma OpenFirst(bodies: seq<Body>, close: char)
    requires bodies != []
    ensures RenderOpen([End] + bodies, close) == [close] + RenderOpen(bodies, close)
  {
    assert ([End] + bodies)[1..] == bodies;
  }

  /** The first character of what was read is the first of its first body, if that has one. */
  lemma FirstOfOpen(bodies: seq<Body>, close: char, d: char)
    requires bodies != [] && StartsWith(Render(bodies[0]), d)
    ensures StartsWith(RenderOpen(bodies, close), d)
  {
  }

  lemma StartsAt(text: string, i: nat, x: string, d: char)
    requires At(text, i, x) && StartsWith(x, d)
    ensures i < |text| && text[i] == d
  {
    AtHead(text, i, x);
  }

  lemma AtPush(text: string, i: nat, x: string)
    requires i < |text| && At(text, i + 1, x)
    ensures At(text, i, [text[i]] + x)
  {
    AtCons(text, i, x, [text[i]] + x);
  }

  lemma AfterIsNot(text: string, i: nat, x: string, y: string)
    requires At(text, i, x + y)
    ensures forall d :: StartsWith(x, d) ==> i < |text| && text[i] == d
  {
    AtSplit(text, i, x, y);
  }

  lemma AtTwo(text: string, i: nat, x: string)
    requires i + 1 < |text| && At(text, i + 2, x)
    ensures At(text, i, [text[i], text[i + 1]] + x)
  {
    AtCons(text, i + 1, x, [text[i + 1]] + x);
    AtCons(text, i, [text[i + 1]] + x, [text[i], text[i + 1]] + x);
  }

  lemma AtHole(text: string, i: nat, inner: string, tail: string)
    requires i + 2 + |inner| < |text| && text[i] == '$' && text[i + 1] == '{' && text[i + 2 + |inner|] == '}'
    requires At(text, i + 2, inner) && At(text, i + 3 + |inner|, tail)
    ensures At(text, i, "$" + (['{'] + inner + ['}'] + tail))
  {
    AtPush(text, i + 2 + |inner|, tail);
    AtSplit(text, i + 2, inner, ['}'] + tail);
    AtPush(text, i + 1, inner + (['}'] + tail));
    assert ['{'] + inner + ['}'] + tail == ['{'] + (inner + (['}'] + tail));
    AtPush(text, i, ['{'] + inner + ['}'] + tail);
  }

  lemma {:induction false} ReadsString(text: string, q: char, i: nat) returns (b: Body)
    requires IsQuote(q) && StringFrom(text, q, i).Some?
    ensures WellFormed(b, InString(q)) && At(text, i, Render(b) + [q])
    ensures StringFrom(text, q, i).value == i + |Render(b)| + 1
    decreases |text| - i
  {
    hide At;
    if text[i] == '\\' {
      var rest := ReadsString(text, q, i + 2);
      b := Esc(text[i + 1], rest);
      AtTwo(text, i, Render(rest) + [q]);
      assert Render(b) + [q] == [text[i], text[i + 1]] + (Render(rest) + [q]);
    } else if text[i] == '$' && q == '`' && i + 1 < |text| && text[i + 1] == '{' {
      var bodies := ReadsBraces(text, i + 2, 1);
      var inner := bodies[0];
      var rest := ReadsString(text, q, i + 3 + |Render(inner)|);
      b := Hole(inner, rest);
      AtHole(text, i, Render(inner), Render(rest) + [q]);
      assert Render(b) + [q] == "$" + (['{'] + Render(inner) + ['}'] + (Render(rest) + [q]));
    } else if text[i] == q {
      b := End;
      AtEmpty(text, i + 1);
      AtPush(text, i, "");
      assert Render(b) + [q] == [q] + "";
    } else {
      var rest := ReadsString(text, q, i + 1);
      b := Ch(text[i], rest);
      AtPush(text, i, Render(rest) + [q]);
      AfterIsNot(text, i + 1, Render(rest), [q]);
      assert Render(b) + [q] == [text[i]] + (Render(rest) + [q]);
    }
  }

  /** What was read, extended by a string literal in front. */
  lemma QuotedFirst(text: string, i: nat, body: Body, later: seq<Body>, mode: Mode) returns (bodies: seq<Body>)
    requires i < |text| && IsQuote(text[i]) && !mode.InString? && WellFormed(body, InString(text[i]))
    requires At(text, i + 1, Render(body) + [text[i]]) && later != [] && AllWellFormed(later, mode)
    requires At(text, i + 2 + |Render(body)|, RenderOpen(later, CloseOf(OpenOf(mode))))
    ensures |bodies| == |later| && AllWellFormed(bodies, mode)
    ensures At(text, i, RenderOpen(bodies, CloseOf(OpenOf(mode))))
    ensures |RenderOpen(bodies, CloseOf(OpenOf(mode)))|
            == 2 + |Render(body)| + |RenderOpen(later, CloseOf(OpenOf(mode)))|
  {
    hide At;
    var close := CloseOf(OpenOf(mode));
    var x := Render(body) + [text[i]];
    bodies := [Quoted(text[i], body, later[0])] + later[1..];
    ExtendFirst(later, bodies[0], [text[i]] + Render(body) + [text[i]], close);
    AtSplit(text, i + 1, x, RenderOpen(later, close));
    AtPush(text, i, x + RenderOpen(later, close));
    assert RenderOpen(bodies, close) == [text[i]] + (x + RenderOpen(later, close));
    StillWellFormed(later, bodies[0], 1, mode);
  }

  lemma NestFirst(text: string, i: nat, later: seq<Body>, mode: Mode) returns (bodies: seq<Body>)
    requires i < |text| && text[i] == OpenOf(mode) && !mode.InString? && |later| >= 2 && AllWellFormed(later, mode)
    requires At(text, i + 1, RenderOpen(later, CloseOf(OpenOf(mode))))
    ensures |bodies| == |later| - 1 && AllWellFormed(bodies, mode)
    ensures At(text, i, RenderOpen(bodies, CloseOf(OpenOf(mode))))
    ensures |RenderOpen(bodies, CloseOf(OpenOf(mode)))| == 1 + |RenderOpen(later, CloseOf(OpenOf(mode)))|
  {
    bodies := [Nest(text[i], later[0], later[1])] + later[2..];
    MergeFirstTwo(later, text[i]);
    AtPush(text, i, RenderOpen(later, CloseOf(OpenOf(mode))));
    StillWellFormed(later, bodies[0], 2, mode);
  }

  lemma CloseFirst(text: string, i: nat, later: seq<Body>, mode: Mode) returns (bodies: seq<Body>)
    requires i < |text| && text[i] == CloseOf(OpenOf(mode)) && later != [] && AllWellFormed(later, mode)
    requires At(text, i + 1, RenderOpen(later, CloseOf(OpenOf(mode))))
    ensures |bodies| == |later| + 1 && AllWellFormed(bodies, mode)
    ensures At(text, i, RenderOpen(bodies, CloseOf(OpenOf(mode))))
    ensures |RenderOpen(bodies, CloseOf(OpenOf(mode)))| == 1 + |RenderOpen(later, CloseOf(OpenOf(mode)))|
  {
    bodies := [End] + later;
    OpenFirst(later, text[i]);
    AtPush(text, i, RenderOpen(later, text[i]));
    StillWellFormed(later, End, 0, mode);
  }

  lemma NoneOpen(text: string, i: nat, mode: Mode)
    requires i <= |text|
    ensures AllWellFormed([End], mode) && RenderOpen([End], CloseOf(OpenOf(mode))) == ""
    ensures At(text, i, "")
  {
  }

  lemma PlainInBracesFirst(text: string, i: nat, later: seq<Body>) returns (bodies: seq<Body>)
    requires i < |text| && !IsQuote(text[i]) && text[i] != '{' && text[i] != '}'
    requires later != [] && AllWellFormed(later, InBraces) && At(text, i + 1, RenderOpen(later, '}'))
    ensures |bodies| == |later| && AllWellFormed(bodies, InBraces) && At(text, i, RenderOpen(bodies, '}'))
    ensures |RenderOpen(bodies, '}')| == 1 + |RenderOpen(later, '}')|
  {
    bodies := [Ch(text[i], later[0])] + later[1..];
    ExtendFirst(later, bodies[0], [text[i]], '}');
    AtPush(text, i, RenderOpen(later, '}'));
    StillWellFormed(later, bodies[0], 1, InBraces);
  }

  lemma {:induction false} ReadsBraces(text: string, i: nat, depth: nat) returns (bodies: seq<Body>)
    requires depth > 0 && BracesFrom(text, i, depth).Some?
    ensures |bodies| == depth && AllWellFormed(bodies, InBraces)
    ensures At(text, i, RenderOpen(bodies, '}')) && BracesFrom(text, i, depth).value == i + |RenderOpen(bodies, '}')|
    decreases |text| - i
  {
    hide At;
    hide AllWellFormed;
    hide WellFormed;
    hide Render;
    hide RenderOpen;
    if IsQuote(text[i]) {
      var body := ReadsString(text, text[i], i + 1);
      var later := ReadsBraces(text, i + 2 + |Render(body)|, depth);
      bodies := QuotedFirst(text, i, body, later, InBraces);
    } else if text[i] == '{' {
      var later := ReadsBraces(text, i + 1, depth + 1);
      bodies := NestFirst(text, i, later, InBraces);
    } else if text[i] == '}' && depth == 1 {
      bodies := [End];
      NoneOpen(text, i, InBraces);
    } else if text[i] == '}' {
      var later := ReadsBraces(text, i + 1, depth - 1);
      bodies := CloseFirst(text, i, later, InBraces);
    } else {
      var later := ReadsBraces(text, i + 1, depth);
      bodies := PlainInBracesFirst(text, i, later);
    }
  }

  lemma AtItself(text: string, i: nat, n: nat, y: string)
    requires i <= n <= |text| && At(text, n, y)
    ensures At(text, i, text[i..n] + y)
  {
    AtSlice(text, i, n, text[i..n]);
    AtSplit(text, i, text[i..n], y);
  }

  lemma LineCommentFirst(text: string, i: nat, n: nat, later: seq<Body>) returns (bodies: seq<Body>)
    requires StartsLine(text, i) && LineEnd(text, i) == Some(n) && later != [] && AllWellFormed(later, InCall)
    requires At(text, n + 1, RenderOpen(later, ')'))
    ensures |bodies| == |later| && AllWellFormed(bodies, InCall) && At(text, i, RenderOpen(bodies, ')'))
    ensures |RenderOpen(bodies, ')')| == n + 1 - i + |RenderOpen(later, ')')|
  {
    var s := text[i + 2..n];
    bodies := [LineComment(s, later[0])] + later[1..];
    assert text[i..n + 1] == "/" + ("/" + s) + "\n";
    AtItself(text, i, n + 1, RenderOpen(later, ')'));
    ExtendFirst(later, bodies[0], text[i..n + 1], ')');
    StillWellFormed(later, bodies[0], 1, InCall);
  }

  lemma BlockCommentFirst(text: string, i: nat, n: nat, later: seq<Body>) returns (bodies: seq<Body>)
    requires StartsBlock(text, i) && BlockEnd(text, i) == Some(n) && later != [] && AllWellFormed(later, InCall)
    requires At(text, n + 2, RenderOpen(later, ')'))
    ensures |bodies| == |later| && AllWellFormed(bodies, InCall) && At(text, i, RenderOpen(bodies, ')'))
    ensures |RenderOpen(bodies, ')')| == n + 2 - i + |RenderOpen(later, ')')|
  {
    var s := text[i + 1..n];
    bodies := [BlockComment(s, later[0])] + later[1..];
    assert text[i..n + 2] == "/" + s + "*/";
    assert s + "*/" == text[i + 1..n + 2];
    forall k | 0 <= k < |s| ensures !EndsBlock(s + "*/", k) {
      assert !EndsBlock(text, i + 1 + k);
    }
    AtItself(text, i, n + 2, RenderOpen(later, ')'));
    ExtendFirst(later, bodies[0], text[i..n + 2], ')');
    StillWellFormed(later, bodies[0], 1, InCall);
  }

  lemma PlainFirst(text: string, i: nat, later: seq<Body>) returns (bodies: seq<Body>)
    requires i < |text| && !IsQuote(text[i]) && text[i] != '(' && text[i] != ')'
    requires !StartsLine(text, i) && !StartsBlock(text, i)
    requires later != [] && AllWellFormed(later, InCall) && At(text, i + 1, RenderOpen(later, ')'))
    ensures |bodies| == |later| && AllWellFormed(bodies, InCall) && At(text, i, RenderOpen(bodies, ')'))
    ensures |RenderOpen(bodies, ')')| == 1 + |RenderOpen(later, ')')|
  {
    bodies := [Ch(text[i], later[0])] + later[1..];
    forall d | StartsWith(Render(later[0]), d) ensures i + 1 < |text| && text[i + 1] == d {
      FirstOfOpen(later, ')', d);
      StartsAt(text, i + 1, RenderOpen(later, ')'), d);
    }
    ExtendFirst(later, bodies[0], [text[i]], ')');
    AtPush(text, i, RenderOpen(later, ')'));
    StillWellFormed(later, bodies[0], 1, InCall);
  }

  lemma StepNewline(text: string, n: nat, depth: nat)
    requires depth > 0 && n < |text| && text[n] == '\n'
    ensures CallFrom(text, n, depth) == CallFrom(text, n + 1, depth)
  {
  }

  lemma {:induction false} ReadsCall(text: string, i: nat, depth: nat) returns (bodies: seq<Body>)
    requires depth > 0 && CallFrom(text, i, depth).Closed?
    ensures |bodies| == depth && AllWellFormed(bodies, InCall)
    ensures At(text, i, RenderOpen(bodies, ')')) && CallFrom(text, i, depth).end == i + |RenderOpen(bodies, ')')| + 1
    decreases |text| - i
  {
    hide At;
    hide AllWellFormed;
    hide WellFormed;
    hide Render;
    hide RenderOpen;
    hide LineEnd;
    hide BlockEnd;
    hide StringFrom;
    if IsQuote(text[i]) {
      var body := ReadsString(text, text[i], i + 1);
      var later := ReadsCall(text, i + 2 + |Render(body)|, depth);
      bodies := QuotedFirst(text, i, body, later, InCall);
    } else if StartsLine(text, i) {
      var n := LineEnd(text, i).value;
      StepNewline(text, n, depth);
      var later := ReadsCall(text, n + 1, depth);
      bodies := LineCommentFirst(text, i, n, later);
    } else if StartsBlock(text, i) {
      var n := BlockEnd(text, i).value;
      var later := ReadsCall(text, n + 2, depth);
      bodies := BlockCommentFirst(text, i, n, later);
    } else if text[i] == '(' {
      var later := ReadsCall(text, i + 1, depth + 1);
      bodies := NestFirst(text, i, later, InCall);
    } else if text[i] == ')' && depth == 1 {
      bodies := [End];
      NoneOpen(text, i, InCall);
    } else if text[i] == ')' {
      var later := ReadsCall(text, i + 1, depth - 1);
      bodies := CloseFirst(text, i, later, InCall);
    } else {
      var later := ReadsCall(text, i + 1, depth);
      bodies := PlainFirst(text, i, later);
    }
  }

  // ---------- Main results ----------

  /** `text[i..n]` is a bracketed piece of the given kind. */
  ghost predicate IsPiece(text: string, i: int, n: int, open: char, mode: Mode, close: char) {
    0 <= i < n <= |text| && exists b :: WellFormed(b, mode) && text[i..n] == [open] + Render(b) + [close]
  }

  lemma PieceAt(text: string, i: nat, n: int, open: char, b: Body, close: char)
    requires i < n <= |text| && text[i..n] == [open] + Render(b) + [close]
    ensures text[i] == open && At(text, i + 1, Render(b)) && At(text, i + 1, Render(b) + [close])
    ensures n == i + 2 + |Render(b)| && text[n - 1] == close
  {
    AtSlice(text, i, n, [open] + Render(b) + [close]);
    assert [open] + Render(b) + [close] + "" == [open] + Render(b) + [close];
    AtBracketed(text, i, open, Render(b), close, "");
  }

  lemma PieceFound(text: string, i: nat, b: Body, mode: Mode, close: char)
    requires i < |text| && WellFormed(b, mode) && At(text, i + 1, Render(b) + [close])
    ensures IsPiece(text, i, i + 2 + |Render(b)|, text[i], mode, close)
  {
    var n := i + 2 + |Render(b)|;
    AtPush(text, i, Render(b) + [close]);
    assert [text[i]] + Render(b) + [close] == [text[i]] + (Render(b) + [close]);
    AtSlice(text, i, n, [text[i]] + Render(b) + [close]);
  }

  /** `skip_string` ends at `n` exactly when a string literal stands from `i` to `n`. */
  lemma SkipStringIsExact(text: string, i: nat, n: nat)
    requires i < |text| && IsQuote(text[i])
    ensures StringFrom(text, text[i], i + 1) == Some(n) <==> IsPiece(text, i, n, text[i], InString(text[i]), text[i])
  {
    hide At;
    hide StringFrom;
    var q := text[i];
    if StringFrom(text, q, i + 1) == Some(n) {
      var b := ReadsString(text, q, i + 1);
      PieceFound(text, i, b, InString(q), q);
    }
    if IsPiece(text, i, n, q, InString(q), q) {
      var b :| WellFormed(b, InString(q)) && text[i..n] == [q] + Render(b) + [q];
      PieceAt(text, i, n, q, b, q);
      PassesString(text, q, i + 1, b);
    }
  }

  lemma OpenIsPiece(text: string, i: nat, bodies: seq<Body>, mode: Mode, close: char)
    requires |bodies| == 1 && AllWellFormed(bodies, mode) && At(text, i + 1, RenderOpen(bodies, close))
    requires i + 1 + |RenderOpen(bodies, close)| < |text| && text[i + 1 + |RenderOpen(bodies, close)|] == close
    ensures IsPiece(text, i, i + 2 + |RenderOpen(bodies, close)|, text[i], mode, close)
  {
    hide At;
    var n := i + 1 + |Render(bodies[0])|;
    NoneOpen(text, n + 1, mode);
    AtPush(text, n, "");
    assert [close] + "" == [close];
    AtSplit(text, i + 1, Render(bodies[0]), [close]);
    PieceFound(text, i, bodies[0], mode, close);
  }

  /** `scan_braced` finds the `}` that belongs to the `{`, whatever strings and holes lie between. */
  lemma ScanBracedIsExact(text: string, i: nat, n: nat)
    requires i < |text| && text[i] == '{'
    ensures BracesFrom(text, i + 1, 1) == Some(n) <==> IsPiece(text, i, n + 1, '{', InBraces, '}')
  {
    hide At;
    hide BracesFrom;
    if BracesFrom(text, i + 1, 1) == Some(n) {
      var bodies := ReadsBraces(text, i + 1, 1);
      OpenIsPiece(text, i, bodies, InBraces, '}');
    }
    if IsPiece(text, i, n + 1, '{', InBraces, '}') {
      var b :| WellFormed(b, InBraces) && text[i..n + 1] == ['{'] + Render(b) + ['}'];
      PieceAt(text, i, n + 1, '{', b, '}');
      PassesBraces(text, i + 1, 1, b);
      BracesClose(text, n);
    }
  }

  /** `scan_call` ends behind a closing parenthesis exactly when a call stands there: at the first position
      where, outside strings and comments, every parenthesis is closed again. */
  lemma ScanCallIsExact(text: string, i: nat, n: nat)
    requires i < |text| && text[i] == '('
    ensures CallFrom(text, i + 1, 1) == Closed(n) <==> IsPiece(text, i, n, '(', InCall, ')')
  {
    hide At;
    hide CallFrom;
    if CallFrom(text, i + 1, 1) == Closed(n) {
      var bodies := ReadsCall(text, i + 1, 1);
      OpenIsPiece(text, i, bodies, InCall, ')');
    }
    if IsPiece(text, i, n, '(', InCall, ')') {
      var b :| WellFormed(b, InCall) && text[i..n] == ['('] + Render(b) + [')'];
      PieceAt(text, i, n, '(', b, ')');
      PassesCall(text, i + 1, 1, b);
      CallCloses(text, n - 1);
    }
  }

  lemma CallCloses(text: string, i: nat)
    requires i < |text| && text[i] == ')'
    ensures CallFrom(text, i, 1) == Closed(i + 1)
  {
  }

  /** A scan that runs off has read a line comment. */
  lemma {:induction false} RanOffInComment(text: string, i: nat, depth: nat)
    requires depth > 0 && CallFrom(text, i, depth) == RanOff
    ensures exists k :: i <= k && StartsLine(text, k) && LineEnd(text, k).None?
    decreases |text| - i
  {
    if IsQuote(text[i]) {
      RanOffInComment(text, StringFrom(text, text[i], i + 1).value, depth);
    } else if StartsLine(text, i) {
      if LineEnd(text, i).Some? { RanOffInComment(text, LineEnd(text, i).value, depth); }
    } else if StartsBlock(text, i) {
      RanOffInComment(text, BlockEnd(text, i).value + 2, depth);
    } else if text[i] == '(' {
      RanOffInComment(text, i + 1, depth + 1);
    } else {
      RanOffInComment(text, i + 1, if text[i] == ')' then depth - 1 else depth);
    }
  }

  // ---------- A call that runs into the end of the text ----------

  /** What a scan has read when the text ends in a line comment: text, comments and strings, and parentheses that
      may close those open before and open others. */
  datatype Open =
    | LastLine(s: string)
    | OpenCh(c: char, rest: Open)
    | OpenQuoted(quote: char, body: Body, rest: Open)
    | OpenLine(s: string, rest: Open)
    | OpenBlock(s: string, rest: Open)
    | Deeper(rest: Open)
    | Higher(rest: Open)

  function RenderRest(o: Open): string {
    match o
    case LastLine(s) => "//" + s
    case OpenCh(c, rest) => [c] + RenderRest(rest)
    case OpenQuoted(q, body, rest) => [q] + Render(body) + [q] + RenderRest(rest)
    case OpenLine(s, rest) => "/" + ("/" + s) + "\n" + RenderRest(rest)
    case OpenBlock(s, rest) => "/" + s + "*/" + RenderRest(rest)
    case Deeper(rest) => ['('] + RenderRest(rest)
    case Higher(rest) => [')'] + RenderRest(rest)
  }

  /** Read from inside `depth` parentheses, of which one at least stays open. */
  predicate StaysOpen(o: Open, depth: nat) {
    match o
    case LastLine(s) => '\n' !in s
    case OpenCh(c, rest) => PlainIn(c, InCall, RenderRest(rest)) && StaysOpen(rest, depth)
    case OpenQuoted(q, body, rest) => IsQuote(q) && WellFormed(body, InString(q)) && StaysOpen(rest, depth)
    case OpenLine(s, rest) => '\n' !in s && StaysOpen(rest, depth)
    case OpenBlock(s, rest) => CommentText(s) && StaysOpen(rest, depth)
    case Deeper(rest) => StaysOpen(rest, depth + 1)
    case Higher(rest) => depth > 1 && StaysOpen(rest, depth - 1)
  }

  predicate AtEnd(text: string, i: int, x: string) {
    At(text, i, x) && i + |x| == |text|
  }

  lemma LastLineRunsOff(text: string, i: nat, depth: nat, s: string)
    requires depth > 0 && '\n' !in s && AtEnd(text, i, "//" + s)
    ensures CallFrom(text, i, depth) == RanOff
  {
    assert text[i] == ("//" + s)[0] && text[i + 1] == ("//" + s)[1];
    forall k | i <= k < |text| ensures text[k] != '\n' {
      var m := k - i;
      assert text[i + m] == ("//" + s)[m];
      if m >= 2 { assert ("//" + s)[m] == s[m - 2]; }
    }
  }

  lemma StepOpenCh(text: string, i: nat, depth: nat, c: char, after: string)
    requires depth > 0 && PlainIn(c, InCall, after) && AtEnd(text, i, [c] + after)
    ensures CallFrom(text, i, depth) == CallFrom(text, i + 1, depth) && AtEnd(text, i + 1, after)
  {
    AtOne(text, i, c, after);
    if after != "" { AtHead(text, i + 1, after); }
  }

  lemma {:induction false} OpenRunsOff(text: string, i: nat, depth: nat, o: Open)
    requires depth > 0 && StaysOpen(o, depth) && AtEnd(text, i, RenderRest(o))
    ensures CallFrom(text, i, depth) == RanOff
    decreases o
  {
    hide At;
    hide CallFrom;
    hide StringFrom;
    hide PlainIn;
    hide CommentText;
    match o
    case LastLine(s) =>
      LastLineRunsOff(text, i, depth, s);
    case OpenCh(c, rest) =>
      StepOpenCh(text, i, depth, c, RenderRest(rest));
      OpenRunsOff(text, i + 1, depth, rest);
    case OpenQuoted(q, body, rest) =>
      AtBracketed(text, i, q, Render(body), q, RenderRest(rest));
      PassesString(text, q, i + 1, body);
      StepQuoted(text, i, depth, i + 2 + |Render(body)|);
      OpenRunsOff(text, i + 2 + |Render(body)|, depth, rest);
    case OpenLine(s, rest) =>
      StepLineComment(text, i, depth, s, RenderRest(rest));
      OpenRunsOff(text, i + 3 + |s|, depth, rest);
    case OpenBlock(s, rest) =>
      StepBlockComment(text, i, depth, s, RenderRest(rest));
      OpenRunsOff(text, i + 3 + |s|, depth, rest);
    case Deeper(rest) =>
      AtOne(text, i, '(', RenderRest(rest));
      StepParens(text, i, depth);
      OpenRunsOff(text, i + 1, depth + 1, rest);
    case Higher(rest) =>
      AtOne(text, i, ')', RenderRest(rest));
      StepParens(text, i, depth - 1);
      OpenRunsOff(text, i + 1, depth - 1, rest);
  }

  lemma ReadsLastLine(text: string, i: nat, depth: nat) returns (o: Open)
    requires StartsLine(text, i) && LineEnd(text, i).None?
    ensures StaysOpen(o, depth) && AtEnd(text, i, RenderRest(o))
  {
    o := LastLine(text[i + 2..]);
    assert text[i..|text|] == "//" + text[i + 2..];
    AtSlice(text, i, |text|, "//" + text[i + 2..]);
  }

  lemma LineCommentOpen(text: string, i: nat, n: nat, depth: nat, later: Open) returns (o: Open)
    requires StartsLine(text, i) && LineEnd(text, i) == Some(n)
    requires StaysOpen(later, depth) && AtEnd(text, n + 1, RenderRest(later))
    ensures StaysOpen(o, depth) && AtEnd(text, i, RenderRest(o))
  {
    var s := text[i + 2..n];
    o := OpenLine(s, later);
    assert text[i..n + 1] == "/" + ("/" + s) + "\n";
    AtItself(text, i, n + 1, RenderRest(later));
  }

  lemma BlockCommentOpen(text: string, i: nat, n: nat, depth: nat, later: Open) returns (o: Open)
    requires StartsBlock(text, i) && BlockEnd(text, i) == Some(n)
    requires StaysOpen(later, depth) && AtEnd(text, n + 2, RenderRest(later))
    ensures StaysOpen(o, depth) && AtEnd(text, i, RenderRest(o))
  {
    var s := text[i + 1..n];
    o := OpenBlock(s, later);
    assert text[i..n + 2] == "/" + s + "*/";
    assert s + "*/" == text[i + 1..n + 2];
    forall k | 0 <= k < |s| ensures !EndsBlock(s + "*/", k) {
      assert !EndsBlock(text, i + 1 + k);
    }
    AtItself(text, i, n + 2, RenderRest(later));
  }

  lemma PlainOpen(text: string, i: nat, depth: nat, later: Open) returns (o: Open)
    requires i < |text| && !IsQuote(text[i]) && text[i] != '(' && text[i] != ')'
    requires !StartsLine(text, i) && !StartsBlock(text, i)
    requires StaysOpen(later, depth) && AtEnd(text, i + 1, RenderRest(later))
    ensures StaysOpen(o, depth) && AtEnd(text, i, RenderRest(o))
  {
    o := OpenCh(text[i], later);
    if RenderRest(later) != "" { AtHead(text, i + 1, RenderRest(later)); }
    AtPush(text, i, RenderRest(later));
  }

  lemma QuotedOpen(text: string, i: nat, depth: nat, body: Body, later: Open) returns (o: Open)
    requires i < |text| && IsQuote(text[i]) && WellFormed(body, InString(text[i]))
    requires At(text, i + 1, Render(body) + [text[i]])
    requires StaysOpen(later, depth) && AtEnd(text, i + 2 + |Render(body)|, RenderRest(later))
    ensures StaysOpen(o, depth) && AtEnd(text, i, RenderRest(o))
  {
    hide At;
    o := OpenQuoted(text[i], body, later);
    AtSplit(text, i + 1, Render(body) + [text[i]], RenderRest(later));
    AtPush(text, i, Render(body) + [text[i]] + RenderRest(later));
    assert RenderRest(o) == [text[i]] + (Render(body) + [text[i]] + RenderRest(later));
  }

  lemma {:induction false} ReadsOpen(text: string, i: nat, depth: nat) returns (o: Open)
    requires depth > 0 && CallFrom(text, i, depth) == RanOff
    ensures StaysOpen(o, depth) && AtEnd(text, i, RenderRest(o))
    decreases |text| - i
  {
    hide At;
    hide LineEnd;
    hide BlockEnd;
    hide StringFrom;
    hide Render;
    hide WellFormed;
    if IsQuote(text[i]) {
      var body := ReadsString(text, text[i], i + 1);
      var later := ReadsOpen(text, i + 2 + |Render(body)|, depth);
      o := QuotedOpen(text, i, depth, body, later);
    } else if StartsLine(text, i) {
      if LineEnd(text, i).None? {
        o := ReadsLastLine(text, i, depth);
      } else {
        var n := LineEnd(text, i).value;
        StepNewline(text, n, depth);
        var later := ReadsOpen(text, n + 1, depth);
        o := LineCommentOpen(text, i, n, depth, later);
      }
    } else if StartsBlock(text, i) {
      var n := BlockEnd(text, i).value;
      var later := ReadsOpen(text, n + 2, depth);
      o := BlockCommentOpen(text, i, n, depth, later);
    } else if text[i] == '(' {
      var later := ReadsOpen(text, i + 1, depth + 1);
      AtPush(text, i, RenderRest(later));
      o := Deeper(later);
    } else if text[i] == ')' {
      var later := ReadsOpen(text, i + 1, depth - 1);
      AtPush(text, i, RenderRest(later));
      o := Higher(later);
    } else {
      var later := ReadsOpen(text, i + 1, depth);
      o := PlainOpen(text, i, depth, later);
    }
  }

  /** The one case in which `scan_call` returns although the call is not closed: what stands behind its
      parenthesis leaves it open and ends in a line comment. */
  lemma RanOffIff(text: string, i: nat, depth: nat)
    requires depth > 0 && i <= |text|
    ensures CallFrom(text, i, depth) == RanOff <==> exists o :: StaysOpen(o, depth) && text[i..] == RenderRest(o)
  {
    hide At;
    hide CallFrom;
    hide StaysOpen;
    hide RenderRest;
    if CallFrom(text, i, depth) == RanOff {
      var o := ReadsOpen(text, i, depth);
      AtSlice(text, i, |text|, RenderRest(o));
      assert text[i..|text|] == text[i..];
    }
    if exists o :: StaysOpen(o, depth) && text[i..] == RenderRest(o) {
      var o :| StaysOpen(o, depth) && text[i..] == RenderRest(o);
      assert text[i..|text|] == text[i..];
      AtSlice(text, i, |text|, RenderRest(o));
      OpenRunsOff(text, i, depth, o);
    }
  }

  // ---------- The loop as it is ----------

  datatype Next = Return(end: nat) | Raise | Go(i: nat, depth: int)

  /** One turn of the loop of `scan_call`, with the search for the end of a comment as it is: -1 plus 2. */
  function CallTurn(text: string, i: nat, depth: int): Next {
    if i >= |text| then Raise
    else if IsQuote(text[i]) then
      var end := StringFrom(text, text[i], i + 1);
      if end.None? then Raise else Go(end.value, depth)
    else if StartsLine(text, i) then
      var end := LineEnd(text, i);
      if end.None? then Return(|text|) else Go(end.value, depth)
    else if StartsBlock(text, i) then
      var end := BlockEnd(text, i);
      if end.None? then Go(1, depth) else Go(end.value + 2, depth)
    else if text[i] == '(' then Go(i + 1, depth + 1)
    else if text[i] == ')' then if depth == 1 then Return(i + 1) else Go(i + 1, depth - 1)
    else Go(i + 1, depth)
  }

  /** The loop after `n` more turns, or where it ended before. */
  function Turns(text: string, at: Next, n: nat): Next
    decreases n
  {
    if n == 0 || !at.Go? then at else Turns(text, CallTurn(text, at.i, at.depth), n - 1)
  }

  lemma {:induction false} TurnsAdd(text: string, at: Next, m: nat, n: nat)
    ensures Turns(text, at, m + n) == Turns(text, Turns(text, at, m), n)
    decreases m
  {
    if m > 0 && at.Go? { TurnsAdd(text, CallTurn(text, at.i, at.depth), m - 1, n); }
  }

  /** Away from an unclosed comment a turn is a step of the scan. */
  lemma TurnIsScan(text: string, i: nat, depth: nat)
    requires depth > 0 && !(StartsBlock(text, i) && BlockEnd(text, i).None?)
    ensures match CallTurn(text, i, depth)
            case Raise => CallFrom(text, i, depth) == Unbalanced
            case Return(n) => CallFrom(text, i, depth) == Closed(n) || (CallFrom(text, i, depth) == RanOff && n == |text|)
            case Go(j, d) => i < |text| && i < j && d > 0 && CallFrom(text, i, depth) == CallFrom(text, j, d)
  {
    hide StringFrom;
    hide LineEnd;
    hide BlockEnd;
    if i < |text| && IsQuote(text[i]) {
      assert !StartsBlock(text, i) && !StartsLine(text, i);
    }
  }

  /** Where the outcome of a scan leaves the loop. */
  function Landing(text: string, c: Call): Next {
    match c
    case Closed(n) => Return(n)
    case RanOff => Return(|text|)
    case Unbalanced => Raise
    case Lost(depth) => Go(1, depth)
  }

  /** Some turns later the loop is where the scan ends. */
  lemma {:induction false} ScanTurns(text: string, i: nat, depth: nat) returns (n: nat)
    requires depth > 0
    ensures n > 0 && Turns(text, Go(i, depth), n) == Landing(text, CallFrom(text, i, depth))
    decreases |text| - i
  {
    if StartsBlock(text, i) && BlockEnd(text, i).None? {
      n := 1;
      LostHere(text, i, depth);
    } else {
      TurnIsScan(text, i, depth);
      n := 1;
      if CallTurn(text, i, depth).Go? {
        var m := ScanTurns(text, CallTurn(text, i, depth).i, CallTurn(text, i, depth).depth);
        n := m + 1;
      }
    }
  }

  lemma LostHere(text: string, i: nat, depth: nat)
    requires depth > 0 && StartsBlock(text, i) && BlockEnd(text, i).None?
    ensures CallTurn(text, i, depth) == Go(1, depth) && CallFrom(text, i, depth) == Lost(depth)
  {
  }

  /** A scan that gets lost does so from deeper down too, the difference unchanged; from higher up it may meet its
      closing parenthesis first. */
  lemma {:induction false} LostShifts(text: string, i: nat, depth: nat, other: nat)
    requires depth > 0 && other > 0 && CallFrom(text, i, depth).Lost?
    ensures var r, r' := CallFrom(text, i, depth), CallFrom(text, i, other);
            && (other >= depth ==> r' == Lost(r.depth + other - depth))
            && (other < depth ==> r'.Closed? || (r'.Lost? && r'.depth + depth == r.depth + other))
    decreases |text| - i
  {
    hide StringFrom;
    hide LineEnd;
    hide BlockEnd;
    if IsQuote(text[i]) {
      LostShifts(text, StringFrom(text, text[i], i + 1).value, depth, other);
    } else if StartsLine(text, i) {
      LostShifts(text, LineEnd(text, i).value, depth, other);
    } else if StartsBlock(text, i) {
      if BlockEnd(text, i).Some? { LostShifts(text, BlockEnd(text, i).value + 2, depth, other); }
    } else if text[i] == '(' {
      LostShifts(text, i + 1, depth + 1, other + 1);
    } else if text[i] == ')' {
      if other > 1 { LostShifts(text, i + 1, depth - 1, other - 1); }
    } else {
      LostShifts(text, i + 1, depth, other);
    }
  }

  /** If the scan from position 1 gets lost at no smaller a depth, the loop never ends. */
  lemma {:induction false} LoopsForever(text: string, depth: nat, n: nat)
    requires depth > 0 && CallFrom(text, 1, depth).Lost? && CallFrom(text, 1, depth).depth >= depth
    ensures Turns(text, Go(1, depth), n).Go?
    decreases n
  {
    hide CallFrom;
    hide CallTurn;
    var deeper := CallFrom(text, 1, depth).depth;
    var m := ScanTurns(text, 1, depth);
    if m <= n {
      LostShifts(text, 1, depth, deeper);
      LoopsForever(text, deeper, n - m);
      TurnsAdd(text, Go(1, depth), m, n - m);
    } else {
      TurnsAdd(text, Go(1, depth), n, m - n);
    }
  }

  /** If it gets lost at a smaller one, every round loses as much again, until a parenthesis closes the call. */
  lemma {:induction false} LoopClimbs(text: string, depth: nat) returns (n: nat)
    requires depth > 0 && CallFrom(text, 1, depth).Lost? && CallFrom(text, 1, depth).depth < depth
    ensures n > 0 && Turns(text, Go(1, depth), n).Return?
    decreases depth
  {
    hide CallFrom;
    hide CallTurn;
    var higher := CallFrom(text, 1, depth).depth;
    LostIsInside(text, 1, depth);
    var m := ScanTurns(text, 1, depth);
    LostShifts(text, 1, depth, higher);
    var k;
    if CallFrom(text, 1, higher).Closed? {
      k := ScanTurns(text, 1, higher);
    } else {
      k := LoopClimbs(text, higher);
    }
    n := m + k;
    TurnsAdd(text, Go(1, depth), m, k);
  }

  lemma LostIsInside(text: string, i: nat, depth: nat)
    requires depth > 0 && CallFrom(text, i, depth).Lost?
    ensures CallFrom(text, i, depth).depth > 0
  {
  }

  /** The scan of the call at `open` does not get lost; or else the scan from position 1, where the loop then goes
      on, does not, or gets lost inside fewer parentheses than it began with. */
  predicate ScanEnds(text: string, open: nat) {
    var first := CallFrom(text, open + 1, 1);
    first.Lost? ==>
      var again := CallFrom(text, 1, first.depth); again.Lost? ==> again.depth < first.depth
  }

  ghost predicate LoopEnds(text: string, open: nat) {
    exists n :: !Turns(text, Go(open, 0), n).Go?
  }

  lemma OpenTurn(text: string, open: nat)
    requires open < |text| && text[open] == '('
    ensures CallTurn(text, open, 0) == Go(open + 1, 1)
  {
  }

  lemma AfterOpen(text: string, open: nat, n: nat)
    requires open < |text| && text[open] == '('
    ensures Turns(text, Go(open, 0), n + 1) == Turns(text, Go(open + 1, 1), n)
  {
    hide CallTurn;
    OpenTurn(text, open);
  }

  lemma LoopEndsAfter(text: string, open: nat) returns (n: nat)
    requires open < |text| && text[open] == '(' && ScanEnds(text, open)
    ensures !Turns(text, Go(open, 0), n).Go?
  {
    hide CallFrom;
    hide Turns;
    var first := CallFrom(text, open + 1, 1);
    n := ScanTurns(text, open + 1, 1);
    if first.Lost? {
      LostIsInside(text, open + 1, 1);
      var k;
      if CallFrom(text, 1, first.depth).Lost? {
        k := LoopClimbs(text, first.depth);
      } else {
        k := ScanTurns(text, 1, first.depth);
      }
      TurnsAdd(text, Go(open + 1, 1), n, k);
      n := n + k;
    }
    AfterOpen(text, open, n);
    n := n + 1;
  }

  /** `scan_call` ends if and only if the two scans say so. */
  lemma ScanEndsIff(text: string, open: nat)
    requires open < |text| && text[open] == '('
    ensures LoopEnds(text, open) <==> ScanEnds(text, open)
  {
    hide CallFrom;
    hide Turns;
    if ScanEnds(text, open) {
      var n := LoopEndsAfter(text, open);
    } else {
      var first := CallFrom(text, open + 1, 1);
      forall n ensures Turns(text, Go(open, 0), n).Go? {
        LostIsInside(text, open + 1, 1);
        var m := ScanTurns(text, open + 1, 1);
        AfterOpen(text, open, m);
        if n >= m + 1 {
          LoopsForever(text, first.depth, n - (m + 1));
          TurnsAdd(text, Go(open, 0), m + 1, n - (m + 1));
        } else {
          TurnsAdd(text, Go(open, 0), n, m + 1 - n);
          StaysEnded(text, Turns(text, Go(open, 0), n), m + 1 - n);
        }
      }
    }
  }

  lemma StaysEnded(text: string, at: Next, n: nat)
    ensures !at.Go? ==> Turns(text, at, n) == at
  {
  }

  /** Where the loop of `scan_call` ends. */
  ghost function LoopResult(text: string, open: nat): (r: Next)
    requires LoopEnds(text, open)
    ensures !r.Go?
  {
    var n :| !Turns(text, Go(open, 0), n).Go?;
    Turns(text, Go(open, 0), n)
  }

  lemma EndIsUnique(text: string, at: Next, m: nat, n: nat)
    requires !Turns(text, at, m).Go? && !Turns(text, at, n).Go?
    ensures Turns(text, at, m) == Turns(text, at, n)
  {
    hide CallTurn;
    if m <= n {
      TurnsAdd(text, at, m, n - m);
      StaysEnded(text, Turns(text, at, m), n - m);
    } else {
      TurnsAdd(text, at, n, m - n);
      StaysEnded(text, Turns(text, at, n), m - n);
    }
  }

  /** A scan that does not get lost is what the loop does. */
  lemma LoopResultIsScan(text: string, open: nat)
    requires open < |text| && text[open] == '(' && !CallFrom(text, open + 1, 1).Lost?
    ensures LoopEnds(text, open) && LoopResult(text, open) == Landing(text, CallFrom(text, open + 1, 1))
  {
    hide CallFrom;
    hide Turns;
    var n := ScanTurns(text, open + 1, 1);
    AfterOpen(text, open, n);
    var m :| !Turns(text, Go(open, 0), m).Go? && LoopResult(text, open) == Turns(text, Go(open, 0), m);
    EndIsUnique(text, Go(open, 0), m, n + 1);
  }

  /** The scan from position 1, and again from there as long as it gets lost at a smaller depth. */
  function Again(text: string, depth: nat): (r: Call)
    requires depth > 0
    ensures r.Closed? ==> 2 <= r.end <= |text|
    decreases depth
  {
    var r := CallFrom(text, 1, depth);
    if r.Lost? && r.depth < depth then Again(text, r.depth) else r
  }

  /** How the scan of the call at `open` ends after all; `Lost` if it does not. */
  function ScanOutcome(text: string, open: nat): (r: Call)
    ensures r.Closed? ==> 2 <= r.end <= |text|
  {
    var first := CallFrom(text, open + 1, 1);
    if first.Lost? then Again(text, first.depth) else first
  }

  lemma {:induction false} AgainTurns(text: string, depth: nat) returns (n: nat)
    requires depth > 0
    ensures Turns(text, Go(1, depth), n) == Landing(text, Again(text, depth))
    decreases depth
  {
    hide CallFrom;
    hide CallTurn;
    n := ScanTurns(text, 1, depth);
    var r := CallFrom(text, 1, depth);
    if r.Lost? && r.depth < depth {
      var m := AgainTurns(text, r.depth);
      TurnsAdd(text, Go(1, depth), n, m);
      n := n + m;
    }
  }

  lemma {:induction false} AgainGetsLost(text: string, depth: nat)
    requires depth > 0
    ensures Again(text, depth).Lost? <==> CallFrom(text, 1, depth).Lost? && CallFrom(text, 1, depth).depth >= depth
    decreases depth
  {
    hide CallFrom;
    var r := CallFrom(text, 1, depth);
    if r.Lost? && r.depth < depth {
      LostShifts(text, 1, depth, r.depth);
      AgainGetsLost(text, r.depth);
    }
  }

  /** The loop ends with this outcome, or never. */
  lemma OutcomeIsResult(text: string, open: nat)
    requires open < |text| && text[open] == '('
    ensures ScanOutcome(text, open).Lost? <==> !ScanEnds(text, open)
    ensures ScanEnds(text, open) ==>
              LoopEnds(text, open) && LoopResult(text, open) == Landing(text, ScanOutcome(text, open))
  {
    hide CallFrom;
    hide Turns;
    hide Again;
    ScanEndsIff(text, open);
    var first := CallFrom(text, open + 1, 1);
    var n := ScanTurns(text, open + 1, 1);
    if first.Lost? {
      AgainGetsLost(text, first.depth);
      var m := AgainTurns(text, first.depth);
      TurnsAdd(text, Go(open + 1, 1), n, m);
      n := n + m;
    }
    AfterOpen(text, open, n);
    if ScanEnds(text, open) {
      var k :| !Turns(text, Go(open, 0), k).Go? && LoopResult(text, open) == Turns(text, Go(open, 0), k);
      EndIsUnique(text, Go(open, 0), k, n + 1);
    }
  }

  /** `scan_call`, whenever it ends.  `None` is the ValueError. */
  method ScanCall(text: string, open: nat) returns (end: Option<nat>)
    requires open < |text| && text[open] == '(' && ScanEnds(text, open)
    ensures LoopEnds(text, open)
    ensures end == if LoopResult(text, open).Return? then Some(LoopResult(text, open).end) else None
    ensures end == match ScanOutcome(text, open)
                   case Closed(n) => Some(n)
                   case RanOff => Some(|text|)
                   case _ => None
  {
    hide StringFrom;
    hide LineEnd;
    hide BlockEnd;
    ScanEndsIff(text, open);
    OutcomeIsResult(text, open);
    ghost var left: nat :| !Turns(text, Go(open, 0), left).Go? && LoopResult(text, open) == Turns(text, Go(open, 0), left);
    hide CallFrom;
    hide ScanOutcome;
    hide LoopEnds;
    hide LoopResult;
    hide ScanEnds;
    var depth: nat := 0;
    var i: nat := open;
    while i < |text|
      invariant i == open || depth > 0
      invariant Turns(text, Go(i, depth), left) == LoopResult(text, open)
      decreases left
    {
      var ch := text[i];
      left := left - 1;
      if IsQuote(ch) {
        var next := SkipString(text, i);
        if next.None? { return None; }
        i := next.value;
        continue;
      }
      if ch == '/' && i + 1 < |text| && text[i + 1] == '/' {
        assert StartsLine(text, i);
        var next := LineEnd(text, i);
        if next.None? { return Some(|text|); }
        i := next.value;
        continue;
      }
      if ch == '/' && i + 1 < |text| && text[i + 1] == '*' {
        assert StartsBlock(text, i);
        var found := BlockEnd(text, i);
        i := if found.Some? then found.value + 2 else 1;
        continue;
      }
      if ch == '(' {
        depth := depth + 1;
      } else if ch == ')' {
        depth := depth - 1;
        if depth == 0 { return Some(i + 1); }
      }
      i := i + 1;
    }
    return None;
  }

  /** The three ways of a scan that gets lost: round and round at one place, out in front of the call, and deeper
      down with every round. */
  lemma LostScans()
    ensures !LoopEnds("(/*", 0) && LoopEnds("a))(/*", 3) && !LoopEnds("a((/*", 1)
  {
    var here, front, down := "(/*", "a))(/*", "a((/*";
    LostHere(here, 1, 1);
    assert !ScanEnds(here, 0);
    ScanEndsIff(here, 0);
    LostHere(front, 4, 1);
    assert CallFrom(front, 1, 1) == Closed(2);
    ScanEndsIff(front, 3);
    LostHere(down, 3, 2);
    LostHere(down, 3, 4);
    assert CallFrom(down, 2, 1) == CallFrom(down, 3, 2);
    assert CallFrom(down, 1, 2) == CallFrom(down, 2, 3) == CallFrom(down, 3, 4);
    assert !ScanEnds(down, 1);
    ScanEndsIff(down, 1);
  }
}
