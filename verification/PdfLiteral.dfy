/** The literal-string reader of the PDF text extractor (section 7.3.4.2 of ISO 32000-1). */
module PdfLiteral {
  import opened Positions
  import opened Wrappers

  /** What stands between the parentheses of a literal string: plain characters, a backslash with the
      character it escapes, and balanced groups. */
  datatype Body =
    | Empty
    | Plain(c: char, rest: Body)
    | Escape(c: char, rest: Body)
    | Group(inner: Body, rest: Body)

  predicate WellFormed(b: Body) {
    match b
    case Empty => true
    case Plain(c, rest) => c != '\\' && c != '(' && c != ')' && WellFormed(rest)
    case Escape(_, rest) => WellFormed(rest)
    case Group(inner, rest) => WellFormed(inner) && WellFormed(rest)
  }

  function Render(b: Body): string {
    match b
    case Empty => ""
    case Plain(c, rest) => [c] + Render(rest)
    case Escape(c, rest) => ['\\', c] + Render(rest)
    case Group(inner, rest) => "(" + Render(inner) + ")" + Render(rest)
  }

  /** `raw[i..n]` is a literal string: a balanced body in parentheses. */
  ghost predicate IsLiteral(raw: string, i: int, n: int) {
    0 <= i < n <= |raw| && exists b :: WellFormed(b) && raw[i..n] == "(" + Render(b) + ")"
  }

  /** Where the reading loop stops when it is at `j` inside `depth` open parentheses. */
  function CloseFrom(raw: string, j: nat, depth: nat): Option<nat>
    requires depth > 0
    decreases |raw| - j
  {
    if j >= |raw| then None
    else if raw[j] == '\\' then CloseFrom(raw, j + 2, depth)
    else if raw[j] == '(' then CloseFrom(raw, j + 1, depth + 1)
    else if raw[j] == ')' then if depth == 1 then Some(j) else CloseFrom(raw, j + 1, depth - 1)
    else CloseFrom(raw, j + 1, depth)
  }

  lemma AtEscape(raw: string, j: nat, c: char, rest: string)
    requires At(raw, j, ['\\', c] + rest)
    ensures j + 1 < |raw| && raw[j] == '\\' && At(raw, j + 2, rest)
  {
    AtSplit(raw, j, ['\\', c], rest);
    AtHead(raw, j, ['\\', c]);
  }

  lemma AtGroup(raw: string, j: nat, inner: string, rest: string)
    requires At(raw, j, "(" + inner + ")" + rest)
    ensures j + 1 + |inner| < |raw| && raw[j] == '(' && raw[j + 1 + |inner|] == ')'
    ensures At(raw, j + 1, inner) && At(raw, j + 2 + |inner|, rest)
  {
    AtSplit(raw, j, "(" + inner + ")", rest);
    AtEnclosed(raw, j, '(', inner, ')');
  }

  /** The loop runs over a balanced body and comes out at the depth at which it went in. */
  lemma {:induction false} LoopPassesBody(raw: string, j: nat, depth: nat, b: Body)
    requires depth > 0 && WellFormed(b) && At(raw, j, Render(b))
    ensures CloseFrom(raw, j, depth) == CloseFrom(raw, j + |Render(b)|, depth)
    decreases b
  {
    match b
    case Empty =>
    case Plain(c, rest) =>
      AtHead(raw, j, [c] + Render(rest));
      assert ([c] + Render(rest))[1..] == Render(rest);
      LoopPassesBody(raw, j + 1, depth, rest);
    case Escape(c, rest) =>
      AtEscape(raw, j, c, Render(rest));
      LoopPassesBody(raw, j + 2, depth, rest);
    case Group(inner, rest) =>
      AtGroup(raw, j, Render(inner), Render(rest));
      LoopPassesBody(raw, j + 1, depth + 1, inner);
      LoopPassesBody(raw, j + 2 + |Render(inner)|, depth, rest);
  }

  /** What the loop has behind it when it stops: one body for each parenthesis open where it started. */
  function RenderOpen(bodies: seq<Body>): string
    requires bodies != []
  {
    if |bodies| == 1 then Render(bodies[0]) else Render(bodies[0]) + ")" + RenderOpen(bodies[1..])
  }

  predicate AllWellFormed(bodies: seq<Body>) {
    forall b :: b in bodies ==> WellFormed(b)
  }

  lemma {:induction false} LoopReadsBodies(raw: string, j: nat, depth: nat) returns (bodies: seq<Body>)
    requires depth > 0 && CloseFrom(raw, j, depth).Some?
    ensures j <= CloseFrom(raw, j, depth).value < |raw| && raw[CloseFrom(raw, j, depth).value] == ')'
    ensures |bodies| == depth && AllWellFormed(bodies)
    ensures At(raw, j, RenderOpen(bodies)) && CloseFrom(raw, j, depth).value == j + |RenderOpen(bodies)|
    decreases |raw| - j
  {
    if raw[j] == '\\' {
      var later := LoopReadsBodies(raw, j + 2, depth);
      bodies := [Escape(raw[j + 1], later[0])] + later[1..];
      PrependToFirst(later, bodies, ['\\', raw[j + 1]]);
      AtCons(raw, j + 1, RenderOpen(later), [raw[j + 1]] + RenderOpen(later));
      AtCons(raw, j, [raw[j + 1]] + RenderOpen(later), RenderOpen(bodies));
    } else if raw[j] == '(' {
      var later := LoopReadsBodies(raw, j + 1, depth + 1);
      bodies := [Group(later[0], later[1])] + later[2..];
      MergeFirstTwo(later, bodies);
      AtCons(raw, j, RenderOpen(later), RenderOpen(bodies));
    } else if raw[j] == ')' {
      if depth == 1 {
        bodies := [Empty];
      } else {
        var later := LoopReadsBodies(raw, j + 1, depth - 1);
        bodies := [Empty] + later;
        assert bodies[1..] == later;
        AtCons(raw, j, RenderOpen(later), RenderOpen(bodies));
      }
    } else {
      var later := LoopReadsBodies(raw, j + 1, depth);
      bodies := [Plain(raw[j], later[0])] + later[1..];
      PrependToFirst(later, bodies, [raw[j]]);
      AtCons(raw, j, RenderOpen(later), RenderOpen(bodies));
    }
  }

  lemma PrependToFirst(later: seq<Body>, bodies: seq<Body>, x: string)
    requires later != [] && |bodies| == |later| && bodies[1..] == later[1..]
    requires Render(bodies[0]) == x + Render(later[0])
    ensures RenderOpen(bodies) == x + RenderOpen(later)
  {
  }

  lemma MergeFirstTwo(later: seq<Body>, bodies: seq<Body>)
    requires |later| >= 2 && bodies == [Group(later[0], later[1])] + later[2..]
    ensures RenderOpen(bodies) == "(" + RenderOpen(later)
  {
    assert bodies[1..] == later[2..] == later[1..][1..];
    Regroup(Render(later[0]), Render(later[1]), if |later| > 2 then RenderOpen(later[2..]) else "");
  }

  lemma Regroup(a: string, b: string, rest: string)
    ensures "(" + a + ")" + b == "(" + (a + ")" + b)
    ensures "(" + a + ")" + b + ")" + rest == "(" + (a + ")" + (b + ")" + rest))
  {
  }

  lemma LiteralStopsLoop(raw: string, i: nat, b: Body)
    requires WellFormed(b) && At(raw, i, "(" + Render(b) + ")")
    ensures i < |raw| && raw[i] == '(' && CloseFrom(raw, i + 1, 1) == Some(i + 1 + |Render(b)|)
  {
    hide At;
    AtEnclosed(raw, i, '(', Render(b), ')');
    LoopPassesBody(raw, i + 1, 1, b);
  }

  lemma LoopStopsAtLiteral(raw: string, i: nat, n: int)
    requires i < |raw| && raw[i] == '(' && CloseFrom(raw, i + 1, 1) == Some(n - 1)
    ensures IsLiteral(raw, i, n)
  {
    var bodies := LoopReadsBodies(raw, i + 1, 1);
    assert WellFormed(bodies[0]);
    AtCons(raw, i, Render(bodies[0]), "(" + Render(bodies[0]));
    AtSplit(raw, i, "(" + Render(bodies[0]), ")");
    AtSlice(raw, i, n, "(" + Render(bodies[0]) + ")");
  }

  /** The loop, started behind an opening parenthesis, stops at `k` exactly when a literal string ends
      there; so at most one literal starts at any position, and the loop finds it. */
  lemma LoopFindsLiteral(raw: string, i: nat, n: int)
    requires i < |raw| && raw[i] == '('
    ensures IsLiteral(raw, i, n) <==> CloseFrom(raw, i + 1, 1) == Some(n - 1)
  {
    if IsLiteral(raw, i, n) {
      var b :| WellFormed(b) && raw[i..n] == "(" + Render(b) + ")";
      AtSlice(raw, i, n, "(" + Render(b) + ")");
      LiteralStopsLoop(raw, i, b);
    }
    if CloseFrom(raw, i + 1, 1) == Some(n - 1) {
      LoopStopsAtLiteral(raw, i, n);
    }
  }

  /** `readPdfString`: the literal string that starts at `i`, or -1 when none does. */
  method ReadPdfString(raw: string, i: nat) returns (content: string, next: int)
    requires i < |raw| && raw[i] == '('
    ensures forall n :: IsLiteral(raw, i, n) <==> n == next && next != -1
    ensures next == -1 || i + 1 < next <= |raw|
    ensures content == if next == -1 then "" else raw[i + 1..next - 1]
    ensures CloseFrom(raw, i + 1, 1) == if next == -1 then None else Some(next - 1)
  {
    var j := i + 1;
    var start := j;
    var depth := 1;
    forall n ensures IsLiteral(raw, i, n) <==> CloseFrom(raw, i + 1, 1) == Some(n - 1) {
      LoopFindsLiteral(raw, i, n);
    }
    while j < |raw|
      invariant start <= j && depth > 0
      invariant CloseFrom(raw, j, depth) == CloseFrom(raw, start, 1)
      decreases |raw| - j
    {
      var ch := raw[j];
      if ch == '\\' {
        j := j + 2;
        continue;
      }
      if ch == '(' {
        depth := depth + 1;
        j := j + 1;
        continue;
      }
      if ch == ')' {
        depth := depth - 1;
        if depth == 0 { return raw[start..j], j + 1; }
        j := j + 1;
        continue;
      }
      j := j + 1;
    }
    return "", -1;
  }
}
