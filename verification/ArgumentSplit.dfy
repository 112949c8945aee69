/** The codemod's split of a `.bind(...)` argument list at its top-level commas. */
module ArgumentSplit {
  import opened ChainScanner
  import opened Positions
  import opened Wrappers

  /** What `str.strip` and `\s` take for space. */
  predicate IsSpace(c: char) {
    ('\U{09}' <= c <= '\U{0D}') || ('\U{1C}' <= c <= '\U{1F}') || c == ' ' || c == '\U{85}' || c == '\U{A0}'
    || c == '\U{1680}' || ('\U{2000}' <= c <= '\U{200A}') || c == '\U{2028}' || c == '\U{2029}'
    || c == '\U{202F}' || c == '\U{205F}' || c == '\U{3000}'
  }

  /** The characters for which `str.isspace` of Python holds, by code point. */
  lemma SpaceIff(c: char)
    ensures IsSpace(c) <==>
              c as int in {0x9, 0xA, 0xB, 0xC, 0xD, 0x1C, 0x1D, 0x1E, 0x1F, 0x20, 0x85, 0xA0, 0x1680,
                           0x2000, 0x2001, 0x2002, 0x2003, 0x2004, 0x2005, 0x2006, 0x2007, 0x2008, 0x2009, 0x200A,
                           0x2028, 0x2029, 0x202F, 0x205F, 0x3000}
  {
  }

  function StripLeft(s: string): string {
    if s != "" && IsSpace(s[0]) then StripLeft(s[1..]) else s
  }

  function StripRight(s: string): string {
    if s != "" && IsSpace(s[|s| - 1]) then StripRight(s[..|s| - 1]) else s
  }

  function Strip(s: string): string {
    StripRight(StripLeft(s))
  }

  lemma {:induction false} StripRightCutsSpace(s: string) returns (b: string)
    ensures s == StripRight(s) + b && Spaces(b)
    ensures StripRight(s) != "" ==> !IsSpace(StripRight(s)[|StripRight(s)| - 1])
    decreases |s|
  {
    hide IsSpace;
    b := "";
    if s != "" && IsSpace(s[|s| - 1]) {
      var init, last := s[..|s| - 1], s[|s| - 1];
      var more := StripRightCutsSpace(init);
      b := more + [last];
      assert s == init + [last];
    }
  }

  predicate Spaces(s: string) {
    forall c :: c in s ==> IsSpace(c)
  }

  /** Stripping takes space off both ends and leaves none there. */
  lemma {:induction false} StripCutsSpace(s: string) returns (a: string, b: string)
    ensures s == a + Strip(s) + b && Spaces(a) && Spaces(b)
    ensures Strip(s) != "" ==> !IsSpace(Strip(s)[0]) && !IsSpace(Strip(s)[|Strip(s)| - 1])
    decreases |s|
  {
    hide IsSpace;
    if s != "" && IsSpace(s[0]) {
      var front;
      front, b := StripCutsSpace(s[1..]);
      a := [s[0]] + front;
      assert s == [s[0]] + s[1..];
    } else {
      a := "";
      b := StripRightCutsSpace(s);
    }
  }

  function Join(separator: string, parts: seq<string>): string {
    if parts == [] then ""
    else if |parts| == 1 then parts[0]
    else parts[0] + separator + Join(separator, parts[1..])
  }

  function Turn(depth: int, c: char): int {
    if c == '(' || c == '[' || c == '{' then depth + 1
    else if c == ')' || c == ']' || c == '}' then depth - 1
    else depth
  }

  /** The segments from `i` on, the first of them continuing `current`; `None` stands for the ValueError of
      an unterminated string. */
  function SegmentsFrom(s: string, i: nat, depth: int, current: string): (r: Option<seq<string>>)
    ensures r.Some? ==> r.value != []
    decreases |s| - i
  {
    if i >= |s| then Some([current])
    else if IsQuote(s[i]) then
      var end := StringFrom(s, s[i], i + 1);
      if end.None? then None else SegmentsFrom(s, end.value, depth, current + s[i..end.value])
    else if s[i] == ',' && depth == 0 then
      var later := SegmentsFrom(s, i + 1, 0, "");
      if later.None? then None else Some([current] + later.value)
    else SegmentsFrom(s, i + 1, Turn(depth, s[i]), current + [s[i]])
  }

  function Segments(s: string): (r: Option<seq<string>>)
    ensures r.Some? ==> r.value != []
  {
    SegmentsFrom(s, 0, 0, "")
  }

  function StripAll(parts: seq<string>): seq<string> {
    if parts == [] then [] else [Strip(parts[0])] + StripAll(parts[1..])
  }

  /** The arguments: every segment stripped, and the last one left out when nothing remains of it. */
  function Arguments(segments: seq<string>): seq<string>
    requires segments != []
  {
    var init, tail := segments[..|segments| - 1], Strip(segments[|segments| - 1]);
    StripAll(init) + (if tail == "" then [] else [tail])
  }

  lemma {:induction false} StripAllSnoc(parts: seq<string>, x: string)
    ensures StripAll(parts + [x]) == StripAll(parts) + [Strip(x)]
  {
    if parts == [] {
      assert parts + [x] == [x];
    } else {
      StripAllSnoc(parts[1..], x);
      assert (parts + [x])[1..] == parts[1..] + [x];
    }
  }

  lemma ArgumentsSnoc(closed: seq<string>, tail: string)
    ensures Arguments(closed + [tail]) == StripAll(closed) + (if Strip(tail) == "" then [] else [Strip(tail)])
  {
    assert (closed + [tail])[..|closed + [tail]| - 1] == closed;
  }

  /** The segments `closed` with those of `rest` behind them. */
  function Behind(closed: seq<string>, rest: Option<seq<string>>): Option<seq<string>> {
    if rest.None? then None else Some(closed + rest.value)
  }

  lemma SegmentsTurn(s: string, i: nat, depth: int, current: string, closed: seq<string>)
    requires i < |s|
    ensures IsQuote(s[i]) ==>
              SegmentsFrom(s, i, depth, current)
              == var end := StringFrom(s, s[i], i + 1);
                 if end.None? then None else SegmentsFrom(s, end.value, depth, current + s[i..end.value])
    ensures s[i] == ',' && depth == 0 ==>
              Behind(closed, SegmentsFrom(s, i, depth, current))
              == Behind(closed + [current], SegmentsFrom(s, i + 1, 0, ""))
    ensures !IsQuote(s[i]) && !(s[i] == ',' && depth == 0) ==>
              SegmentsFrom(s, i, depth, current) == SegmentsFrom(s, i + 1, Turn(depth, s[i]), current + [s[i]])
  {
    hide StringFrom;
    hide Turn;
    var later := SegmentsFrom(s, i + 1, 0, "");
    if s[i] == ',' && depth == 0 && later.Some? {
      assert closed + ([current] + later.value) == closed + [current] + later.value;
    }
  }

  lemma BehindEnds(s: string, i: nat, depth: int, current: string, closed: seq<string>)
    requires i >= |s|
    ensures Behind(closed, SegmentsFrom(s, i, depth, current)) == Some(closed + [current])
  {
  }

  lemma BehindNothing(rest: Option<seq<string>>, closed: seq<string>)
    ensures Behind([], rest) == rest && Behind(closed, None) == None
  {
    if rest.Some? { assert [] + rest.value == rest.value; }
  }

  /** `split_args`. */
  method SplitArgs(arglist: string) returns (r: Option<seq<string>>)
    ensures r == match Segments(arglist) case None => None case Some(segments) => Some(Arguments(segments))
  {
    assert StripAll([]) == [];
    hide Strip;
    hide StripAll;
    hide Arguments;
    hide StringFrom;
    hide SegmentsFrom;
    hide Behind;
    hide IsQuote;
    var parts: seq<string> := [];
    var depth := 0;
    var current := "";
    var i := 0;
    ghost var closed: seq<string> := [];
    BehindNothing(Segments(arglist), []);
    while i < |arglist|
      invariant i <= |arglist| && parts == StripAll(closed)
      invariant Behind(closed, SegmentsFrom(arglist, i, depth, current)) == Segments(arglist)
      decreases |arglist| - i
    {
      var ch := arglist[i];
      SegmentsTurn(arglist, i, depth, current, closed);
      if IsQuote(ch) {
        var end := SkipString(arglist, i);
        if end.None? {
          BehindNothing(None, closed);
          return None;
        }
        current := current + arglist[i..end.value];
        i := end.value;
        continue;
      }
      if ch == ',' && depth == 0 {
        parts := parts + [Strip(current)];
        StripAllSnoc(closed, current);
        closed := closed + [current];
        current := "";
        i := i + 1;
        continue;
      }
      depth := Turn(depth, ch);
      current := current + [ch];
      i := i + 1;
    }
    BehindEnds(arglist, i, depth, current, closed);
    ArgumentsSnoc(closed, current);
    var tail := Strip(current);
    if |tail| > 0 { parts := parts + [tail]; }
    assert parts == Arguments(closed + [current]);
    return Some(parts);
  }

  // ---------- What the segments are ----------

  /** The bracket depth at the end of `s` when it has no comma at depth 0 and no unterminated string. */
  function EndDepth(s: string, i: nat, depth: int): Option<int>
    decreases |s| - i
  {
    if i >= |s| then Some(depth)
    else if IsQuote(s[i]) then
      var end := StringFrom(s, s[i], i + 1);
      if end.None? then None else EndDepth(s, end.value, depth)
    else if s[i] == ',' && depth == 0 then None
    else
      EndDepth(s, i + 1, depth + if s[i] in {'(', '[', '{'} then 1 else if s[i] in {')', ']', '}'} then -1 else 0)
  }

  /** Segments without a top-level comma, all but the last with balanced depth. */
  predicate AreSegments(segments: seq<string>) {
    && segments != []
    && forall m :: 0 <= m < |segments| ==>
         EndDepth(segments[m], 0, 0).Some? && (m < |segments| - 1 ==> EndDepth(segments[m], 0, 0) == Some(0))
  }

  /** A string literal ends where it ends in any other text that has it. */
  lemma StringMoves(s: string, i: nat, t: string, j: nat, q: char)
    requires IsQuote(q) && StringFrom(s, q, i).Some? && At(t, j, s[i..StringFrom(s, q, i).value])
    ensures StringFrom(t, q, j) == Some(j + StringFrom(s, q, i).value - i)
  {
    hide At;
    hide StringFrom;
    var n := StringFrom(s, q, i).value;
    var b := ReadsString(s, q, i);
    AtSlice(s, i, n, Render(b) + [q]);
    PassesString(t, q, j, b);
  }

  /** The text of the first segment from `i` on, and whether a comma ends it. */
  function FirstText(s: string, i: nat, depth: int): Option<(string, bool)>
    decreases |s| - i
  {
    if i >= |s| then Some(("", false))
    else if IsQuote(s[i]) then
      var end := StringFrom(s, s[i], i + 1);
      if end.None? then None
      else
        var later := FirstText(s, end.value, depth);
        if later.None? then None else Some((s[i..end.value] + later.value.0, later.value.1))
    else if s[i] == ',' && depth == 0 then Some(("", true))
    else
      var later := FirstText(s, i + 1, Turn(depth, s[i]));
      if later.None? then None else Some(([s[i]] + later.value.0, later.value.1))
  }

  lemma Snoc(current: string, x: string, y: string)
    ensures current + (x + y) == current + x + y
  {
  }

  /** Splitting takes the first segment off and goes on behind its comma. */
  lemma {:induction false} SplitUnfolds(s: string, i: nat, depth: int, current: string)
    requires i <= |s|
    ensures SegmentsFrom(s, i, depth, current).Some? ==> FirstText(s, i, depth).Some?
    ensures FirstText(s, i, depth).Some? ==>
              var (x, comma) := FirstText(s, i, depth).value;
              && At(s, i, x) && (comma <==> i + |x| < |s|) && (comma ==> s[i + |x|] == ',')
              && (!comma ==> SegmentsFrom(s, i, depth, current) == Some([current + x]))
              && (comma ==> SegmentsFrom(s, i, depth, current)
                            == match SegmentsFrom(s, i + |x| + 1, 0, "")
                               case None => None
                               case Some(later) => Some([current + x] + later))
    decreases |s| - i
  {
    hide At;
    hide StringFrom;
    hide Turn;
    AtEmpty(s, i);
    if i == |s| {
      assert current + "" == current;
    } else if IsQuote(s[i]) {
      var end := StringFrom(s, s[i], i + 1);
      if end.Some? {
        SplitUnfolds(s, end.value, depth, current + s[i..end.value]);
        if FirstText(s, end.value, depth).Some? {
          var y := FirstText(s, end.value, depth).value.0;
          Snoc(current, s[i..end.value], y);
          AtItself(s, i, end.value, y);
        }
      }
    } else if s[i] == ',' && depth == 0 {
      assert current + "" == current;
    } else {
      SplitUnfolds(s, i + 1, Turn(depth, s[i]), current + [s[i]]);
      if FirstText(s, i + 1, Turn(depth, s[i])).Some? {
        var y := FirstText(s, i + 1, Turn(depth, s[i])).value.0;
        Snoc(current, [s[i]], y);
        AtPush(s, i, y);
      }
    }
  }

  lemma QuotedMoves(t: string, j: nat, s: string, i: nat, end: nat, rest: string)
    requires j < |t| && IsQuote(t[j]) && StringFrom(t, t[j], j + 1) == Some(end) && At(s, i, t[j..end] + rest)
    ensures i + (end - j) <= |s| && s[i] == t[j] && StringFrom(s, t[j], i + 1) == Some(i + (end - j))
    ensures s[i..i + (end - j)] == t[j..end] && At(s, i + (end - j), rest)
  {
    hide At;
    hide StringFrom;
    AtSplit(s, i, t[j..end], rest);
    AtHead(s, i, t[j..end]);
    assert t[j..end][1..] == t[j + 1..end];
    StringMoves(t, j + 1, s, i + 1, t[j]);
    AtFits(s, i, t[j..end]);
    AtSlice(s, i, i + (end - j), t[j..end]);
  }

  /** The first segment on its own has no top-level comma, and is balanced when a comma ends it. */
  lemma {:induction false} FirstIsSegment(s: string, i: nat, depth: int, t: string, j: nat)
    requires i <= |s| && FirstText(s, i, depth).Some?
    requires At(t, j, FirstText(s, i, depth).value.0) && j + |FirstText(s, i, depth).value.0| == |t|
    ensures EndDepth(t, j, depth).Some? && (FirstText(s, i, depth).value.1 ==> EndDepth(t, j, depth) == Some(0))
    decreases |s| - i
  {
    if i == |s| {
    } else if IsQuote(s[i]) {
      var end := StringFrom(s, s[i], i + 1).value;
      QuotedMoves(s, i, t, j, end, FirstText(s, end, depth).value.0);
      FirstIsSegment(s, end, depth, t, j + (end - i));
    } else if s[i] == ',' && depth == 0 {
    } else {
      var y := FirstText(s, i + 1, Turn(depth, s[i])).value.0;
      AtOne(t, j, s[i], y);
      FirstIsSegment(s, i + 1, Turn(depth, s[i]), t, j + 1);
    }
  }

  /** A segment is read back as the first text wherever it stands in front of a comma or the end. */
  lemma {:induction false} SegmentIsFirst(t: string, j: nat, depth: int, s: string, i: nat)
    requires j <= |t| && EndDepth(t, j, depth).Some? && At(s, i, t[j..])
    requires i + |t| - j == |s| || (i + |t| - j < |s| && s[i + |t| - j] == ',' && EndDepth(t, j, depth) == Some(0))
    ensures FirstText(s, i, depth) == Some((t[j..], i + |t| - j < |s|))
    decreases |t| - j
  {
    hide At;
    hide StringFrom;
    if j == |t| {
    } else if IsQuote(t[j]) {
      var end := StringFrom(t, t[j], j + 1).value;
      assert t[j..] == t[j..end] + t[end..];
      QuotedMoves(t, j, s, i, end, t[end..]);
      SegmentIsFirst(t, end, depth, s, i + (end - j));
    } else {
      assert t[j..] == [t[j]] + t[j + 1..];
      AtOne(s, i, t[j], t[j + 1..]);
      SegmentIsFirst(t, j + 1, Turn(depth, t[j]), s, i + 1);
    }
  }

  lemma AtAll(s: string, i: nat, x: string)
    requires i + |x| == |s| && At(s, i, x)
    ensures s[i..] == x
  {
    AtSlice(s, i, |s|, x);
    assert s[i..] == s[i..|s|];
  }

  lemma SegmentsCons(first: string, later: seq<string>)
    requires EndDepth(first, 0, 0) == Some(0) && AreSegments(later)
    ensures AreSegments([first] + later)
  {
    var all := [first] + later;
    forall m | 0 <= m < |all|
      ensures EndDepth(all[m], 0, 0).Some? && (m < |all| - 1 ==> EndDepth(all[m], 0, 0) == Some(0))
    {
      if m > 0 { assert all[m] == later[m - 1]; }
    }
  }

  lemma JoinCons(separator: string, first: string, later: seq<string>)
    requires later != []
    ensures Join(separator, [first] + later) == first + separator + Join(separator, later)
  {
    assert ([first] + later)[1..] == later;
  }

  lemma JoinOne(separator: string, x: string)
    ensures Join(separator, [x]) == x && "" + x == x
  {
  }

  lemma {:induction false} SplitGivesSegments(s: string, i: nat)
    requires i <= |s| && SegmentsFrom(s, i, 0, "").Some?
    ensures AreSegments(SegmentsFrom(s, i, 0, "").value) && Join(",", SegmentsFrom(s, i, 0, "").value) == s[i..]
    decreases |s| - i
  {
    hide At;
    hide SegmentsFrom;
    hide FirstText;
    hide EndDepth;
    hide AreSegments;
    hide Join;
    SplitUnfolds(s, i, 0, "");
    var (x, comma) := FirstText(s, i, 0).value;
    JoinOne(",", x);
    AtWhole(x);
    FirstIsSegment(s, i, 0, x, 0);
    if comma {
      var later := SegmentsFrom(s, i + |x| + 1, 0, "").value;
      SplitGivesSegments(s, i + |x| + 1);
      SegmentsCons(x, later);
      JoinCons(",", x, later);
      AtSlice(s, i, i + |x|, x);
      assert s[i..] == s[i..i + |x|] + "," + s[i + |x| + 1..];
    } else {
      SingleSegment(x);
      AtFits(s, i, x);
      AtAll(s, i, x);
    }
  }

  lemma SingleSegment(x: string)
    requires EndDepth(x, 0, 0).Some?
    ensures AreSegments([x])
  {
  }

  lemma SplitOne(s: string, i: nat, x: string)
    requires EndDepth(x, 0, 0).Some? && At(s, i, x)
    requires i + |x| == |s| || (i + |x| < |s| && s[i + |x|] == ',' && EndDepth(x, 0, 0) == Some(0))
    ensures SegmentsFrom(s, i, 0, "")
            == if i + |x| == |s| then Some([x])
               else match SegmentsFrom(s, i + |x| + 1, 0, "")
                    case None => None
                    case Some(later) => Some([x] + later)
  {
    hide *;
    assert x[0..] == x && "" + x == x;
    SegmentIsFirst(x, 0, 0, s, i);
    SplitUnfolds(s, i, 0, "");
  }

  lemma LaterAreSegments(segments: seq<string>)
    requires AreSegments(segments) && |segments| > 1
    ensures EndDepth(segments[0], 0, 0) == Some(0) && AreSegments(segments[1..])
  {
    var later := segments[1..];
    forall m | 0 <= m < |later|
      ensures EndDepth(later[m], 0, 0).Some? && (m < |later| - 1 ==> EndDepth(later[m], 0, 0) == Some(0))
    {
      assert later[m] == segments[m + 1];
    }
  }

  lemma AtJoined(s: string, i: nat, x: string, rest: string)
    requires At(s, i, x + "," + rest)
    ensures At(s, i, x) && i + |x| < |s| && s[i + |x|] == ',' && At(s, i + |x| + 1, rest)
  {
    AtSplit(s, i, x + ",", rest);
    AtSplit(s, i, x, ",");
    AtHead(s, i + |x|, ",");
  }

  lemma {:induction false} SegmentsAreSplit(s: string, i: nat, segments: seq<string>)
    requires i <= |s| && AreSegments(segments) && At(s, i, Join(",", segments)) && i + |Join(",", segments)| == |s|
    ensures SegmentsFrom(s, i, 0, "") == Some(segments)
    decreases |segments|
  {
    hide At;
    hide SegmentsFrom;
    hide EndDepth;
    hide Join;
    var x, later := segments[0], segments[1..];
    assert segments == [x] + later;
    if later == [] {
      assert segments == [x];
      JoinOne(",", x);
      SplitOne(s, i, x);
    } else {
      LaterAreSegments(segments);
      JoinCons(",", x, later);
      AtJoined(s, i, x, Join(",", later));
      SplitOne(s, i, x);
      SegmentsAreSplit(s, i + |x| + 1, later);
    }
  }

  /** The split is the one way to write the list as segments without top-level commas, joined by commas. */
  lemma SplitIsExact(s: string, segments: seq<string>)
    ensures Segments(s) == Some(segments) <==> AreSegments(segments) && Join(",", segments) == s
  {
    assert s[0..] == s;
    if Segments(s) == Some(segments) {
      SplitGivesSegments(s, 0);
    }
    if AreSegments(segments) && Join(",", segments) == s {
      SegmentsAreSplit(s, 0, segments);
    }
  }

  // ---------- Arguments stay whole ----------

  /** An argument: characters, string literals and groups in brackets of one kind, with commas in groups only. */
  datatype Expr =
    | Nothing
    | Plain(c: char, rest: Expr)
    | Str(quote: char, body: Body, rest: Expr)
    | Group(open: char, inner: Expr, rest: Expr)

  predicate IsExpr(e: Expr, nested: bool) {
    match e
    case Nothing => true
    case Plain(c, rest) =>
      c !in {'\'', '"', '`', '(', ')', '[', ']', '{', '}'} && (nested || c != ',') && IsExpr(rest, nested)
    case Str(q, body, rest) => q in {'\'', '"', '`'} && WellFormed(body, InString(q)) && IsExpr(rest, nested)
    case Group(open, inner, rest) => open in {'(', '[', '{'} && IsExpr(inner, true) && IsExpr(rest, nested)
  }

  function Closing(open: char): char {
    if open == '(' then ')' else if open == '[' then ']' else '}'
  }

  function Text(e: Expr): string {
    match e
    case Nothing => ""
    case Plain(c, rest) => [c] + Text(rest)
    case Str(q, body, rest) => [q] + Render(body) + [q] + Text(rest)
    case Group(open, inner, rest) => [open] + Text(inner) + [Closing(open)] + Text(rest)
  }

  /** An argument leaves the depth as it was, wherever it stands. */
  lemma {:induction false} PassesExpr(s: string, i: nat, depth: nat, e: Expr, nested: bool)
    requires IsExpr(e, nested) && At(s, i, Text(e)) && (nested ==> depth > 0)
    ensures EndDepth(s, i, depth) == EndDepth(s, i + |Text(e)|, depth)
    decreases e
  {
    hide At;
    hide StringFrom;
    hide Render;
    match e
    case Nothing =>
    case Plain(c, rest) =>
      AtOne(s, i, c, Text(rest));
      PassesExpr(s, i + 1, depth, rest, nested);
    case Str(q, body, rest) =>
      AtBracketed(s, i, q, Render(body), q, Text(rest));
      PassesString(s, q, i + 1, body);
      PassesExpr(s, i + 2 + |Render(body)|, depth, rest, nested);
    case Group(open, inner, rest) =>
      AtBracketed(s, i, open, Text(inner), Closing(open), Text(rest));
      PassesExpr(s, i + 1, depth + 1, inner, true);
      PassesExpr(s, i + 2 + |Text(inner)|, depth, rest, nested);
  }

  function Texts(arguments: seq<Expr>): (texts: seq<string>)
    ensures |texts| == |arguments| && forall k :: 0 <= k < |arguments| ==> texts[k] == Text(arguments[k])
  {
    if arguments == [] then [] else [Text(arguments[0])] + Texts(arguments[1..])
  }

  /** A list of such arguments is split into exactly these: a comma in a string or in brackets does not split. */
  lemma SplitGivesArguments(arguments: seq<Expr>)
    requires arguments != [] && forall e :: e in arguments ==> IsExpr(e, false)
    ensures Segments(Join(",", Texts(arguments))) == Some(Texts(arguments))
  {
    hide EndDepth;
    forall k | 0 <= k < |arguments| ensures EndDepth(Texts(arguments)[k], 0, 0) == Some(0) {
      var text := Text(arguments[k]);
      AtWhole(text);
      PassesExpr(text, 0, 0, arguments[k], false);
      EndOfText(text);
    }
    SplitIsExact(Join(",", Texts(arguments)), Texts(arguments));
  }

  lemma EndOfText(s: string)
    ensures EndDepth(s, |s|, 0) == Some(0)
  {
  }
}
