/** Text extraction from PDF content streams: the operators `Tj` and `TJ` (section 9.4.3 of ISO 32000-1). */
module PdfText {
  import opened Positions
  import opened Wrappers
  import Literal = PdfLiteral
  import Escapes = PdfEscapes

  // ---------- Characters ----------

  const WHITESPACE := {' ', '\t', '\n', '\r', '\U{0C}', '\0'}
  const DELIMITERS := WHITESPACE + {'(', ')', '[', ']', '{', '}', '/', '%'}

  /** What `String.prototype.trim` removes. */
  predicate IsJsSpace(c: char) {
    ('\U{09}' <= c <= '\U{0D}') || c == ' ' || c == '\U{A0}' || c == '\U{1680}' || ('\U{2000}' <= c <= '\U{200A}')
    || c == '\U{2028}' || c == '\U{2029}' || c == '\U{202F}' || c == '\U{205F}' || c == '\U{3000}' || c == '\U{FEFF}'
  }

  /** White space and line terminators of sections 12.2 and 12.3 of ECMA-262, by code point. */
  lemma JsSpaceIff(c: char)
    ensures IsJsSpace(c) <==>
              c as int in {0x9, 0xA, 0xB, 0xC, 0xD, 0x20, 0xA0, 0x1680, 0x2000, 0x2001, 0x2002, 0x2003, 0x2004, 0x2005,
                           0x2006, 0x2007, 0x2008, 0x2009, 0x200A, 0x2028, 0x2029, 0x202F, 0x205F, 0x3000, 0xFEFF}
  {
  }

  function TrimStart(s: string): string {
    if s != "" && IsJsSpace(s[0]) then TrimStart(s[1..]) else s
  }

  function TrimEnd(s: string): string {
    if s != "" && IsJsSpace(s[|s| - 1]) then TrimEnd(s[..|s| - 1]) else s
  }

  function Trim(s: string): string {
    TrimEnd(TrimStart(s))
  }

  predicate Blank(s: string) {
    forall c :: c in s ==> IsJsSpace(c)
  }

  lemma {:induction false} TrimEndEmpty(s: string)
    ensures TrimEnd(s) == "" <==> Blank(s)
    decreases |s|
  {
    if s != "" {
      var last := s[|s| - 1];
      assert s == s[..|s| - 1] + [last];
      TrimEndEmpty(s[..|s| - 1]);
    }
  }

  lemma {:induction false} TrimEmpty(s: string)
    ensures Trim(s) == "" <==> Blank(s)
    decreases |s|
  {
    if s != "" && IsJsSpace(s[0]) {
      assert s == [s[0]] + s[1..];
      TrimEmpty(s[1..]);
    } else {
      TrimEndEmpty(s);
    }
  }

  function Join(texts: seq<string>): string {
    if texts == [] then "" else if |texts| == 1 then texts[0] else texts[0] + " " + Join(texts[1..])
  }

  lemma {:induction false} TrimEndCutsSpace(s: string) returns (b: string)
    ensures s == TrimEnd(s) + b && Blank(b)
    ensures TrimEnd(s) != "" ==> !IsJsSpace(TrimEnd(s)[|TrimEnd(s)| - 1])
    decreases |s|
  {
    hide IsJsSpace;
    b := "";
    if s != "" && IsJsSpace(s[|s| - 1]) {
      var init, last := s[..|s| - 1], s[|s| - 1];
      var more := TrimEndCutsSpace(init);
      b := more + [last];
      assert s == init + [last];
    }
  }

  /** Trimming takes space off both ends and leaves none there. */
  lemma {:induction false} TrimCutsSpace(s: string) returns (a: string, b: string)
    ensures s == a + Trim(s) + b && Blank(a) && Blank(b)
    ensures Trim(s) != "" ==> !IsJsSpace(Trim(s)[0]) && !IsJsSpace(Trim(s)[|Trim(s)| - 1])
    decreases |s|
  {
    hide IsJsSpace;
    if s != "" && IsJsSpace(s[0]) {
      var front;
      front, b := TrimCutsSpace(s[1..]);
      a := [s[0]] + front;
      assert s == [s[0]] + s[1..];
    } else {
      a := "";
      b := TrimEndCutsSpace(s);
    }
  }

  /** Where text number `k` begins in the joined text. */
  function Offset(texts: seq<string>, k: nat): nat
    requires k < |texts|
  {
    if k == 0 then 0 else |texts[0]| + 1 + Offset(texts[1..], k - 1)
  }

  /** Joining puts every text at its place, one space between each and the next, and nothing else. */
  lemma {:induction false} JoinPlacesTexts(texts: seq<string>, k: nat)
    requires k < |texts|
    ensures At(Join(texts), Offset(texts, k), texts[k])
    ensures k > 0 ==> Offset(texts, k) == Offset(texts, k - 1) + |texts[k - 1]| + 1
                      && Join(texts)[Offset(texts, k) - 1] == ' '
    ensures k == |texts| - 1 ==> |Join(texts)| == Offset(texts, k) + |texts[k]|
    decreases |texts|
  {
    hide At;
    var x, later := texts[0], texts[1..];
    if later == [] {
      assert texts == [x];
      AtWhole(x);
    } else {
      JoinUnfolds(texts);
      if k == 0 {
        AtWhole(x + " " + Join(later));
        AtSplit(Join(texts), 0, x + " ", Join(later));
        AtSplit(Join(texts), 0, x, " ");
      } else {
        JoinPlacesTexts(later, k - 1);
        JoinedLater(x, Join(later), Offset(later, k - 1), later[k - 1]);
        if k > 1 { assert later[k - 2] == texts[k - 1]; }
      }
    }
  }

  lemma JoinUnfolds(texts: seq<string>)
    requires |texts| > 1
    ensures Join(texts) == texts[0] + " " + Join(texts[1..])
  {
  }

  lemma JoinedLater(x: string, rest: string, i: nat, y: string)
    requires At(rest, i, y)
    ensures At(x + " " + rest, |x| + 1 + i, y)
    ensures (x + " " + rest)[|x| + i] == if i > 0 then rest[i - 1] else ' '
  {
    forall k | 0 <= k < |y| ensures (x + " " + rest)[|x| + 1 + i + k] == y[k] {
      assert (x + " " + rest)[|x| + 1 + i + k] == rest[i + k];
    }
  }

  // ---------- The scan as functions of the position ----------

  /** The literal string at `i`: its content and the position behind it. */
  function StringAt(raw: string, i: nat): (r: Option<(string, nat)>)
    requires i < |raw| && raw[i] == '('
    ensures r.Some? ==> i + 1 < r.value.1 <= |raw|
  {
    var close := Literal.CloseFrom(raw, i + 1, 1);
    if close.None? then None
    else
      CloseInside(raw, i + 1, 1);
      Some((raw[i + 1..close.value], close.value + 1))
  }

  lemma {:induction false} CloseInside(raw: string, j: nat, depth: nat)
    requires depth > 0 && Literal.CloseFrom(raw, j, depth).Some?
    ensures j <= Literal.CloseFrom(raw, j, depth).value < |raw|
    decreases |raw| - j
  {
    var bodies := Literal.LoopReadsBodies(raw, j, depth);
  }

  /** The items of an array from `j` on and the position behind its `]`. */
  function ItemsFrom(raw: string, j: nat): (r: Option<(seq<string>, nat)>)
    ensures r.Some? ==> j < r.value.1 <= |raw|
    decreases |raw| - j
  {
    if j >= |raw| then None
    else if raw[j] == ']' then Some(([], j + 1))
    else if raw[j] == '(' then
      var item := StringAt(raw, j);
      if item.None? then None
      else
        var later := ItemsFrom(raw, item.value.1);
        if later.None? then None else Some(([item.value.0] + later.value.0, later.value.1))
    else ItemsFrom(raw, j + 1)
  }

  function SkipFrom(raw: string, k: nat): (r: nat)
    requires k <= |raw|
    ensures k <= r <= |raw| && (forall j :: k <= j < r ==> raw[j] in WHITESPACE)
    ensures r < |raw| ==> raw[r] !in WHITESPACE
    decreases |raw| - k
  {
    if k < |raw| && raw[k] in WHITESPACE then SkipFrom(raw, k + 1) else k
  }

  /** `isTj` and `isTJ`: the operator `T` with `letter`, and nothing of a longer word behind it. */
  predicate IsOperator(raw: string, k: nat, letter: char) {
    k + 1 < |raw| && raw[k] == 'T' && raw[k + 1] == letter && (k + 2 >= |raw| || raw[k + 2] in DELIMITERS)
  }

  function KeptOne(content: string): seq<string> {
    var s := Escapes.Unescape(content);
    if Trim(s) == "" then [] else [s]
  }

  /** The unescaped strings that are not blank. */
  function Kept(contents: seq<string>): seq<string> {
    if contents == [] then [] else KeptOne(contents[0]) + Kept(contents[1..])
  }

  /** What `collectTj` adds for the `(` at `i`, and where the scan goes on. */
  function StringStep(raw: string, i: nat): (r: (seq<string>, nat))
    requires i < |raw| && raw[i] == '('
    ensures i < r.1 <= |raw|
  {
    var s := StringAt(raw, i);
    if s.None? then ([], i + 1)
    else
      var k := SkipFrom(raw, s.value.1);
      if IsOperator(raw, k, 'j') then (KeptOne(s.value.0), k + 2) else ([], s.value.1)
  }

  /** What `collectTjArray` adds for the `[` at `i`, and where the scan goes on. */
  function ArrayStep(raw: string, i: nat): (r: (seq<string>, nat))
    requires i < |raw| && raw[i] == '['
    ensures i < r.1 <= |raw|
  {
    var a := ItemsFrom(raw, i + 1);
    if a.None? then ([], i + 1)
    else
      var k := SkipFrom(raw, a.value.1);
      if IsOperator(raw, k, 'J') then (Kept(a.value.0), k + 2) else ([], a.value.1)
  }

  function TextsFrom(raw: string, i: nat): seq<string>
    decreases |raw| - i
  {
    if i >= |raw| then []
    else if raw[i] == '(' then StringStep(raw, i).0 + TextsFrom(raw, StringStep(raw, i).1)
    else if raw[i] == '[' then ArrayStep(raw, i).0 + TextsFrom(raw, ArrayStep(raw, i).1)
    else TextsFrom(raw, i + 1)
  }

  function Combined(texts: seq<string>): Option<string> {
    if texts == [] || Trim(Join(texts)) == "" then None else Some(Trim(Join(texts)))
  }

  lemma KeptNone()
    ensures Kept([]) == []
  {
  }

  lemma KeptCons(content: string, contents: seq<string>)
    ensures Kept([content] + contents) == KeptOne(content) + Kept(contents)
  {
    assert ([content] + contents)[1..] == contents;
  }

  lemma {:induction false} KeptConcat(a: seq<string>, b: seq<string>)
    ensures Kept(a + b) == Kept(a) + Kept(b)
  {
    hide *;
    if a == [] {
      KeptNone();
      assert [] + b == b && [] + Kept(b) == Kept(b);
    } else {
      KeptConcat(a[1..], b);
      KeptCons(a[0], a[1..]);
      KeptCons(a[0], a[1..] + b);
      assert [a[0]] + a[1..] == a && [a[0]] + (a[1..] + b) == a + b;
      Associates(KeptOne(a[0]), Kept(a[1..]), Kept(b));
    }
  }

  lemma KeptSnoc(items: seq<string>, n: nat, texts: seq<string>)
    requires n < |items|
    ensures texts + Kept(items[..n + 1]) == texts + Kept(items[..n]) + KeptOne(items[n])
  {
    assert items[..n + 1] == items[..n] + [items[n]];
    KeptConcat(items[..n], [items[n]]);
    KeptSingle(items[n]);
    Associates(texts, Kept(items[..n]), KeptOne(items[n]));
  }

  lemma KeptSingle(content: string)
    ensures Kept([content]) == KeptOne(content)
  {
    assert [content][1..] == [];
  }

  // ---------- The loops ----------

  /** The result of reading on from `rest` behind the strings `items`. */
  function Behind(items: seq<string>, rest: Option<(seq<string>, nat)>): Option<(seq<string>, nat)> {
    if rest.None? then None else Some((items + rest.value.0, rest.value.1))
  }

  lemma ItemsTurn(raw: string, j: nat, items: seq<string>)
    ensures j >= |raw| ==> ItemsFrom(raw, j) == None
    ensures j < |raw| && raw[j] == ']' ==> Behind(items, ItemsFrom(raw, j)) == Some((items, j + 1))
    ensures j < |raw| && raw[j] == '(' ==>
              Behind(items, ItemsFrom(raw, j))
              == if StringAt(raw, j).None? then None
                 else Behind(items + [StringAt(raw, j).value.0], ItemsFrom(raw, StringAt(raw, j).value.1))
    ensures j < |raw| && raw[j] != ']' && raw[j] != '(' ==> ItemsFrom(raw, j) == ItemsFrom(raw, j + 1)
  {
    hide StringAt;
    assert items + [] == items;
    if j < |raw| && raw[j] == '(' && StringAt(raw, j).Some? {
      var item := StringAt(raw, j).value;
      if ItemsFrom(raw, item.1).Some? {
        assert items + ([item.0] + ItemsFrom(raw, item.1).value.0) == items + [item.0] + ItemsFrom(raw, item.1).value.0;
      }
    }
  }

  lemma FirstBehind(rest: Option<(seq<string>, nat)>)
    ensures Behind([], rest) == rest
  {
    if rest.Some? { assert [] + rest.value.0 == rest.value.0; }
  }

  lemma StringRead(raw: string, j: nat, content: string, next: int)
    requires j < |raw| && raw[j] == '(' && (next == -1 || j + 1 < next <= |raw|)
    requires Literal.CloseFrom(raw, j + 1, 1) == if next == -1 then None else Some(next - 1)
    requires content == if next == -1 then "" else raw[j + 1..next - 1]
    ensures StringAt(raw, j) == if next == -1 then None else Some((content, next))
  {
  }

  /** `readTjArray`; `ArrayIff` says which arrays these are. */
  method ReadTjArray(raw: string, i: nat) returns (items: seq<string>, next: int)
    requires i < |raw| && raw[i] == '['
    ensures ItemsFrom(raw, i + 1) == if next == -1 then None else Some((items, next))
    ensures next == -1 || i + 1 < next <= |raw|
  {
    hide ItemsFrom;
    hide StringAt;
    hide Behind;
    items := [];
    var j := i + 1;
    FirstBehind(ItemsFrom(raw, i + 1));
    while j < |raw|
      invariant i < j <= |raw|
      invariant Behind(items, ItemsFrom(raw, j)) == ItemsFrom(raw, i + 1)
    {
      var ch := raw[j];
      ItemsTurn(raw, j, items);
      if ch == ']' { return items, j + 1; }
      if ch == '(' {
        var str, next' := Literal.ReadPdfString(raw, j);
        StringRead(raw, j, str, next');
        if next' == -1 { return [], -1; }
        items := items + [str];
        j := next';
      } else {
        j := j + 1;
      }
    }
    ItemsTurn(raw, j, items);
    NothingBehind(items);
    return [], -1;
  }

  lemma NothingBehind(items: seq<string>)
    ensures Behind(items, None) == None
  {
  }

  method SkipWs(raw: string, start: nat) returns (k: nat)
    requires start <= |raw|
    ensures k == SkipFrom(raw, start)
  {
    k := start;
    while k < |raw| && raw[k] in WHITESPACE
      invariant start <= k <= |raw| && SkipFrom(raw, k) == SkipFrom(raw, start)
    {
      k := k + 1;
    }
  }

  /** `collectTj`; its result lies past `i` and within the text, so the scan always moves on. */
  method CollectTj(raw: string, i: nat, texts: seq<string>) returns (texts': seq<string>, next: nat)
    requires i < |raw| && raw[i] == '('
    ensures texts' == texts + StringStep(raw, i).0 && next == StringStep(raw, i).1
    ensures i < next <= |raw|
  {
    hide Escapes.Unescape;
    hide Trim;
    hide SkipFrom;
    hide IsOperator;
    texts' := texts;
    var str, after := Literal.ReadPdfString(raw, i);
    if after == -1 { return texts', i + 1; }
    var k := SkipWs(raw, after);
    if IsOperator(raw, k, 'j') {
      var s := Escapes.Unescape(str);
      if |Trim(s)| > 0 { texts' := texts' + [s]; }
      return texts', k + 2;
    }
    return texts', after;
  }

  method CollectTjArray(raw: string, i: nat, texts: seq<string>) returns (texts': seq<string>, next: nat)
    requires i < |raw| && raw[i] == '['
    ensures texts' == texts + ArrayStep(raw, i).0 && next == ArrayStep(raw, i).1
    ensures i < next <= |raw|
  {
    texts' := texts;
    var items, after := ReadTjArray(raw, i);
    if after == -1 { return texts', i + 1; }
    var k := SkipWs(raw, after);
    if IsOperator(raw, k, 'J') {
      for n := 0 to |items|
        invariant texts' == texts + Kept(items[..n])
      {
        var s := Escapes.Unescape(items[n]);
        KeptSnoc(items, n, texts);
        if |Trim(s)| > 0 { texts' := texts' + [s]; }
      }
      assert items[..|items|] == items;
      return texts', k + 2;
    }
    return texts', after;
  }

  /** `extractTextFromPdf` on the decoded text. */
  method ExtractTextFromPdf(raw: string) returns (r: Option<string>)
    ensures r == Combined(TextsFrom(raw, 0))
  {
    var texts: seq<string> := [];
    var i := 0;
    while i < |raw|
      invariant i <= |raw| && texts + TextsFrom(raw, i) == TextsFrom(raw, 0)
    {
      var ch := raw[i];
      if ch == '(' {
        texts, i := CollectTj(raw, i, texts);
      } else if ch == '[' {
        texts, i := CollectTjArray(raw, i, texts);
      } else {
        i := i + 1;
      }
    }
    assert texts + [] == texts;
    if |texts| == 0 { return None; }
    var combined := Trim(Join(texts));
    return if |combined| > 0 then Some(combined) else None;
  }

  // ---------- What one step of the scan does ----------

  /** White space from `n` up to `k`, and none at `k`. */
  predicate SpaceBetween(raw: string, n: int, k: int) {
    && 0 <= n <= k <= |raw| && (forall j :: n <= j < k ==> raw[j] in {' ', '\t', '\n', '\r', '\U{0C}', '\0'})
    && (k < |raw| ==> raw[k] !in {' ', '\t', '\n', '\r', '\U{0C}', '\0'})
  }

  /** No longer word goes on at `k`. */
  predicate Apart(raw: string, k: nat) {
    k >= |raw| || raw[k] in {' ', '\t', '\n', '\r', '\U{0C}', '\0', '(', ')', '[', ']', '{', '}', '/', '%'}
  }

  lemma {:induction false} SkipsBetween(raw: string, n: nat, k: int)
    requires SpaceBetween(raw, n, k)
    ensures SkipFrom(raw, n) == k
    decreases k - n
  {
    if n < k { SkipsBetween(raw, n + 1, k); }
  }

  /** A parenthesis that opens no literal string is stepped over. */
  lemma NoStringIsPassed(raw: string, i: nat)
    requires i < |raw| && raw[i] == '(' && forall n :: !Literal.IsLiteral(raw, i, n)
    ensures StringStep(raw, i) == ([], i + 1)
  {
    var close := Literal.CloseFrom(raw, i + 1, 1);
    if close.Some? { Literal.LoopFindsLiteral(raw, i, close.value + 1); }
  }

  /** A literal string is collected, unescaped and unless blank, if and only if `Tj` follows it after white space and
      nothing of a longer word follows that; the scan goes on behind what it read. */
  lemma StringIsShownIff(raw: string, i: nat, n: nat, k: nat)
    requires Literal.IsLiteral(raw, i, n) && SpaceBetween(raw, n, k)
    ensures i < |raw| && raw[i] == '('
    ensures var s := Escapes.Unescape(raw[i + 1..n - 1]);
            StringStep(raw, i) ==
              if At(raw, k, ['T', 'j']) && Apart(raw, k + 2) then (if Blank(s) then [] else [s], k + 2) else ([], n)
  {
    hide Escapes.Unescape;
    hide Trim;
    hide SkipFrom;
    hide Blank;
    var b :| Literal.WellFormed(b) && raw[i..n] == "(" + Literal.Render(b) + ")";
    assert raw[i..n][0] == '(';
    Literal.LoopFindsLiteral(raw, i, n);
    SkipsBetween(raw, n, k);
    TrimEmpty(Escapes.Unescape(raw[i + 1..n - 1]));
    OperatorIff(raw, k, 'j');
  }

  lemma OperatorIff(raw: string, k: nat, letter: char)
    ensures IsOperator(raw, k, letter) <==> At(raw, k, ['T', letter]) && Apart(raw, k + 2)
  {
    assert ['T', letter][0] == 'T' && ['T', letter][1] == letter;
    if At(raw, k, ['T', letter]) { assert raw[k + 0] == 'T'; }
  }

  // ---------- Documents ----------

  /** An array item: numbers and space, then a literal string. */
  datatype Item = Item(gap: string, body: Literal.Body)

  datatype Segment =
    | Filler(s: string)
    | Show(body: Literal.Body, gap: string)
    | ShowArray(items: seq<Item>, tail: string, gap: string)

  function Written(b: Literal.Body): string {
    "(" + Literal.Render(b) + ")"
  }

  function RenderItems(items: seq<Item>): string {
    if items == [] then "" else items[0].gap + Written(items[0].body) + RenderItems(items[1..])
  }

  function RenderSegment(segment: Segment): string {
    match segment
    case Filler(s) => s
    case Show(body, gap) => Written(body) + (gap + ['T', 'j'])
    case ShowArray(items, tail, gap) => "[" + (RenderItems(items) + (tail + "]")) + (gap + ['T', 'J'])
  }

  function RenderDoc(doc: seq<Segment>): string {
    if doc == [] then "" else RenderSegment(doc[0]) + RenderDoc(doc[1..])
  }

  predicate Free(s: string, c: char, d: char) {
    forall x :: x in s ==> x != c && x != d
  }

  predicate AllSpace(s: string) {
    forall x :: x in s ==> x in {' ', '\t', '\n', '\r', '\U{0C}', '\0'}
  }

  predicate ItemsFit(items: seq<Item>) {
    forall item :: item in items ==> Free(item.gap, '(', ']') && Literal.WellFormed(item.body)
  }

  /** Filler has neither `(` nor `[`, and gaps are what the notation allows there. */
  predicate SegmentFits(segment: Segment) {
    match segment
    case Filler(s) => Free(s, '(', '[')
    case Show(body, gap) => Literal.WellFormed(body) && AllSpace(gap)
    case ShowArray(items, tail, gap) => ItemsFit(items) && Free(tail, '(', ']') && AllSpace(gap)
  }

  /** Behind an operator the document ends or goes on with a delimiter. */
  predicate Fits(doc: seq<Segment>) {
    doc == []
    || (SegmentFits(doc[0]) && (doc[0].Filler? || StartsApart(RenderDoc(doc[1..]))) && Fits(doc[1..]))
  }

  predicate StartsApart(s: string) {
    s == "" || s[0] in {' ', '\t', '\n', '\r', '\U{0C}', '\0', '(', ')', '[', ']', '{', '}', '/', '%'}
  }

  /** The strings shown, in order. */
  function ItemContents(items: seq<Item>): seq<string> {
    if items == [] then [] else [Literal.Render(items[0].body)] + ItemContents(items[1..])
  }

  function SegmentContents(segment: Segment): seq<string> {
    match segment
    case Filler(_) => []
    case Show(body, _) => [Literal.Render(body)]
    case ShowArray(items, _, _) => ItemContents(items)
  }

  function Contents(doc: seq<Segment>): seq<string> {
    if doc == [] then [] else SegmentContents(doc[0]) + Contents(doc[1..])
  }

  lemma StringAtWritten(raw: string, i: nat, b: Literal.Body)
    requires Literal.WellFormed(b) && At(raw, i, Written(b))
    ensures i < |raw| && raw[i] == '('
    ensures StringAt(raw, i) == Some((Literal.Render(b), i + |Written(b)|))
  {
    Literal.LiteralStopsLoop(raw, i, b);
    AtSplit(raw, i, "(" + Literal.Render(b), ")");
    AtSplit(raw, i, "(", Literal.Render(b));
    AtSlice(raw, i + 1, i + 1 + |Literal.Render(b)|, Literal.Render(b));
  }

  lemma {:induction false} ItemsSkip(raw: string, j: nat, gap: string)
    requires At(raw, j, gap) && Free(gap, '(', ']')
    ensures ItemsFrom(raw, j) == ItemsFrom(raw, j + |gap|)
    decreases |gap|
  {
    if gap != "" {
      AtHead(raw, j, gap);
      assert gap[0] in gap && forall x :: x in gap[1..] ==> x in gap;
      ItemsSkip(raw, j + 1, gap[1..]);
    }
  }

  lemma AtItem(raw: string, j: nat, gap: string, written: string, later: string, end: string)
    requires At(raw, j, gap + written + later + end)
    ensures At(raw, j, gap) && At(raw, j + |gap|, written)
    ensures At(raw, j + |gap| + |written|, later + end)
  {
    AtSplit(raw, j, gap + written + later, end);
    AtSplit(raw, j, gap + written, later);
    AtSplit(raw, j, gap, written);
    AtSplit(raw, j + |gap| + |written|, later, end);
  }

  lemma ItemsAtString(raw: string, k: nat, content: string, next: nat)
    requires k < |raw| && raw[k] == '(' && StringAt(raw, k) == Some((content, next)) && ItemsFrom(raw, next).Some?
    ensures ItemsFrom(raw, k)
            == Some(([content] + ItemsFrom(raw, next).value.0, ItemsFrom(raw, next).value.1))
  {
  }

  /** The rest of an array behind its last string. */
  predicate ArrayEnd(end: string) {
    |end| > 0 && end[|end| - 1] == ']' && Free(end[..|end| - 1], '(', ']')
  }

  lemma EndRead(raw: string, j: nat, end: string)
    requires ArrayEnd(end) && At(raw, j, end)
    ensures ItemsFrom(raw, j) == Some(([], j + |end|))
  {
    var tail := end[..|end| - 1];
    assert end == tail + "]";
    AtSplit(raw, j, tail, "]");
    ItemsSkip(raw, j, tail);
    AtHead(raw, j + |tail|, "]");
  }

  lemma ItemRead(raw: string, j: nat, gap: string, body: Literal.Body, later: string, end: string)
    requires Free(gap, '(', ']') && Literal.WellFormed(body) && At(raw, j, gap + Written(body) + later + end)
    requires ItemsFrom(raw, j + |gap| + |Written(body)|).Some?
    ensures var rest := ItemsFrom(raw, j + |gap| + |Written(body)|).value;
            ItemsFrom(raw, j) == Some(([Literal.Render(body)] + rest.0, rest.1))
  {
    hide *;
    AtItem(raw, j, gap, Written(body), later, end);
    ItemsSkip(raw, j, gap);
    StringAtWritten(raw, j + |gap|, body);
    ItemsAtString(raw, j + |gap|, Literal.Render(body), j + |gap| + |Written(body)|);
  }

  lemma {:induction false} ItemsRead(raw: string, j: nat, items: seq<Item>, end: string)
    requires ItemsFit(items) && ArrayEnd(end) && At(raw, j, RenderItems(items) + end)
    ensures ItemsFrom(raw, j) == Some((ItemContents(items), j + |RenderItems(items)| + |end|))
    decreases |items|
  {
    hide ItemsFrom;
    hide At;
    hide ArrayEnd;
    if items == [] {
      assert RenderItems(items) + end == end;
      EndRead(raw, j, end);
    } else {
      var gap, body, later := items[0].gap, items[0].body, items[1..];
      AtItem(raw, j, gap, Written(body), RenderItems(later), end);
      ItemsRead(raw, j + |gap| + |Written(body)|, later, end);
      ItemRead(raw, j, gap, body, RenderItems(later), end);
    }
  }

  /** `raw[i..n]` is an array with these strings. */
  ghost predicate IsArray(raw: string, i: int, n: int, contents: seq<string>) {
    && 0 <= i <= n <= |raw|
    && exists items, tail :: ItemsFit(items) && Free(tail, '(', ']') && contents == ItemContents(items)
                             && raw[i..n] == "[" + (RenderItems(items) + (tail + "]"))
  }

  /** One more item in front, or one more character in front of what there is. */
  lemma ItemInFront(raw: string, j: nat, body: Literal.Body, later: seq<Item>, end: string)
    requires At(raw, j, Written(body)) && At(raw, j + |Written(body)|, RenderItems(later) + end)
    ensures var items := [Item("", body)] + later;
            && RenderItems(items) == Written(body) + RenderItems(later)
            && ItemContents(items) == [Literal.Render(body)] + ItemContents(later)
            && At(raw, j, RenderItems(items) + end)
  {
    var items := [Item("", body)] + later;
    assert items[1..] == later && "" + Written(body) == Written(body);
    AtSplit(raw, j, Written(body), RenderItems(later) + end);
    Associates(Written(body), RenderItems(later), end);
  }

  lemma CharInFront(later: seq<Item>, c: char) returns (items: seq<Item>)
    requires ItemsFit(later) && later != [] && c != '(' && c != ']'
    ensures ItemsFit(items) && RenderItems(items) == [c] + RenderItems(later) && ItemContents(items) == ItemContents(later)
  {
    var first := Item([c] + later[0].gap, later[0].body);
    items := [first] + later[1..];
    assert items[1..] == later[1..] && later == [later[0]] + later[1..];
    assert forall x :: x in first.gap ==> x == c || x in later[0].gap;
    assert forall item :: item in items ==> item == first || item in later;
    Associates([c], later[0].gap, Written(first.body));
    Associates([c], later[0].gap + Written(first.body), RenderItems(later[1..]));
  }

  lemma WrittenRead(raw: string, j: nat) returns (body: Literal.Body)
    requires j < |raw| && raw[j] == '(' && StringAt(raw, j).Some?
    ensures Literal.WellFormed(body) && At(raw, j, Written(body))
    ensures StringAt(raw, j).value == (Literal.Render(body), j + |Written(body)|)
  {
    var close := Literal.CloseFrom(raw, j + 1, 1).value;
    CloseInside(raw, j + 1, 1);
    Literal.LoopStopsAtLiteral(raw, j, close + 1);
    body :| Literal.WellFormed(body) && raw[j..close + 1] == "(" + Literal.Render(body) + ")";
    AtSlice(raw, j, close + 1, Written(body));
    StringAtWritten(raw, j, body);
  }

  /** Whatever the item loop reads is items in this notation, its strings theirs. */
  lemma {:induction false} ItemsAreItems(raw: string, j: nat) returns (items: seq<Item>, tail: string)
    requires ItemsFrom(raw, j).Some?
    ensures ItemsFit(items) && Free(tail, '(', ']') && At(raw, j, RenderItems(items) + (tail + "]"))
    ensures ItemsFrom(raw, j).value == (ItemContents(items), j + |RenderItems(items)| + |tail| + 1)
    decreases |raw| - j
  {
    hide StringAt;
    hide At;
    hide ItemsFit;
    if raw[j] == ']' {
      items, tail := [], "";
      NoItems(raw, j);
    } else if raw[j] == '(' {
      var body := WrittenRead(raw, j);
      var later;
      later, tail := ItemsAreItems(raw, j + |Written(body)|);
      items := [Item("", body)] + later;
      ItemInFront(raw, j, body, later, tail + "]");
      OneMoreFits(body, later);
    } else {
      var later, end := ItemsAreItems(raw, j + 1);
      if later == [] {
        items, tail := [], [raw[j]] + end;
        assert "" + (end + "]") == end + "]" && "" + (tail + "]") == [raw[j]] + (end + "]");
      } else {
        items := CharInFront(later, raw[j]);
        tail := end;
        Associates([raw[j]], RenderItems(later), end + "]");
      }
      AtCons(raw, j, RenderItems(later) + (end + "]"), RenderItems(items) + (tail + "]"));
    }
  }

  lemma NoItems(raw: string, j: nat)
    requires j < |raw| && raw[j] == ']'
    ensures ItemsFit([]) && At(raw, j, RenderItems([]) + ("" + "]"))
  {
    AtChar(raw, j, ']');
    assert RenderItems([]) + ("" + "]") == "]";
  }

  lemma OneMoreFits(body: Literal.Body, later: seq<Item>)
    requires Literal.WellFormed(body) && ItemsFit(later)
    ensures ItemsFit([Item("", body)] + later)
  {
  }

  /** The loop, started behind an opening bracket, ends at `n` with these strings if and only if an array with them
      ends there. */
  lemma ArrayIff(raw: string, i: nat, n: nat, contents: seq<string>)
    requires i < |raw| && raw[i] == '['
    ensures IsArray(raw, i, n, contents) <==> ItemsFrom(raw, i + 1) == Some((contents, n))
  {
    hide ItemsFrom;
    hide At;
    hide ItemsFit;
    if IsArray(raw, i, n, contents) {
      var items, tail :| ItemsFit(items) && Free(tail, '(', ']') && contents == ItemContents(items)
                         && raw[i..n] == "[" + (RenderItems(items) + (tail + "]"));
      var inner := RenderItems(items) + (tail + "]");
      AtSlice(raw, i, n, "[" + inner);
      AtSplit(raw, i, "[", inner);
      TailEnds(tail);
      ItemsRead(raw, i + 1, items, tail + "]");
    }
    if ItemsFrom(raw, i + 1) == Some((contents, n)) {
      var items, tail := ItemsAreItems(raw, i + 1);
      var inner := RenderItems(items) + (tail + "]");
      AtCons(raw, i, inner, "[" + inner);
      AtFits(raw, i, "[" + inner);
      AtSlice(raw, i, n, "[" + inner);
    }
  }

  lemma TailEnds(tail: string)
    requires Free(tail, '(', ']')
    ensures ArrayEnd(tail + "]")
  {
    assert (tail + "]")[..|tail|] == tail;
  }

  /** A bracket that opens no array is stepped over. */
  lemma NoArrayIsPassed(raw: string, i: nat)
    requires i < |raw| && raw[i] == '[' && forall n: nat, contents :: !IsArray(raw, i, n, contents)
    ensures ArrayStep(raw, i) == ([], i + 1)
  {
    hide IsArray;
    var a := ItemsFrom(raw, i + 1);
    if a.Some? { ArrayIff(raw, i, a.value.1, a.value.0); }
  }

  /** The strings of an array are collected if and only if `TJ` follows it after white space and nothing of a longer
      word follows that. */
  lemma ArrayIsShownIff(raw: string, i: nat, n: nat, contents: seq<string>, k: nat)
    requires i < |raw| && raw[i] == '[' && IsArray(raw, i, n, contents) && SpaceBetween(raw, n, k)
    ensures ArrayStep(raw, i) == if At(raw, k, ['T', 'J']) && Apart(raw, k + 2) then (Kept(contents), k + 2) else ([], n)
  {
    hide ItemsFrom;
    hide SkipFrom;
    hide Kept;
    hide IsArray;
    ArrayIff(raw, i, n, contents);
    SkipsBetween(raw, n, k);
    OperatorIff(raw, k, 'J');
  }

  lemma {:induction false} SkipsGap(raw: string, k: nat, gap: string)
    requires At(raw, k, gap) && AllSpace(gap)
    ensures SkipFrom(raw, k) == SkipFrom(raw, k + |gap|)
    decreases |gap|
  {
    if gap != "" {
      AtHead(raw, k, gap);
      assert gap[0] in gap && forall x :: x in gap[1..] ==> x in gap;
      SkipsGap(raw, k + 1, gap[1..]);
    }
  }

  /** Behind the operand: space, the operator, and a delimiter or the end. */
  lemma OperatorFound(raw: string, k: nat, gap: string, letter: char)
    requires AllSpace(gap) && At(raw, k, gap + ['T', letter]) && Apart(raw, k + |gap| + 2)
    ensures SkipFrom(raw, k) == k + |gap| && IsOperator(raw, k + |gap|, letter)
  {
    AtSplit(raw, k, gap, ['T', letter]);
    SkipsGap(raw, k, gap);
    var m := k + |gap|;
    AtHead(raw, m, ['T', letter]);
    AtHead(raw, m + 1, ['T', letter][1..]);
  }

  lemma {:induction false} ScanSkips(raw: string, i: nat, s: string)
    requires At(raw, i, s) && Free(s, '(', '[')
    ensures TextsFrom(raw, i) == TextsFrom(raw, i + |s|)
    decreases |s|
  {
    if s != "" {
      AtHead(raw, i, s);
      assert s[0] in s && forall x :: x in s[1..] ==> x in s;
      ScanSkips(raw, i + 1, s[1..]);
    }
  }

  lemma ShowScanned(raw: string, i: nat, b: Literal.Body, gap: string)
    requires Literal.WellFormed(b) && AllSpace(gap)
    requires At(raw, i, Written(b) + (gap + ['T', 'j'])) && Apart(raw, i + |Written(b)| + |gap| + 2)
    ensures TextsFrom(raw, i) == KeptOne(Literal.Render(b)) + TextsFrom(raw, i + |Written(b)| + |gap| + 2)
  {
    hide At;
    hide Apart;
    hide TextsFrom;
    hide StringStep;
    hide StringAt;
    hide SkipFrom;
    hide IsOperator;
    hide KeptOne;
    hide Written;
    AtSplit(raw, i, Written(b), gap + ['T', 'j']);
    StringAtWritten(raw, i, b);
    OperatorFound(raw, i + |Written(b)|, gap, 'j');
    StringStepIs(raw, i, Literal.Render(b), i + |Written(b)|, i + |Written(b)| + |gap|);
    TextsAtString(raw, i);
  }

  lemma TextsAtString(raw: string, i: nat)
    requires i < |raw| && raw[i] == '('
    ensures TextsFrom(raw, i) == StringStep(raw, i).0 + TextsFrom(raw, StringStep(raw, i).1)
  {
    hide StringStep;
    hide ArrayStep;
  }

  lemma StringStepIs(raw: string, i: nat, content: string, close: nat, operator: nat)
    requires i < |raw| && raw[i] == '(' && close <= |raw| && StringAt(raw, i) == Some((content, close))
    requires SkipFrom(raw, close) == operator && IsOperator(raw, operator, 'j')
    ensures StringStep(raw, i) == (KeptOne(content), operator + 2)
  {
    hide StringAt;
    hide SkipFrom;
    hide KeptOne;
  }

  lemma ShowArrayScanned(raw: string, i: nat, items: seq<Item>, end: string, gap: string)
    requires ItemsFit(items) && AllSpace(gap)
    requires ArrayEnd(end) && At(raw, i, "[" + (RenderItems(items) + end) + (gap + ['T', 'J']))
    requires Apart(raw, i + |RenderItems(items)| + |end| + |gap| + 3)
    ensures TextsFrom(raw, i)
            == Kept(ItemContents(items)) + TextsFrom(raw, i + |RenderItems(items)| + |end| + |gap| + 3)
  {
    hide At;
    hide Apart;
    hide TextsFrom;
    hide ArrayStep;
    hide ItemsFrom;
    hide SkipFrom;
    hide IsOperator;
    hide Kept;
    hide ItemsFit;
    hide ArrayEnd;
    var inner := RenderItems(items) + end;
    AtSplit(raw, i, "[" + inner, gap + ['T', 'J']);
    AtSplit(raw, i, "[", inner);
    AtHead(raw, i, "[");
    ItemsRead(raw, i + 1, items, end);
    OperatorFound(raw, i + 1 + |inner|, gap, 'J');
    ArrayStepIs(raw, i, ItemContents(items), i + 1 + |inner|, i + 1 + |inner| + |gap|);
    TextsAtArray(raw, i);
  }

  lemma TextsAtArray(raw: string, i: nat)
    requires i < |raw| && raw[i] == '['
    ensures TextsFrom(raw, i) == ArrayStep(raw, i).0 + TextsFrom(raw, ArrayStep(raw, i).1)
  {
    hide StringStep;
    hide ArrayStep;
  }

  lemma ArrayStepIs(raw: string, i: nat, contents: seq<string>, close: nat, operator: nat)
    requires i < |raw| && raw[i] == '[' && close <= |raw|
    requires ItemsFrom(raw, i + 1) == Some((contents, close)) && SkipFrom(raw, close) == operator
    requires IsOperator(raw, operator, 'J')
    ensures ArrayStep(raw, i) == (Kept(contents), operator + 2)
  {
    hide ItemsFrom;
    hide SkipFrom;
    hide Kept;
  }

  lemma ArraySegmentScanned(raw: string, i: nat, segment: Segment)
    requires segment.ShowArray? && SegmentFits(segment) && At(raw, i, RenderSegment(segment))
    requires Apart(raw, i + |RenderSegment(segment)|)
    ensures TextsFrom(raw, i) == Kept(SegmentContents(segment)) + TextsFrom(raw, i + |RenderSegment(segment)|)
  {
    hide TextsFrom;
    hide Kept;
    hide At;
    var end := segment.tail + "]";
    assert end[..|segment.tail|] == segment.tail;
    ShowArrayScanned(raw, i, segment.items, end, segment.gap);
  }

  lemma ShowSegmentScanned(raw: string, i: nat, segment: Segment)
    requires segment.Show? && SegmentFits(segment) && At(raw, i, RenderSegment(segment))
    requires Apart(raw, i + |RenderSegment(segment)|)
    ensures TextsFrom(raw, i) == Kept(SegmentContents(segment)) + TextsFrom(raw, i + |RenderSegment(segment)|)
  {
    hide TextsFrom;
    hide Kept;
    hide At;
    ShowScanned(raw, i, segment.body, segment.gap);
    KeptSingle(Literal.Render(segment.body));
  }

  lemma FillerScanned(raw: string, i: nat, segment: Segment)
    requires segment.Filler? && SegmentFits(segment) && At(raw, i, RenderSegment(segment))
    ensures TextsFrom(raw, i) == Kept(SegmentContents(segment)) + TextsFrom(raw, i + |RenderSegment(segment)|)
  {
    hide TextsFrom;
    hide At;
    ScanSkips(raw, i, segment.s);
    assert Kept([]) + TextsFrom(raw, i + |segment.s|) == TextsFrom(raw, i + |segment.s|);
  }

  lemma SegmentScanned(raw: string, i: nat, segment: Segment)
    requires SegmentFits(segment) && At(raw, i, RenderSegment(segment))
    requires segment.Filler? || Apart(raw, i + |RenderSegment(segment)|)
    ensures TextsFrom(raw, i) == Kept(SegmentContents(segment)) + TextsFrom(raw, i + |RenderSegment(segment)|)
  {
    hide *;
    match segment
    case Filler(_) => FillerScanned(raw, i, segment);
    case Show(_, _) => ShowSegmentScanned(raw, i, segment);
    case ShowArray(_, _, _) => ArraySegmentScanned(raw, i, segment);
  }

  lemma ApartBehind(raw: string, k: nat, rest: string)
    requires At(raw, k, rest) && k + |rest| == |raw| && StartsApart(rest)
    ensures Apart(raw, k)
  {
  }

  lemma ScanStep(raw: string, i: nat, segment: Segment, text: string, rest: string)
    requires SegmentFits(segment) && text == RenderSegment(segment) && (segment.Filler? || StartsApart(rest))
    requires At(raw, i, text + rest) && i + |text + rest| == |raw|
    ensures At(raw, i + |text|, rest)
    ensures TextsFrom(raw, i) == Kept(SegmentContents(segment)) + TextsFrom(raw, i + |text|)
  {
    hide *;
    AtSplit(raw, i, text, rest);
    if !segment.Filler? { ApartBehind(raw, i + |text|, rest); }
    SegmentScanned(raw, i, segment);
  }

  lemma DocUnfolds(doc: seq<Segment>, text: string)
    requires doc != [] && text == RenderSegment(doc[0]) && Fits(doc)
    ensures RenderDoc(doc) == text + RenderDoc(doc[1..])
    ensures SegmentFits(doc[0]) && (doc[0].Filler? || StartsApart(RenderDoc(doc[1..]))) && Fits(doc[1..])
  {
  }

  lemma KeptContents(doc: seq<Segment>)
    requires doc != []
    ensures Kept(Contents(doc)) == Kept(SegmentContents(doc[0])) + Kept(Contents(doc[1..]))
  {
    KeptConcat(SegmentContents(doc[0]), Contents(doc[1..]));
  }

  lemma {:induction false} ScanFrom(raw: string, i: nat, doc: seq<Segment>) returns (found: seq<string>)
    requires Fits(doc) && At(raw, i, RenderDoc(doc)) && i + |RenderDoc(doc)| == |raw|
    ensures found == TextsFrom(raw, i) && found == Kept(Contents(doc))
    decreases |doc|
  {
    if doc == [] { return []; }
    hide *;
    ghost var text := RenderSegment(doc[0]);
    DocUnfolds(doc, text);
    ScanStep(raw, i, doc[0], text, RenderDoc(doc[1..]));
    var later := ScanFrom(raw, i + |text|, doc[1..]);
    KeptContents(doc);
    found := Kept(SegmentContents(doc[0])) + later;
  }

  /** The scan of a document finds the strings it shows, in order, and nothing else. */
  lemma ScanFindsContents(doc: seq<Segment>)
    requires Fits(doc)
    ensures TextsFrom(RenderDoc(doc), 0) == Kept(Contents(doc))
  {
    var found := ScanFrom(RenderDoc(doc), 0, doc);
  }

  // ---------- Round trip ----------

  /** The literal-string body that shows `s`, with backslashes and parentheses escaped. */
  function BodyOf(s: string): (b: Literal.Body)
    ensures Literal.WellFormed(b)
  {
    if s == "" then Literal.Empty
    else if s[0] == '\\' || Escapes.IsParen(s[0]) then Literal.Escape(s[0], BodyOf(s[1..]))
    else Literal.Plain(s[0], BodyOf(s[1..]))
  }

  lemma {:induction false} BodyOfIsEscape(s: string)
    ensures Literal.Render(BodyOf(s)) == Escapes.Escape(s)
  {
    if s != "" {
      BodyOfIsEscape(s[1..]);
      assert Escapes.UnitsOf(s)[1..] == Escapes.UnitsOf(s[1..]);
    }
  }

  /** The contents a document shows are the given texts, escaped. */
  predicate Shows(doc: seq<Segment>, texts: seq<string>) {
    |Contents(doc)| == |texts| && forall i :: 0 <= i < |texts| ==> Contents(doc)[i] == Literal.Render(BodyOf(texts[i]))
  }

  function NotBlank(texts: seq<string>): seq<string> {
    if texts == [] then [] else (if Blank(texts[0]) then [] else [texts[0]]) + NotBlank(texts[1..])
  }

  lemma {:induction false} KeptAreTexts(contents: seq<string>, texts: seq<string>)
    requires |contents| == |texts|
    requires forall i :: 0 <= i < |texts| ==> contents[i] == Literal.Render(BodyOf(texts[i]))
    requires forall i :: 0 <= i < |texts| ==> !Escapes.HasBackslashLetter(texts[i])
    ensures Kept(contents) == NotBlank(texts)
    decreases |texts|
  {
    if texts != [] {
      BodyOfIsEscape(texts[0]);
      Escapes.UnescapeUndoesEscape(texts[0]);
      TrimEmpty(texts[0]);
      KeptAreTexts(contents[1..], texts[1..]);
    }
  }

  /** Round trip: a document that shows given texts, in any mix of `Tj` and `TJ` and with any filler, gives
      back the texts that are not blank, joined by spaces and trimmed. */
  lemma ExtractionGivesTexts(doc: seq<Segment>, texts: seq<string>)
    requires Fits(doc) && Shows(doc, texts)
    requires forall i :: 0 <= i < |texts| ==> !Escapes.HasBackslashLetter(texts[i])
    ensures TextsFrom(RenderDoc(doc), 0) == NotBlank(texts)
    ensures Combined(TextsFrom(RenderDoc(doc), 0))
            == if NotBlank(texts) == [] then None else Some(Trim(Join(NotBlank(texts))))
  {
    var raw := RenderDoc(doc);
    ScanFindsContents(doc);
    KeptAreTexts(Contents(doc), texts);
    JoinNotBlank(texts);
  }

  lemma {:induction false} NoneBlank(texts: seq<string>)
    ensures forall t :: t in NotBlank(texts) ==> !Blank(t)
  {
    if texts != [] {
      NoneBlank(texts[1..]);
    }
  }

  lemma JoinNotBlank(texts: seq<string>)
    ensures NotBlank(texts) != [] ==> Trim(Join(NotBlank(texts))) != ""
  {
    var kept := NotBlank(texts);
    if kept != [] {
      NoneBlank(texts);
      assert !Blank(kept[0]);
      var c :| c in kept[0] && !IsJsSpace(c);
      assert Join(kept)[..|kept[0]|] == kept[0];
      assert c in Join(kept);
      TrimEmpty(Join(kept));
    }
  }
}
