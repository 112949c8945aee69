/** Undoing the escapes of a literal string by five replacements one after the other, and exactly when
    that gives back what was escaped. */
module PdfEscapes {
  /** `replaceAll` of a backslash and `c` by `r`, from left to right. */
  function ReplacePair(s: string, c: char, r: char): string {
    if |s| < 2 then s
    else if s[0] == '\\' && s[1] == c then [r] + ReplacePair(s[2..], c, r)
    else [s[0]] + ReplacePair(s[1..], c, r)
  }

  predicate IsParen(c: char) {
    c == '(' || c == ')'
  }

  /** `replaceAll(/\\([)(])/g, '$1')`. */
  function DropBeforeParens(s: string): string {
    if |s| < 2 then s
    else if s[0] == '\\' && IsParen(s[1]) then [s[1]] + DropBeforeParens(s[2..])
    else [s[0]] + DropBeforeParens(s[1..])
  }

  /** The replacements up to the tab: `\n`, `\r`, `\t`. */
  function Controls(s: string): string {
    ReplacePair(ReplacePair(ReplacePair(s, 'n', '\n'), 'r', '\r'), 't', '\t')
  }

  function Unescape(s: string): string {
    DropBeforeParens(ReplacePair(Controls(s), '\\', '\\'))
  }

  /** One unit of a literal string: a character that stands for itself, an escaped character, the code of a
      character in up to three octal digits, a line break that does not count, or a line break that counts as a line
      feed. */
  datatype Unit =
    | Self(c: char)
    | Escaped(c: char)
    | Octal(digits: string)
    | Continued(eol: string)
    | Bare(eol: string)

  predicate IsOctal(c: char) {
    '0' <= c <= '7'
  }

  predicate Begins(s: string, c: char) {
    s != "" && s[0] == c
  }

  /** A unit in front of `after`: digits and line breaks reach as far as they can. */
  predicate ValidUnit(u: Unit, after: string) {
    match u
    case Self(c) => c != '\\'
    case Escaped(c) => !IsOctal(c) && c != '\n' && c != '\r'
    case Octal(digits) =>
      1 <= |digits| <= 3 && (forall c :: c in digits ==> IsOctal(c)) && (|digits| < 3 && after != "" ==> !IsOctal(after[0]))
    case Continued(eol) => eol == "\n" || eol == "\r\n" || (eol == "\r" && !Begins(after, '\n'))
    case Bare(eol) => eol == "\r\n" || (eol == "\r" && !Begins(after, '\n'))
  }

  predicate Valid(units: seq<Unit>) {
    units == [] || (ValidUnit(units[0], Render(units[1..])) && Valid(units[1..]))
  }

  function RenderUnit(u: Unit): string {
    match u
    case Self(c) => [c]
    case Escaped(c) => ['\\', c]
    case Octal(digits) => ['\\'] + digits
    case Continued(eol) => ['\\'] + eol
    case Bare(eol) => eol
  }

  function Render(units: seq<Unit>): string {
    if units == [] then "" else RenderUnit(units[0]) + Render(units[1..])
  }

  function Digit(c: char): nat {
    if IsOctal(c) then c as int - '0' as int else 0
  }

  function OctalValue(digits: string): nat {
    if digits == "" then 0 else OctalValue(digits[..|digits| - 1]) * 8 + Digit(digits[|digits| - 1])
  }

  /** What an escaped character stands for; unknown ones stand for themselves. */
  function Letter(c: char): char {
    if c == 'n' then '\n' else if c == 'r' then '\r' else if c == 't' then '\t'
    else if c == 'b' then '\U{08}' else if c == 'f' then '\U{0C}' else c
  }

  /** What one unit stands for (table 3 in section 7.3.4.2 of ISO 32000-1); high-order overflow of an octal code
      is ignored. */
  function Meaning(u: Unit): string {
    match u
    case Self(c) => [c]
    case Escaped(c) => [Letter(c)]
    case Octal(digits) => [(OctalValue(digits) % 256) as char]
    case Continued(_) => ""
    case Bare(_) => "\n"
  }

  /** The table row by row: seven letters and marks, and codes of one, two and three octal digits. */
  lemma EscapeTable(x: nat, y: nat, z: nat)
    requires x < 8 && y < 8 && z < 8
    ensures Meaning(Escaped('n')) == ['\n'] && Meaning(Escaped('r')) == ['\r'] && Meaning(Escaped('t')) == ['\t']
    ensures Meaning(Escaped('b')) == ['\U{08}'] && Meaning(Escaped('f')) == ['\U{0C}']
    ensures Meaning(Escaped('(')) == "(" && Meaning(Escaped(')')) == ")" && Meaning(Escaped('\\')) == "\\"
    ensures var a, b, c := '0' + x as char, '0' + y as char, '0' + z as char;
            && IsOctal(a) && Meaning(Octal([a])) == [x as char] && Meaning(Octal([a, b])) == [(8 * x + y) as char]
            && Meaning(Octal([a, b, c])) == [((64 * x + 8 * y + z) % 256) as char]
  {
    var a, b, c := '0' + x as char, '0' + y as char, '0' + z as char;
    assert [a, b, c][..2] == [a, b] && [a, b][..1] == [a] && [a][..0] == "";
    assert OctalValue([a]) == x && OctalValue([a, b]) == 8 * x + y;
  }

  function Decode(units: seq<Unit>): string {
    if units == [] then "" else Meaning(units[0]) + Decode(units[1..])
  }

  // ---------- What the replacements make of one unit ----------

  predicate IsControlLetter(c: char) {
    c == 'n' || c == 'r' || c == 't'
  }

  predicate Special(c: char) {
    IsControlLetter(c) || IsParen(c)
  }

  lemma SelfPasses(c: char, s: string)
    requires c != '\\'
    ensures Unescape([c] + s) == [c] + Unescape(s)
  {
    PairPasses(c, s, 'n', '\n');
    var one := ReplacePair(s, 'n', '\n');
    PairPasses(c, one, 'r', '\r');
    var two := ReplacePair(one, 'r', '\r');
    PairPasses(c, two, 't', '\t');
    var three := ReplacePair(two, 't', '\t');
    PairPasses(c, three, '\\', '\\');
    ParensPass(c, ReplacePair(three, '\\', '\\'));
  }

  /** A character that starts no match stays, and what follows it is treated as if it stood alone. */
  lemma PairPasses(x: char, s: string, c: char, r: char)
    requires x != '\\' || s == "" || s[0] != c
    ensures ReplacePair([x] + s, c, r) == [x] + ReplacePair(s, c, r)
  {
    assert ([x] + s)[1..] == s;
  }

  lemma PairMatches(s: string, c: char, r: char)
    ensures ReplacePair(['\\', c] + s, c, r) == [r] + ReplacePair(s, c, r)
  {
    assert (['\\', c] + s)[2..] == s;
  }

  lemma ParensPass(x: char, s: string)
    requires x != '\\' || s == "" || !IsParen(s[0])
    ensures DropBeforeParens([x] + s) == [x] + DropBeforeParens(s)
  {
    assert ([x] + s)[1..] == s;
  }

  lemma ParenMatches(c: char, s: string)
    requires IsParen(c)
    ensures DropBeforeParens(['\\', c] + s) == [c] + DropBeforeParens(s)
  {
    assert (['\\', c] + s)[2..] == s;
  }

  /** A backslash and `d` pass a replacement that looks for another letter. */
  lemma OtherPairPasses(d: char, s: string, c: char, r: char)
    requires d != c && d != '\\'
    ensures ReplacePair(['\\', d] + s, c, r) == ['\\', d] + ReplacePair(s, c, r)
  {
    var t := ['\\', d] + s;
    assert t[1..] == [d] + s;
    PairPasses(d, s, c, r);
  }

  lemma EscapedLetter(c: char, s: string)
    requires IsControlLetter(c)
    ensures Unescape(['\\', c] + s) == [Letter(c)] + Unescape(s)
  {
    var one := ReplacePair(s, 'n', '\n');
    var two := ReplacePair(one, 'r', '\r');
    var three := ReplacePair(two, 't', '\t');
    var x := Letter(c);
    if c == 'n' {
      PairMatches(s, 'n', '\n');
      PairPasses(x, one, 'r', '\r');
      PairPasses(x, two, 't', '\t');
    } else if c == 'r' {
      OtherPairPasses(c, s, 'n', '\n');
      PairMatches(one, 'r', '\r');
      PairPasses(x, two, 't', '\t');
    } else {
      OtherPairPasses(c, s, 'n', '\n');
      OtherPairPasses(c, one, 'r', '\r');
      PairMatches(two, 't', '\t');
    }
    PairPasses(x, three, '\\', '\\');
    ParensPass(x, ReplacePair(three, '\\', '\\'));
  }

  lemma EscapedParen(c: char, s: string)
    requires IsParen(c)
    ensures Unescape(['\\', c] + s) == [c] + Unescape(s)
  {
    var one := ReplacePair(s, 'n', '\n');
    var two := ReplacePair(one, 'r', '\r');
    var three := ReplacePair(two, 't', '\t');
    OtherPairPasses(c, s, 'n', '\n');
    OtherPairPasses(c, one, 'r', '\r');
    OtherPairPasses(c, two, 't', '\t');
    OtherPairPasses(c, three, '\\', '\\');
    ParenMatches(c, ReplacePair(three, '\\', '\\'));
  }

  lemma OtherEscape(c: char, s: string)
    requires c != '\\' && !Special(c)
    ensures Unescape(['\\', c] + s) == ['\\', c] + Unescape(s)
  {
    var one := ReplacePair(s, 'n', '\n');
    var two := ReplacePair(one, 'r', '\r');
    var three := ReplacePair(two, 't', '\t');
    OtherPairPasses(c, s, 'n', '\n');
    OtherPairPasses(c, one, 'r', '\r');
    OtherPairPasses(c, two, 't', '\t');
    OtherPairPasses(c, three, '\\', '\\');
    LonePairStays(c, ReplacePair(three, '\\', '\\'));
  }

  lemma {:induction false} SelvesPass(w: string, s: string)
    requires '\\' !in w
    ensures Unescape(w + s) == w + Unescape(s)
  {
    hide Unescape;
    if w == "" {
      assert w + s == s;
    } else {
      assert w + s == [w[0]] + (w[1..] + s) && w + Unescape(s) == [w[0]] + (w[1..] + Unescape(s));
      SelfPasses(w[0], w[1..] + s);
      SelvesPass(w[1..], s);
    }
  }

  /** Octal codes and line breaks stay as they are, backslash and all. */
  lemma RawStays(w: string, s: string)
    requires w != "" && '\\' !in w && !Special(w[0])
    ensures Unescape(['\\'] + w + s) == ['\\'] + w + Unescape(s)
  {
    hide Unescape;
    assert ['\\'] + w + s == ['\\', w[0]] + (w[1..] + s);
    assert ['\\'] + w + Unescape(s) == ['\\', w[0]] + (w[1..] + Unescape(s));
    OtherEscape(w[0], w[1..] + s);
    SelvesPass(w[1..], s);
  }

  /** `x` does not start with one of the letters or parentheses the replacements look for. */
  predicate StartsPlain(x: string) {
    x == "" || !Special(x[0])
  }

  lemma StaysPlain(x: string, c: char, r: char)
    requires StartsPlain(x) && !Special(r)
    ensures StartsPlain(ReplacePair(x, c, r))
  {
  }

  lemma TwoBackslashesPass(x: string, c: char, r: char)
    requires StartsPlain(x) && IsControlLetter(c)
    ensures ReplacePair(['\\', '\\'] + x, c, r) == ['\\', '\\'] + ReplacePair(x, c, r)
  {
    PairPasses('\\', x, c, r);
    PairPasses('\\', ['\\'] + x, c, r);
    assert ['\\', '\\'] + x == ['\\'] + (['\\'] + x);
  }

  /** An escaped backslash comes out right when no special character stands directly behind it. */
  lemma EscapedBackslash(x: string)
    requires StartsPlain(x)
    ensures Unescape(['\\', '\\'] + x) == ['\\'] + Unescape(x)
  {
    var one := ReplacePair(x, 'n', '\n');
    var two := ReplacePair(one, 'r', '\r');
    var three := ReplacePair(two, 't', '\t');
    StaysPlain(x, 'n', '\n');
    StaysPlain(one, 'r', '\r');
    StaysPlain(two, 't', '\t');
    TwoBackslashesPass(x, 'n', '\n');
    TwoBackslashesPass(one, 'r', '\r');
    TwoBackslashesPass(two, 't', '\t');
    PairMatches(three, '\\', '\\');
    StaysPlain(three, '\\', '\\');
    ParensPass('\\', ReplacePair(three, '\\', '\\'));
  }

  lemma BehindTwoPasses(d: char, s: string, c: char, r: char)
    requires d != c && d != '\\' && c != '\\'
    ensures ReplacePair(['\\', '\\', d] + s, c, r) == ['\\', '\\', d] + ReplacePair(s, c, r)
  {
    var t := ['\\', '\\', d] + s;
    assert t[1..] == ['\\', d] + s;
    OtherPairPasses(d, s, c, r);
  }

  lemma BehindTwoMatches(s: string, c: char, r: char)
    requires c != '\\'
    ensures ReplacePair(['\\', '\\', c] + s, c, r) == ['\\', r] + ReplacePair(s, c, r)
  {
    var t := ['\\', '\\', c] + s;
    assert t[1..] == ['\\', c] + s;
    PairMatches(s, c, r);
  }

  lemma LetterBehindTwo(c: char, s: string)
    requires IsControlLetter(c)
    ensures Controls(['\\', '\\', c] + s) == ['\\', Letter(c)] + Controls(s)
  {
    var x := Letter(c);
    var one := ReplacePair(s, 'n', '\n');
    var two := ReplacePair(one, 'r', '\r');
    if c == 'n' {
      BehindTwoMatches(s, 'n', '\n');
      LoneThenControl(x, one, 'r', '\r');
      LoneThenControl(x, two, 't', '\t');
    } else if c == 'r' {
      BehindTwoPasses(c, s, 'n', '\n');
      BehindTwoMatches(one, 'r', '\r');
      LoneThenControl(x, two, 't', '\t');
    } else {
      BehindTwoPasses(c, s, 'n', '\n');
      BehindTwoPasses(c, one, 'r', '\r');
      BehindTwoMatches(two, 't', '\t');
    }
  }

  lemma LonePairStays(x: char, s: string)
    requires x != '\\' && !IsParen(x)
    ensures DropBeforeParens(['\\', x] + s) == ['\\', x] + DropBeforeParens(s)
  {
    var t := ['\\', x] + s;
    assert t[1..] == [x] + s;
    ParensPass(x, s);
  }

  /** Behind an escaped backslash a letter is taken for the end of a control escape. */
  lemma BackslashThenLetter(c: char, s: string)
    requires IsControlLetter(c)
    ensures Unescape(['\\', '\\', c] + s) == ['\\', Letter(c)] + Unescape(s)
  {
    LetterBehindTwo(c, s);
    LoneThenControl(Letter(c), Controls(s), '\\', '\\');
    LonePairStays(Letter(c), ReplacePair(Controls(s), '\\', '\\'));
  }

  lemma LoneThenControl(x: char, s: string, c: char, r: char)
    requires x != '\\' && x != c
    ensures ReplacePair(['\\', x] + s, c, r) == ['\\', x] + ReplacePair(s, c, r)
  {
    OtherPairPasses(x, s, c, r);
  }

  /** Behind an escaped backslash a bare parenthesis swallows it. */
  lemma BackslashThenParen(c: char, s: string)
    requires IsParen(c)
    ensures Unescape(['\\', '\\', c] + s) == [c] + Unescape(s)
  {
    var one := ReplacePair(s, 'n', '\n');
    var two := ReplacePair(one, 'r', '\r');
    var three := ReplacePair(two, 't', '\t');
    hide ReplacePair;
    hide DropBeforeParens;
    BehindTwoPasses(c, s, 'n', '\n');
    BehindTwoPasses(c, one, 'r', '\r');
    BehindTwoPasses(c, two, 't', '\t');
    PairMatches([c] + three, '\\', '\\');
    assert ['\\', '\\'] + ([c] + three) == ['\\', '\\', c] + three;
    PairPasses(c, three, '\\', '\\');
    var four := ReplacePair(three, '\\', '\\');
    assert ['\\'] + ([c] + four) == ['\\', c] + four;
    ParenMatches(c, four);
  }

  // ---------- All units together ----------

  /** An escaped backslash directly in front of a bare `n`, `r`, `t` or parenthesis. */
  predicate Misread(units: seq<Unit>) {
    exists i :: 0 <= i < |units| - 1 && MisreadAt(units, i)
  }

  predicate MisreadAt(units: seq<Unit>, i: nat)
    requires i < |units| - 1
  {
    units[i] == Escaped('\\') && units[i + 1].Self? && Special(units[i + 1].c)
  }

  /** The escapes, and the line breaks, that the replacements do not know. */
  predicate Unknown(u: Unit) {
    match u
    case Self(_) => false
    case Escaped(c) => c != '\\' && !Special(c)
    case _ => true
  }

  predicate AllKnown(units: seq<Unit>) {
    forall u :: u in units ==> !Unknown(u)
  }

  /** What the replacements yield for one unit. */
  function Made(u: Unit): string {
    if Unknown(u) then RenderUnit(u) else Meaning(u)
  }

  /** What the replacements yield, unit by unit. */
  function Outcome(units: seq<Unit>): string {
    if units == [] then ""
    else if |units| > 1 && MisreadAt(units, 0) then
      (if IsParen(units[1].c) then [units[1].c] else ['\\', Letter(units[1].c)]) + Outcome(units[2..])
    else Made(units[0]) + Outcome(units[1..])
  }

  lemma UnitYields(u: Unit, after: string)
    requires ValidUnit(u, after) && (u == Escaped('\\') ==> StartsPlain(after))
    ensures Unescape(RenderUnit(u) + after) == Made(u) + Unescape(after)
  {
    hide Unescape;
    match u
    case Self(c) => SelfPasses(c, after);
    case Escaped(c) =>
      if c == '\\' {
        EscapedBackslash(after);
      } else if IsParen(c) {
        EscapedParen(c, after);
      } else if IsControlLetter(c) {
        EscapedLetter(c, after);
      } else {
        OtherEscape(c, after);
      }
    case Octal(digits) =>
      assert digits[0] in digits && '\\' !in digits;
      RawStays(digits, after);
    case Continued(eol) =>
      RawStays(eol, after);
    case Bare(eol) =>
      SelvesPass(eol, after);
  }

  lemma PairYields(c: char, after: string)
    requires Special(c)
    ensures Unescape(['\\', '\\', c] + after)
            == (if IsParen(c) then [c] else ['\\', Letter(c)]) + Unescape(after)
  {
    if IsParen(c) { BackslashThenParen(c, after); } else { BackslashThenLetter(c, after); }
  }

  lemma UnitStartsPlain(u: Unit, after: string)
    requires ValidUnit(u, after) && !(u.Self? && Special(u.c))
    ensures StartsPlain(RenderUnit(u) + after)
  {
  }

  lemma RestStartsPlain(units: seq<Unit>)
    requires units != [] && Valid(units) && units[0] == Escaped('\\') && !(|units| > 1 && MisreadAt(units, 0))
    ensures StartsPlain(Render(units[1..]))
  {
    hide ValidUnit;
    hide RenderUnit;
    hide Special;
    var rest := units[1..];
    if rest != [] {
      assert rest[0] == units[1];
      UnitStartsPlain(rest[0], Render(rest[1..]));
    }
  }

  lemma {:induction false} UnescapeYieldsOutcome(units: seq<Unit>)
    requires Valid(units)
    ensures Unescape(Render(units)) == Outcome(units)
    decreases |units|
  {
    hide Unescape;
    hide ValidUnit;
    hide Made;
    hide StartsPlain;
    if units == [] {
      NothingYields();
    } else if |units| > 1 && MisreadAt(units, 0) {
      var c, later := units[1].c, units[2..];
      assert units[1..][1..] == later;
      UnescapeYieldsOutcome(later);
      assert Render(units) == ['\\', '\\', c] + Render(later);
      PairYields(c, Render(later));
    } else {
      UnescapeYieldsOutcome(units[1..]);
      if units[0] == Escaped('\\') { RestStartsPlain(units); }
      UnitYields(units[0], Render(units[1..]));
    }
  }

  lemma NothingYields()
    ensures Unescape("") == ""
  {
  }

  /** Leaving out a first unit that is not misread changes nothing about the rest. */
  lemma MisreadLater(units: seq<Unit>)
    requires units != [] && !(|units| > 1 && MisreadAt(units, 0))
    ensures Misread(units) <==> Misread(units[1..])
  {
    var rest := units[1..];
    if Misread(units) {
      var i :| 0 <= i < |units| - 1 && MisreadAt(units, i);
      assert MisreadAt(rest, i - 1);
    }
    if Misread(rest) {
      var i :| 0 <= i < |rest| - 1 && MisreadAt(rest, i);
      assert MisreadAt(units, i + 1);
    }
  }

  predicate NoParens(s: string) {
    '(' !in s && ')' !in s
  }

  lemma UnknownMakes(u: Unit, after: string)
    requires ValidUnit(u, after) && Unknown(u)
    ensures |Made(u)| >= 1 && NoParens(Made(u)) && |Meaning(u)| <= 1
    ensures !u.Bare? ==> |Made(u)| >= 2 && Made(u)[0] == '\\'
    ensures u.Bare? ==> Made(u)[0] == '\r' && Meaning(u) == "\n"
    ensures Begins(Meaning(u), '\\') ==> |Made(u)| == 4
  {
    if u.Octal? && |u.digits| < 3 { ShortCodes(u.digits); }
  }

  /** The code of a backslash has three digits. */
  lemma ShortCodes(digits: string)
    requires 1 <= |digits| <= 2 && forall c :: c in digits ==> IsOctal(c)
    ensures OctalValue(digits) < 64
  {
    assert digits[0] in digits;
    if |digits| == 2 {
      assert digits[1] in digits && digits[..1][..0] == "";
      assert OctalValue(digits[..1]) == Digit(digits[0]);
    } else {
      assert digits[..0] == "";
    }
  }

  lemma CancelFront(x: string, y: string, a: string, b: string)
    requires x + a == y + b && |y| <= |x|
    ensures x == y + x[|y|..] && x[|y|..] + a == b
  {
    assert (x + a)[..|y|] == x[..|y|] && (y + b)[..|y|] == y;
    assert (x + a)[|y|..] == x[|y|..] + a && (y + b)[|y|..] == b;
  }

  /** Once what was made is two characters or more ahead of the meaning, with no parenthesis among them, it never
      falls back in step. */
  lemma {:induction false} NeverInStepAgain(ahead: string, units: seq<Unit>)
    requires Valid(units) && |ahead| >= 2 && NoParens(ahead)
    ensures ahead + Outcome(units) != Decode(units)
    decreases |units|
  {
    hide ValidUnit;
    hide Made;
    hide Meaning;
    hide NoParens;
    hide MisreadAt;
    if units == [] {
    } else if |units| > 1 && MisreadAt(units, 0) {
      PairStaysAhead(ahead, units);
    } else if ahead + Outcome(units) == Decode(units) {
      var next := UnitAhead(ahead, units[0], Render(units[1..]), Outcome(units[1..]), Decode(units[1..]));
      NeverInStepAgain(next, units[1..]);
    }
  }

  lemma UnitAhead(ahead: string, u: Unit, after: string, o: string, d: string) returns (next: string)
    requires ValidUnit(u, after) && |ahead| >= 2 && NoParens(ahead) && ahead + (Made(u) + o) == Meaning(u) + d
    ensures |next| >= 2 && NoParens(next) && next + o == d
  {
    hide ValidUnit;
    hide Made;
    hide Meaning;
    hide NoParens;
    next := (ahead + Made(u))[if Meaning(u) == "" then 0 else 1..];
    assert ahead + Made(u) + o == ahead + (Made(u) + o);
    UnitStaysAhead(ahead, u, after);
    CancelFront(ahead + Made(u), Meaning(u), o, d);
    StillAhead(ahead, u, after);
  }

  lemma UnitStaysAhead(ahead: string, u: Unit, after: string)
    requires ValidUnit(u, after) && |ahead| >= 2
    ensures |Meaning(u)| <= 1 <= |ahead + Made(u)|
  {
  }

  lemma StillAhead(ahead: string, u: Unit, after: string)
    requires ValidUnit(u, after) && |ahead| >= 2 && NoParens(ahead)
    requires ahead + Made(u) == Meaning(u) + (ahead + Made(u))[|Meaning(u)|..]
    ensures |(ahead + Made(u))[|Meaning(u)|..]| >= 2 && NoParens((ahead + Made(u))[|Meaning(u)|..])
  {
    if Unknown(u) {
      UnknownMakes(u, after);
    } else {
      assert Made(u) == Meaning(u) == [Meaning(u)[0]];
      assert (ahead + Made(u))[0] == ahead[0] == Meaning(u)[0];
      assert ahead[0] in ahead;
    }
  }

  lemma PairAhead(ahead: string, c: char, o: string, d: string) returns (next: string)
    requires |ahead| >= 2 && NoParens(ahead) && Special(c)
    requires ahead + ((if IsParen(c) then [c] else ['\\', Letter(c)]) + o) == ['\\', c] + d
    ensures |next| >= 2 && NoParens(next) && next + o == d
  {
    var made := if IsParen(c) then [c] else ['\\', Letter(c)];
    assert ahead[1] == (ahead + (made + o))[1] == c && c in ahead;
    next := (ahead + made)[2..];
    assert ahead + made + o == ahead + (made + o);
    CancelFront(ahead + made, ['\\', c], o, d);
  }

  lemma {:induction false} PairStaysAhead(ahead: string, units: seq<Unit>)
    requires Valid(units) && |ahead| >= 2 && NoParens(ahead) && |units| > 1 && MisreadAt(units, 0)
    ensures ahead + Outcome(units) != Decode(units)
    decreases |units|, 0
  {
    hide NoParens;
    hide ValidUnit;
    hide Special;
    hide Letter;
    var c, later := units[1].c, units[2..];
    assert units[1..][1..] == later && Valid(units[1..]);
    PairMeans(units);
    if ahead + Outcome(units) == Decode(units) {
      var next := PairAhead(ahead, c, Outcome(later), Decode(later));
      NeverInStepAgain(next, later);
    }
  }

  lemma DecodeCons(units: seq<Unit>)
    requires units != []
    ensures Decode(units) == Meaning(units[0]) + Decode(units[1..])
  {
  }

  lemma PairMeans(units: seq<Unit>)
    requires |units| > 1 && MisreadAt(units, 0)
    ensures Decode(units) == ['\\', units[1].c] + Decode(units[2..])
  {
    hide Decode;
    var c, rest := units[1].c, units[1..];
    assert rest[1..] == units[2..] && rest[0] == Self(c);
    DecodeCons(units);
    DecodeCons(rest);
    assert Meaning(units[0]) == ['\\'] && Meaning(rest[0]) == [c];
    assert ['\\'] + ([c] + Decode(units[2..])) == ['\\', c] + Decode(units[2..]);
  }

  lemma ConsEqual(c: string, a: string, b: string)
    ensures c + a == c + b <==> a == b
  {
    assert (c + a)[|c|..] == a && (c + b)[|c|..] == b;
  }

  lemma UnknownDiffers(units: seq<Unit>)
    requires Valid(units) && units != [] && Unknown(units[0])
    ensures Outcome(units) != Decode(units)
  {
    var u, rest := units[0], units[1..];
    UnknownMakes(u, Render(rest));
    if u.Continued? || Begins(Meaning(u), '\\') {
      if Outcome(units) == Decode(units) {
        CancelFront(Made(u), Meaning(u), Outcome(rest), Decode(rest));
        assert NoParens(Made(u)[|Meaning(u)|..]);
        NeverInStepAgain(Made(u)[|Meaning(u)|..], rest);
      }
    } else {
      assert Outcome(units)[0] == Made(u)[0] && Decode(units)[0] == Meaning(u)[0];
    }
  }

  lemma PairDiffers(units: seq<Unit>)
    requires |units| > 1 && MisreadAt(units, 0)
    ensures Outcome(units) != Decode(units)
  {
    PairMeans(units);
    if IsParen(units[1].c) {
      assert Outcome(units)[0] != Decode(units)[0];
    } else {
      assert Outcome(units)[1] != Decode(units)[1];
    }
  }

  lemma {:induction false} OutcomeIsMeaning(units: seq<Unit>)
    requires Valid(units)
    ensures Outcome(units) == Decode(units) <==> !Misread(units) && AllKnown(units)
    decreases |units|
  {
    hide Valid;
    hide Meaning;
    if units == [] {
    } else if |units| > 1 && MisreadAt(units, 0) {
      PairDiffers(units);
    } else if Unknown(units[0]) {
      UnknownDiffers(units);
    } else {
      ValidLater(units);
      OutcomeIsMeaning(units[1..]);
      MisreadLater(units);
      ConsEqual(Meaning(units[0]), Outcome(units[1..]), Decode(units[1..]));
    }
  }

  lemma ValidLater(units: seq<Unit>)
    requires Valid(units) && units != []
    ensures Valid(units[1..])
  {
  }

  /** Unescaping gives a literal string its meaning exactly when no escaped backslash stands directly in front
      of a bare `n`, `r`, `t` or parenthesis and no unit is one of those the replacements do not know. */
  lemma UnescapeIsExact(units: seq<Unit>)
    requires Valid(units)
    ensures Unescape(Render(units)) == Decode(units) <==> !Misread(units) && AllKnown(units)
  {
    UnescapeYieldsOutcome(units);
    OutcomeIsMeaning(units);
  }

  /** The last backslash has nothing behind it; no literal string ends so. */
  predicate Dangling(s: string) {
    s != "" && if s[0] == '\\' then |s| == 1 || Dangling(s[2..]) else Dangling(s[1..])
  }

  /** The digits of the octal code that `s` starts with. */
  function CodeLength(s: string): (n: nat)
    requires s != "" && IsOctal(s[0])
    ensures 1 <= n <= 3 && n <= |s| && (forall c :: c in s[..n] ==> IsOctal(c)) && (n < 3 && n < |s| ==> !IsOctal(s[n]))
  {
    if |s| == 1 || !IsOctal(s[1]) then 1 else if |s| == 2 || !IsOctal(s[2]) then 2 else 3
  }

  /** The first unit of `s`. */
  function FirstUnit(s: string): Unit
    requires s != "" && !Dangling(s)
  {
    if s[0] == '\r' then Bare(if |s| > 1 && s[1] == '\n' then "\r\n" else "\r")
    else if s[0] != '\\' then Self(s[0])
    else if IsOctal(s[1]) then Octal(s[1..][..CodeLength(s[1..])])
    else if s[1] == '\n' then Continued("\n")
    else if s[1] == '\r' then Continued(if |s| > 2 && s[2] == '\n' then "\r\n" else "\r")
    else Escaped(s[1])
  }

  lemma FirstUnitFits(s: string)
    requires s != "" && !Dangling(s)
    ensures var u := FirstUnit(s);
            var n := |RenderUnit(u)|;
            && 1 <= n <= |s| && s[..n] == RenderUnit(u) && ValidUnit(u, s[n..]) && !Dangling(s[n..])
            && u != Self('\r')
  {
    var u := FirstUnit(s);
    var n := |RenderUnit(u)|;
    if s[0] == '\r' && n == 2 { assert s[1..][1..] == s[2..] && !Dangling(s[1..]); }
    if s[0] == '\\' && n > 2 {
      assert s[2] != '\\' && s[2..][1..] == s[3..] && !Dangling(s[3..]);
      if n > 3 { assert s[3] != '\\' && s[3..][1..] == s[4..] && !Dangling(s[4..]); }
    }
  }

  /** Every string that does not end in the middle of an escape is a sequence of such units, every carriage return
      in it a part of a line break. */
  lemma {:induction false} EveryStringIsUnits(s: string) returns (units: seq<Unit>)
    requires !Dangling(s)
    ensures Valid(units) && Render(units) == s && Self('\r') !in units
  {
    hide Dangling;
    hide FirstUnit;
    hide ValidUnit;
    if s == "" {
      units := [];
    } else {
      var u := FirstUnit(s);
      var n := |RenderUnit(u)|;
      FirstUnitFits(s);
      var rest := EveryStringIsUnits(s[n..]);
      units := [u] + rest;
      assert units[1..] == rest && s == s[..n] + s[n..];
    }
  }

  // ---------- A writer that escapes backslashes and parentheses ----------

  function UnitOf(c: char): Unit {
    if c == '\\' || IsParen(c) then Escaped(c) else Self(c)
  }

  function UnitsOf(s: string): (units: seq<Unit>)
    ensures |units| == |s| && forall i :: 0 <= i < |s| ==> units[i] == UnitOf(s[i])
  {
    if s == "" then [] else [UnitOf(s[0])] + UnitsOf(s[1..])
  }

  function Escape(s: string): string {
    Render(UnitsOf(s))
  }

  lemma {:induction false} DecodeUnitsOf(s: string)
    ensures Decode(UnitsOf(s)) == s
  {
    if s != "" {
      DecodeUnitsOf(s[1..]);
      assert UnitsOf(s)[1..] == UnitsOf(s[1..]);
    }
  }

  predicate LetterBehind(s: string, i: nat)
    requires i < |s| - 1
  {
    s[i] == '\\' && IsControlLetter(s[i + 1])
  }

  /** A backslash with `n`, `r` or `t` behind it. */
  predicate HasBackslashLetter(s: string) {
    exists i :: 0 <= i < |s| - 1 && LetterBehind(s, i)
  }

  lemma MisreadIffLetterBehind(s: string)
    ensures Misread(UnitsOf(s)) <==> HasBackslashLetter(s)
  {
    var units := UnitsOf(s);
    forall i | 0 <= i < |s| - 1 ensures MisreadAt(units, i) <==> LetterBehind(s, i) {
      assert units[i] == UnitOf(s[i]) && units[i + 1] == UnitOf(s[i + 1]);
    }
  }

  lemma {:induction false} UnitsOfValid(s: string)
    ensures Valid(UnitsOf(s)) && AllKnown(UnitsOf(s))
  {
    if s != "" {
      UnitsOfValid(s[1..]);
      assert UnitsOf(s)[1..] == UnitsOf(s[1..]);
    }
  }

  /** Unescaping undoes escaping exactly for the texts in which no backslash is directly followed by `n`,
      `r` or `t`; a text without backslashes always survives. */
  lemma UnescapeUndoesEscape(s: string)
    ensures Unescape(Escape(s)) == s <==> !HasBackslashLetter(s)
  {
    UnitsOfValid(s);
    UnescapeIsExact(UnitsOf(s));
    DecodeUnitsOf(s);
    MisreadIffLetterBehind(s);
  }

  /** A backslash and an `n` come back as a backslash and a newline. */
  lemma BackslashNIsMisread()
    ensures Unescape(Escape("\\n")) == "\\\n"
  {
    var units := UnitsOf("\\n");
    assert units == [Escaped('\\'), Self('n')] && units[1..] == [Self('n')];
    assert Render(units[1..]) == "n";
    assert Render(units) == ['\\', '\\', 'n'] + "";
    BackslashThenLetter('n', "");
  }

  lemma CodeOfA()
    ensures OctalValue("101") == 65
  {
    assert "101"[..2] == "10" && "10"[..1] == "1" && "1"[..0] == "";
  }

  lemma OneUnit(u: Unit)
    ensures Render([u]) == RenderUnit(u) && Decode([u]) == Meaning(u) && (Valid([u]) <==> ValidUnit(u, ""))
  {
    assert [u][1..] == [] && RenderUnit(u) + "" == RenderUnit(u) && Meaning(u) + "" == Meaning(u);
  }

  /** A backspace and the code of an `A` come back as they were written. */
  lemma UnknownEscapesStay()
    ensures Valid([Escaped('b')]) && Decode([Escaped('b')]) == "\U{08}" && Unescape("\\b") == "\\b"
    ensures Valid([Octal("101")]) && Decode([Octal("101")]) == "A" && Unescape("\\101") == "\\101"
  {
    hide Unescape;
    hide OctalValue;
    hide Valid;
    hide Decode;
    OneUnit(Escaped('b'));
    OneUnit(Octal("101"));
    CodeOfA();
    OtherEscape('b', "");
    assert ['\\', 'b'] + "" == "\\b";
    RawStays("101", "");
    assert ['\\'] + "101" + "" == "\\101";
    NothingYields();
  }
}
