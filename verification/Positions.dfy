/** Strings that stand at a position of a longer string. */
module Positions {
  /** `x` stands at position `i`. */
  predicate At(raw: string, i: int, x: string) {
    0 <= i && i + |x| <= |raw| && forall k :: 0 <= k < |x| ==> raw[i + k] == x[k]
  }

  lemma AtSplit(raw: string, i: int, x: string, y: string)
    ensures At(raw, i, x + y) <==> At(raw, i, x) && At(raw, i + |x|, y)
  {
    if At(raw, i, x + y) {
      forall k | 0 <= k < |x| ensures raw[i + k] == x[k] {
        assert (x + y)[k] == x[k];
      }
      forall k | 0 <= k < |y| ensures raw[i + |x| + k] == y[k] {
        assert (x + y)[|x| + k] == y[k];
      }
    }
    if At(raw, i, x) && At(raw, i + |x|, y) {
      forall k | 0 <= k < |x + y| ensures raw[i + k] == (x + y)[k] {
        if k >= |x| { assert (x + y)[k] == y[k - |x|]; }
      }
    }
  }

  lemma AtSlice(raw: string, i: int, n: int, x: string)
    requires 0 <= i <= n <= |raw|
    ensures raw[i..n] == x <==> At(raw, i, x) && n == i + |x|
  {
    if raw[i..n] == x {
      forall k | 0 <= k < |x| ensures raw[i + k] == x[k] {
        assert raw[i..n][k] == x[k];
      }
    }
  }

  lemma AtHead(raw: string, i: int, s: string)
    requires s != "" && At(raw, i, s)
    ensures i < |raw| && raw[i] == s[0] && At(raw, i + 1, s[1..])
  {
    forall k | 0 <= k < |s[1..]| ensures raw[i + 1 + k] == s[1..][k] {
      assert s[1..][k] == s[k + 1];
    }
  }

  lemma AtChar(raw: string, i: nat, c: char)
    ensures At(raw, i, [c]) <==> i < |raw| && raw[i] == c
  {
    if At(raw, i, [c]) { AtHead(raw, i, [c]); }
  }

  lemma AtCons(raw: string, j: nat, x: string, y: string)
    requires j < |raw| && At(raw, j + 1, x) && y == [raw[j]] + x
    ensures At(raw, j, y)
  {
  }

  lemma AtEnclosed(raw: string, j: nat, open: char, inner: string, close: char)
    requires At(raw, j, [open] + inner + [close])
    ensures j + 1 + |inner| < |raw| && raw[j] == open && raw[j + 1 + |inner|] == close && At(raw, j + 1, inner)
  {
    AtSplit(raw, j, [open] + inner, [close]);
    AtSplit(raw, j, [open], inner);
    AtHead(raw, j, [open]);
    AtHead(raw, j + 1 + |inner|, [close]);
  }

  lemma AtWhole(x: string)
    ensures At(x, 0, x)
  {
  }

  lemma AtEmpty(raw: string, i: nat)
    requires i <= |raw|
    ensures At(raw, i, "")
  {
  }

  lemma AtFits(raw: string, i: nat, x: string)
    requires At(raw, i, x)
    ensures i + |x| <= |raw|
  {
  }

  lemma Associates<T>(x: seq<T>, y: seq<T>, z: seq<T>)
    ensures x + (y + z) == x + y + z
  {
  }
}
