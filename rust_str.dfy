/**
 * The parts of Rust's `str` API that the size parser relies on:
 * `char::is_whitespace` and `str::trim`. Strings are sequences of Unicode
 * scalar values, as Rust's `chars()` sees them.
 */
module RustStr {

  /** Rust's `char::is_whitespace`: the Unicode `White_Space` property. */
  predicate IsWhitespace(c: char) {
    ('\t' <= c <= '\r') || c == ' ' || c == '\U{85}' || c == '\U{A0}' || c == '\U{1680}'
    || ('\U{2000}' <= c <= '\U{200A}') || c == '\U{2028}' || c == '\U{2029}'
    || c == '\U{202F}' || c == '\U{205F}' || c == '\U{3000}'
  }

  predicate AllWhitespace(s: string) {
    forall i :: 0 <= i < |s| ==> IsWhitespace(s[i])
  }

  /** `str::trim_start`: drops the longest all-whitespace prefix. */
  function TrimStart(s: string): (r: string)
    ensures |r| <= |s|
    ensures r == [] || !IsWhitespace(r[0])
  {
    if s != [] && IsWhitespace(s[0]) then TrimStart(s[1..]) else s
  }

  /** `str::trim_end`: drops the longest all-whitespace suffix. */
  function TrimEnd(s: string): (r: string)
    ensures |r| <= |s|
    ensures r == [] || !IsWhitespace(r[|r| - 1])
  {
    if s != [] && IsWhitespace(s[|s| - 1]) then TrimEnd(s[..|s| - 1]) else s
  }

  /** What `trim_start` removes is whitespace, and what it keeps is a suffix of the input. */
  lemma {:induction false} TrimStartShape(s: string)
    ensures var r := TrimStart(s);
            r == s[|s| - |r|..] && AllWhitespace(s[..|s| - |r|])
  {
    if s != [] && IsWhitespace(s[0]) {
      TrimStartShape(s[1..]);
      var r := TrimStart(s[1..]);
      assert s[1..][|s| - 1 - |r|..] == s[|s| - |r|..];
      assert s[..|s| - |r|] == [s[0]] + s[1..][..|s| - 1 - |r|];
    }
  }

  /** What `trim_end` removes is whitespace, and what it keeps is a prefix of the input. */
  lemma {:induction false} TrimEndShape(s: string)
    ensures var r := TrimEnd(s);
            r == s[..|r|] && AllWhitespace(s[|r|..])
  {
    if s != [] && IsWhitespace(s[|s| - 1]) {
      TrimEndShape(s[..|s| - 1]);
      var r := TrimEnd(s[..|s| - 1]);
      assert s[|r|..] == s[..|s| - 1][|r|..] + [s[|s| - 1]];
    }
  }

  /** A sequence is its prefix of length `k` followed by the rest. */
  lemma SplitAt(s: string, k: nat)
    requires k <= |s|
    ensures s == s[..k] + s[k..]
  {
  }

  /** `str::trim`: removes leading and trailing whitespace. */
  function Trim(s: string): (r: string)
    ensures |r| <= |s|
    ensures r == [] || (!IsWhitespace(r[0]) && !IsWhitespace(r[|r| - 1]))
  {
    TrimEndShape(TrimStart(s));
    TrimEnd(TrimStart(s))
  }

  /** Whitespace in front of `x` is all removed by `trim_start`. */
  lemma {:induction false} TrimStartSkips(w: string, x: string)
    requires AllWhitespace(w)
    ensures TrimStart(w + x) == TrimStart(x)
  {
    if w == [] {
      assert w + x == x;
    } else {
      assert (w + x)[1..] == w[1..] + x;
      assert IsWhitespace((w + x)[0]);
      TrimStartSkips(w[1..], x);
    }
  }

  /** Whitespace after `x` is all removed by `trim_end`. */
  lemma {:induction false} TrimEndSkips(x: string, w: string)
    requires AllWhitespace(w)
    ensures TrimEnd(x + w) == TrimEnd(x)
  {
    if w == [] {
      assert x + w == x;
    } else {
      var w' := w[..|w| - 1];
      assert (x + w)[..|x + w| - 1] == x + w';
      assert IsWhitespace((x + w)[|x + w| - 1]);
      TrimEndSkips(x, w');
    }
  }

  /** Trailing whitespace appended to `s` is invisible to `trim`. */
  lemma {:induction false} TrimIgnoresTrailing(s: string, w: string)
    requires AllWhitespace(w)
    ensures Trim(s + w) == Trim(s)
  {
    if s == [] {
      assert s + w == w + [];
      TrimStartSkips(w, []);
    } else if IsWhitespace(s[0]) {
      assert (s + w)[1..] == s[1..] + w;
      TrimIgnoresTrailing(s[1..], w);
    } else {
      TrimEndSkips(s, w);
    }
  }

  /** Whitespace on either side of `s` does not change `trim`. */
  lemma TrimIgnoresSurrounding(w1: string, s: string, w2: string)
    requires AllWhitespace(w1) && AllWhitespace(w2)
    ensures Trim(w1 + s + w2) == Trim(s)
  {
    assert w1 + s + w2 == w1 + (s + w2);
    TrimStartSkips(w1, s + w2);
    TrimIgnoresTrailing(s, w2);
  }

  /** A string that neither starts nor ends with whitespace is its own `trim`. */
  lemma TrimKeepsTrimmed(s: string)
    requires s == [] || (!IsWhitespace(s[0]) && !IsWhitespace(s[|s| - 1]))
    ensures Trim(s) == s
  {
  }

  /** `trim_start` of a string that is not all whitespace leaves a tail that `x` then extends. */
  lemma {:induction false} TrimStartAppend(s: string, x: string)
    requires TrimStart(s) != []
    ensures TrimStart(s + x) == TrimStart(s) + x
  {
    assert s != [];
    assert (s + x)[0] == s[0];
    if IsWhitespace(s[0]) {
      assert (s + x)[1..] == s[1..] + x;
      TrimStartAppend(s[1..], x);
    }
  }

  /** A string ending in a non-whitespace character keeps that character through `trim_start`. */
  lemma TrimStartKeepsLast(s: string)
    requires s != [] && !IsWhitespace(s[|s| - 1])
    ensures TrimStart(s) != [] && TrimStart(s)[|TrimStart(s)| - 1] == s[|s| - 1]
  {
    var a := TrimStart(s);
    TrimStartShape(s);
    assert !AllWhitespace(s) by {
      assert !IsWhitespace(s[|s| - 1]);
    }
    assert s[..|s|] == s;
  }

  /**
   * After a string whose last character is not whitespace, appended text that
   * does not end in whitespace survives `trim` whole.
   */
  lemma TrimAppendAfterText(s: string, x: string)
    requires s != [] && !IsWhitespace(s[|s| - 1])
    requires x == [] || !IsWhitespace(x[|x| - 1])
    ensures Trim(s + x) == Trim(s) + x
  {
    TrimStartKeepsLast(s);
    var a := TrimStart(s);
    TrimStartAppend(s, x);
    assert (a + x)[|a + x| - 1] == if x == [] then a[|a| - 1] else x[|x| - 1];
  }
}
