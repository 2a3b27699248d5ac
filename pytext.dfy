/** Character classes and string operations with the semantics of Python 3 `str`
    and of the `re` module on `str` patterns, as utilities/gpt_parser.py and
    utilities/indeed_scraper.py rely on them. */
module PyText {

  /** Python's `str.isspace()`; `\s` in a `re` pattern over `str` matches the same characters. */
  predicate IsSpace(c: char) {
    ('\t' <= c <= '\r') || ('\U{1c}' <= c <= ' ') || c == '\U{85}' || c == '\U{a0}'
    || c == '\U{1680}' || ('\U{2000}' <= c <= '\U{200a}') || c == '\U{2028}' || c == '\U{2029}'
    || c == '\U{202f}' || c == '\U{205f}' || c == '\U{3000}'
  }

  /** `\d`, restricted to the ASCII digits. */
  predicate IsDigit(c: char) { '0' <= c <= '9' }

  /** The character class `[\d.]`. */
  predicate IsNumChar(c: char) { IsDigit(c) || c == '.' }

  /** What `.` matches in a pattern compiled without DOTALL. */
  predicate NotNewline(c: char) { c != '\n' }

  /** Every character of s[i..j] satisfies p. */
  predicate All(s: string, i: nat, j: nat, p: char -> bool)
    requires i <= j <= |s|
  {
    forall k :: i <= k < j ==> p(s[k])
  }

  /** The end of the longest run of characters satisfying p that starts at i
      (a greedy `p*` starting at i). */
  function SpanWhile(s: string, i: nat, p: char -> bool): (j: nat)
    requires i <= |s|
    ensures i <= j <= |s|
    ensures All(s, i, j, p)
    ensures j < |s| ==> !p(s[j])
    decreases |s| - i
  {
    if i == |s| || !p(s[i]) then i else SpanWhile(s, i + 1, p)
  }

  /** The start of the longest run of characters satisfying p that ends at j,
      not reaching below lo. */
  function SpanBackWhile(s: string, lo: nat, j: nat, p: char -> bool): (i: nat)
    requires lo <= j <= |s|
    ensures lo <= i <= j
    ensures All(s, i, j, p)
    ensures i > lo ==> !p(s[i - 1])
    decreases j
  {
    if j == lo || !p(s[j - 1]) then j else SpanBackWhile(s, lo, j - 1, p)
  }

  lemma SpanWhileAt(s: string, i: nat, j: nat, p: char -> bool)
    requires i <= j <= |s|
    requires All(s, i, j, p)
    requires j < |s| ==> !p(s[j])
    ensures SpanWhile(s, i, p) == j
  {
  }

  /** A greedy run in the second part of a concatenation is the same run, shifted. */
  lemma SpanWhileShift(a: string, b: string, i: nat, p: char -> bool)
    requires i <= |b|
    ensures SpanWhile(a + b, |a| + i, p) == |a| + SpanWhile(b, i, p)
  {
    var j := SpanWhile(b, i, p);
    forall k | |a| + i <= k < |a| + j ensures p((a + b)[k]) { assert (a + b)[k] == b[k - |a|]; }
    if j < |b| { assert (a + b)[|a| + j] == b[j]; }
    SpanWhileAt(a + b, |a| + i, |a| + j, p);
  }

  lemma SpanBackWhileAt(s: string, lo: nat, j: nat, i: nat, p: char -> bool)
    requires lo <= i <= j <= |s|
    requires All(s, i, j, p)
    requires i > lo ==> !p(s[i - 1])
    ensures SpanBackWhile(s, lo, j, p) == i
  {
  }

  lemma AllSlice(s: string, a: nat, b: nat, p: char -> bool)
    requires a <= b <= |s| && All(s, a, b, p)
    ensures All(s[a..b], 0, b - a, p)
  {
    forall k | 0 <= k < b - a ensures p(s[a..b][k]) { assert s[a..b][k] == s[a + k]; }
  }

  lemma AllConcat(s: string, t: string, p: char -> bool)
    requires All(s, 0, |s|, p) && All(t, 0, |t|, p)
    ensures All(s + t, 0, |s + t|, p)
  {
    forall k | 0 <= k < |s + t| ensures p((s + t)[k]) {
      if k < |s| { assert (s + t)[k] == s[k]; } else { assert (s + t)[k] == t[k - |s|]; }
    }
  }

  lemma AllTail(s: string, p: char -> bool)
    requires s != [] && All(s, 0, |s|, p)
    ensures p(s[0]) && All(s[1..], 0, |s| - 1, p)
  {
    AllSlice(s, 1, |s|, p);
  }

  /** Neither the first nor the last character is whitespace. */
  predicate NoEdgeSpace(s: string) {
    s != [] ==> !IsSpace(s[0]) && !IsSpace(s[|s| - 1])
  }

  /** Every whitespace character is a plain space and no two whitespace characters are adjacent. */
  predicate SingleSpaced(s: string) {
    && (forall k :: 0 <= k < |s| && IsSpace(s[k]) ==> s[k] == ' ')
    && (forall k :: 0 <= k < |s| - 1 && IsSpace(s[k]) ==> !IsSpace(s[k + 1]))
  }

  /** Where the leading whitespace of s ends. */
  function StripStart(s: string): nat
    ensures StripStart(s) <= |s|
  {
    SpanWhile(s, 0, IsSpace)
  }

  /** Where the trailing whitespace of s begins (never before StripStart). */
  function StripEnd(s: string): nat
    ensures StripStart(s) <= StripEnd(s) <= |s|
  {
    SpanBackWhile(s, StripStart(s), |s|, IsSpace)
  }

  /** Python's `str.strip()` with no argument: the slice of s left after removing
      the leading and the trailing whitespace. */
  function Strip(s: string): (r: string)
    ensures NoEdgeSpace(r)
    ensures exists a: nat :: a + |r| <= |s| && r == s[a..a + |r|]
                           && All(s, 0, a, IsSpace) && All(s, a + |r|, |s|, IsSpace)
  {
    var a, b := StripStart(s), StripEnd(s);
    assert s[a..b] == s[a..a + (b - a)];
    s[a..b]
  }

  /** The slice that Strip returns is the only one that its contract allows. */
  lemma StripIs(s: string, a: nat, b: nat)
    requires a <= b <= |s|
    requires All(s, 0, a, IsSpace) && All(s, b, |s|, IsSpace)
    requires a < b ==> !IsSpace(s[a]) && !IsSpace(s[b - 1])
    ensures Strip(s) == s[a..b]
  {
    if a < b {
      SpanWhileAt(s, 0, a, IsSpace);
      SpanBackWhileAt(s, a, |s|, b, IsSpace);
    } else {
      assert All(s, 0, |s|, IsSpace);
      SpanWhileAt(s, 0, |s|, IsSpace);
    }
  }

  /** Input whose ends are not whitespace is returned unchanged. */
  lemma StripNoEdge(s: string)
    requires NoEdgeSpace(s)
    ensures Strip(s) == s
  {
    StripIs(s, 0, |s|);
  }

  /** The characters of s that are not whitespace, in order. */
  function NonSpace(s: string): (r: string)
    ensures |r| <= |s|
  {
    if s == [] then [] else (if IsSpace(s[0]) then [] else [s[0]]) + NonSpace(s[1..])
  }

  lemma {:induction false} NonSpaceConcat(a: string, b: string)
    ensures NonSpace(a + b) == NonSpace(a) + NonSpace(b)
  {
    if a == [] {
      assert a + b == b;
    } else {
      assert (a + b)[0] == a[0] && (a + b)[1..] == a[1..] + b;
      NonSpaceConcat(a[1..], b);
      var h := if IsSpace(a[0]) then [] else [a[0]];
      assert NonSpace(a + b) == h + NonSpace(a[1..] + b);
      assert NonSpace(a) == h + NonSpace(a[1..]);
    }
  }

  lemma {:induction false} NonSpaceOfSpaces(s: string)
    requires All(s, 0, |s|, IsSpace)
    ensures NonSpace(s) == []
  {
    if s != [] {
      assert All(s[1..], 0, |s| - 1, IsSpace) by {
        forall k | 0 <= k < |s| - 1 ensures IsSpace(s[1..][k]) { assert s[1..][k] == s[k + 1]; }
      }
      NonSpaceOfSpaces(s[1..]);
    }
  }

  /** Stripping removes whitespace only. */
  lemma StripKeepsNonSpace(s: string)
    ensures NonSpace(Strip(s)) == NonSpace(s)
  {
    var a, b := StripStart(s), StripEnd(s);
    NonSpaceAround(s, a, b);
    assert Strip(s) == s[a..b];
  }

  /** Removing whitespace from both ends of s leaves its non-whitespace characters alone. */
  lemma NonSpaceAround(s: string, a: nat, b: nat)
    requires a <= b <= |s| && All(s, 0, a, IsSpace) && All(s, b, |s|, IsSpace)
    ensures NonSpace(s[a..b]) == NonSpace(s)
  {
    NonSpaceDrop(s, a);
    var t := s[a..];
    assert All(t, b - a, |t|, IsSpace) by {
      forall k | b - a <= k < |t| ensures IsSpace(t[k]) { assert t[k] == s[a + k]; }
    }
    NonSpaceTake(t, b - a);
    assert t[..b - a] == s[a..b];
  }

  lemma {:induction false} NonSpaceDrop(s: string, a: nat)
    requires a <= |s| && All(s, 0, a, IsSpace)
    ensures NonSpace(s[a..]) == NonSpace(s)
    decreases a
  {
    if a == 0 {
      assert s[a..] == s;
    } else {
      var t := s[1..];
      assert All(t, 0, a - 1, IsSpace) by {
        forall k | 0 <= k < a - 1 ensures IsSpace(t[k]) { assert t[k] == s[k + 1]; }
      }
      NonSpaceDrop(t, a - 1);
      assert t[a - 1..] == s[a..];
    }
  }

  lemma {:induction false} NonSpaceTake(s: string, b: nat)
    requires b <= |s| && All(s, b, |s|, IsSpace)
    ensures NonSpace(s[..b]) == NonSpace(s)
    decreases b
  {
    if b == 0 {
      NonSpaceOfSpaces(s);
    } else {
      var t := s[1..];
      assert All(t, b - 1, |t|, IsSpace) by {
        forall k | b - 1 <= k < |t| ensures IsSpace(t[k]) { assert t[k] == s[k + 1]; }
      }
      NonSpaceTake(t, b - 1);
      assert s[..b][0] == s[0] && s[..b][1..] == t[..b - 1];
    }
  }

  /** A slice of a single-spaced string is single-spaced. */
  lemma SingleSpacedSlice(s: string, a: nat, b: nat)
    requires a <= b <= |s|
    requires SingleSpaced(s)
    ensures SingleSpaced(s[a..b])
  {
    var t := s[a..b];
    forall k | 0 <= k < |t| - 1 && IsSpace(t[k]) ensures !IsSpace(t[k + 1]) {
      assert t[k] == s[a + k] && t[k + 1] == s[a + k + 1];
    }
    forall k | 0 <= k < |t| && IsSpace(t[k]) ensures t[k] == ' ' {
      assert t[k] == s[a + k];
    }
  }

  /** Stripping a single-spaced string keeps it single-spaced. */
  lemma StripSingleSpaced(s: string)
    requires SingleSpaced(s)
    ensures SingleSpaced(Strip(s))
  {
    SingleSpacedSlice(s, StripStart(s), StripEnd(s));
  }

  /** Two words joined by a space: stripping the whole strips only its outer ends. */
  lemma StripJoin(a: string, b: string)
    requires a != [] && !IsSpace(a[|a| - 1])
    requires b != [] && !IsSpace(b[0])
    ensures Strip(a + " " + b) == Strip(a) + " " + Strip(b)
  {
    var i := StripLeading(a);
    var j := StripTrailing(b);
    var mid := a[i..] + " " + b[..j];
    assert a + " " + b == a[..i] + mid + b[j..] by {
      var s, t := a + " " + b, a[..i] + mid + b[j..];
      forall k | 0 <= k < |s| ensures s[k] == t[k] {
        if k < i { assert t[k] == a[..i][k]; }
        else if k < |a| { assert t[k] == mid[k - i]; }
        else if k == |a| { assert t[k] == mid[k - i]; }
        else if k < |a| + 1 + j { assert t[k] == mid[k - i] == b[..j][k - |a| - 1]; }
        else { assert t[k] == b[j..][k - |a| - 1 - j]; }
      }
    }
    assert mid[0] == a[i] && mid[|mid| - 1] == b[j - 1];
    StripAround(a[..i], mid, b[j..]);
  }

  /** Whitespace around a core whose ends are not whitespace is exactly what Strip removes. */
  lemma StripAround(p: string, mid: string, q: string)
    requires All(p, 0, |p|, IsSpace) && All(q, 0, |q|, IsSpace)
    requires mid != [] && !IsSpace(mid[0]) && !IsSpace(mid[|mid| - 1])
    ensures Strip(p + mid + q) == mid
  {
    var s := p + mid + q;
    forall k | 0 <= k < |p| ensures IsSpace(s[k]) { assert s[k] == p[k]; }
    forall k | |p| + |mid| <= k < |s| ensures IsSpace(s[k]) { assert s[k] == q[k - |p| - |mid|]; }
    assert s[|p|] == mid[0] && s[|p| + |mid| - 1] == mid[|mid| - 1];
    StripIs(s, |p|, |p| + |mid|);
    assert s[|p|..|p| + |mid|] == mid;
  }

  /** Text that ends in a non-whitespace character loses only its leading whitespace. */
  lemma StripLeading(a: string) returns (i: nat)
    requires a != [] && !IsSpace(a[|a| - 1])
    ensures i < |a| && !IsSpace(a[i]) && All(a, 0, i, IsSpace) && Strip(a) == a[i..]
  {
    i := StripStart(a);
    StripIs(a, i, |a|);
  }

  /** Text that starts with a non-whitespace character loses only its trailing whitespace. */
  lemma StripTrailing(b: string) returns (j: nat)
    requires b != [] && !IsSpace(b[0])
    ensures 0 < j <= |b| && !IsSpace(b[j - 1]) && All(b, j, |b|, IsSpace) && Strip(b) == b[..j]
  {
    j := SpanBackWhile(b, 0, |b|, IsSpace);
    StripIs(b, 0, j);
  }
}
