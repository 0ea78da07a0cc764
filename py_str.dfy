/**
  The two Python `str` methods the VIN form applies to what the user typed:
  `strip()` (no arguments) and `upper()`.
 */
module PyStr {

  /** The characters for which Python's `str.isspace` holds, one by one. */
  const Whitespace: string :=
    "\t\n\U{0B}\U{0C}\r\U{1C}\U{1D}\U{1E}\U{1F} \U{85}\U{A0}\U{1680}"
    + "\U{2000}\U{2001}\U{2002}\U{2003}\U{2004}\U{2005}\U{2006}\U{2007}\U{2008}\U{2009}\U{200A}"
    + "\U{2028}\U{2029}\U{202F}\U{205F}\U{3000}"

  /** Python's `str.isspace` for a single character, by code-point ranges. */
  function IsSpace(c: char): (b: bool)
    ensures b ==> !('a' <= c <= 'z') && !('A' <= c <= 'Z') && !('0' <= c <= '9')
  {
    var n := c as int;
    || (0x09 <= n <= 0x0D) || (0x1C <= n <= 0x20)
    || n == 0x85 || n == 0xA0 || n == 0x1680
    || (0x2000 <= n <= 0x200A)
    || n == 0x2028 || n == 0x2029 || n == 0x202F || n == 0x205F || n == 0x3000
  }

  /** The code-point ranges of `IsSpace` pick out exactly the listed characters. */
  lemma WhitespaceListed(c: char)
    ensures IsSpace(c) <==> c in Whitespace
  {
  }

  ghost predicate AllSpace(s: string) {
    forall i :: 0 <= i < |s| ==> IsSpace(s[i])
  }

  /** Neither end of `s` is whitespace. */
  ghost predicate Trimmed(s: string) {
    s == [] || (!IsSpace(s[0]) && !IsSpace(s[|s| - 1]))
  }

  /** `r` is the slice of `s` starting at `k`, and only whitespace lies around it. */
  ghost predicate CutsTo(s: string, k: int, r: string) {
    && 0 <= k <= |s| - |r|
    && s[k..k + |r|] == r
    && (forall j :: 0 <= j < k ==> IsSpace(s[j]))
    && (forall j :: k + |r| <= j < |s| ==> IsSpace(s[j]))
  }

  /** The first index at or after `i` that does not hold whitespace, or `|s|` if there is none. */
  function SkipLeading(s: string, i: nat): (k: nat)
    requires i <= |s|
    ensures i <= k <= |s|
    ensures forall j :: i <= j < k ==> IsSpace(s[j])
    ensures k == |s| || !IsSpace(s[k])
    decreases |s| - i
  {
    if i < |s| && IsSpace(s[i]) then SkipLeading(s, i + 1) else i
  }

  /**
    Walking back from `j` but not below `lo`, the end of the last stretch
    that is not whitespace: every index from the result up to `j` holds
    whitespace, and the one before the result (if above `lo`) does not.
   */
  function SkipTrailing(s: string, lo: nat, j: nat): (k: nat)
    requires lo <= j <= |s|
    ensures lo <= k <= j
    ensures forall m :: k <= m < j ==> IsSpace(s[m])
    ensures k == lo || !IsSpace(s[k - 1])
    decreases j - lo
  {
    if lo < j && IsSpace(s[j - 1]) then SkipTrailing(s, lo, j - 1) else j
  }

  /**
    `s.strip()`: the result is a trimmed slice of `s` and everything cut
    off on either side of it is whitespace.
   */
  function Strip(s: string): (r: string)
    ensures Trimmed(r)
    ensures exists k :: CutsTo(s, k, r)
  {
    var i := SkipLeading(s, 0);
    var j := SkipTrailing(s, i, |s|);
    assert CutsTo(s, i, s[i..j]);
    s[i..j]
  }

  const UpperLetters := "ABCDEFGHIJKLMNOPQRSTUVWXYZ"

  /** `str.upper()` of one character, over ASCII: a lower-case letter becomes its capital, anything else stays. */
  function UpperChar(c: char): (u: char)
    ensures 'a' <= c <= 'z' ==> u == UpperLetters[c as int - 'a' as int]
    ensures !('a' <= c <= 'z') ==> u == c
    ensures IsSpace(u) == IsSpace(c)
    ensures !('a' <= u <= 'z')
  {
    if 'a' <= c <= 'z' then (c as int - 32) as char else c
  }

  /** `s.upper()`: each character in place upper-cased, the length kept. */
  function Upper(s: string): (r: string)
    ensures |r| == |s|
    ensures forall i :: 0 <= i < |s| ==> r[i] == UpperChar(s[i])
  {
    if s == [] then [] else [UpperChar(s[0])] + Upper(s[1..])
  }

  /** A trimmed text padded with whitespace on both sides strips back to itself. */
  lemma StripOfPadded(front: string, r: string, back: string)
    requires AllSpace(front) && Trimmed(r) && AllSpace(back)
    ensures Strip(front + r + back) == r
  {
    var s := front + r + back;
    if r == [] {
      assert AllSpace(s);
      StripAllSpace(s);
    } else {
      assert forall j :: 0 <= j < |front| ==> s[j] == front[j];
      assert forall j :: |front| + |r| <= j < |s| ==> s[j] == back[j - |front| - |r|];
      assert s[|front|..|front| + |r|] == r;
      StripAround(s, |front|, |front| + |r|);
    }
  }

  /** Text made only of whitespace strips to nothing. */
  lemma StripAllSpace(s: string)
    requires AllSpace(s)
    ensures Strip(s) == []
  {
    assert SkipLeading(s, 0) == |s|;
  }

  /**
    When `s[lo..hi]` is non-empty, starts and ends with a character that is
    not whitespace, and only whitespace lies outside it, `strip()` keeps
    exactly that slice.
   */
  lemma StripAround(s: string, lo: nat, hi: nat)
    requires lo < hi <= |s|
    requires !IsSpace(s[lo]) && !IsSpace(s[hi - 1])
    requires forall j :: 0 <= j < lo ==> IsSpace(s[j])
    requires forall j :: hi <= j < |s| ==> IsSpace(s[j])
    ensures Strip(s) == s[lo..hi]
  {
    var i := SkipLeading(s, 0);
    assert i == lo;
    var j := SkipTrailing(s, i, |s|);
    assert j == hi;
  }

  /** `strip()` gives the empty string exactly when the input is all whitespace. */
  lemma StripEmptyIff(s: string)
    ensures Strip(s) == [] <==> AllSpace(s)
  {
    if AllSpace(s) {
      assert s == s + [] + [];
      StripOfPadded(s, [], []);
    } else {
      var k :| CutsTo(s, k, Strip(s));
    }
  }

  /** Stripping twice is stripping once. */
  lemma StripIdempotent(s: string)
    ensures Strip(Strip(s)) == Strip(s)
  {
    var r := Strip(s);
    assert r == [] + r + [];
    StripOfPadded([], r, []);
  }

  /** Upper-casing keeps a trimmed text trimmed. */
  lemma UpperTrimmed(s: string)
    requires Trimmed(s)
    ensures Trimmed(Upper(s))
  {
    var u := Upper(s);
    if u != [] {
      assert u[0] == UpperChar(s[0]);
      assert u[|u| - 1] == UpperChar(s[|s| - 1]);
    }
  }

  /** Upper-casing twice is upper-casing once. */
  lemma UpperIdempotent(s: string)
    ensures Upper(Upper(s)) == Upper(s)
  {
    var u := Upper(s);
    forall i | 0 <= i < |u| ensures Upper(u)[i] == u[i] {
      assert u[i] == UpperChar(s[i]);
    }
  }
}
