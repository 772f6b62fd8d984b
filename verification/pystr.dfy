/**
 The three Python string operations the emotion detector relies on:
 `str.strip()` (to reject blank input), `str.lower()` (to make the keyword
 fallback case-insensitive) and the substring test `pat in s`.
 Strings are sequences of Unicode code points.
 */
module PyStr {

  /** Python 3's `str.isspace` for one character, by code point:
      the C0 separators U+0009..U+000D and U+001C..U+001F, the space, NEL,
      NO-BREAK SPACE and the Unicode space, line and paragraph separators. */
  predicate IsSpace(c: char): (b: bool)
    ensures c as int < 128 ==> (b <==> c as int in {9, 10, 11, 12, 13, 28, 29, 30, 31, 32})
  {
    var n := c as int;
    || (9 <= n <= 13)
    || (28 <= n <= 32)
    || n == 0x85
    || n == 0xA0
    || n == 0x1680
    || (0x2000 <= n <= 0x200A)
    || n == 0x2028
    || n == 0x2029
    || n == 0x202F
    || n == 0x205F
    || n == 0x3000
  }

  /** Every character of `s` is whitespace (vacuously true of ""). */
  ghost predicate AllSpace(s: string) {
    forall i :: 0 <= i < |s| ==> IsSpace(s[i])
  }

  /** `str.lstrip()`: drops the longest all-whitespace prefix. */
  function TrimStart(s: string): (r: string)
    ensures |r| <= |s| && r == s[|s| - |r|..]
    ensures r == [] || !IsSpace(r[0])
    ensures forall i :: 0 <= i < |s| - |r| ==> IsSpace(s[i])
    decreases |s|
  {
    if s != [] && IsSpace(s[0]) then TrimStart(s[1..]) else s
  }

  /** `str.rstrip()`: drops the longest all-whitespace suffix. */
  function TrimEnd(s: string): (r: string)
    ensures |r| <= |s| && r == s[..|r|]
    ensures r == [] || !IsSpace(r[|r| - 1])
    ensures forall i :: |r| <= i < |s| ==> IsSpace(s[i])
    decreases |s|
  {
    if s != [] && IsSpace(s[|s| - 1]) then TrimEnd(s[..|s| - 1]) else s
  }

  /** `str.strip()` with no argument. */
  function Strip(s: string): (r: string)
    ensures |r| <= |s|
    ensures r == [] || (!IsSpace(r[0]) && !IsSpace(r[|r| - 1]))
    ensures exists i, j :: 0 <= i <= j <= |s| && r == s[i..j] && AllSpace(s[..i]) && AllSpace(s[j..])
  {
    var t := TrimStart(s);
    var r := TrimEnd(t);
    assert r != [] ==> r[0] == t[0];
    var i := |s| - |t|;
    var j := i + |r|;
    assert r == s[i..j];
    assert AllSpace(s[..i]);
    assert forall k :: j <= k < |s| ==> s[k] == t[k - i];
    assert AllSpace(s[j..]);
    r
  }

  /** `s.strip() == ""` holds exactly for the all-whitespace strings. */
  lemma StripEmptyIffAllSpace(s: string)
    ensures Strip(s) == [] <==> AllSpace(s)
  {
    var t := TrimStart(s);
    assert t == s[|s| - |t|..];
    if Strip(s) == [] {
      // TrimEnd left nothing, so `t` is all whitespace; it cannot start
      // with whitespace, so it is empty
      assert t == [];
    } else {
      assert !IsSpace(Strip(s)[0]);
      assert Strip(s)[0] == s[|s| - |t|];
    }
  }

  /** `str.lower()` restricted to ASCII: 'A'..'Z' become 'a'..'z',
      every other character is left alone. */
  function LowerChar(c: char): (d: char)
    ensures !('A' <= d <= 'Z')
    ensures !('A' <= c <= 'Z') ==> d == c
    ensures 'A' <= c <= 'Z' ==> 'a' <= d <= 'z' && d as int - c as int == 'a' as int - 'A' as int
  {
    if 'A' <= c <= 'Z' then (c as int + 32) as char else c
  }

  function Lower(s: string): (r: string)
    ensures |r| == |s|
    ensures forall i :: 0 <= i < |s| ==> r[i] == LowerChar(s[i])
    ensures forall i :: 0 <= i < |s| ==> SameIgnoringCase(s[i], r[i])
    ensures NoUpper(r)
  {
    seq(|s|, i requires 0 <= i < |s| => LowerChar(s[i]))
  }

  /** Lower-casing is idempotent, so matching lower-case markers against
      `Lower(s)` ignores case exactly once. */
  lemma LowerIdempotent(s: string)
    ensures Lower(Lower(s)) == Lower(s)
  {
    forall i | 0 <= i < |s| ensures Lower(Lower(s))[i] == Lower(s)[i] {
      var c := s[i];
      if 'A' <= c <= 'Z' {
        assert 'a' <= LowerChar(c) <= 'z';
      }
    }
  }

  /** No character of `s` is an upper-case ASCII letter. */
  predicate NoUpper(s: string) {
    forall i :: 0 <= i < |s| ==> !('A' <= s[i] <= 'Z')
  }

  /** `x` matches the lower-case pattern character `y` when case is ignored:
      they are equal, or `x` is the upper-case form of `y`. */
  predicate SameIgnoringCase(x: char, y: char) {
    x == y || ('A' <= x <= 'Z' && y as int == x as int + 32)
  }

  /** The window of `s` at `i` matches `pat` character by character,
      ignoring the case of `s`. */
  ghost predicate MatchAtIgnoringCase(s: string, pat: string, i: int) {
    && 0 <= i && i + |pat| <= |s|
    && forall k :: 0 <= k < |pat| ==> SameIgnoringCase(s[i + k], pat[k])
  }

  /** `pat` occurs in `s` starting at index `i`. */
  ghost predicate OccursAt(s: string, pat: string, i: int) {
    0 <= i && i + |pat| <= |s| && s[i..i + |pat|] == pat
  }

  /** The meaning of Python's `pat in s`: some window of `s` equals `pat`. */
  ghost predicate Occurs(s: string, pat: string) {
    exists i :: OccursAt(s, pat, i)
  }

  /** Python's `pat in s`, as a left-to-right scan for a matching window. */
  function Contains(s: string, pat: string): (b: bool)
    ensures pat == [] ==> b
    ensures b ==> |pat| <= |s|
    decreases |s|
  {
    if |pat| > |s| then false
    else if s[..|pat|] == pat then true
    else Contains(s[1..], pat)
  }

  /** Dropping the first character shifts every occurrence left by one. */
  lemma OccursAtShift(s: string, pat: string, i: nat)
    requires s != []
    ensures OccursAt(s[1..], pat, i) <==> OccursAt(s, pat, i + 1)
  {
    if i + |pat| <= |s| - 1 {
      assert s[1..][i..i + |pat|] == s[i + 1..i + 1 + |pat|];
    }
  }

  lemma {:induction false} ContainsIffOccurs(s: string, pat: string)
    ensures Contains(s, pat) <==> Occurs(s, pat)
    decreases |s|
  {
    if |pat| > |s| {
    } else if s[..|pat|] == pat {
      assert OccursAt(s, pat, 0);
    } else {
      ContainsIffOccurs(s[1..], pat);
      if Occurs(s[1..], pat) {
        var i :| OccursAt(s[1..], pat, i);
        OccursAtShift(s, pat, i);
      }
      if Occurs(s, pat) {
        var i :| OccursAt(s, pat, i);
        assert i != 0;
        OccursAtShift(s, pat, i - 1);
      }
    }
  }

  /** A string that contains `p + q` contains `p`: a longer marker is
      redundant next to any of its prefixes. */
  lemma ContainsPrefixOfPattern(s: string, p: string, q: string)
    ensures Contains(s, p + q) ==> Contains(s, p)
  {
    ContainsIffOccurs(s, p + q);
    ContainsIffOccurs(s, p);
    if Occurs(s, p + q) {
      var i :| OccursAt(s, p + q, i);
      assert s[i..i + |p|] == s[i..i + |p + q|][..|p|];
      assert OccursAt(s, p, i);
    }
  }

  /** Python's `m1 in s or m2 in s or ...` over a list of markers. */
  function ContainsAny(s: string, markers: seq<string>): (b: bool)
    ensures b <==> exists m :: m in markers && Occurs(s, m)
    decreases |markers|
  {
    if markers == [] then false
    else
      ContainsIffOccurs(s, markers[0]);
      Contains(s, markers[0]) || ContainsAny(s, markers[1..])
  }

  /** For a character of a pattern without upper-case letters, lowering the
      text character and comparing is the same as matching ignoring case. */
  lemma LowerCharMatches(x: char, y: char)
    requires !('A' <= y <= 'Z')
    ensures LowerChar(x) == y <==> SameIgnoringCase(x, y)
  {}

  /** One window: an exact match in the lowered text is a case-insensitive
      match in the original text. */
  lemma OccursLowerAt(s: string, pat: string, i: int)
    requires NoUpper(pat)
    ensures OccursAt(Lower(s), pat, i) <==> MatchAtIgnoringCase(s, pat, i)
  {
    if 0 <= i && i + |pat| <= |s| {
      var w := Lower(s)[i..i + |pat|];
      forall k | 0 <= k < |pat| ensures w[k] == pat[k] <==> SameIgnoringCase(s[i + k], pat[k]) {
        LowerCharMatches(s[i + k], pat[k]);
      }
      if MatchAtIgnoringCase(s, pat, i) {
        assert w == pat;
      }
    }
  }

  /** Searching the lowered text for a lower-case pattern is a
      case-insensitive search of the original text. */
  lemma {:induction false} ContainsLowerIffMatchIgnoringCase(s: string, pat: string)
    requires NoUpper(pat)
    ensures Contains(Lower(s), pat) <==> exists i :: MatchAtIgnoringCase(s, pat, i)
  {
    ContainsIffOccurs(Lower(s), pat);
    if Occurs(Lower(s), pat) {
      var i :| OccursAt(Lower(s), pat, i);
      OccursLowerAt(s, pat, i);
    }
    if exists i :: MatchAtIgnoringCase(s, pat, i) {
      var i :| MatchAtIgnoringCase(s, pat, i);
      OccursLowerAt(s, pat, i);
    }
  }
}
