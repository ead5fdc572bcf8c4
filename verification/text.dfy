/** Character-level facts about strings used by the normaliser and the prompt:
    adjacent character pairs, substrings, ASCII lower-casing and whitespace
    stripping as Python's `str.lower` and `str.strip` perform them. */
module Text {

  /** True when character `a` is immediately followed by character `b`
      somewhere in `s`, that is, when the two-character string `[a, b]` occurs in `s`. */
  predicate HasPair(s: string, a: char, b: char) {
    exists i :: 0 <= i < |s| - 1 && s[i] == a && s[i + 1] == b
  }

  /** True when `x` ends with `a` and `y` starts with `b`, so that `x + y`
      has the pair `[a, b]` straddling the seam. */
  predicate Joins(x: string, y: string, a: char, b: char) {
    |x| > 0 && |y| > 0 && x[|x| - 1] == a && y[0] == b
  }

  /** True when `pat` occurs in `s` starting at position `k`. */
  predicate OccursAt(s: string, pat: string, k: int) {
    0 <= k <= |s| - |pat| && s[k..k + |pat|] == pat
  }

  /** True when `pat` occurs as a contiguous substring of `s`. */
  predicate Contains(s: string, pat: string) {
    exists k :: 0 <= k <= |s| - |pat| && OccursAt(s, pat, k)
  }

  /** A pair occurs in a concatenation exactly when it occurs in one side or
      straddles the seam. */
  lemma PairConcat(x: string, y: string, a: char, b: char)
    ensures HasPair(x + y, a, b) <==> HasPair(x, a, b) || HasPair(y, a, b) || Joins(x, y, a, b)
  {
    var s := x + y;
    if HasPair(s, a, b) {
      var i :| 0 <= i < |s| - 1 && s[i] == a && s[i + 1] == b;
      if i + 1 < |x| {
        assert x[i] == a && x[i + 1] == b;
      } else if i >= |x| {
        assert y[i - |x|] == a && y[i - |x| + 1] == b;
      } else {
        assert Joins(x, y, a, b);
      }
    }
    if HasPair(x, a, b) {
      var i :| 0 <= i < |x| - 1 && x[i] == a && x[i + 1] == b;
      assert s[i] == a && s[i + 1] == b;
    }
    if HasPair(y, a, b) {
      var i :| 0 <= i < |y| - 1 && y[i] == a && y[i + 1] == b;
      assert s[|x| + i] == a && s[|x| + i + 1] == b;
    }
    if Joins(x, y, a, b) {
      assert s[|x| - 1] == a && s[|x|] == b;
    }
  }

  /** A string occurs at the end of any string that ends with it. */
  lemma ContainsSuffix(pre: string, pat: string)
    ensures Contains(pre + pat, pat)
  {
    assert OccursAt(pre + pat, pat, |pre|);
  }

  /** Appending text keeps every occurrence. */
  lemma ContainsAppend(s: string, post: string, pat: string)
    requires Contains(s, pat)
    ensures Contains(s + post, pat)
  {
    var k :| 0 <= k <= |s| - |pat| && OccursAt(s, pat, k);
    assert (s + post)[k..k + |pat|] == s[k..k + |pat|];
    assert OccursAt(s + post, pat, k);
  }

  /** A pair inside `pat` occurs in every string that contains `pat`; so a
      string lacking the pair cannot contain `pat`. */
  lemma PairInherited(s: string, pat: string, a: char, b: char)
    requires HasPair(pat, a, b)
    ensures Contains(s, pat) ==> HasPair(s, a, b)
  {
    if Contains(s, pat) {
      var k :| 0 <= k <= |s| - |pat| && OccursAt(s, pat, k);
      var i :| 0 <= i < |pat| - 1 && pat[i] == a && pat[i + 1] == b;
      assert s[k..k + |pat|][i] == a && s[k..k + |pat|][i + 1] == b;
      assert s[k + i] == a && s[k + i + 1] == b;
    }
  }

  /** Python's `str.lower` on one character, for the ASCII letters the
      labels are made of; every other character is returned unchanged. */
  function LowerChar(c: char): char {
    if 'A' <= c <= 'Z' then (c as int + 32) as char else c
  }

  predicate IsUpper(c: char) {
    'A' <= c <= 'Z'
  }

  /** `str.lower` applied character by character. */
  function Lower(s: string): (r: string)
    ensures |r| == |s|
  {
    seq(|s|, i requires 0 <= i < |s| => LowerChar(s[i]))
  }

  /** Lower-casing works piece by piece. */
  lemma LowerConcat(x: string, y: string)
    ensures Lower(x + y) == Lower(x) + Lower(y)
  {
  }

  /** Lower-casing turns each upper-case letter into its own lower-case
      letter (32 code points on), leaves no upper-case letter, keeps every
      other character in place, and applying it again changes nothing. */
  lemma LowerSpec(s: string)
    ensures forall i :: 0 <= i < |s| && IsUpper(s[i]) ==> Lower(s)[i] as int == s[i] as int + 32
    ensures forall i :: 0 <= i < |s| ==> !IsUpper(Lower(s)[i])
    ensures forall i :: 0 <= i < |s| && !IsUpper(s[i]) ==> Lower(s)[i] == s[i]
    ensures Lower(Lower(s)) == Lower(s)
  {
  }

  /** The characters Python's `str.isspace` accepts, which `str.strip` removes. */
  predicate IsSpace(c: char) {
    || c == ' ' || c == '\t' || c == '\n' || c == '\r' || c == '\U{B}' || c == '\U{C}'
    || ('\U{1C}' <= c <= '\U{1F}') || c == '\U{85}' || c == '\U{A0}' || c == '\U{1680}'
    || ('\U{2000}' <= c <= '\U{200A}') || c == '\U{2028}' || c == '\U{2029}'
    || c == '\U{202F}' || c == '\U{205F}' || c == '\U{3000}'
  }

  /** `s` with its leading whitespace removed: the longest all-whitespace
      prefix is dropped and what remains does not start with whitespace. */
  function TrimStart(s: string): (r: string)
    ensures |r| <= |s| && r == s[|s| - |r|..]
    ensures forall i :: 0 <= i < |s| - |r| ==> IsSpace(s[i])
    ensures |r| > 0 ==> !IsSpace(r[0])
    decreases |s|
  {
    if |s| > 0 && IsSpace(s[0]) then TrimStart(s[1..]) else s
  }

  /** `s` with its trailing whitespace removed: the longest all-whitespace
      suffix is dropped and what remains does not end with whitespace. */
  function TrimEnd(s: string): (r: string)
    ensures |r| <= |s| && r == s[..|r|]
    ensures forall i :: |r| <= i < |s| ==> IsSpace(s[i])
    ensures |r| > 0 ==> !IsSpace(r[|r| - 1])
    decreases |s|
  {
    if |s| > 0 && IsSpace(s[|s| - 1]) then TrimEnd(s[..|s| - 1]) else s
  }

  /** Python's `str.strip()` with no argument. */
  function Strip(s: string): string {
    TrimEnd(TrimStart(s))
  }

  /** Stripping text framed by whitespace returns exactly the frame's
      contents, provided they neither start nor end with whitespace. */
  lemma StripFramed(lead: string, m: string, trail: string)
    requires forall i :: 0 <= i < |lead| ==> IsSpace(lead[i])
    requires forall i :: 0 <= i < |trail| ==> IsSpace(trail[i])
    requires |m| > 0 && !IsSpace(m[0]) && !IsSpace(m[|m| - 1])
    ensures Strip(lead + m + trail) == m
  {
    var s := lead + m + trail;
    var t := TrimStart(s);
    var k := |s| - |t|;
    assert !IsSpace(s[|lead|]);
    assert forall i :: 0 <= i < |lead| ==> IsSpace(s[i]);
    assert k == |lead|;
    assert t == m + trail;
    var u := TrimEnd(t);
    assert !IsSpace(t[|m| - 1]);
    assert forall i :: |m| <= i < |t| ==> IsSpace(t[i]);
    assert |u| == |m|;
    assert u == m;
  }
}
