/**
 * Python's `str.strip(chars)`: the string with every leading and every
 * trailing character that belongs to `chars` removed. Python treats the
 * argument as a SET of characters, not as a prefix or suffix to remove.
 */
module PyStrings {

  /** `s.lstrip(chars)`: the longest suffix of `s` that does not start with a character of `chars`. */
  function StripLeading(s: string, chars: set<char>): (r: string)
    ensures |r| <= |s| && r == s[|s| - |r|..]
    ensures forall k :: 0 <= k < |s| - |r| ==> s[k] in chars
    ensures r == [] || r[0] !in chars
  {
    if |s| > 0 && s[0] in chars then StripLeading(s[1..], chars) else s
  }

  /** `s.rstrip(chars)`: the longest prefix of `s` that does not end with a character of `chars`. */
  function StripTrailing(s: string, chars: set<char>): (r: string)
    ensures |r| <= |s| && r == s[..|r|]
    ensures forall k :: |r| <= k < |s| ==> s[k] in chars
    ensures r == [] || r[|r| - 1] !in chars
  {
    if |s| > 0 && s[|s| - 1] in chars then StripTrailing(s[..|s| - 1], chars) else s
  }

  /** `s.strip(chars)`: leading characters are removed first, then trailing ones. */
  function Strip(s: string, chars: set<char>): string
  {
    StripTrailing(StripLeading(s, chars), chars)
  }

  /**
   * The independent description of a strip: `r` is the slice `s[i..j]`, everything
   * outside the slice is in `chars`, and `r`, unless empty, neither starts nor ends
   * with a character of `chars`.
   */
  ghost predicate IsStripOf(s: string, chars: set<char>, r: string)
  {
    exists i, j :: IsStripAt(s, chars, r, i, j)
  }

  /** `r` is the slice `s[i..j]` of the description above. */
  ghost predicate IsStripAt(s: string, chars: set<char>, r: string, i: int, j: int)
  {
    && 0 <= i <= j <= |s|
    && r == s[i..j]
    && (forall k :: 0 <= k < i ==> s[k] in chars)
    && (forall k :: j <= k < |s| ==> s[k] in chars)
    && (r == [] || (r[0] !in chars && r[|r| - 1] !in chars))
  }

  /** What `StripLeading` promises about `left`, stated on its own. */
  ghost predicate IsLeadingStrip(s: string, chars: set<char>, left: string)
  {
    && |left| <= |s| && left == s[|s| - |left|..]
    && (forall k :: 0 <= k < |s| - |left| ==> s[k] in chars)
    && (left == [] || left[0] !in chars)
  }

  /** What `StripTrailing` promises about `r`, stated on its own. */
  ghost predicate IsTrailingStrip(left: string, chars: set<char>, r: string)
  {
    && |r| <= |left| && r == left[..|r|]
    && (forall k :: |r| <= k < |left| ==> left[k] in chars)
    && (r == [] || r[|r| - 1] !in chars)
  }

  /** A leading strip followed by a trailing strip leaves the middle slice of the description. */
  lemma StripStepsDescribeSlice(s: string, chars: set<char>, left: string, r: string)
    requires IsLeadingStrip(s, chars, left) && IsTrailingStrip(left, chars, r)
    ensures IsStripAt(s, chars, r, |s| - |left|, |s| - |left| + |r|)
  {
    var i := |s| - |left|;
    forall k | i + |r| <= k < |s| ensures s[k] in chars {
      assert s[k] == left[k - i];
    }
    if r != [] {
      assert r[0] == left[0];
    }
  }

  /** Two slices that both fit the description, one of them reached by the two strip steps, are equal. */
  lemma StripStepsUnique(s: string, chars: set<char>, left: string, r': string, r: string, i: int, j: int)
    requires IsLeadingStrip(s, chars, left) && IsTrailingStrip(left, chars, r')
    requires IsStripAt(s, chars, r, i, j)
    ensures r == r'
  {
    StripStepsDescribeSlice(s, chars, left, r');
    var a := |s| - |left|;
    if r != [] {
      // a and i are both the first index whose character is not in chars.
      assert s[i] == r[0];
      assert a == i;
      assert s[j - 1] == r[|r| - 1];
    }
  }

  /** `Strip` meets the description: it returns a contiguous slice with clean ends. */
  lemma StripIsStrip(s: string, chars: set<char>)
    ensures IsStripOf(s, chars, Strip(s, chars))
  {
    var left := StripLeading(s, chars);
    var r := StripTrailing(left, chars);
    StripStepsDescribeSlice(s, chars, left, r);
  }

  /** The description determines the result: whatever satisfies it is `Strip`'s result. */
  lemma StripUnique(s: string, chars: set<char>, r: string)
    requires IsStripOf(s, chars, r)
    ensures r == Strip(s, chars)
  {
    var i, j :| IsStripAt(s, chars, r, i, j);
    var left := StripLeading(s, chars);
    StripStepsUnique(s, chars, left, StripTrailing(left, chars), r, i, j);
  }

  /** Stripping a stripped string changes nothing. */
  lemma StripIdempotent(s: string, chars: set<char>)
    ensures Strip(Strip(s, chars), chars) == Strip(s, chars)
  {
    var r := Strip(s, chars);
    StripIsStrip(s, chars);
    assert IsStripAt(r, chars, r, 0, |r|) by {
      assert r == r[0..|r|];
    }
    StripUnique(r, chars, r);
  }
}
