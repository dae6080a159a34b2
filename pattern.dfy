/**
 * The part of Python's `re` that a dotted numeric OID exercises when it is
 * compiled as a regular expression: every digit is a literal and every `.`
 * is the wildcard that matches any character except a newline. `Search` is
 * `pattern.search(text)`: the match may start anywhere and end anywhere, with
 * no anchor and no check that it sits on a segment boundary.
 */
module OidPattern {

  datatype Option<T> = None | Some(value: T)

  /** Text made only of digits and dots, the alphabet of a dotted numeric OID. */
  predicate IsOidText(s: string)
  {
    forall k :: 0 <= k < |s| ==> s[k] == '.' || '0' <= s[k] <= '9'
  }

  /** One pattern character against one subject character. */
  predicate CharMatches(pc: char, c: char)
  {
    if pc == '.' then c != '\n' else pc == c
  }

  /** The pattern agrees with the window of `s` that starts at offset `k`. */
  predicate MatchesAt(p: string, s: string, k: nat)
  {
    k + |p| <= |s| && forall j :: 0 <= j < |p| ==> CharMatches(p[j], s[k + j])
  }

  /** Some window of `s`, anywhere, agrees with the pattern. */
  ghost predicate HasMatch(p: string, s: string)
  {
    exists k: nat :: MatchesAt(p, s, k)
  }

  /** The leftmost offset at or after `start` where the pattern agrees with `s`. */
  function SearchFrom(p: string, s: string, start: nat): (r: Option<nat>)
    decreases |s| - start
    ensures r.Some? ==> start <= r.value && MatchesAt(p, s, r.value)
    ensures r.Some? ==> forall m: nat :: start <= m < r.value ==> !MatchesAt(p, s, m)
    ensures r.None? ==> forall m: nat :: start <= m ==> !MatchesAt(p, s, m)
  {
    if start + |p| > |s| then None
    else if MatchesAt(p, s, start) then Some(start)
    else SearchFrom(p, s, start + 1)
  }

  /** `pattern.search(s)`: the start of the leftmost match, or `None`. */
  function Search(p: string, s: string): (r: Option<nat>)
    ensures r.Some? ==> MatchesAt(p, s, r.value)
    ensures r.Some? ==> forall m: nat :: m < r.value ==> !MatchesAt(p, s, m)
    ensures r.None? ==> forall m: nat :: !MatchesAt(p, s, m)
  {
    SearchFrom(p, s, 0)
  }

  /** A match object is truthy in Python, so a search "succeeds" whenever it returns one. */
  predicate Matches(p: string, s: string)
  {
    Search(p, s).Some?
  }

  /** The search succeeds exactly when some window agrees with the pattern. */
  lemma MatchesIffHasMatch(p: string, s: string)
    ensures Matches(p, s) <==> HasMatch(p, s)
  {
    var r := Search(p, s);
    if r.Some? {
      assert MatchesAt(p, s, r.value);
    }
  }

  /** Every character matches itself: a digit is a literal, and a dot is not a newline. */
  lemma CharMatchesReflexive(c: char)
    ensures CharMatches(c, c)
  {
  }

  /**
   * The search is unanchored: a text that matches still matches with anything
   * put before it and after it.
   */
  lemma MatchesUnanchored(p: string, s: string, before: string, after: string)
    requires Matches(p, s)
    ensures Matches(p, before + s + after)
  {
    var k := Search(p, s).value;
    var t := before + s + after;
    forall j | 0 <= j < |p|
      ensures CharMatches(p[j], t[|before| + k + j])
    {
      assert t[|before| + k + j] == s[k + j];
    }
    assert MatchesAt(p, t, |before| + k);
  }

  /** A pattern matches any text that contains it verbatim, whatever surrounds it. */
  lemma MatchesEnclosingText(p: string, before: string, after: string)
    ensures Matches(p, before + p + after)
  {
    forall j | 0 <= j < |p| ensures CharMatches(p[j], p[j]) {
      CharMatchesReflexive(p[j]);
    }
    assert MatchesAt(p, p, 0);
    MatchesUnanchored(p, p, before, after);
  }
}
