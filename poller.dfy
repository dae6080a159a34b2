/**
 * The poller's device parameters and its pruning wrapper around an SNMP
 * GetBulk walk (`parsedSNMPBulkGet`). A GetBulk walk (section 4.2.3 of
 * RFC 3416) may run past the end of the requested subtree; the wrapper
 * keeps, in order, the variable bindings whose OID text contains a match
 * for the requested OID, read as a regular expression after
 * `str.strip('.1')`.
 */
module BroadcomPoller {
  import opened PyStrings
  import opened OidPattern

  /** A value or the message of the exception that replaced it. */
  datatype Result<T> = Ok(value: T) | Err(message: string)

  /** The payload of a variable binding; the filter never looks at it. */
  datatype SnmpValue = IntegerValue(n: int) | OctetString(text: string)

  /** One item of a GetBulk response: its OID as text and its value. */
  datatype VarBind = VarBind(oid: string, value: SnmpValue)

  /** The prefix that `parsedSNMPBulkGet` puts before the message of any failure it re-raises. */
  const ErrorPrefix: string := "parsedSNMPBulkGet(),  "

  /** The characters `str.strip('.1')` removes from both ends. */
  const OidStripChars: set<char> := {'.', '1'}

  /** The search pattern of the per-stream "enabled" column: `3.6.1.4.1.22425.10.5.3.5.1.2`. */
  const EnabledStreamPattern: string := "3.6.1.4.1.22425.10.5.3.5.1.2"

  /** The template of the "enabled" column, the one OID the poller walks: `.1.3.6.1.4.1.22425.10.5.3.5.1.2`. */
  const EnabledStreamOid: string := ".1." + EnabledStreamPattern

  /** The pattern of the dropped-packet counter column: `3.6.1.4.1.22425.10.5.3.5.1.22`. */
  const DroppedPacketsPattern: string := EnabledStreamPattern + "2"

  /** The template of the second stream's dropped-packet counter: `.1.3.6.1.4.1.22425.10.5.3.5.1.22.1`. */
  const Stream2DroppedPacketsOid: string := ".1." + DroppedPacketsPattern + ".1"

  /** The pattern of the stream-name column: `3.6.1.4.1.22425.10.5.3.5.1.3`. */
  const StreamNamePattern: string := "3.6.1.4.1.22425.10.5.3.5.1.3"

  /** The connection parameters of one device; the defaults are SNMP v2c, no retries, a 5 second timeout. */
  class Config {
    var hostName: string
    var community: string
    var version: int
    var retries: int
    var timeout: int

    constructor (hostName: string, community: string, version: int := 2, retries: int := 0, timeout: int := 5)
      ensures this.hostName == hostName && this.community == community
      ensures this.version == version && this.retries == retries && this.timeout == timeout
    {
      this.hostName := hostName;
      this.community := community;
      this.version := version;
      this.retries := retries;
      this.timeout := timeout;
    }
  }

  /** A device configured from a host name and a community string alone gets every default. */
  method DefaultConfig(hostName: string, community: string) returns (c: Config)
    ensures c.hostName == hostName && c.community == community
    ensures c.version == 2 && c.retries == 0 && c.timeout == 5
  {
    c := new Config(hostName, community);
  }

  /** `oid.strip('.1')`: the search pattern, which keeps to the OID alphabet. */
  function TrimOid(oid: string): (r: string)
    ensures IsOidText(oid) ==> IsOidText(r)
    ensures |r| <= |oid|
  {
    Strip(oid, OidStripChars)
  }

  /**
   * The specification of the pruning loop: the items whose OID contains a match
   * for `pattern`, in the order of the response.
   */
  function KeepMatching(items: seq<VarBind>, pattern: string): (r: seq<VarBind>)
    ensures |r| <= |items|
  {
    if items == [] then []
    else
      var n := |items| - 1;
      var front := KeepMatching(items[..n], pattern);
      if Matches(pattern, items[n].oid) then front + [items[n]] else front
  }

  /** The positions of the matching items, in increasing order. */
  ghost function MatchingIndices(items: seq<VarBind>, pattern: string): seq<nat>
  {
    if items == [] then []
    else
      var n := |items| - 1;
      var front := MatchingIndices(items[..n], pattern);
      if Matches(pattern, items[n].oid) then front + [n] else front
  }

  /**
   * `parsedSNMPBulkGet(session, oid)`. The outcome of `session.get_bulk(oid)` is
   * the parameter `reply`: a failure there comes back with the prefix before
   * its message and no list; otherwise the loop keeps the items whose OID the
   * trimmed pattern matches.
   */
  method ParsedSnmpBulkGet(reply: Result<seq<VarBind>>, oid: string) returns (r: Result<seq<VarBind>>)
    requires IsOidText(oid)
    ensures reply.Err? ==> r == Err(ErrorPrefix + reply.message)
    ensures reply.Ok? ==> r == Ok(KeepMatching(reply.value, TrimOid(oid)))
  {
    if reply.Err? {
      return Err(ErrorPrefix + reply.message);
    }
    var response := reply.value;
    var pattern := TrimOid(oid);
    var pruned: seq<VarBind> := [];
    for i := 0 to |response|
      invariant pruned == KeepMatching(response[..i], pattern)
    {
      var item := response[i];
      if Search(pattern, item.oid).Some? {
        pruned := pruned + [item];
      }
      assert response[..i + 1][..i] == response[..i];
    }
    assert response[..|response|] == response;
    return Ok(pruned);
  }

  /** The i-th kept item is the response item at the i-th matching position. */
  lemma {:induction false} KeptItemsSitAtMatchingIndices(items: seq<VarBind>, pattern: string)
    ensures var idx := MatchingIndices(items, pattern);
            var kept := KeepMatching(items, pattern);
            && |idx| == |kept|
            && (forall j :: 0 <= j < |idx| ==> idx[j] < |items| && kept[j] == items[idx[j]])
  {
    if items != [] {
      var n := |items| - 1;
      KeptItemsSitAtMatchingIndices(items[..n], pattern);
    }
  }

  /** The matching positions are listed in increasing order. */
  lemma {:induction false} MatchingIndicesIncrease(items: seq<VarBind>, pattern: string)
    ensures var idx := MatchingIndices(items, pattern);
            forall j, l :: 0 <= j < l < |idx| ==> idx[j] < idx[l]
  {
    if items != [] {
      var n := |items| - 1;
      MatchingIndicesIncrease(items[..n], pattern);
      KeptItemsSitAtMatchingIndices(items[..n], pattern);
    }
  }

  /** A position is listed exactly when the item there matches. */
  lemma {:induction false} MatchingIndicesExact(items: seq<VarBind>, pattern: string)
    ensures var idx := MatchingIndices(items, pattern);
            forall i: nat :: i < |items| ==> (i in idx <==> Matches(pattern, items[i].oid))
  {
    if items != [] {
      var n := |items| - 1;
      var front := items[..n];
      MatchingIndicesExact(front, pattern);
      KeptItemsSitAtMatchingIndices(front, pattern);
      var idx := MatchingIndices(items, pattern);
      var frontIdx := MatchingIndices(front, pattern);
      forall i: nat | i < |items| ensures i in idx <==> Matches(pattern, items[i].oid) {
        if i < n {
          assert front[i] == items[i];
          assert i in idx <==> i in frontIdx;
        }
      }
    }
  }

  /**
   * The result is exactly the subsequence of the response made of the matching
   * items: the i-th kept item is the response item at the i-th matching position,
   * the positions increase, and a position is used iff its item matches.
   */
  lemma KeepMatchingIsMatchingSubsequence(items: seq<VarBind>, pattern: string)
    ensures var idx := MatchingIndices(items, pattern);
            var kept := KeepMatching(items, pattern);
            && |idx| == |kept|
            && (forall j :: 0 <= j < |idx| ==> idx[j] < |items| && kept[j] == items[idx[j]])
            && (forall j, l :: 0 <= j < l < |idx| ==> idx[j] < idx[l])
            && (forall i: nat :: i < |items| ==> (i in idx <==> Matches(pattern, items[i].oid)))
  {
    KeptItemsSitAtMatchingIndices(items, pattern);
    MatchingIndicesIncrease(items, pattern);
    MatchingIndicesExact(items, pattern);
  }

  /**
   * Nothing is altered or duplicated: a matching item occurs in the result as
   * often as in the response, any other item not at all.
   */
  lemma {:induction false} KeepMatchingCounts(items: seq<VarBind>, pattern: string, x: VarBind)
    ensures multiset(KeepMatching(items, pattern))[x] ==
            if Matches(pattern, x.oid) then multiset(items)[x] else 0
  {
    if items != [] {
      var n := |items| - 1;
      KeepMatchingCounts(items[..n], pattern, x);
      assert items == items[..n] + [items[n]];
    }
  }

  /** Every kept item is a matching item of the response, and every matching item is kept. */
  lemma KeepMatchingMembership(items: seq<VarBind>, pattern: string, x: VarBind)
    ensures x in KeepMatching(items, pattern) <==> x in items && Matches(pattern, x.oid)
  {
    KeepMatchingCounts(items, pattern, x);
  }

  /** Pruning a pruned response with the same pattern changes nothing. */
  lemma {:induction false} KeepMatchingIdempotent(items: seq<VarBind>, pattern: string)
    ensures KeepMatching(KeepMatching(items, pattern), pattern) == KeepMatching(items, pattern)
  {
    if items != [] {
      var n := |items| - 1;
      var front := KeepMatching(items[..n], pattern);
      KeepMatchingIdempotent(items[..n], pattern);
      if Matches(pattern, items[n].oid) {
        assert (front + [items[n]])[..|front|] == front;
      }
    }
  }

  /** An OID made only of dots and ones trims to the empty pattern. */
  lemma StrippableOidTrimsToEmpty(oid: string)
    requires forall k :: 0 <= k < |oid| ==> oid[k] in OidStripChars
    ensures TrimOid(oid) == []
  {
  }

  /** The empty pattern matches every text, so it keeps the whole response. */
  lemma {:induction false} EmptyPatternKeepsEverything(items: seq<VarBind>)
    ensures KeepMatching(items, []) == items
  {
    if items != [] {
      var n := |items| - 1;
      EmptyPatternKeepsEverything(items[..n]);
      assert MatchesAt([], items[n].oid, 0);
      assert items == items[..n] + [items[n]];
    }
  }

  /** With an OID made only of dots and ones, the wrapper keeps the whole response. */
  lemma StrippableOidKeepsEverything(items: seq<VarBind>, oid: string)
    requires forall k :: 0 <= k < |oid| ==> oid[k] in OidStripChars
    ensures KeepMatching(items, TrimOid(oid)) == items
  {
    StrippableOidTrimsToEmpty(oid);
    EmptyPatternKeepsEverything(items);
  }

  /**
   * An OID that is a pattern padded on both sides with dots and ones trims to
   * that pattern, when the pattern's own ends are neither a dot nor a one.
   */
  lemma TrimOfPaddedPattern(head: string, r: string, tail: string)
    requires forall k :: 0 <= k < |head| ==> head[k] in OidStripChars
    requires forall k :: 0 <= k < |tail| ==> tail[k] in OidStripChars
    requires r != [] && r[0] !in OidStripChars && r[|r| - 1] !in OidStripChars
    ensures TrimOid(head + r + tail) == r
  {
    var s := head + r + tail;
    assert s[|head|..|head| + |r|] == r;
    forall k | 0 <= k < |head| ensures s[k] in OidStripChars {
      assert s[k] == head[k];
    }
    forall k | |head| + |r| <= k < |s| ensures s[k] in OidStripChars {
      assert s[k] == tail[k - |head| - |r|];
    }
    assert IsStripAt(s, OidStripChars, r, |head|, |head| + |r|);
    StripUnique(s, OidStripChars, r);
  }

  /**
   * The pattern of the enabled-stream template is the OID without its leading
   * ".1." (the comment beside the trim says a leading "." is kept; it is not).
   */
  lemma TrimmedEnabledStreamOid()
    ensures TrimOid(EnabledStreamOid) == EnabledStreamPattern
  {
    var p := EnabledStreamPattern;
    assert p[0] == '3' && p[|p| - 1] == '2';
    assert EnabledStreamOid == ".1." + p + "";
    TrimOfPaddedPattern(".1.", p, "");
  }

  /**
   * A trailing ".1" is stripped too: the template of the second stream's
   * dropped-packet counter trims to the pattern of the whole counter column.
   */
  lemma TrimmedCounterOidLosesStreamIndex()
    ensures TrimOid(Stream2DroppedPacketsOid) == DroppedPacketsPattern
  {
    var p := DroppedPacketsPattern;
    assert p[0] == '3' && p[|p| - 1] == '2';
    TrimOfPaddedPattern(".1.", p, ".1");
  }

  /** The enabled-stream pattern does not occur in the first stream's name OID (column 3). */
  lemma EnabledStreamPatternMissesColumn3()
    ensures !Matches(EnabledStreamPattern, "iso." + StreamNamePattern + ".0")
  {
    var p := EnabledStreamPattern;
    var name := "iso." + StreamNamePattern + ".0";
    forall k: nat | k + |p| <= |name| ensures !MatchesAt(p, name, k) {
      if k == 4 {
        assert !CharMatches(p[27], name[31]);
      } else {
        assert !CharMatches(p[0], name[k]);
      }
    }
  }

  /**
   * The first stream's dropped-packet counter OID (column 22) holds the
   * enabled-stream pattern, with no segment boundary after it.
   */
  lemma EnabledStreamPatternHitsColumn22()
    ensures Matches(EnabledStreamPattern, "iso." + DroppedPacketsPattern + ".0")
  {
    assert "iso." + DroppedPacketsPattern + ".0" == "iso." + EnabledStreamPattern + "2.0";
    MatchesEnclosingText(EnabledStreamPattern, "iso.", "2.0");
  }

  /** Three items of which the middle one does not match: the outer two are kept. */
  lemma KeepMatchingOuterOfThree(a: VarBind, b: VarBind, c: VarBind, pattern: string)
    requires Matches(pattern, a.oid) && !Matches(pattern, b.oid) && Matches(pattern, c.oid)
    ensures KeepMatching([a, b, c], pattern) == [a, c]
  {
    assert [a][..0] == [];
    assert KeepMatching([a], pattern) == [a];
    assert [a, b][..1] == [a];
    assert KeepMatching([a, b], pattern) == [a];
    assert [a, b, c][..2] == [a, b];
  }

  /**
   * Pruning a walk of the enabled-stream column: the first stream's flag is kept,
   * the first stream's name (column 3, past the subtree) is dropped, and the first
   * stream's dropped-packet counter (column 22, also past the subtree) is kept,
   * because "...5.1.2" occurs inside "...5.1.22".
   */
  lemma EnabledStreamWalkKeepsColumn22(value: SnmpValue)
    ensures var flag := VarBind("iso." + EnabledStreamPattern + ".0", value);
            var name := VarBind("iso." + StreamNamePattern + ".0", value);
            var counter := VarBind("iso." + DroppedPacketsPattern + ".0", value);
            KeepMatching([flag, name, counter], TrimOid(EnabledStreamOid)) == [flag, counter]
  {
    TrimmedEnabledStreamOid();
    MatchesEnclosingText(EnabledStreamPattern, "iso.", ".0");
    EnabledStreamPatternMissesColumn3();
    EnabledStreamPatternHitsColumn22();
    KeepMatchingOuterOfThree(
      VarBind("iso." + EnabledStreamPattern + ".0", value),
      VarBind("iso." + StreamNamePattern + ".0", value),
      VarBind("iso." + DroppedPacketsPattern + ".0", value),
      EnabledStreamPattern);
  }
}
