# broadcomPoller: the GetBulk pruning filter, in Dafny

broadcomPoller polls a Broadcom PIPA C211 audio codec over SNMP. Its one
piece of real logic is `parsedSNMPBulkGet`. This function runs a GetBulk walk
(section 4.2.3 of RFC 3416) for an OID. It then keeps only the variable
bindings that belong to the requested column, because a bulk walk can run
past the end of the subtree it was asked for. The model also covers `Config`,
the record of connection parameters that goes with it.

The filter works in three steps, and each is modelled as the code does it:

- `oid.strip('.1')` removes every leading and trailing `.` or `1` character.
  Python reads the argument as a set of characters, not as a prefix. This is
  `PyStrings.Strip`. `IsStripOf` describes the result independently: a
  contiguous slice whose removed ends are all strippable and whose own ends are
  not. `StripIsStrip` and `StripUnique` prove that this description fits
  `Strip` and fits nothing else.
- The trimmed text is compiled as a regular expression. For an OID made of
  digits and dots, that expression is a literal in which `.` matches any
  character except a newline. `OidPattern.Search` is `pattern.search`: it
  returns the leftmost offset where the pattern agrees with the text, with no
  anchor and no segment-boundary check.
- A `for` loop appends, in order, every item whose OID the pattern matches.
  `BroadcomPoller.ParsedSnmpBulkGet` is that loop. It is proved against
  `KeepMatching`, and the lemmas about `KeepMatching` state what the result is.

The SNMP session is not modelled. The outcome of `session.get_bulk(oid)` is a
parameter: either the list of bindings, or the message of the exception it
raised. A failure comes back as `Err` with `"parsedSNMPBulkGet(),  "` before
the message, and no list is returned.

The model follows what the code does, not the subtree check it is meant to
perform:

- A subtree check would compare OID segments as a prefix. The code does an
  unanchored wildcard search instead. So the pattern for `...5.1.2` also keeps
  OIDs in column `...5.1.22` (`EnabledStreamWalkKeepsColumn22`).
- Trailing `.1` characters are stripped as well. A template ending `22.1`
  therefore matches every stream of column 22
  (`TrimmedCounterOidLosesStreamIndex`).
- The comment at `__main__.py:26-28` says the leading `.` survives the trim.
  It does not (`TrimmedEnabledStreamOid`).

Files: `strip.dfy` (module `PyStrings`), `pattern.dfy` (module `OidPattern`),
`poller.dfy` (module `BroadcomPoller`).

## Model

| member | source | states |
|---|---|---|
| PyStrings.StripLeading | __main__.py:29 | the result is a suffix of the input, every removed character is in the strip set, and the result does not start with one |
| PyStrings.StripTrailing | __main__.py:29 | the result is a prefix of the input, every removed character is in the strip set, and the result does not end with one |
| PyStrings.StripIsStrip | __main__.py:29 | `str.strip(chars)` returns a contiguous slice `s[i..j]`; everything outside it is in `chars`; if it is non-empty, it neither starts nor ends with a character of `chars` |
| PyStrings.StripUnique | __main__.py:29 | any string that fits that description is the strip result, so the description determines it |
| PyStrings.StripIdempotent | __main__.py:29 | stripping a stripped string changes nothing |
| OidPattern.SearchFrom | __main__.py:40 | the search from an offset returns the leftmost agreeing window at or after it, or `None` when no window from there on agrees |
| OidPattern.Search | __main__.py:40 | `pattern.search` returns the leftmost offset whose window agrees with the pattern, or `None` exactly when no window does |
| OidPattern.MatchesIffHasMatch | __main__.py:32-40 | an item is kept exactly when some window of its OID text agrees with the pattern at every position (a `.` agrees with any non-newline character, a digit with itself) |
| OidPattern.MatchesUnanchored | __main__.py:40 | a match survives any text put before or after it: the search is unanchored |
| OidPattern.MatchesEnclosingText | __main__.py:32-40 | a pattern matches every text that contains it verbatim, whatever surrounds it, with no segment-boundary check |
| BroadcomPoller.Config.constructor | __main__.py:12-17 | host name, community, version, retries and timeout are stored as given |
| BroadcomPoller.DefaultConfig | __main__.py:12 | a config built from a host name and a community alone has version 2, retries 0 and timeout 5 |
| BroadcomPoller.TrimOid | __main__.py:29 | the trimmed OID is no longer than the OID and keeps to the digit-and-dot alphabet, so the pattern is a digit/wildcard literal |
| BroadcomPoller.KeepMatching | __main__.py:35-46 | the pruned list is never longer than the response; an empty response gives an empty list |
| BroadcomPoller.ParsedSnmpBulkGet | __main__.py:20-48 | a `get_bulk` failure becomes `Err` with the `"parsedSNMPBulkGet(),  "` prefix and no list; otherwise the loop returns exactly the matching items of the response, in order |
| BroadcomPoller.KeepMatchingIsMatchingSubsequence | __main__.py:35-44 | the result is the response restricted to the matching positions, in increasing order: the i-th kept item is the response item at the i-th matching position, and a position is used iff its item matches |
| BroadcomPoller.KeptItemsSitAtMatchingIndices | __main__.py:37-43 | the i-th kept item is the response item at the i-th matching position |
| BroadcomPoller.MatchingIndicesIncrease | __main__.py:37-43 | the matching positions come in increasing order, so the response order is kept |
| BroadcomPoller.MatchingIndicesExact | __main__.py:40-43 | a position is among the kept ones iff its item's OID matches |
| BroadcomPoller.KeepMatchingCounts | __main__.py:43 | items are appended unchanged and never duplicated: a matching item occurs as often as in the response, any other item not at all |
| BroadcomPoller.KeepMatchingMembership | __main__.py:37-43 | an item is in the result iff it is in the response and its OID matches: every kept item matches, every dropped item does not |
| BroadcomPoller.KeepMatchingIdempotent | __main__.py:37-43 | filtering the output again with the same OID returns it unchanged |
| BroadcomPoller.StrippableOidTrimsToEmpty | __main__.py:29 | an OID made only of dots and ones trims to the empty string |
| BroadcomPoller.EmptyPatternKeepsEverything | __main__.py:32-43 | the empty pattern matches at offset 0 of every OID, so every item is kept |
| BroadcomPoller.StrippableOidKeepsEverything | __main__.py:29-43 | with an OID made only of dots and ones, the whole response is returned unpruned |
| BroadcomPoller.TrimOfPaddedPattern | __main__.py:29 | an OID that is a pattern padded at both ends with dots and ones trims to exactly that pattern, when the pattern's own ends are neither |
| BroadcomPoller.TrimmedEnabledStreamOid | __main__.py:26-29 | `.1.3.6.1.4.1.22425.10.5.3.5.1.2` trims to `3.6.1.4.1.22425.10.5.3.5.1.2`: the leading `.` does not survive, contrary to the comment |
| BroadcomPoller.TrimmedCounterOidLosesStreamIndex | __main__.py:29 | the stream-2 dropped-packet template `...5.1.22.1` trims to `...5.1.22`: its trailing stream index is stripped |
| BroadcomPoller.EnabledStreamPatternMissesColumn3 | __main__.py:40 | the enabled-stream pattern does not match the first stream's name OID (column 3), so that overrun item is dropped |
| BroadcomPoller.EnabledStreamPatternHitsColumn22 | __main__.py:40 | the enabled-stream pattern matches the first stream's dropped-packet counter OID (column 22) |
| BroadcomPoller.EnabledStreamWalkKeepsColumn22 | __main__.py:23-43 | pruning a walk of [flag, name, counter] for the enabled-stream template keeps the flag and the column-22 counter and drops only the name |

## Left out

- Session creation and the `get_bulk` call (`__main__.py:22`, `74-80`) are network I/O through a library not part of this model. Their outcome is the `reply` parameter: the list of bindings, or the message of the exception raised.
- The textual form of the OIDs the library returns (an `iso.` prefix, as the comment at `__main__.py:26` describes) belongs to that library. The example lemmas assume that form.
- ParsedSnmpBulkGet: requires an OID of digits and dots only. Python compiles any string as a regular expression, and this model has only the digit/wildcard subset that such OIDs produce.
- Failures raised inside the loop cannot occur in the typed model, for example an item without an `oid` attribute. The only `Err` is a failed `get_bulk`. Python's exception class is not modelled, only its message.
- `getBroadcomOIDs` (`__main__.py:52-86`) is left out. It opens a session and returns one filtered query for the enabled-stream template, which is kept here as `EnabledStreamOid`. Its other templates and its `sample_OID_LABELS` dict are unused constants.
- `main` (`__main__.py:88-99`) is left out: it parses command-line arguments and prints.
- The source refers to names it never defines: `re`, `Session`, and `self` at line 74. So as written it stops with `NameError`. The model gives the behaviour the code evidently intends.
- Per-stream correlation and rx/tx classification are not modelled because the source does not implement them.
- Config: Python does not type the fields. Here `hostName` and `community` are strings, and `version`, `retries` and `timeout` are integers.
