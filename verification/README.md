# Record and replay, verified

A Dafny model of cassetter's record/replay engine and of the diff its verify mode prints, with proofs of what the
engine promises: that a concurrent recording session, written in canonical order, replays each request with its own
response; that no recording is lost on the way to disk; that verify mode prints a diff
exactly when responses disagree, and that the diff is a correct and minimal patch; and that
the Go transport, the Python mirror, the strict WebSocket replay, the binary-scalar rewriter and the interceptor chain
keep the invariants they rely on.

`dafny verify dfyconfig.toml` checks the whole project.

## How it is laid out

| files | what they model |
|---|---|
| `Options.dfy`, `Sorting.dfy`, `Lexicographic.dfy`, `Decimal.dfy`, `TextLines.dfy` | a reference stable sort, filters, and how the two commute; lexicographic order; decimal text; text and its lines |
| `Json.dfy`, `CanonicalText.dfy`, `JsonReader.dfy`, `PrettyText.dfy` | JSON values, the matcher's equality, canonical text, the proof that it determines the value, a reader that gives it back, and the indented text |
| `Protocol.dfy`, `Matching.dfy`, `IgnoredPaths.dfy`, `SortKeys.dfy`, `Compatibility.dfy` | requests, the matchers, what ignoring paths leaves, the sort key and what it tells apart, and when one request can match two recordings |
| `Replay.dfy`, `Ordering.dfy` | which recording answers a request, runs of the replay machine, the write order and what it means for replay |
| `MethodUriIndex.dfy`, `Cassette.dfy` | the method+URI index and the `Cassette` class |
| `RecorderState.dfy`, `Recorder.dfy`, `Sections.dfy`, `Sessions.dfy`, `SessionFiles.dfy` | the recorder's critical sections, its class, what the sections do told from the recordings, all interleavings of concurrent calls, and the file they leave |
| `Subsequences.dfy`, `EditScript.dfy`, `UnifiedDiff.dfy`, `DiffText.dfy` | the LCS edit script, hunks as a patch, and the printed text |
| `TypeScriptDiff.dfy` | the TypeScript diff, with its greedy fallback and its own hunk grouping and numbers |
| `Tolerance.dfy`, `ComparedHeaders.dfy`, `ResponseDiff.dfy`, `Glob.dfy`, `HeaderFilter.dfy` | tolerant comparison, dropped paths, the headers compared, the rendered responses and their diff, the two glob matchers, and the header filter |
| `ReservationOrder.dfy`, `GoState.dfy`, `GoTransport.dfy`, `GoSessions.dfy`, `GoReplay.dfy`, `GoFiles.dfy` | the Go transport's three protocols under one lock, runs of it, replay of the file a run leaves, and what that file holds |
| `NormalizedMirror.dfy`, `RecordOrders.dfy`, `PythonCassette.dfy` | the Python cassette with its URI-normalized mirror, and the orders its runs hand out |
| `WebSocketScript.dfy`, `WebSocketReplay.dfy` | replay of a recorded WebSocket conversation |
| `BlockScalars.dfy`, `BinaryScalars.dfy` | extraction of `!!binary` block scalars: the scan for any kind of line, and YAML lines |
| `PatchChains.dfy`, `Interceptors.dfy` | the `fetch` and `node:http` patch chains |

A class stands for each object the source updates in place. Its methods are proved against functions on a value (the
class's `View`), and the lemmas about runs are about those functions. Each locked section is one step; calls interleave
between sections. `record_http` and `record_grpc` are two sections, as in the source: insert, then save.

## Modelling choices

* A JSON number is its printed text. Two numbers are equal to the matcher when their texts are, or when both are float
  zeros (`0.0` and `-0.0`); the printer keeps the sign. Objects are sequences of members with distinct keys.
* Headers are sequences with distinct names, in the iteration order of the hash map they stand for.
* Case mapping is per character: ASCII is spelled out, the rest is a table in the match configuration. One table serves
  a cassette and every lookup in it.
* Scrubbing is a function of the request and a function of the response. A probe and a recording go through the same
  one. Retagging the content length may fail.
* The disk is a sequence of interactions per protocol. A save is an atomic write that succeeds or fails, and load is its
  inverse. YAML and TOML are not part of this model.
* Bytes are natural numbers; where only real bytes behave, a lemma asks for values below 256.
* The comparison's numbers: how a text is read as an integer or a double, and how a difference is rounded, are parameters
  (`Tolerance.Arithmetic`); the branches on integers and doubles are those of the source.
* Request orders, counters and table cells are unbounded integers; `EditScript.CellFits` shows the table's 32 bits suffice.
* Base64 decoding, reading server-sent events, and machine arithmetic are parameters.

## Findings

### Signed zero in the write order

The comment at crates/cassetter-core/src/cassette/ordering.rs:34-39 says the sort makes the file canonical without
changing what replays. That is false for JSON bodies that hold `-0.0`: the matcher takes `0.0` and `-0.0` as equal, the
canonical text separates them, and `"-0.0"` sorts first. `Ordering.NegativeZeroIsSwapped` gives two recordings that the
file swaps and one request that the recorded order and the file answer differently.

`Ordering.SortingPreservesReplayIff` gives the exact condition, `PairsInOrder`: of any two compatible recordings the one
recorded first does not have the larger key. It is a check of finitely many pairs. Two recordings are compatible when
they match each other on every field but the headers and their equally named headers have equal values;
`Compatibility.CompatibleIff` shows that this is when some request matches both, and `SortKeys.MatchesShareKeyIff` that
the keys of such recordings differ only in the signs of zeros. `KeysInTurn` is the exact condition for asking in recorded
order (`Ordering.RoundTripIff`), for whole sessions too (`Sessions.SessionRoundTripIff`). Both hold when no matched JSON
body holds `-0.0` (`Ordering.ZeroSafeInOrder`, `Ordering.ZeroSafeInTurn`). `CanonicalText.TextFollowsEqualityIff` gives
the exact values for which equal means equal text.

### An empty side in the TypeScript diff

The TypeScript diff prints the start of a hunk as the count of lines before it plus one, also when the side is empty,
where the unified format wants the plain count. `TypeScriptDiff.Diff` gives the exact condition: the hunks, with their
numbers as printed, patch one text into the other if and only if both texts are empty or neither is, and the same holds
in reverse. `TypeScriptDiff.EmptySideOffByOne` is a failing input. Verify mode never reaches one: the only caller
(ts/src/compare.ts:45-59) passes rendered responses, which have at least three lines. With the numbers read as meant
(`TypeScriptDiff.Meant`) the hunks are exact for all inputs.

### Smaller boundaries

The greedy glob agrees with the recursive one for all names exactly when the pattern has no `?`
(`GlobMatching.GreedyAgreesIff`). The comparison's `drop_paths` agrees with the matcher's `filter_json_paths` on all
values exactly when the empty path is not listed (`Tolerance.DropAgreesIff`).

The short cut of the header filter treats a header as its general branch would, unless an entry is the name in lower case
and none is it up to ASCII case; that is the exact condition (`HeaderFilter.ShortCutAgreesIff`). ASCII names and entries
never meet it (`HeaderFilter.ShortCutAgrees`); the entry U+212A (Kelvin sign) and the name `k` do
(`HeaderFilter.ShortCutDiffers`). The early return of `extract_binary_scalars` leaves the text the scan would give exactly
when no line break follows a carriage return or ends the text (`BinaryScalars.EarlyReturnAgreesIff`); what it extracts is
the same always.

## Model

| member | source | states |
|---|---|---|
| Sorting.SortKeepsSelection | crates/cassetter-core/src/cassette/ordering.rs:32-53 | the stable sort behind the write order leaves a selection alone exactly when it was already in order |
| CanonicalText.WriteCanonical | crates/cassetter-core/src/cassette/ordering.rs:91-124 | the recursive writer appends the canonical text of the value: keys sorted, JSON string escapes, no white space |
| CanonicalText.PrintUnique | crates/cassetter-core/src/cassette/ordering.rs:91-124 | the text determines the value and where it ends, so no two values print alike |
| CanonicalText.TextDecidesEqual | crates/cassetter-core/src/cassette/ordering.rs:91-124 | equal canonical text if and only if equal up to key order, signs of zeros included |
| CanonicalText.MatcherEqualByText | crates/cassetter-core/src/matching/matchers.rs:37-55 | the matcher's body equality is equality of canonical text once float zeros are made positive |
| CanonicalText.MatcherEqualIsEquivalence | crates/cassetter-core/src/matching/matchers.rs:37-55 | the matcher's body equality is reflexive, symmetric and transitive |
| CanonicalText.EqualValuesShareText | crates/cassetter-core/src/cassette/ordering.rs:78-124 | two values one probe equals share their text if neither holds a negative float zero |
| CanonicalText.TextFollowsEqualityIff | crates/cassetter-core/src/cassette/ordering.rs:78-124 | everything equal to a value shares its text exactly when the value holds no float zero |
| JsonReader.ReadPrint | crates/cassetter-core/src/cassette/ordering.rs:91-124 | a reader of JSON (RFC 8259) gives back every value the compact writer writes, and stops where it ends |
| JsonReader.CanonicalReads | crates/cassetter-core/src/cassette/ordering.rs:91-124 | so the canonical text is JSON for the value it was made of, with the keys sorted |
| JsonReader.EscapeIs | crates/cassetter-core/src/cassette/ordering.rs:91-124 | strings are escaped by one letter where JSON has one, by lower-case digits where a control character has none, and not otherwise |
| Json.CanonicalDecidesEqual | crates/cassetter-core/src/cassette/ordering.rs:91-124 | sorting keys at every level gives the same tree exactly to values equal up to key order |
| Matching.MatchHeaders | crates/cassetter-core/src/matching/matchers.rs:11-35 | for ASCII names, of which the request has each once, true exactly when every recorded header is carried by the request under that name in any letter case with the same values |
| Matching.HeadersMatchIff | crates/cassetter-core/src/matching/matchers.rs:11-35 | the same for the matcher used everywhere |
| Matching.BodyMatchIff | crates/cassetter-core/src/matching/matchers.rs:37-55 | bodies match exactly when they are of one kind with the same content, JSON by its canonical text with float zeros made positive |
| Matching.FilterJsonPaths | crates/cassetter-core/src/matching/matchers.rs:57-93 | the recursion and loops compute the filter that `IgnoredPaths.FilteredAt` describes place by place |
| IgnoredPaths.FilteredAt | crates/cassetter-core/src/matching/matchers.rs:57-93 | path by path: something stands in the filtered value exactly where something stood, nothing on the way was listed, and the place is not a listed member; a listed item is `null`, the rest is as it was |
| IgnoredPaths.LooksDecide | crates/cassetter-core/src/matching/matchers.rs:57-93 | what stands at each path determines a value up to key order, so the above says all there is to say |
| IgnoredPaths.PathSyntax | crates/cassetter-core/src/matching/matchers.rs:57-93 | how ignored paths are written: `data.items[0].id`, `[12].id` |
| Matching.FilterValid | crates/cassetter-core/src/matching/matchers.rs:57-93 | filtering keeps keys distinct, so filtered values can be compared and printed |
| Matching.FilterNothing | crates/cassetter-core/src/cassette/ordering.rs:61-76 | without ignored paths filtering changes nothing, so the two body matchers share one key |
| Matching.MatchesAll | crates/cassetter-core/src/matching/mod.rs:182-201 | true exactly when every configured field matches; an unknown matcher matches nothing |
| Matching.SameUpper | crates/cassetter-core/src/matching/matchers.rs:3-5 | methods equal up to ASCII case have the same upper case, whatever the table |
| Matching.CanonicalBody | crates/cassetter-core/src/cassette/ordering.rs:78-89 | the key text of a body: canonical text of the filtered JSON, the text itself, hex bytes, or nothing |
| Matching.SortKey | crates/cassetter-core/src/cassette/ordering.rs:55-76 | the key of a request, one part per matcher in order, none for headers |
| SortKeys.MatchesShareKeyIff | crates/cassetter-core/src/cassette/ordering.rs:34-39 | two recordings that one request matches have equal keys if and only if their matched JSON bodies agree in the signs of zeros too |
| SortKeys.SameKeyIffMatching | crates/cassetter-core/src/cassette/ordering.rs:55-89 | how fine the key is: requests match up to the signs of zeros if and only if they share a key and agree in ASCII-insensitive method, headers and kind of body, where matched |
| SortKeys.AsciiMethodsAgree | crates/cassetter-core/src/cassette/ordering.rs:61-66 | equal keys already mean that ASCII methods agree |
| SortKeys.KindsCollide | crates/cassetter-core/src/cassette/ordering.rs:78-89 | a JSON string body and a text body holding its text share a key and do not match |
| SortKeys.MethodsCollide | crates/cassetter-core/src/cassette/ordering.rs:61-66 | beyond ASCII the key merges methods that do not match: sharp s and `SS` |
| SortKeys.HexReads | crates/cassetter-core/src/cassette/ordering.rs:78-89 | the key of binary content reads back as its bytes, two hexadecimal digits each, the high one first |
| Lexicographic.StrLeIff | crates/cassetter-core/src/cassette/ordering.rs:40-53 | one key text comes before another when it is a prefix or has the smaller character where they first differ |
| Matching.MatchesItself | crates/cassetter-core/src/matching/mod.rs:182-201 | with valid matchers every request matches itself |
| Compatibility.CompatibleIff | crates/cassetter-core/src/matching/mod.rs:182-201 | some request matches both of two recordings if and only if they match each other field by field and their headers do not contradict each other |
| Replay.Pick | crates/cassetter-core/src/matching/mod.rs:50-71 | the loop returns the first unplayed match, else the first played one if allowed |
| Replay.ChoiceIsEarliest | crates/cassetter-core/src/matching/mod.rs:50-71 | what is chosen, told from the list: the first unplayed match, or if played ones are allowed and there is no other the first match, and none only if no match is eligible |
| Replay.RunsDecideCandidates | crates/cassetter-core/src/matching/mod.rs:50-71 | two arrangements replay alike for every request sequence if and only if every request sees the same candidates in the same order |
| Replay.WrittenRun | crates/cassetter-core/src/cassette/mod.rs:249-264 | replaying the written file step by step picks the recordings that replaying in write order picks |
| Replay.AskedInTurn | crates/cassetter-core/src/matching/mod.rs:50-71 | asking for every recording in turn returns each in turn if and only if none overtakes another it could answer for |
| Ordering.Validate | crates/cassetter-core/src/cassette/ordering.rs:10-30 | accepts exactly the permutations, and otherwise names the first out-of-range or repeated index or the wrong length |
| Ordering.OutputOrder | crates/cassetter-core/src/cassette/ordering.rs:40-53 | computes the write order, which writes every interaction exactly once |
| Ordering.WriteOrderArranges | crates/cassetter-core/src/cassette/ordering.rs:40-53 | a write order is a permutation, so `validate` never refuses it |
| Ordering.WrittenAscends | crates/cassetter-core/src/cassette/ordering.rs:32-53 | with the default matchers the file is sorted by method, and under one method by URI |
| Ordering.SortingPreservesReplayIff | crates/cassetter-core/src/cassette/ordering.rs:32-53 | the write order replays as the recorded order for all request sequences if and only if no two compatible recordings stand against their keys |
| Ordering.PairsDecideRequests | crates/cassetter-core/src/cassette/ordering.rs:32-53 | checking pairs of recordings is checking every request there could be |
| Ordering.ZeroSafeInOrder | crates/cassetter-core/src/cassette/ordering.rs:34-39 | without a negative zero in a matched body every pair is in order |
| Ordering.ZeroSafeInTurn | crates/cassetter-core/src/cassette/ordering.rs:34-39 | without a negative zero in a matched body the keys are in turn |
| Ordering.SortingPreservesReplay | crates/cassetter-core/src/cassette/ordering.rs:34-39 | with the pairs in order the written file answers every request sequence, with either recording flag, as the recorded order does |
| Ordering.RoundTripIff | crates/cassetter-core/src/cassette/ordering.rs:34-53 | asked in recorded order the file returns the k-th recording k-th for all k if and only if no later recording that fits has a smaller key |
| Ordering.RoundTrip | crates/cassetter-core/src/cassette/ordering.rs:34-53 | with the keys in turn each request gets its own response from the written file |
| Ordering.NegativeZeroIsSwapped | crates/cassetter-core/src/cassette/ordering.rs:34-39 | the counterexample: `0.0` before `-0.0` is written the other way round, and asking for the first gets it from one order and the second from the other |
| Ordering.WrittenIsFile | crates/cassetter-core/src/cassette/ordering.rs:40-53 | the file depends only on which interaction was reserved under which order |
| Ordering.CompletionOrderIndependent | crates/cassetter-core/src/cassette/ordering.rs:40-53 | any two arrival orders of the same reserved interactions are written alike |
| Ordering.RewritingIsIdentity | crates/cassetter-core/src/cassette/mod.rs:249-264 | loading a written file and writing it again changes nothing |
| MethodUriIndex.Build | crates/cassetter-core/src/cassette/index.rs:20-33 | the index lists, under each key and no other, the ascending positions that carry it |
| MethodUriIndex.ExtendKeepsIndex | go/transport_record.go:27-38 | appending one entry keeps the index the one a fresh build would make |
| MethodUriIndex.IndexUnique | crates/cassetter-core/src/cassette/index.rs:20-33 | there is only one such index |
| MethodUriIndex.LookupCovers | crates/cassetter-core/src/cassette/index.rs:35-38 | searching a looked-up list is searching the whole list, for any condition that implies the key |
| CassetteModel.IndexKeepsMatches | crates/cassetter-core/src/matching/mod.rs:25-48 | narrowing by method and URI loses no match |
| CassetteModel.Cassette.constructor | crates/cassetter-core/src/cassette/mod.rs:35-42 | a new cassette is empty |
| CassetteModel.Cassette.Loaded | crates/cassetter-core/src/cassette/format.rs:624-680 | a loaded cassette has nothing played and is not recording |
| CassetteModel.Cassette.SetRecording | crates/cassetter-core/src/cassette/mod.rs:48-58 | changes the recording flag only |
| CassetteModel.Cassette.SetInteractions | crates/cassetter-core/src/cassette/mod.rs:62-67 | replaces the interactions with none played, and drops the index |
| CassetteModel.Cassette.AddInteraction | crates/cassetter-core/src/cassette/mod.rs:69-74 | appends one interaction, played exactly while recording |
| CassetteModel.Cassette.InsertInteraction | crates/cassetter-core/src/cassette/mod.rs:76-87 | inserts one interaction and its flag at the position, or fails out of range and changes nothing |
| CassetteModel.Cassette.InsertGrpcInteraction | crates/cassetter-core/src/cassette/mod.rs:150-164 | the same for gRPC |
| CassetteModel.Cassette.MarkPlayed | crates/cassetter-core/src/cassette/mod.rs:89-98 | marks one position played, or fails out of range and changes nothing |
| CassetteModel.Cassette.TakeMatch | crates/cassetter-core/src/cassette/mod.rs:105-134 | with or without the cached index, returns and marks the earliest eligible match of the full scan; the index stays absent or current |
| CassetteModel.Cassette.TakeGrpcRequestMatch | crates/cassetter-core/src/cassette/mod.rs:191-206 | returns and marks the earliest eligible recording with the request's method and a body of the same content |
| CassetteModel.GrpcChoiceIs | crates/cassetter-core/src/matching/mod.rs:134-150 | which recording answers a gRPC request, told from methods and bodies |
| CassetteModel.RecasingChangesNothing | crates/cassetter-core/src/matching/matchers.rs:11-35 | spelling header names in another letter case gets the same recording |
| RecorderModel.Recorder.FromBuilder | crates/cassetter/src/recorder_state.rs:46-90 | the initial order lists, counter, flags and cassette for each mode and file |
| RecorderModel.Recorder.PrepareHttp | crates/cassetter/src/recorder.rs:82-105 | replays a match, else reserves the next order if recording, else misses; refuses when finalized |
| RecorderModel.Recorder.PrepareGrpc | crates/cassetter/src/recorder.rs:145-164 | the same for gRPC |
| RecorderModel.Recorder.InsertHttp | crates/cassetter/src/recorder.rs:166-185 | the insert section: scrub, retag, insert at the partition point, settle the order |
| RecorderModel.Recorder.InsertGrpc | crates/cassetter/src/recorder.rs:189-202 | the same for gRPC |
| RecorderModel.Recorder.Save | crates/cassetter/src/recorder.rs:226-235 | writes the cassette in its write order, or fails and changes nothing |
| RecorderModel.Recorder.RememberError | crates/cassetter/src/recorder.rs:214-224 | notes one error |
| RecorderModel.Recorder.FailRecording | crates/cassetter/src/recorder.rs:206-212 | removes the order from pending and notes the error |
| RecorderModel.Recorder.FinishBegin | crates/cassetter/src/recorder.rs:48-62 | finalizes, and says whether an empty cassette is to be saved |
| RecorderModel.Recorder.FinishEnd | crates/cassetter/src/recorder.rs:63-80 | reports remembered errors first, then incomplete recordings in order |
| RecorderState.FinishSucceedsIff | crates/cassetter/src/recorder.rs:48-80 | `finish` succeeds exactly when nothing is pending and no error was remembered |
| RecorderState.FinishReports | crates/cassetter/src/recorder.rs:63-80 | the errors reported: those remembered in their order, then one for each pending request in the order they were reserved |
| Sections.PrepareHttpIs | crates/cassetter/src/recorder.rs:82-105 | refused after `finish`; else answered by the earliest eligible match of the scrubbed request unless the mode is `all` or `rewrite`; else reserved under the next order if the session records; else a miss |
| Sections.PrepareGrpcIs | crates/cassetter/src/recorder.rs:145-164 | the same for gRPC, by method and body |
| Sections.AnsweringIs | crates/cassetter/src/recorder.rs:82-164 | a request counts as answered by a recording exactly when it got that recording's response |
| Sections.InsertHttpIs | crates/cassetter/src/recorder.rs:165-188 | refused after `finish`; else an error if the body cannot be encoded; else the scrubbed request with the scrubbed, retagged response is put where its order puts it, played exactly while recording |
| Sections.InsertGrpcIs | crates/cassetter/src/recorder.rs:190-205 | the same for gRPC, which has nothing to encode |
| Sessions.InsertHttpLists | crates/cassetter/src/recorder.rs:180-183 | inserting at the partition point keeps the order list increasing and as long as the cassette, so it never errs |
| Sessions.StepInvariant | crates/cassetter/src/recorder.rs:82-235 | every critical section of every call keeps all invariants |
| Sessions.RunInvariant | crates/cassetter/src/recorder.rs:82-235 | so does every interleaving |
| Sessions.ReservationsAccounted | crates/cassetter/src/recorder.rs:244-253 | in every reachable state each order handed out is pending, recorded or failed, and only one of these |
| Sessions.NoLostUpdate | crates/cassetter/src/recorder.rs:166-235 | with no save outstanding and something recorded, an error was remembered or the file is the current cassette in write order |
| Sessions.AtMostOnce | crates/cassetter-core/src/cassette/mod.rs:48-87 | while recording, a loaded HTTP or gRPC recording answers at most one request and one of this session none |
| Sessions.PrepareAllIsRun | crates/cassetter/src/recorder.rs:82-105 | a replay-only recorder answers as the replay machine over its file |
| Sessions.SessionRoundTripIff | crates/cassetter/src/recorder.rs:82-235 | for every interleaving of a clean session, a fresh replay-only recorder over its file, asked for every recording in reservation order, picks each request's own recording if and only if the keys are in turn |
| Sessions.SessionRoundTrip | crates/cassetter/src/recorder.rs:82-235 | then each request gets the response recorded for it, the loaded recordings' as well as the session's own, and the session recorded exactly the requests it reserved orders for |
| Sessions.GrpcRoundTrip | crates/cassetter/src/recorder.rs:145-202 | gRPC interactions are written as reserved, so a fresh replay-only recorder over a clean session's file, asked for each in turn, gives every request its own interaction, with no condition |
| Sessions.SessionsWriteTheSame | crates/cassetter/src/recorder.rs:178-183 | clean sessions with the same reserved interactions leave the same HTTP section, however responses arrived |
| SessionFiles.LoadedStays | crates/cassetter/src/recorder_state.rs:46-90 | in every run the WebSocket recordings are those loaded, and loaded HTTP and gRPC recordings stay first |
| SessionFiles.FileHolds | crates/cassetter/src/recorder.rs:226-235 | once nothing is left to save and no error was remembered the file holds the loaded WebSocket recordings, the gRPC recordings as reserved, and every HTTP recording once |
| SessionFiles.NothingRecorded | crates/cassetter/src/recorder_state.rs:46-90 | a session that recorded nothing leaves the file as it was, except that `all` may have emptied it and `rewrite` has removed it |
| SessionFiles.EmptySaveDue | crates/cassetter/src/recorder.rs:48-62 | `all` over an existing file owes it an empty save while nothing was recorded; the first `finish` makes it and no other does |
| SessionFiles.OnlySavesWrite | crates/cassetter/src/recorder.rs:226-235 | no step but a save that succeeds touches the file |
| SessionFiles.ErrorsInOrder | crates/cassetter/src/recorder.rs:206-224 | each step adds to the errors exactly the one it remembers: a failed save, a failed call, or a body that could not be encoded |
| SessionFiles.SavedOrRemembered | crates/cassetter/src/recorder.rs:187-224 | a save that succeeds ends the call or lets `finish` report; one that fails leaves its error to be remembered |
| SessionFiles.FirstCall | crates/cassetter/src/recorder.rs:165-188 | the first call of a recording session without a file leaves exactly its own interaction, scrubbed and retagged, on disk |
| SessionFiles.RunGoesOn | crates/cassetter/src/recorder.rs:48-245 | a run can go on with exactly the steps that are enabled where it ends |
| SessionFiles.ReadOnlyLeavesFile | crates/cassetter/src/recorder_state.rs:46-90 | `none`, `verify`, and `once` with a file, hold back no request for recording and leave the file alone in every run |
| SessionFiles.MissesReserve | crates/cassetter/src/recorder_state.rs:46-90 | in every run a request nothing answers is a miss in those sessions and reserved in any other |
| SessionFiles.Reopened | crates/cassetter/src/recorder_state.rs:46-90 | opening a file for replay gives its recordings, none played |
| SessionFiles.FinishedStays | crates/cassetter/src/recorder.rs:48-62 | from `finish` on nothing more is recorded, reserved or replayed |
| Subsequences.LcsBounds | crates/cassetter/src/compare.rs:316-340 | no common subsequence is longer than `Lcs` |
| Subsequences.LcsAttained | crates/cassetter/src/compare.rs:316-340 | and one is as long |
| Subsequences.LcsTrim | crates/cassetter/src/compare.rs:299-313 | keeping a common prefix and suffix loses nothing |
| EditScript.CommonPrefix | crates/cassetter/src/compare.rs:299-303 | the loop finds the length of the longest common prefix |
| EditScript.LongestPrefix | crates/cassetter/src/compare.rs:299-303 | a prefix is common exactly when it is no longer than that |
| EditScript.CommonSuffix | crates/cassetter/src/compare.rs:304-309 | the loop finds the length of the longest common suffix |
| EditScript.LongestSuffix | crates/cassetter/src/compare.rs:304-309 | a suffix is common exactly when it is no longer than that |
| EditScript.FillTable | crates/cassetter/src/compare.rs:314-327 | each cell of the backward table is the `Lcs` of the two remainders |
| EditScript.WalkTable | crates/cassetter/src/compare.rs:328-340 | the walk is a script from one to the other that keeps `Lcs` lines |
| EditScript.EditTags | crates/cassetter/src/compare.rs:298-346 | the script keeps `Lcs` of the full inputs exactly where what is left after trimming fits the table, and the common ends otherwise |
| EditScript.KeepingMostIsMinimal | crates/cassetter/src/compare.rs:297-364 | no script changes fewer lines |
| EditScript.EditOps | crates/cassetter/src/compare.rs:298-364 | the operations read as the old and new lines, with right line numbers, and keep that many lines |
| EditScript.CellFits | crates/cassetter/src/compare.rs:255-255 | a table within the limit fits its 32-bit cells |
| UnifiedDiff.CollectGroups | crates/cassetter/src/compare.rs:258-266 | the loop computes the groups of changes closer than twice the context |
| UnifiedDiff.GroupsGrouped | crates/cassetter/src/compare.rs:258-266 | groups begin and end with a change, lie far enough apart, and miss no change |
| UnifiedDiff.GroupsTight | crates/cassetter/src/compare.rs:258-266 | among any seven operations of a group one is a change, so more unchanged lines would have parted it |
| UnifiedDiff.HunkContext | crates/cassetter/src/compare.rs:267-278 | a hunk shows three unchanged lines on each side of its changes, or as many as there are |
| UnifiedDiff.PrintHunks | crates/cassetter/src/compare.rs:267-278 | prints one hunk per group |
| UnifiedDiff.RangeExact | crates/cassetter/src/compare.rs:282-288 | a printed range says the exact start and length, also when empty; only a range of one line leaves its length out |
| UnifiedDiff.HunksArePatch | crates/cassetter/src/compare.rs:258-288 | applying the hunks where their headers say turns the old lines into the new, in both branches of the edit script |
| UnifiedDiff.HunksReverse | crates/cassetter/src/compare.rs:258-288 | and in reverse the new lines into the old |
| UnifiedDiff.HunksDisjoint | crates/cassetter/src/compare.rs:258-288 | hunks are ordered and disjoint, and every change lies in one |
| UnifiedDiff.ChangesShown | crates/cassetter/src/compare.rs:258-288 | the hunks show the changed operations themselves: each once, in order, and nothing else as changed |
| UnifiedDiff.Diff | crates/cassetter/src/compare.rs:257-288 | the hunks patch both ways, and show the fewest changed lines possible whenever what is left after trimming fits the table |
| DiffText.Render | crates/cassetter/src/compare.rs:257-288 | the printed lines: file headers, then each hunk's header and lines |
| DiffText.ReadHunkTexts | crates/cassetter/src/compare.rs:257-288 | the printed hunks can be read back exactly |
| DiffText.PrintDiff | crates/cassetter/src/compare.rs:257-288 | the printed text, split into lines and read back, is a patch both ways |
| DiffText.SplitJoined | crates/cassetter/src/compare.rs:279-279 | lines without line breaks, joined with newlines, are split into the same lines |
| TextLines.JoinedLinesIff | crates/cassetter-core/src/cassette/format.rs:173-234 | taking a text apart into lines and joining them gives it back if and only if no line break follows a carriage return or ends the text |
| TextLines.LinesJoinedIff | crates/cassetter-core/src/cassette/format.rs:173-234 | joining lines and taking the text apart gives them back if and only if the last is not empty and no other ends in a carriage return |
| Decimal.ParseDecimal | crates/cassetter/src/compare.rs:282-288 | printed numbers parse back |
| UnifiedDiff.PatchesBothWays | crates/cassetter/src/compare.rs:258-288 | hunks around any groups that miss no change and do not overlap patch both ways |
| TypeScriptDiff.Walk | ts/src/compare.ts:209-221 | with or without a table the walk reads as both texts, and with one it keeps as many lines as the two share |
| TypeScriptDiff.Edits | ts/src/compare.ts:187-222 | the operations read as the full texts, and keep `Lcs` lines whenever what is left after trimming fits the table |
| TypeScriptDiff.NumberedIsScript | ts/src/compare.ts:224-241 | counting the operations before a hunk gives the right line numbers |
| TypeScriptDiff.ListChanges | ts/src/compare.ts:225-225 | the positions of all changes, in order |
| TypeScriptDiff.PrintHunks | ts/src/compare.ts:226-241 | the grouping loop misses no change, its hunks do not overlap, and among any six operations of a group one is a change |
| TypeScriptDiff.Diff | ts/src/compare.ts:187-242 | in the exact and the greedy branch the hunks patch both ways, with their printed numbers exactly when both texts are empty or neither is, and with a table they show the fewest changed lines possible |
| TypeScriptDiff.PrintedExactIff | ts/src/compare.ts:226-241 | the numbers as printed are exact, in either direction, if and only if both texts are empty or neither is |
| TypeScriptDiff.EmptySideIsWhole | ts/src/compare.ts:226-241 | thanks to its context a hunk has an empty side only if that whole text is empty |
| TypeScriptDiff.EmptySideOffByOne | ts/src/compare.ts:233-239 | the failing input: one line inserted into an empty text |
| Tolerance.TolerateIff | crates/cassetter/src/compare.rs:156-191 | `tolerate` returns the recording if and only if shape, keys and non-numeric leaves agree and every number is the same or passes the test, for any test |
| Tolerance.ToleratedAt | crates/cassetter/src/compare.rs:156-191 | place by place, whether or not the rest agrees: a number near the recorded number at its place is shown as recorded, everything else as it is |
| Tolerance.ToleranceIff | crates/cassetter/src/compare.rs:156-198 | with the source's test, integers subtracted exactly and others as doubles, and a tolerance that is not negative: if and only if every number differs from its recording by at most the tolerance and all else agrees |
| Tolerance.ExactDistance | crates/cassetter/src/compare.rs:174-191 | without rounding the test is on the distance of the two numbers, whichever branch subtracts them |
| Tolerance.NoDiffIff | crates/cassetter/src/compare.rs:156-191 | so the canonical text of the tolerated JSON body is that of the recording if and only if the bodies are within tolerance |
| PrettyText.CompactPretty | crates/cassetter/src/compare.rs:214-218 | dropping white space outside strings from the indented text gives the compact text |
| PrettyText.ArrayLayout | crates/cassetter/src/compare.rs:214-218 | an array of two is indented two spaces a level, one item on a line, with the bracket under the line that opened it |
| PrettyText.LinesDecide | crates/cassetter/src/compare.rs:200-240 | the indented lines with sorted keys tell apart exactly the values the canonical text tells apart |
| ResponseDiff.RenderDecides | crates/cassetter/src/compare.rs:200-224 | the rendered lines of two responses are the same if and only if status, header lines, kind of body and body lines are |
| ResponseDiff.HeaderLinesDecide | crates/cassetter/src/compare.rs:208-212 | header lines tell headers apart, as no field name holds a colon |
| ResponseDiff.BytesRead | crates/cassetter/src/compare.rs:221-221 | a binary body reads back from its escaped line |
| ResponseDiff.EscapeByteIs | crates/cassetter/src/compare.rs:221-221 | a byte is printed as itself if printable, by one letter for the common escapes, by two lower-case digits otherwise |
| ComparedHeaders.ComparedDecide | crates/cassetter/src/compare.rs:63-85 | the compared headers are the same if and only if both responses carry the same values in the same order under every name that some listed pattern matches, however their header maps are ordered |
| ComparedHeaders.OneHeader | crates/cassetter/src/compare.rs:63-85 | where one header has a name its values are what is compared under it |
| ComparedHeaders.PrefixSelects | crates/cassetter/src/compare.rs:66-76 | a pattern `p*` selects exactly the names that start with `p`, in any letter case |
| ResponseDiff.BodyLinesDecide | crates/cassetter/src/compare.rs:213-222 | body lines tell bodies of one kind apart, JSON up to the order of keys |
| ResponseDiff.AlikeIff | crates/cassetter/src/compare.rs:34-47 | the rendered responses are the same lines if and only if status, compared headers and kind of body are the same and the bodies are, with numbers within the tolerance and ignored paths dropped |
| ResponseDiff.AgreeIff | crates/cassetter/src/compare.rs:34-47 | the responses agree exactly when the status, the values under every wanted header name, and the bodies do, spelled out by kind |
| ResponseDiff.DiffResponses | crates/cassetter/src/compare.rs:34-47 | no diff if and only if the responses agree so; otherwise a text that patches the one rendered response into the other both ways |
| Tolerance.DropAgreesIff | crates/cassetter/src/compare.rs:123-154 | the comparison ignores what the matcher ignores, on all values, exactly when the empty path is not listed |
| GlobMatching.GlobMatch | crates/cassetter-core/src/security/headers.rs:29-47 | the leftmost-find loop accepts exactly the names backtracking accepts, for all patterns and names |
| GlobMatching.GreedyAgreesIff | crates/cassetter/src/compare.rs:242-252 | the two glob matchers agree on all names exactly when the pattern has no `?` |
| GlobMatching.GlobIff | crates/cassetter/src/compare.rs:242-252 | a pattern matches exactly the texts that fall into one piece for each of its characters: anything for a star, one character for a wild question mark, itself otherwise |
| GlobMatching.PrefixPattern | crates/cassetter/src/compare.rs:242-252 | `p*` matches exactly the texts that start with `p` |
| HeaderFilter.FilterHeaders | crates/cassetter-core/src/security/headers.rs:3-27 | keeps, in order, exactly the headers that stay: in the plain branch those no entry equals up to ASCII case, else those a `!` entry spares or no other names |
| HeaderFilter.StaysIff | crates/cassetter-core/src/security/headers.rs:3-27 | what stays, told from the entries: names up to ASCII case when no entry has a star or a mark, else patterns in lower case where a marked one that hits spares |
| HeaderFilter.PrefixEntryRemoves | crates/cassetter-core/src/security/headers.rs:3-27 | the entry `p*` removes exactly the headers whose names start with `p`, in any letter case |
| HeaderFilter.ExclamationSpares | crates/cassetter-core/src/security/headers.rs:3-27 | an entry `!q` spares the header `q` and no other from an entry that removes everything |
| HeaderFilter.ShortCutAgreesIff | crates/cassetter-core/src/security/headers.rs:9-26 | for plain entries the two branches agree on a name if and only if some entry is the name up to ASCII case whenever some entry is it in lower case |
| HeaderFilter.ShortCutAgrees | crates/cassetter-core/src/security/headers.rs:9-26 | so they agree on ASCII names and entries, whatever the case table |
| HeaderFilter.ShortCutDiffers | crates/cassetter-core/src/security/headers.rs:9-16 | beyond ASCII it need not: the Kelvin sign |
| ReservationOrder.OrderedRecordings | go/record_order.go:5-18 | returns the values in the stable order of their reservations |
| ReservationOrder.OrderedIncreases | go/record_order.go:5-18 | the result is in strictly increasing reservation order and holds the same orders |
| ReservationOrder.OrderedStays | go/transport_state.go:78-96 | a list loaded from the file, numbered by position, is written as it stands |
| ReservationOrder.ArrivalOrderForgotten | go/record_order.go:5-18 | two arrivals of the same recordings under the same orders are written alike |
| GoState.RecordSound | go/transport_record.go:5-39 | a record keeps lists aligned and the index current; a failed save changes no list, flag, order or index entry; a successful one leaves the file current |
| GoState.IndexedChoice | go/transport_state.go:108-139 | looking up the incrementally kept index finds what the full scan finds |
| GoState.CloseLists | go/lifecycle.go:16-65 | what `Close` reports: errors noted, then pending HTTP, gRPC and WebSocket calls each in the order they were reserved, then a failed empty save |
| GoModel.GoTransport.Load | go/transport_state.go:68-96 | the initial lists, orders, counter and index, for a file that is kept or discarded |
| GoModel.GoTransport.TakeMatch | go/transport_state.go:108-139 | returns and marks the earliest eligible recording with the method in any letter case, the normalized URI and whatever else is matched; refuses when closed |
| GoModel.GoTransport.TakeGrpcMatch | go/grpc_state.go:5-28 | the same by gRPC method |
| GoModel.GoTransport.TakeWebSocketMatch | go/websocket_state.go:5-29 | the same by URI, both normalized |
| GoModel.GoTransport.ReserveRecording | go/transport_state.go:141-151 | hands out the next order and keeps it pending; refuses when closed |
| GoModel.GoTransport.ReserveGrpcRecording | go/grpc_state.go:30-41 | the same for gRPC, from the same counter |
| GoModel.GoTransport.ReserveWebSocketRecording | go/websocket_state.go:39-50 | the same for WebSocket, from the same counter |
| GoModel.GoTransport.FinishRecording | go/transport_state.go:153-160 | removes the order from pending and joins the error |
| GoModel.GoTransport.FinishGrpcRecording | go/grpc_state.go:43-50 | the same for gRPC |
| GoModel.GoTransport.FinishWebSocketRecording | go/websocket_state.go:52-59 | the same for WebSocket |
| GoModel.GoTransport.Record | go/transport_record.go:5-39 | build, save, commit: the exact new lists, index and file, or the error and only `saveEmpty` cleared |
| GoModel.GoTransport.RecordGrpc | go/grpc_record.go:5-44 | the same for gRPC, removing the order and joining the error in the same section |
| GoModel.GoTransport.RecordWebSocket | go/websocket_record.go:5-44 | the same for WebSocket |
| GoModel.GoTransport.SaveOutput | go/transport_record.go:17-26 | writes each protocol's list in reservation order, or fails and leaves the file |
| GoModel.GoTransport.Close | go/lifecycle.go:16-65 | joined errors, incomplete recordings by protocol and order, a due empty save; a second call repeats the first answer |
| GoModel.ReportIncomplete | go/lifecycle.go:28-37 | sorting the pending keys reports each once, lowest order first, however the map yields them |
| GoSessions.TransportInvariant | go/transport_record.go:5-39 | in every run mixing the protocols: lists aligned, index as built afresh, every order accounted for, file current once anything was recorded |
| GoSessions.AtMostOnce | go/transport_state.go:108-139 | while recording, a loaded recording answers at most once and one of this session never, in each protocol |
| GoSessions.CloseReports | go/lifecycle.go:16-65 | `Close` reports nothing exactly when no error was noted, every call finished and a due empty save succeeded |
| GoSessions.CleanClose | go/lifecycle.go:16-65 | when `Close` reports nothing, every order belongs to a call that was recorded or never tried to be, and the file is current |
| GoReplay.ReplaysInTurn | go/transport_state.go:108-139 | a transport that loads a file and is asked for each protocol's recordings in turn, the protocols interleaved at will, answers each request with its own recording |
| GoReplay.CleanCloseReplays | go/lifecycle.go:16-65 | after a clean close a fresh transport over the saved file, asked in reservation order, gives each recording in turn |
| GoReplay.OwnRequestAsks | go/transport_state.go:108-139 | a recorded request, as it is compared, asks for its own recording wherever the other matchers accept a request against itself |
| GoFiles.RecordingsKept | go/transport_record.go:5-39 | in every run each cleanly recorded call's recording stands, scrubbed, under its order, and the lists begin as loaded |
| GoFiles.FileHoldsCalls | go/lifecycle.go:16-65 | after a clean close the file holds what was loaded, first and as it was, and every recording the calls handed in, scrubbed, in the order the calls were reserved |
| GoFiles.CallsReplay | go/transport_state.go:108-139 | every call's request, asked of a fresh transport when its turn comes, is answered by the entry that holds the call's own recording |
| GoFiles.EmptySaveDue | go/transport_record.go:22-26 | a file to be discarded is emptied on closing if no call tried to record; otherwise closing leaves it alone |
| GoFiles.ClosedStays | go/lifecycle.go:17-64 | once closed a transport answers, reserves and records nothing more, and its first answer stays |
| GoFiles.CloseRepeats | go/lifecycle.go:22-26 | closing again changes nothing and gives the first answer |
| NormalizedMirror.SavingKeepsNormalizedReplay | src/cassetter/cassette.py:404-428 | with the pairs in order, ordering by the normalized mirror, saving and loading changes no answer of a normalizing session |
| NormalizedMirror.SavedIgnoresArrival | src/cassetter/cassette.py:561-577 | any two arrival orders of the same claimed recordings are saved alike |
| NormalizedMirror.MirrorOfSaved | src/cassetter/cassette.py:349-361 | the mirror of the saved file is the mirror in its own write order |
| NormalizedMirror.AlikeUrisShare | src/cassetter/cassette.py:449-495 | requests whose URIs normalize alike get the same recording, and one made for another such URI can answer |
| RecordOrders.RunNumbered | src/cassetter/cassette.py:325-335 | in every run in which a claimed order is used at most once, no two recordings share an order and no order still claimed was used |
| RecordOrders.RunGoesOn | src/cassetter/cassette.py:325-335 | a run can go on with any claim and any record, under an order exactly while it is claimed and not used |
| RecordOrders.RecordedStands | src/cassetter/cassette.py:325-335 | in every run loaded interactions keep their places as orders, each recorded one stands under the order claimed for it, and orders are handed out one after another |
| RecordOrders.RunsSaveAlike | src/cassetter/cassette.py:404-428 | two runs from one file that entered the same interactions under the same orders are saved alike, however responses came back |
| PythonModel.PythonCassette.Load | src/cassetter/cassette.py:286-323 | recordings keep their position as order, nothing is played, the mirror is the normalized copy, and the discarding modes start empty and due to be saved |
| PythonModel.PythonCassette.ReserveRecordOrder | src/cassetter/cassette.py:325-335 | hands out the next order, as runs of claims see it |
| PythonModel.PythonCassette.Match | src/cassetter/cassette.py:449-495 | the answer is the earliest eligible recording that matches once both URIs are normalized; it is marked and counted |
| PythonModel.PythonCassette.Record | src/cassetter/cassette.py:561-577 | appends to cassette, orders and mirror together; without a claimed order takes the next |
| PythonModel.PythonCassette.Observe | src/cassetter/cassette.py:581-601 | an observed request is kept to compare in `verify`, stored and due to be saved when recording, else ignored |
| PythonModel.PythonCassette.Save | src/cassetter/cassette.py:404-428 | writes when dirty and not both empty and new, observed requests included, in the mirror's order |
| WebSocketModel.VcrWebSocketReplay.constructor | src/cassetter/intercept/_websockets.py:111-142 | the loop splits the frames before the first received close into sends, receives and send counts |
| WebSocketModel.VcrWebSocketReplay.Send | src/cassetter/intercept/_websockets.py:144-163 | accepts the next recorded send, ignores it when not strict or skipped, else says why not |
| WebSocketModel.VcrWebSocketReplay.Receive | src/cassetter/intercept/_websockets.py:165-183 | waits for the sends recorded before the frame, delivers the next, or ends as the recording ends; a close body too short or not UTF-8 is an error and changes nothing |
| WebSocketModel.VcrWebSocketReplay.Close | src/cassetter/intercept/_websockets.py:193-207 | ends an open connection and strictly complains about unsent frames |
| WebSocketScript.CountsGrow | src/cassetter/intercept/_websockets.py:116-128 | one send count per received frame, never decreasing, never above the number of sends |
| WebSocketScript.Positions | src/cassetter/intercept/_websockets.py:116-128 | the count of a received frame is the number of sends before it in the recording |
| WebSocketScript.LiveIs | src/cassetter/intercept/_websockets.py:116-127 | the script is made of the frames before the first close received, which is how the recording ends |
| WebSocketScript.SameFrameIff | src/cassetter/intercept/_websockets.py:154-158 | frames match when type and content do |
| WebSocketScript.RecordedEndingIs | src/cassetter/intercept/_websockets.py:171-180 | a recorded close is a two-byte status, high byte first, and a reason; too short or not UTF-8 is an error; without one the stream ends with status 1000 |
| WebSocketScript.Utf8Iff | src/cassetter/intercept/_websockets.py:180-180 | bytes decode exactly when they are some characters in UTF-8 (RFC 3629) |
| WebSocketScript.ReplayFollowsRecording | src/cassetter/intercept/_websockets.py:144-207 | whatever a client does, accepted sends and delivered frames are prefixes of the recording, counts are read in range, and strictly no frame precedes a send recorded before it |
| WebSocketScript.SendAnswered | src/cassetter/intercept/_websockets.py:144-163 | on an open connection a send is ignored when loose or skipped, and strictly accepted exactly when it has the type and content of the recorded send that comes next |
| WebSocketScript.ReceiveAnswered | src/cassetter/intercept/_websockets.py:165-191 | on an open connection a client receives the next recorded frame, strictly not before the sends recorded before it, and after the last frame the recorded ending |
| WebSocketScript.RecordedClientSucceeds | src/cassetter/intercept/_websockets.py:104-207 | a client following the recording never waits or fails, and may close with nothing unsent or receive the recorded close |
| WebSocketScript.CloseSucceedsIff | src/cassetter/intercept/_websockets.py:193-199 | closing ends an open connection with the client's code and reason; strictly it succeeds exactly when every recorded send was accepted and else tells how many are missing; a loose close always succeeds |
| WebSocketScript.EndedStays | src/cassetter/intercept/_websockets.py:144-207 | once the connection has ended nothing happens any more, and everything the client tries is told the first ending |
| BinaryScalars.ExtractBinaryScalars | crates/cassetter-core/src/cassette/format.rs:174-234 | the scan returns the rewritten lines and payloads that the pieces of the lines determine |
| BinaryScalars.ExtractFromText | crates/cassetter-core/src/cassette/format.rs:165-235 | the function on text, early return included: the payloads are those of the scan over all lines either way |
| BinaryScalars.TagOnOneLine | crates/cassetter-core/src/cassette/format.rs:166-170 | a text holds the tag if and only if one of its lines does |
| BinaryScalars.EarlyReturnAgreesIff | crates/cassetter-core/src/cassette/format.rs:166-170 | the early return gives the text the scan would give if and only if no line break follows a carriage return or ends the text |
| BlockScalars.Extract | crates/cassetter-core/src/cassette/format.rs:174-234 | the nested line loops, for any kind of line |
| BlockScalars.ScanBody | crates/cassetter-core/src/cassette/format.rs:183-204 | takes the deeper and blank lines of a block but leaves trailing blank lines, and joins the trimmed text |
| BlockScalars.BinaryFirst | crates/cassetter-core/src/cassette/format.rs:183-213 | a binary block is one piece: its blank and deeper lines up to the last that is not blank; blank lines after it are read on as text |
| BlockScalars.CopiedVerbatim | crates/cassetter-core/src/cassette/format.rs:217-229 | lines of any other block scalar stand in the output as in the input, whatever they look like |
| BlockScalars.BlockFirst | crates/cassetter-core/src/cassette/format.rs:217-229 | a block scalar that is not binary is one piece: the blank and deeper lines after its header, whatever they look like |
| BlockScalars.CopyBody | crates/cassetter-core/src/cassette/format.rs:217-229 | copies exactly the blank and deeper lines after a block scalar's header |
| BinaryScalars.SentinelResolves | crates/cassetter-core/src/cassette/format.rs:127-136 | reading a sentinel gives back its number |
| Decimal.ParseIff | crates/cassetter-core/src/cassette/format.rs:131-136 | a sentinel number is digits and nothing else, after at most one plus sign |
| BinaryScalars.EachLineOnce | crates/cassetter-core/src/cassette/format.rs:165-235 | each line is copied or belongs to exactly one replaced block |
| BinaryScalars.SentinelsResolve | crates/cassetter-core/src/cassette/format.rs:127-136 | sentinels count up from 0 in order, and each resolves to its block's payload |
| BinaryScalars.PyYamlBlock | crates/cassetter-core/src/cassette/format.rs:165-235 | a binary block as PyYAML writes it is decoded from its indented chunks and replaced by one line that keeps what introduced it; what follows, blank lines first, is read on as if it stood alone |
| BinaryScalars.OpensIs | crates/cassetter-core/src/cassette/format.rs:142-154 | `|` or `>` after white space or at the start, with digits and signs after it, and nothing else opens a block scalar |
| BinaryScalars.SecondPassChangesNothing | crates/cassetter-core/src/cassette/format.rs:165-235 | a second pass over the output changes and extracts nothing |
| BinaryScalars.UntaggedPasses | crates/cassetter-core/src/cassette/format.rs:166-170 | the early return for text without the tag agrees with the scan |
| BinaryScalars.HeaderOpensBlock | crates/cassetter-core/src/cassette/format.rs:142-154 | a binary header that does not decode is copied as the block scalar it also opens |
| PatchChains.ActiveFetch | ts/src/intercept/fetch.ts:16-24 | the walk ends at the nearest active patch below, or at the original |
| PatchChains.InstallPushes | ts/src/intercept/fetch.ts:30-34 | installing puts the patch on top of its name's active stack and leaves other names alone |
| PatchChains.UninstallRemoves | ts/src/intercept/fetch.ts:93-107 | uninstalling in any order takes exactly that patch out of its stack: lazy deletion refines removal from a list |
| PatchChains.PatchesNeverStrand | ts/src/intercept/fetch.ts:30-107 | after any installs and uninstalls a name refers to an active patch or its original, all its active patches are reachable, and the original is back exactly when none is active |
| PatchChains.RunGoesOn | ts/src/intercept/fetch.ts:30-107 | at any time any name can be patched and any patch taken out |
| PatchChains.LiveRequestsSkipInactive | ts/src/intercept/http.ts:50-56 | an active patch's live requests reach the next active patch, then the original |
| Interceptors.Functions.Patch | ts/src/intercept/fetch.ts:31-34 | replaces the function a name refers to by a new active patch over it |
| Interceptors.Functions.Unpatch | ts/src/intercept/fetch.ts:97-103 | switches a patch off, and if it was on top restores the nearest active function |
| Interceptors.FetchInterceptor.Install | ts/src/intercept/fetch.ts:30-91 | patches the current function and owns the new patch, forgetting an earlier one |
| Interceptors.FetchInterceptor.Uninstall | ts/src/intercept/fetch.ts:93-107 | switches its patch off and restores the nearest active function if it was on top |
| Interceptors.HttpInterceptor.Install | ts/src/intercept/http.ts:47-76 | patches every name and adds the patches to those it holds |
| Interceptors.HttpInterceptor.Uninstall | ts/src/intercept/http.ts:78-88 | switches off every patch it holds |
| Interceptors.UninstallAllRemoves | ts/src/intercept/http.ts:78-88 | that takes exactly these patches out of every stack |

## Left out

- YAML, TOML and JSON parsing and printing, file permissions, temporary files and renames: a save is an atomic write that may fail.
- Decompression, Unicode normalization, regular expressions and unstructured scrubbing: scrubbing is a parameter.
- Client plumbing (httpx, aiohttp, urllib3, reqwest, tonic, gRPC and WebSocket dialing), bindings, the pytest plugin, command lines, benchmarks.
- Wall-clock expiry, configuration merging, default lists, error wording and `describe`.
- Lock fairness and scheduling: each critical section is one atomic step, and any enabled step may come next.
- A lock poisoned by a panic in the Rust recorder; no panic is modelled.
- WebSocket take and add methods of the Rust cassette, and gRPC matching by method alone: they repeat `TakeMatch` without an index.
- The greedy branch of the TypeScript diff promises no minimality, and none is stated.
- Comparing observed requests in verify mode, and those of the Rust cassette other than as part of a Python save.
- The TypeScript `tolerate` and `sortKeys`, which repeat the Rust ones, and its `dropPaths`, which tests the path on entry and so repeats the matcher's `filter_json_paths`.
- Other code that reassigns `fetch` between installs; only interceptors patch in `PatchChains.dfy`.
- Final sigma and other context-dependent case mapping; the tables map one character at a time.
- Content-length retagging, length-prefix framing, hex and record-mode tables beyond what the recorder needs.
- ResponseDiff.DiffResponses: the hook that may rewrite both responses first, and the reading of server-sent events, which is a parameter.
- Tolerance.NoDiffIff: about the JSON body and its canonical text; `ResponseDiff.AlikeIff` is about the whole rendered response.
- EditScript.FillTable: uses a two-dimensional array where the source indexes a flat vector, so the index arithmetic is not modelled.
- GoModel.GoTransport.Record: states the changed fields one by one instead of preserving `Valid`; `GoState.RecordSound` shows the new state is sound.
- GoModel.GoTransport.RecordGrpc: the same.
- GoModel.GoTransport.RecordWebSocket: the same.
- WebSocketModel.VcrWebSocketReplay.Receive: `Waits` stands for a suspended call, which is asked again after a send or close; no task ever holds the condition's lock across a suspension, so a send is one step.
- PythonModel.PythonCassette.Match: the mirror's take and the inner cassette's mark are one step.
- BinaryScalars.SentinelsResolve: sentinel numbers are unbounded where the source parses a machine word.
