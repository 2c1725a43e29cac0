# AppSec HTTP span tags — Dafny model

This project models the tag writer of the AppSec HTTP instrumentation of
dd-trace-go (`internal/appsec/dyngo/instrumentation/httpinstr/tags.go`):

- the package-level allow-list `collectedHTTPHeaders` (19 entries, `"forwarded"`
  listed twice), filled in declaration order and sorted in place by the package
  `init` with `sort.Strings`;
- `normalizeHTTPHeaders`, which keeps the request headers whose name is found
  by `sort.SearchStrings` in that sorted array, joins each kept header's values
  with `","` (`strings.Join`), and returns nil instead of an empty map;
- `setEventSpanTags`, which serialises the envelope `{"triggers": events}` and,
  unless that fails, writes the four security-event tags on the span;
- `setSpanTags`, which writes the event tags, then `network.client.ip`, then one
  `http.request.headers.<name>` tag per normalised header.

Files and modules:

- `string_order.dfy`, module `StringOrder`: Go's `<=` on strings (byte-wise
  lexicographic, each byte read as one `char`), proved a total order; `sort.Strings` as an
  in-place insertion sort on an `array<string>`; `sort.SearchStrings` as Go's
  bisection; the lemma that the membership test on the search index is exactly
  sequence membership, duplicates included.
- `strings.dfy`, module `Strings`: `strings.Join` and, as its inverse, a
  one-character `Split`, with the round trip proved.
- `http_instr.dfy`, module `HttpInstr`: the allow-list as a class whose array the
  `Init` method sorts in place; `NormalizeHTTPHeaders` as a loop over the header
  map proved against the reference definition `Normalized`; the span as a class
  holding `map<string, TagValue>` with a `SetTag` method; `SetEventSpanTags`,
  `SetSpanTags` and its header loop `SetHeaderTags`, each proved to leave the
  span holding a function of its old tags (`EventTagsWritten`,
  `RequestTagsWritten`, `HeaderTagsWritten`); lemmas that state which keys these
  writes touch and which they leave alone.

Go map iteration order is not modelled: both loops over maps pick the next key
with `:|`, so every order is covered and only the final state is specified.
`json.Marshal` is a parameter `marshal: EventTag -> Result<string>`, so the
contracts hold for every serialiser, failing or not. The normaliser's
contracts speak of `allow.declared`, the entries the allow-list object was
declared with; `CollectedHeaders` builds the package's object and ensures
`declared == CollectedHTTPHeaders`.

`collectedHTTPHeaders` declares 19 entries. `"forwarded"` appears twice
(tags.go lines 57 and 64), so the sorted array holds 18 distinct names and is
only non-strictly sorted. The model keeps the duplicate, and the search lemma
is proved for sorted arrays that may hold duplicates.

## Model

| member | source | states |
|---|---|---|
| `StringOrder.LessEq` | internal/appsec/dyngo/instrumentation/httpinstr/tags.go:73-83 | Go's lexicographic `<=` on strings, by which the allow-list is sorted and searched: a proper prefix comes first, and only the empty string is `<=` the empty string |
| `StringOrder.LessEqTransitive` | internal/appsec/dyngo/instrumentation/httpinstr/tags.go:73 | Go's string `<=`, used to sort the allow-list, is transitive |
| `StringOrder.LessEqAntisymmetric` | internal/appsec/dyngo/instrumentation/httpinstr/tags.go:73 | two strings each `<=` the other are equal |
| `StringOrder.LessEqTotal` | internal/appsec/dyngo/instrumentation/httpinstr/tags.go:73 | any two strings are comparable |
| `StringOrder.LessEqReflexive` | internal/appsec/dyngo/instrumentation/httpinstr/tags.go:73 | every string is `<=` itself |
| `StringOrder.SortStrings` | internal/appsec/dyngo/instrumentation/httpinstr/tags.go:73 | after the in-place sort the array is sorted and a permutation of its old contents |
| `StringOrder.Swap` | internal/appsec/dyngo/instrumentation/httpinstr/tags.go:73 | the sort's exchange step swaps two elements and keeps the array's contents as a multiset |
| `StringOrder.SortedPermutationUnique` | internal/appsec/dyngo/instrumentation/httpinstr/tags.go:73 | two sorted sequences with the same elements are equal, so every correct sort leaves the same array |
| `StringOrder.SearchStrings` | internal/appsec/dyngo/instrumentation/httpinstr/tags.go:83 | on a sorted array the result `i` lies in `0..len` and is the lowest index whose element is `>= x` |
| `StringOrder.SearchIndexMembership` | internal/appsec/dyngo/instrumentation/httpinstr/tags.go:83 | for that index, `i < len && list[i] == x` holds exactly when `x` is in the list, also with duplicate entries |
| `Strings.Join` | internal/appsec/dyngo/instrumentation/httpinstr/tags.go:84 | joining nothing gives `""`; otherwise the length is the elements' total length plus one separator between each pair |
| `Strings.SplitJoin` | internal/appsec/dyngo/instrumentation/httpinstr/tags.go:84 | values without `,` come back unchanged when their join is split at `,`: nothing is trimmed or escaped and the order is kept |
| `Strings.JoinExample` | internal/appsec/dyngo/instrumentation/httpinstr/tags.go:84 | `["a", "b"]` joins to `"a,b"` |
| `HttpInstr.HeaderAllowList.constructor` | internal/appsec/dyngo/instrumentation/httpinstr/tags.go:49-69 | the array holds the declared entries in declaration order |
| `HttpInstr.HeaderAllowList.Init` | internal/appsec/dyngo/instrumentation/httpinstr/tags.go:71-74 | `init` leaves the array sorted and holding the declared entries |
| `HttpInstr.NewAllowList` | internal/appsec/dyngo/instrumentation/httpinstr/tags.go:49-74 | an allow-list declared with some entries and then sorted by `init` is sorted and holds exactly those entries |
| `HttpInstr.CollectedHeaders` | internal/appsec/dyngo/instrumentation/httpinstr/tags.go:49-74 | after start-up the allow-list is a sorted permutation of the 19 declared entries |
| `HttpInstr.NormalizeHTTPHeaders` | internal/appsec/dyngo/instrumentation/httpinstr/tags.go:77-91 | empty input gives absent; absent exactly when no input key is allow-listed; a present result is non-empty, has exactly the allow-listed input keys (exact, case-sensitive match) and maps each to its values joined with `","`; equals the reference `Normalized` |
| `HttpInstr.NormalizedAt` | internal/appsec/dyngo/instrumentation/httpinstr/tags.go:82-85 | a header is in the reference result exactly when it is sent and allow-listed, and then holds its joined values |
| `HttpInstr.NormalizeKeepsOnlyCollected` | internal/appsec/dyngo/instrumentation/httpinstr/tags.go:82-85 | `{"user-agent": ["x"], "x-unknown": ["y"]}` normalises to `{"user-agent": "x"}` |
| `HttpInstr.NormalizeIsCaseSensitive` | internal/appsec/dyngo/instrumentation/httpinstr/tags.go:83 | a header `"Host"` is not matched by the entry `"host"`, so the result is absent |
| `HttpInstr.Span.constructor` | internal/appsec/dyngo/instrumentation/httpinstr/tags.go:40 | the span handed to `setSpanTags` starts with the caller's tags |
| `HttpInstr.Span.SetTag` | internal/appsec/dyngo/instrumentation/httpinstr/tags.go:31 | a tag write replaces or adds one key and changes nothing else |
| `HttpInstr.EventTagsWritten` | internal/appsec/dyngo/instrumentation/httpinstr/tags.go:26-36 | on a serialisation error the tags are unchanged; on success exactly the four event keys are added, with the envelope, `true`, `"appsec"` and `true`, and every other tag keeps its value |
| `HttpInstr.SetEventSpanTags` | internal/appsec/dyngo/instrumentation/httpinstr/tags.go:19-37 | the span's tags become `EventTagsWritten` of the old tags and the outcome of serialising `{"triggers": events}` |
| `HttpInstr.HeaderTagKey` | internal/appsec/dyngo/instrumentation/httpinstr/tags.go:44 | the tag key is in the `http.request.headers.` namespace and the header name can be read back from it |
| `HttpInstr.HeaderNameKey` | internal/appsec/dyngo/instrumentation/httpinstr/tags.go:44 | every key in that namespace is the tag key of exactly the name after the prefix |
| `HttpInstr.HeaderTagMapAt` | internal/appsec/dyngo/instrumentation/httpinstr/tags.go:43-45 | the header tags written hold a key exactly when it is the tag of a written header, with that header's value |
| `HttpInstr.HeaderTagMapAdd` | internal/appsec/dyngo/instrumentation/httpinstr/tags.go:43-45 | writing one more header's tag, in any order, extends the header tags already written |
| `HttpInstr.SetHeaderTags` | internal/appsec/dyngo/instrumentation/httpinstr/tags.go:43-45 | ranging over the normalised map in any order writes one tag per header on top of the old tags; nothing when the map is absent |
| `HttpInstr.SetSpanTags` | internal/appsec/dyngo/instrumentation/httpinstr/tags.go:40-46 | the span's tags become `RequestTagsWritten`: event tags, then the client IP, then the header tags of the normalised headers |
| `HttpInstr.HeaderTagsWrittenAt` | internal/appsec/dyngo/instrumentation/httpinstr/tags.go:43-45 | the header loop changes a key exactly when it is the tag of a normalised header |
| `HttpInstr.ClientIPAlwaysWritten` | internal/appsec/dyngo/instrumentation/httpinstr/tags.go:41-42 | `network.client.ip` ends up holding the remote IP whether or not serialisation failed and whatever headers survive |
| `HttpInstr.EventTagsWrittenOnSuccess` | internal/appsec/dyngo/instrumentation/httpinstr/tags.go:31-45 | on successful serialisation the four event tags keep their values through the later client-IP and header writes |
| `HttpInstr.HeaderTagPerCollectedHeader` | internal/appsec/dyngo/instrumentation/httpinstr/tags.go:43-45 | every sent, allow-listed header gets its `http.request.headers.` tag holding its values joined with `","` |
| `HttpInstr.RequestTagsFrame` | internal/appsec/dyngo/instrumentation/httpinstr/tags.go:40-46 | every other key keeps its presence and value: not an event key (any key when serialisation fails), not the client IP, not the tag of a sent, allow-listed header |
| `HttpInstr.NoTagForUncollectedHeader` | internal/appsec/dyngo/instrumentation/httpinstr/tags.go:43-45 | a header that is not allow-listed gets no tag: its tag key keeps whatever it held |
| `HttpInstr.ExampleRequestTagsWritten` | internal/appsec/dyngo/instrumentation/httpinstr/tags.go:40-46 | for a request from `203.0.113.7` sending `user-agent` and `x-unknown`, against any allow-list holding the first and not the second: the client IP and `user-agent` tags are written, no `x-unknown` tag is, and `appsec.event` is set exactly when serialisation succeeds |
| `HttpInstr.TagExampleRequest` | internal/appsec/dyngo/instrumentation/httpinstr/tags.go:40-91 | the same request run through the package allow-list after `init`, a fresh span and `SetSpanTags`: the same four facts about the resulting tags |

## Left out

- `json.Marshal` of the envelope (line 26) is a function parameter: the standard library's validation and compaction of `json.RawMessage` is not part of this model, so the serialised text is whatever the parameter returns.
- `log.Error` on a serialisation failure (line 28) is a diagnostic sink with no effect on the tags; it is not modelled.
- The span is an abstract tag map. The tracer's real `ddtrace.Span` is not part of this model; it treats some keys specially (for instance it turns `ext.ManualKeep` into a sampling decision), and the model records every write as a plain tag.
- `ext.ManualKeep` is taken as `"manual.keep"`, its value in the tracer's `ext` package, which is not part of this model; the proofs only need it to differ from the other keys.
- Go's map iteration order (lines 43 and 82) is not fixed: the loops choose keys in any order and the contracts state only the final state.
- `HttpInstr.HeaderAllowList.Init`: the sort is modelled as an insertion sort, not Go's pattern-defeating quicksort; `SortedPermutationUnique` shows the resulting array is the same.
- Concurrency: the thread-safety of `SetTag` and the start-up ordering of `init` are not modelled; every use of the allow-list requires it to be sorted already (`Valid()`).
- Go strings are byte sequences; the model reads each byte as one `char` below 256, so byte order is `char` order and `Join` and `Split` work byte by byte. Header names and values that are not valid UTF-8 are covered this way; no encoding or decoding step is modelled.
