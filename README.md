# TrailSnap core in Dafny

TrailSnap is an Android app for browsing hiking trails. This project models its
two pieces of behaviour, which are independent of the UI:

- **Trail search** (`TrailsRepository`). The repository holds a fixed, ordered
  catalog of fifteen `Trail(id, name, difficulty)` records. `getAllTrails`
  returns the catalog. `searchTrails(query, filter)` works in two stages:
  - A non-blank query keeps the trails whose name contains it, ignoring case.
  - A present, non-blank filter then keeps the trails whose difficulty equals
    it, ignoring case.

  This part is pure. It is modelled as functions over `seq<Trail>`
  (`trails.dfy`), on top of:
  - Kotlin's text predicates `isBlank`, `equals(ignoreCase)` and
    `contains(ignoreCase)` (`text.dfy`);
  - Kotlin's list `filter` (`sequences.dfy`).

  The concrete searches over the shipped catalog are in `search_examples.dfy`.
- **Telemetry gating** (`TelemetryClient`). `init` enables the client only when
  neither the API key nor the dataset name is still its placeholder. Once
  enabled, it sends a `startup` event. `trackEvent` does nothing while the
  client is disabled. Otherwise it builds a JSON payload (`event_type` plus
  every attribute) and posts it to `apiHost/1/events/datasetName` with the
  `X-Honeycomb-Team` header.

  This part is imperative. It is modelled as a class `TelemetryClient` with the
  fields `initialized` and `outbox` (`telemetry.dfy`). The asynchronous HTTP
  send is replaced by appending the request to `outbox`.

`searchTrails` is a Dafny function, so it cannot change the catalog, and two
calls with the same arguments give equal results.

## Model

| member | source | states |
|---|---|---|
| Text.IsWhitespace | app/src/main/java/com/honeycomb/trailsnap/repository/TrailsRepository.kt:44 | Definition: Kotlin `Char.isWhitespace`, meaning tab, line feed, vertical tab, form feed, carriage return, the four information separators, and every Unicode space, line and paragraph separator. |
| Text.IsBlank | app/src/main/java/com/honeycomb/trailsnap/repository/TrailsRepository.kt:44 | Definition: `isBlank` holds when every character is whitespace, so the empty string is blank. `isNotBlank` on line 54 is its negation. |
| Text.CharEqualsIgnoreCase | app/src/main/java/com/honeycomb/trailsnap/repository/TrailsRepository.kt:56 | Definition: Kotlin `Char.equals(ignoreCase = true)`. The characters are equal, or their upper-case forms are equal, or the lower-case forms of their upper-case forms are equal. |
| Text.CharEqualsIgnoreCaseIsLowerEquality | app/src/main/java/com/honeycomb/trailsnap/repository/TrailsRepository.kt:56 | Two characters are equal ignoring case exactly when their lower-case forms are equal. |
| Text.EqualsIgnoreCase | app/src/main/java/com/honeycomb/trailsnap/repository/TrailsRepository.kt:56 | Definition: `equals(other, ignoreCase = true)` holds for strings of the same length whose characters are pairwise equal ignoring case. |
| Text.EqualsIgnoreCaseIsLowerEquality | app/src/main/java/com/honeycomb/trailsnap/repository/TrailsRepository.kt:56 | Two strings are equal ignoring case exactly when their lower-cased forms are equal. |
| Text.IndexOfIgnoreCase | app/src/main/java/com/honeycomb/trailsnap/repository/TrailsRepository.kt:48 | The `indexOf(ignoreCase)` scan behind `contains`. It returns the first offset at or after `from` where the query matches, ignoring case. `None` means there is no match at any offset from `from` on. |
| Text.ContainsIgnoreCase | app/src/main/java/com/honeycomb/trailsnap/repository/TrailsRepository.kt:48 | `name.contains(query, ignoreCase = true)` holds exactly when the query occurs at some offset of the name, comparing characters ignoring case. |
| Sequences.Filter | app/src/main/java/com/honeycomb/trailsnap/repository/TrailsRepository.kt:47-57 | Kotlin `filter` is no longer than its input. Every element it returns is in the input and satisfies the predicate. Every input element that satisfies the predicate is returned. |
| Sequences.KeptIndices | app/src/main/java/com/honeycomb/trailsnap/repository/TrailsRepository.kt:47-57 | The positions that satisfy the predicate, strictly increasing and all within the input. A position is listed exactly when its element satisfies the predicate. |
| Sequences.FilterSelects | app/src/main/java/com/honeycomb/trailsnap/repository/TrailsRepository.kt:47-57 | `filter` returns the input's elements at exactly the satisfying positions, in their original order. It is an order-preserving subsequence. |
| Sequences.FilterFilter | app/src/main/java/com/honeycomb/trailsnap/repository/TrailsRepository.kt:47-57 | Filtering twice in a row is one filter by the conjunction of the two predicates. |
| Sequences.IncreasingDeterminedByElements | app/src/main/java/com/honeycomb/trailsnap/repository/TrailsRepository.kt:43-62 | Two strictly increasing position lists with the same members are equal. Given the set of selected positions, this fixes what the search returns. |
| TrailsRepository.GetAllTrails | app/src/main/java/com/honeycomb/trailsnap/repository/TrailsRepository.kt:11-34 | Definition: `getAllTrails` returns the fifteen catalog records in declaration order. |
| TrailsRepository.CatalogWellFormed | app/src/main/java/com/honeycomb/trailsnap/repository/TrailsRepository.kt:11-34 | `getAllTrails` returns fifteen trails. The trail at position i has id i+1, so the ids are pairwise distinct. Every name is non-empty, and every difficulty is Easy, Moderate or Hard. |
| TrailsRepository.Search | app/src/main/java/com/honeycomb/trailsnap/repository/TrailsRepository.kt:43-62 | A blank query with an absent or blank filter returns the catalog unchanged. |
| TrailsRepository.SearchTrails | app/src/main/java/com/honeycomb/trailsnap/repository/TrailsRepository.kt:44-54 | Over the shipped catalog, a blank query with an absent or blank filter returns `getAllTrails()` exactly. |
| TrailsRepository.SearchIsOneFilter | app/src/main/java/com/honeycomb/trailsnap/repository/TrailsRepository.kt:43-62 | The two-stage search equals a single filter of the catalog by the per-trail selection predicate: the query is blank or occurs in the name, and the filter is absent, blank or equal to the difficulty. |
| TrailsRepository.SearchSelects | app/src/main/java/com/honeycomb/trailsnap/repository/TrailsRepository.kt:43-62 | The result is the catalog's trails at strictly increasing positions. A position is used exactly when its trail is selected, so nothing is added or re-ordered. |
| TrailsRepository.SearchMembership | app/src/main/java/com/honeycomb/trailsnap/repository/TrailsRepository.kt:44-59 | Soundness and completeness: a trail is in the result exactly when it is in the catalog and selected. |
| TrailsRepository.SearchAt | app/src/main/java/com/honeycomb/trailsnap/repository/TrailsRepository.kt:43-62 | If the selected positions are a given increasing list, the result has that length and holds the catalog's trails at those positions. |
| SearchExamples.HardSelectsFiveTrails | app/src/main/java/com/honeycomb/trailsnap/repository/TrailsRepository.kt:11-59 | `searchTrails("", "hard")` is the trails with ids 1, 4, 8, 11 and 14, in that order. |
| SearchExamples.PrefixOfDifficultySelectsNothing | app/src/main/java/com/honeycomb/trailsnap/repository/TrailsRepository.kt:11-59 | `searchTrails("", "Har")` is empty, because the difficulty test is whole-string equality. |
| SearchExamples.EagleSelectsEaglePeakOnly | app/src/main/java/com/honeycomb/trailsnap/repository/TrailsRepository.kt:11-50 | `searchTrails("eagle", null)` is exactly [Trail 1 "Eagle Peak Trail"], because name matching ignores case. |
| SearchExamples.UnmatchedQuerySelectsNothing | app/src/main/java/com/honeycomb/trailsnap/repository/TrailsRepository.kt:11-50 | `searchTrails("zzz_no_match", null)` is empty. |
| SearchExamples.EagleOnlyInFirstName | app/src/main/java/com/honeycomb/trailsnap/repository/TrailsRepository.kt:11-27 | Of the catalog's names, only the first contains "eagle" ignoring case. |
| Telemetry.IsConfigured | app/src/main/java/com/honeycomb/trailsnap/telemetry/TelemetryClient.kt:57-58 | Definition: `init`'s check passes when the API key is not `YOUR_API_KEY_HERE` and the dataset name is not `YOUR_DATASET_NAME_HERE`. |
| Telemetry.EventsUrl | app/src/main/java/com/honeycomb/trailsnap/telemetry/TelemetryClient.kt:108 | Definition: the request URL is `apiHost + "/1/events/" + datasetName`. |
| Telemetry.Put | app/src/main/java/com/honeycomb/trailsnap/telemetry/TelemetryClient.kt:99-105 | One `JSONObject.put` fails exactly on a non-finite number. Otherwise it leaves every other key as it was, removes the key for `null`, and maps the key to the value for anything else. |
| Telemetry.Payload | app/src/main/java/com/honeycomb/trailsnap/telemetry/TelemetryClient.kt:99-105 | The payload's keys are the non-null attributes plus `event_type` when no attribute overrides it. Every non-null attribute keeps its value. `event_type` maps to the event name unless an attribute named `event_type` overrides it. |
| Telemetry.PutNextAttribute | app/src/main/java/com/honeycomb/trailsnap/telemetry/TelemetryClient.kt:102-104 | Putting one more attribute onto the payload of the attributes put so far gives the payload of those attributes plus that one. The order in which attributes are put does not matter. |
| Telemetry.BuildPayload | app/src/main/java/com/honeycomb/trailsnap/telemetry/TelemetryClient.kt:99-105 | The `put` loop succeeds exactly when every attribute value is serializable. On success it yields `Payload(name, attributes)`. |
| Telemetry.Emitted | app/src/main/java/com/honeycomb/trailsnap/telemetry/TelemetryClient.kt:97-139 | An enabled `trackEvent` sends at most one request. It sends one exactly when the payload builds. That request is addressed to the configured events URL with the configured key as `X-Honeycomb-Team` header and JSON content type, and carries `Payload(name, attributes)`. A build failure sends nothing. |
| Telemetry.Sent | app/src/main/java/com/honeycomb/trailsnap/telemetry/TelemetryClient.kt:88-140 | A run of enabled `trackEvent` calls sends at most one request per event. Each request goes to the configured URL with the configured key. |
| Telemetry.SentAppend | app/src/main/java/com/honeycomb/trailsnap/telemetry/TelemetryClient.kt:88-140 | Tracking one more event appends exactly what that event emits. |
| Telemetry.SentCount | app/src/main/java/com/honeycomb/trailsnap/telemetry/TelemetryClient.kt:97-139 | The number of requests sent is the number of events whose attributes serialize. |
| Telemetry.StartupPayload | app/src/main/java/com/honeycomb/trailsnap/telemetry/TelemetryClient.kt:73-76 | The startup event always serializes. Its payload is exactly `event_type = "startup"` and `platform = "android"`. |
| Telemetry.ShippedConfigIsUnconfigured | app/src/main/java/com/honeycomb/trailsnap/telemetry/TelemetryConfig.kt:11-12 | The shipped API key and dataset name are the placeholders, so `init`'s check rejects them. |
| Telemetry.TelemetryClient.constructor | app/src/main/java/com/honeycomb/trailsnap/telemetry/TelemetryClient.kt:37 | A new client is disabled, has sent nothing and satisfies the client invariant. |
| Telemetry.TelemetryClient.Init | app/src/main/java/com/honeycomb/trailsnap/telemetry/TelemetryClient.kt:55-77 | `initialized` becomes true exactly when neither credential is a placeholder. When enabled, exactly the startup request is appended to the outbox. Otherwise the outbox is unchanged. The client invariant is kept. |
| Telemetry.TelemetryClient.TrackEvent | app/src/main/java/com/honeycomb/trailsnap/telemetry/TelemetryClient.kt:88-140 | `initialized` never changes. While disabled the outbox is unchanged. While enabled the outbox gains exactly what the event emits. When the attributes serialize, that is one new last request addressed to `apiHost + "/1/events/" + datasetName` with the API key as `X-Honeycomb-Team` header, carrying `Payload(name, attributes)`. When the payload fails to build, nothing is added. No failure reaches the caller. The client invariant is kept. |
| Telemetry.Session | app/src/main/java/com/honeycomb/trailsnap/telemetry/TelemetryClient.kt:55-140 | `init` followed by one `trackEvent` per event sends, when configured, the startup request and then each serializable event's request, in call order. When not configured it sends nothing. |
| Telemetry.ShippedSession | app/src/main/java/com/honeycomb/trailsnap/telemetry/TelemetryClient.kt:57-58 | With the shipped configuration, no request is ever produced, whatever events are tracked. |

## Left out

- Text.UpperCase and Text.LowerCase change only ASCII letters. Kotlin's `equals(ignoreCase)` and `contains(ignoreCase)` compare one UTF-16 char at a time with `Character.toUpperCase` and `Character.toLowerCase`, which is the simple per-character Unicode case mapping. That mapping also pairs non-ASCII letters (É and é, for example); the model does not. The whitespace set of `isBlank` is written out in full.
- Kotlin strings are sequences of UTF-16 code units, while a Dafny `string` is a sequence of Unicode scalar values. For text outside the Basic Multilingual Plane, lengths and offsets in `IsBlank`, `RegionMatches` and `IndexOfIgnoreCase` therefore differ from the source, and lone surrogates cannot be represented.
- OkHttp transport: the lazy client, timeouts, asynchronous `enqueue`, response callbacks and status handling are network I/O and concurrency. The model stops at the request handed to the transport (the outbox).
- OkHttp's validation of the URL and the header value is assumed to succeed. The real check would throw inside the `try` and send nothing for a malformed `apiHost`, or for an API key with any character other than tab and U+0020..U+007E (any non-ASCII key included). The model does not capture that.
- `JSONObject.toString` serialization to text: the body is modelled as a key-value map.
- Attribute values other than strings, integers, booleans, non-finite numbers and `null` are not modelled, for example finite floating-point numbers, lists or nested objects.
- `android.util.Log` calls are logging only and are left out.
- The Kotlin `object` singleton is modelled as a class instance with a fixed configuration. The configuration is a constructor parameter rather than global constants, so sessions with other credentials can be stated.
- `MainActivity`, `TrailAdapter` and `TrailListViewModel` are Android UI and LiveData wiring. They are not part of this model.
