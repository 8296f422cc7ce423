# Ayush terminology front end and mapping backend: verified model

This project models the few pieces of self-contained logic in the Ayush Interop / FHIR application.
Everything else in the application is presentation code.

- **Search history store** (`useSearchHistory` hook). Each category (search, translation, integration,
  problem) keeps its own list in browser storage under `search-history-<category>`. The list holds at
  most `maxItems` entries, no two with the same query, newest first. The model is `HistoryStore`:
  storage is a map from key to stored blob, and the caller supplies item ids and timestamps.
- **History widget helpers** (`SearchHistory` component). These are the relative-age label, the
  one-line summary of a stored payload, and the set of expanded entries. The model is
  `HistoryWidget`; payloads are JSON values (`Json`).
- **Mapping service** (`MappingService` in the Python backend). This covers term search over the
  JSON "partial" list topped up from CSV rows, translation of a code, and the stats figures. The
  model is `MappingService`; both tables are sequences of records.
- **Translate section** (`TranslateSection` component). This covers the type-ahead suggestion
  filter, choosing a suggestion, the translate result and the coding-system CSS class. The model is
  `TranslateSection`; server responses are parameters.
- **Backend catch-all route and health probe** (`serve_spa`, `/health`). The model is `SpaServer`.
  The file system is two predicates: "is a regular file" and "exists".

Shared helpers: `Optional` (absent values), `Seqs` (filtering, subsequences, and the leading slice
shared by JavaScript `slice(0, n)`, Python `[:n]` and pandas `head(n)`, including negative `n`),
`Text` (ASCII case folding, substring search, blank strings, decimal rendering).

### Notable behaviour of the code

- A failed load does not reset the list. It leaves the current list as it is, and the list is
  empty on mount. If the hook's category changed and the new key is missing or unreadable, the
  previous category's list stays on screen (`HistoryStore.Load`).
- An unreadable stored timestamp does not discard the load, because `new Date` does not throw.
  Timestamps are integers in the model.
- Item ids come from the clock, so they need not be unique. `RemoveItem` drops every entry with
  the given id.
- Storage write failures are not caught in the hook. The model's storage always accepts a write.

## Model

| member | source | states |
|---|---|---|
| `Seqs.Prefix` | Ayush-FHIR-Sparkle/src/hooks/useSearchHistory.ts:41 | a leading slice keeps the first `min(n, len)` items for `n >= 0` and drops the last `-n` for negative `n` |
| `Seqs.Filter` | Ayush-FHIR-Sparkle/src/hooks/useSearchHistory.ts:40 | filtering keeps every element that satisfies the predicate and nothing else; a list whose elements all satisfy it comes back unchanged |
| `Seqs.FilterKeepsCopies` | Ayush-FHIR-Sparkle/src/hooks/useSearchHistory.ts:40 | every copy of a satisfying element survives the filter, so together with the order lemma the result is fixed |
| `Seqs.FilterIsSubsequence` | Ayush-FHIR-Sparkle/src/hooks/useSearchHistory.ts:54 | the survivors of a filter keep their original relative order |
| `Text.Contains` | backend/app/services/mapping_service.py:33 | the recursive substring test is true exactly when the pattern occurs at some index |
| `Text.ParseNatToString` | Ayush-FHIR-Sparkle/src/components/SearchHistory.tsx:46-48 | a count printed in decimal reads back as the same count |
| `Text.ParsedNatIsPrinted` | Ayush-FHIR-Sparkle/src/components/SearchHistory.tsx:46-48 | any string that reads as a count is exactly that count's decimal printing, so "05" is not accepted |
| `HistoryStore.StorageKey` | Ayush-FHIR-Sparkle/src/hooks/useSearchHistory.ts:15 | a category's key is `search-history-` followed by the category name |
| `HistoryStore.Load` | Ayush-FHIR-Sparkle/src/hooks/useSearchHistory.ts:14-27 | the list becomes the stored list when the category's key holds one that parses, and otherwise stays as it was, with storage unchanged |
| `HistoryStore.Mount` | Ayush-FHIR-Sparkle/src/hooks/useSearchHistory.ts:12-27 | a new hook starts empty and stays empty unless its key holds a readable list |
| `HistoryStore.AddToHistory` | Ayush-FHIR-Sparkle/src/hooks/useSearchHistory.ts:29-45 | the new item (query, results, hook's category) is first; length is `min(maxItems, 1 + prior entries with another query)`; no other entry has the query; the rest is a leading part of the prior entries with other queries, in order; unique queries stay unique; the new list is written under the category's key |
| `HistoryStore.FilterKeepsUniqueQueries` | Ayush-FHIR-Sparkle/src/hooks/useSearchHistory.ts:40 | dropping one query's entries keeps the other queries distinct |
| `HistoryStore.PushKeepsUniqueQueries` | Ayush-FHIR-Sparkle/src/hooks/useSearchHistory.ts:41 | putting an entry in front of a list that lacks its query keeps the queries distinct |
| `HistoryStore.AddKeepsUniqueQueries` | Ayush-FHIR-Sparkle/src/hooks/useSearchHistory.ts:40-41 | the filtered, prefixed and cut list that an add stores has distinct queries whenever the old list had |
| `HistoryStore.ClearHistory` | Ayush-FHIR-Sparkle/src/hooks/useSearchHistory.ts:47-50 | the list is empty, the category's key is removed, and every other key is untouched |
| `HistoryStore.ClearIdempotent` | Ayush-FHIR-Sparkle/src/hooks/useSearchHistory.ts:47-50 | clearing twice equals clearing once |
| `HistoryStore.RemoveItem` | Ayush-FHIR-Sparkle/src/hooks/useSearchHistory.ts:52-58 | exactly the entries with another id remain, with all their copies, in order; an absent id leaves the list unchanged; the result is written under the category's key |
| `HistoryStore.ApplyPreservesValid` | Ayush-FHIR-Sparkle/src/hooks/useSearchHistory.ts:29-58 | each add, remove or clear keeps the list within the cap, its queries unique and its entries in the hook's category |
| `HistoryStore.SubsequenceKeepsUniqueQueries` | Ayush-FHIR-Sparkle/src/hooks/useSearchHistory.ts:54 | removing entries never creates a duplicate query |
| `HistoryStore.RunPreservesValid` | Ayush-FHIR-Sparkle/src/hooks/useSearchHistory.ts:29-58 | any sequence of adds, removes and clears keeps the cap, unique queries and category |
| `HistoryStore.ReloadAfterApply` | Ayush-FHIR-Sparkle/src/hooks/useSearchHistory.ts:14-58 | after an add, remove or clear, a fresh hook over the same storage shows exactly the in-memory state |
| `HistoryStore.ReloadAfterRun` | Ayush-FHIR-Sparkle/src/hooks/useSearchHistory.ts:14-58 | after any non-empty sequence of operations, a reload reproduces the list being shown |
| `HistoryStore.MountIgnoresCorruptBlob` | Ayush-FHIR-Sparkle/src/hooks/useSearchHistory.ts:16-25 | an unreadable stored value gives an empty list on mount |
| `HistoryStore.CapThreeScenario` | Ayush-FHIR-Sparkle/src/hooks/useSearchHistory.ts:38-44 | with a cap of 3, adding four distinct queries a, b, c, d and then b again leaves b, d, c, newest first |
| `HistoryStore.ScenarioOpening` | Ayush-FHIR-Sparkle/src/hooks/useSearchHistory.ts:38-44 | three distinct adds on an empty list fill it to the cap of 3, newest first |
| `HistoryStore.ScenarioNewQuery` | Ayush-FHIR-Sparkle/src/hooks/useSearchHistory.ts:38-44 | on a full list of 3, a new query goes in front and the oldest entry falls off |
| `HistoryStore.ScenarioRepeat` | Ayush-FHIR-Sparkle/src/hooks/useSearchHistory.ts:38-44 | on a full list of 3, repeating the oldest query removes that entry and puts the new one in front |
| `HistoryWidget.AgeOf` | Ayush-FHIR-Sparkle/src/components/SearchHistory.tsx:38-48 | under 60000 ms (negative included) is "just now"; 60000 to 3599999 ms is 1..59 whole minutes; up to 86399999 ms is 1..23 whole hours; anything larger is whole days, with no larger unit |
| `HistoryWidget.FormatTime` | Ayush-FHIR-Sparkle/src/components/SearchHistory.tsx:38-49 | the label is "Just now" exactly for ages under a minute, and the label reads back as its bucket |
| `HistoryWidget.ParseAgeText` | Ayush-FHIR-Sparkle/src/components/SearchHistory.tsx:45-48 | every `Nm ago` / `Nh ago` / `Nd ago` / "Just now" label names one bucket unambiguously |
| `HistoryWidget.ParsedAgeIsText` | Ayush-FHIR-Sparkle/src/components/SearchHistory.tsx:45-48 | a label reads back only when it is exactly its bucket's label, so the label `formatTime` prints is fixed by the bucket |
| `HistoryWidget.ResultSummary` | Ayush-FHIR-Sparkle/src/components/SearchHistory.tsx:67-83 | no summary for a falsy payload; otherwise the first present field of search.matches, suggest.suggestions, entities, targets gives the kind and its length; otherwise "Results available" |
| `HistoryWidget.ParseSummaryText` | Ayush-FHIR-Sparkle/src/components/SearchHistory.tsx:70-82 | each summary line (`N matches found`, `N suggestions`, `N entities`, `N translations`, "Results available", with "undefined" for a missing length) reads back as its kind and count, so no two summaries print alike |
| `HistoryWidget.ParsedSummaryIsText` | Ayush-FHIR-Sparkle/src/components/SearchHistory.tsx:70-82 | a line reads back only when it is exactly the line of its summary |
| `HistoryWidget.SummaryIgnoresOtherKeys` | Ayush-FHIR-Sparkle/src/components/SearchHistory.tsx:67-83 | adding or changing a key other than search, suggest, entities and targets never changes an object payload's summary |
| `HistoryWidget.NonObjectSummary` | Ayush-FHIR-Sparkle/src/components/SearchHistory.tsx:67-83 | a truthy payload that is not an object is summarised as "Results available" |
| `HistoryWidget.ToggleItemExpansion` | Ayush-FHIR-Sparkle/src/components/SearchHistory.tsx:51-61 | exactly the toggled id changes membership |
| `HistoryWidget.ToggleTwice` | Ayush-FHIR-Sparkle/src/components/SearchHistory.tsx:51-61 | toggling an id twice restores the set |
| `MappingService.JoinComma` | backend/app/services/mapping_service.py:38 | the "match" text of a JSON hit: empty for no codes, the code itself for one, otherwise starting with the first code, with length the codes' lengths plus two per separator |
| `MappingService.JoinCommaConcat` | backend/app/services/mapping_service.py:38 | joining two non-empty code lists is joining each with one ", " between them, so the parts appear in order separated by ", " |
| `MappingService.JsonHits` | backend/app/services/mapping_service.py:31-40 | one hit for every JSON entry whose label or a synonym contains the query, and only those, in list order |
| `MappingService.JsonHitsAreMatchingEntries` | backend/app/services/mapping_service.py:32-40 | the JSON hits are exactly the hits of the matching entries, one per entry in list order, duplicates included |
| `MappingService.JsonHitsMatch` | backend/app/services/mapping_service.py:28-40 | each JSON hit comes from an entry matching the lowered query; its confidence is 95 exactly when the lowered label equals the lowered query, else 85 |
| `MappingService.AppendRowHits` | backend/app/services/mapping_service.py:48-57 | collected hits are kept as a prefix; a row is appended only if no collected hit has its id; every candidate's id ends up represented |
| `MappingService.AppendRowHitsInRowOrder` | backend/app/services/mapping_service.py:48-57 | the appended CSV hits follow the candidate rows' order |
| `MappingService.AppendRowHitsTakesFirstNew` | backend/app/services/mapping_service.py:48-57 | every candidate whose id is in neither the collected hits nor an earlier candidate is appended as its CSV hit |
| `MappingService.AppendRowHitsIsNewRows` | backend/app/services/mapping_service.py:48-57 | the appended part is exactly the CSV hits of `NewRows`, the candidates whose id is in neither the collected hits nor an earlier candidate, in row order |
| `MappingService.CandidateHitsMatch` | backend/app/services/mapping_service.py:43-57 | a CSV hit comes from a row whose term or synonyms contain the query; it has confidence 80 and shows the ICD code, or "No Direct Match" for a NaN cell |
| `MappingService.TopUp` | backend/app/services/mapping_service.py:43-59 | after topping up and cutting to the limit, all JSON hits remain first and each later hit is a deduplicated CSV hit |
| `MappingService.Search` | backend/app/services/mapping_service.py:27-59 | at most `limit` hits for `limit >= 0`; with at least `limit` JSON hits the result is their first `limit`; every hit after the JSON hits is a CSV hit (confidence 80) from the first `limit` minus the number of JSON hits matching rows, with an id not already collected; that the top-up actually happens, in row order, is `SearchTopsUp` |
| `MappingService.Collect` | backend/app/services/mapping_service.py:43-59 | for any JSON hits, the top-up respects the limit and adds only deduplicated CSV hits from the allowed matching rows |
| `MappingService.SearchTopsUp` | backend/app/services/mapping_service.py:43-59 | with fewer JSON hits than `limit`, the final cut removes nothing and the part after the JSON hits is exactly the CSV hits of the candidate rows that bring a new id, in row order; every candidate row's id is held by some hit |
| `MappingService.SearchJsonFirst` | backend/app/services/mapping_service.py:32-59 | the JSON hits lead the result: all of them are a prefix when they fit in `limit`, otherwise the result is a prefix of them |
| `MappingService.FirstRow` | backend/app/services/mapping_service.py:63-65 | the index found is that of the first row with the code; none is found exactly when no row has it |
| `MappingService.Translate` | backend/app/services/mapping_service.py:61-85 | a CSV id match wins, with the code or "TBD" and "Mapped"/"Pending" to match; otherwise the first JSON entry with the code, always "Mapped", with its first code or "TBD"; no match exactly when neither table has the code |
| `MappingService.PendingIsTbd` | backend/app/services/mapping_service.py:69-71 | a pending translation always targets "TBD" and comes from the CSV table |
| `MappingService.GetStats` | backend/app/services/mapping_service.py:87-93 | total mappings are CSV rows plus JSON items; FHIR resources are the CSV rows; the two usage figures are the fixed 142 and 12 |
| `TranslateSection.UnlabelledNeverKept` | Ayush-FHIR-Sparkle/src/components/TranslateSection.tsx:59 | for a non-blank input, a suggestion without a label is never kept |
| `TranslateSection.KeepMatching` | Ayush-FHIR-Sparkle/src/components/TranslateSection.tsx:58-65 | every kept label starts with the input ignoring case; every such suggestion is kept; kept suggestions keep server order |
| `TranslateSection.KeepMatchingIsFilter` | Ayush-FHIR-Sparkle/src/components/TranslateSection.tsx:58-65 | the kept suggestions are exactly the matching server suggestions, copy for copy and in order |
| `TranslateSection.HandleTypeTranslate` | Ayush-FHIR-Sparkle/src/components/TranslateSection.tsx:48-73 | blank input or a failed request clears and hides the dropdown; otherwise the first 20 matching suggestions in server order are kept; the dropdown shows exactly when one is kept |
| `TranslateSection.HandleInputChange` | Ayush-FHIR-Sparkle/src/components/TranslateSection.tsx:75-78 | the input shows the typed value, the suggestions and dropdown are refreshed for it, and the system and translation results are unchanged |
| `TranslateSection.HandleSuggestionClick` | Ayush-FHIR-Sparkle/src/components/TranslateSection.tsx:80-83 | choosing a suggestion sets the code to its label and hides the dropdown |
| `TranslateSection.ClickedSuggestionExtendsInput` | Ayush-FHIR-Sparkle/src/components/TranslateSection.tsx:58-83 | choosing any suggestion shown for an input fills the box with a code that starts with that input, ignoring case |
| `TranslateSection.TranslateTwice` | Ayush-FHIR-Sparkle/src/components/TranslateSection.tsx:30-46 | translating again with the same answer changes nothing more |
| `TranslateSection.HandleTranslate` | Ayush-FHIR-Sparkle/src/components/TranslateSection.tsx:30-46 | a blank code changes nothing; otherwise the result is the response's `targets`, or empty when missing or on failure |
| `TranslateSection.SystemColor` | Ayush-FHIR-Sparkle/src/components/TranslateSection.tsx:97-110 | namaste, icd11, snomed and loinc in any case get `coding-system-<name>`; every other name gets `medical-code` |
| `TranslateSection.SystemColorIgnoresCase` | Ayush-FHIR-Sparkle/src/components/TranslateSection.tsx:97-98 | names that differ only in letter case get the same class |
| `SpaServer.HealthCheck` | backend/app/main.py:29-31 | the probe reports "ok" and the application's declared version 2.0.0 |
| `SpaServer.JoinPath` | backend/app/main.py:45-50 | an absolute part replaces the directory; otherwise the part is appended to the directory with exactly one '/' between them, added only when the directory is non-empty and does not already end in '/' |
| `SpaServer.ServeSpaAsWritten` | backend/app/main.py:34-55 | an `api/` path is Not Found whatever exists; an existing joined file is served; otherwise index.html if it exists, else Not Found |
| `SpaServer.ServeSpa` | backend/app/main.py:34-55 | the same decision, with the static-file branch taken only for paths that stay inside the static directory |
| `SpaServer.JoinConfined` | backend/app/main.py:45 | joining a relative path without `..` segments onto the static directory stays inside it |
| `SpaServer.ServeSpaStaysInStaticDir` | backend/app/main.py:44-52 | whatever the file system holds, the corrected route serves only files inside the static directory |
| `SpaServer.BareApiIsNotApi` | backend/app/main.py:37 | the bare path "api" is not an API path and is served like any other file |
| `SpaServer.AsWrittenServesAbsolutePath` | backend/app/main.py:45-47 | as written, the request path "/etc/passwd" is served from outside the static directory |
| `SpaServer.AsWrittenServesParentPath` | backend/app/main.py:45-47 | as written, a `../` request path is served from outside the static directory |

## Left out

- Clock and identifiers: `Date.now()` ids and `new Date()` timestamps are parameters of `HistoryStore.AddToHistory`, and the current time is a parameter of `HistoryWidget.FormatTime`.
- Serialisation: `JSON.stringify`/`JSON.parse` and `localStorage` are modelled as a map holding either the list itself or an unreadable blob. The model does not track how an invalid timestamp string would print, or whether a payload round-trips through JSON.
- Storage write failures (quota exceeded, storage disabled) are not modelled. In the hook they would throw, not be swallowed.
- `console.error` logging on load and fetch failures is not modelled.
- React scheduling, effect timing and the order of concurrent fetch responses are not modelled. Each handler runs on a response given as a parameter.
- Case folding and whitespace are simplified. `toLowerCase`/`str.lower()` are ASCII-only. `trim` whitespace is the ASCII set plus NBSP, U+2028, U+2029 and BOM; the other Unicode space characters are not included.
- `Json.Length` counts code points (one per `char`), while JavaScript `.length` counts UTF-16 code units. A string payload with characters outside the Basic Multilingual Plane would print a smaller count in the model.
- JSON numbers are integers, so NaN, `-0` and fractions are not modelled in truthiness. An object payload with its own `length` field would print that field's value; the model prints "undefined".
- `HistoryWidget.AgeOf`: uses exact integer division, so floating-point rounding of very large millisecond differences is not modelled.
- Presentation in the widget is not modelled: panel collapse, clipboard copy and the empty-history placeholder.
- In the translate section, the `isTranslating` flag, the outside-click listener and the dropdown rendering are not modelled.
- The copy of `getSystemColor` in ModernTranslateSection.tsx is identical to the one in TranslateSection.tsx and is not modelled separately.
- `MappingService.Search`: pandas `str.contains` reads the query as a regular expression, but the model matches it as a literal substring. A query with regex metacharacters can behave differently in the source, or raise.
- `MappingService.Search`: JSON entries are assumed to carry `code` and `label`; a missing one raises KeyError in the source. Missing `synonyms` reads as empty, as `.get` does.
- `MappingService.Search`: a JSON `null` under "icd11_tm2_codes" cannot be expressed, because `Entry.icdCodes` being `None` means the key is missing. In the source such a null raises TypeError in the join at mapping_service.py:38, and gives "TBD" in translate at :80.
- `MappingService.Search`: a JSON `null` under "synonyms" cannot be expressed. In the source it raises TypeError at mapping_service.py:33 when the label does not match.
- `MappingService.Search`: CSV ids are strings, so NaN ids are not modelled. In the source NaN equals nothing, so every NaN-id candidate is appended (mapping_service.py:50) and no code ever matches it in translate (:63).
- `MappingService.Translate`: CSV ids are compared as strings. A numeric id column in pandas would never equal a string code.
- Loading the CSV and JSON files (`_load_data`) is not modelled; both tables are parameters.
- Application setup in backend/app/main.py is not modelled: CORS middleware, router inclusion and `FileResponse` content types. The other API routes (routes.py, settings.py) are not part of this model.
- `SpaServer.ServeSpaAsWritten`: the bad paths reach the route only if the web framework passes the raw request path through, for example `//etc/passwd` becoming `/etc/passwd`. That framework behaviour is not modelled.

## Findings

| source | as written | input that shows it | evidently intended | confidence | as-written member | corrected member |
|---|---|---|---|---|---|---|
| backend/app/main.py:45-47 | the request path is joined onto the static directory with `os.path.join`, and any regular file at the result is served | `full_path` "/etc/passwd" (an absolute part discards the directory) or "../app/main.py" (a `..` segment climbs out) | only files inside the static directory are served ("e.g., assets/main.js") | medium; not executed; it depends on the framework delivering such a path | `SpaServer.AsWrittenServesAbsolutePath` | `SpaServer.ServeSpaStaysInStaticDir` |
