# Waste-sorting assistant: a verified model of its core

The app photographs waste, sends the image to a vision model, and turns the
model's free-form JSON answer into a list of typed waste items. It keeps the
last twenty scans and charts how many items of each category have been seen.

This project models the deterministic parts of that system in Dafny and
proves properties about them:

- **The response normaliser** of `analyzeWasteImage` (`services/geminiService.ts`):
  - strips a `data:image/<word>;base64,` header from the image;
  - replaces empty response text with `"{}"`;
  - removes the ```` ```json ```` and ```` ``` ```` fences and trims;
  - locates the `items` array, or wraps a bare record;
  - defaults each record field by field;
  - classifies the category string with a first-match keyword table;
  - collapses every failure into one message (`GeminiService`).
- **The JavaScript built-ins the normaliser uses**: `trim`,
  `toLowerCase`, `includes` and a global literal `replace` (`JsString`).
  Also the JSON values `JSON.parse` produces, with JavaScript truthiness and
  property reads (`JsonValues`).
- **The record types** of `types.ts` (`Types`).
- **The history bookkeeping** of the App component, as a class
  `App.AppState` whose methods are the capture, reset, clear and delete
  handlers (`App`).
- **The chart aggregation** of `components/HistoryChart.tsx`: counting
  items per category with nested loops over scans and items, building
  the chart entries in key-insertion order with their colours, and the
  total (`HistoryChart`).

The vision-model call is a function parameter `generate: Request ->
Response`, and `JSON.parse` is a parameter `parse: string -> Option<Json>`.
The two readings of `Date.now()` are natural-number parameters. The answer
of `window.confirm` is a boolean parameter.

The model follows the code as written; in particular:

- A parsed response with no `items` array and no truthy `itemName`
  throws (services/geminiService.ts:61-67). It does not yield an empty
  result. An explicit `"items": []` succeeds with no items.
- The `||` defaults only replace falsy values. A truthy value of the wrong
  type (a number as `itemName`) passes through, so a `WasteItem` holds the
  run-time JSON value of each such field. The declared TypeScript shape is
  the predicate `Types.WellTyped`, which holds whenever the raw record
  follows the prompt's schema (`GeminiService.SchemaRecordIsWellTyped`).
- Reading `item.category` throws for a `null` record. `toLowerCase` throws
  for a category that is neither a string nor null. Both fail the whole
  call. A number, string, boolean or array record has no such fields and
  normalises to all defaults.
- `deleteScan` removes every scan with the given id, not just one.

## Model

| member | source | states |
|---|---|---|
| Types.CategoryOfLabel | types.ts:1-8 | reading an enum string value back yields the member with that label, and no member when the string is no label |
| Types.Label | types.ts:1-8 | no contract; computes each member's enum string value |
| Types.CategoriesAreSixDistinctLabels | types.ts:1-8 | WasteCategory has exactly six members, each listed once, with pairwise distinct labels |
| Types.LabelInjective | types.ts:1-8 | two members have the same label exactly when they are the same member |
| JsonValues.ArraysAreTruthy | services/geminiService.ts:61 | every array is truthy, so the `!items \|\| !Array.isArray(items)` test is just "items is not an array" |
| JsonValues.IsTruthy | services/geminiService.ts:61-87 | no contract; computes JavaScript truthiness of a JSON value: false, 0, "" and null are falsy, arrays and objects truthy |
| JsonValues.Truthy | services/geminiService.ts:61-63 | no contract; computes the truthiness tests on `parsed.items` and `parsed.itemName`: an absent property is falsy, a present one is truthy as its value is |
| JsonValues.IsArray | services/geminiService.ts:61 | no contract; computes `Array.isArray` of a property read: present and an array |
| JsonValues.Member | services/geminiService.ts:61-87 | no contract; computes the property read `v.key`: an object's own field, otherwise undefined |
| JsonValues.OrElse | services/geminiService.ts:81-86 | no contract; computes `p \|\| fallback`: the value when truthy, else the fallback |
| JsString.IsWhitespace | services/geminiService.ts:58 | no contract; computes the code points `trim` removes: ECMAScript WhiteSpace plus LineTerminator |
| JsString.Trim | services/geminiService.ts:58 | the trimmed text has no whitespace at either end and is a slice of the input with only whitespace removed on either side |
| JsString.TrimRemovesPadding | services/geminiService.ts:58 | trimming whitespace padding from an already trimmed string gives back exactly that string |
| JsString.ToLower | services/geminiService.ts:72 | no contract; computes `toLowerCase` on the ASCII letters, character by character |
| JsString.ToLowerProperties | services/geminiService.ts:72 | lower-casing keeps the length, leaves no upper-case letter, keeps lower-case text and is idempotent |
| JsString.Contains | services/geminiService.ts:74-78 | no contract; computes `includes`: the pattern occurs at some index |
| JsString.ContainsStep | services/geminiService.ts:74-78 | `includes` holds exactly when the pattern is at the head or occurs in the rest |
| JsString.MissingCharExcludes | services/geminiService.ts:74-78 | a string lacking one of the pattern's characters does not include the pattern |
| JsString.RemoveAll | services/geminiService.ts:58 | a global literal replace with '' never lengthens the text |
| JsString.RemoveAllAbsent | services/geminiService.ts:58 | text that does not include the pattern is unchanged by the replace |
| JsString.FenceRemovalLeavesNoFence | services/geminiService.ts:58 | after removing every ```` ``` ```` none is left, even where removals bring backticks together |
| GeminiService.IsWordChar | services/geminiService.ts:38 | no contract; computes the regex class `\w`: ASCII letters, digits and `_` |
| GeminiService.DataUriPrefixEndsAt | services/geminiService.ts:38 | no contract; states when `^data:image\/\w+;base64,` matches the first k characters: the literal head, one or more word characters, then ";base64," ending at k |
| GeminiService.WordRun | services/geminiService.ts:38 | the longest run of `\w` characters at the start: all word characters, and the next one is not |
| GeminiService.StripDataUriPrefix | services/geminiService.ts:38 | the payload is the input or a suffix of it at least 20 characters shorter |
| GeminiService.StripRemovesMatch | services/geminiService.ts:38 | when `^data:image\/\w+;base64,` matches the first k characters, exactly those are removed |
| GeminiService.StripKeepsUnmatched | services/geminiService.ts:38 | an image string the pattern does not match at position 0 is sent unchanged |
| GeminiService.StripRemovesHeader | services/geminiService.ts:38 | `data:image/<subtype>;base64,` + payload yields exactly the payload, whatever the payload holds |
| GeminiService.ResponseText | services/geminiService.ts:57 | the text to clean is never empty: non-empty response text is kept, missing or empty text becomes "{}" |
| GeminiService.CleanFences | services/geminiService.ts:58 | removes every "```json", then every "```", then trims; the result is never longer than the input |
| GeminiService.CleanFencesLeavesNoFence | services/geminiService.ts:58 | the cleaned text is trimmed and contains no ```` ``` ```` |
| GeminiService.CleanFencesKeepsPlainText | services/geminiService.ts:58 | text without backticks and without surrounding whitespace is left unchanged |
| GeminiService.CleanFencesUnwrapsBlock | services/geminiService.ts:58 | ```` ```json ```` + newline + s + newline + ```` ``` ```` cleans to exactly s, for backtick-free trimmed s |
| GeminiService.FirstMatch | services/geminiService.ts:71-78 | no contract; computes the category of the first keyword group the string mentions, Unknown when none |
| GeminiService.Classify | services/geminiService.ts:71-78 | no contract; computes the first match over the five keyword groups in source order |
| GeminiService.KeywordsAvoidNonAsciiLowerings | services/geminiService.ts:74-78 | no keyword contains 'k' or ends in 'i', the only ASCII letters a non-ASCII character lower-cases to |
| GeminiService.ClassifyCategory | services/geminiService.ts:71-78 | the reassigned local after the if/else-if chain equals the first-match classifier on the keyword table |
| GeminiService.ClassifyUnfolded | services/geminiService.ts:74-78 | the table classifier is the five-way chain of `includes` tests in the source's order, with Unknown last |
| GeminiService.FirstMatchSelectsFirst | services/geminiService.ts:74-78 | first match wins: the chosen category is that of the first group the string mentions |
| GeminiService.ClassifyUnknownIff | services/geminiService.ts:71-78 | the result is Unknown exactly when the string mentions no keyword of any group |
| GeminiService.ClassifyPrecedence | services/geminiService.ts:74-76 | a Biodegradable keyword wins over every other; "non-recyclable" never yields Recyclable; "recyclable" yields one of the first three categories |
| GeminiService.OrganicPlasticIsBiodegradable | services/geminiService.ts:74-76 | "organic plastic" is Biodegradable, not Recyclable |
| GeminiService.EmptyCategoryIsUnknown | services/geminiService.ts:72-78 | a missing category (read as "") is Unknown |
| GeminiService.ClassifiedBiodegradable | services/geminiService.ts:74 | any string with bio, organic or compost is Biodegradable |
| GeminiService.ClassifiedRecyclable | services/geminiService.ts:74-76 | a string with "recyclable" and without the characters i, o, s and n (every earlier keyword needs one of them) is Recyclable |
| GeminiService.ClassifiedNonRecyclable | services/geminiService.ts:74-75 | a string with "non-recyclable" and without i, g and m (each Biodegradable keyword needs one of them) is NonRecyclable |
| GeminiService.ClassifiedHazardous | services/geminiService.ts:74-77 | a string with "hazard" and without b, c, e, l, p, g and m (which rule out every earlier keyword) is Hazardous |
| GeminiService.ClassifiedEWaste | services/geminiService.ts:74-78 | a string with "e-waste" and without b, o, r, l, p, g, m and h (which rule out every earlier keyword) is E-Waste |
| GeminiService.ClassifiedUnknown | services/geminiService.ts:71-78 | a string without b, c, r, l, p, g, m, h, t and e (which rule out every keyword) is Unknown |
| GeminiService.LabelClassifiesToItself | services/geminiService.ts:72-78 | every enum label, lower-cased and classified, yields its own member, so reclassifying a normalised item changes nothing |
| GeminiService.CategoryText | services/geminiService.ts:72 | the category text is the lower-cased string, "" when the field is absent or null, and a failure for any other value |
| GeminiService.NormaliseItem | services/geminiService.ts:70-89 | a record fails exactly when it is null or has an unreadable category; otherwise each `\|\|` field keeps a truthy value or takes its sentinel, the category is the classifier's verdict and funFact passes through |
| GeminiService.EmptyRecordIsAllDefaults | services/geminiService.ts:80-88 | `{}` becomes "Unknown Item", "Unknown Material", Unknown, 0, "Dispose of carefully.", [], no funFact |
| GeminiService.SchemaRecordIsWellTyped | services/geminiService.ts:80-88 | a record that follows the prompt's schema normalises to an item of the WasteItem shape, with funFact the only optional field |
| GeminiService.EncodeItem | services/geminiService.ts:80-88 | writing an item back out stores the category as its enum string value and includes funFact exactly when present |
| GeminiService.NormaliseEncodeRoundTrip | services/geminiService.ts:70-89 | an item the normaliser can produce, written back out, normalises to itself |
| GeminiService.NormaliseIdempotent | services/geminiService.ts:70-89 | normalising a normalised record a second time changes nothing |
| GeminiService.NormaliseAll | services/geminiService.ts:70-89 | the map succeeds exactly when every record does, and then gives one item per record in the same order; a failure is some record's failure |
| GeminiService.LocateItems | services/geminiService.ts:59-68 | an items array is used as is (even empty); otherwise a truthy itemName gives the one-record list; otherwise, or for null, a failure |
| GeminiService.WrappedRecordIsNamedObject | services/geminiService.ts:61-64 | a wrapped record is an object with a truthy itemName |
| GeminiService.StripFollowsPattern | services/geminiService.ts:38 | the strip removes exactly the prefix the regular expression matches, and leaves the string unchanged when it matches nowhere |
| GeminiService.RequestFor | services/geminiService.ts:37-55 | the request names "gemini-3-flash-preview" and image/jpeg; its payload is the input without the prefix `^data:image\/\w+;base64,` matches, or the input itself when the pattern does not match |
| GeminiService.NormaliseResponse | services/geminiService.ts:57-91 | unparseable text fails; every returned item is in the normaliser's range |
| GeminiService.Analysis | services/geminiService.ts:40-91 | no contract; computes the analysis with its failure cause kept: a rejected call is UpstreamFailed, otherwise the response is normalised |
| GeminiService.AnalyzeWasteImage | services/geminiService.ts:35-97 | succeeds exactly when the analysis (model call, clean, parse, locate, normalise) does, returns its items then, and otherwise fails with the one message "Failed to analyze the image. Please try again." and no items |
| GeminiService.CleanEmptyObject | services/geminiService.ts:57-58 | the "{}" substitute survives fence cleaning |
| GeminiService.RejectedCallFails | services/geminiService.ts:40-55 | a failed model call fails the analysis with the uniform message |
| GeminiService.UnparseableTextFails | services/geminiService.ts:59 | text that does not parse fails the analysis with the uniform message |
| GeminiService.MissingTextFails | services/geminiService.ts:57-66 | missing or empty text becomes "{}", which has neither items nor itemName, so the call fails |
| GeminiService.NoItemsNoNameFails | services/geminiService.ts:61-67 | a parse result with no items array and no truthy itemName, or null, fails the analysis |
| GeminiService.ItemsArrayIsMapped | services/geminiService.ts:61-91 | with an items array the analysis succeeds exactly when every record normalises, and then returns one item per record in order |
| GeminiService.EmptyItemsArraySucceeds | services/geminiService.ts:61-91 | an explicit empty items array succeeds with no items |
| GeminiService.BareRecordIsWrapped | services/geminiService.ts:61-64 | a bare record with a truthy itemName is analysed as the one-item list of its normalisation |
| GeminiService.FencedPayloadSameAsBare | services/geminiService.ts:57-58 | a payload inside a ```` ```json ```` block is analysed exactly like the bare payload |
| App.AddScan | App.tsx:55 | the new history has length min(\|prev\|+1, 20), starts with the new scan and continues with the first min(\|prev\|, 19) previous scans |
| App.AddScansKeepsMostRecent | App.tsx:55 | after any number of captures the history is the twenty most recent scans, newest first |
| App.WithoutId | App.tsx:76 | a scan stays exactly when it was in the history and its id differs from the deleted one |
| App.WithoutIdAppend | App.tsx:76 | deleting distributes over concatenation, so the kept scans keep their order |
| App.WithoutAbsentId | App.tsx:76 | deleting an id no scan has leaves the history unchanged |
| App.WithoutIdRemovesEveryMatch | App.tsx:76 | the history shrinks by exactly the number of scans with that id |
| App.ErrorText | App.tsx:57 | the error shown is never empty: the thrown message, or "Something went wrong." when it is empty |
| App.DecimalString | App.tsx:51 | the id is a non-empty string of decimal digits without a leading zero |
| App.DecimalRoundTrip | App.tsx:51 | reading the id back as a number gives the clock value it came from |
| App.DistinctClocksDistinctIds | App.tsx:51 | scans stamped at different clock readings get different ids |
| App.AppState.constructor | App.tsx:18-22 | starts with an empty history, no error, no analysis running and no current analysis |
| App.AppState.BeginCapture | App.tsx:42-43 | the analysis is marked as running and any previous error is cleared; history and current analysis stay |
| App.AppState.FinishCapture | App.tsx:45-60 | on success the result becomes current and the new scan is prepended with the cap; on failure only the error changes; either way the analysis stops running |
| App.AppState.HandleCapture | App.tsx:41-61 | a successful capture leaves at most twenty scans led by the new one and no error; a failed one leaves history and current analysis alone and shows the service's failure message |
| App.AppState.HandleReset | App.tsx:63-66 | the current analysis and the error are cleared; history stays |
| App.AppState.ClearHistory | App.tsx:68-72 | when confirmed the history is empty, otherwise nothing changes |
| App.AppState.DeleteScan | App.tsx:74-78 | when confirmed exactly the scans with that id are removed, otherwise nothing changes |
| HistoryChart.CategoryLabels | components/HistoryChart.tsx:30-31 | one label per item, in order, each the label of the item's category |
| HistoryChart.ItemLabels | components/HistoryChart.tsx:29-31 | no contract; computes the category labels of all items of all scans, scan by scan and item by item |
| HistoryChart.ItemCount | components/HistoryChart.tsx:29-31 | no contract; computes the number of items over all scans |
| HistoryChart.ItemLabelsLength | components/HistoryChart.tsx:29-43 | there are as many counted labels as items over all scans |
| HistoryChart.ItemLabelsAreCategoryLabels | components/HistoryChart.tsx:31 | every counted key is the label of one of the six categories |
| HistoryChart.FirstOccurrences | components/HistoryChart.tsx:29-36 | the key list holds exactly the labels that occur |
| HistoryChart.FirstOccurrencesOrder | components/HistoryChart.tsx:29-36 | keys are listed once each, in order of first occurrence (JavaScript key insertion order) |
| HistoryChart.CountingStep | components/HistoryChart.tsx:31 | one update `acc[key] = (acc[key] \|\| 0) + 1` keeps the dictionary equal to the counts of the labels seen |
| HistoryChart.TallyItems | components/HistoryChart.tsx:30-33 | counting one scan's items extends the first-occurrence key list and the per-label counts by exactly that scan's labels |
| HistoryChart.AggregateCounts | components/HistoryChart.tsx:29-34 | the dictionary's keys are the labels that occur, in first-occurrence order, each mapped to the number of items carrying it |
| HistoryChart.ColorOf | components/HistoryChart.tsx:39 | a category label gets that category's colour, never the '#ccc' fallback; the aggregation only produces such labels (ItemLabelsAreCategoryLabels) |
| HistoryChart.CategoryColor | components/HistoryChart.tsx:9-16 | every category has a non-empty colour other than the fallback |
| HistoryChart.CategoryColorInjective | components/HistoryChart.tsx:9-16 | the six colours are pairwise distinct |
| HistoryChart.ChartData | components/HistoryChart.tsx:36-40 | one entry per key, in key order, with the key's count and colour |
| HistoryChart.TotalValue | components/HistoryChart.tsx:43 | no contract; computes the reduce `sum + item.value` over the entries |
| HistoryChart.SumOfCountsIsLength | components/HistoryChart.tsx:29-43 | over the distinct labels, the counts add up to the number of labels |
| HistoryChart.TotalIsSumOver | components/HistoryChart.tsx:43 | the reduce over the entries adds up their counts |
| HistoryChart.EntriesOccurAndAreColoured | components/HistoryChart.tsx:36-40 | every entry's key occurs, so its value is at least 1 and its colour is one of the six category colours |
| HistoryChart.ChartTotalIsItemCount | components/HistoryChart.tsx:43 | the total shown equals the number of items over all scans |
| HistoryChart.BuildChart | components/HistoryChart.tsx:19-43 | an empty history shows the placeholder; otherwise one entry per occurring category, in first-occurrence order, valued at its item count (at least 1), coloured with that category's COLORS entry (never the fallback), and a total equal to the number of items over all scans |

## Left out

- The vision-model SDK call, the client construction and the API key read at module load (services/geminiService.ts:1-4, 40-55). The call is the parameter `generate`, which returns optional text or a rejection.
- The prompt text (services/geminiService.ts:6-33). It is only sent to the model and does not affect the normaliser.
- `JSON.parse` (services/geminiService.ts:59) is the parameter `parse`. The model does not include a JSON grammar.
- `console.error` logging (services/geminiService.ts:94). It is output only.
- GeminiService.LocateItems: `parsed.items = [parsed]` writes into the parsed object and makes it refer to itself. The model returns the one-record list instead. The added field is never read afterwards, so the items are the same, but the write and the cycle are not modelled.
- JsString.ToLower: lower-cases ASCII letters only; JavaScript's full Unicode case mapping is not modelled. Classification is unaffected: every keyword is ASCII, and the only non-ASCII characters JavaScript lowers to ASCII letters are U+212A (to 'k') and U+0130 (to 'i' then U+0307). No keyword contains 'k' or ends in 'i' (GeminiService.KeywordsAvoidNonAsciiLowerings), so those letters cannot complete a keyword.
- GeminiService.ClassifiedRecyclable, ClassifiedNonRecyclable, ClassifiedHazardous, ClassifiedEWaste, ClassifiedUnknown: their preconditions rule earlier keywords out by absent characters. This is sufficient, not necessary. ClassifyUnfolded and FirstMatchSelectsFirst give the exact condition.
- JavaScript strings are sequences of UTF-16 code units; the model uses Dafny characters, so text outside the Basic Multilingual Plane is not split into surrogates. No keyword, whitespace character or `\w` character is affected.
- The `localStorage` load and save effects (App.tsx:24-39). They are browser storage I/O. The constructor starts from the empty history; a stored history longer than twenty stays until the next capture.
- `Date.now()` (App.tsx:51-52). The two readings are the parameters `idClock` and `stampClock`. The source reads the clock twice, so they may differ.
- `window.confirm` (App.tsx:69, 75) is the parameter `confirmed`.
- React's asynchronous state batching and the `await` are not modelled. HandleCapture runs BeginCapture, the analysis and FinishCapture in sequence. Two overlapping captures are not modelled.
- All rendering and view switching in App.tsx (lines 80-239), including the category badge styling. In that styling, the test for "Recycle" never matches the label "Recyclable".
- components/AnalysisResult.tsx, components/CameraCapture.tsx, components/TipsSection.tsx and vite.config.ts. They hold presentation, file I/O, static content and build configuration only.
- HistoryChart.ColorOf: keys inherited from `Object.prototype` (such as "toString" or "constructor") are not modelled. In JavaScript `COLORS[key]` and `acc[key]` would read inherited members for them, so a key of that kind would not fall back to '#ccc'. The aggregation only ever sees the six category labels, so this cannot arise.
- The recharts rendering of the pie (components/HistoryChart.tsx:45-80). It is not part of this model.
