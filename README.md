# SHL assessment recommender: a Dafny model of its decision logic

The service recommends SHL assessments for a job description. It retrieves
candidate catalog entries from a vector store and keeps the "individual"
solutions. A language model reranks them by returning a JSON array of 1-based
positions. The service then cleans those positions, tops them up to five,
truncates them to ten, and turns each chosen candidate into a record with
exactly seven fields. Those fields are name, url, description, duration in
minutes, remote and adaptive support as "Yes"/"No", and the test types as
one-letter codes. An offline evaluation compares retrieval-only urls
against labelled relevant urls with recall at K.

This project models that logic. The vector store's answer, the language
model's reply and Python's `int(...)` on a reply element are parameters.

Modules:

- `Wrappers`: `Option`, `Result` and the Python exceptions that matter.
- `PyText`: the ASCII behaviour of the string builtins used (`lower`, `strip`, `rstrip`, `title`, `str(int)`, `\d+`).
- `Json`: catalog values (`Value`), entries (`map<string, Value>`), truthiness, `str()` and `dict.get`.
- `Seqs`: Python slicing `[:k]`, order-preserving de-duplication and element sets.
- `Urls`: url normalisation `rstrip("/").lower()`.
- `Catalog`: the start-up fill of `solution_type` and the document build.
- `FieldNormalizer`: `parse_duration_minutes` and `normalize_yes_no`.
- `TestTypes`: `map_test_types_to_codes`.
- `CandidateFilter`: the individual-solution filter and the retrieval-only recommendation.
- `Rerank`: parsing or falling back, index cleaning, the minimum fill and the truncation.
- `Resolution`: building the output records.
- `Recommend`: the whole reranked recommendation.
- `Evaluation`: `normalize` and `recall_at_k`.

Loops in the source are methods here, each proved equal to a specification
function whose properties are proved as lemmas:

- the default fill (`Catalog.FillDefaults`);
- the document build (`Catalog.RenderAll`, which `Catalog.BuildDocuments` runs with the page rendering);
- index cleaning (`Rerank.NormalizeIndices`);
- the minimum fill (`Rerank.FillToMinimum`);
- record resolution (`Resolution.Resolve`);
- test-type mapping (`TestTypes.MapTestTypesToCodes`).

Where the prose description of the service and the code disagree, the model
follows the code:

- The description says the service never raises to its caller when the
  reranker's reply is malformed. On that path too, `map_test_types_to_codes`
  raises `TypeError` when a chosen candidate's `test_types` is a non-zero
  integer or `True`, and the exception escapes the recommendation. The model
  returns `Err(TypeError)` (`Resolution.RecordOf`,
  `Recommend.RecommendedRecords`).
- The description says every recommended url is unique. The code only
  removes repeated positions. `Recommend.RecommendedUrlsDistinct` proves
  distinct output urls on the condition that the candidates' urls are
  distinct.

## Model

| member | source | states |
|---|---|---|
| Json.Get | main.py:75-80 | `dict.get`: the stored value when the key is present, the default otherwise |
| Json.Truthy | main.py:276 | Python truthiness: false exactly for None, False, 0, the empty string and the empty list |
| Json.ToStr | main.py:320 | `str(v)`: a string is itself; a list is rendered between brackets |
| Json.Repr | main.py:282 | `repr(v)`: never empty; a string between quotes; a list between brackets; a non-negative integer as digits that read back as it |
| PyText.Lower | main.py:293 | `str.lower` on ASCII: same length, each character lower-cased |
| PyText.LowerIdempotent | main.py:293 | lower-casing twice equals lower-casing once |
| PyText.RStripChar | main.py:141 | `rstrip(c)`: a prefix of the input that does not end in `c`, and everything removed was `c` |
| PyText.Strip | main.py:293 | `strip()`: the result neither starts nor ends with whitespace |
| PyText.StripLowerCommute | main.py:293 | stripping then lower-casing equals lower-casing then stripping |
| PyText.FirstDigitRun | main.py:282 | `re.search(r"(\d+)")`: the first maximal run of digits, empty exactly when there is no digit |
| PyText.FirstDigitRunSkips | main.py:282 | a digit-free prefix does not change the first digit run |
| PyText.DecimalRoundTrip | main.py:284 | `int(str(n)) == n` for the decimal rendering of a natural number |
| PyText.DigitsValue | main.py:284 | `int(ds)` of a digit string: without a leading zero, `str` of the value gives the digits back |
| PyText.TitleFrom | main.py:324 | `title()` after a letter or not: same length; non-letters kept; a letter lower-cased when the character before it is a letter, upper-cased otherwise |
| PyText.Title | main.py:324 | `str.title`: same length; non-letters kept; every letter that starts a run of letters upper-cased, every other letter lower-cased |
| Urls.NormalizeUrl | main.py:141 | a normalised url has no trailing slash and no upper-case letter and is no longer than the input |
| Urls.NormalizeUrlIdempotent | main.py:141 | normalising a url twice equals normalising it once |
| Urls.NormalizeUrlEitherOrder | main.py:141 | stripping slashes and lower-casing commute |
| Seqs.SliceTo | main.py:252 | `xs[:k]` is a prefix of `xs` of length `min(k, len)`, or `len + k` clipped at 0 for negative `k` |
| Seqs.FirstOccurrences | main.py:326-327 | the first occurrence of each element, in order: distinct, no longer than the input, same elements |
| Seqs.FirstOccurrencesPrefix | main.py:326-327 | appending more input never changes the first occurrences already collected, so they stay a prefix |
| Seqs.DistinctInRangeBound | main.py:233-237 | a distinct list drawn from 1..n has at most n entries |
| Catalog.WithDefault | main.py:64-66 | the entry gains `solution_type = "individual"` only when the key is absent; every other key keeps its value |
| Catalog.FillAll | main.py:63-66 | one filled entry per entry; afterwards no entry lacks `solution_type`; entries that had one are unchanged |
| Catalog.FillDefaults | main.py:62-70 | the fill loop yields `FillAll(data)`, and the "updated" flag is set exactly when some entry lacked the key |
| Catalog.FillIdempotent | main.py:62-70 | filling an already filled catalog changes nothing |
| Catalog.JoinTestTypes | main.py:77 | `', '.join(test_types)` succeeds exactly on a string or a list of strings |
| Catalog.PageContent | main.py:74-81 | rendering an entry fails exactly when its test types cannot be joined |
| Catalog.RenderAll | main.py:72-82 | the build loop, for any rendering of one entry: succeeds exactly when every entry renders; then one document per entry, in order |
| Catalog.BuildDocuments | main.py:72-82 | succeeds exactly when every entry renders; then one document per entry, in order, with that entry's rendering and the entry as metadata |
| FieldNormalizer.ParseDurationMinutes | main.py:274-287 | falsy gives 0; an int is returned as is; otherwise the first digit run's value, or 0, and never negative |
| FieldNormalizer.DurationOfNumberWithUnit | main.py:282-284 | a number followed by a non-digit unit parses to that number |
| FieldNormalizer.DurationSkipsText | main.py:282 | leading text without digits is ignored |
| FieldNormalizer.DurationOfText | main.py:275 | "49 minutes" parses to 49 |
| FieldNormalizer.DurationAfterText | main.py:282-284 | "Approx. 30 mins" parses to 30 |
| FieldNormalizer.DurationWithoutDigits | main.py:287 | "untimed" parses to 0 |
| FieldNormalizer.NormalizeYesNo | main.py:290-296 | always "Yes" or "No"; "Yes" exactly when the value is truthy and its stripped lower-cased text is yes, y, true or 1 |
| FieldNormalizer.YesNoIdempotent | main.py:290-296 | normalising a normalised flag returns it unchanged |
| FieldNormalizer.YesNoByText | main.py:291-294 | values with the same truthiness and the same stripped lower-cased text get the same flag |
| FieldNormalizer.YesNoCaseInsensitive | main.py:293 | the flag of a string does not depend on its letter case |
| FieldNormalizer.YesNoOfList | main.py:293-294 | a list value is always "No" |
| FieldNormalizer.YesNoOfYes | main.py:294-295 | "Yes" gives "Yes" |
| FieldNormalizer.YesNoOfNo | main.py:296 | "No" gives "No" |
| FieldNormalizer.YesNoOfUpperTrue | main.py:293-295 | "TRUE" gives "Yes" |
| FieldNormalizer.YesNoOfPaddedY | main.py:293-295 | " y " gives "Yes" |
| FieldNormalizer.YesNoOfOne | main.py:293-295 | the integer 1 gives "Yes" |
| TestTypes.Lookup | main.py:303-317 | `reverse_map.get`: a hit is a code, reached from itself or from its full type name; every code maps to itself |
| TestTypes.LookupTable | main.py:303-317 | the six type names map to A, B, C, K, P and S, and every code maps to itself |
| TestTypes.LookupOfName | main.py:304-309 | the full name of a code maps back to that code |
| TestTypes.CodeOf | main.py:320-325 | the stripped text, or failing that its title-cased form, looked up: a hit is always a code |
| TestTypes.CodeOfEntry | main.py:320-321 | a key of the map, as written, finds its code directly |
| TestTypes.CodeOfLowerCase | main.py:322-325 | a lower-cased type name still finds its code through the title-case fallback |
| TestTypes.TitleOfLowerCapitalised | main.py:324 | title-casing a lower-cased capitalised word restores it |
| TestTypes.Found | main.py:319-327 | the hits in order: no more than the lookups; a code is among them exactly when some lookup found it |
| TestTypes.Elements | main.py:319-320 | iterating `types` fails with `TypeError` exactly on a non-list, non-string value; strings iterate by character |
| TestTypes.TestTypeCodes | main.py:299-328 | falsy gives `[]`; fails exactly on a truthy int or bool; otherwise distinct codes, and a code is present exactly when some element maps to it |
| TestTypes.MapTestTypesToCodes | main.py:299-328 | the loop computes `TestTypeCodes` |
| TestTypes.CollectCodes | main.py:318-328 | the loop keeps the first occurrence of each found code, in input order |
| TestTypes.CodesMembers | main.py:318-327 | a code is collected exactly when some item maps to it |
| TestTypes.FoundConcat | main.py:319-327 | the hits of two runs of items, one after the other, are the hits of the first run followed by those of the second |
| TestTypes.TestTypeCodesPrefix | main.py:318-328 | the codes of the first `j` items of a list are a prefix of the codes of the whole list: codes keep the order of their first occurrence |
| TestTypes.RepeatedTypeCodes | main.py:326-327 | a repeated type contributes its code once, at its first position |
| TestTypes.AbilityKnowledgeExample | main.py:299-328 | ["Ability", "Knowledge", "Ability"] maps to ["A", "K"] |
| CandidateFilter.KeepIndividual | main.py:136 | the kept documents are individual, come from the input and are no more than it |
| CandidateFilter.KeepIndividualMembers | main.py:136 | a document is kept exactly when it was retrieved and is individual |
| CandidateFilter.KeepIndividualConcat | main.py:136 | filtering preserves retrieval order |
| CandidateFilter.KeepAllIndividual | main.py:136 | nothing is dropped when every document is individual |
| CandidateFilter.NoneKept | main.py:136-138 | nothing survives exactly when no document is individual |
| CandidateFilter.FilterCandidates | main.py:195-198 | empty exactly when nothing was retrieved; all individual when any is; all retrieved documents when none is |
| CandidateFilter.FilledEntriesKeepType | main.py:64-65 | documents of a filled catalog are individual exactly when their stored type is "individual", and always when the entry lacked one |
| CandidateFilter.NormalizedUrls | main.py:140-143 | every url normalised in order; fails with `AttributeError` exactly when some url is not a string |
| CandidateFilter.RecommendRaw | main.py:128-143 | fails with `AttributeError` exactly when a url among the first `k` candidates is not a string; otherwise the i-th result is the normalised url of the i-th of those candidates, with no trailing slash and already normalised |
| CandidateFilter.RecommendRawSucceeds | main.py:136-143 | when every candidate's url is a string the raw recommendation succeeds with one url per candidate in `[:k]`; the urls of dropped documents do not matter |
| CandidateFilter.IndividualByType | main.py:136 | a document is individual exactly when its `solution_type` is missing or is "individual" |
| Rerank.FallbackIndices | main.py:225-226 | `range(1, min(6, n + 1))`: the positions 1..min(5, n) |
| Rerank.Candidates | main.py:220-233 | a JSON array's elements through `int(...)`, else the fallback positions |
| Rerank.ValidIndices | main.py:234 | the in-range coerced positions, no more than the inputs |
| Rerank.ValidIndicesMembers | main.py:230-234 | a position is valid exactly when it came from the reply and is in 1..n |
| Rerank.Accepted | main.py:229-240 | the cleaned positions are distinct, in range and at most ten |
| Rerank.AcceptedMembers | main.py:229-240 | below the cap, a position is accepted exactly when it was in the reply and in range |
| Rerank.NormalizeIndices | main.py:229-240 | the cleaning loop, with its early exit at ten, computes `Accepted` and its `seen` set |
| Rerank.MissingUpTo | main.py:244-247 | the positions 1..m not yet taken |
| Rerank.MissingUpToAscending | main.py:244 | the missing positions come in ascending order |
| Rerank.MissingUpToComplete | main.py:244-247 | every untaken position in 1..m is offered |
| Rerank.Filled | main.py:243-249 | the fill extends the cleaned positions and leaves five or more untouched |
| Rerank.FillToMinimum | main.py:243-249 | the fill loop, with its early exit at five, computes `Filled` and its `seen` set |
| Rerank.FilledWellFormed | main.py:243-249 | after the fill, positions are distinct, in range and at most ten, and there are at least `min(5, n)` |
| Rerank.FillTakesSmallest | main.py:244-248 | the fill adds the smallest untaken positions first |
| Rerank.SelectionWellFormed | main.py:220-252 | the final positions are distinct and in range, between `min(5, n)` and ten, and no more than the candidates |
| Rerank.TruncationKeepsAll | main.py:252 | the truncation to ten never removes anything |
| Rerank.Selection | main.py:220-252 | at most ten positions, and the reranker's accepted positions come first, in the order it gave them |
| Rerank.FallbackSelection | main.py:222-226 | a reply that is not a JSON array selects the first `min(5, n)` positions |
| Rerank.ExampleSelection | main.py:220-252 | reply [3, 3, 99, 1] over ten candidates selects [3, 1, 2, 4, 5] |
| Rerank.ExampleAccepted | main.py:229-240 | the repeat and the out-of-range 99 are dropped: [3, 1] |
| Rerank.ExampleMissing | main.py:243-249 | the fill after [3, 1] adds 2, 4 and 5 |
| Resolution.RecordOf | main.py:256-268 | a record fails exactly when the test types cannot be mapped; url and name are copied unchanged |
| Resolution.RecordShape | main.py:263-267 | the flags are "Yes" or "No", test types are distinct codes, and a missing duration is 0 |
| Resolution.FlagFallbacks | main.py:264-265 | `remote_testing_support` is preferred to `remote_support`, which is preferred to "No"; likewise for the adaptive flag |
| Resolution.ToRecord | main.py:258-268 | building a record with the loop-based code mapping gives `RecordOf` |
| Resolution.AsObject | main.py:258-268 | a record's JSON object has exactly the seven schema keys |
| Resolution.SevenFields | main.py:258-268 | seven fields, and `solution_type` is never one of them |
| Resolution.PickAll | main.py:254-269 | no more records than positions |
| Resolution.ResolveAll | main.py:254-269 | the records of the selected positions: no more records than positions |
| Resolution.Resolve | main.py:254-269 | the resolution loop computes `ResolveAll`: records in position order, out-of-range positions skipped, the first failure propagated |
| Resolution.PickErrSticks | main.py:254-269 | once a record fails, later positions do not change the failure |
| Resolution.ResolveInRange | main.py:254-269 | for in-range positions: success exactly when every named record succeeds, and then one record per position, in order |
| Resolution.DistinctUrls | main.py:254-269 | distinct positions over candidates with distinct urls give distinct record urls |
| Recommend.Recommended | main.py:195-271 | a successful answer never has more than ten records |
| Recommend.RecommendAssessments | main.py:188-271 | filter, select and resolve compute `Recommended` |
| Recommend.RecommendedShape | main.py:243-252 | a successful answer has one record per selected position: between `min(5, n)` and ten, and at most `n` |
| Recommend.RecommendedRecords | main.py:254-269 | succeeds exactly when every selected candidate's record does; then the records of the selected candidates, in order |
| Recommend.AtLeastFive | main.py:243-252 | with five or more candidates a successful answer has five to ten records |
| Recommend.NothingRetrieved | main.py:195-198 | nothing retrieved gives an empty answer |
| Recommend.RecommendedUrlsDistinct | main.py:233-269 | candidates with distinct urls give recommendations with distinct urls |
| Evaluation.Normalize | evaluation.py:11-13 | one normalised url per input url, in order |
| Evaluation.NormalizeCanonical | evaluation.py:11-13 | normalised urls have no trailing slash and no upper case, and normalising again changes nothing |
| Evaluation.HitsBound | evaluation.py:20 | the hits never exceed the distinct relevant urls |
| Evaluation.RecallAtK | evaluation.py:16-21 | 0 with no relevant urls; always between 0 and 1; 0 exactly when there is no hit |
| Evaluation.FullRecall | evaluation.py:16-21 | with distinct relevant urls, recall is 1 exactly when every relevant url is among the first `k` predictions |
| Evaluation.NoHitsNoRecall | evaluation.py:17-21 | no relevant url in the top `k` gives 0 |
| Evaluation.RecallMonotoneInK | evaluation.py:17 | a larger `k` never lowers recall |
| Evaluation.RecallOfTopK | evaluation.py:17-20 | only the top `k` predictions matter, and a repeated prediction counts once |

## Left out

- The vector store, the embedding model, the language model client, their lazy singletons and configuration checks are not modelled. They are I/O. The retrieved documents and the reranker's reply are parameters.
- The text of the rerank prompt and of the candidate blocks (main.py:200-217) is not modelled. It only feeds the language model.
- An exception raised by the language model call is not modelled. Only its reply is.
- `json.loads` is abstracted to `Reply`: a JSON array or anything else. `int(...)` on a reply element is the parameter `coerce`. Its behaviour on floats, numeric strings and booleans is not modelled.
- Reading the catalog file and writing it back (main.py:58-59, 69-70) are I/O. `Catalog.FillDefaults` returns the filled catalog and the "updated" flag instead.
- The start-up fill mutates the dicts that the documents then share as metadata. The model passes values, so this aliasing is not captured.
- JSON floats and nested objects are not values of `Json.Value`. A float duration and a float in a list of test types are therefore not modelled.
- Strings are ASCII only. `lower`, `strip`, `title` and `\d` follow their ASCII behaviour. Unicode case mapping, Unicode digits and Unicode whitespace are not modelled.
- Json.ToStr: renders lists with single-quoted strings and no escapes. Python chooses double quotes for strings that contain a single quote and escapes control characters (`'\x1c'`), so a digit search over a list that holds control characters can differ from Python's.
- Json.Repr: a string is always put between single quotes, without escapes. Python picks double quotes for a string that holds a single quote and escapes control characters.
- FieldNormalizer.ParseDurationMinutes: the interpreter's limit on the number of digits `int()` accepts (4300 by default) is not modelled. Past it Python raises `ValueError`, the handler catches it and the duration is 0; the model returns the full value.
- FieldNormalizer.ParseDurationMinutes: a duration of `True` gives the integer 1. Python returns `True` itself, since `bool` is a subclass of `int`, and it is serialised as `true`.
- CandidateFilter.RecommendRaw: returns the normalised url strings instead of one-key `{"url": ...}` dicts.
- Evaluation.RecallAtK: uses exact rational arithmetic. Python's float rounding is not modelled.
- The `evaluate` driver (evaluation.py:24-57) is not modelled. It reads the training file, prints, and averages recalls.
- Recommend.RecommendedUrlsDistinct: url uniqueness is proved only for candidates whose urls are distinct. The code does not enforce it.
