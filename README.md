# Citizen registry: a Dafny model

This project models the core of a small citizen-registry REST service. The service keeps
*imports*: batches of citizens, each with an id, an address, a name, a birth date, a gender and a
list of relatives. The model covers:

- the relational validation of an import and of a citizen patch (unique ids, no repeated relative,
  no self-relation, relatives inside the batch, symmetric relation), and the older validator that
  converts birth dates in place;
- `post_import`: parsing the birth dates, numbering the import by the count of stored imports, and
  the insert;
- `patch_citizen`: the patched birth date, the `$push`/`$pull` bulk update of the relatives of the
  old and new relatives, the `$set` of the patched fields, all in one transaction, and the response;
- `get_birthdays`: presents counted per birth month and relative, laid out over twelve months;
- `get_percentile_age`: ages grouped by town, and the `{town, p50, p75, p99}` layout;
- the response cache that wraps the read handlers.

The document store is an in-memory `imports` collection (`Registry.Store`, a class whose
`imports` field the handlers reassign). Collection lookups are "first document that matches", as
`find_one` does. Dictionaries whose key order the service relies on (`defaultdict`s) are
insertion-ordered association lists. The handler tests of the repository appear as example
lemmas.

Files:

| file | module |
|---|---|
| `wrappers.dfy` | `Option`, `Result`, `Outcome` |
| `date_codec.dfy` | `DD.MM.YYYY` parsing and formatting |
| `registry.dfy` | citizens, imports, patches, failures, the consistency invariant, the store |
| `import_validator.dfy` | `DataValidator` |
| `legacy_validator.dfy` | `Validator` |
| `relatives_update.dfy` | `update_relatives.py` |
| `patch_citizen.dfy` | `patch_citizen_handler.py` |
| `post_import.dfy` | `post_import_handler.py` |
| `birthdays.dfy` | `get_birthdays_handler.py` |
| `percentile_age.dfy` | `get_percentile_age_handler.py` |
| `response_cache.dfy` | `response_cacher.py` |

Two points of the code the model follows closely:

- Both steps of a patch, the relatives update and the field write, run inside one store
  transaction (`application/handlers/patch_citizen/patch_citizen_handler.py:83-89`). The model
  restores the collection whenever either step fails.
- The import-creation lock is `post_imports` (`application/handlers/post_import_handler.py:66`).
  Locks are not modelled.

## Model

| member | source | states |
|---|---|---|
| DateCodec.DaysInMonth | validator.py:28-31 | a month has 28 to 31 days, and 29 exactly for February of a leap year |
| DateCodec.Parse | validator.py:28-31 | a date that `%d.%m.%Y` accepts is a real calendar date written in ten characters |
| DateCodec.Format | application/handlers/patch_citizen/patch_citizen_handler.py:61-64 | `strftime('%d.%m.%Y')` renders a date as two-digit day, two-digit month and four-digit year separated by dots: ten characters with dots at positions 2 and 5 (the year zero-padded, see Left out) |
| DateCodec.ParseFormat | application/handlers/patch_citizen/patch_citizen_handler.py:61-64 | formatting a date from year 1000 on and parsing the text back gives the same date |
| DateCodec.FormatParse | application/handlers/post_import_handler.py:17-18 | a text that parses is exactly the formatted form of its date |
| DateCodec.ParseAcceptsExample | tests/handlers_tests/patch_citizen_handler_tests.py:18-25 | `'31.12.2019'` parses to 31 December 2019 |
| DateCodec.ParseRejectsExamples | tests/handlers_tests/post_import_handler_tests.py:39-48 | `'aaa'`, `'-10.02.1008'`, `'35.02.1998'` and `'12.14.2019'` are refused |
| DateCodec.ParseLeapDay | validator.py:28-31 | 29 February is refused in 2019 and accepted in 2020 |
| Registry.UniqueByCardinality | data_validator.py:30-32 | the set of citizen ids is as large as the batch exactly when no two citizens share an id |
| Registry.FindCitizen | application/handlers/patch_citizen/update_relatives.py:67-72 | the `$elemMatch` projection finds the first citizen with the id, and finds none exactly when the id is absent |
| Registry.FindDocument | application/handlers/patch_citizen/update_relatives.py:67-71 | `find_one` returns the first import with the id that holds all the requested citizen ids, or none when no import does |
| Registry.GetCitizens | application/handlers/shared.py:19-22 | the citizens of an import with the id, and `ImportNotFound` exactly when no import has it |
| Registry.ConsistentByRelation | data_validator.py:30-47 | the import invariant depends only on the ids and the relatives lists |
| Registry.ConsistentRelation | data_validator.py:41-47 | a consistent import describes a symmetric, irreflexive relation between its own citizens |
| Registry.ConvertBirthDate | validator.py:28-29 | the in-place conversion changes only `birth_date`, and a text that parses becomes a valid date |
| Registry.ConvertPrefix | validator.py:20-31 | after converting the first k citizens, those are converted and the rest are untouched |
| Registry.FirstBadDate | application/handlers/post_import_handler.py:17-18 | the first citizen whose date does not parse, with all dates before it parsing; none exactly when every date parses |
| Registry.Store.constructor | application/handlers/post_import_handler.py:28 | an empty collection satisfies the store invariant |
| Registry.FindDocumentByPosition | application/handlers/post_import_handler.py:28-29 | when ids are assigned by count, the import with id k is the one at position k |
| ImportValidator.CheckRelatives | data_validator.py:43-47 | the relatives loop passes exactly when every relative exists and lists the citizen back; a failure names an unknown or a one-sided relative that exists |
| ImportValidator.CheckCitizen | data_validator.py:36-47 | one citizen passes exactly when it has no repeated relative, is not its own relative and every relative exists and lists it back; a failure follows the order duplicates, self, then relatives |
| ImportValidator.CheckCitizens | data_validator.py:35-47 | the loop passes exactly when every citizen passes; a failure comes from a citizen all of whose predecessors pass |
| ImportValidator.PassesIffConsistent | data_validator.py:34-47 | with unique ids, every citizen passing the loop is the same as the batch being consistent |
| ImportValidator.ValidateImport | data_validator.py:30-47 | a batch is accepted exactly when it is consistent; duplicate ids are reported first and exactly when present; any other error comes from the first failing citizen |
| ImportValidator.AcceptedIsSymmetric | data_validator.py:41-47 | an accepted batch has a symmetric, irreflexive relation whose relatives are all in the batch |
| ImportValidator.EmptyAccepted | tests/import_validator_tests.py:118-120 | the empty batch is accepted |
| ImportValidator.ValidateCitizenPatch | data_validator.py:63-68 | without `relatives` nothing is checked; otherwise the patch passes exactly when its relatives are distinct and exclude the citizen, and duplicates are reported before self-relation |
| LegacyValidator.CheckCitizen | validator.py:21-31 | one citizen passes exactly when it is not its own relative, its relatives are all in the batch and its date parses; it fails as self-relative, then as unknown relative, then as bad date format, each exactly when the earlier checks pass and its own fails, and never with the duplicate-id error |
| LegacyValidator.FirstFailure | validator.py:21-31 | the first citizen that fails and its error, every earlier citizen passing; none exactly when all pass |
| LegacyValidator.FirstFailureAt | validator.py:21-31 | the loop raises at a citizen, with that citizen's error, when every earlier citizen passes and that one fails |
| LegacyValidator.ValidateImport | validator.py:14-31 | duplicate ids are refused with nothing converted; otherwise the dates before the first failing citizen are converted in place, and on success all of them are |
| LegacyValidator.AcceptedProperties | validator.py:17-31 | an accepted batch has unique ids, no self-relation, relatives inside the batch and only valid dates |
| LegacyValidator.AcceptsOneSidedRelation | validator.py:21-26 | this validator accepts a one-sided relation that `DataValidator` rejects as not duplex |
| RelativesUpdate.MakeUpdateRelativesRequest | application/handlers/patch_citizen/update_relatives.py:27-31 | only `$push` and `$pull` give a request, which carries the import, the citizen and the targets; anything else fails with `ValueError` |
| RelativesUpdate.DbRequests | application/handlers/patch_citizen/update_relatives.py:47-51 | one request per non-empty set, the push before the pull |
| RelativesUpdate.MakeDbRequests | application/handlers/patch_citizen/update_relatives.py:47-51 | the loop builds exactly the requests of `DbRequests` |
| RelativesUpdate.RelativesDifference | application/handlers/patch_citizen/update_relatives.py:88-91 | the push and pull sets are disjoint; pushed ids are new and pulled ids are old; old minus pulled plus pushed is the new relatives set; both are empty exactly when nothing changes |
| RelativesUpdate.DifferenceIgnoresRepeats | tests/handlers_tests/update_relatives_tests.py:45-57 | `[2, 3, 4, 4]` against `{1, 2, 3}` pushes `{4}` and pulls `{1}` |
| RelativesUpdate.RemoveAll | application/handlers/patch_citizen/update_relatives.py:29-31 | `$pull` removes every occurrence of the id and keeps the other elements and their distinctness |
| RelativesUpdate.Relink | application/handlers/patch_citizen/update_relatives.py:29-31 | an array-filtered update changes only the relatives of the targeted citizens |
| RelativesUpdate.ApplyRequest | application/handlers/patch_citizen/update_relatives.py:29-31 | an `UpdateMany` on `import_id` changes only the imports with that id |
| RelativesUpdate.ApplyAll | application/handlers/patch_citizen/update_relatives.py:122-123 | a bulk write keeps every import and its id in place |
| RelativesUpdate.StoredRelatives | application/handlers/patch_citizen/update_relatives.py:67-73 | the relatives set of the citizen in the first import holding it; none exactly when no import with that id holds it |
| RelativesUpdate.GetRelatives | application/handlers/patch_citizen/update_relatives.py:67-73 | `_get_relatives` returns that set, or fails with "not found" exactly when it is missing |
| RelativesUpdate.CheckAllCitizensExist | application/handlers/patch_citizen/update_relatives.py:104-110 | passes exactly when there is nothing to check or an import with the id holds every id |
| RelativesUpdate.WriteRelativesUpdate | application/handlers/patch_citizen/update_relatives.py:122-125 | the requests are applied in order, and the write fails exactly when the modified count differs from the number of requests |
| RelativesUpdate.UpdateRelatives | application/handlers/patch_citizen/update_relatives.py:139-146 | the outcome and the new collection are those of the whole sequence: nothing without `relatives`, then lookup, diff, existence check and bulk write |
| RelativesUpdate.Relinked | application/handlers/patch_citizen/update_relatives.py:139-146 | the relinked import keeps its citizens' ids in place |
| RelativesUpdate.ApplyRequestByPosition | application/handlers/patch_citizen/update_relatives.py:29-31 | with ids equal to positions, a request rewrites at most the import at its id |
| RelativesUpdate.ModifiedOne | application/handlers/patch_citizen/update_relatives.py:123-124 | replacing one document counts as a modification exactly when the document changed |
| RelativesUpdate.RelinkNobody | application/handlers/patch_citizen/update_relatives.py:29-31 | a request with no targets changes nothing |
| RelativesUpdate.ApplyPushPull | application/handlers/patch_citizen/update_relatives.py:47-51 | the push and pull requests replace the import's citizens by their pushed-then-pulled form and leave every other import alone |
| RelativesUpdate.ApplyDbRequests | application/handlers/patch_citizen/update_relatives.py:142-146 | the requests built from the diff relink the import exactly as `Relinked` describes |
| RelativesUpdate.PushModifies | application/handlers/patch_citizen/update_relatives.py:122-125 | a push onto existing targets modifies the import once |
| RelativesUpdate.PullModifies | application/handlers/patch_citizen/update_relatives.py:122-125 | a pull modifies the import when some target lists the citizen |
| RelativesUpdate.CountMatches | application/handlers/patch_citizen/update_relatives.py:122-125 | on a consistent import whose new relatives exist, the modified count always equals the number of requests |
| RelativesUpdate.RelinkedOther | application/handlers/patch_citizen/update_relatives.py:142-146 | after relinking, another citizen lists the patched citizen exactly when it is a new relative, and keeps its other relatives |
| RelativesUpdate.ConsistentAfterRelink | data_validator.py:39-47 | a relinking that keeps each side's links in step keeps the import consistent |
| RelativesUpdate.RelinkedKeepsConsistent | application/handlers/patch_citizen/update_relatives.py:139-146 | a valid new relatives list, applied with the updates of the other side, keeps a consistent import consistent |
| RelativesUpdate.StoredRelativesByPosition | application/handlers/patch_citizen/update_relatives.py:67-73 | with ids equal to positions, `_get_relatives` reads the import at position `import_id` |
| RelativesUpdate.UpdateRelativesByPosition | application/handlers/patch_citizen/update_relatives.py:139-146 | with ids equal to positions: no `relatives`, nothing; a missing citizen, not found; a missing new relative, not found with nothing written; otherwise the relinked import |
| PatchCitizen.ParseBirthDate | application/handlers/patch_citizen/patch_citizen_handler.py:20-21 | without a date the patch is unchanged; a date that parses is replaced by a valid date; a date that does not parse fails |
| PatchCitizen.ParseBirthDateExample | tests/handlers_tests/patch_citizen_handler_tests.py:18-25 | `'31.12.2019'` becomes 31 December 2019 |
| PatchCitizen.ApplyPatch | application/handlers/patch_citizen/patch_citizen_handler.py:39 | `$set` gives each named field its patched value, keeps every other field, and keeps the id |
| PatchCitizen.ApplyPatchIdempotent | application/handlers/patch_citizen/patch_citizen_handler.py:39 | applying the same patch twice is applying it once |
| PatchCitizen.WriteCitizenUpdate | application/handlers/patch_citizen/patch_citizen_handler.py:39-48 | the first import with the id holding the citizen has that citizen patched and returned; otherwise "not found" and nothing changes |
| PatchCitizen.CitizenData | application/handlers/patch_citizen/patch_citizen_handler.py:61-64 | only the birth date changes, to its `DD.MM.YYYY` text (ten characters), which from year 1000 on parses back to the stored date |
| PatchCitizen.CitizenDataExample | tests/handlers_tests/patch_citizen_handler_tests.py:71-75 | 31 December 2019 is rendered `'31.12.2019'` |
| PatchCitizen.PatchedCitizens | application/handlers/patch_citizen/patch_citizen_handler.py:86-88 | the patched import keeps its citizens' ids in place |
| PatchCitizen.PatchKeepsConsistent | application/handlers/patch_citizen/patch_citizen_handler.py:86-88 | a validated patch whose relatives exist keeps a consistent import consistent |
| PatchCitizen.PatchKeepsDates | application/handlers/patch_citizen/patch_citizen_handler.py:81-88 | a patch with a parsed date keeps every stored date parsed |
| PatchCitizen.PatchOutcome | application/handlers/patch_citizen/patch_citizen_handler.py:86-89 | a successful patch answers with status 201 |
| PatchCitizen.PatchOutcomeReturnsStored | application/handlers/patch_citizen/patch_citizen_handler.py:39-64 | once the date is parsed, success exactly when the checks pass, failures carry the check's error; the answer is the citizen now stored at its old position (id kept, named fields patched, others kept, date parsed) with that date rendered as text, which from year 1000 on converts back to the stored citizen |
| PatchCitizen.PatchResult | application/handlers/patch_citizen/patch_citizen_handler.py:81-89 | a successful patch answers with status 201 |
| PatchCitizen.PatchResultReturnsStored | application/handlers/patch_citizen/patch_citizen_handler.py:67-89 | a date that does not parse is refused with the date error; on success the answer keeps the citizen's id, has every named field patched and every other kept, and its date is the patched date (or the stored one) as `DD.MM.YYYY`; from year 1000 on a patched date comes back exactly as sent |
| PatchCitizen.PatchCheckKeepsConsistent | application/handlers/patch_citizen/patch_citizen_handler.py:86-88 | a validated patch that passes the checks keeps the import consistent |
| PatchCitizen.PatchCheckFailsOnlyOnUnknownRelatives | application/handlers/patch_citizen/update_relatives.py:139-146 | on a consistent import holding the citizen, the checks pass exactly when every new relative exists; failure is only "citizens not found" |
| PatchCitizen.PatchResultKeepsConsistent | application/handlers/patch_citizen/patch_citizen_handler.py:81-89 | a successful, validated patch leaves the import consistent |
| PatchCitizen.PatchCitizen | application/handlers/patch_citizen/patch_citizen_handler.py:81-89 | the answer is `PatchResult`; every failure leaves the collection as it was; success stores the patched import and answers the citizen now stored, with its date as text; the store invariant holds |
| PatchCitizen.UpdateCitizen | application/handlers/patch_citizen/patch_citizen_handler.py:83-89 | the transaction: the answer is `PatchOutcome`; a failure in either step rolls back; success stores the patched import and answers the citizen now stored, with its date as text |
| PatchCitizen.WithCitizensTwice | application/handlers/patch_citizen/patch_citizen_handler.py:86-88 | writing an import's citizens twice keeps only the second write |
| PatchCitizen.CheckMatchesEffect | application/handlers/patch_citizen/patch_citizen_handler.py:86 | the checks fail exactly as `update_relatives` does, and a passing update leaves the relinked import |
| PatchCitizen.WriteAfterRelink | application/handlers/patch_citizen/patch_citizen_handler.py:86-88 | after the relatives update, the field write finds the same import and citizen, and the result keeps the store invariant |
| PostImport.ParsedUpTo | application/handlers/post_import_handler.py:17-18 | the loop gets through every citizen exactly when every date parses |
| PostImport.ParsedUpToAt | application/handlers/post_import_handler.py:17-18 | the loop stops at a citizen exactly when every earlier date parses and that one does not |
| PostImport.ParseBirthDates | application/handlers/post_import_handler.py:17-18 | the loop succeeds exactly when every date parses; it converts the citizens in place up to the first date that does not parse |
| PostImport.ParsedPayload | application/handlers/post_import_handler.py:17-18 | a fully parsed payload has only valid dates, the same ids, and is consistent exactly when the batch was |
| PostImport.AddImportId | application/handlers/post_import_handler.py:28-29 | the new id is the count of stored imports and no stored import carries it |
| PostImport.WriteToDb | application/handlers/post_import_handler.py:43-48 | an acknowledged insert appends the document and answers its id with 201; otherwise "not acknowledged" |
| PostImport.PostImportResult | application/handlers/post_import_handler.py:64-68 | success exactly when every date parses and the write is acknowledged, answering the count of imports with 201; a bad date is reported exactly when one exists |
| PostImport.Posted | application/handlers/post_import_handler.py:64-68 | the collection only grows, by the parsed batch under the next id exactly on success, and stays valid |
| PostImport.PostImport | application/handlers/post_import_handler.py:64-68 | the answer and the new collection are `PostImportResult` and `Posted`; the store invariant holds |
| PostImport.PostAllNumbers | application/handlers/post_import_handler.py:28-29 | posting batches whose dates all parse gives the old collection followed by the batches, parsed and numbered on from its size |
| PostImport.PostAllAppends | application/handlers/post_import_handler.py:28-29 | successive posts append one import per batch, numbered on from the size of the collection |
| PostImport.SuccessivePostsNumberImports | application/handlers/post_import_handler.py:28-29 | n posts on an empty store give ids 0 to n-1, pairwise distinct |
| PostImport.AddImportIdExamples | tests/handlers_tests/post_import_handler_tests.py:50-63 | an empty store hands out 0, a store with one import hands out 1 |
| Birthdays.Bump | application/handlers/get_birthdays_handler.py:23-24 | `entries[id] += 1` adds one to that id's count and changes no other count or key position |
| Birthdays.Record | application/handlers/get_birthdays_handler.py:23-24 | a new month goes at the end and every month already present keeps its place |
| Birthdays.BumpNewId | application/handlers/get_birthdays_handler.py:23 | an id counted for the first time is appended after the others with count 1 |
| Birthdays.BumpExistingId | application/handlers/get_birthdays_handler.py:23 | an id already counted keeps its place and its count goes up by one |
| Birthdays.RecordNewMonth | application/handlers/get_birthdays_handler.py:23 | a month seen for the first time is appended after the others, holding one present for the id |
| Birthdays.RecordExistingMonth | application/handlers/get_birthdays_handler.py:23 | a month already present keeps its place and only its entries change |
| Birthdays.RecordPresents | application/handlers/get_birthdays_handler.py:23-24 | recording a present adds one to the count of that month and id only |
| Birthdays.RecordTotal | application/handlers/get_birthdays_handler.py:23-24 | recording a present adds one to the total |
| Birthdays.RecordMonths | application/handlers/get_birthdays_handler.py:23-24 | recording a present adds its month to the months |
| Birthdays.RecordGood | application/handlers/get_birthdays_handler.py:20-24 | months stay distinct; ids stay distinct with positive counts |
| Birthdays.GiftsCount | application/handlers/get_birthdays_handler.py:22-24 | a citizen gives one present per listed id, all in its birth month |
| Birthdays.AllGiftsCount | application/handlers/get_birthdays_handler.py:21-24 | the presents number the total length of the relatives lists; each (month, id) occurs once per listing by a citizen born in that month |
| Birthdays.TallyOfGood | application/handlers/get_birthdays_handler.py:20-24 | the tally has distinct months, each with distinct ids and positive counts |
| Birthdays.TallyOfPresents | application/handlers/get_birthdays_handler.py:20-24 | each count is the number of occurrences of its (month, id) |
| Birthdays.TallyOfTotal | application/handlers/get_birthdays_handler.py:20-24 | the counts add up to the number of presents |
| Birthdays.TallyOfMonths | application/handlers/get_birthdays_handler.py:20-24 | the months of the tally are the months of the presents |
| Birthdays.TallyOfCitizens | application/handlers/get_birthdays_handler.py:20-24 | the tally in the citizens' terms: counts, total and months |
| Birthdays.GetBirthdaysData | application/handlers/get_birthdays_handler.py:20-24 | the loop builds the tally of all presents: each count is how often the id is listed by citizens born in that month; the counts add up to the total relatives; a month appears exactly when someone born in it has a relative |
| Birthdays.NoRelativesNoData | tests/handlers_tests/get_birthdays_handler_tests.py:8-15 | no citizens or no relatives give no data |
| Birthdays.MultipleRelativesExample | tests/handlers_tests/get_birthdays_handler_tests.py:23-28 | the three-citizen example gives `{2: {1: 1, 2: 1}, 3: {0: 2, 1: 1}}` in that order |
| Birthdays.ExampleTally | tests/handlers_tests/get_birthdays_handler_tests.py:23-28 | the five presents of that example, recorded in loop order, give that tally |
| Birthdays.GetBirthdaysRepresentation | application/handlers/get_birthdays_handler.py:36-39 | twelve months, each holding its month's entries, and nothing for a month without data |
| Birthdays.StoredMonths | application/handlers/get_birthdays_handler.py:23 | stored dates have months 1 to 12, so every month with presents does |
| Birthdays.GetBirthdays | application/handlers/get_birthdays_handler.py:54-58 | fails exactly when the import is missing; otherwise twelve months of the import's tally with status 201 |
| PercentileAge.ByTown | application/handlers/get_percentile_age_handler.py:33-36 | one group per town of the citizens |
| PercentileAge.GroupOfIsByTown | application/handlers/get_percentile_age_handler.py:33-36 | appending citizen by citizen builds the reference grouping, whose towns are distinct |
| PercentileAge.FindByTown | application/handlers/get_percentile_age_handler.py:33-36 | a town's group holds the ages of its citizens in input order, and a town without citizens has none |
| PercentileAge.SizeOfGroupOf | application/handlers/get_percentile_age_handler.py:33-36 | the groups together hold one age per citizen |
| PercentileAge.FirstTownsAreTowns | application/handlers/get_percentile_age_handler.py:33-36 | the keys are exactly the towns of the citizens |
| PercentileAge.GroupByTown | application/handlers/get_percentile_age_handler.py:33-36 | the keys are the citizens' towns, once each, in first-appearance order; each holds its citizens' ages in input order; the sizes add up to the number of citizens; no citizens give no groups |
| PercentileAge.GroupByTownExample | tests/handlers_tests/get_percentile_age_handler_tests.py:34-37 | `A, A, B` give `{'A': [20, 19], 'B': [19]}` |
| PercentileAge.GetPercentilesRepresentation | application/handlers/get_percentile_age_handler.py:58-59 | one entry per town, in key order, with `p50`, `p75` and `p99` the first three values of the town's list |
| PercentileAge.RepresentationFollowsTowns | application/handlers/get_percentile_age_handler.py:78-80 | the response names each town of the import once, in the order its first citizen appears; no citizens give `{'data': []}` |
| PercentileAge.RepresentationExample | tests/handlers_tests/get_percentile_age_handler_tests.py:73-77 | two towns give two entries in key order |
| ResponseCache.FirstMatch | application/decorators/response_cacher.py:22 | `find_one` gives the first document stored under the id, or none when no document is |
| ResponseCache.Project | application/decorators/response_cacher.py:22 | the projection keeps every field but `_id` and `import_id` |
| ResponseCache.CacheDocument | application/decorators/response_cacher.py:35-37 | the stored document has every field of the response data and the `import_id`, and a response field of that name wins |
| ResponseCache.CacheRoundTrip | tests/decorators_tests/response_cacher_tests.py:17-27 | reading back a stored response gives its data less `_id` and `import_id`, under the id it was stored with unless the response names another |
| ResponseCache.Database.constructor | application/decorators/response_cacher.py:22-23 | a fresh database has no cache collection |
| ResponseCache.Database.GetCachedData | application/decorators/response_cacher.py:22-23 | the fields of the first document stored under the id, less `_id` and `import_id`, or none exactly when none is stored |
| ResponseCache.Database.CacheData | application/decorators/response_cacher.py:35-37 | the document is appended to the named collection and nothing else changes |
| ResponseCache.CachedIn | application/decorators/response_cacher.py:22-23 | the same lookup on a value of the collections |
| ResponseCache.CallResult | application/decorators/response_cacher.py:56-61 | a hit answers the cached data with 201; a miss answers the handler's outcome unchanged |
| ResponseCache.AfterCall | application/decorators/response_cacher.py:56-61 | the collections change exactly on a miss the handler answered, by one document in the named collection, and no other collection changes |
| ResponseCache.CachedCall | application/decorators/response_cacher.py:52-61 | the wrapper answers `CallResult` and leaves `AfterCall` |
| ResponseCache.HitIgnoresHandler | application/decorators/response_cacher.py:56-58 | on a hit neither the answer nor the store depends on what the handler would do |
| ResponseCache.FailureStoresNothing | application/decorators/response_cacher.py:59-60 | a handler that raises leaves every collection as it was |
| ResponseCache.MissThenHit | application/decorators/response_cacher.py:53-61 | after a miss the handler answered, the next call for the import hits, whatever its handler, and answers the first response's data with 201 |
| ResponseCache.OtherEntriesUntouched | application/decorators/response_cacher.py:53-61 | storing one import's response leaves every other import's and every other collection's cached data as it was |
| ResponseCache.FirstMatchAppend | application/decorators/response_cacher.py:22 | a document inserted at the end is found only when no earlier one matches |
| ResponseCache.CachedExample | tests/decorators_tests/response_cacher_tests.py:38-48 | a cached `{'import_id': 0, 'test': 'aaa'}` answers `{'test': 'aaa'}` with 201 |

## Left out

- The JSON schema checks (`jsonschema.validate` and the schema files): the citizen and patch datatypes hold the schema's field types by construction. Non-negative numbers and non-empty strings are not modelled.
- Locks (`MongoLock`, `multiprocessing.Lock`): every operation is modelled as running alone.
- Flask routing, response building, `index.py` and `application/service.py`.
- Index creation in `application/custom_mongo_client.py`.
- `_calculate_age`: it reads the wall clock and uses floating point. Ages are an input of `PercentileAge.GroupByTown`.
- `_calculate_percentile`: numpy interpolation. `PercentileAge.GetPercentilesRepresentation` takes its output as an input.
- The `get_percentile_age` handler's own sequencing is not modelled as one operation, since its middle steps are the two numeric ones above. Its lookup is `Registry.GetCitizens`.
- The field projections of `get_citizens`: the model returns whole citizens.
- DateCodec.Parse: only the canonical `DD.MM.YYYY` form is modelled. The single-digit days and months that `strptime` also accepts are treated as refused.
- DateCodec.FormatParse: the round trip is stated for years from 1000 on. Below that, `strftime` padding depends on the platform.
- DateCodec.Format: always renders the year as four zero-padded digits. `strptime` accepts years below 1000 ("01.01.0999"), and glibc's `strftime` renders those without padding ("01.01.999"), so for such years the service's text differs from the model's.
- PatchCitizen.CitizenData: the ten-character text rests on the same four-digit padding of years below 1000 as `DateCodec.Format`; the read-back to the stored date is stated from year 1000 on.
- ImportValidator.CheckRelatives: the relatives are visited in list order rather than Python set order. The contracts state the error only as "some relative is unknown or one-sided", which holds for any order.
- The MongoDB query engine: `array_filters`, `$elemMatch`, `$all` and `count_documents` are modelled by their effect on the in-memory collection. `modified_count` counts the documents a request changed.
- PostImport.WriteToDb: an unacknowledged insert is modelled as storing nothing. The real store gives no such guarantee.
- PostImport.PostImport: the `_id` that `insert_one` adds to the document is not modelled.
- PatchCitizen.PatchCitizen: requires the store invariant, namely import ids equal to positions and stored dates parsed. That is what `post_import` produces on a store that nothing else writes. A collection with duplicate or out-of-order ids is not covered.
- PatchCitizen.PatchCitizen: sessions are modelled only as the snapshot restored when the transaction aborts.
- Birthdays.GetBirthdaysRepresentation: the month keys `str(1)` to `str(12)` become positions 0 to 11. The months must be 1 to 12, which every stored `datetime` guarantees.
- Birthdays.GetBirthdaysRepresentation: each month's `{citizen_id, presents}` objects are (id, count) pairs.
- PercentileAge.GetPercentilesRepresentation: requires every town to have at least three values. The source indexes positions 0 to 2, and `_calculate_percentile` always yields three.
- ResponseCache.CachedCall: JSON serialisation of the response (`json.dumps`, `response.json`) is not modelled. The handler's outcome is a parameter, so "called once on a miss, never on a hit" becomes "its outcome is used only on a miss".
- The tests at `tests/handlers_tests/patch_citizen_handler_tests.py:77-135` exercise cache-deletion helpers that are not part of this model.
