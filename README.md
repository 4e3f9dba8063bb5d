# Film catalog client: snapshot sync and filtered queries

This is a Dafny model of the core of a desktop catalog client for films, each film with a status (orphan, adopted, abandoned), a region and a guardian. The client keeps a local SQLite snapshot of a remote database, refreshes it at start-up against a published SHA-256 hash, and serves paginated, filtered reads from it.

The model has one module per source file, plus two support modules:

- `Outcomes`: `Option` and `Result`.
- `Sqlite`: the parts of SQLite the queries rely on.
  - `$n` parameter binding.
  - `LIKE` with `%` and `_`.
  - BINARY text order.
  - `LIMIT`/`OFFSET`.
  - A WHERE clause as a filter that keeps row order.
- `FilmDatabase` (`src/lib/services/database.ts`):
  - `getFilms`, whose builder is an imperative method with a loop over the statuses, proved against a declarative description of its clauses and parameters;
  - what the built queries select from a table, proved equal to an independent description of the films that match the options;
  - the regions aggregate;
  - the `getDb` / `closeDbConnection` cache, as a class.
- `LegacyDatabase` (`src/lib/database.ts`): the older fixed queries and their cache.
- `SnapshotSync` (`src/lib/services/init.ts`):
  - the lowercase hex form of a digest;
  - the remote-hash token;
  - a pure description of a start-up run: the calls it makes, the state it leaves, the error it throws;
  - the imperative `initializeApp` / `downloadAndWriteDb` sequence on an `App` object, proved to follow that description.
- `FilterStores` (`src/lib/utils/stores.ts`): the filters store and its derived values.
- `AppState` (`src/lib/utils/state.ts`): the authentication store as a class, proved against pure step functions; and this file's own filters store.
- `PageLoader` (`src/routes/+page.ts`): the route's `load`.

Inputs and effects:

- A table is given as a `seq<Film>` already in `ORDER BY title` order.
- Network answers are inputs: the hash file, the database download and the auth endpoint.
- SHA-256 is a function parameter `sha256`.
- The database file, the stored hash, the stored API key and the connection cache are fields.

Behaviour the model keeps exactly as the code has it:

- The downloaded digest is compared with the remote hash case-sensitively (`!==`). An uppercase remote hash therefore never verifies (`SnapshotSync.NonLowercaseHashNeverVerifies`).
- A failed download or a failed verification is not turned into an offline start. The error escapes `initializeApp` even when a local database exists (`SnapshotSync.DownloadErrorsEscape`). Only a failure to fetch the hash file falls back to the local copy.
- When opening the database fails, the rejected `initializationPromise` stays cached: every later `getDb` fails without trying again until `closeDbConnection` runs, and that does nothing unless `db` is set. The model keeps this state (`FilmDatabase.Connection.GetDb`).
- `page` and `limit` are neither checked nor clamped. With `limit > 0`, a page below 1 gives a negative offset, so the page is read from the first row. With a negative limit, a page below 1 gives a positive offset, and a page above 1 a negative one. A negative limit means no limit (`Sqlite.Window`).

## Model

| member | source | states |
|---|---|---|
| FilmDatabase.Offset | src/lib/services/database.ts:74 | the offset is `(page-1)*limit`: page 1 starts at 0, and a page and limit of at least 1 and 0 give a non-negative offset |
| FilmDatabase.BuildFilmsQueries | src/lib/services/database.ts:76-108 | the counter-driven builder produces exactly the declared clauses and parameters. The page query has the same WHERE and parameters followed by `limit` and `offset`. LIMIT is `$params.length+1` and OFFSET is `$params.length+2`. The count query shares the WHERE and parameters |
| FilmDatabase.PlaceholdersNumbered | src/lib/services/database.ts:80-94 | the placeholders of all clauses, read in order (search, statuses, region), are `$1 .. $params.length` without gaps |
| FilmDatabase.Range | src/lib/services/database.ts:86 | the placeholders of a status list are consecutive numbers, one per status |
| FilmDatabase.RangeSplit | src/lib/services/database.ts:80-94 | consecutive runs of placeholders join into one run |
| FilmDatabase.PlaceholdersConcat | src/lib/services/database.ts:80-94 | the placeholders of a clause list are those of its parts in order |
| FilmDatabase.WhereString | src/lib/services/database.ts:96-97 | the WHERE text is empty exactly when there are no clauses, and otherwise starts with `WHERE ` |
| FilmDatabase.Decimal | src/lib/services/database.ts:81 | a placeholder number is written as at least one character, all of them decimal digits |
| FilmDatabase.DecimalRoundTrip | src/lib/services/database.ts:81 | the digits written for a placeholder number read back as that number, so they are its decimal form |
| FilmDatabase.PlaceholderInjective | src/lib/services/database.ts:81-94 | distinct placeholder numbers are written as distinct `$n` placeholders |
| FilmDatabase.WhereMeansMatches | src/lib/services/database.ts:80-94 | a film satisfies all built clauses under the built parameters exactly when it matches the options: title LIKE `%term%` for a truthy term, status among the non-empty `statuses`, region equal to a truthy region. Trailing parameters do not change this |
| FilmDatabase.StatusValues | src/lib/services/database.ts:88 | the status parameters are the statuses' names, in order. `StatusClauseMeansMember` proves what they mean: the `IN` clause over them holds exactly for the listed statuses |
| FilmDatabase.StatusClauseMeansMember | src/lib/services/database.ts:85-89 | the `IN` clause over the status placeholders holds exactly for the listed statuses |
| FilmDatabase.StatusNameInjective | src/lib/services/database.ts:13 | distinct statuses have distinct names, so binding by name is faithful |
| FilmDatabase.SelectedAreMatching | src/lib/services/database.ts:110-111 | the rows the built WHERE keeps are the matching films, in table order |
| FilmDatabase.BuiltQueriesMeanSpec | src/lib/services/database.ts:99-112 | the page query yields the window of matching films at `offset`, and the count query, through `result[0]?.count ?? 0`, yields the number of all matching films |
| FilmDatabase.TotalFilms | src/lib/services/database.ts:112 | `result[0]?.count ?? 0`: the first row's count, or 0 without rows. `BuiltQueriesMeanSpec` proves that over the count query this is the number of matching films |
| FilmDatabase.PagesMatchTotal | src/lib/services/database.ts:99-112 | a page holds at most `limit` films, all of them matching, and it is non-empty exactly for pages `1 .. ceil(total/limit)` |
| FilmDatabase.PageStartInside | src/lib/services/database.ts:74 | a page's first row exists exactly for pages up to `ceil(n/limit)` |
| FilmDatabase.MulMonotone | src/lib/services/database.ts:74 | for a non-negative factor `k`, `x <= y` gives `x*k <= y*k`. `PageStartInside` and `PageLoader.CeilQuotientIsPageCount` use it to compare offsets |
| FilmDatabase.Insert | src/lib/services/database.ts:126-130 | adding a region to an ascending list of regions keeps it ascending and adds exactly that region |
| FilmDatabase.RegionKeys | src/lib/services/database.ts:126-130 | the grouped regions are in ascending order and are exactly the non-null, non-empty regions of the films |
| FilmDatabase.RegionsWithFilmCount | src/lib/services/database.ts:117-134 | every region listed is non-empty with a count equal to its films (at least one), the list is strictly ascending, and every film with a region is listed |
| FilmDatabase.RegionsAreDistinct | src/lib/services/database.ts:126-130 | no region appears twice |
| FilmDatabase.Connection.GetDb | src/lib/services/database.ts:40-52 | a cached handle is returned without loading. A rejected promise is returned again without loading. Otherwise one load is made, and it caches the handle or leaves the promise rejected |
| FilmDatabase.Connection.Close | src/lib/services/database.ts:54-60 | with a handle, both `db` and the promise are cleared. Without one nothing changes, so a second close does nothing |
| FilmDatabase.Connection.GetFilms | src/lib/services/database.ts:68-115 | fails exactly when no handle can be had or a select rejects (then with `QueryFailed` once a handle is open), and otherwise returns the page and total of the matching films. The cache changes as in `getDb`: an open handle or a rejected promise leaves it as it was, and otherwise one load is made and its outcome is cached |
| FilmDatabase.Connection.GetRegionsWithFilmCount | src/lib/services/database.ts:117-134 | fails exactly when no handle can be had or the select rejects (then with `QueryFailed` once a handle is open), and otherwise returns the regions aggregate. The cache changes as in `getDb`, whether or not the select rejects |
| Sqlite.BindExtended | src/lib/services/database.ts:105 | appending `limit` and `offset` leaves the WHERE placeholders' values unchanged |
| Sqlite.Filter | src/lib/services/database.ts:96-97 | a WHERE keeps exactly the rows that satisfy it, and no more rows than the table has |
| Sqlite.FilterAgrees | src/lib/services/database.ts:96-97 | two predicates that agree on every row keep the same rows |
| Sqlite.FilterKeepsAll | src/lib/database.ts:42 | a WHERE that holds everywhere, or none, keeps the whole table |
| Sqlite.FilterSubset | src/lib/services/database.ts:96-97 | a stricter WHERE keeps no more rows. `PageLoader.FilteredLoadHonoursStatus` uses it to bound the corrected total |
| Sqlite.SubstringPattern | src/lib/services/database.ts:80-83 | for a term without wildcards, `LIKE '%term%'` holds exactly when the term occurs in the title |
| Sqlite.LikePrefix | src/lib/services/database.ts:80-83 | for a term without wildcards, `LIKE 'term%'` holds exactly when the title starts with the term |
| Sqlite.LikeLeadingPercent | src/lib/services/database.ts:80-83 | a leading `%` matches when the rest matches some suffix |
| Sqlite.LikePercent | src/lib/services/database.ts:80-83 | `%` alone matches every title |
| Sqlite.Window | src/lib/services/database.ts:103 | `LIMIT`/`OFFSET` give at most `limit` rows, and exactly `min(limit, n-offset)` of them for non-negative arguments, taken in order from `offset`. A negative offset reads from the first row, as offset 0 does. A negative limit gives every row from the offset on. An offset past the end gives no rows |
| Sqlite.TextBelowIrreflexive | src/lib/services/database.ts:130 | the region order is strict |
| Sqlite.TextBelowTransitive | src/lib/services/database.ts:130 | the region order is transitive |
| Sqlite.TextBelowTotal | src/lib/services/database.ts:130 | any two distinct regions are ordered |
| LegacyDatabase.PaginatedFilmsQuery | src/lib/database.ts:39-41 | the page query has no WHERE, its `LIMIT` placeholder is bound to `limit` and its `OFFSET` placeholder to `(page-1)*limit`. `PaginatedQueriesMean` proves what it selects |
| LegacyDatabase.LikeTerm | src/lib/database.ts:51 | the bound pattern is the term between two `%`, wildcards in the term left as they are. `EmptyTermMatchesAll` and `SearchQueriesMean` prove what it matches |
| LegacyDatabase.SearchFilmsQuery | src/lib/database.ts:50-53 | the page query's one clause is `title LIKE $1` with `$1` bound to `%term%`, its `LIMIT` placeholder to `limit` and its `OFFSET` placeholder to `(page-1)*limit`. `SearchQueriesMean` proves what it selects |
| LegacyDatabase.SearchCountQuery | src/lib/database.ts:54 | the count query's one clause is `title LIKE $1` with `$1` bound to `%term%`. `SearchQueriesMean` proves that it counts the page query's matches |
| LegacyDatabase.PaginatedQueriesMean | src/lib/database.ts:37-46 | the plain page is the window of the whole table at `(page-1)*limit`, with `limit` bound to `$1` and the offset to `$2`. The count has no predicate and equals the table size |
| LegacyDatabase.SearchQueriesMean | src/lib/database.ts:48-58 | page and count bind the same `%term%` to `$1` and equal what `getFilms` gives for that search term alone |
| LegacyDatabase.EmptyTermMatchesAll | src/lib/database.ts:51 | `%%` matches every title |
| LegacyDatabase.EmptySearchIsPaginated | src/lib/database.ts:48-58 | searching for the empty term is the plain page of all films |
| LegacyDatabase.Connection.GetDb | src/lib/database.ts:24-30 | a cached handle is returned without loading. Otherwise one load is made: a success is cached forever, and a failure leaves nothing cached, so the next call loads again |
| LegacyDatabase.Connection.GetPaginatedFilms | src/lib/database.ts:37-46 | fails exactly when no handle can be had or a select rejects, and otherwise returns the window of all films and the table size. An open handle is reused unchanged. Otherwise one load is made and its result becomes `db` |
| LegacyDatabase.Connection.SearchFilms | src/lib/database.ts:48-58 | fails exactly when no handle can be had or a select rejects, and otherwise returns the page and total of titles LIKE `%term%`. An open handle is reused unchanged. Otherwise one load is made and its result becomes `db` |
| SnapshotSync.HexDigit | src/lib/services/init.ts:36 | a digit is `0-9` or `a-f` |
| SnapshotSync.ToBase16 | src/lib/services/init.ts:36 | `toString(16)` gives at least one digit |
| SnapshotSync.PadStart | src/lib/services/init.ts:36 | `padStart` fills on the left with the fill character up to the width and keeps the string as its tail |
| SnapshotSync.PaddedBase16 | src/lib/services/init.ts:36 | `b.toString(16).padStart(2, "0")` is, for every byte, exactly its two digits, high digit first, zero-padded |
| SnapshotSync.DigestHex | src/lib/services/init.ts:35-37 | the hex form is twice as long as the digest |
| SnapshotSync.DigestHexDigits | src/lib/services/init.ts:35-37 | characters `2i` and `2i+1` are the digits of byte `i` |
| SnapshotSync.DigestHexIsLower | src/lib/services/init.ts:35-37 | the hex form holds only lowercase hex digits |
| SnapshotSync.HexValueOfDigit | src/lib/services/init.ts:36 | each digit reads back as its value |
| SnapshotSync.ParseDigestHex | src/lib/services/init.ts:35-37 | reading the hex form back gives the digest |
| SnapshotSync.DigestHexInjective | src/lib/services/init.ts:35-39 | distinct digests have distinct hex forms, so the comparison is the digest comparison |
| SnapshotSync.SkipSpace | src/lib/services/init.ts:72 | scanning forward stops at the first character that is not white space |
| SnapshotSync.SkipSpaceBack | src/lib/services/init.ts:72 | scanning backward stops after the last character that is not white space |
| SnapshotSync.Trim | src/lib/services/init.ts:72 | `trim()` neither starts nor ends with white space |
| SnapshotSync.SkippedAreSpaces | src/lib/services/init.ts:72 | every character skipped forward is white space |
| SnapshotSync.SkippedBackAreSpaces | src/lib/services/init.ts:72 | every character skipped backward is white space |
| SnapshotSync.TrimDropsOnlySpace | src/lib/services/init.ts:72 | `trim()` drops only leading and trailing white space, and gives the empty string exactly for all-white-space input |
| SnapshotSync.SpaceFrom | src/lib/services/init.ts:72 | the first space at or after a position, with no space before it |
| SnapshotSync.FirstField | src/lib/services/init.ts:72 | `split(" ")[0]` is the prefix before the first space and contains no space |
| SnapshotSync.RemoteHash | src/lib/services/init.ts:72 | the remote hash holds no space and neither starts nor ends with white space |
| SnapshotSync.SpaceFromAt | src/lib/services/init.ts:72 | the scan finds the first space |
| SnapshotSync.NoSpaceTrims | src/lib/services/init.ts:72 | a word without white space is unchanged by `trim()` |
| SnapshotSync.HashBeforeSpace | src/lib/services/init.ts:72 | a `<hash> <file name>` manifest yields the hash |
| SnapshotSync.HashBeforeLineEnd | src/lib/services/init.ts:72 | a `<hash>\n` manifest yields the hash |
| SnapshotSync.LeadingSpaceYieldsEmpty | src/lib/services/init.ts:72 | a manifest starting with a space yields the empty hash |
| SnapshotSync.DownloadAndWrite | src/lib/services/init.ts:14-54 | succeeds exactly when the download is ok and its digest equals the remote hash. Only then is the file replaced, after closing the connection and fetching. A failure changes neither the file nor the stored hash |
| SnapshotSync.NeedsDownload | src/lib/services/init.ts:83 | a download is due when the remote hash is non-empty and there is no local file or the stored hash differs, compared case-sensitively. `DownloadsExactlyWhenNeeded` proves that a run fetches exactly then, and `SecondRunIsNoOp` that it is not due again after a successful run |
| SnapshotSync.Synchronise | src/lib/services/init.ts:81-89 | a failure leaves file and stored hash as they were |
| SnapshotSync.InitializeDb | src/lib/services/init.ts:63-89 | a run that throws leaves file and stored hash as they were |
| SnapshotSync.DownloadsExactlyWhenNeeded | src/lib/services/init.ts:83-89 | the database is fetched exactly when the remote hash is non-empty and there is no local file or the stored hash differs. Without a fetch, file and stored hash are untouched |
| SnapshotSync.SavedHashIsDigest | src/lib/services/init.ts:83-86 | the hash is saved only after a successful write, and it equals both the remote hash and the digest of the written bytes |
| SnapshotSync.OfflineOrFatal | src/lib/services/init.ts:68-79 | if the hash file cannot be fetched, the run throws "could not connect" without a local file and returns quietly with one. Neither case touches anything |
| SnapshotSync.DownloadErrorsEscape | src/lib/services/init.ts:83-86 | a failed download or verification throws even when a local database exists |
| SnapshotSync.CallSequences | src/lib/services/init.ts:14-89 | a run is the hash fetch alone, or the hash fetch, close and fetch, or those followed by write and save. So the connection is closed before any download, and the hash is saved last |
| SnapshotSync.RunKeepsConsistent | src/lib/services/init.ts:39-52 | a stored hash that matched the file's digest still matches after any run |
| SnapshotSync.SecondRunIsNoOp | src/lib/services/init.ts:83-89 | after a successful run, a second run against the same manifest downloads nothing and changes nothing |
| SnapshotSync.NonLowercaseHashNeverVerifies | src/lib/services/init.ts:39-41 | a remote hash that is not lowercase hex never verifies, so a run that needs the download throws and changes nothing |
| SnapshotSync.App.DownloadAndWriteDb | src/lib/services/init.ts:14-54 | the method closes the connection, then does what `DownloadAndWrite` describes, step by step. The close clears the promise only when a handle was open, and it loads nothing |
| SnapshotSync.App.InitializeApp | src/lib/services/init.ts:63-89 | the method's new file, stored hash, call log and error are those of `InitializeDb`. When a download is needed, the connection is closed: the promise is cleared only if a handle was open, and nothing is loaded. Otherwise the connection is left alone |
| FilterStores.Reset | src/lib/utils/stores.ts:11-17 | the reset value is page 1, limit 20, statuses `['orphan']`, with no term and no region, whatever the previous value |
| FilterStores.ActiveFiltersForApi | src/lib/utils/stores.ts:60-79 | has no page or limit. Each of term, statuses and region is present exactly when it is truthy or non-empty, and then unchanged |
| FilterStores.IsShowAllState | src/lib/utils/stores.ts:48-58 | "show all" is no truthy search term, no truthy region and no non-empty status list. `ShowAllIffNoKeys` proves it holds exactly when the API object has no keys, and `ShowAllSelectsEverything` that every film is then selected |
| FilterStores.ShowAllIffNoKeys | src/lib/utils/stores.ts:48-79 | "show all" holds exactly when the API object has no keys |
| FilterStores.ResetIsNotShowAll | src/lib/utils/stores.ts:35 | right after a reset the view is not "show all" |
| FilterStores.ResetSelectsOrphans | src/lib/utils/stores.ts:11-17 | after a reset `getFilms` selects exactly the orphaned films |
| FilterStores.ShowAllSelectsEverything | src/lib/utils/stores.ts:48-58 | in the "show all" state every film is selected |
| FilterStores.ActiveFiltersKeepMeaning | src/lib/utils/stores.ts:60-79 | the API object with the same page and limit gives the same page and total as the full filters |
| AppState.AuthenticateStep | src/lib/utils/state.ts:61-93 | the result is true exactly for a non-empty key that the endpoint accepts. Then the state is authenticated with that guardian and key, and the key is stored. Otherwise the state is unauthenticated with nothing attached. A refused key is cleared from storage. An empty key or a thrown error leaves storage alone |
| AppState.InitializeStep | src/lib/utils/state.ts:46-55 | a truthy stored key is authenticated. Otherwise the state becomes unauthenticated and the key is kept |
| AppState.InitializeWithoutKeyAsksNothing | src/lib/utils/state.ts:47-54 | without a stored key the outcome does not depend on the endpoint |
| AppState.RefusedKeyIsForgotten | src/lib/utils/state.ts:72-77 | a refused key is removed, so the next start signs out without asking again |
| AppState.AcceptedKeyIsKept | src/lib/utils/state.ts:79-85 | an accepted key is stored, and the next start re-authenticates with it |
| AppState.AuthStore.constructor | src/lib/utils/state.ts:34-38 | the store starts pending with no guardian and no key |
| AppState.AuthStore.Authenticate | src/lib/utils/state.ts:61-93 | the method does what `AuthenticateStep` describes and keeps the invariant: authenticated exactly when guardian and key are set, with the key the stored one |
| AppState.AuthStore.Initialize | src/lib/utils/state.ts:46-55 | the method does what `InitializeStep` describes and keeps the invariant |
| AppState.AuthStore.Logout | src/lib/utils/state.ts:98-102 | the stored key is cleared and the state is unauthenticated |
| AppState.ResetFilters | src/lib/utils/state.ts:114-117 | the reset value is page 1, limit 20, the key `status: 'orphan'`, and no other criterion |
| AppState.ResetFiltersSelectAll | src/lib/utils/state.ts:114-117 | that value filters nothing in `getFilms`, which reads `statuses` and not `status` |
| PageLoader.StatusFromParam | src/routes/+page.ts:16-17 | the status is `adopted` exactly when the parameter is exactly `'adopted'`, and `orphan` otherwise, including when it is absent |
| PageLoader.ParseFilters | src/routes/+page.ts:12-19 | missing page and limit default to 1 and 20. `q` and `region` pass through, absent staying absent. The status goes to the `status` key, and `statuses` stays unset |
| PageLoader.CeilQuotient | src/routes/+page.ts:33 | `Math.ceil(total/limit)` is the ceiling of the quotient for every sign of a non-zero limit. A zero limit gives Infinity or NaN |
| PageLoader.CeilQuotientIsPageCount | src/routes/+page.ts:33 | for a positive limit it is the catalog's page count |
| PageLoader.Load | src/routes/+page.ts:7-60 | on success the films and total are those of `getFilms` on the parsed filters. The regions are the aggregate, the pagination page is the filters' page, the page count is `ceil(total/limit)`, and there is no error. Otherwise the fallback page is returned |
| PageLoader.ErrorPageIsFixed | src/routes/+page.ts:37-58 | every error page lists nothing, has total 0, is page 1 of 1, has the orphan filters, and carries the message |
| PageLoader.LoadedPageWithinCount | src/routes/+page.ts:26-35 | for a page of at least 1 and a positive limit the page lists at most `limit` films, and it lists some exactly when the page is within the page count |
| PageLoader.StatusParamIgnored | src/routes/+page.ts:16-22 | as written, the status parameter changes neither the films nor the total |
| PageLoader.AdoptedRequestListsOrphan | src/routes/+page.ts:16-22 | asking for adopted films lists an orphaned one |
| PageLoader.ParseFiltersFilteringStatus | src/routes/+page.ts:16-19 | the corrected options list the requested status in `statuses` and otherwise equal those of `load` |
| PageLoader.LoadFilteringStatus | src/routes/+page.ts:7-60 | the corrected `load` returns the fallback page on failure, and otherwise reports the corrected filters without an error |
| PageLoader.FilteredLoadHonoursStatus | src/routes/+page.ts:16-22 | with the correction every listed film has the requested status, and the total counts no film of another status |

## Left out

- SQLite execution itself is not modelled. `ORDER BY films.title` is assumed already applied to the given table, and the `LEFT JOIN guardians` that fills `guardian_name` is a field of the film.
- `LIKE` in SQLite folds ASCII case. The model's `LIKE` is case-sensitive.
- SHA-256 (`crypto.subtle.digest`) is an uninterpreted function parameter.
- HTTP fetches, `exists`/`open`/`write`, `appDataDir`/`join` and the settings store are inputs and fields. A failure while opening or writing the file, and a truncated file left by a write that fails halfway, are not modelled.
- `SnapshotSync.App.InitializeApp` starts after `settingsStore.init()` and `authStore.initialize()`. Their concurrent `Promise.all` is not modelled, and authentication is modelled separately by `AppState.AuthStore`.
- Concurrency is not modelled: several callers awaiting one `initializationPromise`, and the `Promise.all` in the page loader. Each operation runs to completion before the next.
- `AppState.AuthStore.Authenticate`: a `response.json()` or `saveApiKey` failure after an ok response is modelled as a thrown error before the key is stored.
- `parseInt` of a non-numeric `page` or `limit` (NaN) is not modelled. Those parameters are given as optional integers.
- `PageLoader.Load`: `parent()` and `depends('app:films')` run before the `try` and are not modelled.
- `PageLoader.Load` takes the database as one input. It does not separate a failure of `getFilms` from one of `getRegionsWithFilmCount`; either gives the same fallback page.
- Theme handling (`applyTheme`, `settingsStore`), `src/lib/utils/settings.ts`, `src/routes/+layout.ts` and `src/lib/stores.ts` are not part of this model.
- Console logging is not modelled.
- `page` and `limit` are JavaScript numbers (doubles) bound where SQLite expects 64-bit integers for `LIMIT` and `OFFSET`. The model binds unbounded integers: fractional values and values beyond 64 bits are not modelled.
- A failure to read the settings store (`loadSettings`, `getDatabaseHash`) is not modelled. The stored hash and key are given as inputs.
- Writes to the settings store (`saveDatabaseHash`, `saveApiKey`) and `db.close()` are assumed to succeed. `SnapshotSync.RunKeepsConsistent` relies on this: a failing `saveDatabaseHash` after the write would leave the new file beside the old stored hash. `SnapshotSync.CallSequences` relies on it too: a failing `db.close()` would leave `db` set and end the run before the fetch. A failing `saveApiKey` in `logout` or in the refused branch of `authenticate` is not modelled either.
- The SQL text (`RenderClause`, `JoinAnd`, `WhereString`) is not parsed back into clauses. Query meaning is given over the `Clause` values the builder produces. The text is tied to them only through the placeholder numbers (`FilmDatabase.DecimalRoundTrip`, `FilmDatabase.PlaceholderInjective`).

## Findings

| source | as written | input that shows it | evidently intended | confidence | as-written member | corrected member |
|---|---|---|---|---|---|---|
| src/routes/+page.ts:16-19 | the status parameter is stored under the key `status`, but `getFilms` reads only `statuses` (src/lib/services/database.ts:71), so the status parameter filters nothing | `?status=adopted` over a catalog holding one orphaned film lists that film | the requested status is passed as `statuses: [status]`, so only films of that status are listed and counted | not executed | PageLoader.AdoptedRequestListsOrphan | PageLoader.FilteredLoadHonoursStatus |
