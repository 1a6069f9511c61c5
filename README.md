# Kickstarter scraper: a verified model of its core

The scraper pages through Kickstarter's GraphQL `projects` query and merges
every fetched project into a local store, `projects.json`, that maps a project
id to a record. The store also has three readers: a deprecated enrichment pass
that adds creator and collaborator data, a filter that writes the active
projects, and a script that lists the currencies in use. This project models
the algorithms inside those scripts and proves what they guarantee.

| module | file | what it models |
|---|---|---|
| `Values` | values.dfy | JavaScript primitive values, truthiness, `\|\|` and `??` |
| `Records` | records.dfy | the GraphQL project node, the stored record, the store |
| `Slug` | slug.dfy | `extractSlug`: the leftmost match of the slug pattern in a URL |
| `Files` | files.dfy | the store file and `saveOrUpdateProjects`, the merge of one batch |
| `GraphQL` | graphql.dfy | `graphqlRequest`: credential check, status classification, retries |
| `Scrape` | scrape.dfy | `runScraper`: pagination, batching by 50, the final merge |
| `Enrich` | enrich.dfy | `enrichNewProjects`: selection, in-place enrichment, saves every 10 |
| `FilterActive` | filter_active.dfy | the active-project filter of `filter-active.js` |
| `Currency` | currency.dfy | the distinct-currency loop of `currency.js` |

The code that changes state step by step is modelled by methods:
- the merge loop, with its per-edge body and the in-place record update;
- the scraper's do-while loop and one pass of it;
- the enrichment loop and one pass of it;
- the filter loop and the currency loop.

Each method is proved equal to a function of its inputs. That function is the
run as a value, and the lemmas prove the system's guarantees about it. The
store file is a class, `Files.ProjectFile`, whose `saves` field records every
write in order.

Environment inputs are parameters:
- the GraphQL endpoint is `fetch`, `respond` or a sequence of `Step`s;
- the clock is `now`, `clock` or `nowMs`;
- the order in which JavaScript visits an object's keys is `order`.

## Model

| member | source | states |
|---|---|---|
| Values.Or | files.js:60-61 | `a \|\| b` is `a` when `a` is truthy and `b` otherwise, and is truthy exactly when one of them is |
| Values.Coalesce | depreciated/enrich.js:55-58 | `a ?? b` falls back to `b` only when `a` is null or undefined |
| Slug.Span | files.js:7 | a greedy `[^...]+` consumes the longest prefix that holds no stop character |
| Slug.SearchFrom | files.js:7 | the search returns the leftmost match at or after a position, with no match before it |
| Slug.ExtractSlug | files.js:6-9 | the result is null exactly when no position of the URL matches; otherwise it is the capture group of the leftmost match |
| Slug.SlugAtSound | files.js:7 | a match found at a position is an instance of `kickstarter.com/projects/<owner>/<name>`, with a greedy `<name>` |
| Slug.SlugAtComplete | files.js:7 | every instance of the pattern at a position is found there, with `<owner>/<name>` as its capture |
| Slug.ExtractSlugNoneIffNoPattern | files.js:7-8 | `extractSlug` returns null if and only if the URL holds no `kickstarter.com/projects/<owner>/<name>` segment |
| Slug.ExtractSlugShape | files.js:6-9 | a returned slug has exactly one '/' with no '?' or '#' after it, and it occurs in the URL right after the prefix |
| Slug.LeadingMatch | files.js:7-8 | a URL made of the prefix, `<owner>/<name>` and a tail that starts with '/', '?' or '#' yields `<owner>/<name>` |
| Slug.OwnerMayHoldQuery | files.js:7 | the `<owner>` part is `[^/]+`, so a '?' in it stays in the slug |
| Slug.LeftmostIsFound | files.js:7-8 | when several positions match, the leftmost one is returned |
| Files.ProjectFile.Load | files.js:12-20 | `loadProjects` returns the store as it stands |
| Files.ProjectFile.Save | files.js:23-25 | `saveProjects` replaces the whole store and is recorded as one write |
| Files.Resight | files.js:74-106 | a re-sighting keeps a truthy name and description and fills them only when falsy. Creator and tags are set only when absent. The history keeps every old entry and grows by the new snapshot exactly when backers, pledged or percentage differ from the last entry. `lastUpdated` becomes `now`, and nothing else changes |
| Files.IdOf | files.js:37-40 | the id an edge is filed under, or none when `item?.node?.id` is falsy, in which case the edge is skipped |
| Files.NodeFault | files.js:41-47 | the TypeError an identified node raises: a non-string URL fails in `extractSlug`, then a missing `pledged` fails on `node.pledged.amount` |
| Files.FundingSnapshot | files.js:44-51 | the snapshot of a sighting: `now`, then backers, pledged amount and percentage defaulting to 0, and currency and deadline defaulting to null |
| Files.LastSnapshot | files.js:96 | the entry compared against: the history's last one, or `{}` (every field undefined) for an empty history |
| Files.Differs | files.js:97-101 | a new snapshot is due when backers, pledged amount or percentage differ from the last entry; currency, deadline and timestamp are not compared |
| Files.NewRecord | files.js:53-73 | the record of a first sighting, with the node's fields, `''` defaults for name and description, and the snapshot as its whole history (proved by `Files.FirstSighting`) |
| Files.Upsert | files.js:53-106 | after one sighting the record's last history entry carries the node's current backers, pledged amount and percentage, and `lastUpdated` is `now`. A stored history stays a prefix; a new id starts from the snapshot alone |
| Files.MergeItem | files.js:36-106 | an edge without an id leaves the state unchanged. The step fails exactly when the edge is faulty. Otherwise the record under the id is created or re-sighted, and exactly one of the two counters goes up |
| Files.UpdateStored | files.js:77-105 | the field-by-field update of a stored record computes `Resight` |
| Files.MergeEdge | files.js:37-106 | the loop body computes `MergeItem`: skip, throw, create or update |
| Files.MergeItems | files.js:36-107 | the `for` loop over the edges, stopped by the first exception (its properties are the `Files.Merge…` lemmas below) |
| Files.Merge | files.js:28-107 | `saveOrUpdateProjects` without the file: a non-array input fails with "Expected array input", anything else is the merge loop over the edges |
| Files.SaveOrUpdateProjects | files.js:28-114 | a non-array input fails with "Expected array input" before the store is read. A thrown error leaves the store unchanged and unsaved. Otherwise the merged store is returned, saved exactly once, and reported with the two counts |
| Files.MergeFailureIsFinal | files.js:36-107 | once an edge throws, the edges after it do not matter |
| Files.MergeFailsIffFaulty | files.js:41-47 | the merge throws if and only if some edge with an id has a non-string URL or no `pledged` object |
| Files.MergeFailureIgnoresStore | files.js:36-51 | which error a batch throws does not depend on the stored data |
| Files.MergeKeepsIds | files.js:36-113 | the ids after the merge are the ids before it plus the batch's ids, and records whose id is not in the batch are unchanged |
| Files.MergeKeepsDescriptive | files.js:36-91 | over a whole batch, however often it sights an id, a stored record keeps its id, and a truthy name or description and a present creator or tags are never changed |
| Files.MergeLeavesTopLevelUnset | files.js:56-73 | no record gets a top-level `isLaunched`, `deadlineAt` or `currency` from the merge |
| Files.MergeCounts | files.js:33-34 | new plus updated equals the number of edges with an id, and the store grows by exactly the new ones |
| Files.HistoryAppendOnly | files.js:93-103 | a record's old history is a prefix of its new one, and each sighting adds at most one entry |
| Files.FirstSighting | files.js:53-73 | a first sighting creates a record whose history is exactly the current snapshot, stamped `now`, with the id, slug, URL, defaulted name and description, creator and tags |
| Files.UpsertStable | files.js:96-105 | re-sighting the same node at a later time adds no snapshot and changes nothing but `lastUpdated`, which becomes the later time |
| Files.MergeAtId | files.js:36-106 | the record of an id carried by only one edge of the batch is exactly one sighting of that edge's node |
| Files.MergeIdempotent | files.js:28-114 | merging a batch whose edges carry distinct ids again, at a later time, succeeds, keeps every id and adds no snapshot: the batch's records change only in `lastUpdated`, and the other records not at all |
| Files.TwoSightings | files.js:96-103 | two sightings of a new id keep both snapshots when they differ in backers, pledged amount or percentage, and only the first otherwise |
| Files.RepeatedIdNotIdempotent | files.js:96-103 | a batch that carries one id twice with different backer counts doubles that record's history when it is merged again |
| GraphQL.ResponseOf | graphql.js:105 | the value returned: the parsed body, or `{status, raw}` when it is null |
| GraphQL.FetchError | graphql.js:83 | the message a status-0 result throws: its `error` when that is a non-empty string, else "Fetch failed" |
| GraphQL.Attempt | graphql.js:8-108 | the credential check and refresh come before the request. Status 0 throws. 401/403 sends the request, then refreshes: a successful refresh retries, a refresh that throws ends the call with its error. 429 retries while the count is below 5. Everything else returns `json ?? {status, raw}` |
| GraphQL.Request | graphql.js:4-105 | `graphqlRequest` as a chain of attempts, each retry calling the function again with the count plus one (its properties are the `GraphQL` lemmas below) |
| GraphQL.Unanswered | graphql.js:84-98 | the chain ends without a value exactly when every scripted attempt asked for a retry: a call returns or throws as soon as one attempt does |
| GraphQL.AttemptSendsOnce | graphql.js:49-52 | an attempt sends at most one request, at the current retry count |
| GraphQL.RetryCountsConsecutive | graphql.js:88 | auth retries and 429 retries share one counter: the k-th request of a chain is sent with `retryCount + k` |
| GraphQL.RateLimitBudget | graphql.js:91-98 | a chain gets at most `6 - retryCount` responses with status 429, or one when the count is already 5 or more, however auth retries interleave |
| GraphQL.RateLimitedToExhaustion | graphql.js:91-105 | a transport that always answers 429 is asked `6 - retryCount` times, and then the last response is returned, not thrown |
| GraphQL.AuthRetriesUnbounded | graphql.js:84-105 | any number of 401/403 answers, each followed by a successful refresh, still ends in the response that follows them, whatever its status other than 0, 401, 403 and 429 |
| GraphQL.AuthRetriesExhaustRateBudget | graphql.js:84-99 | after five auth retries, a 429 is returned at once |
| GraphQL.ReturnedResponses | graphql.js:101-105 | a returned value is the response of an attempt whose status was not 0, 401 or 403, and not 429 unless the count had reached 5. A body with GraphQL `errors` is returned like any other |
| GraphQL.StatusZeroThrows | graphql.js:83 | status 0 throws the transport's message, or "Fetch failed", right after the one request, with no retry |
| GraphQL.RefreshBeforeRequest | graphql.js:8-9 | missing credentials are refreshed before the request, which carries the refreshed pair; a failed refresh throws before anything is sent |
| Scrape.PageEdges | scrape.js:21 | the edges of a page: `data.projects.edges`, or none when the body, `data`, `projects` or `edges` is missing, so such a page counts as empty |
| Scrape.NextCursor | scrape.js:27-28 | the next cursor: `endCursor` when `pageInfo.hasNextPage` is truthy, null otherwise, and null when `pageInfo` is missing |
| Scrape.Flush | scrape.js:32-35 | merging the pending batch: on success the batch is emptied, the merged store kept and written, and the batch recorded as merged; a throw is passed on |
| Scrape.Final | scrape.js:44-45 | after the loop the pending batch is merged whatever its size, possibly empty; a throw ends the run with `MergeFailed` |
| Scrape.PageStep | scrape.js:20-37 | a pass that continues fetched an answered page, moves the cursor to that page's next cursor and counts one more page. A pass that stops reports its error; a thrown request is reported with its message |
| Scrape.PagePass | scrape.js:20-37 | one pass of the loop body computes `PageStep`, and the store file holds the loop's store and every write so far |
| Scrape.Continue | scrape.js:19-42 | the rest of the do-while loop from the top of its body: one pass, then stop on the page limit or a falsy cursor, else go round again |
| Scrape.Scrape | scrape.js:11-47 | a whole `runScraper` run from a null cursor, the store and no pages (its properties are `Scrape.ScrapeCursors`, `Scrape.ScrapeBatches` and `Scrape.ScrapeStore`) |
| Scrape.RunScraper | scrape.js:11-47 | the cursors sent, the batches merged, the edge count, the error, the final store and every write equal those of the run `Scrape` |
| Scrape.ScrapeCursors | scrape.js:19-42 | the first cursor is null. Each later cursor is the `endCursor` of an answered page that said `hasNextPage`. At most `max(1, maxPages)` pages are requested. A completed run ends on a page that reached the limit or had no next page, and an empty page does not stop the run |
| Scrape.PageStepBatches | scrape.js:20-35 | one pass keeps the batch invariant: the merged batches followed by the pending batch are the fetched edges in order, and the pending batch holds fewer than 50 edges |
| Scrape.ScrapeBatches | scrape.js:21-45 | the merged batches concatenate to the fetched edges in fetch order, with nothing repeated or dropped, once the run completes. Every batch but the last holds at least 50 edges. The last merge always happens, even with no edges. `totalEdges` is the number fetched |
| Scrape.ScrapeStore | scrape.js:32-45 | each merge that does not throw is written. The store ends as the last write. Its ids are the initial ids plus those of every batch merged without an exception |
| Enrich.Selectable | depreciated/enrich.js:29 | a record is selected when its `slug` is truthy and its `_enriched` is falsy |
| Enrich.Selected | depreciated/enrich.js:28-30 | the selection lists keys of the store |
| Enrich.SelectedExactly | depreciated/enrich.js:28-30 | exactly the records with a truthy `slug` and a falsy `_enriched` are selected, each once |
| Enrich.ProjectOf | depreciated/enrich.js:45-47 | `data.data?.project`: none for a `{status, raw}` reply or a body without a project, which skips the record |
| Enrich.PreviousProjects | depreciated/enrich.js:55-56 | `creator.launchedProjects.totalCount`, falling back to 0 only when it is null or missing |
| Enrich.CollaboratorNames | depreciated/enrich.js:57-58 | the collaborator names, `[]` when `collaborators` is missing, and a throw when `collaborators` has no `edges` or an edge lacks its node |
| Enrich.Names | depreciated/enrich.js:57-58 | the names are listed in edge order, and the map throws exactly when an edge or its node is missing |
| Enrich.EnrichRecord | depreciated/enrich.js:44-60 | a thrown request leaves the record as it was, and a reply without project data skips it. Otherwise `previousProjects` is set (default 0), with `{}` created for a missing creator. Then the record gets the collaborator names (default `[]`), `_enriched` and `lastUpdated`, or, when the names throw, keeps only the creator change |
| Enrich.EnrichProject | depreciated/enrich.js:52-60 | the field-by-field update of the record computes `EnrichRecord` |
| Enrich.EnrichStep | depreciated/enrich.js:40-79 | one pass of the loop for one selected key: skip, keep a partial update, or enrich, count and save on every 10th (stated case by case in `Enrich.StepCases`) |
| Enrich.EnrichLoop | depreciated/enrich.js:40-80 | the loop over the first `n` selected keys, one `EnrichStep` each in selection order |
| Enrich.RunOf | depreciated/enrich.js:23-87 | a whole run: the selection, the loop, and the final save when there is unsaved work |
| Enrich.StepCases | depreciated/enrich.js:40-79 | a skipped pass changes nothing. A caught exception keeps the partial update. An enrichment counts one, and it saves and clears the flag exactly on every 10th |
| Enrich.EnrichPass | depreciated/enrich.js:41-79 | one pass of the loop body computes `EnrichStep`, keeps the store's keys, and records its writes |
| Enrich.EnrichNewProjects | depreciated/enrich.js:23-87 | the count, every write and the file's final contents equal those of the run `RunOf`; with nothing selected, nothing is written |
| Enrich.LoopSchedule | depreciated/enrich.js:62-75 | after each pass, the unsaved-work flag is set exactly when the count is not a multiple of 10, and there has been one save per 10 enrichments |
| Enrich.RunSaves | depreciated/enrich.js:71-87 | a run writes `ceil(count / 10)` times, and never when it enriches nothing |
| Enrich.LoopKeys | depreciated/enrich.js:40-80 | the loop keeps the store's keys, and records not visited yet are unchanged |
| Enrich.SavesKeep | depreciated/enrich.js:40-75 | every store the loop writes has the original keys and holds each record not visited yet as it was |
| Enrich.Unselected | depreciated/enrich.js:28-87 | a record that was not selected is unchanged in memory, in every store written and in the store left on disk, and no record is added or removed |
| Enrich.LoopDone | depreciated/enrich.js:40-80 | after each pass, the enriched keys are exactly the visited keys now marked `_enriched`, and their number is the count. Visited records that were not enriched are still unenriched. With no unsaved work, the last write holds every enriched record |
| Enrich.EnrichedAreSaved | depreciated/enrich.js:52-87 | every project enriched in a run is marked `_enriched` in the store left on disk, and the count is their number. A selected project that was skipped or failed stays unenriched |
| FilterActive.NowUnix | filter-active.js:11 | `Math.floor(now / 1000)` is the Unix second that contains `now` |
| FilterActive.IsActive | filter-active.js:17-20 | the active test: `isLaunched` is exactly `true`, `deadlineAt` is a number, and it is after the current Unix second |
| FilterActive.CountActive | filter-active.js:30-34 | the number of active records among the visited keys, one per visit |
| FilterActive.ActiveMap | filter-active.js:14-24 | `activeProjects` after visiting the keys: each active record under its own id |
| FilterActive.ActiveOrder | filter-active.js:16-25 | each output key is an active input key, and their number is the active count |
| FilterActive.ActiveOrderInVisitOrder | filter-active.js:16-24 | the output's key order is the visit order with the inactive records left out |
| FilterActive.ActiveOrderMembers | filter-active.js:16-24 | an id is an output key if and only if it is visited and its record is active |
| FilterActive.ActiveOrderDistinct | filter-active.js:16-24 | over keys visited once each, no id is an output key twice |
| FilterActive.FilterActiveProjects | filter-active.js:14-34 | the output's ids are input ids. Each kept record is unchanged. An input record is kept if and only if it is active. The reported number is the active count |
| FilterActive.ActiveMapMembers | filter-active.js:16-25 | the output holds exactly the active records among the visited keys, under their own ids |
| FilterActive.ActiveMapSize | filter-active.js:30-34 | over keys visited once each, the output has as many entries as the active count |
| FilterActive.ActiveIffDeadlineAfterNow | filter-active.js:11-20 | a record is active if and only if `isLaunched` is `true` and its numeric deadline, in milliseconds, lies strictly after now. A deadline equal to the current second is excluded |
| FilterActive.CountIsActiveRecords | filter-active.js:30-34 | the reported count is the number of records in the store that satisfy the predicate |
| FilterActive.MergedStoreHasNoActive | filter-active.js:17-20 | no record of a store built by the merge from an empty start is active |
| Currency.Listed | currency.js:8-18 | the array listed after visiting the keys: no longer than the keys, and every entry truthy |
| Currency.CollectCurrencies | currency.js:8-18 | the loop lists exactly `Listed` of the store |
| Currency.ListedSound | currency.js:10-14 | every listed code is truthy and is the currency of a visited record |
| Currency.ListedComplete | currency.js:10-14 | every visited record with a truthy currency has it listed; a missing or empty currency adds nothing |
| Currency.ListedInFirstOccurrenceOrder | currency.js:8-18 | codes are listed in the order of their first occurrence among the visited records |
| Currency.ListedDistinct | currency.js:8-13 | each code is listed at most once |
| Currency.ListedIsStoreCurrencies | currency.js:10-14 | the listed codes are exactly the truthy currencies of the store's records |
| Currency.MergedStoreListsNothing | currency.js:12 | a store built by the merge from an empty start lists no currency |

## Behaviour worth knowing

The model follows the code in each of these cases, several of which a reader might expect to behave otherwise.

- **Auth retries are unbounded.** A 401 or 403 retries with no ceiling on the auth path (`GraphQL.AuthRetriesUnbounded`). They do not share the five-retry ceiling that the 429 path checks, so no exhaustion error is ever raised for them.
- **An exhausted 429 is returned, not thrown.** A 429 at count 5 or more comes back as the response (`GraphQL.RateLimitedToExhaustion`). No retry-exhaustion error is raised, and a chain that starts at count 0 sends 6 requests, not 5.
- **Status 0 throws at once.** A transport failure is never retried (`GraphQL.StatusZeroThrows`). It does not go through the retry path that 429 uses.
- **The scraper has no stop predicate, and an empty page does not end the run.** Only the page limit or a missing next page ends the loop (`Scrape.ScrapeCursors`).
- **The final merge always runs, even with no edges.** A batch is merged once it reaches 50, so a batch may hold more than 50 edges, and a run whose last page filled a batch still makes one more, empty, merge (`Scrape.ScrapeBatches`). So the number of merges is not `ceil(N/50)`, and the last one may be empty.
- **Merging is not idempotent in general.** A batch that carries one id twice with different backer counts appends both snapshots again on a second merge (`Files.RepeatedIdNotIdempotent`). For batches with distinct ids a second merge adds no snapshot and only moves `lastUpdated` (`Files.MergeIdempotent`).
- **Flags and creator are never updated.** Tags (the classification flags) and creator are filled only when absent (`Files.Resight`). A change in a project's flags on a later sighting is not recorded.
- **The slug's owner part may hold '?' and '#'.** Only the part after the '/' excludes them (`Slug.OwnerMayHoldQuery`).
- **The filter and the currency listing read fields the merge never writes.** They read the top-level `isLaunched`, `deadlineAt` and `currency`. `saveOrUpdateProjects` keeps those values under `tags` and in the funding snapshots only. So on a store the merge built, the filter keeps nothing and the listing is empty (`FilterActive.MergedStoreHasNoActive`, `Currency.MergedStoreListsNothing`).

## Left out

- The browser: puppeteer launch, page setup, cookies, navigation, `page.evaluate` and the `browser.close` calls. Each attempt's outcome is a `Step` value.
- auth.js is not part of this model. `loadAuthData` is the stored pair of each `Step`, and `refreshAuth` is its `Refresh` results.
- File I/O and JSON encoding of `projects.json` and `active_projects.json`. The store is the `ProjectFile` class, and a write is an entry of `saves`. `loadProjects` falling back to `{}` when the file is missing or does not parse (files.js:16-18) is not modelled; a run starts from the store the `ProjectFile` was built with. The filter's output is returned, not written.
- Sleeps, `Math.random` jitter and console logging. They change no value the model tracks.
- `new Date().toISOString()` and `Date.now()`. They are the `now`, `clock` and `nowMs` parameters; the merge reads its clock once per call, as the code does.
- update.js, testing.js and proxy.js are not part of this model. They are ad-hoc scripts outside the scraper's core.
- The order in which `Object.values`, `Object.entries` and `for...in` visit a store is the parameter `order`, assumed to list every key once.
- Floating point. Numbers are integers, so `typeof x === "number"` is `Num`, and there is no NaN or fractional deadline.
- GraphQL bodies: a reply body is reduced to the fields the code reads (`Scrape.Payload`, `Enrich.EnrichBody`). A `projects.edges` or `pageInfo` of the wrong JSON type is not modelled.
- FilterActive.FilterActiveProjects: assumes every stored value is an object. A store maps ids to records, so a `null` or non-object stored value is not modelled. On one, the filter (filter-active.js:18), the currency loop (currency.js:12, `Currency.CollectCurrencies`) and the enrichment's selection (depreciated/enrich.js:28-29, `Enrich.Selected`) would throw, and the merge's `!existing[id]` test (files.js:53, `Files.MergeItem`) would replace it with a new record; with records only, that test is `id !in existing`.
- Enrich.EnrichStep: its first test (a key missing from the store) cannot happen for selected keys, and only keeps the function total.
- The scraper's own crash is reported as an `error` value: a thrown request, or a merge that throws, ends the run with `RequestFailed` or `MergeFailed` instead of an unhandled rejection.
