# nds_crawler_svc in Dafny

A model of the decision logic and store updates in `nds_crawler_svc`, a small
web-crawling service, with proofs about it. Its routers define three HTTP
routes: one URL submission, a batch submission that starts crawls, and a
results route that serves stored records 100 to a page. The crawler crawls a
URL recursively up to depth 5 and writes one JSON file per crawled page under
`data/<job_id>/`. A deduplication ledger records when each URL was last
crawled. How the application mounts these routers is described under "Where
the code and its description differ". The model covers these parts, one
module each:

- `Dedup` (`dedup.dfy`): the seven-day recency query `is_recently_crawled`. The ledger is a
  `map<string, int>` from URL to crawl time in seconds.
- `LedgerPurge` (`ledger_purge.dfy`): `cleanup_old_urls`. A `CrawledUrlTable` class holds the
  ledger, and its method deletes the entries older than the cutoff, or leaves
  them all in place when the transaction rolls back.
- `Storage` (`storage.dfy`): `store_crawled_data`. A `DataDir` class holds the directories
  and a map from (directory, file name) to the stored value, or to a cut-off file. Its method
  validates the job id and then the data, names the file after the current
  second and writes it.
- `Retention` (`retention.dfy`): the retention sweep `cleanup_with_custom_threshold` from
  the cleanup test. A `StorageTree` class holds the files. The age pass
  removes files older than 30 days. The size pass then removes files oldest
  first until the total is at or below the threshold.
- `Crawl` (`crawl.dfy`): `start_crawling_job`, with its guards (scheme, depth,
  recency), the primary fetch, the fallback fetch with a browser agent, the
  HTML gate, link extraction, the store call and one child crawl per link.
  The crawl tree is flattened into an event log of calls, fetches and stores.
- `UrlSubmission` (`url_submission.dfy`): the `POST /submit_url` guard chain.
- `BatchSubmission` (`batch_submission.dfy`): `POST /submit`. It runs the ordered payload
  checks, applies the 100-entry cap, collects the valid URLs into a set and
  dispatches one crawl per URL.
- `Results` (`results.dfy`): `GET /results/{job_id}`. It keeps the `.json` names, sorts
  them descending by `rstrip('.json')`, keeps the records that have the four
  keys, and serves 100 records per page.

Shared helpers:

- `Text`: Python string predicates, the code-point string order, `rstrip`
  and decimal digit strings.
- `Timestamps`: the two `strftime` layouts.
- `JsonValue`: Python/JSON values with truthiness, `dict.get`,
  `json.dumps` serialisability and `in`.
- `Http`: the `HTTPException` outcome.
- `Maybe`: the option type.

The clock, the database, the network, the HTML parser and the operating
system's failures are parameters of the operations that use them.

## Model

All source paths are relative to the repository root.

| member | source | states |
|---|---|---|
| Dedup.RecentMeansWithinSevenDays | src/nds_crawler_svc/service/deduplication.py:19-25 | A lookup that works answers true exactly when the URL has a ledger entry at most seven days old. |
| Dedup.SevenDaysExactlyIsRecent | src/nds_crawler_svc/service/deduplication.py:23 | The `>=` boundary: an entry exactly seven days old counts as recent, and one second older does not. |
| Dedup.LookupErrorFailsOpen | src/nds_crawler_svc/service/deduplication.py:26-28 | A query that raises answers false whatever the ledger holds (fail-open). |
| Dedup.OnlyOwnEntryMatters | src/nds_crawler_svc/service/deduplication.py:21-24 | Two ledgers that agree on the URL's single entry give the same answer. |
| LedgerPurge.Purged | src/nds_crawler_svc/tasks.py:11-13 | The purged ledger is a sub-map of the old one. It keeps an entry exactly when the entry is not older than the cutoff. |
| LedgerPurge.CrawledUrlTable.CleanupOldUrls | src/nds_crawler_svc/tasks.py:8-20 | The table becomes the purged ledger, or stays exactly as it was when the delete or commit raises (rollback). |
| LedgerPurge.PurgeKeepsExactlyTheWindow | src/nds_crawler_svc/tasks.py:11-13 | After a purge no entry is older than the cutoff. Every entry at or after it survives with its timestamp unchanged. |
| LedgerPurge.PurgeIdempotent | src/nds_crawler_svc/tasks.py:13 | Purging twice at the same time removes nothing the second time. |
| LedgerPurge.PurgeKeepsRecencyAnswers | src/nds_crawler_svc/tasks.py:11-13 | At the same time, purging changes no URL's recency answer, because the purge's `<` and the lookup's `>=` are complementary. |
| LedgerPurge.PurgeExample | tests/test_cleanup.py:9-36 | An entry eight days old is removed and one crawled now is kept. |
| Storage.Join | src/nds_crawler_svc/storage.py:36 | `os.path.join` of two parts. An absolute second part replaces the first. Otherwise the result starts with the first part and ends with the second, separated by one '/'. |
| Storage.FileName | src/nds_crawler_svc/storage.py:32-33 | The file name has 19 characters: the 14-digit stamp of the instant followed by ".json". |
| Storage.DataDir.StoreCrawledData | src/nds_crawler_svc/storage.py:10-53 | Checks run in order: job id, then serialisability, then makedirs, then open. Each failure returns its own error text. A failure before the file is opened writes nothing, and a failed open leaves the created directory behind. A write that fails after `open` has truncated the file leaves it cut off, losing any earlier record from the same second. On success the result is the file's path, and only that file is written or overwritten, with exactly the given value. |
| Storage.DataDir.WriteJobFile | src/nds_crawler_svc/storage.py:35-53 | The directory is created unless makedirs fails. If makedirs or open fails, no file changes. If the write fails after open, the one file is left cut off. Otherwise the file holds the whole value. The result is the path or the matching error text. |
| Storage.StoredPathIsNotAnError | src/nds_crawler_svc/storage.py:36-53 | A successful write's path is `data/<job>/<stamp>.json`, or under `<job>` when the job id is absolute, and it never starts with "Error". |
| Storage.SameSecondSameFile | src/nds_crawler_svc/storage.py:31-33 | Two writes to one job hit the same file exactly when they fall in the same second. |
| Timestamps.Stamp14 | src/nds_crawler_svc/storage.py:32 | `%Y%m%d%H%M%S` of a valid instant is 14 decimal digits. |
| Timestamps.Stamp14Value | src/nds_crawler_svc/storage.py:32 | The 14 digits denote the number YYYYMMDDHHMMSS of the instant. |
| Timestamps.Stamp20 | src/nds_crawler_svc/crawling_job.py:74 | `%Y%m%d%H%M%S%f` is 20 digits: the 14-digit stamp, then the microseconds. |
| Timestamps.StampOrder | src/nds_crawler_svc/storage.py:32 | Stamps compare as strings exactly as their instants compare in time, to the second. |
| Timestamps.FieldsOfStamp | src/nds_crawler_svc/storage.py:32 | Each field sits at its fixed offset in the stamp, zero-padded. |
| Timestamps.StampCollision | src/nds_crawler_svc/storage.py:32-33 | Two instants get the same stamp exactly when they fall in the same second. |
| Text.RStrip | src/nds_crawler_svc/routers/results.py:35 | `rstrip(chars)` returns a prefix whose last character is not in the set, and every character removed is in the set. |
| JsonValue.Get | src/nds_crawler_svc/routers/url_submission.py:17 | `dict.get` finds a value exactly when the key is present, and that value is bound to the key. |
| JsonValue.Unencodable | src/nds_crawler_svc/storage.py:25-29 | `json.dumps` fails exactly when an unencodable value occurs inside the data. The error then names the type of a value that occurs there. |
| JsonValue.PyIn | src/nds_crawler_svc/routers/results.py:45 | `k in data` tests the keys of a dict and the elements of a list. It raises TypeError for numbers, booleans and None. |
| Retention.AgePass | tests/test_cleanup_old_data.py:96-110 | A file goes exactly when its stat works, it is more than 30 days old and its removal works. Every other file stays unchanged. |
| Retention.ThirtyDaysExactlyIsKept | tests/test_cleanup_old_data.py:93-105 | A file exactly 30 days old is kept. One a second older is removed. |
| Retention.SortByMtime | tests/test_cleanup_old_data.py:129 | The sorted list is in ascending modification time, is a permutation of the listing and has the same total size. |
| Retention.EvictionRemovesOldestPrefix | tests/test_cleanup_old_data.py:127-138 | The eviction removes exactly the removable entries of a prefix of the sorted list. A failed removal leaves the total as it was. Before each visited entry the total was still above the threshold. When the eviction stops early, the total is at or below it. |
| Retention.EvictionMeetsThreshold | tests/test_cleanup_old_data.py:127-138 | When every removal works, the eviction ends at or below the threshold. |
| Retention.EvictionStartsWithOldest | tests/test_cleanup_old_data.py:128-136 | Nothing is evicted at or below the threshold. Above it, the oldest file goes first. |
| Retention.AgePassExample | tests/test_cleanup_old_data.py:34-51 | A 31-day-old file is removed and a 5-day-old one is kept. |
| Retention.SizePassExample | tests/test_cleanup_old_data.py:54-155 | For two 60 MiB files against 100 MiB, only the older one is removed, whichever order the walk lists them in. |
| Retention.StorageTree.Cleanup | tests/test_cleanup_old_data.py:92-139 | The tree loses the files the age pass removes, then those the eviction over the sorted listing removes. The listing holds each remaining file whose stat works exactly once. The two walks fail independently: the age pass follows its own stat and remove failures, and the listing and eviction follow theirs. |
| Retention.CleanupIdempotent | tests/test_cleanup_old_data.py:92-139 | A second sweep at the same time, against the same failures and with no new writes, removes nothing. Its age pass keeps every file, and its size pass evicts nothing, whatever order either walk visits the files in. |
| Retention.StorageTree.RemoveExpired | tests/test_cleanup_old_data.py:96-110 | The first walk leaves the tree equal to the age pass of the old tree, in whatever order it visits the paths. |
| Retention.StorageTree.ListFiles | tests/test_cleanup_old_data.py:112-125 | The second walk lists each file whose stat works exactly once, with its time and size. The running total is the sum of the listed sizes. |
| Retention.StorageTree.EvictOldest | tests/test_cleanup_old_data.py:127-138 | The loop with its early `break` computes the eviction, and the tree loses exactly the removed paths. |
| Crawl.SchemeOkMeansHttpPrefix | src/nds_crawler_svc/crawling_job.py:20-21 | After the cleaning `urlsplit` does, and ignoring ASCII case, a URL passes the scheme check exactly when it starts with "http:" or "https:". |
| Crawl.SchemeRunFindsFirstColon | src/nds_crawler_svc/crawling_job.py:20 | The scheme is the text before the first ':' when that text is made of scheme characters only. |
| Crawl.NoLetterNoScheme | src/nds_crawler_svc/crawling_job.py:20-23 | A URL that does not start with an ASCII letter has no scheme and is rejected. |
| Crawl.RelativeLinksRejected | src/nds_crawler_svc/crawling_job.py:20-23 | Relative links ("/a", "#x", "?q", "./b") never pass the scheme check. |
| Crawl.HttpUrlsPass | src/nds_crawler_svc/crawling_job.py:21 | "http://…" and "https://…" have an http or https scheme, and "ftp://…" does not. A URL on which `urlparse` raises is stopped before this test by the separate `ParseRaised` guard (see `Crawl.Guard`). |
| Crawl.NonEmptyHrefsFilter | src/nds_crawler_svc/crawling_job.py:63-68 | The links are the non-empty hrefs, each as often as the page has it, and never an empty one. |
| Crawl.NonEmptyHrefsAppend | src/nds_crawler_svc/crawling_job.py:63-68 | Filtering keeps document order. |
| Crawl.CollectLinks | src/nds_crawler_svc/crawling_job.py:63-68 | The loop with `append` builds exactly the filtered hrefs. |
| Crawl.Guard | src/nds_crawler_svc/crawling_job.py:19-40 | The guards let an invocation go on exactly when `urlparse` does not raise, the scheme is http or https, the depth is at most 5 and the recency check answered false. |
| Crawl.AfterFetch | src/nds_crawler_svc/crawling_job.py:42-71 | The fetch attempts are the primary fetch, plus the fallback when the primary raised or was not a 200. A page expands exactly when the final response is an HTML 200 that parses. |
| Crawl.Step | src/nds_crawler_svc/crawling_job.py:14-71 | An invocation fetches exactly when the guards pass, and expands only then. |
| Crawl.FallbackExactlyWhenPrimaryFails | src/nds_crawler_svc/crawling_job.py:45-57 | The browser-agent retry happens exactly when the guards pass and the primary fetch raised or was not a 200. The primary fetch always comes first. |
| Crawl.ExpandsExactlyOnHtml | src/nds_crawler_svc/crawling_job.py:59-71 | A page is stored and followed exactly when the guards pass and the final response is an HTML 200 that parses. Its links are then the non-empty hrefs. |
| Crawl.Decide | src/nds_crawler_svc/crawling_job.py:19-40 | The guard chain with its early returns computes the invocation's step. |
| Crawl.FetchAndParse | src/nds_crawler_svc/crawling_job.py:42-71 | The fetch, fallback, gate and extraction code computes what the fetches lead to. |
| Crawl.Crawl | src/nds_crawler_svc/crawling_job.py:14-87 | A crawl's log is its call and fetches. For a page that expands, these are followed by one store call and then each child's crawl at depth + 1, in link order. |
| Crawl.CrawlChildren | src/nds_crawler_svc/crawling_job.py:82-87 | The `tasks` loop appends each child's log, in link order. |
| Crawl.CrawlLogSound | src/nds_crawler_svc/crawling_job.py:14-87 | Every event of a crawl tree is sound: fetches only happen for URLs that passed the guards, and stores only for pages that expanded. Every event lies between the starting depth and 6. |
| Crawl.FetchesAreGuarded | src/nds_crawler_svc/crawling_job.py:19-46 | Every fetch in the tree is for a URL that parses and has an http or https scheme, at a depth from the start up to 5, and whose recency check answered false. |
| Crawl.StoresAreExpansions | src/nds_crawler_svc/crawling_job.py:59-80 | Every store call in the tree is for a page that expanded, with exactly that page's links. |
| Crawl.OwnLevel | src/nds_crawler_svc/crawling_job.py:14-87 | What a crawl records at its own depth is its own call, its fetches and at most one store. Its children's events lie deeper. |
| Crawl.ChildrenCalledInOrder | src/nds_crawler_svc/crawling_job.py:83-85 | The children started for a list of links are exactly those links, in order, duplicates included. |
| Crawl.ExpansionSpawnsOnePerLink | src/nds_crawler_svc/crawling_job.py:82-87 | A page that expands starts exactly one crawl per link at the next depth, in link order. |
| Crawl.ExpansionStoresOnce | src/nds_crawler_svc/crawling_job.py:73-80 | A page that expands makes exactly one store call, with its URL and links. |
| Crawl.NoExpansionNoStoreNoChildren | src/nds_crawler_svc/crawling_job.py:88-89 | A page that does not expand records only its call and fetches: no store and no children. |
| Crawl.TooDeepFetchesNothing | src/nds_crawler_svc/crawling_job.py:26-28 | Beyond depth 5 a crawl records its call and nothing else. |
| Crawl.SuccessfulFetchExample | tests/test_crawling_job.py:73-99 | An HTML 200 page with one anchor is fetched once, stored once with its URL and that link, and the link is crawled at depth 1. |
| Crawl.StoredRecord | src/nds_crawler_svc/crawling_job.py:75 | The record `{"url", "links"}` always encodes and carries the page's URL. |
| Crawl.CrawlerStoreCallIsAccepted | src/nds_crawler_svc/crawling_job.py:74-77 | The crawler's job id passes the store's validation and its record is serialisable. |
| UrlSubmission.SubmitUrl | src/nds_crawler_svc/routers/url_submission.py:10-31 | The route answers the acknowledgement, or fails with 400 or 500. |
| UrlSubmission.MissingUrlRejectedFirst | src/nds_crawler_svc/routers/url_submission.py:17-19 | A missing or falsy "url" is a 400 "URL is required." whatever the recency check would say. |
| UrlSubmission.TruthyUrlDecidedByCheck | src/nds_crawler_svc/routers/url_submission.py:21-31 | For a truthy "url": recent gives the 400 duplicate, a raising check gives the 500, not recent gives the acknowledgement. Each holds in both directions. |
| UrlSubmission.LedgerCheck | src/nds_crawler_svc/routers/url_submission.py:22 | The service's own recency check never raises. Only a string URL with a ledger entry can be recent. |
| UrlSubmission.NoServerErrorWithLedgerCheck | src/nds_crawler_svc/routers/url_submission.py:21-28 | With the fail-open check the route never answers 500. A truthy URL is accepted exactly when it has no entry from the last seven days or the ledger query raised. |
| UrlSubmission.SubmissionExamples | tests/test_url_submission.py:40-60 | `{}` and `{"url": ""}` are 400 "URL is required.". A recent URL is the 400 duplicate. A new one is acknowledged. |
| BatchSubmission.ValidUrlsMembers | src/nds_crawler_svc/routers/url_submission_batch.py:31-34 | The valid set holds exactly the string entries that start with "http://" or "https://". It is never larger than the list. |
| BatchSubmission.Validate | src/nds_crawler_svc/routers/url_submission_batch.py:10-37 | An accepted body yields a non-empty set of at most 100 URLs. A refused one is a 400. |
| BatchSubmission.AcceptedExactlyWhen | src/nds_crawler_svc/routers/url_submission_batch.py:12-37 | A body is accepted exactly when it is a JSON object whose "urls" is a list of at most 100 entries with at least one crawlable entry. |
| BatchSubmission.CollectValidUrls | src/nds_crawler_svc/routers/url_submission_batch.py:31-34 | The loop with `set.add` builds exactly the valid set. |
| BatchSubmission.StartCrawls | src/nds_crawler_svc/routers/url_submission_batch.py:41-45 | One crawl starts for each valid URL whose start does not raise. No URL is started twice, so the count equals the number of distinct such URLs. |
| BatchSubmission.DispatchStartsAtDepthZero | src/nds_crawler_svc/routers/url_submission_batch.py:43 | The started crawls run `start_crawling_job` at its default depth 0. Their depth-0 invocations are exactly the started URLs, in order. Every event of the dispatched crawls lies at a depth from 0 to 6, where 6 is a call past the limit that stops at once. |
| BatchSubmission.DistinctCount | src/nds_crawler_svc/routers/url_submission_batch.py:31-45 | A sequence without repetitions is as long as its set of elements, which turns the dispatch loop's membership invariant into a count. |
| BatchSubmission.SubmitBatchUrls | src/nds_crawler_svc/routers/url_submission_batch.py:10-48 | A refused body starts nothing and raises the first failing check's 400. An accepted one starts one crawl per distinct valid URL, at most 100, and replies with the 20-digit job id and "Crawling jobs initiated". |
| BatchSubmission.CapCountsEntries | src/nds_crawler_svc/routers/url_submission_batch.py:28-29 | The cap counts list entries: 101 copies of one valid URL are refused, although they form one URL. |
| BatchSubmission.DuplicatesCollapse | tests/test_url_batch_submission.py:64-85 | Four entries holding two distinct URLs give exactly those two URLs to crawl. |
| BatchSubmission.NoCrawlableRefused | tests/test_url_batch_submission.py:99-107 | An empty list, and a list with no http(s) entry, are 400 "No valid URLs provided". |
| Results.JsonFilesKeepsJson | src/nds_crawler_svc/routers/results.py:29 | The filter keeps every `.json` name, as often as it is listed, and nothing else. |
| Results.SortDescSorted | src/nds_crawler_svc/routers/results.py:35 | After the sort, keys never increase. |
| Results.SortDescPermutes | src/nds_crawler_svc/routers/results.py:35 | The sort is a permutation of the listing. |
| Results.RecordsAreComplete | src/nds_crawler_svc/routers/results.py:39-50 | Every collected record has the four keys, and every file that parses to such a record contributes it. |
| Results.CollectRecords | src/nds_crawler_svc/routers/results.py:39-50 | The loop with `append` and skip-on-error collects exactly the records of the sorted files, in that order. |
| Results.SortKeepsRecords | src/nds_crawler_svc/routers/results.py:33-50 | The sorted listing yields the same records as the unsorted one, counted with repetition. |
| Results.RecordsDependOnContents | src/nds_crawler_svc/routers/results.py:28-50 | Listings with the same entries in any order yield the same records. |
| Results.TotalPages | src/nds_crawler_svc/routers/results.py:51-53 | The page count is at least 1, is 1 for no records, and is otherwise the least t with n <= 100 t. |
| Results.PageOf | src/nds_crawler_svc/routers/results.py:56-58 | A page holds at most 100 records. They are the records from (page - 1) * 100 on, and the page is full unless it is the last. |
| Results.PagesArePrefix | src/nds_crawler_svc/routers/results.py:56-58 | Pages 1 to k laid end to end are the first min(100 k, n) records. |
| Results.PagesCoverRecords | src/nds_crawler_svc/routers/results.py:51-58 | Pages 1 to the page count reproduce the record list exactly once. Every page but the last is full, and the last is non-empty when there are records. |
| Results.GetCrawlResults | src/nds_crawler_svc/routers/results.py:21-59 | The handler with its sort and record loop gives the route's answer: 422, 400, 404, 500, 400 out of range, the 500 for a record the response model refuses, or the page. |
| Results.FirstPageServed | src/nds_crawler_svc/routers/results.py:51-55 | Page 1 of a listable job directory is never out of range. With no records it is an empty page of 1. |
| Results.NonPositivePageRejected | src/nds_crawler_svc/routers/results.py:22 | A page number below 1 is a 422 before anything else is looked at. |
| Results.ServedPageIsValid | src/nds_crawler_svc/routers/results.py:10-19 | A served page is within range and holds at most 100 records, each well-shaped and with all four keys. |
| Results.StoredNameKey | src/nds_crawler_svc/routers/results.py:35 | For a name the store wrote, the `rstrip` key is exactly the 14-digit stamp. |
| Results.NewestFirst | src/nds_crawler_svc/routers/results.py:33-35 | Among names the store wrote, the sorted order is newest second first. |
| Results.CrawlerRecordsNeverServed | src/nds_crawler_svc/routers/results.py:45 | The crawler's own records `{"url", "links"}` lack "title", "metadata" and "content", so this route never serves them. |
| Results.ServedScenario | tests/test_results.py:41-78 | With three complete records and one unreadable `.json` file in any order, page 1 serves the three records as a page of one, and page 2 is out of range. |

## Left out

- I/O itself: the database, HTTP, HTML parsing, the file system and logging.
  Their answers and failures are inputs to the model. These include what a fetch
  returns, the hrefs a page has, the recency answer, which stat, remove,
  makedirs, open or dispatch raises, and which listing or read fails. Log
  messages are not modelled.
- Clocks: `now` is a parameter. It is an `Instant` for the file names and job ids,
  and whole seconds for the ledger and the sweep. Floating-point modification
  times are not modelled.
- Concurrency: `asyncio.create_task` and `gather` are modelled as sequential
  child crawls in link order. A child's log depends only on its own URL and
  depth, so siblings cannot affect each other. Interleaving is not
  modelled.
- Crawl.Crawl: an exception raised by `store_crawled_data` inside the crawler is
  caught and logged (`crawling_job.py:76-80`). The log records the store call
  and the crawl goes on whatever the store returns. The log carries the record's
  URL and links but not the job id.
- Crawl.SchemeOkMeansHttpPrefix: `urlparse` is modelled only as far as the scheme
  goes. That covers stripping leading C0 characters and spaces, deleting tab,
  CR and LF, and the scheme characters before the first ':'. The other
  components are not modelled. When `urlparse` raises ValueError, for example on
  an unbalanced '[' or ']' in the network location, that is an input
  (`Web.parseRaises`) rather than computed from the URL.
- Crawl.Crawl: each URL gets one recency answer and one fetch result per agent
  for the whole tree. In the service, the recency cutoff moves with the clock,
  the ledger can change during a crawl, and a refetch can return something
  else. So a URL visited twice in one tree (a site that links back to itself)
  is treated alike both times in the model.
- Results.GetCrawlResults: the "Error sorting files" branch (`results.py:36-38`)
  is left out because comparing strings cannot raise. FastAPI's 422 body is
  reduced to one detail string. Pydantic's validation of the response is
  reduced to `WellShaped`: url, title and content are strings, and metadata is
  present.
- Results.SortDescSorted: stability (equal keys keep listing order) holds by
  construction of `InsertDesc`, but it is not stated as a lemma.
- Retention.AgePass: the sweep runs on one timeline, and a file's age is
  `now - mtime` in seconds. The test's sweep takes the difference of two naive
  local wall-clock times (`datetime.now()` and `datetime.fromtimestamp(st_mtime)`).
  Near a daylight-saving change that age is off by the shift: after a
  spring-forward, a file exactly 30 days old, or even a little younger, counts as
  too old and is removed. So Retention.ThirtyDaysExactlyIsKept holds only in a
  zone without daylight saving. The model's `mtime` stands for both the epoch
  `st_mtime` the size pass sorts by and the local time the age pass subtracts.
- Retention.SortByMtime: `list.sort` is stable, so files with equal modification
  times are evicted in walk order. `InsertByMtime` keeps that order by
  construction, but no lemma states it.
- JsonValue.Unencodable: an `Obj` with a repeated key is checked binding by
  binding. A Python dict keeps only the last binding, so a shadowed unencodable
  value makes the model's `json.dumps` fail where Python's would not. The
  values the service hands to `json.dumps` (the crawler's `{"url", "links"}`)
  have distinct keys.
- Storage.DataDir.StoreCrawledData: `os.path.join` is modelled for two parts with
  POSIX rules, and a failure's text is the fault's reason. Whitespace
  follows `str.isspace`. The directory set gains only the job directory, not
  the missing parents that `os.makedirs` also creates (job id "a/b" also
  creates `data/a`). Files are keyed by (directory, name) without normalising
  the path, so job ids "a" and "a/" give two model files for one file on disk,
  and an overwrite across them is not seen.
- Routing: the `job_id` path parameter is taken as given, and an empty one is
  kept reachable because the handler checks it.
- The Alembic migration, `main.py` and `config.py` are not part of this model.
  `app.py` matters only for which routers it mounts.
- `storage.cleanup_old_data` does not exist in `storage.py`, so the sweep
  modelled is the test's `cleanup_with_custom_threshold`.

## Where the code and its description differ (the model follows the code)

- `app.py:6` mounts only the router of `POST /submit_url`. `POST /submit`
  and `GET /results/{job_id}` are defined in their routers but never served
  by the application. Since `submit_url` starts no crawl either (below), the
  running service neither crawls nor serves results. The model covers each
  route as its router defines it.
- The crawler never writes to the deduplication ledger. Nothing in the code
  inserts a ledger entry, so the recency check only reflects entries written
  elsewhere.
- `submit_url` starts no crawl; it only answers. `tests/test_url_submission.py:33`
  expects a task to be created.
- The batch route's `job_id` is not passed to the crawler. Each crawled page is
  stored under its own 20-digit job id, so a batch's id never names a results
  directory.
- The crawler stores `{"url", "links"}`, while the results route keeps only
  records with "url", "title", "metadata" and "content". Crawler output is
  therefore never served (`Results.CrawlerRecordsNeverServed`).
- Result file names have one-second resolution. A second write to the same job
  in the same second overwrites the first (`Storage.SameSecondSameFile`).
- The size threshold of the sweep is the test's 100 MiB (`test_cleanup_old_data.py:88`),
  not a 100 GiB cap.
