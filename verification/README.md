# A verified model of the dress-search backend

The backend has three parts:

- **The scraper.** It harvests listings from the Vinted France catalogue API, page by page. Each page request runs under a bounded retry loop that reacts to the HTTP status. The scraper then projects each listing onto twelve columns.
- **The image embedder.** It fetches each listing's photo, encodes it with CLIP and stores the embedding and metadata in a vector collection, in batches. It also answers nearest-neighbour searches.
- **The HTTP API.** It checks an API key taken from the environment and serves health, stats and search routes over a global embedder set up at startup.

This project models those parts in Dafny and proves properties of them. The external world is a set of oracles passed as parameters:

- the network is a function from request to response;
- image download and decoding is a function from URL to result;
- CLIP encoding, the collection's `add` and the nearest-neighbour query are functions too.

Sleeps are recorded as events in a trace.

Modules, by file:

- `wrappers.dfy`: `Option` and `Result`.
- `values.dfy`: JSON and pandas cell values, truthiness, `dict.get`, NA.
- `text.dfy`: `str()` of a value, decimal rendering and parsing, comma join and split, `str.strip`.
- `scraper_params.dfy`: `norm_list` and the query parameters.
- `harvest.dfy`: the page loop (`FetchItems`), the retry loop (`RetryPage`) and their specifications `Harvest` and `TryPage`.
- `harvest_laws.dfy`: what a harvest returns and requests, and the short-page finding.
- `items.dfy`: `extract_minimal_item_fields`.
- `index_spec.dfy`: the batch indexer as functions (eligibility, loading a batch, batches, store insertion).
- `index_laws.dfy`: the indexer's count, fetches and store.
- `frames.dfy`: `dropna`, `drop_duplicates` and the new-id filter of `embedd_data`.
- `embedder.dfy`: `class ImageEmbedder` and search result mapping.
- `api.dfy`: API key sanitising and checking, the handlers, and `class Server`.

## Model

| member | source | states |
|---|---|---|
| `Text.IntRoundTrip` | backend/scraper.py:133-140 | Parsing the decimal rendering of any integer gives back that integer. |
| `Text.SplitJoin` | backend/scraper.py:133-140 | Splitting a comma-join of comma-free parts on `,` gives back the parts. |
| `Text.Strip` | backend/app.py:36 | `str.strip(chars)` drops exactly the leading and trailing run of those characters, leaving a slice of the input. |
| `Text.BlankIffStripsToEmpty` | backend/app.py:174 | `query.strip()` is empty exactly when every character of the query is whitespace, which is the blank-query test the search handler uses. |
| `ScraperParams.NormList` | backend/scraper.py:133-140 | `None` maps to `None` and nothing else does; a string passes through unchanged. |
| `ScraperParams.NormListRoundTrip` | backend/scraper.py:133-140 | An int or a non-empty list of ints reads back from the comma-joined string as exactly those ids, in order. |
| `ScraperParams.BaseParams` | backend/scraper.py:142-161 | `order`, `page=1`, `per_page` and `time` are always present. Each filter key is present iff its argument is not `None`, holding its normalised value. `search_text` is present iff it is a non-empty string. |
| `ScraperParams.PageParams` | backend/scraper.py:166-167 | The page request is the base with only `page` replaced. |
| `Scraper.FetchItems` | backend/scraper.py:165-248 | The page loop and the retry loop return exactly the items, trace and stop reason of the specification `Harvest`. |
| `Scraper.RetryPage` | backend/scraper.py:169-236 | The retry loop for one page returns exactly the cursor and page outcome of the specification `TryPage`. |
| `Scraper.ClassifyBranches` | backend/scraper.py:172-236 | Each verdict stands for exactly its responses. A request exception is a network error. 403, 429 and 401 are their own verdicts, and any status from 500 up is a server error. Any other status is a JSON error when the body is not JSON, and a success carrying the body's items otherwise. |
| `Scraper.Backoff` | backend/scraper.py:183-236 | A backoff after attempt `a` lasts between `1.5·a` and `5 + 3·a` seconds, and one after a 429 lasts at least 5 seconds. |
| `HarvestLaws.TryPageShape` | backend/scraper.py:169-236 | One page's retry loop only appends to the trace and the collected items, keeping the request counter consistent, and every request and accepted page it adds is for page `p`. The only page it accepts is its last event, whose items are exactly what it adds to the collected items. A blocked page ends on a request. The verdicts behind these endings are stated by `TryPageAnswers`, and the attempt count by `TryPageRequests`. |
| `HarvestLaws.TryPageRequests` | backend/scraper.py:169-236 | One page issues at most `max_retries` requests. |
| `HarvestLaws.HarvestAccumulates` | backend/scraper.py:165-248 | The collected items are exactly the items of the accepted pages, in trace order. Pages are accepted in increasing order within 1..max_pages. The request counter equals the requests issued. |
| `HarvestLaws.HarvestRequestBound` | backend/scraper.py:165-236 | At most `max_pages * max_retries` requests are issued. |
| `HarvestLaws.TryPageNumbers` | backend/scraper.py:169-171 | The `k`-th request of a page's retry loop, counting from 1, carries attempt number `k`. |
| `HarvestLaws.PageBackoffsGrow` | backend/scraper.py:170-215 | Within one page, two requests with the same backoff verdict are each followed by the sleep `Backoff` gives for their attempt, and the later one sleeps strictly longer. |
| `HarvestLaws.TryPageAnswers` | backend/scraper.py:169-236 | Every request of a page's retry loop records the verdict of the reply to exactly that request, under the session current at the time. Each verdict is followed by its reaction: a 403 by a new session and a jitter pause, a backoff verdict by a sleep of `Backoff(verdict, attempt)`, a success by the fetched items, and a 401 by nothing. A page that runs out of retries saw only 403s and backoff verdicts. |
| `HarvestLaws.HarvestAnswers` | backend/scraper.py:165-248 | Over the whole harvest, every request records the reply to it and every reply is followed by the reaction its status calls for. A harvest stopped by a 401 ends on that request. A harvest that gave up on page `q` saw only retryable verdicts for `q`. |
| `HarvestLaws.HarvestStopsAtFailure` | backend/scraper.py:192-241 | A harvest stopped by a 401 or by running out of retries on page `q` requests no later page. It keeps only items of earlier pages. After a 401 the last event is the request for `q` answered 401. After giving up, every request for `q` was answered 403 or a backoff verdict. |
| `HarvestLaws.NoRetriesNoRequests` | backend/scraper.py:169 | With `max_retries <= 0` no request is made, nothing is collected, and the harvest gives up on page 1. |
| `HarvestLaws.ShortPageStillAdvances` | backend/scraper.py:224-230 | After a short page (fewer than `per_page` items), the harvest's next event is the request for the next page. |
| `HarvestLaws.ShortPageCounterexample` | backend/scraper.py:224-230 | With two pages, each answered 200 with no items, two requests are made and the harvest completes. |
| `HarvestLaws.IntendedShortPageIsLast` | backend/scraper.py:224-229 | With a short page ending the harvest, a short page is the last page fetched. |
| `HarvestLaws.IntendedStopsAfterShortPage` | backend/scraper.py:224-229 | In the corrected harvest, no request follows a short page. |
| `ItemFields.MinimalItem` | backend/scraper.py:283-312 | Each of the twelve columns holds the value at its source path, or `None` when missing. Nested columns are `None` when their parent object is missing or falsy. |
| `ItemFields.ExtractMinimalItemFields` | backend/scraper.py:273-314 | One record per listing, in order, with every column read from the listing at the same index. |
| `ItemFields.ExtractAppend` | backend/scraper.py:273-314 | Projecting a concatenation is the concatenation of the projections. |
| `IndexSpec.EligibleMeans` | backend/embeddings.py:99-108 | A row is fetched only if it has a photo URL that is neither NA nor falsy and an id whose text is neither empty nor `"nan"`. Every row with a non-empty string URL and such an id is fetched. |
| `IndexSpec.MetadataFields` | backend/embeddings.py:128-138 | Each metadata field is the row's value under its column when the column is present, and otherwise its default: `""`, `None`, `"EUR"`, `""`, `""`, `""`. The image URL is the photo URL. |
| `IndexSpec.LoadRows` | backend/embeddings.py:95-142 | A batch yields aligned `ids`, `metadatas` and `images` lists. They are no longer than the number of eligible rows, which equals the number of fetches. Every id comes from an eligible row. |
| `IndexSpec.KeptMembers` | backend/embeddings.py:98-142 | A row is kept exactly when it is eligible and its image answers 200 with a decodable image. |
| `IndexSpec.KeptFilters` | backend/embeddings.py:98-142 | Keeping is an order-preserving filter: each row is kept or dropped on its own, in place. |
| `IndexSpec.LoadRowsKept` | backend/embeddings.py:98-142 | Entry `j` of `ids`, `metadatas` and `images` comes from kept row `j`: its id text, its metadata, and the image its URL fetched. |
| `IndexSpec.Insert` | backend/embeddings.py:158-162 | After `add`, the store holds the old ids plus the batch's ids, and entries already present are unchanged. |
| `IndexSpec.InsertKeepsFirst` | backend/embeddings.py:158-162 | When an `add` that the model lets succeed repeats a new id, the id is stored with the metadata of its first occurrence. Chroma itself rejects such an `add`; see "## Left out". |
| `IndexSpec.AfterBatchEffect` | backend/embeddings.py:144-171 | The count grows by `len(ids)` exactly when the batch has images and both encode and add succeed; only then does the store gain the batch's ids. A batch with no images makes no call after its fetches. A failed encode makes no `add`. |
| `IndexSpec.BatchesPartition` | backend/embeddings.py:89-93 | The batches are non-empty and at most `batch_size` long. Concatenated, they are the rows from `start` on. |
| `IndexSpec.BatchesCover` | backend/embeddings.py:89-93 | Batch `k` of `range(0, n, size)` is rows `[k*size, min((k+1)*size, n))`, and together the batches are the whole table. |
| `IndexLaws.LoadFetchesEligible` | backend/embeddings.py:99-142 | Loading a batch fetches exactly one URL per eligible row, in row order. |
| `IndexLaws.LoadKeepsAll` | backend/embeddings.py:110-142 | If every eligible row's image loads, every eligible row is kept. |
| `IndexLaws.BatchLog` | backend/embeddings.py:95-171 | One batch appends its fetches and then at most one encode and one add. The count grows by the ids of a successful add. A batch with no images does nothing more. |
| `IndexLaws.IndexLog` | backend/embeddings.py:89-174 | Over all batches, the fetches are one per eligible row, in order. The returned count is the sum over the successful adds. |
| `IndexLaws.IndexCountBound` | backend/embeddings.py:89-174 | The returned count never exceeds the number of eligible rows. |
| `IndexLaws.IndexCountsAll` | backend/embeddings.py:89-174 | When every image loads and every encode and add succeeds, the count is exactly the number of eligible rows. |
| `IndexLaws.IndexStore` | backend/embeddings.py:160-167 | The store keeps every existing entry and gains only ids of eligible rows. |
| `Frames.DropNA` | backend/embeddings.py:187 | Rows with NA `ID` or `PHOTO_URL` are dropped, and all other rows are kept. |
| `Frames.DropNAFilters` | backend/embeddings.py:187 | Dropping is an order-preserving filter: each row is kept or dropped on its own, in place. |
| `Frames.Dedup` | backend/embeddings.py:188 | The same set of ids, each exactly once, from rows of the input. |
| `Frames.DedupKeepsFirst` | backend/embeddings.py:188 | Row `k` of the result is the first row of the input with its id, and the result keeps the input's order. |
| `Frames.NewRows` | backend/embeddings.py:202 | A row is kept iff its `str(ID)` is not already stored. |
| `Frames.NewRowsFilters` | backend/embeddings.py:202 | The new-id filter keeps the table's order: each row is kept or dropped on its own, in place. |
| `Frames.NewRowsNone` | backend/embeddings.py:202-207 | No new row remains exactly when every row's `str(ID)` is already stored. |
| `Frames.NewRowsFetchFewer` | backend/embeddings.py:202 | Leaving out stored rows never adds fetches. It removes at least one fetch when a stored row is eligible. |
| `Embeddings.Similarity` | backend/embeddings.py:244 | Similarity is `1 - distance`, clamped to 0 beyond distance 1, and lies in [0, 1] for a non-negative distance. |
| `Embeddings.SimilarityAntitone` | backend/embeddings.py:244 | A nearer item is never less similar. |
| `Embeddings.Hits` | backend/embeddings.py:239-257 | One result per zipped triple, in the store's order, with the store's id and `Similarity` of its distance. Each field is the metadata's value when the key is present, and otherwise `""`, `None`, `"EUR"`, `""` or `""`. |
| `Embeddings.HitsRanked` | backend/embeddings.py:239-257 | Distances in ascending order give similarities in descending order. |
| `Embeddings.LoadBatch` | backend/embeddings.py:95-142 | The row loop builds exactly the lists and fetches of `LoadRows`. |
| `Embeddings.ImageEmbedder.IndexBatch` | backend/embeddings.py:95-171 | One pass of the batch loop leaves the count, the store and the calls as `AfterBatch` says, and leaves model and collection as they were. |
| `Embeddings.ImageEmbedder.constructor` | backend/embeddings.py:31-40 | A new embedder has neither model nor collection, over the persisted store. |
| `Embeddings.ImageEmbedder.InitializeModel` | backend/embeddings.py:42-55 | A failed load re-raises and changes nothing. Success sets the model and touches nothing else. |
| `Embeddings.ImageEmbedder.InitializeDatabase` | backend/embeddings.py:57-71 | It succeeds iff the open and the logged `count()` both succeed. A failed open re-raises and changes nothing. A failed `count()` re-raises after the collection is set. Nothing else changes. |
| `Embeddings.ImageEmbedder.ProcessBatchEmbeddings` | backend/embeddings.py:73-174 | Before initialisation it raises RuntimeError, and `batch_size == 0` raises ValueError; neither changes the store. Otherwise the count, the store and the calls are those of `Index` over `range(0, n, batch_size)`. |
| `Embeddings.ImageEmbedder.EmbeddData` | backend/embeddings.py:176-216 | Initialisation failures propagate, including a failed `count()` in `initialize_database`. If no cleaned row is new it returns 0 and makes no call. Otherwise it indexes the whole cleaned table in batches of 6 and returns the count, unless the final `count()` raises. The count is then lost although the store has changed. |
| `Embeddings.EmbeddReprocessesAll` | backend/embeddings.py:202-211 | When `embedd_data` indexes, it fetches every eligible cleaned row, so stored rows are fetched again. That is strictly more fetches than the new rows need whenever a stored row is eligible. |
| `Embeddings.ImageEmbedder.SearchSimilar` | backend/embeddings.py:218-261 | Before initialisation it raises RuntimeError, and an exception from the query propagates. Otherwise it returns `[]` for an empty answer and exactly `Hits` of the answer otherwise. |
| `Api.ApiKey` | backend/app.py:33-36 | Without `API_KEY` in the environment the key is `dev-secret-key`, which sanitising leaves as it is. Otherwise the key is a slice of the variable's value. |
| `Api.SanitizeApiKey` | backend/app.py:33-36 | The key is no longer than the raw value, and neither starts nor ends with a single quote. |
| `Api.SanitizedIsSlice` | backend/app.py:36 | The key is a contiguous piece of the raw value. |
| `Api.SanitizeKeepsInnerQuotes` | backend/app.py:36 | `'"k"'` sanitises to `"k"`: double quotes inside single quotes survive. |
| `Api.SanitizeInnerQuoted` | backend/app.py:36 | `"k"` sanitises to `k`. |
| `Api.SanitizeNotIdempotent` | backend/app.py:36 | Sanitising twice can differ from sanitising once. |
| `Api.HeaderValue` | backend/app.py:48-53 | With `auto_error=False` the header reads as `None` exactly when it is missing or empty. Otherwise it reads as the header itself. |
| `Api.VerifyApiKey` | backend/app.py:48-71 | Access is granted iff the header is present, non-empty and equal to the key. A missing or empty header gives 401 "missing", and any other value gives 401 "invalid". |
| `Api.EmptyKeyLocksOut` | backend/app.py:48-71 | If the key is empty (a raw value that sanitises to nothing), every request is rejected, since no header reads as the empty string. |
| `Api.HealthCheck` | backend/app.py:116-138 | The service is healthy iff the embedder exists with model and collection ready and `count()` succeeds. It then reports the item count. |
| `Api.GetStats` | backend/app.py:141-154 | Stats succeed iff the collection is ready and `count()` succeeds. Every error is 500. |
| `Api.IntendedGetStats` | backend/app.py:143-147 | An uninitialised collection answers 503, and otherwise the answer is as written. |
| `Api.StatsNever503` | backend/app.py:141-154 | As written, stats never answer 503. |
| `Api.Respond` | backend/app.py:181-200 | One response entry per result, in order, keeping the id, title, price, currency, URL, image URL and similarity. `total_found` is the number of entries. |
| `Api.SearchItems` | backend/app.py:157-205 | Search succeeds iff the embedder is ready, the query is not blank and the search succeeds. Every error is 500. On success the response is `Respond` of the embedder's results, so `total_found` is their number and every field is passed on in order. |
| `Api.IntendedSearchItems` | backend/app.py:164-178 | Uninitialised gives 503, a blank query gives 400, and otherwise the answer is as written. |
| `Api.SearchMasksClientErrors` | backend/app.py:164-205 | As written, search never answers 400 or 503. Concrete inputs show both becoming 500. |
| `Api.Server.Backend` | backend/app.py:73-74 | The handlers' view of the global embedder, `None` until startup, with readiness and item count taken from it. |
| `Api.Server.Startup` | backend/app.py:96-113 | Startup binds a new embedder before initialising it, so a failed load or open leaves an embedder that is not ready. It succeeds iff the load, the open and both `count()` calls succeed. A failed `count()` leaves a ready embedder behind. |
| `Api.Server.Search` | backend/app.py:157-205 | A search succeeds iff the global embedder exists and is ready, the query is not blank and the query to the store is answered. Every error is 500. On success the response is `Respond` of the hits: `[]` for an empty answer, and otherwise `Hits` of the answer, so `total_found` is at most the number of ids returned. |

## Left out

- HTTP sessions: `create_public_session_fr` (cookies, headers) is reduced to a session number that a 403 increments.
- `Scraper.FetchItems`: creating a session is assumed to succeed. If it raised at backend/scraper.py:131 the exception would propagate. If it raised at line 179, a `RequestException` would be caught at line 231 and the page would sleep `1.5·attempt` and keep its old session, without the jitter pause.
- `Scraper.RetryPage`: the same session-creation failure after a 403 is not modelled.
- Time: `time.time()` is a parameter, and the `timestamp` fields of the health and stats answers are not modelled. Sleep durations are trace events: backoffs in tenths of a second, and random pauses as bare events.
- I/O: saving JSON (`save_json_path`), CSV files, logging and `main()` are not modelled.
- Oracles: the internals of PIL, CLIP and the Chroma client are functions passed in, and the nearest-neighbour answer is not tied to the stored map.
- `IndexSpec.Insert`: `add` of an id that is already stored is modelled as keeping the existing entry.
- `IndexSpec.InsertKeepsFirst`: Chroma's `add` rejects a call whose ids repeat, and the `except Exception` at backend/embeddings.py:169-171 then skips the whole batch. The model leaves this to the `adds` oracle, which may let such a call succeed; it then stores the first occurrence and counts every id. Repeated ids can reach `add` because `drop_duplicates` keeps both the int `1` and the string `"1"`, and `str()` maps both to `"1"`.
- `IndexSpec.AfterBatch`: the `adds` oracle sees only the ids. So whether `add` succeeds cannot depend on the embeddings or the metadata passed with them, for example a metadata value Chroma refuses.
- `Embeddings.Hits`: `round(similarity, 3)` is not modelled, and similarities are exact reals.
- Pydantic validation of the request and response models is not modelled, and neither are the detail strings of HTTP errors, logging or the CORS middleware.
- IDs: IDs must be strings, ints or bools (`IdsReadable`). `str()` of a float ID is not modelled.
- `Frames.Dedup`: ids are compared as values of different kinds, so `True` and `1` are distinct ids. pandas treats them as equal and would drop the later row.
- A missing `ID` or `PHOTO_URL` column is read as NA rather than raising `KeyError`.
- `ItemFields.MinimalItem` requires a well-shaped listing: a JSON object whose `user`, `photo`, `total_item_price` and `item_box` are objects or falsy. On other shapes the code raises, and that case is not modelled.
- Scraper bodies are either non-JSON or carry an `items` list; other JSON shapes are not modelled.
- `ItemFields.MinimalItem`: each record has exactly the twelve columns by construction, because the record is a datatype with twelve fields rather than a string-keyed dict.
- `Api.ToResult`: the `"Unknown"`, `"EUR"` and `""` defaults in `search_items` are unreachable, since every result dict carries all keys. Fields are passed through.
- Not part of this model: backend/config.py, backend/main.py, backend/refresh_database.py and the browser extension.

## Findings

| source | as written | input that shows it | evidently intended | confidence | as-written member | corrected member |
|---|---|---|---|---|---|---|
| backend/scraper.py:224-230 | A short page sets `page = self.max_pages`, which only rebinds the `for` variable; the loop goes on to the next page and only the polite pause is skipped | max_pages = 2, per_page = 10, max_retries = 1, every reply 200 with no items: 2 requests | A short page ends the harvest | high, not executed | `HarvestLaws.ShortPageStillAdvances`, `HarvestLaws.ShortPageCounterexample` | `HarvestLaws.IntendedStopsAfterShortPage` |
| backend/app.py:164-178, 203-205 | `HTTPException(503)` and `HTTPException(400)` raised inside the `try` are caught by `except Exception` and re-raised as 500 | no embedder, query "dress" gives 500; ready embedder, query " " gives 500 | 503 before initialisation, 400 for a blank query | high, not executed | `Api.SearchItems`, `Api.SearchMasksClientErrors` | `Api.IntendedSearchItems` |
| backend/app.py:143-154 | The 503 for an uninitialised collection is raised inside the `try` and comes out as 500 | no embedder: 500 | 503 when the collection is not initialised | high, not executed | `Api.GetStats`, `Api.StatsNever503` | `Api.IntendedGetStats` |
