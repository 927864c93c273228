# explorar-node in Dafny

A verified model of the Python back end of ExplorAR (`explorar-node`). The
back end discovers transactions on the Arweave ledger, crawls them, and keeps
a search index of their metadata. The model covers four parts:

- **The frontier** (`frontier.py`, module `FrontierStore`). This is the MongoDB
  collection of `{txid, block_no, crawled_at}` records, modelled as a class
  over a sequence of records in insertion order. It covers deduplicating
  ingestion, selection of the oldest pending record and completion marking.
- **The crawl step** (`crawler.py`, module `Crawling`). It claims a record,
  looks up its tags, scans for the first `Content-Type` tag and fetches the
  body only for exactly `text/html`. The body is cut to 50,000 characters. It
  then indexes `{txid, tags, content}` and marks the record crawled, in that
  order. The tag lookup, the gateway fetch and the clock are parameters. A
  ghost event log records the fetch, index and mark steps in order.
- **The classifier** (`indexer.py`, module `Indexing`). This covers the search
  index (a map from txid to the stored `_source`), `local_index_ANS110` and
  `index_Misc`, and the per-hit write-back decision of `deep_index`.
- **The two search surfaces**. The GraphQL `Query.search` (`model/schema.py`,
  module `SchemaQuery`) and the REST `/search` handler (`main.py`, module
  `SearchEndpoint`) turn hits into result records and fill in defaults for
  missing keys.

Module `Common` holds the shared values. `Source` models a `_source` dict:
each optional key is an `Option` that says whether the key is present.
`description` and `content` can be present with the value null, so they are
nested options. This is what lets the model tell "key absent, use the default"
apart from "key present with value null, pass null through".

The model keeps these behaviours of the code as written:

- Marking an unknown txid silently changes nothing.
- Selecting the next pending transaction does not claim or lease it.
- Ingestion reports nothing back to its caller.
- A transaction whose tag lookup fails stays pending.
- Every compliant document is written back on every pass, changed or not.
- Truncation cuts the response text at 50,000 characters.

`deep_index` calls `index_NFT` (`explorar-node/indexer.py:197`), which is
defined nowhere, so as written every pass stops with a `NameError` at its first
hit. The model puts `index_Misc` in its place as the evidently intended callee. The per-hit step is modelled twice: `DeepIndexHitAsWritten` uses `index_Misc` as written, and `DeepIndexHit` uses the corrected marker derivation (see "## Findings"). The batch members `DeepIndexBatchSpec`, `DeepIndexBatch`, `DeepIndexBatchFrame` and `DeepIndexBatchWritesBack` run the corrected step. As written, a batch would stop at its first non-compliant hit without `markers`, and a compliant hit with a `License` tag would gain another `UDL` on every pass.

## Model

| member | source | states |
|---|---|---|
| `Common.FirstValue` | explorar-node/crawler.py:91-95 | None iff no tag has the name; otherwise the value of a tag with that name that has no such tag before it |
| `Common.LastValue` | explorar-node/indexer.py:126-132 | None iff no tag has the name; otherwise the value of a tag with that name that has no such tag after it (what the overwriting scan keeps) |
| `FrontierStore.IngestKeepsExisting` | explorar-node/frontier.py:99-112 | ingestion only appends: existing records, including their `crawled_at`, keep their position and content |
| `FrontierStore.IngestNewRecords` | explorar-node/frontier.py:101-109 | every inserted record is pending, its txid had no record before, and it takes txid and block_no from the first batch entry with that id |
| `FrontierStore.IngestCoversBatch` | explorar-node/frontier.py:99-109 | after ingestion a txid has a record iff it had one before or the batch carries it |
| `FrontierStore.IngestKeepsUnique` | explorar-node/frontier.py:99-101 | ingestion keeps at most one record per txid, even when the batch repeats an id, because each entry is checked against the updated collection |
| `FrontierStore.IngestPresentIsNoop` | explorar-node/frontier.py:99-112 | a batch whose ids all have records leaves the collection unchanged |
| `FrontierStore.IngestIdempotent` | explorar-node/frontier.py:99-112 | ingesting the same batch twice gives the same collection as ingesting it once |
| `FrontierStore.NextPending` | explorar-node/frontier.py:120-126 | None iff no record is uncrawled and in the requested block; otherwise a record of the collection that is uncrawled, in the block, and has the least block_no among all such records |
| `FrontierStore.FindTx` | explorar-node/frontier.py:136-137 | the position of the first record with the txid, None iff there is none |
| `FrontierStore.MarkCrawledEffect` | explorar-node/frontier.py:136-138 | marking stamps `crawled_at` on the record with that txid and changes no other record or field; an unknown txid changes nothing; ids stay unique |
| `FrontierStore.MarkedNeverSelected` | explorar-node/frontier.py:115-138 | once marked, a txid is never selected again, whatever the block filter |
| `FrontierStore.MarkCrawledTwice` | explorar-node/frontier.py:131-138 | marking twice equals marking once with the later stamp, so the record stays crawled |
| `FrontierStore.Frontier.constructor` | explorar-node/frontier.py:44-53 | a frontier opens the collection as it stands, which holds at most one record per txid |
| `FrontierStore.Frontier.IngestTxs` | explorar-node/frontier.py:95-113 | the loop leaves the collection equal to the specification of ingestion and keeps txids unique |
| `FrontierStore.Frontier.GetNextTx` | explorar-node/frontier.py:115-129 | read-only, with no claim or lease; returns None iff no pending record matches, otherwise a pending record in the requested block with the least block_no |
| `FrontierStore.Frontier.MarkTxCrawled` | explorar-node/frontier.py:131-139 | the collection becomes the marked collection and txids stay unique |
| `Indexing.Merge` | explorar-node/indexer.py:84-89 | a partial update keeps the stored txid; each key the update carries takes the update's value, and each key it lacks keeps the stored value; no key of either document is lost |
| `Indexing.SearchIndex.constructor` | explorar-node/indexer.py:34-39 | the in-memory `search-artx` index opens over the documents it already stores |
| `Indexing.SearchIndex.IndexDocument` | explorar-node/indexer.py:77-82 | the document is stored under its txid, replacing any earlier one; other ids are untouched |
| `Indexing.SearchIndex.UpdateDocument` | explorar-node/indexer.py:84-89 | fails iff the id is not stored; otherwise merges the update into the stored document |
| `Indexing.TopicValuesMembers` | explorar-node/indexer.py:125-134 | a value is among the collected topics iff some tag that is not Title, Type or Description and whose name contains `Topic:` carries it |
| `Indexing.TopicValuesAppend` | explorar-node/indexer.py:133-134 | topics of concatenated tag lists concatenate: tag order is kept and duplicates are not merged |
| `Indexing.TopicValuesNone` | explorar-node/indexer.py:125-134 | a tag list without topic tags yields no topics |
| `Indexing.WithAns110` | explorar-node/indexer.py:143-147 | `markers` becomes `["ANS-110"]` when absent; otherwise the old list is a prefix and `ANS-110` is appended only if missing |
| `Indexing.ANS110` | explorar-node/indexer.py:109-153 | KeyError iff `tags` is absent; compliant iff a Title and a Type tag exist; otherwise the document is unchanged; txid, tags and content never change and no key is removed; a compliant document gets the last Title and Type, the last Description or null, the topics, and the markers created as `["ANS-110"]` or extended by `ANS-110` only if missing |
| `Indexing.ANS110Idempotent` | explorar-node/indexer.py:139-149 | classifying a classified document gives the same result as classifying it once |
| `Indexing.LocalIndexANS110` | explorar-node/indexer.py:109-153 | the tag-scanning loop computes exactly the ANS-110 rule |
| `Indexing.MiscMarkersAppend` | explorar-node/indexer.py:164-171 | the appended markers follow tag order: those of two concatenated tag lists concatenate |
| `Indexing.MiscMarkersCounts` | explorar-node/indexer.py:164-171 | one marker per qualifying tag, no deduplication: `UDL` occurs once per `License` tag and `NFT` once per image `ContentType` tag |
| `Indexing.MiscMarkersContents` | explorar-node/indexer.py:164-171 | only `NFT` and `UDL` are appended; `NFT` iff some `ContentType` tag's value contains `image`; `UDL` iff some tag is named `License` |
| `Indexing.IndexMiscAsWritten` | explorar-node/indexer.py:155-171 | KeyError iff `tags` or `markers` is absent; no change unless `ANS-110` is in markers; otherwise only `markers` changes, becoming the old list followed by the markers the tags call for, in tag order |
| `Indexing.IndexMisc` | explorar-node/indexer.py:155-171 | the appending loop computes exactly `index_Misc` as written |
| `Indexing.IndexMiscRepeatsMarkers` | explorar-node/indexer.py:163-171 | running `index_Misc` on its own output appends `UDL` a second time |
| `Indexing.DeepIndexRepeatsMarkers` | explorar-node/indexer.py:192-200 | a compliant document with one `License` tag is written back with `["ANS-110", "UDL"]`, and on the next pass with `["ANS-110", "UDL", "UDL"]` |
| `Indexing.AddTagMarkers` | explorar-node/indexer.py:164-171 | corrected per-tag step: the list only grows, and afterwards holds exactly the old markers and the ones this tag calls for |
| `Indexing.UnionMarkers` | explorar-node/indexer.py:164-171 | the corrected derivation only appends to the marker list |
| `Indexing.UnionMarkersContents` | explorar-node/indexer.py:164-171 | the corrected markers are exactly the old markers plus those `index_Misc` would add |
| `Indexing.UnionMarkersNoDuplicates` | explorar-node/indexer.py:164-171 | the corrected derivation never introduces a duplicate |
| `Indexing.UnionMarkersSaturated` | explorar-node/indexer.py:164-171 | once every called-for marker is present, the corrected derivation changes nothing |
| `Indexing.UnionMarkersIdempotent` | explorar-node/indexer.py:164-171 | the corrected derivation applied twice equals applying it once |
| `Indexing.DeriveMarkers` | explorar-node/indexer.py:155-171 | corrected `index_Misc`: fails only without `tags`; no change unless `ANS-110` is present (an absent list counts as empty); otherwise the markers become the old ones plus those called for |
| `Indexing.DeriveMarkersIdempotent` | explorar-node/indexer.py:155-171 | the corrected derivation is idempotent on documents |
| `Indexing.DeepIndexHitAsWritten` | explorar-node/indexer.py:192-200 | with `index_Misc` as written as the callee, the step fails iff `tags` is absent or the document is not compliant and has no `markers`; it writes back iff compliant, and the written document is the classified one (last Title, Type and Description, topics, txid, tags and content kept) with markers `WithAns110(markers)` followed by every marker the tags call for |
| `Indexing.FreshUntitledHitAborts` | explorar-node/indexer.py:196-200 | a freshly crawled document with no Title tag makes the step raise KeyError on `markers` |
| `Indexing.DeepIndexHit` | explorar-node/indexer.py:192-200 | corrected step: fails iff `tags` is absent; a write-back is requested iff the document is ANS-110 compliant, and the written document keeps txid and tags, drops no key and carries `ANS-110` |
| `Indexing.DeepIndexHitWrites` | explorar-node/indexer.py:192-200 | the corrected step writes back the classified document (last Title, Type and Description, topics, txid, tags and content kept) whose markers extend `WithAns110(markers)` and hold exactly those and the markers the tags call for |
| `Indexing.DeepIndexHitIdempotent` | explorar-node/indexer.py:192-200 | re-running the step on a written-back document writes the same document |
| `Indexing.DeepIndexBatchFrame` | explorar-node/indexer.py:190-200 | a batch of the corrected step adds and removes no documents, and leaves unchanged every document that no compliant hit names |
| `Indexing.DeepIndexBatchWritesBack` | explorar-node/indexer.py:190-200 | after a batch of the corrected step that ends without error, each compliant hit's written document is merged into the stored one, when no other compliant hit names the same id |
| `Indexing.DeepIndexBatch` | explorar-node/indexer.py:190-200 | the hit loop over the corrected step leaves the index as its specification says and reports the first error |
| `Crawling.GetTxData` | explorar-node/crawler.py:39-52 | None iff the status is not 200; otherwise the response text |
| `Crawling.Truncate` | explorar-node/crawler.py:100-102 | the result is a prefix of the data of length `min(len(data), 50000)` |
| `Crawling.FindContentType` | explorar-node/crawler.py:90-95 | None iff no tag is named `Content-Type`; otherwise the value of the first such tag, the loop stopping there |
| `Crawling.BuildDocument` | explorar-node/crawler.py:96-108 | fails iff the first Content-Type is exactly `text/html` and the fetch is not 200; otherwise the document is `{txid, tags, content}`; content is non-null iff the type is `text/html`, and then it is the truncated body |
| `Crawling.Crawler.constructor` | explorar-node/crawler.py:23-37 | a crawler over the given frontier and index, with an empty event log |
| `Crawling.Crawler.Crawl` | explorar-node/crawler.py:54-111 | idle iff no pending record matches the block filter; the claimed txid is the one `get_next_tx` selects; on idle or failure neither store changes; on success the built document is stored under the txid and the record is marked; the fetch happens only for `text/html`; the events are fetch, index, mark in that order |
| `SchemaQuery.ToSearchTags` | explorar-node/model/schema.py:49-51 | one `Tag(key, value)` per tag, in order, name renamed to key |
| `SchemaQuery.Search` | explorar-node/model/schema.py:38-61 | KeyError iff some hit lacks `tags`; otherwise one result per hit in hit order, txid copied, tags renamed element-wise, title, description, type and markers copied when present, else `Title unavailable`, `Description unavailable`, `Unknown` and `[]` |
| `SearchEndpoint.SearchHandler` | explorar-node/main.py:45-56 | one record per hit in hit order, txid copied, each of title, description, type, tags and markers copied when the key is present, else `Title unavailable`, `Description unavailable`, `Type unavailable`, `[]`, `[]` |
| `SearchEndpoint.ProjectionsAgree` | explorar-node/main.py:49-56 | the REST and GraphQL surfaces agree on every field except the default for a missing type, and tags correspond element-wise |
| `SearchEndpoint.ClassifiedRecord` | explorar-node/main.py:51-55 | a compliant document shows its last Title and Type, the `ANS-110` marker, and a null description (not the default) when there is no Description tag |

## Left out

- MongoDB connection and setup (`init_db`, `test_db`, building the URL from environment variables) are I/O. The collection is an in-memory sequence.
- `populate_frontier` is GraphQL pagination over the network. Its 50-block window and the re-ingest after the loop are not modelled.
- The Elasticsearch client (`get_elastic_client`, `init_index`, `SearchClient.search`) is not modelled. Search hits are given as inputs, and the engine's ranking is not modelled.
- A partial update is modelled as key-by-key replacement. Elasticsearch also merges nested objects, but every modelled field is a string or a list, which are replaced.
- The `deep_index` scroll loop, `index_lifecycle`, `crawl_lifecycle` and their `while True` and `time.sleep` loops are unbounded drivers. Only one batch of hits is modelled.
- `datetime.datetime.now()` becomes a `Stamp` parameter. The gateway URL and HTTP request become a `fetch` parameter. The GraphQL tag query becomes a `lookupTags` parameter, whose exceptions all become `MetadataUnavailable`.
- FrontierStore.Frontier.GetNextTx: MongoDB leaves the order of records with equal `block_no` unspecified. The model picks the first in insertion order, and `NextPending`'s own ensures promise only the minimum.
- SchemaQuery.Search: strawberry rejects a null `description` for the non-null GraphQL field. The model passes the null through, as the resolver itself does.
- `Query.get` is not modelled: it calls a `SearchClient.get` that does not exist.
- Printing, logging, `json.dumps` of the REST response, and the FastAPI, strawberry and uvicorn wiring are not modelled.
- Store writes never fail in the model: `index_document`, `update_document` on a present id and `mark_tx_crawled` always succeed. In the code the Elasticsearch and MongoDB calls can raise. A failure after indexing but before marking leaves the document indexed and its record pending, and the model cannot reach that state.
- Concurrency and leasing are not modelled: the code has neither.
- The `explorar-ui` front end is not part of this model.

## Findings

| source | as written | input that shows it | evidently intended | confidence | as-written member | corrected member |
|---|---|---|---|---|---|---|
| explorar-node/indexer.py:164-171 | `index_Misc` appends `NFT` and `UDL` on every run without checking whether they are already present | a document with a Title, a Type and one `License` tag is written back with `["ANS-110", "UDL"]`, and on the next pass with `["ANS-110", "UDL", "UDL"]` | markers form a set, so a second pass adds nothing | medium, not executed | `Indexing.DeepIndexRepeatsMarkers` | `Indexing.DeepIndexHitIdempotent` |
| explorar-node/indexer.py:163 | the marker step reads `markers` unguarded, and `deep_index` runs it on every hit, compliant or not | a freshly crawled document `{txid, tags: [], content: null}` has no Title and no `markers` key, so the step raises KeyError and the whole pass stops | a document without markers is not an ANS-110 document and is skipped | high, not executed | `Indexing.FreshUntitledHitAborts` | `Indexing.DeepIndexHit` |
