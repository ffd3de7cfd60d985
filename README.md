# Memeforyou: a verified model of the meme pipeline and its backend

Memeforyou collects meme images and prepares them for search. A Python side scrapes
Pinterest boards and the Google Custom Search image API. It records each image in a
local SQLite preparation database. It moves each record through the statuses
PENDING, CAPTIONED and READY. It embeds the captions with the Gemini embedding
service and exports the READY records. An operator console lists, pages and counts
the records. A NestJS backend serves the images: lookup by id, download name,
like/unlike counters, the ten most liked images, and a search that asks an AI server
to rank image ids for a query.

This project models that logic in Dafny and proves what it promises. There is one
module per source file, plus small helper modules:

| module | file | models |
|---|---|---|
| `PrepDb` | prep_db.dfy | apps/ai/preps/dblite.py: the `Image` and `ImageTag` tables as the class `Store`, its updates, queries and export |
| `PrepPipe` | prep_pipe.dfy | apps/ai/preppipe.py: `parse_id_selection`, the viewer's paging and navigation, the status total |
| `Encoder` | encoder.dfy | apps/ai/utils/encoder_gemini.py: batching, task-type check and retries of `generate_embedding_gemini` |
| `Embedder` | embedder.dfy | apps/ai/preps/embedder.py: `embed_rows` |
| `MetaLookup` | meta_lookup.dfy | apps/ai/utils/dbhandler.py: `get_meta` |
| `BoardScrape` | board_scrape.dfy | apps/ai/downloader/neo_pinterest.py: `acquire_urls` and the id cursor of `run_pinterest_scrape` |
| `ImageHash` | image_hash.dfy | apps/ai/downloader/pinterest.py: `average_hash` |
| `PinSearch` | pin_search.dfy | apps/ai/downloader/pinterest.py: the query and paging of `search_pinterest_images`, the dedup loop of `main` |
| `AiClient` | ai_client.dfy | apps/be/src/ai-client/ai-client.service.ts: `isValidRes` and `similarSearch` |
| `ImageService` | image_service.dfy | apps/be/src/image/image.service.ts: the class `ImageStore` and its five calls |
| `SearchService` | search_service.dfy | apps/be/src/search/search/search.service.ts: `search` |
| `Wrappers`, `Strings`, `Sorting`, `SortedSeqs`, `Arith` | wrappers.dfy, strings.dfy, sorting.dfy, sorted_seqs.dfy, arith.dfy | Option/Result, decimal rendering, split, strip, lower-case, a stable insertion sort, sorted merge, small arithmetic facts |

External services are oracles passed as function parameters:

- the embedding service: `call(chunk, chunkIndex, attempt)`;
- the browser: `browse(board)` and `resolve(pin)`;
- downloads: `download(url, savePath)` in `BoardScrape`, `download(url)` in `PinSearch`;
- the Custom Search service: `fetch(request, attempt)`;
- the AI server's HTTP answer: `post(body)`;
- the AI client as the search service sees it: `ai(query)`.

Each oracle returns either its answer or the failure (None, or the thrown value).
Environment variables are `Option` parameters. The SQLite and Prisma tables are
sequences of rows in rowid order.

Methods that loop in the source are methods with loops here. Each is proved equal to a
specification function: for example `ParseIdSelection` ensures `r == Selection(selection)`,
and `GenerateEmbedding` ensures `r == Embeddings(...)`. The promised properties are
then proved as lemmas about those functions.

## Model

| member | source | states |
|---|---|---|
| PrepDb.Store.constructor | apps/ai/preps/init_sqlite.py:8-28 | A new database has empty Image and ImageTag tables and satisfies the table invariant (increasing ids below the AUTOINCREMENT counters). |
| PrepDb.Store.AddMeme | apps/ai/preps/dblite.py:18-30 | Appends exactly one row: the given url, width, height and source, like count 0, no caption or cloud url, status PENDING. Its id is fresh (no old row has it) and is returned. ImageTag is unchanged. |
| PrepDb.WithStatus | apps/ai/preps/dblite.py:33-38 | A row is selected iff it is in the table and its status equals the argument, so a NULL status never matches. |
| PrepDb.WithStatusIncreasing | apps/ai/preps/dblite.py:33-38 | The selection keeps the table's increasing id order. |
| PrepDb.Store.GetMemes | apps/ai/preps/dblite.py:33-38 | `get_memes` returns exactly the stored rows whose status equals the argument. |
| PrepDb.SetCaption | apps/ai/preps/dblite.py:46-48 | One caption statement keeps the table's length. |
| PrepDb.ApplyCaptions | apps/ai/preps/dblite.py:45-48 | Applying the first n pairs of `zip(captions, image_ids)` keeps the table's length. |
| PrepDb.LastCaption | apps/ai/preps/dblite.py:45-48 | The caption an id ends with is absent iff the id is not among the first n paired ids; otherwise it is one of the paired captions. |
| PrepDb.ApplyCaptionsEffect | apps/ai/preps/dblite.py:41-48 | A row whose id is paired gets the caption of the last pair naming it and status CAPTIONED, with its other columns kept. An unpaired row is unchanged, including ids beyond the shorter list. |
| PrepDb.RowsForOne | apps/ai/preps/dblite.py:51-52 | One (id, tags) pair gives one ImageTag row per tag, in tag order, numbered consecutively from `first`. |
| PrepDb.TagRowsUpTo | apps/ai/preps/dblite.py:50-55 | The rows inserted for the first n pairs are numbered consecutively from `first`. |
| PrepDb.TagRowsEffect | apps/ai/preps/dblite.py:50-55 | The new ImageTag rows give each id exactly the tags of its pairs in `zip(image_ids, tags_list)`, in pair order. |
| PrepDb.BuildTagRows | apps/ai/preps/dblite.py:50-52 | The nested loop building `all_tags_data` produces exactly the rows `TagRowsUpTo` specifies. |
| PrepDb.Store.UpdateCaptioned | apps/ai/preps/dblite.py:41-56 | The Image table becomes `ApplyCaptions` of the old one over min(#ids, #captions) pairs. ImageTag becomes the old rows followed by the rows of min(#ids, #tags_list) pairs. The image counter is unchanged and the ImageTag counter advances by the rows added. The invariant is kept. |
| PrepDb.MarkStatus | apps/ai/preps/dblite.py:63-64 | Setting a status for a list of ids keeps the table's length. |
| PrepDb.MarkStatusEffect | apps/ai/preps/dblite.py:59-66 | Exactly the rows with a listed id get the new status, whatever their old status, with every other column kept. Other rows are unchanged. A list naming no row leaves the table as it was. Ids and their order are kept. |
| PrepDb.MarkStatusIdempotent | apps/ai/preps/dblite.py:174-182 | Applying the same status to the same ids twice gives the same table as once. |
| PrepDb.MarkedAreListed | apps/ai/preps/dblite.py:59-66 | After marking, a row is listed under the status iff its id was listed or it already had that status. |
| PrepDb.Store.SetStatus | apps/ai/preps/dblite.py:179-181 | The per-id statements of `executemany`, applied in list order, give `MarkStatus` of the old table. The invariant is kept. |
| PrepDb.Store.UpdateReady | apps/ai/preps/dblite.py:59-66 | READY is set for exactly the listed ids; see `MarkStatusEffect`. |
| PrepDb.Store.UpdateStatusOnly | apps/ai/preps/dblite.py:174-182 | The chosen status is set for exactly the listed ids. |
| PrepDb.Store.DeleteRowsByIdAsWritten | apps/ai/preps/dblite.py:184-193 | As written, the statement names the unknown column DELETED, so it fails with "no such column" for every id list. |
| PrepDb.Store.DeleteRowsById | apps/ai/preps/dblite.py:184-193 | The intended soft delete: status 'DELETED' for exactly the listed ids. |
| PrepDb.DeleteAsWrittenLeavesRow | apps/ai/preps/dblite.py:190 | DELETED is not a column of Image, while the intended update turns a listed PENDING row into DELETED. |
| PrepDb.Coalesced | apps/ai/preps/dblite.py:123 | A row without a status is counted as PENDING; a row with one is counted under it. |
| PrepDb.CountStatus | apps/ai/preps/dblite.py:122-128 | The number of rows counted under a key is at most the number of rows; StatusCountsValues ties it to the dictionary's values. |
| PrepDb.Total | apps/ai/preppipe.py:350 | The sum of the counts is at least each single count; StatusCountsTotal shows it equals the number of rows. |
| PrepDb.Bump | apps/ai/preps/dblite.py:127-128 | Counting one more row under a key keeps the existing keys in order and raises only that key's value by one. A new key is added after the others with value 1. |
| PrepDb.StatusCounts | apps/ai/preps/dblite.py:117-128 | The dictionary starts from PENDING, CAPTIONED and READY, in that order, and keeps them as its first three keys whatever the rows. |
| PrepDb.BumpKeys | apps/ai/preps/dblite.py:127-128 | A bump keeps the keys distinct, keeps every existing key and includes the bumped key. |
| PrepDb.StatusCountsKeys | apps/ai/preps/dblite.py:117-128 | The counts start with PENDING, CAPTIONED, READY. Keys are distinct and every row's coalesced status is a key. |
| PrepDb.StatusCountsValues | apps/ai/preps/dblite.py:122-128 | Each key's value is the number of rows whose `COALESCE(status, 'PENDING')` is that key. A key beyond the fixed three has a positive count. |
| PrepDb.StatusCountsTotal | apps/ai/preps/dblite.py:115-130 | The values sum to the number of rows. |
| PrepDb.NotCountedWithoutKey | apps/ai/preps/dblite.py:122-128 | A status that is not a key is the status of no row. |
| PrepDb.CountedKeyOccurs | apps/ai/preps/dblite.py:122-128 | A key with a positive count is the coalesced status of some row. |
| PrepDb.StatusCountsShape | apps/ai/preps/dblite.py:115-130 | All of the above together: the fixed keys first, distinct keys, values equal to row counts, extra keys only for statuses that occur, total equal to the row count. |
| PrepDb.TotalOfBump | apps/ai/preps/dblite.py:127-128 | With distinct keys, one bump raises the total by exactly one. |
| PrepDb.Store.GetStatusCounts | apps/ai/preps/dblite.py:115-130 | The loop over the rows yields counts with the structure of `StatusCountsShape` for the stored table. |
| PrepDb.AllImgUrls | apps/ai/preps/dblite.py:140-146 | A url is listed iff some row of any status has it as a non-NULL, non-empty `original_url`. No listed url is empty, and there are at most as many as rows. |
| PrepDb.AllImgUrlsAppend | apps/ai/preps/dblite.py:142-144 | The listing keeps row order: the urls of rows a + b are those of a followed by those of b. |
| PrepDb.AllImgUrlsOne | apps/ai/preps/dblite.py:144 | One row contributes its url iff the url is non-NULL and non-empty. |
| PrepDb.AllImgUrlsEveryRow | apps/ai/preps/dblite.py:140-146 | When every row has a url, the k-th url listed is row k's, so equal urls of different rows are all kept. |
| PrepDb.Store.GetAllImgUrls | apps/ai/preps/dblite.py:132-146 | The query returns `AllImgUrls` of the stored table: every truthy `original_url` in row order, duplicates kept, at most one per row. |
| PrepDb.Store.GetImageCount | apps/ai/preps/dblite.py:150-155 | The row count equals the total of the status counts. |
| PrepDb.Page | apps/ai/preps/dblite.py:161-164 | LIMIT/OFFSET: the page has min(limit, rows left after offset) rows, and its k-th row is row offset + k. |
| PrepDb.RowOnItsPage | apps/ai/preps/dblite.py:157-165 | With a fixed page size, every row appears on the page starting at (j / size) * size, at position j % size. |
| PrepDb.Store.GetPaginatedImages | apps/ai/preps/dblite.py:157-165 | The result is `Page` of the table for the limit and offset: at most `limit` rows, in increasing id order, being the table's rows from position `offset` on. |
| PrepDb.TagsOf | apps/ai/preps/dblite.py:171-172 | The tags of an id are no more than the relation rows. |
| PrepDb.TagsOfMembers | apps/ai/preps/dblite.py:167-172 | A tag is listed for an id iff some ImageTag row pairs that id with it. |
| PrepDb.TagsOfAppend | apps/ai/preps/dblite.py:171-172 | The tags of an image over two runs of ImageTag rows are the first run's followed by the second's, in row order. |
| PrepDb.TagsOfOne | apps/ai/preps/dblite.py:50-52 | The rows written for one image give back exactly its tags, in order, and nothing for any other image. |
| PrepDb.Store.GetTagsForImage | apps/ai/preps/dblite.py:167-172 | The result is `TagsOf` the stored ImageTag table for the id: a tag is listed iff some row pairs the id with it. |
| PrepDb.CloudUrl | apps/ai/preps/dblite.py:96 | The makeshift cloud url is the fixed bucket prefix, then the id, then ".jpg". |
| PrepDb.CloudUrlInjective | apps/ai/preps/dblite.py:96 | Distinct ids get distinct cloud urls. |
| PrepDb.ExportEntries | apps/ai/preps/dblite.py:89-108 | The `images_data` loop gives one entry per READY row, in row order. |
| PrepDb.ExportRow | apps/ai/preps/dblite.py:90-108 | One entry carries the row's columns, its cloud url and the tags of its ImageTag rows. |
| PrepDb.ExportEntry | apps/ai/preps/dblite.py:90-108 | An entry carries its row's id and a url strictly longer than the cloud bucket prefix that starts with it. Its tags are `TagsOf` the ImageTag rows for the row's id, so a tag is listed iff some ImageTag row pairs the id with it. |
| PrepDb.ExportScope | apps/ai/preps/dblite.py:84-108 | A row is exported iff it is READY, in increasing id order, and no two exported entries share a cloud url. |
| PrepDb.Store.ExportJson | apps/ai/preps/dblite.py:69-112 | Fails with "no such table: Tag" iff there is no Tag table. Otherwise: the tags are the Tag table sorted by tag_id (a permutation); the images file is absent iff no row is READY; when present its k-th entry is the k-th READY row with its tags and cloud url. |
| PrepPipe.RangeIds | apps/ai/preppipe.py:381-390 | An accepted range contributes a strictly increasing list. |
| PrepPipe.PartIds | apps/ai/preppipe.py:375-397 | An accepted stripped part contributes a strictly increasing list. |
| PrepPipe.PartsIds | apps/ai/preppipe.py:374-375 | One contribution per comma-separated part, each taken after stripping. |
| PrepPipe.Collect | apps/ai/preppipe.py:371-399 | An accepted selection is strictly increasing, so it is sorted and has no duplicates. |
| PrepPipe.Selection | apps/ai/preppipe.py:361-399 | The outcome of `parse_id_selection` for a whole string: an accepted selection is strictly increasing, so sorted and without duplicates. |
| PrepPipe.ParseIdSelection | apps/ai/preppipe.py:361-399 | The loop over the parts returns `Selection(selection)`, and an accepted result is strictly increasing. |
| PrepPipe.ParsePart | apps/ai/preppipe.py:379-397 | The branches for one non-empty stripped part compute `PartIds(part)`. |
| PrepPipe.CollectStep | apps/ai/preppipe.py:374-397 | One more part: an empty part changes nothing, a rejected part decides the error, an accepted one is merged in. |
| PrepPipe.CollectFailsFrom | apps/ai/preppipe.py:388-397 | Once a part raises, later parts do not change the outcome. |
| PrepPipe.CollectAccepts | apps/ai/preppipe.py:374-399 | A selection is accepted iff every part is. |
| PrepPipe.CollectMembers | apps/ai/preppipe.py:371-399 | An accepted selection holds exactly the ids that some part contributes. |
| PrepPipe.CollectFirstError | apps/ai/preppipe.py:374-397 | A rejected selection reports the error of its first rejected part, and every earlier part was accepted. |
| PrepPipe.PartOrderIrrelevant | apps/ai/preppipe.py:371-399 | Two part lists that are permutations of each other and are both accepted give the same result. |
| PrepPipe.CollectedElsewhere | apps/ai/preppipe.py:371-399 | An id selected by one list of parts is selected by any permutation of it. |
| PrepPipe.RangePart | apps/ai/preppipe.py:380-388 | "a-b" of decimal numbers contributes every integer from a to b when a <= b, and raises the reversed-range error otherwise. |
| PrepPipe.MalformedRangePart | apps/ai/preppipe.py:381-390 | A part whose left side is empty (such as "-5"), or whose right side holds another dash (such as "1-2-3"), raises the range-format error. |
| PrepPipe.NotBothNumbers | apps/ai/preppipe.py:382-383 | Such sides are never both digit strings once stripped. |
| PrepPipe.BadIdPart | apps/ai/preppipe.py:393-397 | A part without a dash that holds a non-digit raises the invalid-id error. |
| PrepPipe.BlankSelection | apps/ai/preppipe.py:374-377 | A selection of whitespace only, "" included, selects nothing. |
| PrepPipe.TotalPages | apps/ai/preppipe.py:111 | The ceiling division covers every row (total <= pages * size) and leaves no empty last page. It is 0 iff there are no rows. |
| PrepPipe.PageOffset | apps/ai/preppipe.py:112 | A page from 1 on starts at a non-negative row, page 1 at row 0, and every start is a multiple of the page size. |
| PrepPipe.PageInRangeShowsRows | apps/ai/preppipe.py:111-115 | For a page in 1..total_pages, offset = (page - 1) * size is a row that exists. |
| PrepPipe.Navigate | apps/ai/preppipe.py:148-162 | Navigation keeps 1 <= page <= total_pages. A goto in range goes to that page; a goto out of range or not a number leaves the page unchanged. |
| PrepPipe.NextThenPrevious | apps/ai/preppipe.py:150-155 | Next then previous returns to the page, unless it was the last. |
| PrepPipe.ManageDbViewer | apps/ai/preppipe.py:100-165 | Driven by the operator's answers: no screen iff the database is empty; the first screen is page 1; every screen shows the rows of its page (at least one) with the current page count; each next screen is the page the answer navigates to; the viewer stops only after a quit or when the answers run out, so the answers after a quit are not read. |
| PrepPipe.WorkerDbstat | apps/ai/preppipe.py:345-350 | The total shown is the number of rows in the database. |
| Encoder.Chunk | apps/ai/utils/encoder_gemini.py:49 | `texts[i : i + batch_size]` has at most batch_size texts and is the slice starting at i. It is non-empty when i is inside, and shorter only at the end. |
| Encoder.GenerateEmbedding | apps/ai/utils/encoder_gemini.py:14-96 | The nested loops return `Embeddings(...)`: [] for no texts, the ValueError for a bad task type, otherwise the vectors of the batches up to the first one whose attempts all fail. |
| Encoder.NextBatch | apps/ai/utils/encoder_gemini.py:48-55 | The batch at i, with index i // batch_size, is sent with its retries. |
| Encoder.TryBatch | apps/ai/utils/encoder_gemini.py:52-88 | The retry loop yields the answer of the first successful attempt among 0, 1 and 2, or nothing. |
| Encoder.BatchResult | apps/ai/utils/encoder_gemini.py:52-88 | A batch's vectors come from one of the attempts left (at most three in all); the first attempt that succeeds is the one used. |
| Encoder.EmptyTextsFirst | apps/ai/utils/encoder_gemini.py:34-36 | No texts give [] whatever the task type, even an invalid one. |
| Encoder.TaskTypeChecked | apps/ai/utils/encoder_gemini.py:38-42 | Non-empty texts are rejected iff the task type is neither RETRIEVAL_QUERY nor RETRIEVAL_DOCUMENT. The lower-case default is rejected. |
| Encoder.Chunks | apps/ai/utils/encoder_gemini.py:47-49 | There are no batches once the position is past the texts; otherwise the first batch is the slice of batch_size texts at that position. |
| Encoder.ChunksCover | apps/ai/utils/encoder_gemini.py:47-93 | The batches, concatenated, are exactly the texts; by EmbedFromBatches these are the batches the embedding loop sends. |
| Encoder.ChunksShape | apps/ai/utils/encoder_gemini.py:47-49 | No batch is empty, and every batch but the last has exactly batch_size texts. |
| Encoder.BatchAttempts | apps/ai/utils/encoder_gemini.py:45-88 | A batch fails iff attempts 0, 1 and 2 all fail. Otherwise it yields the answer of its first successful attempt. |
| Encoder.AbortKeepsEarlier | apps/ai/utils/encoder_gemini.py:86-88 | A batch that fails every attempt ends the run: nothing more is gathered. |
| Encoder.SuccessContinues | apps/ai/utils/encoder_gemini.py:70-93 | After a successful batch, its vectors are appended and the run goes on with the next batch. |
| Encoder.LaterBatchesUntried | apps/ai/utils/encoder_gemini.py:86-91 | When batch k fails, the service's answers for later batches do not affect the result. |
| Encoder.BatchIndex | apps/ai/utils/encoder_gemini.py:47-50 | Batch j starts at j * batch_size, and its index is j. |
| Encoder.EmbedFrom | apps/ai/utils/encoder_gemini.py:47-93 | From position i on: nothing once i is past the texts; otherwise a successful batch at i has its vectors first in the result. |
| Encoder.EmbedBatches | apps/ai/utils/encoder_gemini.py:47-93 | Over a list of batches: nothing for no batch; when the first batch succeeds its vectors come first. |
| Encoder.EmbedFromBatches | apps/ai/utils/encoder_gemini.py:47-93 | The loop from batch j on returns exactly what embedding the batches of Chunks from j on returns, so ChunksCover and ChunksShape describe the batches it sends. |
| Encoder.Embeddings | apps/ai/utils/encoder_gemini.py:34-96 | No texts give [] whatever the task type. The only error is the ValueError for a bad task type, and it needs non-empty texts. |
| Encoder.BatchAgrees | apps/ai/utils/encoder_gemini.py:55-88 | Two services that agree on a batch's attempts give it the same outcome. |
| Encoder.BatchOnePerText | apps/ai/utils/encoder_gemini.py:70-77 | With a service answering one vector per text, a batch yields one vector per text. |
| Encoder.WholeBatchesPrefix | apps/ai/utils/encoder_gemini.py:70-93 | With one vector per text, the result has at most as many vectors as texts. A short result stops at a batch boundary, so it covers a prefix of whole batches. |
| Embedder.Zip | apps/ai/preps/embedder.py:40 | `zip` has min(#ids, #vectors) entries, the k-th pairing the k-th id with the k-th vector. |
| Embedder.Captions | apps/ai/preps/embedder.py:33 | The captions in row order. |
| Embedder.ImageIds | apps/ai/preps/embedder.py:34 | The ids in the same row order. |
| Embedder.CaptionVectors | apps/ai/preps/embedder.py:33-37 | With the RETRIEVAL_DOCUMENT task type the encoder never fails on the captions, and the vectors are those of the caption batches in order. |
| Embedder.EmbedRows | apps/ai/preps/embedder.py:18-43 | At most one entry per CAPTIONED row. The k-th entry carries the id of the k-th CAPTIONED row. |
| Embedder.NothingCaptioned | apps/ai/preps/embedder.py:24-28 | Without CAPTIONED rows the result is [] whatever the embedding service would answer. |
| Embedder.EntriesPairRows | apps/ai/preps/embedder.py:33-40 | The encoder is called with RETRIEVAL_DOCUMENT and accepts it. The result has min(#rows, #vectors) entries, the k-th pairing row k's id with vector k. |
| Embedder.EntriesCoverWholeBatches | apps/ai/preps/embedder.py:37-40 | With one vector per caption, either every CAPTIONED row gets an entry or the entries are a whole number of batches of 100. |
| MetaLookup.Hydrate | apps/ai/utils/dbhandler.py:16-26 | A success has at most one item per input id. A failure names an asked id whose row has a NULL caption, which `ImageTrivial` (apps/ai/utils/schema.py:18-20) rejects. |
| MetaLookup.GetMeta | apps/ai/utils/dbhandler.py:10-28 | The loop, which stops at the first found row with a NULL caption, returns `Hydrate(records, inputs)`. |
| MetaLookup.HydrateAppend | apps/ai/utils/dbhandler.py:16-26 | Output order follows input order: the lookup of a + b is the lookup of a followed by that of b, and an error in a wins over one in b. |
| MetaLookup.HydrateFails | apps/ai/utils/dbhandler.py:24-25 | The lookup fails iff some asked id has a row with a NULL caption, and the error names the first such id in input order. |
| MetaLookup.HydrateItems | apps/ai/utils/dbhandler.py:24-25 | On success every item is a stored record asked for, with the stored (non-NULL) caption. |
| MetaLookup.HydrateLength | apps/ai/utils/dbhandler.py:18-26 | On success, missing ids are dropped without error: one item per id with a record. The output is as long as the input iff every id has a record. |
| MetaLookup.Found | apps/ai/utils/dbhandler.py:16-26 | The number of ids with a record is at most the number of ids, and 0 when none has one. |
| MetaLookup.FoundBound | apps/ai/utils/dbhandler.py:18-26 | The number of ids found is at most the number asked. |
| MetaLookup.HydrateMultiplicity | apps/ai/utils/dbhandler.py:16-26 | On success there is no dedup: a found id appears as often as it was asked for, a missing id never. |
| MetaLookup.Ids | apps/ai/utils/dbhandler.py:25 | One id per item. |
| MetaLookup.IdsAppend | apps/ai/utils/dbhandler.py:26 | Appending an item appends its id. |
| BoardScrape.Resolved | apps/ai/downloader/neo_pinterest.py:39-41 | One url entry per pin, the j-th being `pin_saver` of the j-th pin. |
| BoardScrape.AcquireUrls | apps/ai/downloader/neo_pinterest.py:24-43 | The two loops give the resolved urls of the concatenated pins of the boards. |
| BoardScrape.Pins | apps/ai/downloader/neo_pinterest.py:33-36 | With one board the pins are that board's; every pin comes from the browser's answer for some board. |
| BoardScrape.PinsAppend | apps/ai/downloader/neo_pinterest.py:33-36 | The pins of a + b are the pins of a followed by those of b. |
| BoardScrape.BoardPinsInOrder | apps/ai/downloader/neo_pinterest.py:33-36 | Board k's pins are a contiguous slice of the list, after the pins of the boards before it. |
| BoardScrape.ScrapeUrl | apps/ai/downloader/neo_pinterest.py:61-75 | One download to `{cursor}.jpg`. On success one PENDING row is added and the cursor moves on; on failure nothing changes. |
| BoardScrape.DownloadAll | apps/ai/downloader/neo_pinterest.py:61-77 | The cursor returned is start_id + the number of successes. Exactly one row per success is added, in order, and nothing else changes. |
| BoardScrape.RunPinterestScrape | apps/ai/downloader/neo_pinterest.py:45-77 | The same, over the urls of the boards' pins. |
| BoardScrape.ProgressDone | apps/ai/downloader/neo_pinterest.py:61-77 | When every url is processed, the successes gathered are all of them. |
| BoardScrape.ScrapeProgress | apps/ai/downloader/neo_pinterest.py:61-75 | The loop's account of successes survives one more url. |
| BoardScrape.RowsProgress | apps/ai/downloader/neo_pinterest.py:73-74 | The rows added so far survive one more url. |
| BoardScrape.SavedFrom | apps/ai/downloader/neo_pinterest.py:61-75 | At most one saved image per url, and each is a successful download. |
| BoardScrape.NewRow | apps/ai/downloader/neo_pinterest.py:74 | A new row has the given id, the download's urls, no like, caption or cloud url, and status PENDING. |
| BoardScrape.NewRows | apps/ai/downloader/neo_pinterest.py:61-75 | One row per saved image, with consecutive ids from the first, status PENDING and the image's original url. |
| BoardScrape.JoinPath | apps/ai/downloader/neo_pinterest.py:67 | The joined path starts with the base directory and ends with the file name. |
| BoardScrape.PathText | apps/ai/downloader/neo_pinterest.py:67 | A save path starts with the base directory and ends in ".jpg". |
| BoardScrape.SavedFromSplit | apps/ai/downloader/neo_pinterest.py:61-75 | The successes from url k on are those of url k, then the rest from the cursor it leaves. |
| BoardScrape.NewRowsConcat | apps/ai/downloader/neo_pinterest.py:74 | The rows of two runs of successes are numbered on from each other. |
| BoardScrape.SavedAreSuccesses | apps/ai/downloader/neo_pinterest.py:70-75 | Every saved image was a successful download of one of the urls, and there are at most as many as urls. |
| BoardScrape.SavedPathsConsecutive | apps/ai/downloader/neo_pinterest.py:67-75 | The j-th success was saved under number cursor + j. A failed download's number is reused by the next url. |
| BoardScrape.FilesMatchRows | apps/ai/downloader/neo_pinterest.py:67-75 | Started at the next row id, the j-th saved file is named after the id of the row recorded for it, and distinct rows have distinct files. |
| BoardScrape.PathTextInjective | apps/ai/downloader/neo_pinterest.py:67 | Different numbers give different paths under one base. |
| ImageHash.Sum | apps/ai/downloader/pinterest.py:25 | The sum of grey levels (0 to 255) lies between 0 and 255 times the number of pixels. |
| ImageHash.Bits | apps/ai/downloader/pinterest.py:26 | One bit per pixel. |
| ImageHash.BitsAboveMean | apps/ai/downloader/pinterest.py:25-26 | Bit k is '1' iff pixel k is strictly above the mean `sum / len` (over the reals), and '0' otherwise. |
| ImageHash.AboveMean | apps/ai/downloader/pinterest.py:25-26 | Over the integers, p > total / n iff p * n > total. |
| ImageHash.HexDigits | apps/ai/downloader/pinterest.py:27 | The hexadecimal rendering has at least one digit. |
| ImageHash.Hex | apps/ai/downloader/pinterest.py:27 | The zero-padded hex text has at least the requested width and at least one digit. |
| ImageHash.Zeros | apps/ai/downloader/pinterest.py:27 | The padding is n zeros. |
| ImageHash.HexDigitsValue | apps/ai/downloader/pinterest.py:27 | The rendering is lowercase hexadecimal and reads back as the number rendered. |
| ImageHash.ZerosValue | apps/ai/downloader/pinterest.py:27 | Zero padding does not change the value. |
| ImageHash.HashValue | apps/ai/downloader/pinterest.py:26-27 | The hash is lowercase hexadecimal and reads back as the bit string read as binary. |
| ImageHash.BinValue | apps/ai/downloader/pinterest.py:27 | A bit string is worth 0 exactly when it has no '1'. |
| ImageHash.BinValueBound | apps/ai/downloader/pinterest.py:27 | n bits are worth less than 2^n. |
| ImageHash.HexDigitsLength | apps/ai/downloader/pinterest.py:27 | A number below 16^m takes at most m hexadecimal digits. |
| ImageHash.HashLength | apps/ai/downloader/pinterest.py:21-27 | For an even hash size on hash_size^2 pixels, the hash has exactly hash_size^2 / 4 digits (16 for size 8). |
| ImageHash.AverageHash | apps/ai/downloader/pinterest.py:21-27 | The hash is never empty and has at least hash_size^2 // 4 digits: the format pads on the left. |
| ImageHash.ConstantImage | apps/ai/downloader/pinterest.py:25-27 | A constant image has no pixel above the mean: every bit is '0' and the hash is all zeros. |
| ImageHash.ConstantSum | apps/ai/downloader/pinterest.py:25 | The sum of n equal pixels is n times the value. |
| ImageHash.AllZerosValue | apps/ai/downloader/pinterest.py:27 | An all-zero bit string is worth 0. |
| ImageHash.BinValueInjective | apps/ai/downloader/pinterest.py:27 | Bit strings of the same length with the same value are equal. |
| ImageHash.SameHashSameBits | apps/ai/downloader/pinterest.py:21-27 | Two images of the same size have the same hash iff the same pixels lie above their means. |
| PinSearch.Quote | apps/ai/downloader/pinterest.py:64 | A keyword in double quotes, unchanged inside. |
| PinSearch.QuoteAll | apps/ai/downloader/pinterest.py:64 | Every keyword quoted, in order. |
| PinSearch.SearchQuery | apps/ai/downloader/pinterest.py:64 | The query starts with `site:pinterest.com (` and ends with `)`. |
| PinSearch.JoinOr | apps/ai/downloader/pinterest.py:64 | No terms give the empty text; otherwise the text starts with the first term and ends with the last. |
| PinSearch.JoinOrLength | apps/ai/downloader/pinterest.py:64 | The joined alternatives hold every term and one " OR " between each two. |
| PinSearch.AlternativesAppend | apps/ai/downloader/pinterest.py:64 | A further keyword is appended after " OR ", quoted. |
| PinSearch.SearchQuerySingle | apps/ai/downloader/pinterest.py:64 | One keyword gives `site:pinterest.com ("kw")`. |
| PinSearch.PageSize | apps/ai/downloader/pinterest.py:76 | `num` is min(10, total_results - collected): between 1 and 10, and never more than is still wanted. |
| PinSearch.PageRequest | apps/ai/downloader/pinterest.py:71-79 | A page request starts after the results collected so far, asks for 1 to 10 results but no more than are still wanted, and carries the key, engine id, query and image search type. |
| PinSearch.FirstSuccess | apps/ai/downloader/pinterest.py:82-93 | A page comes from one of the three attempts; the first attempt that succeeds is the one used. |
| PinSearch.Hits | apps/ai/downloader/pinterest.py:100-104 | One result per item, in item order: its link and its image context link. |
| PinSearch.FetchPage | apps/ai/downloader/pinterest.py:82-93 | The three attempts give the answer of the first attempt that does not raise, or nothing. |
| PinSearch.AppendHits | apps/ai/downloader/pinterest.py:100-104 | The loop appends the page's results after those collected. |
| PinSearch.SearchFrom | apps/ai/downloader/pinterest.py:69-110 | Paging never drops collected results, and a search that already has total_results stops at once. |
| PinSearch.Search | apps/ai/downloader/pinterest.py:53-112 | EnvironmentError iff the API key or engine id is unset or empty. A non-positive total_results collects nothing. |
| PinSearch.SearchPinterestImages | apps/ai/downloader/pinterest.py:53-112 | EnvironmentError iff the API key or engine id is unset or empty. Otherwise the results of `SearchFrom`: each request starts at position collected + 1, and paging stops when enough are collected, on three failed attempts, on an empty page, or when no next page is named. |
| PinSearch.FirstSuccessAttempts | apps/ai/downloader/pinterest.py:82-93 | A page fails iff all three attempts raise. Otherwise its answer is that of the first attempt that does not. |
| PinSearch.SearchExtends | apps/ai/downloader/pinterest.py:61-104 | Results are only appended: the collected results stay a prefix. |
| PinSearch.SearchBounded | apps/ai/downloader/pinterest.py:70-76 | Against a service returning at most `num` items, no more than total_results are collected. |
| PinSearch.SearchFull | apps/ai/downloader/pinterest.py:70-110 | Against a service that always answers a full page with a next page, exactly total_results are collected. |
| PinSearch.Initial | apps/ai/downloader/pinterest.py:118-120 | The run starts with the files on disk, no metadata and no downloads, and meets the invariants that Step keeps. |
| PinSearch.DedupDownloads | apps/ai/downloader/pinterest.py:126-149 | The loop of `main` gives the metadata and files of `Run`, the corrected loop. |
| PinSearch.CollectSeed | apps/ai/downloader/pinterest.py:115-149 | `main` fails iff the search does. Otherwise it gives the metadata and files of the corrected loop over the search's results for the four fixed keywords, 50 results, date restriction d90. The metadata is the same as the loop as written gives (`RunAsWritten`); the files are the corrected loop's. |
| PinSearch.Step | apps/ai/downloader/pinterest.py:129-147 | One turn of the corrected loop only appends: metadata and kept files grow by at most one entry, together, and the urls and hashes seen only grow. A falsy url changes nothing. |
| PinSearch.StepAsWritten | apps/ai/downloader/pinterest.py:129-147 | The turn as written agrees with the corrected turn on everything but the files on disk, and leaves a subset of the corrected turn's files. |
| PinSearch.Run | apps/ai/downloader/pinterest.py:126-147 | The corrected loop has one kept file per metadata entry, and no more entries than results. |
| PinSearch.RunAsWritten | apps/ai/downloader/pinterest.py:126-147 | The loop as written gives the same metadata, kept files, seen urls, seen hashes and downloads as the corrected loop; only the files on disk differ. |
| PinSearch.StepDownloads | apps/ai/downloader/pinterest.py:132-136 | One turn keeps the downloaded urls distinct, non-empty and equal to the urls seen. |
| PinSearch.DownloadsOnce | apps/ai/downloader/pinterest.py:132-136 | Each url is downloaded at most once and a falsy url never. The downloaded urls are exactly those seen. |
| PinSearch.StepKept | apps/ai/downloader/pinterest.py:137-147 | One turn keeps one file per entry, distinct urls, distinct hashes, and the seen hashes equal to the kept ones. |
| PinSearch.KeptDistinct | apps/ai/downloader/pinterest.py:132-147 | After the loop: one kept file per metadata entry, no two entries with the same url or hash, and the hashes seen are exactly those kept. |
| PinSearch.StepIds | apps/ai/downloader/pinterest.py:126-147 | One turn keeps the ids increasing and tied to their results. |
| PinSearch.IdsUpTo | apps/ai/downloader/pinterest.py:126-147 | After n results the ids are positions up to n. |
| PinSearch.IdsFollowResults | apps/ai/downloader/pinterest.py:126-147 | Each entry's id is its result's position from 1, increasing, and the entry carries that result's urls. |
| PinSearch.StepKeepsFiles | apps/ai/downloader/pinterest.py:137-141 | In the corrected loop one turn keeps every kept image's file on disk. |
| PinSearch.KeptFilesStay | apps/ai/downloader/pinterest.py:137-141 | In the corrected loop every kept image's file is on disk at the end. |
| PinSearch.AsWrittenRemovesKeptFile | apps/ai/downloader/pinterest.py:136-141 | As written, two urls whose images share hash and format leave a metadata entry whose file was removed. |
| AiClient.RequestBody | apps/be/src/ai-client/ai-client.service.ts:45 | The body always carries count 10, and `text` is the query or undefined. |
| AiClient.Get | apps/be/src/ai-client/ai-client.service.ts:28-35 | Reading a field of a non-object or a missing field gives undefined; a present field gives its value. |
| AiClient.Every | apps/be/src/ai-client/ai-client.service.ts:30-34 | The check over `recommendations` throws only when some element is null or undefined. |
| AiClient.HasNumericIds | apps/be/src/ai-client/ai-client.service.ts:31-33 | Throws iff the element is null or undefined, and holds iff the element is a recommendation with numeric image_id and rank. |
| AiClient.EveryAccepts | apps/be/src/ai-client/ai-client.service.ts:30-34 | `every` accepts iff every element has a numeric `image_id` and `rank`. |
| AiClient.IsValidRes | apps/be/src/ai-client/ai-client.service.ts:26-37 | A null or undefined value is not valid. `isValidRes` throws only when `recommendations` is an array holding a null or undefined element. |
| AiClient.IsValidResShape | apps/be/src/ai-client/ai-client.service.ts:26-37 | `isValidRes` holds iff `recommendations` is an array of objects with numeric `image_id` and `rank`, and `count` is absent, undefined or a number. |
| AiClient.EmptyRecommendationsValid | apps/be/src/ai-client/ai-client.service.ts:29-35 | An empty `recommendations` array is valid, with or without a numeric count. |
| AiClient.ResultObject | apps/be/src/ai-client/ai-client.service.ts:51-54 | The result has exactly the keys count and recommendations, and reading either gives what reading it from the response body gives. |
| AiClient.Detail | apps/be/src/ai-client/ai-client.service.ts:63-65 | An Error contributes its message; anything else thrown contributes the unknown-error text. |
| AiClient.TryBody | apps/be/src/ai-client/ai-client.service.ts:41-59 | The `try` returns only after a non-null answer, and then returns an object with exactly the keys `count` and `recommendations` that `isValidRes` accepts. |
| AiClient.SimilarSearch | apps/be/src/ai-client/ai-client.service.ts:23-68 | `similarSearch` succeeds iff the `try` does, with its value. Every failure is an InternalServerError. |
| AiClient.SuccessCopies | apps/be/src/ai-client/ai-client.service.ts:42-59 | The call succeeds iff the post answers a non-null body whose copied `count` and `recommendations` have the valid shape. The value returned is that copy. |
| AiClient.FailuresAreInternal | apps/be/src/ai-client/ai-client.service.ts:55-66 | Every failure, the rejected shape included, is an InternalServerError whose message starts with the fixed prefix. |
| AiClient.FailureMessages | apps/be/src/ai-client/ai-client.service.ts:55-66 | An invalid shape fails with the prefix and the invalid-response message. A thrown non-Error fails with the prefix and the unknown-error text. |
| ImageService.TagNames | apps/be/src/image/image.service.ts:23-25 | One name per relation row, the k-th being the name of row k's tag. |
| ImageService.Relike | apps/be/src/image/image.service.ts:51-54 | Only that image's like count changes; every other row is kept. |
| ImageService.UnlikeCount | apps/be/src/image/image.service.ts:62-73 | The count stored is max(0, old - 1), never negative. |
| ImageService.ImageStore.constructor | apps/be/src/image/image.service.ts:6 | The store holds the given tables, whose keys and foreign key hold. |
| ImageService.ImageStore.GetImageById | apps/be/src/image/image.service.ts:8-31 | NotFound("Image not found") iff no row has the id. Otherwise the row found. |
| ImageService.ImageStore.LikeImage | apps/be/src/image/image.service.ts:46-56 | NotFound for an unknown id, with the table unchanged. Otherwise that image's count goes up by exactly one, every other row is kept, and the updated row is returned. |
| ImageService.ImageStore.UnlikeImage | apps/be/src/image/image.service.ts:57-75 | NotFound for an unknown id. Otherwise that image's count becomes max(0, old - 1), every other row is kept, and the updated row is returned. |
| ImageService.Find | apps/be/src/image/image.service.ts:9-10 | A found image is in the table and has the id; when the first row has the id, it is the one found. |
| ImageService.FindSpec | apps/be/src/image/image.service.ts:9-10 | `findUnique` finds nothing iff no row has the id. Otherwise it finds a row of the table with that id. |
| ImageService.RowsOf | apps/be/src/image/image.service.ts:11-17 | The joined ImageTag rows are no more than the table's, and all have the image's id. |
| ImageService.RowsOfMembers | apps/be/src/image/image.service.ts:11-17 | An image's relation rows are exactly its rows of the ImageTag table. |
| ImageService.RowsOfAppend | apps/be/src/image/image.service.ts:11-17 | The relation rows keep table order. |
| ImageService.ImageTags | apps/be/src/image/image.service.ts:20-30 | The tags are one name per relation row of the image, in relation order, each being the name of that row's tag. |
| ImageService.DownloadCases | apps/be/src/image/image.service.ts:33-44 | Unknown id: "Image not found". Falsy cloud url: "Download URL not found". Otherwise the cloud url and the name `meme_<id>.jpg`. |
| ImageService.ImageStore.DownloadImage | apps/be/src/image/image.service.ts:33-44 | Every failure is NotFound. A success is a non-empty cloud url of the image with that id, under the name `meme_<id>.jpg`. |
| ImageService.Filename | apps/be/src/image/image.service.ts:42 | The download name starts with "meme_" and ends in ".jpg". |
| ImageService.FilenameInjective | apps/be/src/image/image.service.ts:42 | Distinct images download under distinct names. |
| ImageService.RelikeKeepsIds | apps/be/src/image/image.service.ts:51-54 | Updating a count keeps the ids unique. |
| ImageService.RelikeFind | apps/be/src/image/image.service.ts:51-54 | Afterwards the image is found with the new count, and every other id finds what it found before. |
| ImageService.UnlikeUndoesLike | apps/be/src/image/image.service.ts:62-73 | Unlike never gives a negative count, and undoes a like of any non-negative count. |
| ImageService.LikeThenUnlike | apps/be/src/image/image.service.ts:46-73 | A like followed by an unlike restores the table when the count was not negative. |
| ImageService.SortedPrefixLeast | apps/be/src/image/image.service.ts:78-81 | In a sorted permutation, the first n elements come from the original, and nothing left out sorts before the n-th. |
| ImageService.PopularOrder | apps/be/src/image/image.service.ts:77-83 | The popular images are min(10, #images) many, in non-increasing like order. |
| ImageService.PopularTop | apps/be/src/image/image.service.ts:77-83 | They are taken from the table, and no image left out has more likes than the last one taken. |
| ImageService.Popular | apps/be/src/image/image.service.ts:77-83 | min(10, #images) images, taken from the table. |
| ImageService.ImageStore.GetPopularImages | apps/be/src/image/image.service.ts:77-83 | `Popular` of the stored table: at most ten of its images. |
| SearchService.NormalizeQuery | apps/be/src/search/search/search.service.ts:22-24 | A missing query normalises to the empty text; a given one never gets longer. |
| SearchService.Collapse | apps/be/src/search/search/search.service.ts:24 | Collapsing whitespace runs never lengthens the text, and empties it only when it was empty. |
| SearchService.CollapseNoRuns | apps/be/src/search/search/search.service.ts:24 | Replacing `\s+` by one space leaves only single spaces, empties only the empty string, and starts with whitespace iff the input does. |
| SearchService.CollapseLast | apps/be/src/search/search/search.service.ts:24 | A last character that is not whitespace is kept last. |
| SearchService.CollapseLower | apps/be/src/search/search/search.service.ts:24 | Collapsing adds no upper-case letter. |
| SearchService.CollapseFixed | apps/be/src/search/search/search.service.ts:24 | A string with only single spaces is its own collapse. |
| SearchService.LowerEnds | apps/be/src/search/search/search.service.ts:23 | Lower-casing a trimmed string keeps its ends free of whitespace and leaves no upper case. |
| SearchService.NormalizeShape | apps/be/src/search/search/search.service.ts:22-24 | The normalised query has no whitespace at either end, no upper case and no runs of whitespace. |
| SearchService.NormalizeIdempotent | apps/be/src/search/search/search.service.ts:22-24 | Normalising a normalised query changes nothing. |
| SearchService.CurrentPage | apps/be/src/search/search/search.service.ts:26 | The page is at least 1, and a page from 1 on is kept. |
| SearchService.PageSize | apps/be/src/search/search/search.service.ts:27 | The size is between 1 and 100, and a size in that range is kept. |
| SearchService.Offset | apps/be/src/search/search/search.service.ts:28 | The offset is a non-negative multiple of the page size, and 0 for the first page. |
| SearchService.PagingBounds | apps/be/src/search/search/search.service.ts:26-28 | page >= 1; 1 <= size <= 100; the offset is non-negative and a multiple of the size; values already in range are kept. |
| SearchService.ValidSort | apps/be/src/search/search/search.service.ts:30-31 | The sort is accuracy or like, and equals the requested one exactly when that is one of the two. |
| SearchService.SortFallback | apps/be/src/search/search/search.service.ts:30-31 | The sort is "accuracy" or "like", and is the requested one iff that is one of the two. |
| SearchService.Ordered | apps/be/src/search/search/search.service.ts:56-59 | At most one image per id. |
| SearchService.OrderedAppend | apps/be/src/search/search/search.service.ts:57-59 | Accuracy order is id order: the images of a + b are those of a followed by those of b. |
| SearchService.OrderedAllFound | apps/be/src/search/search/search.service.ts:57-59 | When every id has an image, the k-th item is the image of the k-th id. |
| SearchService.OrderedItems | apps/be/src/search/search/search.service.ts:53-59 | Every accuracy item is a table image with one of the ids; ids missing from the table are dropped. |
| SearchService.OrderedFollowsIds | apps/be/src/search/search/search.service.ts:52-59 | The same, and when every id has an image there is exactly one item per id, carrying that id, in the AI's order. |
| SearchService.Matching | apps/be/src/search/search/search.service.ts:69-70 | The images fetched for the ids are no more than the table's, and each has one of the ids. |
| SearchService.MatchingMembers | apps/be/src/search/search/search.service.ts:69-70 | The `in` filter keeps exactly the table images with one of the candidate ids. |
| SearchService.LikePage | apps/be/src/search/search/search.service.ts:69-76 | The like-sorted page has at most page-size images, no more than match the ids, and is empty once the offset is past them. |
| SearchService.LikePageOrder | apps/be/src/search/search/search.service.ts:69-76 | The like page has at most pageSize images, in non-increasing like order, each a table image with a candidate id. |
| SearchService.PageIds | apps/be/src/search/search/search.service.ts:52 | The page of ids has at most page-size entries, lies inside the id list, and entry k is the id at offset + k. |
| SearchService.PageIdsBound | apps/be/src/search/search/search.service.ts:52 | The slice has at most pageSize ids. |
| SearchService.Search | apps/be/src/search/search/search.service.ts:19-85 | An empty normalised query is BadRequest. A success needs the AI to answer, and reports as total the number of candidates (at least one), with the clamped page and size and the valid sort. |
| SearchService.SearchAsWritten | apps/be/src/search/search/search.service.ts:19-44 | As written the search always fails. Before the AI answers it agrees with the corrected search: the same BadRequest and the same AI failure. |
| SearchService.EmptyQueryRejected | apps/be/src/search/search/search.service.ts:33-38 | An empty normalised query is BadRequest("검색어를 입력해주세요."), whatever the AI would answer. |
| SearchService.SearchErrors | apps/be/src/search/search/search.service.ts:38-49 | An AI failure propagates. No candidates gives NotFound("검색 결과가 없습니다."). An offset at or past the candidates gives NotFound("더 이상 결과가 없습니다."). The search succeeds iff the AI answers and the offset is inside the candidates. |
| SearchService.SearchAnswer | apps/be/src/search/search/search.service.ts:46-84 | A success reports total = number of candidates, the clamped page and size, the valid sort, and at most `size` items. |
| SearchService.SearchItems | apps/be/src/search/search/search.service.ts:51-83 | Accuracy: the images of the candidate slice [offset, offset + size), in AI order. Like: the like-sorted page of the candidates' images. |
| SearchService.AsWrittenNeverSucceeds | apps/be/src/search/search/search.service.ts:40-44 | As written, no search succeeds: a query the AI answers ends in an internal server error. |
| SearchService.CorrectedAnswers | apps/be/src/search/search/search.service.ts:40-66 | The corrected search answers the first page of any query for which the AI ranks at least one image. |

## Left out

- I/O and services: SQLite connections, Prisma, HTTP, Selenium, the Gemini and Firestore clients, and the file system are oracles or tables. Logging, sleeps between retries, timeouts, the questionary prompts, clearing the screen and all printing are not modelled.
- `export_json` produces its two lists here; writing them as JSON files is not modelled. The `Tag` table it reads is a parameter, because the schema in apps/ai/preps/init_sqlite.py does not create it. Without it the export fails with "no such table: Tag".
- `init_db`: apps/ai/preps/init_sqlite.py defines no function of that name. It is a module-level script that creates the Image table (lines 8-20) and the ImageTag table (lines 21-28). So `from preps.init_sqlite import init_db` at apps/ai/preps/dblite.py:5 and apps/ai/preppipe.py:11 raises ImportError, and neither module can be imported as written. The model takes the script's table layout only and starts every store from that schema.
- `flush_db` (removing the database file and re-running the schema) is not modelled.
- The float normalisation of each embedding vector (apps/ai/utils/encoder_gemini.py:70-77) is not modelled. Vectors are opaque values, and each successful batch's answer is appended as returned.
- Encoder.BatchResult: a batch is all or nothing here. In the source the vectors are appended one at a time inside the `try` (apps/ai/utils/encoder_gemini.py:70-77), so an exception part-way through the batch leaves the vectors already appended in `all_embeddings`, and a retry appends them again. The model does not capture these partial appends.
- Encoder.GenerateEmbedding: requires batch_size >= 1. With 0 the source raises ZeroDivisionError at apps/ai/utils/encoder_gemini.py:50 (`i // batch_size`). The requires excludes that error path, which no caller reaches: apps/ai/preps/embedder.py:37 uses the default of 100. Encoder.Embeddings and Encoder.EmbedFrom carry the same requires.
- The guard for an uninitialised Gemini client (apps/ai/utils/encoder_gemini.py:30-32) is not modelled: the client is created when the module loads.
- The image library work in `average_hash` (grey-scale conversion, LANCZOS resizing) and in `download_image` (decoding, saving) is not modelled. `average_hash` takes the resized pixel list.
- PinSearch.DedupDownloads: a file is a (hash, extension) pair. The bytes written are not modelled, so overwriting a file with another image of the same hash and format counts as the same file.
- Writing the metadata JSON at the end of `main` (apps/ai/downloader/pinterest.py:151-157) is not modelled; the metadata list is returned instead.
- The board list of `run_pinterest_scrape` is a parameter instead of being read from boards.json.
- BoardScrape.AcquireUrls: `board_browser` and `pin_saver` (apps/ai/downloader/neo_pinterest.py:12-22) have the body `pass` and return None. As written, `pins.extend(None)` at line 36 raises TypeError for any non-empty board list. Past that, the url entries would be subscripted like dictionaries at lines 64 and 74. The model takes both functions as oracles that return a board's pin urls and a pin's url entry, so it describes the script once they are written, not the failure it has now.
- PrepPipe.ManageDbViewer: the source stops with a TypeError when a row on the page has a NULL `src_url` (`"pinterest" in None` at apps/ai/preppipe.py:132) or a NULL `status` (formatting None with `:<10` at apps/ai/preppipe.py:140). The model shows such rows like any other, because the printed line is not modelled.
- Strings: `strip`, `isdigit`, `trim`, `toLowerCase` and `\s` are modelled for ASCII whitespace, digits and letters only. Unicode whitespace, digits and case mappings are not.
- JavaScript values: numbers are reals, and only `typeof` matters. The message of the TypeError thrown when reading a field of null or undefined follows Node's wording, which the language does not fix.
- SearchService.Search: the AI client is seen through an oracle giving the recommended image ids in the order of `recommendations`, or an error message; it is not composed with AiClient.SimilarSearch. The validation pipe's conversion of `page` and `size` to numbers is not modelled: both are integers here.
- PrepDb.StatusCounts: keys other than PENDING, CAPTIONED and READY are added in the order of each key's first row. The source adds them in the order SQLite returns the GROUP BY groups (apps/ai/preps/dblite.py:122-128), which SQL does not fix. PrepDb.Bump and PrepDb.Store.GetStatusCounts share this order; the count under each key is the same either way.
- Prisma's ordering among images with equal like counts is unspecified. The model keeps table order for ties (a stable sort), and relation rows in table order.
- Concurrency: two `likeImage` calls racing on the same row, or a scrape and a console session at once, are not modelled. Each call is one atomic step.
- The async `find_unique` calls of `get_meta` are taken one after another, in input order.

## Findings

| source | as written | input that shows it | evidently intended | confidence | as-written member | corrected member |
|---|---|---|---|---|---|---|
| apps/ai/preps/dblite.py:190 | `SET status = DELETED` leaves DELETED unquoted, so SQLite reads it as a column name. There is no such column, so the statement fails and no row is soft-deleted. | `delete_rows_by_id([1])` on a table with a PENDING row 1 | `SET status = 'DELETED'`: listed rows get the status DELETED | not executed | PrepDb.Store.DeleteRowsByIdAsWritten, PrepDb.DeleteAsWrittenLeavesRow | PrepDb.Store.DeleteRowsById, PrepDb.MarkStatusEffect |
| apps/be/src/search/search/search.service.ts:40-44 | `aiRes.candidates.length` reads a field the AI client's response does not have (it has `recommendations`). `.length` of undefined throws a TypeError, so every search the AI answers ends as an internal server error. | query "cat" with the AI answering `{count: 1, recommendations: [{image_id: 1, rank: 1}]}` | the ids are read from `recommendations[].image_id` in the order of `recommendations`; they are not sorted by `rank` | not executed | SearchService.SearchAsWritten, SearchService.AsWrittenNeverSucceeds | SearchService.Search, SearchService.CorrectedAnswers |
| apps/ai/downloader/pinterest.py:136-141 | A duplicate image is saved as `{hash}.{ext}` before the hash check. When it has the same hash and format as a kept image, it overwrites that image's file, and `os.remove` then deletes it. The metadata keeps an entry whose file is gone. | two results "a" and "b" whose downloads are both `ff00.jpeg` | discard the duplicate without deleting the kept image's file | not executed | PinSearch.RunAsWritten, PinSearch.AsWrittenRemovesKeptFile | PinSearch.Run, PinSearch.KeptFilesStay |
