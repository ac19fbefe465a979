# sift: a verified model of the docs-search build and client helpers

sift turns a directory of markdown files into a single SQLite file, `sift-index.db`,
that a browser searches on the client. This project models its core in Dafny and
proves properties of the model:

- **Chunker** (`chunker.dfy`, with Python string and regex behaviour in `pytext.dfy`).
  `chunk_file` turns one document into titled passages. It derives the url and the
  document title, splits the text before every level-2/3 heading, parses each
  section's heading, strips a leading H1, drops short bodies and packs long bodies
  paragraph by paragraph. `chunk_directory` walks listings in os.walk order and
  takes markdown files in name order.
- **Embedder constants** (`embedder.dfy`): the model name, the dimension 384, and
  the embedder's contract. The embedding model itself is a function parameter.
- **Index builder** (`indexer.dfy`). `build_index` writes into an `Artifact` object
  whose four tables (`chunks`, `chunks_fts`, `embeddings`, `sift_metadata`) are
  maps. The FTS insert trigger is part of the chunk insert. `vector_to_blob` packs
  each float32, taken as its bit pattern, into four bytes in the host's native order;
  the model takes a little-endian host.
- **Doctor** (`doctor.dfy`). `run_doctor` runs over a `Snapshot` of what it reads
  from the file and the database. It yields the ordered (label, PASS/FAIL) lines
  and the exit status: two hard gates, a table gate, then accumulated checks.
- **Build then validate** (`pipeline.dfy`): what the doctor reports on a file the
  builder has just written.
- **JS client** (`jstext.dfy` for JS strings, `\s`, `split` and `trim`, as UTF-16
  code units). `runtime.dfy` covers the `SiftSearch` class of runtime/src/index.js:
  the FTS query builder, the `IN (?,…)` placeholders, score attachment and the
  stable sort, and the ready/pending-queue state machine. `demo.dfy` covers the
  demo page of demo/src/main.js: the query builder, the input threshold, snippet
  and tag rendering, and the re-search when the model becomes ready.

I/O is an input throughout:
- a document is its text and its relative path;
- a directory walk is the sequence of (relative dir, files) listings;
- the database as seen by the JS code is two functions, the FTS matches of a request
  and the rows for a list of ids (`RowLookup`, whose rows carry no score, since they
  come from `SELECT id, url, title, content`);
- worker messages are events.

## Model

| member | source | states |
|---|---|---|
| PyText.Strip | cli/sift_search/chunker.py:32 | `str.strip()`: the result has no whitespace at either end, is empty exactly when the input is all whitespace, leaves a stripped string unchanged, and is never longer |
| PyText.StripSlice | cli/sift_search/chunker.py:32 | what strip keeps is the slice starting at the first non-whitespace character, with only whitespace around it |
| PyText.LineEnd | cli/sift_search/chunker.py:23 | where `.+` and MULTILINE `$` stop: the next newline or the end, with no newline before it |
| PyText.SkipNewlines | cli/sift_search/chunker.py:46 | where `\n*` stops: every character skipped is a newline, the next is not |
| PyText.Backtrack | cli/sift_search/chunker.py:23 | the backtracking order of `\s+` before `.+`: the chosen start is the rightmost non-newline candidate |
| PyText.SpacesThenLine | cli/sift_search/chunker.py:23 | `\s+(.+)` at a position: the group starts at the largest g after whitespace only where `t[g]` is not a newline; no match iff no such g |
| PyText.LexLeTotal | cli/sift_search/chunker.py:80 | Python's string order, used by `sorted`, is total |
| Chunker.ReplaceChar | cli/sift_search/chunker.py:17 | `replace(os.sep, "/")`: same length, each separator replaced, every other character kept |
| Chunker.UrlShape | cli/sift_search/chunker.py:15-19 | the url is the relative path with separators as '/', minus exactly three characters when it ends in ".md" |
| Chunker.UrlStripsExtensionOnce | cli/sift_search/chunker.py:18-19 | ".md" is removed once only: the url still ends in ".md" iff the path ended in ".md.md" |
| Chunker.LastIndex | cli/sift_search/chunker.py:22 | the last occurrence of a character (for basename and splitext), or none when absent |
| Chunker.DocTitleFromHeading | cli/sift_search/chunker.py:22-25 | a text starting with '#' and whitespace takes its title from the first non-blank line after the '#', stripped |
| Chunker.DocTitleOtherwise | cli/sift_search/chunker.py:22-25 | without a leading '#' and whitespace, the title is the file name's stem; a '#' followed only by whitespace gives "" when a non-newline character comes after the first whitespace character, and the stem when only newlines do |
| Chunker.HeadingsFrom | cli/sift_search/chunker.py:28 | exactly the line-start `##`/`###`+whitespace positions, in increasing order |
| Chunker.NextHeading | cli/sift_search/chunker.py:28 | the first heading position at or after a point, with no heading before it |
| Chunker.SectionsCutAtHeadings | cli/sift_search/chunker.py:28 | `re.split` on the lookahead: pieces are the slices between cut points; every piece but the first starts at a heading; no heading starts strictly inside a piece |
| Chunker.SectionsConcat | cli/sift_search/chunker.py:28 | the sections concatenate back to the text |
| Chunker.HeaderMatch | cli/sift_search/chunker.py:37 | a match has two or three '#', whitespace, then a title running to the end of its line; no match when only newlines follow the whitespace |
| Chunker.HeadingSectionParses | cli/sift_search/chunker.py:37-38 | a section that starts with a heading matches the header pattern unless it is only its hashes |
| Chunker.HeadedSectionTitle | cli/sift_search/chunker.py:37-43 | the chunks of a section opened by a heading carry the heading text, stripped, as their title |
| Chunker.StripH1 | cli/sift_search/chunker.py:46 | the result is a suffix of the body, and a body not starting with '#'+whitespace is unchanged |
| Chunker.StripH1Spec | cli/sift_search/chunker.py:46 | `^` without MULTILINE anchors at the body's start only: nothing is removed iff the body does not start with '#' followed, after whitespace, by a non-newline character; otherwise exactly '#', that whitespace (up to the latest such character), the rest of its line and the newlines after it go, and the remainder does not start with a newline |
| Chunker.StripH1OneLine | cli/sift_search/chunker.py:46 | "# " + a line + its newlines + rest leaves exactly rest, whatever rest holds |
| Chunker.StripH1KeepsSecondHeading | cli/sift_search/chunker.py:46 | only the first H1 goes: "# A\n# B\nccc" becomes "# B\nccc" |
| Chunker.FindBlankLine | cli/sift_search/chunker.py:53 | the first blank line (two newlines) at or after a position, or the end |
| Chunker.SplitParagraphs | cli/sift_search/chunker.py:53 | `re.split(r"\n\n+")`: at least one piece, and no piece contains a blank line |
| Chunker.SplitParagraphsKeepsText | cli/sift_search/chunker.py:53 | the pieces with the cut runs of two or more newlines put back between them are the body |
| Chunker.SplitParagraphsMaximal | cli/sift_search/chunker.py:53 | the runs are maximal: no piece but the last ends in a newline, none but the first starts with one, and only the first and last can be empty |
| Chunker.WellPackedBound | cli/sift_search/chunker.py:59-64 | a packed buffer of two or more paragraphs is at most 802 characters, since the "\n\n" is left out of the test |
| Chunker.PackPrefixFlatten | cli/sift_search/chunker.py:55-64 | the loop keeps every non-empty stripped paragraph, whole and in order |
| Chunker.PackingSpec | cli/sift_search/chunker.py:53-66 | the packed groups are exactly the non-empty stripped paragraphs in order, each group built within the ceiling, each cut where the next paragraph would overflow, and every emitted buffer stripped and at least 30 characters |
| Chunker.PackPrefixStep | cli/sift_search/chunker.py:56-64 | one loop pass: a blank paragraph changes nothing; an overflowing one flushes the buffer (kept when at least 30 characters); any other is appended after "\n\n" |
| Chunker.AdmitParagraph | cli/sift_search/chunker.py:55-64 | the loop body keeps the string buffer and chunk list equal to the packing specification after one more paragraph |
| Chunker.PackSection | cli/sift_search/chunker.py:53-66 | the paragraph loop emits one chunk per packed buffer, with the section's url and title |
| Chunker.SectionOutcomes | cli/sift_search/chunker.py:48-68 | a body under 30 characters gives nothing; 30 to 1000 gives one chunk with the body unchanged; over 1000 gives the packed buffers; every chunk carries the url and section title |
| Chunker.MakeChunksMembers | cli/sift_search/chunker.py:61-66 | sub-chunks inherit the file's url and the section's title |
| Chunker.SectionChunksWellFormed | cli/sift_search/chunker.py:32-68 | every chunk of a section has the file's url and stripped content of at least 30 characters |
| Chunker.FileChunksWellFormed | cli/sift_search/chunker.py:7-70 | every chunk of a file has the file's url and stripped content of at least 30 characters |
| Chunker.ChunkSection | cli/sift_search/chunker.py:31-68 | one pass of the section loop equals the section's chunks by the specification |
| Chunker.ChunkSections | cli/sift_search/chunker.py:30-70 | the section loop collects every section's chunks in document order |
| Chunker.ChunkFile | cli/sift_search/chunker.py:7-70 | `chunk_file` equals the specification function `FileChunks` |
| Chunker.SortByName | cli/sift_search/chunker.py:80 | `sorted(files)`: ordered by name and a permutation of the listing |
| Chunker.MarkdownOnlyMembers | cli/sift_search/chunker.py:81 | the filter keeps exactly the ".md" files, each as often as listed |
| Chunker.MarkdownOnlySorted | cli/sift_search/chunker.py:80-81 | filtering a sorted listing keeps it sorted |
| Chunker.FilesChunksAreDocsChunks | cli/sift_search/chunker.py:80-83 | a listing's chunks are those of its markdown files, each file's chunks together, in listing order |
| Chunker.StepChunksSpec | cli/sift_search/chunker.py:79-83 | a directory contributes the chunks of its ".md" files, in name order, each as often as listed |
| Chunker.ChunkListing | cli/sift_search/chunker.py:80-83 | the file loop equals the specification for one sorted listing |
| Chunker.ChunkDirectory | cli/sift_search/chunker.py:73-84 | `chunk_directory` equals `WalkChunks`: the listings in walk order, each file's chunks appended in turn |
| Embedder.ModelName | cli/sift_search/embedder.py:69-71 | the name is the repository id, '/', and the model file, and it contains "MiniLM" |
| Embedder.Embedder.Embed | cli/sift_search/indexer.py:29-31 | the call is recorded, and the vectors are the model's answer for those texts |
| Indexer.FloatBytesRoundTrip | cli/sift_search/indexer.py:10-12 | a float32 packed to four bytes unpacks to itself |
| Indexer.VectorToBlob | cli/sift_search/indexer.py:10-12 | `vector_to_blob` is four bytes per value |
| Indexer.BlobRoundTrip | cli/sift_search/indexer.py:10-12 | the blob unpacks to the same vector |
| Indexer.EmbeddingBlobSize | cli/sift_search/indexer.py:10-12 | a 384-value vector becomes 1536 bytes |
| Indexer.Artifact.constructor | cli/sift_search/indexer.py:34 | before the build there is no file and no table |
| Indexer.Artifact.Connect | cli/sift_search/indexer.py:34 | connecting creates the file and changes no table |
| Indexer.Artifact.CreateSchema | cli/sift_search/indexer.py:38-66 | the schema script adds the four tables and leaves existing rows alone |
| Indexer.Artifact.InsertChunk | cli/sift_search/indexer.py:51-54 | a chunk insert fails on an existing id; otherwise it adds the row and, through the trigger, the FTS entry under the same id |
| Indexer.Artifact.InsertEmbedding | cli/sift_search/indexer.py:77-80 | an embedding insert fails on an existing chunk id, else adds the blob |
| Indexer.Artifact.InsertMetadata | cli/sift_search/indexer.py:83-90 | a metadata insert fails on an existing key, else adds the pair |
| Indexer.Artifact.Rollback | cli/sift_search/indexer.py:92 | without the commit, the rows return to their earlier contents |
| Indexer.IdRange | cli/sift_search/indexer.py:69-73 | the ids 1..N, exactly N of them |
| Indexer.Contents | cli/sift_search/indexer.py:30 | the texts sent to the embedder are the chunk contents in chunk order |
| Indexer.ChunkRowsSpec | cli/sift_search/indexer.py:69-73 | chunk ids are the dense range 1..N, id i+1 holds chunk i unchanged, and the FTS rows mirror the chunk rows |
| Indexer.FtsRowsAt | cli/sift_search/indexer.py:51-54 | FTS row i+1 holds chunk i's title and content |
| Indexer.EmbeddingRowsSpec | cli/sift_search/indexer.py:76-80 | one blob per vector, under chunk id i+1 for vector i |
| Indexer.ChunkInsertStep | cli/sift_search/indexer.py:69-73 | inserting chunk i extends the rows written so far, and clashes iff the old table already held id i+1 |
| Indexer.EmbeddingInsertStep | cli/sift_search/indexer.py:76-80 | the same for the blob of vector i |
| Indexer.InsertChunks | cli/sift_search/indexer.py:68-73 | the chunk loop succeeds iff no id 1..N was present, and then adds exactly the chunk rows and their FTS entries |
| Indexer.InsertEmbeddings | cli/sift_search/indexer.py:75-80 | the embedding loop succeeds iff no id clashes, and then adds exactly the blobs |
| Indexer.InsertMetadata | cli/sift_search/indexer.py:82-90 | the two metadata inserts add exactly `model` = the model name and `embedding_dim` = "384" |
| Indexer.BuildIndex | cli/sift_search/indexer.py:15-93 | with no chunks nothing is created or written; otherwise the embedder is called once with the contents, the schema is created, and the chunk, FTS, embedding and metadata rows are written, or rolled back on a clash |
| Doctor.AllPassMeans | cli/sift_search/doctor.py:113 | the accumulated `all_pass` holds iff every line so far passed |
| Doctor.Report | cli/sift_search/doctor.py:10-16 | `all_pass &= check(...)` appends the line and keeps `all_pass` equal to "every line passed" |
| Doctor.ReportTables | cli/sift_search/doctor.py:48-49 | the loop reports the four tables in order, each passing iff present |
| Doctor.ReportSample | cli/sift_search/doctor.py:56-82 | the two count lines, then the sample lines; unpacking fails iff the blob length is not a multiple of four |
| Doctor.ReportVector | cli/sift_search/doctor.py:69-82 | dimension and norm lines for a blob, or "Embedding data" FAIL without one |
| Doctor.ReportMetadata | cli/sift_search/doctor.py:85-91 | the model-metadata and MiniLM lines |
| Doctor.ReportFtsAndSize | cli/sift_search/doctor.py:94-108 | the FTS line (count or error) and the file-size line |
| Doctor.RunDoctor | cli/sift_search/doctor.py:19-117 | the imperative run yields exactly the lines and exit status of `DoctorReport` |
| Doctor.MissingFile | cli/sift_search/doctor.py:24-28 | a missing file gives one FAIL line and exit 1, and nothing else runs |
| Doctor.Unopenable | cli/sift_search/doctor.py:31-37 | an unopenable database gives FAIL for "Valid SQLite database" and exit 1 |
| Doctor.TableGate | cli/sift_search/doctor.py:48-54 | all four table lines are reported, each passing iff present; the run stops after them iff a core table is missing; a missing `chunks_fts` alone does not stop it |
| Doctor.BodyLines | cli/sift_search/doctor.py:56-82 | "Chunks indexed" iff count > 0; counts equal; dimension = length div 4 = 384; without a blob "Embedding data" replaces dimension and norm; a blob that does not unpack ends the run |
| Doctor.TailLines | cli/sift_search/doctor.py:85-108 | model key present; "MiniLM" in the model value (default ""); FTS count = chunk count, or FAIL on a query error; size > 10240 bytes |
| Doctor.ExitStatus | cli/sift_search/doctor.py:112-117 | exit is 0 or 1, and 0 iff every reported line passed and the run was not cut short |
| Doctor.HealthyChecksPass | cli/sift_search/doctor.py:19-117 | on a healthy index all 14 lines pass except possibly the norm and the size, and all pass iff those two do |
| Doctor.HealthyLines | cli/sift_search/doctor.py:42-108 | a snapshot with all tables, equal non-zero counts, a 1536-byte sample, a MiniLM name and a full FTS table reports the 14 healthy lines |
| Doctor.HealthyReport | cli/sift_search/doctor.py:19-117 | on such a snapshot every check but the norm and the size passes, and exit is 0 iff those two pass |
| RowIds.HasLeast | cli/sift_search/doctor.py:69 | a non-empty set of row ids has a least element |
| RowIds.MinKey | cli/sift_search/doctor.py:69 | the row `LIMIT 1` reads first: the least row id |
| Pipeline.SchemaSet | cli/sift_search/indexer.py:38-66 | the schema's tables are the three core tables plus `chunks_fts` |
| Pipeline.ObserveBuilt | cli/sift_search/indexer.py:68-90 | a fresh build shows the doctor four tables, equal counts, FTS count = chunk count, the first vector's 1536-byte blob and the model name |
| Pipeline.BuiltIndexReport | cli/sift_search/doctor.py:19-117 | on a freshly built index every doctor check passes except possibly the norm and the size |
| Pipeline.BuildFresh | cli/sift_search/indexer.py:15-93 | building into a new file: no chunks, no file; otherwise exactly the four tables and the build's rows |
| Pipeline.IndexFresh | cli/sift_search/indexer.py:15-93 | what the doctor observes of that file |
| Pipeline.IndexThenDoctor | cli/sift_search/doctor.py:19-117 | index then doctor: with no chunks, one FAIL line and exit 1; when the embedder keeps its contract, the 14 healthy lines and exit 0 iff norm and size pass |
| JsText.WordEnd | runtime/src/index.js:125 | the first whitespace code unit at or after a position, or the end |
| JsText.RunEnd | runtime/src/index.js:125 | where a greedy `\s+` stops |
| JsText.SplitWs | runtime/src/index.js:125 | `split(/\s+/)`: at least one piece, none containing whitespace |
| JsText.SplitWsKeepsText | runtime/src/index.js:125 | the pieces concatenate to the input without its whitespace |
| JsText.SplitWsInnerNonEmpty | runtime/src/index.js:125 | only the first and last piece can be empty |
| JsText.SplitWsSpace | runtime/src/index.js:125 | the single-space case of `SplitWsRun` |
| JsText.SplitWsRun | runtime/src/index.js:125 | a word, any non-empty whitespace run and a rest that does not start with whitespace split into exactly that word followed by the rest's pieces |
| JsText.SplitWsLeadingRun | runtime/src/index.js:125 | leading whitespace gives one empty first piece, followed by the pieces of what comes after the run |
| JsText.Trim | demo/src/main.js:98 | `trim()`: no whitespace at either end, empty iff the input is all whitespace, a slice of the input surrounded only by whitespace |
| Runtime.LongWordsMembers | runtime/src/index.js:126 | `filter(w => w.length > 1)`: a word is kept iff it is in the list and longer than one code unit |
| Runtime.LongWordsAppend | runtime/src/index.js:126 | the filter distributes over concatenation, so it keeps order and repeats |
| Runtime.LongWordsOne | runtime/src/index.js:126 | a single word is kept iff it is longer than one code unit |
| Runtime.KeptWords | runtime/src/index.js:124-126 | the kept words have no whitespace and are longer than one code unit |
| Runtime.KeptWordsRun | runtime/src/index.js:124-126 | read word by word: a word, any whitespace run and the rest of the query keep that word (if longer than one code unit) and then the rest's words, in order |
| Runtime.KeptWordsLeadingRun | runtime/src/index.js:124-126 | leading whitespace changes nothing in the kept words |
| Runtime.KeptWordsWord | runtime/src/index.js:124-126 | a query without whitespace keeps itself iff it is longer than one code unit |
| Runtime.LexicalRequestWhen | runtime/src/index.js:124-135 | the database is queried iff some piece is longer than one code unit, and then with the caller's limit |
| Runtime.OrOfQuotedNonEmpty | runtime/src/index.js:127-128 | the query of one or more words is non-empty |
| Runtime.OrOfQuotedReadsBack | runtime/src/index.js:127-128 | quoting and joining with " OR " reads back, phrase by phrase, as the words |
| Runtime.FtsQueryReadsBack | runtime/src/index.js:124-130 | the query is empty iff no word survives; otherwise it reads back as exactly the kept words, in order |
| Runtime.PlaceholdersShape | runtime/src/index.js:175 | one '?' per id separated by ',': 2n-1 code units, '?' at even positions |
| Runtime.LookupRequestShape | runtime/src/index.js:172-179 | no query for no ids; otherwise one bound parameter per placeholder |
| Runtime.ScoreOfUnranked | runtime/src/index.js:149-151 | a chunk the worker did not rank scores 0 |
| Runtime.ScoreOfRanked | runtime/src/index.js:149-151 | a ranked chunk takes the score of its last entry |
| Runtime.WithScores | runtime/src/index.js:150-152 | each chunk, in order, with its score attached and nothing else changed |
| Runtime.AttachScores | runtime/src/index.js:150-152 | the in-place loop over the chunk array leaves exactly `WithScores` |
| Runtime.InsertByScorePerm | runtime/src/index.js:153 | inserting into the sorted run adds the chunk and loses nothing |
| Runtime.SortByScoreSorted | runtime/src/index.js:153 | the sorted results are in descending score order and are a permutation of the input |
| Runtime.SortByScoreStable | runtime/src/index.js:153 | the sort is stable: chunks with equal scores keep their order |
| Runtime.RankedIds | runtime/src/index.js:146 | the ids of the ranking, in order |
| Runtime.DoubledSpec | runtime/src/index.js:70-73 | each queued message reaches the worker twice in a row, in queue order |
| Runtime.SiftSearch.constructor | runtime/src/index.js:12-22 | the model is not ready, vectors are not cached, and the queue is empty |
| Runtime.SiftSearch.FetchChunks | runtime/src/index.js:172-186 | no ids give no rows, and the rows read from the chunks table carry no score |
| Runtime.SiftSearch.SemanticSearch | runtime/src/index.js:158-167 | a search is posted at once when the model is ready, otherwise queued and not posted |
| Runtime.SiftSearch.FlushPending | runtime/src/index.js:67-74 | on "ready": the model is ready, each queued message is posted twice in order, and the queue is emptied |
| Runtime.SiftSearch.Deliver | runtime/src/index.js:145-155 | the awaited search receives the looked-up chunks with scores attached, sorted by score |
| Runtime.SiftSearch.DeliverAsWritten | runtime/src/index.js:77-80 | with `_semanticCallback` unset, a "semantic-results" message changes nothing |
| Runtime.SiftSearch.OnWorkerMessage | runtime/src/index.js:64-87 | dispatch: "ready" flushes the queue; "vectors-cached" sets only that flag; in the corrected semantic-results branch (see Findings), results settle the awaited search; an error settles it with []; anything else changes nothing |
| Runtime.SearchBeforeReady | runtime/src/index.js:77-80 | a search made before "ready" is posted twice; the corrected branch delivers its ranking, and the branch as written delivers nothing |
| Demo.DemoRequestIsRuntimeRequest | demo/src/main.js:124-132 | the demo's word-list test gives the same request as the runtime's (limit 10), and it reads back as the kept words |
| Demo.SnippetSpec | demo/src/main.js:177-178 | content up to 200 code units is shown as is; longer content as its first 200 code units plus "..."; at most 203; idempotent |
| Demo.TagAgrees | demo/src/main.js:179-180 | the label is "semantic" iff the tag is "semantic", else "keyword", and the class agrees |
| Demo.RenderedSpec | demo/src/main.js:166-194 | no results give the single "No results found." item; otherwise one item per result, in order, with its title, url, snippet and exactly its score |
| Demo.DemoPage.constructor | demo/src/main.js:16-19 | the page starts with the model not ready and an empty list |
| Demo.DemoPage.RenderResults | demo/src/main.js:166-194 | the rendering loop leaves exactly `Rendered(results, tag)` |
| Demo.DemoPage.FetchChunks | demo/src/main.js:140-148 | no ids give no rows, and the rows the chunks table gives carry no score |
| Demo.DemoPage.LexicalResults | demo/src/main.js:123-138 | a query without kept words gives no results, and keyword results carry no score |
| Demo.DemoPage.DoSearch | demo/src/main.js:107-121 | keyword results are rendered, none of their items shows a score, and the query is posted with limit 10 only when the model is ready |
| Demo.DemoPage.OnInput | demo/src/main.js:95-105 | the trimmed text is searched iff it is longer than one code unit; otherwise the list is cleared and nothing is posted; no item shown shows a score |
| Demo.DemoPage.ShowSemanticResults | demo/src/main.js:150-164 | the ranked chunks, scored (0 when unranked) and sorted, are rendered with the semantic tag |
| Demo.DemoPage.OnReady | demo/src/main.js:79-85 | the model becomes ready and any non-blank text in the box is searched again |
| Demo.DemoPage.OnWorkerMessage | demo/src/main.js:78-92 | dispatch of "ready", "semantic-results" and errors; an error changes only the status line |
| Demo.TypeThenReady | demo/src/main.js:95-105 | a query typed before the model is ready posts nothing, and after "ready" is posted exactly once |

## Left out

- File and directory I/O: `open`/`read`, `os.walk`, `os.path.getsize`, printing and `sys.exit`. The walk's listings, the file texts and the file size are inputs, and only the resulting check lines and exit status are kept.
- The embedding model itself: ONNX inference, tokenisation, mean pooling, L2 normalisation, and the batching by `BATCH_SIZE` are numeric work in foreign libraries. The model is a function parameter, and `Embeds` states the contract the build relies on.
- Floating point: the doctor's L2-norm test (`math.sqrt`) is the boolean `normOk` of the snapshot. Float32 values are their bit patterns. The client's scores are reals, so rounding and NaN are not modelled.
- The SQLite engine: FTS5 tokenisation and `MATCH` ranking, schema details beyond table names, and durability. The rows the FTS query matches are a function parameter. A key clash is modelled as a failed build whose rows are discarded.
- RowIds.MinKey: `SELECT vector FROM embeddings LIMIT 1` is taken to return the least chunk id, because SQLite scans a rowid table in rowid order. A NULL blob and a file that opens but is not a database past `SELECT 1` are not modelled.
- `ReadOrQuery` is a reading of the query string (phrases alternating with `OR`), not FTS5's parser. A quote inside a word is not escaped by the source, and its effect on FTS5 is not modelled.
- Async and DOM concerns: `createDbWorker`, worker transport, the Promise objects, the debounce timer, `escapeHtml`, `toFixed`, `innerHTML` and the status text. Promise settlement is modelled as the `awaiting` flag and the `delivered` list. Only the latest search's resolver is kept, as in the source.
- `SiftSearch.init`, `_preloadVectors`, `search`'s `onLexical` path and the demo's `init`. These are loading and plumbing.
- runtime/src/embed-worker.js and demo/src/embed-worker.js: a Transformers.js pipeline and a floating-point ranking.
- cli/sift_search/cli.py (argument parsing) and the vite configuration files.
- Runtime.SortByScore: `chunks.sort` sorts the array in place and is modelled as a function on the sequence. Aliasing of the sorted array is not captured.
- Indexer.VectorToBlob: `struct.pack(f"{n}f")` uses the host's native byte order; the model fixes it to little-endian (the order of x86 and ARM hosts), so a big-endian host's blobs are not modelled.
- JS strings are UTF-16 code units. The Python side works on code points (`string`), with no normalisation or encoding.

## Findings

| source | as written | input that shows it | evidently intended | confidence | as-written member | corrected member |
|---|---|---|---|---|---|---|
| runtime/src/index.js:78 | the "semantic-results" branch calls `_resolveSemantic` only if `this._semanticCallback` is set, and nothing ever sets it | any `search(q, {onSemantic})` followed by the worker's "semantic-results" message: `onSemantic` is never called and the promise never settles | the branch settles the pending search with the scored, sorted chunks | high (not executed) | Runtime.SiftSearch.DeliverAsWritten, Runtime.SearchBeforeReady | Runtime.SiftSearch.Deliver, Runtime.SiftSearch.OnWorkerMessage |

Where the code and its documentation differ, the model follows the code:
- the url loses ".md" once only, so "a.md.md" becomes "a.md";
- a leading H1 line is stripped from the start of every section body, not only from the first section;
- a queued search reaches the worker twice once the model is ready: once directly and once through its `resolve`.
