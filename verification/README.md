# DocQA pipeline core, modelled in Dafny

A Dafny model of the decision logic of DocQA_System, a command-line question-answering tool
over a directory of PDF files. The model follows the program's stages:

- **Ingestion** (`document_processing.dfy`, `pdf_preprocessing.dfy`): the JSON cache
  short-circuit, the case-sensitive `.pdf` name filter, one record per file, and the collection
  of successful records from a worker pool. Each page read gives 1-based `(page, text)`
  entries for pages whose text is non-empty, plus the document text: each kept page's text
  followed by a newline.
- **Indexing** (`embedding.dfy`): the greedy sentence-aligned chunker under a word budget,
  the whitespace-only skip rule, and the `collection.add` payload for each document. That
  payload is the chunks, ids `"{file}_chunk_{i}"`, replicated metadata and embeddings.
- **Retrieval** (`search.dfy`, `ranking.dfy`): dense-then-sparse result fusion, and the
  re-ranker's stable descending sort on integer relevance scores with its fallbacks.
- **Answering and provenance** (`qa.dfy`, `session.dfy`): answer generation with its error
  reply, the question-word filter and first-argmax page choice, the `done`-terminated query
  prompt, the "uninformative answer" phrase check, and the choice of source file and page
  for each numbered result row.

Shared helpers are the `Option` type (`wrappers.dfy`) and list comprehensions and their
order-independence facts (`seqs.dfy`). The Python string operations the code relies on are
in `text.dfy`: `isspace`, `strip`, `lower`, `in`, `endswith`, `join`, `len(s.split())` and `str(n)`.
A one-character `split` is there only to state what `join` preserves.

Every foreign call is a parameter of the model rather than something modelled:

- the PDF reader gives a `PageRead` per page, and the OCR stage gives a string, or `None` when it raises;
- the per-file extractor gives `string -> Option<Extraction>`; `PdfExtractor` is the real one, which never raises. A worker crash is a predicate;
- the pool's completion order is a permutation of the PDF files;
- the sentence tokenizer is `string -> Option<seq<string>>`, and the embedding model is `string -> Option<E>`;
- the vector store's dense and keyword queries give `Option<QueryResult>`;
- the chat model's relevance scores are `Option<int>`, and its answers are `Option<string>`;
- the sentence encoder's cosine similarity is an integer-valued function. One flag, `encoderLoads`, says whether page scoring gets that far; it is false when the word tokenizer, loading the encoder or encoding raises.

A `None` from a foreign call stands for an exception it raises. Most are caught by the function
that makes the call. Four are not caught there, and they end `main` through its `except Exception`
(main.py:71-72):

- a failing directory listing (utils/document_processing.py:86) is `RaisedListingError` from
  `ProcessDocumentsIn`;
- the unbound `concurrent` (utils/document_processing.py:95) is `RaisedNameError` from
  `ProcessDocumentsAsWritten`;
- `input()` reaching the end of input before `done` (main.py:33) makes `CollectQueries` give `None`;
- a missing first metadata entry (main.py:50) makes `AnswerQuery` give `None`, and the session
  then yields no rows.

## Model

| member | source | states |
|---|---|---|
| DocumentProcessing.ProcessSingleDocument | utils/document_processing.py:19-33 | A record exists exactly when the extractor call returns; it carries the input file name and the extractor's text, OCR text and page list unchanged. The real extractor always returns, so an unreadable PDF still gets a record (see `ProcessDocumentsWithPdfReader`). |
| DocumentProcessing.LoadProcessedDocuments | utils/document_processing.py:49-65 | A missing or unloadable cache file gives `None`; a stored list, including an empty one, is returned as stored. |
| DocumentProcessing.SaveProcessedDocuments | utils/document_processing.py:35-47 | After a successful save, loading the cache gives back exactly the saved list; a file that cannot be opened is left as it was; a failed dump leaves an unloadable file. |
| DocumentProcessing.PdfFilesContract | utils/document_processing.py:86 | Exactly the listed names ending in `.pdf` are kept, in listing order (the filter distributes over concatenation), and the suffix is case-sensitive: `scan.PDF` is not processed. |
| DocumentProcessing.ProcessDocuments | utils/document_processing.py:79-109 | A loadable cache is returned unchanged, with nothing processed or saved. Otherwise the result is a permutation of the successful records of the `.pdf` files in listing order. Every record comes from a successful `.pdf` file of the listing, under its name and with its extraction. Every successful file has a record. The list saved is the list returned. |
| DocumentProcessing.CollectMembers | utils/document_processing.py:93-103 | Whatever the completion order, the collected records are exactly those of the files whose task returned a record; a task that raised or returned `None` leaves no record and does not stop the others. |
| DocumentProcessing.ProcessDocumentsWithPdfReader | utils/document_processing.py:19-33 | With `extract_text_from_pdf` as the extractor, only a worker crash drops a file: every other `.pdf` file of the listing has a record holding its extraction, and an unreadable file keeps a record with empty texts and no pages. |
| DocumentProcessing.ProcessDocumentsIn | utils/document_processing.py:79-86 | A loadable cache is returned before the directory is read. On a cache miss, a directory listing that raises ends the call; otherwise the call is `ProcessDocuments`. |
| Seqs.FlatMapPermutation | utils/document_processing.py:93-100 | Collecting task results in any completion order gives the same multiset of records. |
| DocumentProcessing.SecondRunReusesCache | utils/document_processing.py:79-109 | After a run that finds no cache and saves its result, a later run returns the same list, whatever the directory then contains. |
| DocumentProcessing.ProcessDocumentsAsWritten | utils/document_processing.py:79-109 | As written, the call returns only when the cache loads (returning the cached list). Every cache miss raises: at the listing when the directory cannot be read, otherwise with `NameError`. |
| DocumentProcessing.AsWrittenLosesEveryMiss | utils/document_processing.py:93-100 | For one readable `report.pdf` and no cache, the code as written raises while the intended loop returns one record. |
| PdfPreprocessing.ScanPages | utils/pdf_preprocessing.py:28-40 | The page loop succeeds exactly when no page read raises. Its entries and text then agree with the page-at-a-time reference list `KeptPages`: the text is the kept pages' texts, each followed by a newline. |
| PdfPreprocessing.KeptPagesIsPageList | utils/pdf_preprocessing.py:32-40 | The reference list names each page with non-empty text (whitespace counts) as `(k + 1, text)`, with its own text. Page numbers are strictly increasing within `1..n`, and no page with text is missed. |
| PdfPreprocessing.ExtractTextFromPdf | utils/pdf_preprocessing.py:23-50 | An unreadable file, a failing page or a raising OCR stage gives `("", "", [])`, losing any native text. Otherwise the OCR text passes through unchanged, the page list is as above, and the text is empty exactly when the page list is. |
| PdfPreprocessing.Lines | utils/pdf_preprocessing.py:37-38 | The accumulated text is empty exactly when no page was kept. |
| Embedding.Pack | utils/embedding.py:19-38 | From any reachable loop state, the remaining iterations complete a greedy packing (see `SentenceGroups`). |
| Embedding.SentenceGroups | utils/embedding.py:19-38 | Flattening the groups gives back the sentences. A group over budget holds at most one sentence. Each group after the first is non-empty and was closed because its first sentence did not fit. No sentences give no groups, and the last group is non-empty. The first group is empty exactly when the first sentence alone is over budget. |
| Embedding.SplitTextToChunks | utils/embedding.py:4-40 | Chunk `j` is sentence group `j` joined by single spaces and has exactly that group's word count, so the budget proved for groups holds for the chunk strings. |
| Embedding.JoinWords | utils/embedding.py:29-38 | Joining sentences with single spaces gives as many words as the sentences have together. |
| Text.WordCount | utils/embedding.py:25 | A string has no words exactly when it is whitespace only. |
| Text.WordCountSpaced | utils/embedding.py:25 | A single space between two strings neither merges nor splits their words: the counts add. |
| Embedding.ChunkerContract | utils/embedding.py:4-40 | The packing seen per chunk: no sentence is lost, duplicated or reordered. An over-budget group, and so an over-budget chunk string, is a single sentence or the empty leading chunk. Every boundary is forced by the budget. Only the first chunk can be empty. There are no chunks exactly when there are no sentences. |
| Embedding.ChunkIdInjective | utils/embedding.py:72 | Equal chunk ids have equal file names and equal ordinals. |
| Text.NatToStringInjective | utils/embedding.py:72 | Distinct ordinals print as distinct decimal strings. |
| Embedding.CombinedTextBlank | utils/embedding.py:60-62 | `text + " " + images_text` is whitespace only exactly when both parts are. |
| Embedding.EmbedAll | utils/embedding.py:69-71 | Embedding succeeds exactly when every chunk embeds, giving one embedding per chunk, in chunk order. |
| Embedding.IndexChunks | utils/embedding.py:65-80 | The payload fails exactly when some chunk fails to embed. Otherwise chunk `i` is stored under id `file + "_chunk_" + i`, with the document's file name as metadata and its own embedding; all four lists have the chunk count's length. |
| Embedding.DocumentChunks | utils/embedding.py:15-18 | Chunking a document fails exactly when the sentence tokenizer raises on its combined text. Otherwise the chunks are those of the tokenizer's sentences under the default 256-token limit. |
| Embedding.IndexDocument | utils/embedding.py:58-82 | A document is skipped exactly when both its text and its OCR text are whitespace only, and is then never tokenized. Otherwise a raising sentence tokenizer fails it, and its chunks of the combined text are indexed when the tokenizer succeeds. |
| Embedding.BatchIdsDistinct | utils/embedding.py:69-79 | Ids are pairwise distinct within a document's payload, and no id is shared between documents with different file names. |
| Embedding.AddedBatches | utils/embedding.py:58-84 | The indexing loop yields a result exactly when no document failed. The payloads are exactly the added documents' batches, in order and each once: one for each document not skipped. |
| Embedding.CreateVectorStore | utils/embedding.py:53-87 | The store is built exactly when no document fails, that is, when the sentence tokenizer and the embedding model succeed on every document that has some non-whitespace text. A tokenizer failure on such a document discards the store. A built store holds exactly each document's payload, in document order, and every document with some non-whitespace text has its payload stored. |
| Search.HybridSearch | utils/search.py:17-35 | Any failure gives three empty lists. Otherwise each fused list is the dense list followed by the sparse list: the lengths add, and the multisets add with no deduplication. |
| Search.ScoreAll | utils/search.py:52-69 | Scoring succeeds exactly when every candidate gets a parsed score, pairing each candidate with its own score in candidate order. |
| Ranking.SortDescProperties | utils/search.py:72 | The descending sort is a permutation of its input and is ordered by non-increasing score. |
| Ranking.SortDescHead | utils/search.py:72-75 | The head of the stable descending sort is the first candidate of maximal score. |
| Ranking.FirstArgMax | utils/qa.py:66 | The index returned holds the maximum, and every earlier element is strictly smaller (ties go to the first). |
| Search.ReRankDocuments | utils/search.py:51-78 | No candidates give the empty fallback. One failed or unparsable reply gives the first candidate, whatever was already scored. Otherwise the first candidate with the highest score is returned. The result is always one of the candidates. |
| Search.ReRankTieGoesToFirst | utils/search.py:72-75 | With scores 3, 9, 9, 1, the second candidate (the first scoring 9) wins. |
| Search.ReRankScoresNotClamped | utils/search.py:68-75 | Scores outside 0-10 are used as given: 42 beats 10. |
| Qa.GetAnswerFromDocuments | utils/qa.py:18-36 | A failed call gives exactly the fixed error answer. Otherwise the answer is the stripped reply: it neither starts nor ends with whitespace, and it is empty exactly when the reply is blank. |
| Text.Strip | utils/qa.py:33 | The result is an infix of the input with only whitespace around it, and neither starts nor ends with whitespace; it is empty exactly when the input is whitespace only. |
| Text.StripUnique | utils/qa.py:33 | Any infix with only whitespace around it that neither starts nor ends with whitespace is the stripped string: `strip` has no other possible result. |
| Qa.RemoveQuestionWordsContract | utils/qa.py:51-52 | Exactly the tokens whose lower-case form is not a question word remain, and nothing changes when no token is one. |
| Qa.RemoveQuestionWordsIdempotent | utils/qa.py:52 | Filtering the question words twice is filtering once. |
| Qa.RemoveQuestionWordsSkips | utils/qa.py:51-52 | A question word inserted anywhere in the tokens is dropped without changing the order of the others. |
| Qa.CleanQuerySplits | utils/qa.py:53 | For tokens without spaces, splitting the cleaned query on spaces gives back the kept tokens. |
| Text.SplitJoin | utils/qa.py:53 | Joining pieces that do not hold the separator and splitting again gives the pieces back. |
| Text.JoinSplit | utils/qa.py:53 | Splitting on a character and joining again with it gives the string back. |
| Qa.FindPageNumber | utils/qa.py:49-72 | No page is found exactly when the word tokenizer or the encoder fails (`encoderLoads` false) or there are no pages. Otherwise the page number is that of the first page with maximal similarity to the cleaned query. |
| Qa.FindPageNumberIgnoresQuestionWords | utils/qa.py:51-69 | Adding a question word to the query never changes the page found. |
| Session.CollectQueries | main.py:32-36 | Queries are the inputs before the first one whose lower-case form is `done`, in order. That input is not collected, and input that ends before it gives `None`. |
| Session.CollectQueriesStopsAtDone | main.py:32-36 | Lines typed after `done` do not change the queries. |
| Session.SourceFile | main.py:50 | The source is the file of the first metadata entry of the first result list, and is missing exactly when that list or entry does not exist. |
| Session.Context | main.py:43-44 | No chosen candidate gives an empty context. A chosen candidate list is joined in order with single spaces (`Text.JoinLayout` places every piece and separator): the context has exactly the list's words, and splitting it on spaces gives back pieces that hold no space. |
| Text.JoinLayout | main.py:44 | In `sep.join(xs)` piece `k` starts after every earlier piece and its separator. Exactly `sep` lies between neighbours, and nothing lies before the first piece or after the last. |
| Session.ContextKeepsOrder | main.py:44 | Pieces that hold spaces keep their order: `["a b", "c"]` gives `"a b c"` and not `"c a b"`. |
| Session.PageTextsOf | main.py:51 | The page list is that of the first document with the source's file name, or empty when there is none. |
| Session.AnswerQuery | main.py:41-52 | A turn raises exactly when the answer is informative and there is no first metadata entry. A row carries its number, query and answer. It has no source exactly when the answer holds one of the three phrases. An attributed row names the first result's file and the page found among that file's pages. |
| Session.AnswerAll | main.py:40-52 | The loop yields rows exactly when no turn raises, one per query, the `i`-th being that query's turn numbered `first + i`. |
| Session.RunSession | main.py:29-52 | No `done` means no rows. Rows, when produced, are one per collected query, numbered 1, 2, ... in query order, each carrying its query. |
| Session.RunSessionTurns | main.py:40-52 | The session yields rows exactly when no turn raises, and the `i`-th row is the turn for the `i`-th query numbered `i + 1`. |
| Session.SourceIsFirstDenseHit | main.py:41-50 | With both searches succeeding, an informative answer is attributed to the file of the top dense hit, whichever candidate the re-ranker chose. |
| Session.FailedSearchEndsSession | main.py:41-50 | When a search fails, a turn raises exactly when its answer is informative. |
| Session.ErrorAnswerIsInformative | main.py:46 | The fixed error answer holds none of the three phrases in any case, so a failed completion is still attributed to a source. |

## Left out

- OCR (`utils/ocr.py`): image preprocessing and Tesseract calls. Its output is an input string, or `None` when its `pdf2image` import (`utils/ocr.py:43`, outside its `try`) raises.
- Configuration loading, Tesseract path setup and the Excel export (`utils/config.py`, `utils/excel.py`) are not part of this model. They are file I/O.
- The worker pool, progress bar and timing are left out. The pool is a fold over a completion order, which is required to be a permutation of the `.pdf` files. Each task completes once.
- JSON serialisation of the cache is left out. A cache file is `Missing`, `Unreadable` or a stored list, and tuples are not distinguished from lists after a round trip. A cache holding JSON `null` is not modelled.
- Sentence and word tokenizers, the embedding model, Chroma and the chat model are parameters. Their failures are modelled as `None` results: the sentence tokenizer's and the embedding model's inside `create_vector_store`, and the word tokenizer's through `encoderLoads`. The word tokenizer's output in `find_page_number` is an input.
- Embedding.CreateVectorStore: errors Chroma could raise in `chromadb.Client()`, `create_collection` or `collection.add` (utils/embedding.py:55-56, 75-80) would also make the call return `None`. They are not modelled: only tokenizer and embedding failures discard the store.
- `utils/document_processing.py:6` imports `extract_text_from_pdf` from `utils.pdf_processing`, but the file defining it is `utils/pdf_preprocessing.py`. The model takes the intended extractor; the missing module is not part of this model.
- Text.Lower: lower-cases ASCII letters only, where Python's `str.lower` covers all of Unicode; the question words, `done` and the phrases are all ASCII.
- Text.IsSpace: covers the characters Python's `str.isspace` accepts, but not Unicode normalisation or `split()` on other separators.
- Qa.FindPageNumber: cosine similarities are integers supplied by a function, not floats. A raising `word_tokenize`, encoder load or encoding are one flag.
- Search.ReRankDocuments: the relevance judge is a function of the candidate, so repeated calls on equal candidates agree. The real model may not.
- Session.RunSession: `storeReady` says whether `create_vector_store` built a store; the store's query answers are the `Services` functions. The console prompts, printing, and the output path and directory handling are left out.
- Embedding.SplitTextToChunks: only the default budget of 256 words is used by indexing. The chunker's idempotence would depend on the sentence tokenizer, which is foreign, so it is not stated.

## Findings

| source | as written | input that shows it | evidently intended | confidence | as-written member | corrected member |
|---|---|---|---|---|---|---|
| utils/document_processing.py:95 | The collecting loop calls `concurrent.futures.as_completed`, but only `ProcessPoolExecutor` is imported from `concurrent.futures`. The name `concurrent` is unbound, so every cache miss on a readable directory raises `NameError` after the pool has run. Nothing is returned or saved. | No cache file and a directory holding one readable `report.pdf` | Collect each successful record as its task completes, save the list and return it | high, not executed | DocumentProcessing.ProcessDocumentsAsWritten, DocumentProcessing.AsWrittenLosesEveryMiss | DocumentProcessing.ProcessDocuments |
