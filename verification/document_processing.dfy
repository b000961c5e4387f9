/** `utils/document_processing.py`: one record per PDF file, the JSON cache, and the batch
    that processes every `.pdf` file of the corpus directory. The worker pool is modelled as
    a fold over the files in the order the pool completes them. */
module DocumentProcessing {
  import opened Wrappers
  import opened Seqs
  import opened Text
  import opened PdfPreprocessing

  /** The record kept for one source file. */
  datatype Document = Document(fileName: string, text: string, imagesText: string, pageTexts: seq<PageText>)

  /** The extractor's triple carried by a record. */
  function ExtractionOf(d: Document): Extraction {
    Extraction(d.text, d.imagesText, d.pageTexts)
  }

  /** `process_single_document`: `extracted` is the extractor's triple, or `None` when the call
      raised. `extract_text_from_pdf` catches its own exceptions, so with the real extractor the
      `None` case does not arise (see `PdfExtractor`). */
  function ProcessSingleDocument(fileName: string, extracted: Option<Extraction>): (r: Option<Document>)
    ensures r.Some? <==> extracted.Some?
    ensures r.Some? ==> r.value.fileName == fileName && ExtractionOf(r.value) == extracted.value
  {
    match extracted
    case None => None
    case Some(e) => Some(Document(fileName, e.text, e.imagesText, e.pageTexts))
  }

  /** The state of the cache file on disk: absent, present but not loadable, or a stored list. */
  datatype CacheFile = Missing | Unreadable | Stored(documents: seq<Document>)

  /** `load_processed_documents`. */
  function LoadProcessedDocuments(file: CacheFile): (r: Option<seq<Document>>)
    ensures r.Some? <==> file.Stored?
    ensures r.Some? ==> r.value == file.documents
  {
    match file
    case Stored(docs) => Some(docs)
    case _ => None
  }

  /** How `save_processed_documents` ends: the list is written, the file cannot be opened
      (nothing is written), or serialisation fails part-way (a truncated file is left). */
  datatype SaveOutcome = Written | OpenFailed | DumpFailed

  /** `save_processed_documents`: the cache file after the call. */
  function SaveProcessedDocuments(documents: seq<Document>, prior: CacheFile, outcome: SaveOutcome): (after: CacheFile)
    ensures outcome.Written? ==> LoadProcessedDocuments(after) == Some(documents)
    ensures outcome.OpenFailed? ==> after == prior
    ensures outcome.DumpFailed? ==> LoadProcessedDocuments(after) == None
  {
    match outcome
    case Written => Stored(documents)
    case OpenFailed => prior
    case DumpFailed => Unreadable
  }

  const PdfSuffix := ".pdf"

  predicate IsPdfName(fileName: string) {
    EndsWith(fileName, PdfSuffix)
  }

  /** The directory listing restricted to names ending in ".pdf" (case-sensitive), in listing order. */
  function PdfFiles(listing: seq<string>): seq<string> {
    Filter(IsPdfName, listing)
  }

  /** The filter keeps exactly the listed names ending in ".pdf", in listing order, and the
      suffix is compared case-sensitively. */
  lemma PdfFilesContract(listing: seq<string>, more: seq<string>)
    ensures forall f :: f in PdfFiles(listing) <==> f in listing && IsPdfName(f)
    ensures PdfFiles(listing + more) == PdfFiles(listing) + PdfFiles(more)
    ensures IsPdfName("scan.pdf") && !IsPdfName("scan.PDF")
  {
    FilterAppend(IsPdfName, listing, more);
    var upper := "scan.PDF";
    assert upper[|upper| - 4..][1] == 'P' != PdfSuffix[1];
    assert "scan.pdf"[4..] == PdfSuffix;
  }

  /** The worker-side outcome for one file. `crashed(f)` says that collecting the worker's result
      raised (the worker died); otherwise the worker returns `process_single_document`'s value. */
  function TaskResult(fileName: string, extract: string -> Option<Extraction>, crashed: string -> bool): Option<Document> {
    if crashed(fileName) then None else ProcessSingleDocument(fileName, extract(fileName))
  }

  /** A file whose task yields a record. */
  predicate Succeeds(fileName: string, extract: string -> Option<Extraction>, crashed: string -> bool) {
    !crashed(fileName) && extract(fileName).Some?
  }

  /** What the collector appends for one completed task: the record, or nothing on failure. */
  function Appended(fileName: string, extract: string -> Option<Extraction>, crashed: string -> bool): seq<Document> {
    match TaskResult(fileName, extract, crashed)
    case Some(d) => [d]
    case None => []
  }

  /** The records collected from tasks completing in the order `files`. */
  function Collect(files: seq<string>, extract: string -> Option<Extraction>, crashed: string -> bool): seq<Document> {
    FlatMap(f => Appended(f, extract, crashed), files)
  }

  /** The extractor `process_single_document` calls: `extract_text_from_pdf` on what the PDF
      reader (`read`) and the OCR stage (`ocr`) give for the file. It never raises. */
  function PdfExtractor(read: string -> Option<seq<PageRead>>, ocr: string -> Option<string>): string -> Option<Extraction> {
    f => Some(ExtractTextFromPdf(read(f), ocr(f)))
  }

  /** The list returned by one run, and the cache file left behind. */
  datatype IngestionRun = IngestionRun(documents: seq<Document>, cacheAfter: CacheFile)

  /** `process_documents`. `listing` is the directory listing; `completion` is the order in which
      the pool's tasks complete, a permutation of the `.pdf` files (each task completes once). */
  function ProcessDocuments(
    cache: CacheFile, listing: seq<string>, completion: seq<string>,
    extract: string -> Option<Extraction>, crashed: string -> bool, save: SaveOutcome): (run: IngestionRun)
    requires multiset(completion) == multiset(PdfFiles(listing))
    // a loadable cache (an empty list included) is returned as is, with nothing processed or saved
    ensures LoadProcessedDocuments(cache).Some? ==> run.documents == cache.documents && run.cacheAfter == cache
    // otherwise the result is a permutation of the successful records taken in listing order
    ensures LoadProcessedDocuments(cache).None? ==>
      multiset(run.documents) == multiset(Collect(PdfFiles(listing), extract, crashed))
    // every returned record comes from a successful `.pdf` file of the listing, under that file's name
    ensures LoadProcessedDocuments(cache).None? ==> forall d :: d in run.documents ==>
      && d.fileName in listing && IsPdfName(d.fileName) && Succeeds(d.fileName, extract, crashed)
      && ExtractionOf(d) == extract(d.fileName).value
    // every successful `.pdf` file of the listing has a record under its name
    ensures LoadProcessedDocuments(cache).None? ==> forall f :: f in listing && IsPdfName(f) && Succeeds(f, extract, crashed) ==>
      exists d :: d in run.documents && d.fileName == f
    // the list written to the cache is the list returned
    ensures LoadProcessedDocuments(cache).None? ==> run.cacheAfter == SaveProcessedDocuments(run.documents, cache, save)
  {
    match LoadProcessedDocuments(cache)
    case Some(docs) => IngestionRun(docs, cache)
    case None =>
      var documents := Collect(completion, extract, crashed);
      FlatMapPermutation(f => Appended(f, extract, crashed), completion, PdfFiles(listing));
      CollectMembers(completion, PdfFiles(listing), extract, crashed);
      IngestionRun(documents, SaveProcessedDocuments(documents, cache, save))
  }

  /** Membership in the collected list, whatever the completion order. */
  lemma CollectMembers(completion: seq<string>, files: seq<string>, extract: string -> Option<Extraction>, crashed: string -> bool)
    requires multiset(completion) == multiset(files)
    ensures forall d :: d in Collect(completion, extract, crashed) ==>
      d.fileName in files && Succeeds(d.fileName, extract, crashed) && ExtractionOf(d) == extract(d.fileName).value
    ensures forall f :: f in files && Succeeds(f, extract, crashed) ==>
      exists d :: d in Collect(completion, extract, crashed) && d.fileName == f
  {
    var g := f => Appended(f, extract, crashed);
    FlatMapMembers(g, completion);
    forall d | d in Collect(completion, extract, crashed)
      ensures d.fileName in files && Succeeds(d.fileName, extract, crashed) && ExtractionOf(d) == extract(d.fileName).value
    {
      var f :| f in completion && d in g(f);
      assert f in multiset(files);
    }
    forall f | f in files && Succeeds(f, extract, crashed)
      ensures exists d :: d in Collect(completion, extract, crashed) && d.fileName == f
    {
      assert f in multiset(completion);
      var d := TaskResult(f, extract, crashed).value;
      assert d in g(f);
    }
  }

  /** With the real extractor only a worker crash drops a file: every other `.pdf` file of the
      listing has a record holding its extraction, and an unreadable file keeps a record with
      empty texts and no pages, which the cache then stores. */
  lemma ProcessDocumentsWithPdfReader(
    cache: CacheFile, listing: seq<string>, completion: seq<string>,
    read: string -> Option<seq<PageRead>>, ocr: string -> Option<string>, crashed: string -> bool, save: SaveOutcome)
    requires multiset(completion) == multiset(PdfFiles(listing))
    requires LoadProcessedDocuments(cache).None?
    ensures var run := ProcessDocuments(cache, listing, completion, PdfExtractor(read, ocr), crashed, save);
      && (forall d :: d in run.documents ==> !crashed(d.fileName))
      && (forall f :: f in listing && IsPdfName(f) && !crashed(f) ==>
            exists d :: d in run.documents && d.fileName == f && ExtractionOf(d) == ExtractTextFromPdf(read(f), ocr(f)))
      && (forall f :: f in listing && IsPdfName(f) && !crashed(f) && read(f).None? ==>
            exists d :: d in run.documents && d.fileName == f && ExtractionOf(d) == EmptyExtraction)
  {
    var extract := PdfExtractor(read, ocr);
    var run := ProcessDocuments(cache, listing, completion, extract, crashed, save);
    forall f | f in listing && IsPdfName(f) && !crashed(f)
      ensures exists d :: d in run.documents && d.fileName == f && ExtractionOf(d) == ExtractTextFromPdf(read(f), ocr(f))
    {
      assert Succeeds(f, extract, crashed);
      var d :| d in run.documents && d.fileName == f;
      assert ExtractionOf(d) == extract(f).value;
    }
  }

  /** A run that finds no cache and saves its result is followed by runs that return that same
      list without looking at the directory again, whatever it then contains. */
  lemma {:induction false} SecondRunReusesCache(
    listing: seq<string>, completion: seq<string>, extract: string -> Option<Extraction>, crashed: string -> bool,
    listing': seq<string>, completion': seq<string>, extract': string -> Option<Extraction>, crashed': string -> bool,
    save': SaveOutcome)
    requires multiset(completion) == multiset(PdfFiles(listing))
    requires multiset(completion') == multiset(PdfFiles(listing'))
    ensures var first := ProcessDocuments(Missing, listing, completion, extract, crashed, Written);
      ProcessDocuments(first.cacheAfter, listing', completion', extract', crashed', save').documents == first.documents
  {
    var first := ProcessDocuments(Missing, listing, completion, extract, crashed, Written);
    assert LoadProcessedDocuments(first.cacheAfter) == Some(first.documents);
  }

  /** How a call of `process_documents` ends: it returns, `os.listdir` raises on a missing or
      unreadable directory, or the collecting loop raises `NameError`. */
  datatype CallOutcome = Returned(run: IngestionRun) | RaisedListingError | RaisedNameError

  /** `process_documents` with the directory listing as `os.listdir` gives it, `None` when it
      raises. Nothing in the function catches that error, so it ends the call (and `main`), but
      only on a cache miss: a loadable cache is returned before the directory is read. */
  function ProcessDocumentsIn(
    cache: CacheFile, listing: Option<seq<string>>, completion: seq<string>,
    extract: string -> Option<Extraction>, crashed: string -> bool, save: SaveOutcome): (r: CallOutcome)
    requires listing.Some? ==> multiset(completion) == multiset(PdfFiles(listing.value))
    ensures !r.RaisedNameError?
    ensures r.RaisedListingError? <==> LoadProcessedDocuments(cache).None? && listing.None?
    ensures LoadProcessedDocuments(cache).Some? ==> r == Returned(IngestionRun(cache.documents, cache))
    ensures listing.Some? ==> r == Returned(ProcessDocuments(cache, listing.value, completion, extract, crashed, save))
  {
    match LoadProcessedDocuments(cache)
    case Some(docs) => Returned(IngestionRun(docs, cache))
    case None =>
      if listing.None? then RaisedListingError
      else Returned(ProcessDocuments(cache, listing.value, completion, extract, crashed, save))
  }

  /** `process_documents` as written: on a cache miss the collecting loop evaluates
      `concurrent.futures.as_completed`, but the module imports only `ProcessPoolExecutor`
      from `concurrent.futures`, so the name `concurrent` is unbound and a `NameError` leaves the call
      (after the pool has run every task) before anything is returned or saved. A listing that
      fails raises first. */
  function ProcessDocumentsAsWritten(
    cache: CacheFile, listing: Option<seq<string>>, completion: seq<string>,
    extract: string -> Option<Extraction>, crashed: string -> bool, save: SaveOutcome): (r: CallOutcome)
    requires listing.Some? ==> multiset(completion) == multiset(PdfFiles(listing.value))
    ensures r.Returned? <==> cache.Stored?
    ensures r.Returned? ==> r.run.documents == cache.documents
    ensures r.RaisedListingError? <==> !cache.Stored? && listing.None?
  {
    match LoadProcessedDocuments(cache)
    case Some(docs) => Returned(IngestionRun(docs, cache))
    case None => if listing.None? then RaisedListingError else RaisedNameError
  }

  /** With no cache file and one readable PDF, the code as written raises instead of returning
      the record that the intended collection loop returns. */
  lemma AsWrittenLosesEveryMiss()
    ensures var listing := ["report.pdf"];
      var extract := (f: string) => Some(Extraction("page one\n", "", [PageText(1, "page one")]));
      var crashed := (f: string) => false;
      && ProcessDocumentsAsWritten(Missing, Some(listing), listing, extract, crashed, Written).RaisedNameError?
      && |ProcessDocuments(Missing, listing, listing, extract, crashed, Written).documents| == 1
  {
    var listing := ["report.pdf"];
    var extract := (f: string) => Some(Extraction("page one\n", "", [PageText(1, "page one")]));
    var crashed := (f: string) => false;
    assert IsPdfName(listing[0]);
    assert PdfFiles(listing) == listing by {
      assert listing[1..] == [];
    }
    var run := ProcessDocuments(Missing, listing, listing, extract, crashed, Written);
    assert Collect(listing, extract, crashed) == [Document("report.pdf", "page one\n", "", [PageText(1, "page one")])] by {
      assert listing[1..] == [];
    }
    assert |multiset(run.documents)| == 1;
  }
}
