/** `extract_text_from_pdf`: per-page native text extraction plus whole-document OCR text.
    The PDF reader and the OCR engine are not modelled; their results are inputs. */
module PdfPreprocessing {
  import opened Wrappers

  /** One element of `page_texts`: a 1-based page number and the text extracted from that page. */
  datatype PageText = PageText(page: int, text: string)

  /** What `page.extract_text()` gives for one page: a string (possibly empty), nothing, or an exception. */
  datatype PageRead = Extracted(text: string) | NoText | Failed

  /** The triple `(text, images_text, page_texts)`. */
  datatype Extraction = Extraction(text: string, imagesText: string, pageTexts: seq<PageText>)

  /** The result on any failure: `("", "", [])`. */
  const EmptyExtraction := Extraction("", "", [])

  /** Python truthiness of the page text: only a non-empty string counts, whitespace included. */
  predicate HasText(p: PageRead) {
    p.Extracted? && p.text != ""
  }

  predicate AnyFailed(pages: seq<PageRead>) {
    exists k :: 0 <= k < |pages| && pages[k].Failed?
  }

  /** The combined text: every kept page's text followed by a newline, in order. */
  function Lines(pts: seq<PageText>): (text: string)
    ensures text == [] <==> pts == []
  {
    if pts == [] then "" else Lines(pts[..|pts| - 1]) + pts[|pts| - 1].text + "\n"
  }

  /** Each entry of `pts` names a page of `pages` (1-based) with text, and carries exactly that text. */
  ghost predicate EntriesFromPages(pts: seq<PageText>, pages: seq<PageRead>, bound: int) {
    forall j :: 0 <= j < |pts| ==>
      && 1 <= pts[j].page <= bound <= |pages|
      && HasText(pages[pts[j].page - 1])
      && pts[j].text == pages[pts[j].page - 1].text
  }

  ghost predicate StrictlyIncreasing(pts: seq<PageText>) {
    forall i, j :: 0 <= i < j < |pts| ==> pts[i].page < pts[j].page
  }

  /** Every page before `bound` that has text is listed in `pts`. */
  ghost predicate CoversPages(pts: seq<PageText>, pages: seq<PageRead>, bound: int) {
    forall k :: 0 <= k < bound && k < |pages| && HasText(pages[k]) ==>
      exists j :: 0 <= j < |pts| && pts[j].page == k + 1
  }

  /** Appending page `k + 1` after the pages before it keeps the page-list invariants. */
  lemma AppendPage(pts: seq<PageText>, pages: seq<PageRead>, k: nat)
    requires k < |pages| && HasText(pages[k])
    requires EntriesFromPages(pts, pages, k) && StrictlyIncreasing(pts) && CoversPages(pts, pages, k)
    ensures var pts' := pts + [PageText(k + 1, pages[k].text)];
      && EntriesFromPages(pts', pages, k + 1)
      && StrictlyIncreasing(pts')
      && CoversPages(pts', pages, k + 1)
      && Lines(pts') == Lines(pts) + pages[k].text + "\n"
  {
    var pts' := pts + [PageText(k + 1, pages[k].text)];
    assert pts'[..|pts'| - 1] == pts;
    AppendEntries(pts, pages, k);
    AppendIncreasing(pts, pages, k, pages[k].text);
    AppendCovers(pts, pages, k);
  }

  lemma AppendEntries(pts: seq<PageText>, pages: seq<PageRead>, k: nat)
    requires k < |pages| && HasText(pages[k])
    requires EntriesFromPages(pts, pages, k)
    ensures EntriesFromPages(pts + [PageText(k + 1, pages[k].text)], pages, k + 1)
  {
  }

  lemma AppendIncreasing(pts: seq<PageText>, pages: seq<PageRead>, k: nat, t: string)
    requires k < |pages|
    requires EntriesFromPages(pts, pages, k) && StrictlyIncreasing(pts)
    ensures StrictlyIncreasing(pts + [PageText(k + 1, t)])
  {
    var pts' := pts + [PageText(k + 1, t)];
    forall i, j | 0 <= i < j < |pts'| ensures pts'[i].page < pts'[j].page {
      if j < |pts| {
        assert pts'[i] == pts[i] && pts'[j] == pts[j];
      } else {
        assert pts'[i] == pts[i];
      }
    }
  }

  lemma AppendCovers(pts: seq<PageText>, pages: seq<PageRead>, k: nat)
    requires k < |pages| && HasText(pages[k])
    requires CoversPages(pts, pages, k)
    ensures CoversPages(pts + [PageText(k + 1, pages[k].text)], pages, k + 1)
  {
    var pts' := pts + [PageText(k + 1, pages[k].text)];
    forall i | 0 <= i < k + 1 && i < |pages| && HasText(pages[i])
      ensures exists j :: 0 <= j < |pts'| && pts'[j].page == i + 1
    {
      if i == k {
        assert pts'[|pts|].page == k + 1;
      } else {
        var j :| 0 <= j < |pts| && pts[j].page == i + 1;
        assert pts'[j].page == i + 1;
      }
    }
  }

  /** Passing over page `k + 1` without text keeps the invariants. */
  lemma SkipPage(pts: seq<PageText>, pages: seq<PageRead>, k: nat)
    requires k < |pages| && !HasText(pages[k])
    requires EntriesFromPages(pts, pages, k) && CoversPages(pts, pages, k)
    ensures EntriesFromPages(pts, pages, k + 1) && CoversPages(pts, pages, k + 1)
  {
  }

  /** `pts` lists exactly the pages with text among the first `bound` pages, in page order. */
  ghost predicate PageList(pts: seq<PageText>, pages: seq<PageRead>, bound: int) {
    EntriesFromPages(pts, pages, bound) && StrictlyIncreasing(pts) && CoversPages(pts, pages, bound)
  }

  /** The `page_texts` list built from the pages, one page at a time. */
  function KeptPages(pages: seq<PageRead>): seq<PageText> {
    if pages == [] then []
    else
      var k := |pages| - 1;
      KeptPages(pages[..k]) + (if HasText(pages[k]) then [PageText(k + 1, pages[k].text)] else [])
  }

  /** A page list for a prefix of the pages is a page list for that many pages of the whole. */
  lemma PageListWiden(pts: seq<PageText>, init: seq<PageRead>, pages: seq<PageRead>)
    requires |init| <= |pages| && pages[..|init|] == init
    requires PageList(pts, init, |init|)
    ensures PageList(pts, pages, |init|)
  {
    forall j | 0 <= j < |pts| ensures pages[pts[j].page - 1] == init[pts[j].page - 1] {
      assert pages[..|init|][pts[j].page - 1] == pages[pts[j].page - 1];
    }
    forall k | 0 <= k < |init| ensures pages[k] == init[k] {
      assert pages[..|init|][k] == pages[k];
    }
  }

  /** `KeptPages` lists exactly the pages that have text, with their 1-based numbers, in page order. */
  lemma {:induction false} KeptPagesIsPageList(pages: seq<PageRead>)
    ensures PageList(KeptPages(pages), pages, |pages|)
  {
    if pages != [] {
      var k := |pages| - 1;
      var init := pages[..k];
      KeptPagesIsPageList(init);
      PageListWiden(KeptPages(init), init, pages);
      KeptPagesStep(pages);
    }
  }

  lemma KeptPagesStep(pages: seq<PageRead>)
    requires pages != []
    requires PageList(KeptPages(pages[..|pages| - 1]), pages, |pages| - 1)
    ensures PageList(KeptPages(pages), pages, |pages|)
  {
    var k := |pages| - 1;
    var pts := KeptPages(pages[..k]);
    if HasText(pages[k]) {
      var pts' := pts + [PageText(k + 1, pages[k].text)];
      assert KeptPages(pages) == pts';
      AppendPage(pts, pages, k);
      assert PageList(pts', pages, k + 1);
    } else {
      assert KeptPages(pages) == pts + [] == pts;
      SkipPage(pts, pages, k);
      assert PageList(pts, pages, k + 1);
    }
  }

  /** The combined text of `KeptPages` grows page by page like the text accumulator. */
  lemma LinesOfKeptPages(pages: seq<PageRead>, k: nat)
    requires k < |pages|
    ensures pages[..k + 1][..k] == pages[..k]
    ensures Lines(KeptPages(pages[..k + 1])) ==
      Lines(KeptPages(pages[..k])) + (if HasText(pages[k]) then pages[k].text + "\n" else "")
  {
    assert pages[..k + 1][..k] == pages[..k];
    var pts := KeptPages(pages[..k]);
    if HasText(pages[k]) {
      assert (pts + [PageText(k + 1, pages[k].text)])[..|pts|] == pts;
    } else {
      assert pts + [] == pts;
    }
  }

  /** The page loop: stops with `ok == false` at the first page whose extraction raises. */
  method ScanPages(pages: seq<PageRead>) returns (ok: bool, text: string, pts: seq<PageText>)
    ensures ok <==> !AnyFailed(pages)
    ensures ok ==> pts == KeptPages(pages) && text == Lines(pts)
  {
    text := "";
    pts := [];
    var k := 0;
    while k < |pages|
      invariant 0 <= k <= |pages|
      invariant forall i :: 0 <= i < k ==> !pages[i].Failed?
      invariant pts == KeptPages(pages[..k])
      invariant text == Lines(pts)
    {
      if pages[k].Failed? {
        return false, text, pts;
      }
      LinesOfKeptPages(pages, k);
      if HasText(pages[k]) {
        var t := pages[k].text;
        text := text + t + "\n";
        pts := pts + [PageText(k + 1, t)];
      }
      k := k + 1;
    }
    assert pages[..k] == pages;
    ok := true;
  }

  /** `extract_text_from_pdf`. `document` is `None` when the file cannot be opened or parsed;
      otherwise it holds what the reader gives for each page. `ocr` is what the OCR stage
      returned for the whole file, or `None` when it raised: its `pdf2image` import sits outside
      its own `try` (`utils/ocr.py:43`), and the native text is then lost with the rest. The page
      loop is `ScanPages`, whose entries and text are `KeptPages` and `Lines`. */
  function ExtractTextFromPdf(document: Option<seq<PageRead>>, ocr: Option<string>): (r: Extraction)
    ensures document.None? || ocr.None? ==> r == EmptyExtraction
    ensures document.Some? && AnyFailed(document.value) ==> r == EmptyExtraction
    ensures document.Some? && !AnyFailed(document.value) && ocr.Some? ==>
      && r.imagesText == ocr.value
      && PageList(r.pageTexts, document.value, |document.value|)
      && r.text == Lines(r.pageTexts)
      && (r.text == "" <==> r.pageTexts == [])
  {
    if document.None? || ocr.None? || AnyFailed(document.value) then EmptyExtraction
    else
      var pts := KeptPages(document.value);
      KeptPagesIsPageList(document.value);
      Extraction(Lines(pts), ocr.value, pts)
  }
}
