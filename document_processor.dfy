/** Turning a document into page images (app/document_processor.py): a PDF,
    recognised by its signature or by its name, is rendered page by page;
    anything else is passed on whole as the only page. */
module DocumentProcessor {

  import opened Wrappers
  import opened Text
  import opened Models

  /** The PDF library, seen from outside: `open` reads a document and reports
      its page count, `renderPage(pdf, k)` renders page `k` (0-based) as a PNG.
      Either may raise. */
  datatype Renderer = Renderer(open: Bytes -> Result<nat, Error>, renderPage: (Bytes, nat) -> Result<Bytes, Error>)

  /** `b'%PDF'` */
  const PdfSignature: Bytes := [0x25, 0x50, 0x44, 0x46]

  /** `content[:4] == b'%PDF'`; a slice of shorter content is shorter than the
      signature and so never equal to it. */
  predicate HasPdfSignature(content: Bytes)
    ensures HasPdfSignature(content) <==> |content| >= 4 && content[..4] == PdfSignature
  {
    (if |content| <= 4 then content else content[..4]) == PdfSignature
  }

  /** `hint.lower().endswith('.pdf')`: the hint ends in ".pdf" in any letter case. */
  predicate HasPdfSuffix(hint: string)
    ensures HasPdfSuffix(hint) <==>
      |hint| >= 4 && hint[|hint| - 4] == '.' && hint[|hint| - 3] in "pP"
      && hint[|hint| - 2] in "dD" && hint[|hint| - 1] in "fF"
  {
    var low := Lower(hint);
    assert |low| >= 4 ==>
      (low[|low| - 4..] == ".pdf" <==>
       low[|low| - 4] == '.' && low[|low| - 3] == 'p' && low[|low| - 2] == 'd' && low[|low| - 1] == 'f');
    EndsWith(low, ".pdf")
  }

  /** The routing test at app/document_processor.py:47 and :60. */
  predicate IsPdf(content: Bytes, hint: string)
    ensures IsPdf(content, hint) <==> HasPdfSignature(content) || HasPdfSuffix(hint)
    ensures |content| < 4 ==> (IsPdf(content, hint) <==> HasPdfSuffix(hint))
  {
    HasPdfSignature(content) || HasPdfSuffix(hint)
  }

  /** What `pdf_to_images` computes: the images of pages `from` .. `count - 1`
      in page order, or the error of the first page that fails to render. */
  function RenderRange(pdf: Bytes, r: Renderer, from: nat, count: nat): (res: Result<seq<Bytes>, Error>)
    requires from <= count
    decreases count - from
    ensures res.Success? <==> forall k :: from <= k < count ==> r.renderPage(pdf, k).Success?
    ensures res.Success? ==>
      (|res.value| == count - from
       && forall k :: from <= k < count ==> r.renderPage(pdf, k) == Success(res.value[k - from]))
    ensures res.Failure? ==>
      (exists k :: from <= k < count && r.renderPage(pdf, k) == Failure(res.error)
                   && forall j :: from <= j < k ==> r.renderPage(pdf, j).Success?)
  {
    if from == count then Success([])
    else
      match r.renderPage(pdf, from)
      case Failure(e) => Failure(e)
      case Success(image) =>
        match RenderRange(pdf, r, from + 1, count)
        case Success(rest) => Success([image] + rest)
        case Failure(e) => Failure(e)
  }

  /** The whole document: one image per page, or the first error. */
  function RenderPages(pdf: Bytes, r: Renderer): (res: Result<seq<Bytes>, Error>)
    ensures r.open(pdf).Failure? ==> res == Failure(r.open(pdf).error)
    ensures res.Success? ==>
      && r.open(pdf).Success? && |res.value| == r.open(pdf).value
      && forall k :: 0 <= k < |res.value| ==> r.renderPage(pdf, k) == Success(res.value[k])
    ensures r.open(pdf).Success? && res.Failure? ==>
      exists k :: 0 <= k < r.open(pdf).value && r.renderPage(pdf, k) == Failure(res.error)
                  && forall j :: 0 <= j < k ==> r.renderPage(pdf, j).Success?
  {
    match r.open(pdf)
    case Failure(e) => Failure(e)
    case Success(count) => RenderRange(pdf, r, 0, count)
  }

  /** `pdf_to_images`: opens the document and appends each page's image in
      page order; the first exception ends the loop. */
  method PdfToImages(pdf: Bytes, r: Renderer) returns (res: Result<seq<Bytes>, Error>)
    ensures res == RenderPages(pdf, r)
    ensures res.Success? ==> r.open(pdf).Success? && |res.value| == r.open(pdf).value
  {
    var doc := r.open(pdf);
    if doc.Failure? {
      return Failure(doc.error);
    }
    var count := doc.value;
    var images: seq<Bytes> := [];
    var pageNum := 0;
    assert Prefixed([], RenderRange(pdf, r, 0, count)) == RenderRange(pdf, r, 0, count) by {
      if RenderRange(pdf, r, 0, count).Success? {
        assert [] + RenderRange(pdf, r, 0, count).value == RenderRange(pdf, r, 0, count).value;
      }
    }
    while pageNum < count
      invariant 0 <= pageNum <= count
      invariant RenderRange(pdf, r, 0, count) == Prefixed(images, RenderRange(pdf, r, pageNum, count))
    {
      var image := r.renderPage(pdf, pageNum);
      if image.Failure? {
        return Failure(image.error);
      }
      var rest := RenderRange(pdf, r, pageNum + 1, count);
      if rest.Success? {
        assert images + ([image.value] + rest.value) == (images + [image.value]) + rest.value;
      }
      images := images + [image.value];
      pageNum := pageNum + 1;
    }
    assert images + [] == images;
    return Success(images);
  }

  /** `process_uploaded_file`: a PDF goes to the renderer, anything else is
      the single page `[content]`, bytes unchanged. */
  function ProcessUploadedFile(content: Bytes, filename: string, r: Renderer): (res: Result<seq<Bytes>, Error>)
    ensures HasPdfSignature(content) ==> res == RenderPages(content, r)
    ensures HasPdfSuffix(filename) ==> res == RenderPages(content, r)
    ensures !IsPdf(content, filename) ==> res == Success([content])
  {
    if IsPdf(content, filename) then RenderPages(content, r) else Success([content])
  }

  /** `process_document`: download, then route the bytes with the URL as the
      name hint. A failed download is the result as it is. */
  function ProcessDocument(url: string, fetch: string -> Result<Bytes, Error>, r: Renderer): (res: Result<seq<Bytes>, Error>)
    ensures fetch(url).Failure? ==> res == Failure(fetch(url).error)
    ensures fetch(url).Success? ==> res == ProcessUploadedFile(fetch(url).value, url, r)
  {
    var content :- fetch(url);
    ProcessUploadedFile(content, url, r)
  }
}
