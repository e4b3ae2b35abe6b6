/** The `/extract-bill-data` endpoint (app/main.py): check that a model key is
    configured, turn the uploaded file or the downloaded document into page
    images, extract every page, and answer with the pages, the token usage
    and the item count, or with an HTTP error status and detail. */
module BillApi {

  import opened Wrappers
  import opened Text
  import opened Models
  import opened DocumentProcessor
  import opened LlmService

  /** An uploaded file: its bytes and the name the client gave, if any. */
  datatype Upload = Upload(content: Bytes, filename: Option<string>)

  /** The two optional form fields of the request. */
  datatype Request = Request(file: Option<Upload>, document: Option<string>)

  /** What the endpoint reads from outside: the `GOOGLE_API_KEY` setting, the
      download of a URL, the PDF renderer and the hosted model. */
  datatype Environment = Environment(
    apiKey: Option<string>,
    fetch: string -> Result<Bytes, Error>,
    renderer: Renderer,
    backend: Backend)

  /** The response body, or the `HTTPException` the endpoint raises. */
  datatype Outcome = Ok(response: ExtractBillResponse) | Rejected(statusCode: nat, detail: string)

  const KeyMissing: string := "Google API key not configured"
  const NoInput: string := "Provide either 'file' or 'document' URL"
  const DownloadPrefix: string := "Failed to download document: "

  /** `if not api_key`: an unset or empty key is missing. */
  predicate KeyConfigured(apiKey: Option<string>) {
    apiKey.Some? && apiKey.value != []
  }

  /** `file.filename or ""` */
  function NameHint(u: Upload): string {
    if u.filename.Some? then u.filename.value else ""
  }

  /** `if file: … elif document: … else: raise`: an upload wins over a URL,
      and an empty URL counts as none. */
  function SelectPages(req: Request, env: Environment): (r: Result<seq<Bytes>, Error>)
    ensures req.file.Some? ==> r == ProcessUploadedFile(req.file.value.content, NameHint(req.file.value), env.renderer)
    ensures req.file.None? && req.document.Some? && req.document.value != [] ==>
      r == ProcessDocument(req.document.value, env.fetch, env.renderer)
    ensures req.file.None? && (req.document.None? || req.document.value == []) ==>
      r == Failure(HttpException(400, NoInput))
  {
    if req.file.Some? then ProcessUploadedFile(req.file.value.content, NameHint(req.file.value), env.renderer)
    else if req.document.Some? && req.document.value != [] then ProcessDocument(req.document.value, env.fetch, env.renderer)
    else Failure(HttpException(400, NoInput))
  }

  /** `sum(len(page.bill_items) for page in pages)`: zero exactly when no
      page has an item. */
  function TotalItemCount(pages: seq<PageLineItems>): (r: nat)
    ensures r == 0 <==> forall k :: 0 <= k < |pages| ==> pages[k].billItems == []
  {
    if pages == [] then 0 else |pages[0].billItems| + TotalItemCount(pages[1..])
  }

  /** The items of all pages, page after page. */
  function AllItems(pages: seq<PageLineItems>): seq<BillItem> {
    if pages == [] then [] else pages[0].billItems + AllItems(pages[1..])
  }

  /** The count is the number of items the response carries in all. */
  lemma {:induction false} TotalItemCountIsAllItems(pages: seq<PageLineItems>)
    ensures TotalItemCount(pages) == |AllItems(pages)|
  {
    if pages != [] {
      TotalItemCountIsAllItems(pages[1..]);
    }
  }

  /** Counting the pages in two parts and adding gives the same total. */
  lemma {:induction false} TotalItemCountAppend(a: seq<PageLineItems>, b: seq<PageLineItems>)
    ensures TotalItemCount(a + b) == TotalItemCount(a) + TotalItemCount(b)
  {
    if a != [] {
      assert (a + b)[1..] == a[1..] + b;
      TotalItemCountAppend(a[1..], b);
    } else {
      assert a + b == b;
    }
  }

  /** Lines 46-58: extract every page with a fresh service and assemble the
      response from the pages, the service's counters and the item count.
      `extract` is what that `LLMService` does with one page
      (`ModelExtractor(backend)` for the hosted model). */
  function Respond(images: seq<Bytes>, extract: Extractor): (r: Result<ExtractBillResponse, Error>)
    ensures r.Success? <==> AllPagesSucceed(images, 1, extract)
  {
    ExtractRunSucceedsIff(images, 1, extract, TokenUsage(0, 0, 0));
    var run := ExtractRun(images, 1, extract, TokenUsage(0, 0, 0));
    match run.pages
    case Failure(e) => Failure(e)
    case Success(pages) => Success(ExtractBillResponse(true, run.usage, ExtractedData(pages, TotalItemCount(pages))))
  }

  /** The body of the `try`: the response, or the exception that escapes.
      The key is checked before the input is looked at. */
  function Handle(req: Request, env: Environment, extract: Extractor): (r: Result<ExtractBillResponse, Error>)
    ensures !KeyConfigured(env.apiKey) ==> r == Failure(HttpException(500, KeyMissing))
    ensures KeyConfigured(env.apiKey) && SelectPages(req, env).Failure? ==> r == Failure(SelectPages(req, env).error)
    ensures KeyConfigured(env.apiKey) && SelectPages(req, env).Success? ==> r == Respond(SelectPages(req, env).value, extract)
  {
    if !KeyConfigured(env.apiKey) then Failure(HttpException(500, KeyMissing))
    else
      var images :- SelectPages(req, env);
      Respond(images, extract)
  }

  /** The two `except` clauses: an `httpx.HTTPError` becomes status 400 with
      the download prefix; every other exception, an `HTTPException` raised
      in the `try` included, becomes status 500 with `str(e)` as detail. */
  function Answer(result: Result<ExtractBillResponse, Error>): (r: Outcome)
    ensures r.Ok? <==> result.Success?
    ensures r.Ok? ==> r.response == result.value
    ensures r.Rejected? ==> (r.statusCode == 400 <==> result.error.DownloadError?)
    ensures r.Rejected? ==> (r.statusCode == 500 <==> !result.error.DownloadError?)
    ensures r.Rejected? && result.error.DownloadError? ==> r.detail == DownloadPrefix + result.error.message
    ensures r.Rejected? && !result.error.DownloadError? ==> r.detail == ErrorText(result.error)
  {
    match result
    case Success(response) => Ok(response)
    case Failure(e) =>
      if e.DownloadError? then Rejected(400, DownloadPrefix + e.message)
      else Rejected(500, ErrorText(e))
  }

  /** `extract_bill_data`: a response exactly when the key is set, the input
      yields page images and every page extracts. */
  function ExtractBillData(req: Request, env: Environment, extract: Extractor): (r: Outcome)
    ensures r.Ok? <==>
      KeyConfigured(env.apiKey) && SelectPages(req, env).Success?
      && AllPagesSucceed(SelectPages(req, env).value, 1, extract)
    ensures r.Ok? ==> r.response == Respond(SelectPages(req, env).value, extract).value
    ensures r.Rejected? ==> r.statusCode == 400 || r.statusCode == 500
  {
    Answer(Handle(req, env, extract))
  }

  lemma StatusText()
    ensures NatToString(400) == "400" && NatToString(500) == "500"
  {
    assert NatToString(4) == "4" && NatToString(5) == "5";
    assert NatToString(40) == "40" && NatToString(50) == "50";
  }

  /** The key is checked first: without it every request is answered 500,
      whatever the inputs, even none at all. */
  lemma MissingKeyRejected(req: Request, env: Environment, extract: Extractor)
    requires !KeyConfigured(env.apiKey)
    ensures ExtractBillData(req, env, extract) == Rejected(500, "500: " + KeyMissing)
  {
    StatusText();
  }

  /** Neither a file nor a URL: the 400 raised inside the `try` is caught
      again and answered as 500, its status written into the detail. */
  lemma NoInputRejected(req: Request, env: Environment, extract: Extractor)
    requires KeyConfigured(env.apiKey)
    requires req.file.None? && (req.document.None? || req.document.value == [])
    ensures ExtractBillData(req, env, extract) == Rejected(500, "400: " + NoInput)
  {
    StatusText();
  }

  /** With an upload present the URL is never looked at. */
  lemma FilePreferred(u: Upload, url: Option<string>, env: Environment, extract: Extractor)
    ensures ExtractBillData(Request(Some(u), url), env, extract) == ExtractBillData(Request(Some(u), None), env, extract)
  {
  }

  /** A download that fails with an HTTP error is answered 400, with the
      error's message after the prefix. */
  lemma DownloadFailureRejected(url: string, env: Environment, extract: Extractor, message: string)
    requires KeyConfigured(env.apiKey) && url != []
    requires env.fetch(url) == Failure(DownloadError(message))
    ensures ExtractBillData(Request(None, Some(url)), env, extract) == Rejected(400, DownloadPrefix + message)
  {
  }

  /** A page that fails ends the request with the first failing page's
      exception; the pages before it are not returned. */
  lemma PageFailureRejected(images: seq<Bytes>, extract: Extractor, k: nat)
    requires k < |images|
    requires extract(images[k], k + 1).page.Failure?
    requires forall j :: 0 <= j < k ==> extract(images[j], j + 1).page.Success?
    ensures Respond(images, extract) == Failure(extract(images[k], k + 1).page.error)
  {
    forall j | 0 <= j < k
      ensures extract(images[j], 1 + j).page.Success?
    {
      assert 1 + j == j + 1;
    }
    assert 1 + k == k + 1;
    ExtractRunFailure(images, 1, extract, TokenUsage(0, 0, 0), k);
  }

  /** A successful response carries one page per image in image order, each
      the page its image yields, the usage summed over every model call, and
      the number of items over all pages. */
  lemma SuccessfulResponse(images: seq<Bytes>, extract: Extractor)
    requires Respond(images, extract).Success?
    ensures var resp := Respond(images, extract).value;
      && resp.isSuccess
      && resp.data.pagewiseLineItems == ExtractRun(images, 1, extract, TokenUsage(0, 0, 0)).pages.value
      && |resp.data.pagewiseLineItems| == |images|
      && (forall k :: 0 <= k < |images| ==>
            extract(images[k], 1 + k).page == Success(resp.data.pagewiseLineItems[k]))
      && resp.tokenUsage == SumUsage(TokenUsage(0, 0, 0), images, 1, extract)
      && resp.data.totalItemCount == |AllItems(resp.data.pagewiseLineItems)|
  {
    ExtractRunPages(images, 1, extract, TokenUsage(0, 0, 0));
    TotalItemCountIsAllItems(ExtractRun(images, 1, extract, TokenUsage(0, 0, 0)).pages.value);
  }

  /** Images taken in two parts, say two documents' pages one after the
      other, give the first part's pages followed by the second's, numbered
      on; the item count and the token usage add up part by part. */
  lemma ResponseOfParts(a: seq<Bytes>, b: seq<Bytes>, extract: Extractor)
    requires AllPagesSucceed(a + b, 1, extract)
    ensures var ra := ExtractRun(a, 1, extract, TokenUsage(0, 0, 0));
      var rb := ExtractRun(b, 1 + |a|, extract, ra.usage);
      && ra.pages.Success? && rb.pages.Success?
      && Respond(a + b, extract).Success?
      && Respond(a + b, extract).value.data.pagewiseLineItems == ra.pages.value + rb.pages.value
      && Respond(a + b, extract).value.data.totalItemCount == TotalItemCount(ra.pages.value) + TotalItemCount(rb.pages.value)
      && Respond(a + b, extract).value.tokenUsage ==
           SumUsage(SumUsage(TokenUsage(0, 0, 0), a, 1, extract), b, 1 + |a|, extract)
  {
    var zero := TokenUsage(0, 0, 0);
    PartsSucceed(a, b, 1, extract, zero);
    ExtractRunAppend(a, b, 1, extract, zero);
    var ra := ExtractRun(a, 1, extract, zero);
    var rb := ExtractRun(b, 1 + |a|, extract, ra.usage);
    var run := ExtractRun(a + b, 1, extract, zero);
    assert run.pages == Success(ra.pages.value + rb.pages.value);
    TotalItemCountAppend(ra.pages.value, rb.pages.value);
    ExtractRunPages(a + b, 1, extract, zero);
    SumUsageAppend(zero, a, b, 1, extract);
  }

  /** With the hosted model, the k-th page of a successful response is
      numbered k + 1. */
  lemma ModelResponseNumbering(images: seq<Bytes>, b: Backend)
    requires Respond(images, ModelExtractor(b)).Success?
    ensures var pages := Respond(images, ModelExtractor(b)).value.data.pagewiseLineItems;
      && |pages| == |images|
      && forall k :: 0 <= k < |pages| ==> pages[k].pageNo == NatToString(k + 1)
  {
    var extract := ModelExtractor(b);
    ModelNumbersPages(b);
    RunNumbering(images, 1, extract, TokenUsage(0, 0, 0));
    var pages := ExtractRun(images, 1, extract, TokenUsage(0, 0, 0)).pages.value;
    forall k | 0 <= k < |pages|
      ensures pages[k].pageNo == NatToString(k + 1)
    {
      assert 1 + k == k + 1;
    }
  }

  /** A single image upload that is not a PDF is one page extraction: its
      page, that call's usage, and its items counted. */
  lemma ImageUploadOnePage(u: Upload, env: Environment, extract: Extractor, page: PageLineItems,
                           reported: Option<UsageMetadata>)
    requires KeyConfigured(env.apiKey)
    requires !IsPdf(u.content, NameHint(u))
    requires extract(u.content, 1) == PageStep(Success(page), reported)
    ensures ExtractBillData(Request(Some(u), None), env, extract) ==
      Ok(ExtractBillResponse(true, AddUsage(TokenUsage(0, 0, 0), reported), ExtractedData([page], |page.billItems|)))
  {
    var images := [u.content];
    assert SelectPages(Request(Some(u), None), env) == Success(images);
    var usage := AddUsage(TokenUsage(0, 0, 0), reported);
    assert ExtractRun(images[1..], 2, extract, usage) == Run(Success([]), usage);
    assert [page] + [] == [page];
    assert ExtractRun(images, 1, extract, TokenUsage(0, 0, 0)) == Run(Success([page]), usage);
    assert TotalItemCount([page]) == |page.billItems| + TotalItemCount([]);
  }

  /** The endpoint as it runs: the pages are selected, a fresh `LLMService`
      over the hosted model extracts them, and its counters become the
      response's token usage. */
  method ServeRequest(req: Request, env: Environment) returns (outcome: Outcome)
    ensures outcome == ExtractBillData(req, env, ModelExtractor(env.backend))
  {
    if !KeyConfigured(env.apiKey) {
      return Answer(Failure(HttpException(500, KeyMissing)));
    }
    var images := SelectPages(req, env);
    if images.Failure? {
      return Answer(Failure(images.error));
    }
    var service := new LLMService(env.backend);
    var pages := service.ExtractFromImages(images.value);
    if pages.Failure? {
      return Answer(Failure(pages.error));
    }
    var usage := service.GetTokenUsage();
    var total := TotalItemCount(pages.value);
    return Ok(ExtractBillResponse(true, usage, ExtractedData(pages.value, total)));
  }
}
