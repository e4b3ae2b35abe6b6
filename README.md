# Bill Extraction API — a Dafny model of its core

The Bill Extraction API takes a bill as an uploaded file or as a URL. It
turns the bill into page images and asks a hosted vision model, page by page,
for the line items on each page. The answer holds the pages in order, the
token usage the model reported, and the total number of items. This project
models the logic between those external services, and proves what it
promises:

- **Routing a document into pages** (`DocumentProcessor`, app/document_processor.py):
  - the `%PDF` signature and `.pdf` name sniff;
  - the page loop of `pdf_to_images`, run against an abstract renderer;
  - the single-image fallback `[content]`.
- **Per-page extraction** (`LlmService`, app/llm_service.py):
  - cleanup of the model's reply (strip, code fence, `json` tag);
  - building a `PageLineItems` from the parsed JSON, with its defaults and
    its validation failures;
  - the `LLMService` class, whose three counters grow by each reported usage;
  - the `extract_from_images` loop, which numbers pages from 1.
- **The endpoint** (`BillApi`, app/main.py):
  - the key check, then input selection (file before URL);
  - extraction of the pages and the item-count sum;
  - the mapping of exceptions to status 400 or 500.
- **Shared pieces:**
  - `Models` (app/models.py): the records;
  - `Text`: the ASCII parts of Python's `str` that the code relies on;
  - `Wrappers`: `Option` and `Result`, where a `Failure` stands for a raised exception.

Each external collaborator is a function value held in a datatype. The model
assumes nothing about it, so every property holds for every collaborator:

- `Renderer(open, renderPage)` is PyMuPDF;
- `Backend(generate, loads)` is `Image.open` with the model call, and
  `json.loads`;
- `fetch` is `download_document`.

The per-page step of a run is an `Extractor`. `ModelExtractor(backend)` is
the one an `LLMService` implements. The run and endpoint lemmas hold for
every extractor.

Where the code and its prose description differ, the model follows the code:

- **Missing item fields.** A bill item missing `item_rate` or
  `item_quantity` fails validation: `BillItem` declares no defaults. There
  is no 0.0 default.
- **No input given.** The 400 "Provide either 'file' or 'document' URL" is
  raised inside the `try`. The generic handler catches it again, so the
  client gets status 500 with detail "400: Provide …". The same rewrap turns
  the missing key's detail into "500: Google API key not configured".
- **Both inputs given.** They are not rejected: the file is used and the URL
  is ignored.
- **A PDF with zero pages.** It yields an empty page list, and the request
  succeeds with no pages.

## Model

| member | source | states |
|---|---|---|
| Text.Strip | app/llm_service.py:70 | `strip` keeps a slice with no whitespace at either end, and only whitespace lies outside it |
| Text.StripOfStripped | app/llm_service.py:76 | text without whitespace at its ends is left unchanged by `strip` |
| Text.StripIdempotent | app/llm_service.py:76 | stripping twice equals stripping once |
| Text.StripSurrounded | app/llm_service.py:70 | `strip` removes exactly the whitespace padding around a stripped text |
| Text.FindFrom | app/llm_service.py:73 | returns the first occurrence of the pattern at or after `from`, or none when there is none |
| Text.NatToString | app/llm_service.py:81 | `str(n)` is a non-empty string of decimal digits with no leading zero |
| Text.ParseNatToString | app/llm_service.py:81 | reading `str(n)` back as a decimal gives `n` |
| Text.NatToStringInjective | app/llm_service.py:81 | different page numbers get different `page_no` strings |
| Models.ErrorText | app/main.py:62-64 | an `HTTPException` prints as its decimal status, ": ", then its detail, and the status reads back from the text; other errors print their message |
| Models.ParsePageType | app/models.py:14 | a string is accepted exactly when it is one of the three literals, and parses to the type with that literal |
| Models.ParsePageTypeLiteral | app/models.py:14 | every page type is accepted back from its own literal |
| DocumentProcessor.HasPdfSignature | app/document_processor.py:60 | `content[:4] == b'%PDF'` holds exactly when there are at least four bytes and those four are the signature |
| DocumentProcessor.HasPdfSuffix | app/document_processor.py:60 | the lower-cased hint ends in ".pdf" exactly when its last four characters are '.', 'p'/'P', 'd'/'D', 'f'/'F' |
| DocumentProcessor.IsPdf | app/document_processor.py:60 | PDF iff signature or suffix; content shorter than four bytes is a PDF only through the name |
| DocumentProcessor.RenderRange | app/document_processor.py:22-28 | success iff every page renders; then one image per page in page order; otherwise the error of the first failing page |
| DocumentProcessor.RenderPages | app/document_processor.py:17-31 | a document that cannot be opened fails with that error; a success has one image per page, the k-th being page k's rendering; otherwise the first page that fails gives the error |
| DocumentProcessor.PdfToImages | app/document_processor.py:17-31 | the loop returns exactly `RenderPages`: as many images as the document has pages, or the first exception |
| DocumentProcessor.ProcessUploadedFile | app/document_processor.py:54-64 | signature or `.pdf` name goes to the renderer whatever the other says; otherwise the result is `[content]`, bytes unchanged |
| DocumentProcessor.ProcessDocument | app/document_processor.py:39-51 | a failed download is the result; otherwise the downloaded bytes are routed as an upload named by the URL |
| LlmService.FenceBody | app/llm_service.py:73 | `split("```")[1]`: the text right after the opening fence, up to the next fence or the end, and holding no fence |
| LlmService.CleanReply | app/llm_service.py:69-76 | the cleaned reply has no whitespace at either end and does not begin with a fence |
| LlmService.Untag | app/llm_service.py:74-75 | a body starting with `json` is that tag followed by the result; any other body is unchanged |
| LlmService.CleanReplyUnfenced | app/llm_service.py:70-76 | without an opening fence, cleanup is exactly `strip` |
| LlmService.CleanReplyOfClean | app/llm_service.py:70-76 | text that is already clean is unchanged by cleanup |
| LlmService.CleanReplyIdempotent | app/llm_service.py:69-76 | cleaning twice equals cleaning once |
| LlmService.CleanReplyFenced | app/llm_service.py:71-76 | with an opening fence, cleanup is the stripped body between the first two fences, less a `json` tag |
| LlmService.FenceBodyOfBlock | app/llm_service.py:73 | the body of a fenced block without backticks is the text between the fences |
| LlmService.TaggedBlockBody | app/llm_service.py:73 | the same for a body made of a tag and a payload |
| LlmService.UntagOfTagged | app/llm_service.py:74-75 | a leading `json` is removed and nothing else is changed |
| LlmService.StripFencedBlock | app/llm_service.py:70-71 | whitespace around a fenced block is all that the first `strip` removes, and the block starts with the fence |
| LlmService.CleanFencedBlock | app/llm_service.py:69-76 | a padded fenced block, tagged or not, cleans to the stripped payload |
| LlmService.FencedReplyMatchesBare | app/llm_service.py:69-78 | the fenced form of a payload cleans to the same text as the bare payload |
| LlmService.ToBillItem | app/llm_service.py:83 | `BillItem(**item)` succeeds iff the item is an object with all four fields of the right type; the item is the declared part of the object |
| LlmService.ItemRoundTrip | app/llm_service.py:83 | an item read back from its JSON is itself, whatever extra keys are present |
| LlmService.ConvertItems | app/llm_service.py:83 | success iff every element converts; then one item per element in order; otherwise the index of the first bad element |
| LlmService.BillItemsValue | app/llm_service.py:83 | iterating `bill_items`: a list converts element-wise; null, number or boolean cannot be iterated; any other success is empty |
| LlmService.PageTypeValue | app/llm_service.py:82 | `page_type` is accepted iff it is a string equal to one of the literals, and the result is the type with that literal |
| LlmService.BuildPage | app/llm_service.py:80-84 | non-object fails; success iff each present key validates; a present `bill_items` gives exactly the items `BillItemsValue` converts it to, an absent one gives none; a present `page_type` gives the type it validates to (null fails), an absent one `Bill Detail`; an item error is raised before a page-type error; `page_no` is `str(page_no)` |
| LlmService.PageRoundTrip | app/llm_service.py:80-84 | a page read back from its JSON keeps its type and its items in order, and takes the given page number |
| LlmService.PageFromReply | app/llm_service.py:69-84 | a `json.loads` failure on the cleaned reply is the result; otherwise the page built from the parsed value, numbered `str(page_no)` |
| LlmService.ExtractPage | app/llm_service.py:50-84 | a failed model call is the result; a page returned is numbered `str(page_no)` |
| LlmService.AddUsage | app/llm_service.py:64-67 | without metadata the counters are unchanged; otherwise each grows by its own reported count; balanced counters stay balanced under a balanced report |
| LlmService.ExtractRun | app/llm_service.py:86-92 | a successful run has exactly one page per image (its order, numbering, failures and counters are stated by the lemmas below) |
| LlmService.ExtractRunSucceedsIff | app/llm_service.py:86-92 | a run succeeds exactly when every page does |
| LlmService.ExtractRunPages | app/llm_service.py:86-92 | a successful run returns one page per image in order, the k-th numbered `first + k`; the counters took every reported usage |
| LlmService.ExtractRunFailure | app/llm_service.py:89-91 | the first failing page's exception is the result, with no partial list; the counters hold the usage up to and including that page |
| LlmService.RunAdvances | app/llm_service.py:89-91 | one loop step appends the page or ends the run with its exception |
| LlmService.SumUsageAppend | app/llm_service.py:64-67 | counting two image runs one after the other equals counting their concatenation |
| LlmService.PartsSucceed | app/llm_service.py:86-92 | when every page of two parts succeeds, the first part's run succeeds and so does the second's, numbered and counted on from it |
| LlmService.ExtractRunAppend | app/llm_service.py:86-92 | a run over two parts whose first succeeds is the first part's pages followed by the second part's run, numbered and counted on from where the first stopped |
| LlmService.SumUsageBalanced | app/llm_service.py:64-67 | the counters stay balanced (total = input + output) when every report is |
| LlmService.UnbalancedReportPassesThrough | app/llm_service.py:67 | a report with total 10, prompt 3, candidates 4 gives counters (10, 3, 4): the total is not recomputed |
| LlmService.ModelNumbersPages | app/llm_service.py:81 | every page the model's extractor yields carries its page number in decimal |
| LlmService.RunNumbering | app/llm_service.py:89-92 | with such an extractor, the k-th page of a successful run is numbered `first + k` |
| LlmService.LLMService.constructor | app/llm_service.py:43-48 | a new service reports all three counters as 0 |
| LlmService.LLMService.GetTokenUsage | app/llm_service.py:94-99 | reports each counter under its own name |
| LlmService.LLMService.ExtractFromImage | app/llm_service.py:50-84 | returns `ExtractPage`; the counters grow by the reported usage before parsing, and stay unchanged when no metadata is reported |
| LlmService.LLMService.ExtractFromImages | app/llm_service.py:86-92 | the loop's pages and final counters are exactly those of `ExtractRun` from page 1 |
| BillApi.SelectPages | app/main.py:37-43 | a file is used whenever present; otherwise a non-empty URL; otherwise HTTP 400 "Provide either 'file' or 'document' URL" |
| BillApi.TotalItemCount | app/main.py:49 | the count is zero exactly when no page has an item |
| BillApi.TotalItemCountIsAllItems | app/main.py:49 | the item count equals the number of items across all pages |
| BillApi.TotalItemCountAppend | app/main.py:49 | the count of concatenated page lists is the sum of their counts |
| BillApi.Respond | app/main.py:46-58 | the response exists iff every page extracts |
| BillApi.Handle | app/main.py:31-58 | the key is checked before input selection; a selection error escapes as it is; otherwise the pages are extracted |
| BillApi.Answer | app/main.py:61-64 | an HTTP error maps to 400 with the download prefix; every other exception maps to 500 with `str(e)` |
| BillApi.ExtractBillData | app/main.py:21-64 | a response exactly when the key is set, the input yields page images and every page extracts, and it is `Respond` of those images; a rejection has status 400 or 500 |
| BillApi.MissingKeyRejected | app/main.py:32-34 | without a key, every request gets 500 "500: Google API key not configured", even one with no input |
| BillApi.NoInputRejected | app/main.py:43 | with neither input, the answer is 500 with detail "400: Provide either 'file' or 'document' URL" |
| BillApi.FilePreferred | app/main.py:37-41 | when a file is present, the URL does not change the answer |
| BillApi.DownloadFailureRejected | app/main.py:61-62 | a download HTTP error gets 400 "Failed to download document: " followed by its message |
| BillApi.PageFailureRejected | app/main.py:47 | the first failing page's exception is the request's error, and no pages are returned |
| BillApi.SuccessfulResponse | app/main.py:47-58 | success gives `is_success`, one page per image in order, the usage summed over all calls, and the count of all items |
| BillApi.ResponseOfParts | app/main.py:46-58 | images in two parts give the first part's pages followed by the second's; the item count and the token usage add up part by part |
| BillApi.ModelResponseNumbering | app/main.py:47 | with the hosted model, the k-th page of a successful response is numbered k + 1 |
| BillApi.ImageUploadOnePage | app/main.py:37-39 | a non-PDF upload is one page with its call's usage and item count |
| BillApi.ServeRequest | app/main.py:31-64 | the endpoint, run with a fresh `LLMService`, answers exactly `ExtractBillData` with the model's extractor |

## Left out

- The Gemini call, `genai.configure`, the prompt and the generation settings (app/llm_service.py:9-39, 44-45, 55-61). These are foreign API calls. `Backend.generate` stands for them together with `Image.open`. It is a function of the image bytes, so the model treats the hosted model as deterministic for each image.
- `json.loads` is the `Backend.loads` parameter. `Json` numbers are reals.
- PyMuPDF (`fitz.open`, `load_page`, the 2× matrix, PNG encoding, `doc.close`) is the abstract `Renderer`. The page count and each page's image come from it.
- `download_document` (app/document_processor.py:9-14) is the `fetch` parameter. It is network I/O with a 60-second timeout.
- `image_to_base64` (app/document_processor.py:34-36) is unused by the service.
- FastAPI routing, multipart parsing, `await file.read()`, `os.getenv` with `load_dotenv`, the health endpoint and uvicorn (app/main.py:15-24, 67-74). These are framework and I/O plumbing. The key and the request fields are inputs.
- Floats are carried as reals. The service does no arithmetic on them.
- Pydantic's lax coercion, for example a numeric string accepted as a float, is not modelled. `ToBillItem` accepts exactly a string name and three JSON numbers, so it is stricter than pydantic there.
- The wording of Python's and pydantic's own error messages. `ErrorText` gives each such failure a fixed text, and only the `HTTPException` text "<status>: <detail>" is exact.
- Unicode `str.strip` and `str.lower` are modelled for ASCII only: whitespace is characters 9-13 and 28-32, and case folding is A-Z.
- A reply whose `response.text` accessor raises after its usage was counted (app/llm_service.py:64-70) cannot be expressed: `Reply.text` is always a string. The source's counters then include that page's usage, and the model's do not. The endpoint's answer is the same either way, because the exception ends the request.
- Async execution and concurrency between requests are not modelled. Each request is modelled on its own.
