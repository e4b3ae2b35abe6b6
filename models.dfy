/** The records of app/models.py, the bytes the pipeline passes between its
    stages, and the exceptions that can end a request. */
module Models {

  import opened Wrappers
  import opened Text

  newtype byte = x: int | 0 <= x < 256

  /** A document as uploaded or downloaded, or one rendered page image. */
  type Bytes = seq<byte>

  /** `Literal["Bill Detail", "Final Bill", "Pharmacy"]` */
  datatype PageType = BillDetail | FinalBill | Pharmacy

  /** The literal a page type is written as in JSON. */
  function PageTypeLiteral(t: PageType): string {
    match t
    case BillDetail => "Bill Detail"
    case FinalBill => "Final Bill"
    case Pharmacy => "Pharmacy"
  }

  /** Validation of a string against the three literals: exact match only. */
  function ParsePageType(s: string): (r: Option<PageType>)
    ensures r.Some? ==> PageTypeLiteral(r.value) == s
    ensures r.None? ==> forall t: PageType :: PageTypeLiteral(t) != s
  {
    if s == "Bill Detail" then Some(BillDetail)
    else if s == "Final Bill" then Some(FinalBill)
    else if s == "Pharmacy" then Some(Pharmacy)
    else None
  }

  /** Every page type is accepted back from its own literal. */
  lemma ParsePageTypeLiteral(t: PageType)
    ensures ParsePageType(PageTypeLiteral(t)) == Some(t)
  {
  }

  /** One line of a bill. The three numbers are Python floats on which the
      service does no arithmetic; they are carried as reals. */
  datatype BillItem = BillItem(itemName: string, itemAmount: real, itemRate: real, itemQuantity: real)

  /** The items found on one page; `pageNo` is the page's 1-based position
      written in decimal. */
  datatype PageLineItems = PageLineItems(pageNo: string, pageType: PageType, billItems: seq<BillItem>)

  datatype TokenUsage = TokenUsage(totalTokens: nat, inputTokens: nat, outputTokens: nat)

  datatype ExtractedData = ExtractedData(pagewiseLineItems: seq<PageLineItems>, totalItemCount: nat)

  datatype ExtractBillResponse = ExtractBillResponse(isSuccess: bool, tokenUsage: TokenUsage, data: ExtractedData)

  /** Why the parsed model reply could not become a `PageLineItems`: the
      `AttributeError`, `TypeError` or pydantic `ValidationError` raised at
      app/llm_service.py:80-84. */
  datatype Fault =
    | ReplyNotAnObject           // `data.get` on a JSON value that is not an object
    | ItemsNotIterable           // `bill_items` is null, a number or a boolean
    | ItemInvalid(index: nat)    // `BillItem(**item)` failed for the item at this position
    | PageTypeInvalid            // `page_type` is not one of the three literals

  /** An exception that ends a request. */
  datatype Error =
    | DownloadError(message: string)                    // an `httpx.HTTPError`
    | HttpException(statusCode: nat, detail: string)    // a `fastapi.HTTPException`
    | ServiceError(message: string)                     // any other exception a collaborator raises
    | ReplyError(fault: Fault)                          // raised while building a page from the reply

  /** `str(e)`. An `HTTPException` prints as "<status>: <detail>"; the wording
      of the reply errors is Python's and pydantic's and is only named here. */
  function ErrorText(e: Error): (r: string)
    ensures e.HttpException? ==>
      && StartsWith(r, NatToString(e.statusCode) + ": ")
      && r[|NatToString(e.statusCode)| + 2..] == e.detail
      && ParseDecimal(r[..|NatToString(e.statusCode)|]) == e.statusCode
    ensures e.DownloadError? || e.ServiceError? ==> r == e.message
  {
    match e
    case DownloadError(m) => m
    case HttpException(code, detail) =>
      var status := NatToString(code);
      var r := status + ": " + detail;
      ParseNatToString(code);
      assert r[..|status|] == status && r[|status| + 2..] == detail;
      r
    case ServiceError(m) => m
    case ReplyError(f) =>
      match f
      case ReplyNotAnObject => "reply is not a JSON object"
      case ItemsNotIterable => "bill_items is not iterable"
      case ItemInvalid(_) => "bill item failed validation"
      case PageTypeInvalid => "page_type failed validation"
  }
}
