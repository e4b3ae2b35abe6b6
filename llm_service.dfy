/** Per-page extraction (app/llm_service.py): the model's reply is cleaned of
    a markdown fence, decoded as JSON and turned into a `PageLineItems`; an
    `LLMService` object adds each reply's reported token usage to its three
    counters, and numbers the pages of a document 1..N. */
module LlmService {

  import opened Wrappers
  import opened Text
  import opened Models

  /** A value `json.loads` returns. Numbers are carried as reals. */
  datatype Json =
    | JNull
    | JBool(b: bool)
    | JNum(n: real)
    | JStr(s: string)
    | JArr(elems: seq<Json>)
    | JObj(fields: map<string, Json>)

  /** `response.usage_metadata` */
  datatype UsageMetadata = UsageMetadata(promptTokenCount: nat, candidatesTokenCount: nat, totalTokenCount: nat)

  /** What `generate_content` returns: the reply text and, possibly, usage. */
  datatype Reply = Reply(text: string, usageMetadata: Option<UsageMetadata>)

  /** The collaborators, seen from outside. `generate` stands for opening the
      image and asking the hosted model with the fixed prompt; `loads` is
      `json.loads`. Either may raise. */
  datatype Backend = Backend(generate: Bytes -> Result<Reply, Error>, loads: string -> Result<Json, Error>)

  const Fence: string := "```"

  // ----- Reply cleanup (app/llm_service.py:70-76) -----

  /** `content.split("```")[1]` for a `content` that begins with the fence:
      the text after the opening fence, up to the next fence or to the end. */
  function FenceBody(content: string): (body: string)
    requires StartsWith(content, Fence)
    ensures 3 + |body| <= |content| && content[..3 + |body|] == Fence + body
    ensures 3 + |body| == |content| || OccursAt(content, Fence, 3 + |body|)
    ensures forall j :: 3 <= j < 3 + |body| ==> !OccursAt(content, Fence, j)
    ensures forall j :: 0 <= j < |body| ==> !OccursAt(body, Fence, j)
  {
    var end := match FindFrom(content, Fence, 3)
      case Some(k) => k
      case None => |content|;
    assert 3 <= end <= |content|;
    var body := content[3..end];
    forall j | 0 <= j < |body|
      ensures !OccursAt(body, Fence, j)
    {
      FenceInSlice(content, 3, end, j);
    }
    body
  }

  /** The reply text as `json.loads` receives it. The result never begins
      with a fence and has no whitespace at either end. */
  function CleanReply(text: string): (r: string)
    ensures IsStripped(r) && !StartsWith(r, Fence)
  {
    var content := Strip(text);
    if StartsWith(content, Fence) then
      var body := FenceBody(content);
      var untagged := Untag(body);
      NoFenceInSuffix(body, |body| - |untagged|);
      var r := Strip(untagged);
      NoFenceInStripped(untagged);
      r
    else
      StripOfStripped(content);
      content
  }

  /** `content[4:]` when the fenced text starts with the tag `json`. */
  function Untag(body: string): (r: string)
    ensures StartsWith(body, "json") ==> body == "json" + r
    ensures !StartsWith(body, "json") ==> r == body
  {
    if StartsWith(body, "json") then body[4..] else body
  }

  /** A fence inside a slice is a fence of the whole text, and a fence of
      the whole text that lies inside the slice is one of the slice. */
  lemma FenceInSlice(s: string, lo: nat, hi: nat, j: nat)
    requires lo <= hi <= |s|
    ensures OccursAt(s[lo..hi], Fence, j) <==> j + 3 <= hi - lo && OccursAt(s, Fence, lo + j)
  {
    var t := s[lo..hi];
    if j + 3 <= |t| {
      var inSlice := t[j..j + 3];
      var inWhole := s[lo + j..lo + j + 3];
      forall i | 0 <= i < 3
        ensures inSlice[i] == inWhole[i]
      {
        assert t[j + i] == s[lo + j + i];
      }
      assert inSlice == inWhole;
    }
  }

  lemma NoFenceInSuffix(s: string, from: nat)
    requires from <= |s|
    requires forall j :: 0 <= j < |s| ==> !OccursAt(s, Fence, j)
    ensures forall j :: 0 <= j < |s| - from ==> !OccursAt(s[from..], Fence, j)
  {
    assert s[from..] == s[from..|s|];
    forall j | 0 <= j < |s| - from
      ensures !OccursAt(s[from..|s|], Fence, j)
    {
      FenceInSlice(s, from, |s|, j);
    }
  }

  lemma NoFenceInStripped(s: string)
    requires forall j :: 0 <= j < |s| ==> !OccursAt(s, Fence, j)
    ensures !StartsWith(Strip(s), Fence)
  {
    var r := Strip(s);
    var lo := StripOffset(s);
    assert r == s[lo..StripEnd(s)];
    FenceInSlice(s, lo, StripEnd(s), 0);
    assert StartsWith(r, Fence) <==> OccursAt(r, Fence, 0);
  }

  /** Text that is already clean comes through cleanup unchanged. */
  lemma CleanReplyOfClean(text: string)
    requires IsStripped(text) && !StartsWith(text, Fence)
    ensures CleanReply(text) == text
  {
    StripOfStripped(text);
  }

  /** Cleaning twice is cleaning once. */
  lemma CleanReplyIdempotent(text: string)
    ensures CleanReply(CleanReply(text)) == CleanReply(text)
  {
    CleanReplyOfClean(CleanReply(text));
  }

  /** Without an opening fence, cleanup is exactly `strip`. */
  lemma CleanReplyUnfenced(text: string)
    requires !StartsWith(Strip(text), Fence)
    ensures CleanReply(text) == Strip(text)
  {
    StripOfStripped(Strip(text));
  }

  /** The body of a block closed by a fence is what lies between the fences,
      provided it holds no backtick. */
  lemma FenceBodyOfBlock(inner: string)
    requires '`' !in inner
    ensures FenceBody(Fence + inner + Fence) == inner
  {
    var t := Fence + inner + Fence;
    var k := 3 + |inner|;
    assert t[k..k + 3] == Fence;
    forall j | 3 <= j < k
      ensures !OccursAt(t, Fence, j)
    {
      assert t[j] == inner[j - 3] != '`';
    }
    assert OccursAt(t, Fence, k);
    var body := FenceBody(t);
    assert 3 + |body| == k;
    assert body == t[3..k] == inner;
  }

  /** With an opening fence, cleanup keeps the stripped text between the
      first two fences, less a leading `json` tag. */
  lemma CleanReplyFenced(text: string)
    requires StartsWith(Strip(text), Fence)
    ensures CleanReply(text) == Strip(Untag(FenceBody(Strip(text))))
  {
  }

  lemma CleanReplyOfBlock(text: string, t: string, inner: string)
    requires Strip(text) == t && StartsWith(t, Fence) && FenceBody(t) == inner
    ensures CleanReply(text) == Strip(Untag(inner))
  {
    CleanReplyFenced(text);
  }

  lemma UntagOfTagged(tag: string, payload: string)
    requires tag == "json" || (tag == "" && !StartsWith(payload, "json"))
    ensures Untag(tag + payload) == payload
  {
    if tag == "json" {
      assert (tag + payload)[..4] == "json" && (tag + payload)[4..] == payload;
    } else {
      assert tag + payload == payload;
    }
  }

  /** Whitespace around a fenced block is all that `strip` removes. */
  lemma StripFencedBlock(lead: string, inner: string, trail: string)
    requires OnlySpaces(lead) && OnlySpaces(trail)
    ensures Strip(lead + (Fence + inner + Fence) + trail) == Fence + inner + Fence
    ensures StartsWith(Fence + inner + Fence, Fence)
  {
    var t := Fence + inner + Fence;
    assert t[0] == Fence[0] == '`' && t[|t| - 1] == Fence[2] == '`';
    StripSurrounded(lead, t, trail);
    assert t[..3] == Fence;
  }

  /** A fenced block whose body is a tag and a payload free of backticks. */
  lemma TaggedBlockBody(tag: string, payload: string)
    requires '`' !in payload
    requires tag == "json" || tag == ""
    ensures FenceBody(Fence + (tag + payload) + Fence) == tag + payload
  {
    assert '`' !in tag + payload;
    FenceBodyOfBlock(tag + payload);
  }

  lemma CleanFencedBlock(lead: string, tag: string, payload: string, trail: string)
    requires OnlySpaces(lead) && OnlySpaces(trail)
    requires '`' !in payload
    requires tag == "json" || (tag == "" && !StartsWith(payload, "json"))
    ensures CleanReply(lead + (Fence + (tag + payload) + Fence) + trail) == Strip(payload)
  {
    StripFencedBlock(lead, tag + payload, trail);
    TaggedBlockBody(tag, payload);
    UntagOfTagged(tag, payload);
    CleanReplyOfBlock(lead + (Fence + (tag + payload) + Fence) + trail, Fence + (tag + payload) + Fence, tag + payload);
  }

  /** A JSON payload sent inside a fenced block, tagged `json` or untagged,
      with any whitespace around it, cleans to the same text as the bare
      payload. The payload must hold no backtick, and an untagged one must not
      itself begin with "json", which cleanup would cut off. */
  lemma {:induction false} FencedReplyMatchesBare(lead: string, tag: string, payload: string, trail: string)
    requires OnlySpaces(lead) && OnlySpaces(trail)
    requires '`' !in payload
    requires tag == "json" || (tag == "" && !StartsWith(payload, "json"))
    ensures CleanReply(lead + Fence + tag + payload + Fence + trail) == CleanReply(payload)
  {
    assert lead + Fence + tag + payload + Fence + trail == lead + (Fence + (tag + payload) + Fence) + trail;
    CleanFencedBlock(lead, tag, payload, trail);
    assert CleanReply(payload) == Strip(payload) by {
      var s := Strip(payload);
      assert s != [] ==> s[0] == payload[StripOffset(payload)];
      CleanReplyUnfenced(payload);
    }
  }

  // ----- From parsed JSON to PageLineItems (app/llm_service.py:80-84) -----

  /** The keys `BillItem` declares. */
  const ItemKeys: set<string> := {"item_name", "item_amount", "item_rate", "item_quantity"}

  predicate HasText(m: map<string, Json>, key: string) {
    key in m && m[key].JStr?
  }

  predicate HasNumber(m: map<string, Json>, key: string) {
    key in m && m[key].JNum?
  }

  /** How a `BillItem` is written in JSON. */
  function ItemToJson(item: BillItem): Json {
    JObj(map["item_name" := JStr(item.itemName), "item_amount" := JNum(item.itemAmount),
             "item_rate" := JNum(item.itemRate), "item_quantity" := JNum(item.itemQuantity)])
  }

  /** `BillItem(**item)`: the value must be an object holding every declared
      field with a value of its type (none has a default, so a missing key or
      a null fails); other keys are ignored. The item is exactly the declared
      part of the object. */
  function ToBillItem(item: Json): (r: Option<BillItem>)
    ensures r.Some? <==>
      (item.JObj? && HasText(item.fields, "item_name") && HasNumber(item.fields, "item_amount")
       && HasNumber(item.fields, "item_rate") && HasNumber(item.fields, "item_quantity"))
    ensures r.Some? ==>
      ItemToJson(r.value).fields == map k | k in ItemKeys && k in item.fields :: item.fields[k]
  {
    if item.JObj? then
      var m := item.fields;
      if HasText(m, "item_name") && HasNumber(m, "item_amount") && HasNumber(m, "item_rate")
         && HasNumber(m, "item_quantity")
      then
        var b := BillItem(m["item_name"].s, m["item_amount"].n, m["item_rate"].n, m["item_quantity"].n);
        assert ItemToJson(b).fields == map k | k in ItemKeys && k in m :: m[k];
        Some(b)
      else None
    else None
  }

  /** An item read back from its JSON form is the item itself, whatever other
      keys sit beside the declared ones. */
  lemma ItemRoundTrip(item: BillItem, extra: map<string, Json>)
    ensures ToBillItem(JObj(extra + ItemToJson(item).fields)) == Some(item)
  {
  }

  /** The list comprehension over a JSON array: every element becomes a
      `BillItem`, in order, or the index of the first that cannot. */
  function ConvertItems(elems: seq<Json>): (r: Result<seq<BillItem>, nat>)
    ensures r.Success? <==> forall k :: 0 <= k < |elems| ==> ToBillItem(elems[k]).Some?
    ensures r.Success? ==>
      (|r.value| == |elems| && forall k :: 0 <= k < |elems| ==> ToBillItem(elems[k]) == Some(r.value[k]))
    ensures r.Failure? ==>
      (r.error < |elems| && ToBillItem(elems[r.error]).None?
       && forall k :: 0 <= k < r.error ==> ToBillItem(elems[k]).Some?)
  {
    if elems == [] then Success([])
    else
      match ToBillItem(elems[0])
      case None => Failure(0)
      case Some(item) =>
        match ConvertItems(elems[1..])
        case Success(items) => Success([item] + items)
        case Failure(k) => Failure(k + 1)
  }

  /** Iterating `bill_items` and building an item from each element. A list
      gives its elements; an empty string or object gives nothing; a non-empty
      string or object gives strings, which `**` rejects; null, a number or a
      boolean cannot be iterated. */
  function BillItemsValue(v: Json): (r: Result<seq<BillItem>, Fault>)
    ensures v.JArr? ==> (r.Success? <==> forall k :: 0 <= k < |v.elems| ==> ToBillItem(v.elems[k]).Some?)
    ensures v.JArr? && r.Success? ==>
      (|r.value| == |v.elems| && forall k :: 0 <= k < |v.elems| ==> ToBillItem(v.elems[k]) == Some(r.value[k]))
    ensures (v.JNull? || v.JNum? || v.JBool?) ==> r == Failure(ItemsNotIterable)
    ensures r.Success? && !v.JArr? ==> r.value == []
  {
    match v
    case JArr(elems) =>
      (match ConvertItems(elems)
       case Success(items) => Success(items)
       case Failure(k) => Failure(ItemInvalid(k)))
    case JStr(s) => if s == [] then Success([]) else Failure(ItemInvalid(0))
    case JObj(m) => if m == map[] then Success([]) else Failure(ItemInvalid(0))
    case _ => Failure(ItemsNotIterable)
  }

  /** Validation of `page_type` against the three literals. */
  function PageTypeValue(v: Json): (r: Result<PageType, Fault>)
    ensures r.Success? <==> v.JStr? && ParsePageType(v.s).Some?
    ensures r.Success? ==> v == JStr(PageTypeLiteral(r.value))
  {
    if v.JStr? then
      match ParsePageType(v.s)
      case Some(t) => Success(t)
      case None => Failure(PageTypeInvalid)
    else Failure(PageTypeInvalid)
  }

  /** The page built from the parsed reply. `page_type` and `bill_items`
      take their defaults only when the key is absent; a key that is present
      is validated as it stands. The items are built before the page type is
      validated, so an item error wins over a page-type error. */
  function BuildPage(data: Json, pageNo: nat): (r: Result<PageLineItems, Fault>)
    ensures !data.JObj? ==> r == Failure(ReplyNotAnObject)
    ensures r.Success? <==>
      && data.JObj?
      && ("bill_items" !in data.fields || BillItemsValue(data.fields["bill_items"]).Success?)
      && ("page_type" !in data.fields || PageTypeValue(data.fields["page_type"]).Success?)
    ensures r.Success? ==> r.value.pageNo == NatToString(pageNo)
    ensures r.Success? && "page_type" !in data.fields ==> r.value.pageType == BillDetail
    ensures r.Success? && "page_type" in data.fields ==>
      PageTypeValue(data.fields["page_type"]) == Success(r.value.pageType)
    ensures r.Success? && "bill_items" !in data.fields ==> r.value.billItems == []
    ensures r.Success? && "bill_items" in data.fields ==>
      BillItemsValue(data.fields["bill_items"]) == Success(r.value.billItems)
    ensures data.JObj? && "bill_items" in data.fields && BillItemsValue(data.fields["bill_items"]).Failure? ==>
      r == Failure(BillItemsValue(data.fields["bill_items"]).error)
    ensures data.JObj? && ("bill_items" !in data.fields || BillItemsValue(data.fields["bill_items"]).Success?)
            && "page_type" in data.fields && PageTypeValue(data.fields["page_type"]).Failure? ==>
      r == Failure(PageTypeValue(data.fields["page_type"]).error)
    ensures data.JObj? && "page_type" !in data.fields && "bill_items" !in data.fields ==>
      r == Success(PageLineItems(NatToString(pageNo), BillDetail, []))
    ensures data.JObj? && "page_type" in data.fields && data.fields["page_type"] == JNull ==> r.Failure?
  {
    if !data.JObj? then Failure(ReplyNotAnObject)
    else
      var m := data.fields;
      var items :- if "bill_items" in m then BillItemsValue(m["bill_items"]) else Success([]);
      var pageType :- if "page_type" in m then PageTypeValue(m["page_type"]) else Success(BillDetail);
      Success(PageLineItems(NatToString(pageNo), pageType, items))
  }

  /** How a page is written in JSON, as the response carries it. */
  function PageToJson(page: PageLineItems): Json {
    JObj(map["page_no" := JStr(page.pageNo), "page_type" := JStr(PageTypeLiteral(page.pageType)),
             "bill_items" := JArr(seq(|page.billItems|, k requires 0 <= k < |page.billItems| => ItemToJson(page.billItems[k])))])
  }

  /** A page read back from its JSON form keeps its type and items, in order,
      and takes the page number it is given. */
  lemma PageRoundTrip(page: PageLineItems, pageNo: nat)
    ensures BuildPage(PageToJson(page), pageNo) == Success(page.(pageNo := NatToString(pageNo)))
  {
    var elems := PageToJson(page).fields["bill_items"].elems;
    forall k | 0 <= k < |elems|
      ensures ToBillItem(elems[k]) == Some(page.billItems[k])
    {
      ItemRoundTrip(page.billItems[k], map[]);
      assert map[] + ItemToJson(page.billItems[k]).fields == ItemToJson(page.billItems[k]).fields;
    }
    ParsePageTypeLiteral(page.pageType);
    var items := BillItemsValue(JArr(elems));
    assert items.Success? && items.value == page.billItems;
  }

  // ----- One page (app/llm_service.py:50-84) -----

  /** Cleanup, `json.loads`, and building the page. */
  function PageFromReply(text: string, pageNo: nat, loads: string -> Result<Json, Error>): (r: Result<PageLineItems, Error>)
    ensures r.Success? ==> r.value.pageNo == NatToString(pageNo)
    ensures loads(CleanReply(text)).Failure? ==> r == Failure(loads(CleanReply(text)).error)
    ensures loads(CleanReply(text)).Success? ==>
      r == match BuildPage(loads(CleanReply(text)).value, pageNo)
           case Success(page) => Success(page)
           case Failure(f) => Failure(ReplyError(f))
  {
    var data :- loads(CleanReply(text));
    match BuildPage(data, pageNo)
    case Success(page) => Success(page)
    case Failure(f) => Failure(ReplyError(f))
  }

  /** The page `extract_from_image` returns for an image, or what it raises. */
  function ExtractPage(image: Bytes, pageNo: nat, b: Backend): (r: Result<PageLineItems, Error>)
    ensures r.Success? ==> r.value.pageNo == NatToString(pageNo)
    ensures b.generate(image).Failure? ==> r == Failure(b.generate(image).error)
  {
    var reply :- b.generate(image);
    PageFromReply(reply.text, pageNo, b.loads)
  }

  /** The usage the model reports for an image: none when the call raises or
      the reply carries no metadata. */
  function ReportedUsage(image: Bytes, b: Backend): Option<UsageMetadata> {
    match b.generate(image)
    case Success(reply) => reply.usageMetadata
    case Failure(_) => None
  }

  /** The counter update at app/llm_service.py:64-67. */
  function AddUsage(u: TokenUsage, m: Option<UsageMetadata>): (r: TokenUsage)
    ensures m.None? ==> r == u
    ensures m.Some? ==>
      && r.inputTokens == u.inputTokens + m.value.promptTokenCount
      && r.outputTokens == u.outputTokens + m.value.candidatesTokenCount
      && r.totalTokens == u.totalTokens + m.value.totalTokenCount
    ensures Balanced(u) && BalancedReport(m) ==> Balanced(r)
  {
    match m
    case None => u
    case Some(md) =>
      TokenUsage(u.totalTokens + md.totalTokenCount, u.inputTokens + md.promptTokenCount,
                 u.outputTokens + md.candidatesTokenCount)
  }

  // ----- All pages (app/llm_service.py:86-92) -----

  /** What one call of `extract_from_image` yields: the page or its
      exception, and the usage the model reported on the way. */
  datatype PageStep = PageStep(page: Result<PageLineItems, Error>, reported: Option<UsageMetadata>)

  /** One page extraction as the loop sees it: image and page number in,
      page and usage out. */
  type Extractor = (Bytes, nat) -> PageStep

  /** The extractor an `LLMService` over this backend is. */
  function ModelExtractor(b: Backend): Extractor {
    (image: Bytes, pageNo: nat) => PageStep(ExtractPage(image, pageNo, b), ReportedUsage(image, b))
  }

  /** The pages extracted so far, the outcome for the rest, and the counters. */
  datatype Run = Run(pages: Result<seq<PageLineItems>, Error>, usage: TokenUsage)

  function Continued(done: seq<PageLineItems>, rest: Run): Run {
    Run(Prefixed(done, rest.pages), rest.usage)
  }

  /** What `extract_from_images` computes when its first image is page
      `first` and the counters start at `usage`: the pages in order, or the
      exception of the first page that fails, with the counters as the model
      calls made up to then leave them. */
  function ExtractRun(images: seq<Bytes>, first: nat, extract: Extractor, usage: TokenUsage): (r: Run)
    ensures r.pages.Success? ==> |r.pages.value| == |images|
    decreases |images|
  {
    if images == [] then Run(Success([]), usage)
    else
      var step := extract(images[0], first);
      var next := AddUsage(usage, step.reported);
      if step.page.Failure? then Run(Failure(step.page.error), next)
      else Continued([step.page.value], ExtractRun(images[1..], first + 1, extract, next))
  }

  /** The counters after each image, numbered on from `first`, has been
      extracted in turn. */
  function SumUsage(u: TokenUsage, images: seq<Bytes>, first: nat, extract: Extractor): TokenUsage
    decreases |images|
  {
    if images == [] then u
    else SumUsage(AddUsage(u, extract(images[0], first).reported), images[1..], first + 1, extract)
  }

  /** Counting two runs of images one after the other is counting their
      concatenation, the second numbered on from the first. */
  lemma {:induction false} SumUsageAppend(u: TokenUsage, a: seq<Bytes>, b: seq<Bytes>, first: nat, extract: Extractor)
    ensures SumUsage(u, a + b, first, extract) == SumUsage(SumUsage(u, a, first, extract), b, first + |a|, extract)
    decreases |a|
  {
    if a == [] {
      assert a + b == b;
    } else {
      assert (a + b)[0] == a[0] && (a + b)[1..] == a[1..] + b;
      SumUsageAppend(AddUsage(u, extract(a[0], first).reported), a[1..], b, first + 1, extract);
    }
  }

  /** A run over two parts of the images, the first of which succeeds, is
      the first part's pages followed by the second part's run, numbered on
      and counted on from where the first left off. */
  lemma {:induction false} ExtractRunAppend(a: seq<Bytes>, b: seq<Bytes>, first: nat, extract: Extractor, usage: TokenUsage)
    requires ExtractRun(a, first, extract, usage).pages.Success?
    ensures var ra := ExtractRun(a, first, extract, usage);
      ExtractRun(a + b, first, extract, usage) == Continued(ra.pages.value, ExtractRun(b, first + |a|, extract, ra.usage))
    decreases |a|
  {
    var ra := ExtractRun(a, first, extract, usage);
    if a == [] {
      assert a + b == b;
      var rb := ExtractRun(b, first, extract, usage);
      if rb.pages.Success? {
        assert [] + rb.pages.value == rb.pages.value;
      }
    } else {
      var step := extract(a[0], first);
      var next := AddUsage(usage, step.reported);
      assert (a + b)[0] == a[0] && (a + b)[1..] == a[1..] + b;
      ExtractRunAppend(a[1..], b, first + 1, extract, next);
      var rest := ExtractRun(a[1..], first + 1, extract, next);
      var rb := ExtractRun(b, first + 1 + |a[1..]|, extract, rest.usage);
      assert ra.pages.value == [step.page.value] + rest.pages.value;
      if rb.pages.Success? {
        assert [step.page.value] + (rest.pages.value + rb.pages.value) == ra.pages.value + rb.pages.value;
      }
    }
  }

  /** Every image from the `first`-numbered page on yields a page. */
  predicate AllPagesSucceed(images: seq<Bytes>, first: nat, extract: Extractor) {
    forall k :: 0 <= k < |images| ==> extract(images[k], first + k).page.Success?
  }

  /** A run succeeds exactly when every page does. */
  lemma {:induction false} ExtractRunSucceedsIff(images: seq<Bytes>, first: nat, extract: Extractor, usage: TokenUsage)
    ensures ExtractRun(images, first, extract, usage).pages.Success? <==> AllPagesSucceed(images, first, extract)
    decreases |images|
  {
    if images != [] {
      var next := AddUsage(usage, extract(images[0], first).reported);
      ExtractRunSucceedsIff(images[1..], first + 1, extract, next);
      if AllPagesSucceed(images[1..], first + 1, extract) {
        forall k | 1 <= k < |images|
          ensures extract(images[k], first + k).page.Success?
        {
          assert images[k] == images[1..][k - 1];
        }
      }
      if AllPagesSucceed(images, first, extract) {
        forall k | 0 <= k < |images| - 1
          ensures extract(images[1..][k], first + 1 + k).page.Success?
        {
          assert images[1..][k] == images[k + 1];
        }
      }
    }
  }

  /** When every page of two parts succeeds, so do the run of the first
      part and the run of the second numbered and counted on from it. */
  lemma PartsSucceed(a: seq<Bytes>, b: seq<Bytes>, first: nat, extract: Extractor, usage: TokenUsage)
    requires AllPagesSucceed(a + b, first, extract)
    ensures var ra := ExtractRun(a, first, extract, usage);
      ra.pages.Success? && ExtractRun(b, first + |a|, extract, ra.usage).pages.Success?
  {
    forall k | 0 <= k < |a|
      ensures extract(a[k], first + k).page.Success?
    {
      assert a[k] == (a + b)[k];
    }
    ExtractRunSucceedsIff(a, first, extract, usage);
    var ra := ExtractRun(a, first, extract, usage);
    forall k | 0 <= k < |b|
      ensures extract(b[k], first + |a| + k).page.Success?
    {
      assert b[k] == (a + b)[|a| + k];
    }
    ExtractRunSucceedsIff(b, first + |a|, extract, ra.usage);
  }

  /** A successful run holds one page per image, in order, the k-th being
      what the k-th image yields as page `first + k`, and counters that have
      taken every reported usage. */
  lemma {:induction false} ExtractRunPages(images: seq<Bytes>, first: nat, extract: Extractor, usage: TokenUsage)
    requires ExtractRun(images, first, extract, usage).pages.Success?
    ensures |ExtractRun(images, first, extract, usage).pages.value| == |images|
    ensures forall k :: 0 <= k < |images| ==>
      extract(images[k], first + k).page == Success(ExtractRun(images, first, extract, usage).pages.value[k])
    ensures ExtractRun(images, first, extract, usage).usage == SumUsage(usage, images, first, extract)
    decreases |images|
  {
    if images != [] {
      var next := AddUsage(usage, extract(images[0], first).reported);
      ExtractRunPages(images[1..], first + 1, extract, next);
      var pages := ExtractRun(images, first, extract, usage).pages.value;
      var rest := ExtractRun(images[1..], first + 1, extract, next).pages.value;
      assert pages == [pages[0]] + rest;
      forall k | 1 <= k < |images|
        ensures extract(images[k], first + k).page == Success(pages[k])
      {
        assert images[k] == images[1..][k - 1] && pages[k] == rest[k - 1];
      }
    }
  }

  /** When page `first + k` is the first that fails, the run returns its
      exception and no pages, and the counters hold the usage reported up to
      and including that page. */
  lemma {:induction false} ExtractRunFailure(images: seq<Bytes>, first: nat, extract: Extractor, usage: TokenUsage, k: nat)
    requires k < |images|
    requires extract(images[k], first + k).page.Failure?
    requires forall j :: 0 <= j < k ==> extract(images[j], first + j).page.Success?
    ensures ExtractRun(images, first, extract, usage).pages == Failure(extract(images[k], first + k).page.error)
    ensures ExtractRun(images, first, extract, usage).usage == SumUsage(usage, images[..k + 1], first, extract)
    decreases k
  {
    var next := AddUsage(usage, extract(images[0], first).reported);
    assert images[..k + 1][0] == images[0] && images[..k + 1][1..] == images[1..][..k];
    if k > 0 {
      assert extract(images[0], first + 0).page.Success?;
      assert images[1..][k - 1] == images[k];
      forall j | 0 <= j < k - 1
        ensures extract(images[1..][j], first + 1 + j).page.Success?
      {
        assert images[1..][j] == images[j + 1];
      }
      ExtractRunFailure(images[1..], first + 1, extract, next, k - 1);
    }
  }

  /** One more image taken from the front of a run: its page is appended to
      those already produced, or its exception ends the run. */
  lemma RunAdvances(done: seq<PageLineItems>, images: seq<Bytes>, first: nat, extract: Extractor, usage: TokenUsage)
    requires images != []
    ensures var step := extract(images[0], first);
      Continued(done, ExtractRun(images, first, extract, usage)) ==
        if step.page.Failure? then Run(Failure(step.page.error), AddUsage(usage, step.reported))
        else Continued(done + [step.page.value], ExtractRun(images[1..], first + 1, extract, AddUsage(usage, step.reported)))
  {
    var step := extract(images[0], first);
    var rest := ExtractRun(images[1..], first + 1, extract, AddUsage(usage, step.reported));
    if step.page.Success? && rest.pages.Success? {
      assert done + ([step.page.value] + rest.pages.value) == (done + [step.page.value]) + rest.pages.value;
    }
  }

  /** Every page an extractor yields carries its page number in decimal. */
  ghost predicate NumbersPages(extract: Extractor) {
    forall image, pageNo :: extract(image, pageNo).page.Success? ==>
      extract(image, pageNo).page.value.pageNo == NatToString(pageNo)
  }

  /** The model's extractor numbers its pages. */
  lemma ModelNumbersPages(b: Backend)
    ensures NumbersPages(ModelExtractor(b))
  {
    forall image, pageNo | ModelExtractor(b)(image, pageNo).page.Success?
      ensures ModelExtractor(b)(image, pageNo).page.value.pageNo == NatToString(pageNo)
    {
      assert ModelExtractor(b)(image, pageNo).page == ExtractPage(image, pageNo, b);
    }
  }

  /** With an extractor that numbers its pages, the k-th page of a
      successful run is numbered `first + k` in decimal. */
  lemma RunNumbering(images: seq<Bytes>, first: nat, extract: Extractor, usage: TokenUsage)
    requires NumbersPages(extract)
    requires ExtractRun(images, first, extract, usage).pages.Success?
    ensures |ExtractRun(images, first, extract, usage).pages.value| == |images|
    ensures forall k :: 0 <= k < |images| ==>
      ExtractRun(images, first, extract, usage).pages.value[k].pageNo == NatToString(first + k)
  {
    ExtractRunPages(images, first, extract, usage);
  }

  /** Counters in which the grand total is the sum of the other two. */
  predicate Balanced(u: TokenUsage) {
    u.totalTokens == u.inputTokens + u.outputTokens
  }

  predicate BalancedReport(m: Option<UsageMetadata>) {
    m.Some? ==> m.value.totalTokenCount == m.value.promptTokenCount + m.value.candidatesTokenCount
  }

  /** The grand total is only ever the sum of the reported totals, so the
      counters stay balanced when every report is. */
  lemma {:induction false} SumUsageBalanced(u: TokenUsage, images: seq<Bytes>, first: nat, extract: Extractor)
    requires Balanced(u)
    requires forall k :: 0 <= k < |images| ==> BalancedReport(extract(images[k], first + k).reported)
    ensures Balanced(SumUsage(u, images, first, extract))
    decreases |images|
  {
    if images != [] {
      assert BalancedReport(extract(images[0], first + 0).reported);
      forall k | 0 <= k < |images| - 1
        ensures BalancedReport(extract(images[1..][k], first + 1 + k).reported)
      {
        assert images[1..][k] == images[k + 1];
      }
      SumUsageBalanced(AddUsage(u, extract(images[0], first).reported), images[1..], first + 1, extract);
    }
  }

  /** A report whose total differs from prompt plus candidates is passed on
      as it is: `total_tokens` is not recomputed from the other two. */
  lemma UnbalancedReportPassesThrough(image: Bytes, b: Backend, text: string)
    requires b.generate(image) == Success(Reply(text, Some(UsageMetadata(3, 4, 10))))
    ensures SumUsage(TokenUsage(0, 0, 0), [image], 1, ModelExtractor(b)) == TokenUsage(10, 3, 4)
    ensures !Balanced(SumUsage(TokenUsage(0, 0, 0), [image], 1, ModelExtractor(b)))
  {
    var reported := ModelExtractor(b)(image, 1).reported;
    assert reported == ReportedUsage(image, b) == Some(UsageMetadata(3, 4, 10));
    assert [image][1..] == [];
  }

  /** `LLMService`: the hosted model it asks, and three counters that each
      model call adds its reported usage to. */
  class LLMService {
    const model: Backend
    var totalTokens: nat
    var inputTokens: nat
    var outputTokens: nat

    /** A fresh service has counted nothing. */
    constructor (model: Backend)
      ensures this.model == model
      ensures GetTokenUsage() == TokenUsage(0, 0, 0)
    {
      this.model := model;
      totalTokens := 0;
      inputTokens := 0;
      outputTokens := 0;
    }

    /** `get_token_usage`: the three counters under their own names. */
    function GetTokenUsage(): (u: TokenUsage)
      reads this
      ensures u.totalTokens == totalTokens && u.inputTokens == inputTokens && u.outputTokens == outputTokens
    {
      TokenUsage(totalTokens, inputTokens, outputTokens)
    }

    /** `extract_from_image`: asks the model, counts the reported usage before
      the reply is parsed (so a reply that fails to parse is still counted),
      and builds the page. */
    method ExtractFromImage(image: Bytes, pageNo: nat) returns (page: Result<PageLineItems, Error>)
      modifies this
      ensures page == ExtractPage(image, pageNo, model)
      ensures GetTokenUsage() == AddUsage(old(GetTokenUsage()), ReportedUsage(image, model))
    {
      var response := model.generate(image);
      if response.Failure? {
        return Failure(response.error);
      }
      var usage := response.value.usageMetadata;
      if usage.Some? {
        inputTokens := inputTokens + usage.value.promptTokenCount;
        outputTokens := outputTokens + usage.value.candidatesTokenCount;
        totalTokens := totalTokens + usage.value.totalTokenCount;
      }
      page := PageFromReply(response.value.text, pageNo, model.loads);
    }

    /** `extract_from_images`: pages numbered from 1, in input order; the
      first exception leaves the loop and no list is returned. */
    method ExtractFromImages(images: seq<Bytes>) returns (pages: Result<seq<PageLineItems>, Error>)
      modifies this
      ensures Run(pages, GetTokenUsage()) == ExtractRun(images, 1, ModelExtractor(model), old(GetTokenUsage()))
    {
      ghost var start := GetTokenUsage();
      var results: seq<PageLineItems> := [];
      var idx := 0;
      assert Continued([], ExtractRun(images, 1, ModelExtractor(model), start)) == ExtractRun(images, 1, ModelExtractor(model), start) by {
        var run := ExtractRun(images, 1, ModelExtractor(model), start);
        if run.pages.Success? {
          assert [] + run.pages.value == run.pages.value;
        }
      }
      while idx < |images|
        invariant 0 <= idx <= |images|
        invariant ExtractRun(images, 1, ModelExtractor(model), start) ==
          Continued(results, ExtractRun(images[idx..], idx + 1, ModelExtractor(model), GetTokenUsage()))
      {
        ghost var before := GetTokenUsage();
        var pageData := ExtractFromImage(images[idx], idx + 1);
        ghost var step := PageStep(pageData, ReportedUsage(images[idx], model));
        assert ModelExtractor(model)(images[idx], idx + 1) == step;
        assert images[idx..][0] == images[idx] && images[idx..][1..] == images[idx + 1..];
        RunAdvances(results, images[idx..], idx + 1, ModelExtractor(model), before);
        if pageData.Failure? {
          return Failure(pageData.error);
        }
        results := results + [pageData.value];
        idx := idx + 1;
      }
      assert results + [] == results;
      return Success(results);
    }
  }
}
