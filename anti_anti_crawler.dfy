/** The "smart" crawler: every request goes through a bounded retry loop with
    random headers and proxies, listings are walked page by page under a hard
    cap and a random continue decision, fields are cut out of the item text
    by label, and a random sample of users is enriched from detail pages. */
module AntiAntiCrawler {
  import opened PyText
  import opened Scrape

  const RetryTimes := 3
  const Timeout := 10
  const MaxPages := 5

  /** The text by which the site signals that it has detected a crawler. */
  const Marker := "检测到异常请求"

  // ---------------------------------------------------------------------
  // The request layer

  /** An entry of the proxy pool; the pool holds only the direct connection. */
  datatype Proxy = Direct | Via(url: string)

  const Proxies: seq<Proxy> := [Direct]

  /** The drawn part of get_random_headers: a random user agent and a random
      Do-Not-Track bit. The other header entries are constants. */
  datatype HeaderDraw = HeaderDraw(agent: string, dnt: bool)

  datatype Headers = Headers(userAgent: string, dnt: string)

  function RandomHeaders(d: HeaderDraw): (h: Headers)
    ensures h.dnt == "0" || h.dnt == "1"
  {
    Headers(d.agent, if d.dnt then "1" else "0")
  }

  /** random.choice(PROXIES) for the k-th draw. */
  function ProxyFor(pick: nat -> nat, k: nat): Proxy {
    Proxies[pick(k) % |Proxies|]
  }

  /** The keyword arguments the loop sets before each request. */
  datatype Kwargs = Kwargs(proxy: Option<Proxy>, headers: Option<Headers>, timeout: Option<int>)

  /** The HTTP verb, compared case-insensitively by the source. */
  datatype Verb = Get | Post | Other(name: string)

  /** Why an attempt failed. */
  datatype Failure = Unsupported(verb: string) | ConnectionFailed | HttpError(status: int) | AntiCrawler

  datatype TryResult = Passed(response: Response) | Failed(failure: Failure)

  /** One attempt: the arguments it was sent with and what came of it. */
  datatype Try = Try(kwargs: Kwargs, result: TryResult)

  /** How request_with_retry ends: a response, or the last exception re-raised. */
  datatype Outcome = Returned(response: Response) | Reraised(failure: Failure)

  /** What one attempt yields, given what the network answered. */
  function Classify(verb: Verb, t: Transport): (r: TryResult)
    ensures r.Passed? <==> (!verb.Other? && t.Delivered?
                            && !RaisesForStatus(t.response.status)
                            && !Contains(t.response.html.body, Marker))
    ensures r.Passed? ==> r.response == t.response
  {
    match verb
    case Other(name) => Failed(Unsupported(name))
    case _ =>
      match t
      case Unreachable => Failed(ConnectionFailed)
      case Delivered(resp) =>
        if RaisesForStatus(resp.status) then Failed(HttpError(resp.status))
        else if Contains(resp.html.body, Marker) then Failed(AntiCrawler)
        else Passed(resp)
  }

  /** The number of attempts made from attempt k on. */
  function AttemptsFrom(verb: Verb, reply: nat -> Transport, k: nat): (n: nat)
    requires k < RetryTimes
    ensures k < n <= RetryTimes
    decreases RetryTimes - k
  {
    if Classify(verb, reply(k)).Passed? || k == RetryTimes - 1 then k + 1
    else AttemptsFrom(verb, reply, k + 1)
  }

  /** The number of attempts one call makes. */
  function Attempts(verb: Verb, reply: nat -> Transport): nat {
    AttemptsFrom(verb, reply, 0)
  }

  /** How one call ends: the last attempt decides. */
  function RetryOutcome(verb: Verb, reply: nat -> Transport): Outcome {
    var n := Attempts(verb, reply);
    match Classify(verb, reply(n - 1))
    case Passed(resp) => Returned(resp)
    case Failed(f) => Reraised(f)
  }

  /** The headers every attempt of a call uses. */
  function HeadersFor(given: Option<Headers>, draw: nat -> HeaderDraw): Headers {
    given.GetOr(RandomHeaders(draw(0)))
  }

  /** Skipping attempts that failed does not change the count. */
  lemma {:induction false} AttemptsSkip(verb: Verb, reply: nat -> Transport, k: nat)
    requires k < RetryTimes
    requires forall j :: 0 <= j < k ==> Classify(verb, reply(j)).Failed?
    ensures Attempts(verb, reply) == AttemptsFrom(verb, reply, k)
    decreases k
  {
    if k > 0 {
      AttemptsSkip(verb, reply, k - 1);
    }
  }

  /** The attempts before the last one all failed, and the last one passed
      unless it was the third. */
  lemma {:induction false} AttemptsFromShape(verb: Verb, reply: nat -> Transport, k: nat)
    requires k < RetryTimes
    ensures forall j :: k <= j < AttemptsFrom(verb, reply, k) - 1 ==> Classify(verb, reply(j)).Failed?
    ensures Classify(verb, reply(AttemptsFrom(verb, reply, k) - 1)).Passed?
            || AttemptsFrom(verb, reply, k) == RetryTimes
    decreases RetryTimes - k
  {
    if !(Classify(verb, reply(k)).Passed? || k == RetryTimes - 1) {
      AttemptsFromShape(verb, reply, k + 1);
    }
  }

  /** request_with_retry returns a response exactly when one of the three
      attempts passes, and then it is the first passing one: a 4xx/5xx status
      or a body with the marker is never returned. */
  lemma ReturnsFirstSuccess(verb: Verb, reply: nat -> Transport)
    ensures RetryOutcome(verb, reply).Returned? <==>
              exists j :: 0 <= j < RetryTimes && Classify(verb, reply(j)).Passed?
    ensures RetryOutcome(verb, reply).Returned? ==>
              var n := Attempts(verb, reply);
              var resp := RetryOutcome(verb, reply).response;
              && reply(n - 1) == Delivered(resp)
              && !RaisesForStatus(resp.status) && !Contains(resp.html.body, Marker)
              && forall j :: 0 <= j < n - 1 ==> Classify(verb, reply(j)).Failed?
  {
    AttemptsFromShape(verb, reply, 0);
  }

  /** The exception is re-raised only after three failed attempts, and it is
      the third attempt's. */
  lemma ReraisesAfterLast(verb: Verb, reply: nat -> Transport)
    requires RetryOutcome(verb, reply).Reraised?
    ensures Attempts(verb, reply) == RetryTimes
    ensures forall j :: 0 <= j < RetryTimes ==> Classify(verb, reply(j)).Failed?
    ensures RetryOutcome(verb, reply).failure == Classify(verb, reply(RetryTimes - 1)).failure
  {
    AttemptsFromShape(verb, reply, 0);
  }

  /** k failures followed by a success: k + 1 attempts, that success returned. */
  lemma FailuresThenSuccess(verb: Verb, reply: nat -> Transport, k: nat)
    requires k < RetryTimes
    requires forall j :: 0 <= j < k ==> Classify(verb, reply(j)).Failed?
    requires Classify(verb, reply(k)).Passed?
    ensures Attempts(verb, reply) == k + 1
    ensures RetryOutcome(verb, reply) == Returned(reply(k).response)
  {
    AttemptsSkip(verb, reply, k);
  }

  /** request_with_retry(url, method, **kwargs). `given` is the caller's
      headers argument; `draw`, `pick` and `reply` are what the random source
      and the network give attempt k. The loop sleeps DELAY before every
      attempt (`delays`) and backs off after every failed attempt but the
      last (`backoffs`). */
  method RequestWithRetry(verb: Verb, given: Option<Headers>, draw: nat -> HeaderDraw,
                          pick: nat -> nat, reply: nat -> Transport)
    returns (outcome: Outcome, tries: seq<Try>, delays: nat, backoffs: nat)
    ensures outcome == RetryOutcome(verb, reply)
    ensures |tries| == Attempts(verb, reply)
    ensures forall k :: 0 <= k < |tries| ==>
              tries[k] == Try(Kwargs(Some(ProxyFor(pick, k)), Some(HeadersFor(given, draw)), Some(Timeout)),
                              Classify(verb, reply(k)))
    ensures delays == |tries| && backoffs == |tries| - 1
  {
    var kwargs := Kwargs(None, given, None);
    tries, delays, backoffs := [], 0, 0;
    outcome := Reraised(ConnectionFailed);
    for attempt := 0 to RetryTimes
      invariant |tries| == attempt && delays == attempt
      invariant backoffs == if attempt == RetryTimes then attempt - 1 else attempt
      invariant forall j :: 0 <= j < attempt ==> Classify(verb, reply(j)).Failed?
      invariant forall k :: 0 <= k < attempt ==>
                  tries[k] == Try(Kwargs(Some(ProxyFor(pick, k)), Some(HeadersFor(given, draw)), Some(Timeout)),
                                  Classify(verb, reply(k)))
      invariant kwargs.headers == if attempt == 0 then given else Some(HeadersFor(given, draw))
      invariant attempt > 0 ==> outcome == Reraised(Classify(verb, reply(attempt - 1)).failure)
    {
      kwargs := kwargs.(proxy := Some(ProxyFor(pick, attempt)));
      if kwargs.headers.None? {
        kwargs := kwargs.(headers := Some(RandomHeaders(draw(attempt))));
      }
      kwargs := kwargs.(timeout := Some(Timeout));
      delays := delays + 1;
      var result := Classify(verb, reply(attempt));
      tries := tries + [Try(kwargs, result)];
      if result.Passed? {
        AttemptsSkip(verb, reply, attempt);
        outcome := Returned(result.response);
        return;
      }
      outcome := Reraised(result.failure);
      if attempt < RetryTimes - 1 {
        backoffs := backoffs + 1;
      }
    }
    AttemptsSkip(verb, reply, RetryTimes - 1);
  }

  /** What the random source and the network give one request_with_retry call. */
  datatype Exchange = Exchange(draw: nat -> HeaderDraw, pick: nat -> nat, reply: nat -> Transport)

  /** request_with_retry(url) with no headers given, as every caller here uses it. */
  method Fetch(ex: Exchange) returns (outcome: Outcome)
    ensures outcome == RetryOutcome(Get, ex.reply)
  {
    var tries, delays, backoffs;
    outcome, tries, delays, backoffs := RequestWithRetry(Get, None, ex.draw, ex.pick, ex.reply);
  }

  // ---------------------------------------------------------------------
  // Capped pagination

  /** crawl_paginated_data from `page` on: `fetched(p)` is how the request
      for page p ends and `proceed(p)` the draw random() < 0.7 after page p. */
  function CappedFrom(schema: seq<Field>, fetched: nat -> Outcome, proceed: nat -> bool, page: nat): PageRun
    requires 1 <= page <= MaxPages
    decreases MaxPages - page
  {
    match fetched(page)
    case Reraised(_) => PageRun([], [page])
    case Returned(resp) =>
      var here := Harvest(schema, resp.html.items);
      if proceed(page) && page < MaxPages then
        var rest := CappedFrom(schema, fetched, proceed, page + 1);
        PageRun(here + rest.records, [page] + rest.visited)
      else PageRun(here, [page])
  }

  /** The whole crawl. */
  function Capped(schema: seq<Field>, fetched: nat -> Outcome, proceed: nat -> bool): PageRun {
    CappedFrom(schema, fetched, proceed, 1)
  }

  /** How request_with_retry ends for each page of a site. */
  function Outcomes(site: nat -> Exchange): nat -> Outcome {
    (p: nat) => RetryOutcome(Get, site(p).reply)
  }

  /** crawl_paginated_data(base_path, item_class, field_extractors). */
  method CrawlPaginated(schema: seq<Field>, site: nat -> Exchange, proceed: nat -> bool)
    returns (data: seq<Record>, visited: seq<nat>)
    ensures PageRun(data, visited) == Capped(schema, Outcomes(site), proceed)
  {
    ghost var fetched := Outcomes(site);
    data, visited := [], [];
    var page := 1;
    RemainingStart(CappedFrom(schema, fetched, proceed, 1));
    while page <= MaxPages
      invariant 1 <= page <= MaxPages
      invariant Remaining(data, visited, CappedFrom(schema, fetched, proceed, page)) == Capped(schema, fetched, proceed)
      decreases MaxPages - page
    {
      ghost var before := PageRun(data, visited);
      visited := visited + [page];
      var outcome := Fetch(site(page));
      assert outcome == fetched(page);
      if outcome.Reraised? {
        break;
      }
      var items := outcome.response.html.items;
      data := ExtractPage(schema, items, data);
      if proceed(page) && page < MaxPages {
        RemainingStep(before, Harvest(schema, items), page, CappedFrom(schema, fetched, proceed, page + 1));
        page := page + 1;
      } else {
        break;
      }
    }
  }

  /** The records of the fetched pages among `pages`, in page order. */
  function Collected(schema: seq<Field>, fetched: nat -> Outcome, pages: seq<nat>): seq<Record> {
    if pages == [] then []
    else
      var here := match fetched(pages[0])
        case Returned(resp) => Harvest(schema, resp.html.items)
        case Reraised(_) => [];
      here + Collected(schema, fetched, pages[1..])
  }

  /** The shape of a capped crawl from `page` on: consecutive pages, never
      past the cap; every page but the last was fetched and followed by a
      continue draw; the last one failed, drew stop, or hit the cap. */
  lemma {:induction false} CappedFromShape(schema: seq<Field>, fetched: nat -> Outcome, proceed: nat -> bool, page: nat)
    requires 1 <= page <= MaxPages
    ensures var run := CappedFrom(schema, fetched, proceed, page);
            && 1 <= |run.visited| <= MaxPages - page + 1
            && (forall k :: 0 <= k < |run.visited| ==> run.visited[k] == page + k)
            && (forall k :: 0 <= k < |run.visited| - 1 ==> fetched(run.visited[k]).Returned? && proceed(run.visited[k]))
            && (var last := page + |run.visited| - 1;
                fetched(last).Reraised? || !proceed(last) || last == MaxPages)
    decreases MaxPages - page
  {
    var run := CappedFrom(schema, fetched, proceed, page);
    if fetched(page).Returned? && proceed(page) && page < MaxPages {
      var rest := CappedFrom(schema, fetched, proceed, page + 1);
      CappedFromShape(schema, fetched, proceed, page + 1);
      assert run.visited == [page] + rest.visited;
    }
  }

  /** The records of a capped crawl from `page` on are those of the pages it
      fetched. */
  lemma {:induction false} CappedFromRecords(schema: seq<Field>, fetched: nat -> Outcome, proceed: nat -> bool, page: nat)
    requires 1 <= page <= MaxPages
    ensures var run := CappedFrom(schema, fetched, proceed, page);
            run.records == Collected(schema, fetched, run.visited)
    decreases MaxPages - page
  {
    var run := CappedFrom(schema, fetched, proceed, page);
    if fetched(page).Returned? && proceed(page) && page < MaxPages {
      var rest := CappedFrom(schema, fetched, proceed, page + 1);
      CappedFromRecords(schema, fetched, proceed, page + 1);
      assert run.visited[1..] == rest.visited;
    } else {
      assert run.visited[1..] == [];
    }
  }

  /** crawl_paginated_data visits pages 1, 2, ... consecutively and never
      more than MaxPages of them. */
  lemma CappedVisits(schema: seq<Field>, fetched: nat -> Outcome, proceed: nat -> bool)
    ensures var visited := Capped(schema, fetched, proceed).visited;
            && 1 <= |visited| <= MaxPages
            && forall k :: 0 <= k < |visited| ==> visited[k] == k + 1
  {
    CappedFromShape(schema, fetched, proceed, 1);
  }

  /** It goes on past a page only when that page was fetched, the draw said
      continue and the cap was not reached; it stops at the first page where
      one of these fails. */
  lemma CappedStopRule(schema: seq<Field>, fetched: nat -> Outcome, proceed: nat -> bool)
    ensures var visited := Capped(schema, fetched, proceed).visited;
            && (forall k :: 0 <= k < |visited| - 1 ==>
                  fetched(visited[k]).Returned? && proceed(visited[k]) && visited[k] < MaxPages)
            && (fetched(|visited|).Reraised? || !proceed(|visited|) || |visited| == MaxPages)
  {
    CappedFromShape(schema, fetched, proceed, 1);
  }

  /** The records are exactly those of the pages fetched, in order: a page
      whose request fails ends the crawl and keeps the earlier records. */
  lemma CappedRecords(schema: seq<Field>, fetched: nat -> Outcome, proceed: nat -> bool)
    ensures var run := Capped(schema, fetched, proceed);
            run.records == Collected(schema, fetched, run.visited)
  {
    CappedFromRecords(schema, fetched, proceed, 1);
  }

  /** A crawl whose draws always say continue and whose pages all come back
      visits exactly pages 1 to 5. */
  lemma CappedFull(schema: seq<Field>, fetched: nat -> Outcome, proceed: nat -> bool)
    requires forall p :: 1 <= p <= MaxPages ==> fetched(p).Returned? && proceed(p)
    ensures Capped(schema, fetched, proceed).visited == [1, 2, 3, 4, 5]
  {
    CappedFromShape(schema, fetched, proceed, 1);
    var visited := Capped(schema, fetched, proceed).visited;
    assert |visited| == MaxPages;
  }

  /** A crawl whose first draw says stop visits page 1 only. */
  lemma CappedStopAtOnce(schema: seq<Field>, fetched: nat -> Outcome, proceed: nat -> bool)
    requires !proceed(1)
    ensures Capped(schema, fetched, proceed).visited == [1]
  {
    CappedFromShape(schema, fetched, proceed, 1);
  }

  // ---------------------------------------------------------------------
  // Label-delimited fields

  /** extract_field(html, label) on an element whose text is `text`: the
      shared label cut, then cut again at the first newline and stripped. */
  function ExtractField(text: string, tag: string): (r: string)
    ensures '|' !in r && '\n' !in r
  {
    var cut := FieldAfter(text, tag);
    var line := FirstPart(cut, "\n");
    ContainsChar(line, '\n');
    FirstPartChars(cut, "\n");
    Strip(line)
  }

  /** With the label absent, the whole text goes to the cuts. */
  lemma ExtractFieldAbsent(text: string, tag: string)
    requires tag != [] && !Contains(text, tag)
    ensures ExtractField(text, tag) == Strip(FirstPart(Strip(FirstPart(text, "|")), "\n"))
  {
    FieldAfterAbsent(text, tag);
  }

  /** A one-line value rendered after its label, up to a "|" or the end of
      the text, comes back out unchanged when the label occurs nowhere else. */
  lemma ExtractFieldRendered(p: string, tag: string, v: string, tail: string)
    requires tag != []
    requires forall j: nat :: OccursAt(p + tag + v + tail, tag, j) ==> j == |p|
    requires '|' !in v && '\n' !in v
    requires v == [] || (!IsSpace(v[0]) && !IsSpace(v[|v| - 1]))
    requires tail == [] || tail[0] == '|'
    ensures ExtractField(p + tag + v + tail, tag) == v
  {
    FieldAfterRendered(p, tag, v, tail);
    FirstPartBefore(v, '\n', []);
    assert v + [] == v;
    StripStripped(v);
  }

  // ---------------------------------------------------------------------
  // The views field of a news item

  /** The views lambda as written, on the extracted field: int() of it when
      isdigit() holds, else 0. isdigit also accepts the superscript digits,
      which int() rejects, and then the lambda raises. */
  function ViewCountAsWritten(f: string): Attempt {
    if IsDigit(f) then
      match ParseInt(f)
      case Some(n) => Got(Int(n))
      case None => Raised
    else Got(Int(0))
  }

  function ViewsAsWritten(text: string): Attempt {
    ViewCountAsWritten(ExtractField(text, "浏览量:"))
  }

  /** A view count of "²" passes isdigit and makes int() raise, so the field
      ends up None instead of a number. */
  lemma ViewCountRaises()
    ensures IsDigit("²")
    ensures ViewCountAsWritten("²") == Raised
    ensures Settle(ViewCountAsWritten("²")) == Null
  {
    var f := "²";
    assert IsDigit(f);
    assert Strip(f) == f by { StripStripped(f); }
    assert ParseSigned(f) == None;
  }

  /** The page text "浏览量:²" renders such a view count. */
  lemma SuperscriptViews()
    ensures ExtractField("浏览量:²", "浏览量:") == "²"
    ensures ViewsAsWritten("浏览量:²") == Raised
  {
    var tag := "浏览量:";
    var text := "浏览量:²";
    assert "" + tag + "²" + "" == text;
    forall j: nat | OccursAt(text, tag, j) ensures j == 0 {
      assert text[j] == tag[0];
    }
    ExtractFieldRendered("", tag, "²", "");
    ViewCountRaises();
  }

  /** The digits int() accepts that isdigit() also accepts. */
  lemma DigitsParse(f: string)
    requires |f| > 0 && AllDecimal(f)
    ensures ParseInt(f) == Some(DecimalValue(f) as int)
  {
    StripStripped(f);
  }

  /** The views lambda as evidently intended: the integer when the field is
      one, else 0. */
  function ViewCount(f: string): (a: Attempt)
    ensures a.Got? && a.value.Int? && a.value.i >= 0
    ensures ViewCountAsWritten(f).Got? ==> a == ViewCountAsWritten(f)
    ensures (|f| > 0 && AllDecimal(f)) ==> a == Got(Int(DecimalValue(f) as int))
  {
    if |f| > 0 && AllDecimal(f) then
      DigitsParse(f);
      Got(Int(DecimalValue(f) as int))
    else
      // Not a case of its own: the lemma shows the program never gets here
      // with a field it parses, so 0 agrees with it wherever it does not raise.
      if IsDigit(f) && ParseInt(f).Some? then AcceptedDigitsDecimal(f); Got(Int(0))
      else Got(Int(0))
  }

  function Views(text: string): Attempt {
    ViewCount(ExtractField(text, "浏览量:"))
  }

  /** A string that isdigit() and int() both accept is all decimal digits,
      ASCII or full-width. */
  lemma AcceptedDigitsDecimal(f: string)
    requires IsDigit(f) && ParseInt(f).Some?
    ensures AllDecimal(f)
  {
    StripStripped(f);
  }

  // ---------------------------------------------------------------------
  // The field extractors of crawl_website

  /** extract_with_bs4 of an element's first h3: its text, or None. */
  function HeadingValue(e: Element): Value {
    match e.heading
    case Some(t) => Str(t)
    case None => Null
  }

  /** extract_with_bs4 of an element's first a: urljoin of its href, or None
      when there is no a or no href (the KeyError is caught inside). */
  function LinkValue(e: Element): Value {
    match e.href
    case Some(h) => Str(UrlJoin(BaseUrl, h))
    case None => Null
  }

  const ProductSchema: seq<Field> := [
    Field("name", (e: Element) => Got(HeadingValue(e))),
    Field("link", (e: Element) => Got(LinkValue(e))),
    Field("category", (e: Element) => Got(Str(ExtractField(e.text, "类别:")))),
    Field("price", (e: Element) => Got(Str(ExtractField(e.text, "价格:")))),
    Field("specs", (e: Element) => Got(Specs(e))),
    Field("created_at", (e: Element) => Got(Str(ExtractField(e.text, "上架时间:"))))]

  /** The news extractors as written: views goes through the lambda that
      raises on superscript digits. */
  const NewsSchema: seq<Field> := [
    Field("title", (e: Element) => Got(HeadingValue(e))),
    Field("link", (e: Element) => Got(LinkValue(e))),
    Field("publish_date", (e: Element) => Got(Str(ExtractField(e.text, "日期:")))),
    Field("author", (e: Element) => Got(Str(ExtractField(e.text, "作者:")))),
    Field("views", (e: Element) => ViewsAsWritten(e.text))]

  /** The views lambda as written raises exactly on a field that isdigit()
      accepts and that is not all ASCII or full-width decimal digits; when it
      does not raise it gives a non-negative integer. */
  lemma ViewCountAsWrittenCases(f: string)
    ensures ViewCountAsWritten(f) == Raised <==> IsDigit(f) && !AllDecimal(f)
    ensures ViewCountAsWritten(f).Got? ==>
              ViewCountAsWritten(f).value.Int? && ViewCountAsWritten(f).value.i >= 0
  {
    if IsDigit(f) && AllDecimal(f) {
      DigitsParse(f);
    } else if IsDigit(f) && ParseInt(f).Some? {
      AcceptedDigitsDecimal(f);
    }
  }

  /** A news record as the program builds it: its views is None exactly when
      the field after "浏览量:" passes isdigit() but int() rejects it, and a
      non-negative integer otherwise. */
  lemma NewsViews(item: Element)
    ensures var r := Extracted(NewsSchema, item);
            var f := ExtractField(item.text, "浏览量:");
            && "views" in r
            && (r["views"] == Null <==> IsDigit(f) && !AllDecimal(f))
            && (r["views"] != Null ==> r["views"].Int? && r["views"].i >= 0)
  {
    assert DistinctNames(NewsSchema);
    ExtractedValues(NewsSchema, item);
    assert NewsSchema[4].name == "views";
    ViewCountAsWrittenCases(ExtractField(item.text, "浏览量:"));
  }

  /** The news extractors with the corrected views lambda. */
  const CorrectedNewsSchema: seq<Field> := NewsSchema[..4] + [Field("views", (e: Element) => Views(e.text))]

  /** With the corrected lambda every news record holds a non-negative
      integer view count, the same one the program gives wherever it does
      not raise. */
  lemma CorrectedNewsViews(item: Element)
    ensures var r := Extracted(CorrectedNewsSchema, item);
            && "views" in r && r["views"].Int? && r["views"].i >= 0
            && (ViewsAsWritten(item.text).Got? ==> r["views"] == Extracted(NewsSchema, item)["views"])
  {
    assert DistinctNames(CorrectedNewsSchema);
    ExtractedValues(CorrectedNewsSchema, item);
    assert CorrectedNewsSchema[4].name == "views";
    NewsViews(item);
  }

  // ---------------------------------------------------------------------
  // Sampled user enrichment

  /** random.randint(3, min(5, n)); None when the range is empty, which
      raises ValueError. */
  function DetailCount(n: nat, draw: nat): (count: Option<nat>)
    ensures count.Some? <==> n >= 3
    ensures count.Some? ==> 3 <= count.value <= 5 && count.value <= n
  {
    var top := if n < 5 then n else 5;
    if top < 3 then None else Some(3 + draw % (top - 2))
  }

  /** The pool with entry i taken out. */
  function Without(pool: seq<nat>, i: nat): (rest: seq<nat>)
    requires i < |pool|
    ensures |rest| == |pool| - 1
  {
    pool[..i] + pool[i + 1..]
  }

  /** Taking an entry out of a pool without repeats leaves the other
      entries, without repeats and without the one taken. */
  lemma WithoutEntries(pool: seq<nat>, i: nat)
    requires i < |pool| && Distinct(pool)
    ensures forall x :: x in Without(pool, i) ==> x in pool && x != pool[i]
    ensures Distinct(Without(pool, i))
  {
    var rest := Without(pool, i);
    forall k | 0 <= k < |rest| ensures rest[k] == pool[if k < i then k else k + 1] {
    }
  }

  lemma DistinctCons(x: nat, s: seq<nat>)
    requires x !in s && Distinct(s)
    ensures Distinct([x] + s)
  {
    var t := [x] + s;
    forall a, b | 0 <= a < b < |t| ensures t[a] != t[b] {
      assert t[b] == s[b - 1];
      if a > 0 {
        assert t[a] == s[a - 1];
      }
    }
  }

  /** `count` distinct entries of `pool`; the j-th pick is the draw
      `below(j)` reduced to the entries not taken yet. */
  function SampleFrom(pool: seq<nat>, count: nat, below: nat -> nat, j: nat): (picked: seq<nat>)
    requires count <= |pool|
    requires Distinct(pool)
    ensures |picked| == count
    ensures forall x :: x in picked ==> x in pool
    ensures Distinct(picked)
    decreases count
  {
    if count == 0 then []
    else
      var i := below(j) % |pool|;
      WithoutEntries(pool, i);
      var tail := SampleFrom(Without(pool, i), count - 1, below, j + 1);
      DistinctCons(pool[i], tail);
      [pool[i]] + tail
  }

  /** random.sample(range(n), count). */
  function Sample(n: nat, count: nat, below: nat -> nat): (picks: seq<nat>)
    requires count <= n
    ensures |picks| == count && Distinct(picks)
    ensures forall j :: 0 <= j < |picks| ==> picks[j] < n
  {
    var picks := SampleFrom(Range(n), count, below, 0);
    assert forall j :: 0 <= j < |picks| ==> picks[j] in Range(n);
    picks
  }

  /** crawl_user_detail's dict: three fields cut from the page text, or {}
      when request_with_retry re-raised. */
  function DetailOf(outcome: Outcome): (detail: Record)
    ensures outcome.Reraised? <==> detail == map[]
    ensures outcome.Returned? ==> detail.Keys == DetailKeys
  {
    match outcome
    case Reraised(_) => map[]
    case Returned(resp) =>
      var t := resp.html.text;
      DetailRecord(ExtractField(t, "邮箱:"), ExtractField(t, "电话:"), ExtractField(t, "最后登录:"))
  }

  /** crawl_user_detail(url); `ex` is what the network gives that url. */
  method CrawlUserDetail(ex: Exchange) returns (detail: Record)
    ensures detail == DetailOf(RetryOutcome(Get, ex.reply))
  {
    var outcome := Fetch(ex);
    detail := DetailOf(outcome);
  }

  /** crawl_user_detail as a function of the URL; `details(url)` is what
      the network gives that URL. The detail never holds a detail link. */
  function UserDetails(details: string -> Exchange): (fetch: string -> Record)
    ensures forall url :: "detail_link" !in fetch(url)
  {
    assert forall url :: "detail_link" !in UserDetail(details, url);
    (url: string) => UserDetail(details, url)
  }

  function UserDetail(details: string -> Exchange, url: string): (detail: Record)
    ensures "detail_link" !in detail
  {
    assert "detail_link" !in DetailKeys;
    DetailOf(RetryOutcome(Get, details(url).reply))
  }

  /** A detail fetch that re-raises leaves the user as it was. */
  lemma EnrichFailed(user: Record, details: string -> Exchange)
    requires HasDetailLink(user)
    requires RetryOutcome(Get, details(DetailLink(user)).reply).Reraised?
    ensures Merged(user, "detail_link", UserDetails(details)) == user
  {
    UpdateEmpty(user);
  }

  /** The detail loop over random.sample(users, count): each sampled user is
      updated in place once, the others are left alone. */
  method EnrichSample(users: array<Record>, picks: seq<nat>, details: string -> Exchange)
    requires forall j :: 0 <= j < |picks| ==> picks[j] < users.Length
    requires Distinct(picks)
    requires forall i :: 0 <= i < users.Length ==> HasStr(users[i], "detail_link")
    modifies users
    ensures users[..] == UpdatedAt(old(users[..]), picks, "detail_link", UserDetails(details))
  {
    ghost var listed := users[..];
    ghost var fetch := UserDetails(details);
    for j := 0 to |picks|
      invariant users[..] == UpdatedAt(listed, picks[..j], "detail_link", fetch)
    {
      var i := picks[j];
      assert picks[..j + 1][..j] == picks[..j];
      var detail := CrawlUserDetail(details(DetailLink(users[i])));
      users[i] := Update(users[i], detail);
    }
    assert picks[..|picks|] == picks;
  }

  /** The users the listing page yields, or None when its request re-raises
      or a row's id is not an integer. */
  function ListedUsers(listing: Exchange): (users: Option<seq<Record>>)
    ensures users.Some? ==> forall i :: 0 <= i < |users.value| ==> HasDetailLink(users.value[i])
  {
    match RetryOutcome(Get, listing.reply)
    case Reraised(_) => None
    case Returned(resp) =>
      var rows := resp.html.items;
      if Users(rows).Some? then UsersLinked(rows); Users(rows) else None
  }

  /** What the users stage saves: every user, the sampled ones enriched; None
      when the stage raises (the listing fails, an id is not an integer, or
      randint(3, min(5, n)) has an empty range). */
  function UsersStage(listing: Exchange, countDraw: nat, below: nat -> nat, details: string -> Exchange)
    : Option<seq<Record>>
  {
    match ListedUsers(listing)
    case None => None
    case Some(users) =>
      match DetailCount(|users|, countDraw)
      case None => None
      case Some(count) => Some(UpdatedAt(users, Sample(|users|, count, below), "detail_link", UserDetails(details)))
  }

  /** The stage saves exactly when the listing yields at least three users;
      then it saves them all, 3 to 5 distinct sampled ones enriched from
      their own detail pages and the others as listed. */
  lemma UsersStageSaves(listing: Exchange, countDraw: nat, below: nat -> nat, details: string -> Exchange)
    ensures UsersStage(listing, countDraw, below, details).Some? <==>
              ListedUsers(listing).Some? && |ListedUsers(listing).value| >= 3
    ensures UsersStage(listing, countDraw, below, details).Some? ==>
              var users := ListedUsers(listing).value;
              var saved := UsersStage(listing, countDraw, below, details).value;
              var picks := Sample(|users|, DetailCount(|users|, countDraw).value, below);
              && 3 <= |picks| <= 5
              && |saved| == |users|
              && (forall j :: 0 <= j < |picks| ==>
                    saved[picks[j]] == Merged(users[picks[j]], "detail_link", UserDetails(details)))
              && (forall i :: 0 <= i < |users| && i !in picks ==> saved[i] == users[i])
  {
    if UsersStage(listing, countDraw, below, details).Some? {
      var users := ListedUsers(listing).value;
      var picks := Sample(|users|, DetailCount(|users|, countDraw).value, below);
      UpdatedAtEffect(users, picks, "detail_link", UserDetails(details));
    }
  }

  /** The listing part of the users stage: fetch the page, read the rows. */
  method ListUsers(listing: Exchange) returns (users: Option<seq<Record>>)
    ensures users == ListedUsers(listing)
  {
    var outcome := Fetch(listing);
    if outcome.Reraised? {
      return None;
    }
    users := CollectUsers(outcome.response.html.items);
  }

  /** The users stage of crawl_website: list, sample 3 to 5, enrich, save.
      Any exception skips saving: None. */
  method CrawlUsers(listing: Exchange, countDraw: nat, below: nat -> nat, details: string -> Exchange)
    returns (saved: Option<seq<Record>>)
    ensures saved == UsersStage(listing, countDraw, below, details)
  {
    var listed := ListUsers(listing);
    if listed.None? {
      return None;
    }
    var users := listed.value;
    var count := DetailCount(|users|, countDraw);
    if count.None? {
      return None;
    }
    var picks := Sample(|users|, count.value, below);
    var table := new Record[|users|](i requires 0 <= i < |users| => users[i]);
    assert table[..] == users;
    EnrichSample(table, picks, details);
    saved := Some(table[..]);
  }

  // ---------------------------------------------------------------------
  // The whole run

  /** What the network and the random source give one run of crawl_website. */
  datatype Env = Env(
    home: Exchange,
    productPages: nat -> Exchange, productProceed: nat -> bool,
    newsPages: nat -> Exchange, newsProceed: nat -> bool,
    usersPage: Exchange, countDraw: nat, below: nat -> nat,
    details: string -> Exchange)

  /** crawl_website: nothing is written when the home page cannot be fetched;
      otherwise products and news are always written, users when that stage
      does not raise. */
  method CrawlWebsite(env: Env) returns (saved: Saved)
    ensures RetryOutcome(Get, env.home.reply).Reraised? ==> saved == Saved(None, None, None)
    ensures RetryOutcome(Get, env.home.reply).Returned? ==>
              && saved.products == Some(Capped(ProductSchema, Outcomes(env.productPages), env.productProceed).records)
              && saved.news == Some(Capped(NewsSchema, Outcomes(env.newsPages), env.newsProceed).records)
              && saved.users == UsersStage(env.usersPage, env.countDraw, env.below, env.details)
  {
    var home := Fetch(env.home);
    if home.Reraised? {
      return Saved(None, None, None);
    }
    var products, productPages := CrawlPaginated(ProductSchema, env.productPages, env.productProceed);
    var news, newsPages := CrawlPaginated(NewsSchema, env.newsPages, env.newsProceed);
    var users := CrawlUsers(env.usersPage, env.countDraw, env.below, env.details);
    saved := Saved(Some(products), Some(news), users);
  }
}
