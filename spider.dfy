/** The first, unguarded crawler: a status check on every request, no
    per-field isolation (one bad item ends the crawl), news all or nothing,
    and a detail pass over the first five products that skips failures. */
module Spider {
  import opened PyText
  import opened Scrape

  // ---------------------------------------------------------------------
  // Items without field isolation

  /** The items parsed before the first one that raises, and whether none
      raised. */
  datatype Taken = Taken(records: seq<Record>, complete: bool)

  /** The item loop: one record per item, in order, until an item raises. */
  function Parsed(items: seq<Element>, parse: Element -> Option<Record>): (t: Taken)
    ensures |t.records| <= |items|
    ensures t.complete ==> |t.records| == |items|
  {
    if items == [] then Taken([], true)
    else
      var init := Parsed(items[..|items| - 1], parse);
      var last := items[|items| - 1];
      if !init.complete then init
      else match parse(last)
        case None => Taken(init.records, false)
        case Some(r) => Taken(init.records + [r], true)
  }

  /** The loop gets through every item exactly when none raises; otherwise
      it keeps the records before the first item that raises. */
  lemma {:induction false} ParsedStops(items: seq<Element>, parse: Element -> Option<Record>)
    ensures forall k :: 0 <= k < |Parsed(items, parse).records| ==>
              parse(items[k]) == Some(Parsed(items, parse).records[k])
    ensures Parsed(items, parse).complete <==> forall k :: 0 <= k < |items| ==> parse(items[k]).Some?
    ensures !Parsed(items, parse).complete ==> parse(items[|Parsed(items, parse).records|]).None?
  {
    if items != [] {
      var init := items[..|items| - 1];
      ParsedStops(init, parse);
      assert forall k :: 0 <= k < |init| ==> init[k] == items[k];
    }
  }

  /** Once an item has raised, later items do not matter. */
  lemma {:induction false} ParsedFailedStays(items: seq<Element>, parse: Element -> Option<Record>, n: nat)
    requires n <= |items| && !Parsed(items[..n], parse).complete
    ensures Parsed(items, parse) == Parsed(items[..n], parse)
    decreases |items| - n
  {
    if n < |items| {
      assert items[..n + 1][..n] == items[..n];
      ParsedFailedStays(items, parse, n + 1);
    } else {
      assert items[..n] == items;
    }
  }

  /** The item loop appending to `data`; `complete` is false when an item
      raised and the exception left the loop. */
  method ParsePage(items: seq<Element>, parse: Element -> Option<Record>, data: seq<Record>)
    returns (data': seq<Record>, complete: bool)
    ensures data' == data + Parsed(items, parse).records
    ensures complete == Parsed(items, parse).complete
  {
    data' := data;
    var i := 0;
    while i < |items|
      invariant 0 <= i <= |items|
      invariant |data| <= |data'| && data'[..|data|] == data
      invariant Parsed(items[..i], parse) == Taken(data'[|data|..], true)
    {
      assert items[..i + 1][..i] == items[..i];
      var record := parse(items[i]);
      if record.None? {
        ParsedFailedStays(items, parse, i + 1);
        return data', false;
      }
      data' := data' + [record.value];
      i := i + 1;
    }
    assert items[..|items|] == items;
    complete := true;
  }

  // ---------------------------------------------------------------------
  // One product of the listing

  /** A paragraph with its label removed and the rest stripped. */
  function Unlabelled(text: string, tag: string): string
    requires tag != []
  {
    Strip(Replace(text, tag, ""))
  }

  /** The storage spec: what follows the last "存储", stripped, with no cut
      at ",". */
  function StorageSpec(text: string): string {
    Strip(LastPart(text, "存储"))
  }

  /** The specs dict spider.py builds from a specs paragraph. */
  function SpiderSpecs(text: string): Value {
    Obj(map["CPU" := Str(ExtractSpec(text, "CPU")),
            "内存" := Str(ExtractSpec(text, "内存")),
            "存储" := Str(StorageSpec(text))])
  }

  /** The product dict of crawl_products, or None when building it raises:
      no h3, no a or href, fewer than two paragraphs, or a first paragraph
      with no "|" (the price is its second segment). */
  function SpiderProduct(e: Element): (r: Option<Record>)
    ensures r.Some? ==> HasStr(r.value, "link")
  {
    if e.heading.None? || e.href.None? || |e.paragraphs| < 2 then None
    else
      var segments := Split(e.paragraphs[0], "|");
      if |segments| < 2 then None
      else
        Some(ProductFields(e.heading.value, UrlJoin(BaseUrl, e.href.value), Unlabelled(segments[0], "类别:"),
                           Unlabelled(segments[1], "价格:"), SpiderSpecs(e.paragraphs[1])))
  }

  function ProductFields(name: string, link: string, category: string, price: string, specs: Value): (r: Record)
    ensures HasStr(r, "link") && r["link"].s == link
    ensures "category" in r && r["category"] == Str(category)
    ensures "price" in r && r["price"] == Str(price)
  {
    map["name" := Str(name), "category" := Str(category), "price" := Str(price), "specs" := specs,
        "link" := Str(link)]
  }

  /** Building the dict raises exactly when the h3, the link or one of the
      two paragraphs is missing, or the first paragraph has no second
      "|"-segment. */
  lemma ProductRaises(e: Element)
    ensures SpiderProduct(e).None? <==> || e.heading.None? || e.href.None? || |e.paragraphs| < 2
                                        || |Split(e.paragraphs[0], "|")| < 2
  {
  }

  /** A segment holding a label that starts with a non-space character,
      then a value, with only white space around them, gives back the value
      once the label is removed and the rest stripped; the label's last
      character must not recur after it. */
  lemma LabelledValue(left: string, tag: string, gap: string, v: string, right: string)
    requires tag != [] && !IsSpace(tag[0]) && tag[|tag| - 1] !in gap + v + right
    requires AllSpace(left) && AllSpace(gap) && AllSpace(right)
    requires |v| > 0 && !IsSpace(v[0]) && !IsSpace(v[|v| - 1])
    ensures Unlabelled(left + tag + gap + v + right, tag) == v
  {
    LabelRemoved(left, tag, gap + v + right);
    assert left + tag + gap + v + right == left + tag + (gap + v + right);
    assert left + (gap + v + right) == (left + gap) + v + right;
    AllSpaceAppend(left, gap);
    StripPadded(left + gap, v, right);
  }

  /** Removing a label that occurs once leaves what surrounds it. */
  lemma LabelRemoved(left: string, tag: string, rest: string)
    requires tag != [] && !IsSpace(tag[0]) && tag[|tag| - 1] !in rest && AllSpace(left)
    ensures Replace(left + tag + rest, tag, "") == left + rest
  {
    TagOnlyOnce(left, tag, rest);
    ReplaceOnly(left, tag, rest, "");
    assert left + "" + rest == left + rest;
  }

  /** The same for a segment that starts with its label. */
  lemma LeadingLabel(tag: string, gap: string, v: string, right: string)
    requires tag != [] && !IsSpace(tag[0]) && tag[|tag| - 1] !in gap + v + right
    requires AllSpace(gap) && AllSpace(right)
    requires |v| > 0 && !IsSpace(v[0]) && !IsSpace(v[|v| - 1])
    ensures Unlabelled(tag + gap + v + right, tag) == v
  {
    assert tag + gap + v + right == [] + tag + gap + v + right;
    LabelledValue([], tag, gap, v, right);
  }

  /** A tag after white space occurs only there when its first character is
      not white space and its last does not recur after it. */
  lemma TagOnlyOnce(left: string, tag: string, rest: string)
    requires tag != [] && !IsSpace(tag[0]) && tag[|tag| - 1] !in rest && AllSpace(left)
    ensures forall j: nat :: OccursAt(left + tag + rest, tag, j) ==> j == |left|
  {
  }

  /** The category is the first "|"-segment of the first paragraph with
      its label removed, and the price the second. */
  lemma ProductSegments(e: Element, category: string, price: string, rest: string)
    requires e.heading.Some? && e.href.Some? && |e.paragraphs| >= 2
    requires e.paragraphs[0] == category + "|" + price + rest
    requires '|' !in category && '|' !in price && (rest == [] || rest[0] == '|')
    ensures SpiderProduct(e).Some?
    ensures SpiderProduct(e).value["category"] == Str(Unlabelled(category, "类别:"))
    ensures SpiderProduct(e).value["price"] == Str(Unlabelled(price, "价格:"))
  {
    FirstTwoSegments(e.paragraphs[0], category, price, rest);
    ProductDict(e);
  }

  lemma ProductDict(e: Element)
    requires e.heading.Some? && e.href.Some? && |e.paragraphs| >= 2 && |Split(e.paragraphs[0], "|")| >= 2
    ensures var segments := Split(e.paragraphs[0], "|");
            SpiderProduct(e) == Some(ProductFields(e.heading.value, UrlJoin(BaseUrl, e.href.value),
                                                   Unlabelled(segments[0], "类别:"), Unlabelled(segments[1], "价格:"),
                                                   SpiderSpecs(e.paragraphs[1])))
  {
  }

  lemma FirstTwoSegments(p: string, first: string, second: string, rest: string)
    requires p == first + "|" + second + rest
    requires '|' !in first && '|' !in second && (rest == [] || rest[0] == '|')
    ensures |Split(p, "|")| >= 2 && Split(p, "|")[0] == first && Split(p, "|")[1] == second
  {
    assert p == first + ['|'] + (second + rest);
    SplitAfterFirst(first, '|', second + rest);
    FirstPartBefore(second, '|', rest);
  }

  /** A first paragraph "类别: <category> | 价格: <price> ..." gives back
      both values. */
  lemma ProductRendered(e: Element, category: string, price: string, rest: string)
    requires e.heading.Some? && e.href.Some? && |e.paragraphs| >= 2
    requires e.paragraphs[0] == ("类别:" + " " + category + " ") + "|" + (" " + "价格:" + " " + price + " ") + rest
    requires |category| > 0 && !IsSpace(category[0]) && !IsSpace(category[|category| - 1])
    requires '|' !in category && ':' !in category
    requires |price| > 0 && !IsSpace(price[0]) && !IsSpace(price[|price| - 1])
    requires '|' !in price && ':' !in price && (rest == [] || rest[0] == '|')
    ensures SpiderProduct(e).Some?
    ensures SpiderProduct(e).value["category"] == Str(category)
    ensures SpiderProduct(e).value["price"] == Str(price)
  {
    ProductSegments(e, "类别:" + " " + category + " ", " " + "价格:" + " " + price + " ", rest);
    CategoryValue(category);
    PriceValue(price);
  }

  lemma CategoryValue(category: string)
    requires |category| > 0 && !IsSpace(category[0]) && !IsSpace(category[|category| - 1])
    requires ':' !in category
    ensures Unlabelled("类别:" + " " + category + " ", "类别:") == category
  {
    LeadingLabel("类别:", " ", category, " ");
  }

  lemma PriceValue(price: string)
    requires |price| > 0 && !IsSpace(price[0]) && !IsSpace(price[|price| - 1])
    requires ':' !in price
    ensures Unlabelled(" " + "价格:" + " " + price + " ", "价格:") == price
  {
    LabelledValue(" ", "价格:", " ", price, " ");
  }

  /** Without a "|" in the first paragraph the price lookup raises. */
  lemma NoPriceSegment(e: Element)
    requires |e.paragraphs| >= 1 && '|' !in e.paragraphs[0]
    ensures SpiderProduct(e).None?
  {
    ContainsChar(e.paragraphs[0], '|');
    assert Split(e.paragraphs[0], "|") == [e.paragraphs[0]];
  }

  /** A storage value rendered after the only "存储" of a paragraph comes
      back whole, commas included, where ExtractSpec would cut it at the
      first ",". */
  lemma StorageRendered(p: string, v: string)
    requires forall j: nat :: OccursAt(p + "存储" + v, "存储", j) ==> j == |p|
    requires v == [] || (!IsSpace(v[0]) && !IsSpace(v[|v| - 1]))
    ensures StorageSpec(p + "存储" + v) == v
    ensures ',' in v ==> ExtractSpec(p + "存储" + v, "存储") != v
  {
    LastPartAfterOnly(p, "存储", v);
    StripStripped(v);
  }

  // ---------------------------------------------------------------------
  // crawl_products: next-page links, a status check, no isolation

  /** What one answer means to the page loop: the records it adds, and
      whether the loop ends after it. */
  datatype Answer = Answer(records: seq<Record>, last: bool)

  /** One answer to crawl_products: nothing and the end when the request or
      the status raises; otherwise the products parsed before an item
      raised, and the end when an item raised or there is no next-page
      link. */
  function Answered(t: Transport): Answer {
    if t.Unreachable? || RaisesForStatus(t.response.status) then Answer([], true)
    else
      var taken := Parsed(t.response.html.items, SpiderProduct);
      Answer(taken.records, !taken.complete || !t.response.html.nextLink)
  }

  /** `site[p - 1]` is what requests.get gives for page p. */
  function Answers(site: seq<Transport>): (answers: seq<Answer>)
    ensures |answers| == |site|
  {
    if site == [] then [] else Answers(site[..|site| - 1]) + [Answered(site[|site| - 1])]
  }

  lemma {:induction false} AnswerAt(site: seq<Transport>, i: nat)
    requires i < |site|
    ensures Answers(site)[i] == Answered(site[i])
  {
    if i < |site| - 1 {
      AnswerAt(site[..|site| - 1], i);
    }
  }

  /** The site ends: its last page stops the loop. */
  predicate Ends(answers: seq<Answer>) {
    |answers| >= 1 && answers[|answers| - 1].last
  }

  predicate Finite(site: seq<Transport>) {
    Ends(Answers(site))
  }

  /** The page loop from `page` on. */
  function RunFrom(answers: seq<Answer>, page: nat): PageRun
    requires Ends(answers) && 1 <= page <= |answers|
    decreases |answers| - page
  {
    var a := answers[page - 1];
    if a.last then PageRun(a.records, [page])
    else
      var rest := RunFrom(answers, page + 1);
      PageRun(a.records + rest.records, [page] + rest.visited)
  }

  /** Every record the loop keeps comes from some answer, so it has a string
      link when every answer's records have one. */
  lemma {:induction false} RunFromLinked(answers: seq<Answer>, page: nat)
    requires Ends(answers) && 1 <= page <= |answers|
    requires forall p, i :: 0 <= p < |answers| && 0 <= i < |answers[p].records| ==>
               HasStr(answers[p].records[i], "link")
    ensures forall i :: 0 <= i < |RunFrom(answers, page).records| ==>
              HasStr(RunFrom(answers, page).records[i], "link")
    decreases |answers| - page
  {
    var run := RunFrom(answers, page);
    var here := answers[page - 1].records;
    if !answers[page - 1].last {
      var rest := RunFrom(answers, page + 1);
      RunFromLinked(answers, page + 1);
      forall i | 0 <= i < |run.records| ensures HasStr(run.records[i], "link") {
        if i >= |here| {
          assert run.records[i] == rest.records[i - |here|];
        } else {
          assert run.records[i] == here[i];
        }
      }
    }
  }

  /** The products of one answer all have a string link. */
  lemma AnswerLinked(t: Transport)
    ensures forall i :: 0 <= i < |Answered(t).records| ==> HasStr(Answered(t).records[i], "link")
  {
    if t.Delivered? && !RaisesForStatus(t.response.status) {
      var items := t.response.html.items;
      var records := Parsed(items, SpiderProduct).records;
      ParsedStops(items, SpiderProduct);
      forall i | 0 <= i < |records| ensures HasStr(records[i], "link") {
        assert SpiderProduct(items[i]) == Some(records[i]);
      }
    }
  }

  /** What crawl_products collects and writes; every product has a string
      link, which the detail pass looks up. */
  function Products(site: seq<Transport>): (run: PageRun)
    requires Finite(site)
    ensures forall i :: 0 <= i < |run.records| ==> HasStr(run.records[i], "link")
  {
    var answers := Answers(site);
    forall p | 0 <= p < |site|
      ensures forall i :: 0 <= i < |answers[p].records| ==> HasStr(answers[p].records[i], "link")
    {
      AnswerAt(site, p);
      AnswerLinked(site[p]);
    }
    RunFromLinked(answers, 1);
    RunFrom(answers, 1)
  }

  /** One pass of the crawl_products loop: fetch, check the status, parse
      the items into `products` until one raises; `last` says whether the
      loop breaks afterwards. */
  method CrawlPage(reply: Transport, products: seq<Record>) returns (products': seq<Record>, last: bool)
    ensures products' == products + Answered(reply).records
    ensures last == Answered(reply).last
  {
    if reply.Unreachable? || RaisesForStatus(reply.response.status) {
      return products + [], true;
    }
    var html := reply.response.html;
    var complete;
    products', complete := ParsePage(html.items, SpiderProduct, products);
    last := !complete || !html.nextLink;
  }

  /** crawl_products; the list is written whatever happened. */
  method CrawlProducts(site: seq<Transport>) returns (products: seq<Record>, visited: seq<nat>)
    requires Finite(site)
    ensures PageRun(products, visited) == Products(site)
  {
    ghost var answers := Answers(site);
    products, visited := [], [];
    var page := 1;
    while true
      invariant 1 <= page <= |site|
      invariant Remaining(products, visited, RunFrom(answers, page)) == RunFrom(answers, 1)
      decreases |site| - page
    {
      ghost var before := PageRun(products, visited);
      ghost var here := answers[page - 1];
      AnswerAt(site, page - 1);
      visited := visited + [page];
      var last;
      products, last := CrawlPage(site[page - 1], products);
      if last {
        break;
      }
      RemainingStep(before, here.records, page, RunFrom(answers, page + 1));
      page := page + 1;
    }
  }

  /** The records of the answers to the pages `pages`, in order. */
  function Yields(answers: seq<Answer>, pages: seq<nat>): seq<Record>
    requires forall k :: 0 <= k < |pages| ==> 1 <= pages[k] <= |answers|
  {
    if pages == [] then [] else answers[pages[0] - 1].records + Yields(answers, pages[1..])
  }

  /** From `page` on the loop asks for consecutive pages and goes past a
      page only when it does not end the loop. */
  lemma {:induction false} RunFromShape(answers: seq<Answer>, page: nat)
    requires Ends(answers) && 1 <= page <= |answers|
    ensures var run := RunFrom(answers, page);
            && 1 <= |run.visited| <= |answers| - page + 1
            && (forall k :: 0 <= k < |run.visited| ==> run.visited[k] == page + k)
            && (forall k :: 0 <= k < |run.visited| - 1 ==> !answers[run.visited[k] - 1].last)
            && answers[page + |run.visited| - 2].last
    decreases |answers| - page
  {
    var run := RunFrom(answers, page);
    if !answers[page - 1].last {
      var rest := RunFrom(answers, page + 1);
      RunFromShape(answers, page + 1);
      assert run.visited == [page] + rest.visited;
      forall k | 0 <= k < |run.visited| - 1 ensures !answers[run.visited[k] - 1].last {
        if k > 0 {
          assert run.visited[k] == rest.visited[k - 1];
        }
      }
    }
  }

  /** The records are those of the visited pages, in order. */
  lemma {:induction false} RunFromRecords(answers: seq<Answer>, page: nat)
    requires Ends(answers) && 1 <= page <= |answers|
    ensures forall k :: 0 <= k < |RunFrom(answers, page).visited| ==>
              1 <= RunFrom(answers, page).visited[k] <= |answers|
    ensures RunFrom(answers, page).records == Yields(answers, RunFrom(answers, page).visited)
    decreases |answers| - page
  {
    var run := RunFrom(answers, page);
    RunFromShape(answers, page);
    if !answers[page - 1].last {
      var rest := RunFrom(answers, page + 1);
      RunFromRecords(answers, page + 1);
      assert run.visited[1..] == rest.visited;
    } else {
      assert run.visited[1..] == [];
    }
  }

  /** crawl_products asks for pages 1, 2, ... once each and stops at the
      first page whose request or status raises, whose items do not all
      parse, or which has no next-page link. */
  lemma ProductsVisits(site: seq<Transport>)
    requires Finite(site)
    ensures var visited := Products(site).visited;
            && 1 <= |visited| <= |site|
            && (forall k :: 0 <= k < |visited| ==> visited[k] == k + 1)
            && (forall k :: 0 <= k < |visited| - 1 ==> !Answered(site[k]).last)
            && Answered(site[|visited| - 1]).last
  {
    var answers := Answers(site);
    RunFromShape(answers, 1);
    var visited := RunFrom(answers, 1).visited;
    forall k | 0 <= k < |visited| - 1 ensures !Answered(site[k]).last {
      assert visited[k] == k + 1;
      AnswerAt(site, k);
    }
    AnswerAt(site, |visited| - 1);
  }

  /** It keeps every product parsed before it stopped, on earlier pages and
      earlier on the same page, in order. */
  lemma ProductsRecords(site: seq<Transport>)
    requires Finite(site)
    ensures forall k :: 0 <= k < |Products(site).visited| ==> 1 <= Products(site).visited[k] <= |site|
    ensures Products(site).records == Yields(Answers(site), Products(site).visited)
  {
    RunFromRecords(Answers(site), 1);
  }

  // ---------------------------------------------------------------------
  // crawl_news: one page, all or nothing

  /** The news dict, or None when building it raises: no h3, no a or href,
      or no paragraph. */
  function NewsItem(e: Element): (r: Option<Record>)
    ensures r.Some? <==> e.heading.Some? && e.href.Some? && |e.paragraphs| >= 1
  {
    if e.heading.None? || e.href.None? || |e.paragraphs| < 1 then None
    else
      var p := e.paragraphs[0];
      Some(map[
        "title" := Str(e.heading.value),
        "link" := Str(UrlJoin(BaseUrl, e.href.value)),
        "date" := Str(Strip(FirstPart(p, "|"))),
        "author" := Str(Strip(Replace(LastPart(p, "|"), "作者:", "")))])
  }

  /** The date is the first "|"-segment of the first paragraph, stripped,
      and the author the last one with its label removed. */
  lemma NewsSegments(e: Element, date: string, mid: string, author: string)
    requires e.heading.Some? && e.href.Some? && |e.paragraphs| >= 1
    requires e.paragraphs[0] == date + mid + "|" + author
    requires '|' !in date && '|' !in author && (mid == [] || mid[0] == '|')
    ensures NewsItem(e).Some?
    ensures NewsItem(e).value["date"] == Str(Strip(date))
    ensures NewsItem(e).value["author"] == Str(Unlabelled(author, "作者:"))
  {
    NewsParagraph(e.paragraphs[0], date, mid, author);
  }

  lemma NewsParagraph(p: string, date: string, mid: string, author: string)
    requires p == date + mid + "|" + author
    requires '|' !in date && '|' !in author && (mid == [] || mid[0] == '|')
    ensures FirstPart(p, "|") == date && LastPart(p, "|") == author
  {
    assert p == date + (mid + "|" + author);
    FirstPartBefore(date, '|', mid + "|" + author);
    assert p == (date + mid) + ['|'] + author;
    LastPartAfterChar(date + mid, '|', author);
  }

  /** A news paragraph "<date> | 作者: <author>" gives back both values. */
  lemma NewsRendered(e: Element, date: string, author: string)
    requires e.heading.Some? && e.href.Some? && |e.paragraphs| >= 1
    requires e.paragraphs[0] == (date + " ") + "|" + (" " + "作者:" + " " + author)
    requires |date| > 0 && !IsSpace(date[0]) && !IsSpace(date[|date| - 1]) && '|' !in date
    requires |author| > 0 && !IsSpace(author[0]) && !IsSpace(author[|author| - 1])
    requires '|' !in author && ':' !in author
    ensures NewsItem(e).Some?
    ensures NewsItem(e).value["date"] == Str(date)
    ensures NewsItem(e).value["author"] == Str(author)
  {
    assert e.paragraphs[0] == (date + " ") + [] + "|" + (" " + "作者:" + " " + author);
    NewsSegments(e, date + " ", [], " " + "作者:" + " " + author);
    DateValue(date);
    AuthorValue(author);
  }

  lemma DateValue(date: string)
    requires |date| > 0 && !IsSpace(date[0]) && !IsSpace(date[|date| - 1])
    ensures Strip(date + " ") == date
  {
    assert date + " " == [] + date + " ";
    StripPadded([], date, " ");
  }

  lemma AuthorValue(author: string)
    requires |author| > 0 && !IsSpace(author[0]) && !IsSpace(author[|author| - 1])
    requires ':' !in author
    ensures Unlabelled(" " + "作者:" + " " + author, "作者:") == author
  {
    assert " " + "作者:" + " " + author == " " + "作者:" + " " + author + [];
    LabelledValue(" ", "作者:", " ", author, []);
  }

  /** What crawl_news writes: every item, or nothing when the request, the
      status or any item raises. */
  function News(t: Transport): (news: Option<seq<Record>>)
    ensures news.Some? <==> && t.Delivered? && !RaisesForStatus(t.response.status)
                            && forall k :: 0 <= k < |t.response.html.items| ==>
                                 NewsItem(t.response.html.items[k]).Some?
    ensures news.Some? ==> |news.value| == |t.response.html.items|
                           && forall k :: 0 <= k < |news.value| ==>
                                NewsItem(t.response.html.items[k]) == Some(news.value[k])
  {
    if t.Unreachable? || RaisesForStatus(t.response.status) then None
    else
      var taken := Parsed(t.response.html.items, NewsItem);
      ParsedStops(t.response.html.items, NewsItem);
      if taken.complete then Some(taken.records) else None
  }

  method CrawlNews(t: Transport) returns (news: Option<seq<Record>>)
    ensures news == News(t)
  {
    if t.Unreachable? || RaisesForStatus(t.response.status) {
      return None;
    }
    var items, complete := ParsePage(t.response.html.items, NewsItem, []);
    if !complete {
      return None;
    }
    assert items == Parsed(t.response.html.items, NewsItem).records;
    news := Some(items);
  }

  // ---------------------------------------------------------------------
  // crawl_product_details: the first five products, failures skipped

  /** The keys a detail page overwrites; the link is not among them. */
  const ProductDetailKeys: set<string> := {"name", "description", "specs", "created_at"}

  lemma DetailKeysUnlinked()
    ensures "link" !in ProductDetailKeys
  {
    assert forall k :: k in ProductDetailKeys ==> k[0] != "link"[0];
  }

  /** The detail dict of a product page, or None when fetching or reading it
      raises: the request or the status raises, the page has no h2, or its
      .product element has fewer than five paragraphs. */
  function ProductDetail(t: Transport): (detail: Option<Record>)
    ensures detail.Some? ==> "link" !in detail.value && detail.value.Keys == ProductDetailKeys
  {
    if t.Unreachable? || RaisesForStatus(t.response.status) then None
    else
      var html := t.response.html;
      if html.title.None? || |html.items| == 0 || |html.items[0].paragraphs| < 5 then None
      else
        var p := html.items[0].paragraphs;
        Some(DetailFields(html.title.value, p[3], p[2], p[4]))
  }

  function DetailFields(name: string, description: string, specs: string, created: string): (detail: Record)
    ensures "link" !in detail && detail.Keys == ProductDetailKeys
  {
    ProductDetailRecord(Str(name), Str(Unlabelled(description, "描述:")), SpiderSpecs(specs),
                 Str(Unlabelled(created, "上架时间:")))
  }

  function ProductDetailRecord(name: Value, description: Value, specs: Value, created: Value): (detail: Record)
    ensures "link" !in detail && detail.Keys == ProductDetailKeys
  {
    DetailKeysUnlinked();
    map["name" := name, "description" := description, "specs" := specs, "created_at" := created]
  }

  /** The detail merged into a product for a URL: {} when the try block is
      left by an exception, which `update` with {} matches. */
  function ProductDetails(details: string -> Transport): (fetch: string -> Record)
    ensures forall url :: "link" !in fetch(url)
  {
    assert forall url :: "link" !in DetailOrNothing(details(url));
    (url: string) => DetailOrNothing(details(url))
  }

  function DetailOrNothing(t: Transport): (detail: Record)
    ensures "link" !in detail
    ensures ProductDetail(t).None? ==> detail == map[]
  {
    match ProductDetail(t)
    case None => map[]
    case Some(d) => d
  }

  /** The loop over products[:5]. */
  method EnrichFirstFive(products: array<Record>, details: string -> Transport)
    requires forall i :: 0 <= i < products.Length ==> HasStr(products[i], "link")
    modifies products
    ensures products[..] == UpdatedAt(old(products[..]), Range(Min(5, products.Length)), "link", ProductDetails(details))
  {
    ghost var listed := products[..];
    ghost var fetch := ProductDetails(details);
    for i := 0 to Min(5, products.Length)
      invariant products[..] == UpdatedAt(listed, Range(i), "link", fetch)
    {
      assert Range(i + 1)[..i] == Range(i);
      var detail := ProductDetail(details(products[i]["link"].s));
      if detail.None? {
        UpdateEmpty(products[i]);
        continue;
      }
      products[i] := Update(products[i], detail.value);
    }
  }

  /** The detail pass changes only the first five products, merging each
      with its own detail page, and leaves a product whose detail failed as
      it was. */
  lemma DetailPass(products: seq<Record>, details: string -> Transport)
    requires forall i :: 0 <= i < |products| ==> HasStr(products[i], "link")
    ensures var after := UpdatedAt(products, Range(Min(5, |products|)), "link", ProductDetails(details));
            && |after| == |products|
            && (forall i :: 0 <= i < Min(5, |products|) ==>
                  after[i] == Merged(products[i], "link", ProductDetails(details)))
            && (forall i :: 0 <= i < Min(5, |products|) && ProductDetail(details(products[i]["link"].s)).None? ==>
                  after[i] == products[i])
            && (forall i :: 5 <= i < |products| ==> after[i] == products[i])
  {
    UpdatedFirst(products, Min(5, |products|), "link", ProductDetails(details));
    forall i | 0 <= i < Min(5, |products|) && ProductDetail(details(products[i]["link"].s)).None?
      ensures Merged(products[i], "link", ProductDetails(details)) == products[i]
    {
      UpdateEmpty(products[i]);
    }
  }

  // ---------------------------------------------------------------------
  // The script

  /** What the network gives one run of the script. */
  datatype Env = Env(productSite: seq<Transport>, newsPage: Transport, details: string -> Transport)

  /** What the script writes: products.json, news.json (None when not
      written) and products_with_details.json. */
  datatype Written = Written(products: seq<Record>, news: Option<seq<Record>>, detailed: seq<Record>)

  /** crawl_products, crawl_news, crawl_product_details in turn; the detail
      pass reads back the products just written. */
  method RunScript(env: Env) returns (written: Written)
    requires Finite(env.productSite)
    ensures written.products == Products(env.productSite).records
    ensures written.news == News(env.newsPage)
    ensures written.detailed ==
              UpdatedAt(written.products, Range(Min(5, |written.products|)), "link", ProductDetails(env.details))
  {
    var products, visited := CrawlProducts(env.productSite);
    var news := CrawlNews(env.newsPage);
    var table := new Record[|products|](i requires 0 <= i < |products| => products[i]);
    assert table[..] == products;
    EnrichFirstFive(table, env.details);
    written := Written(products, news, table[..]);
  }
}
