/** The next-link crawls of crawler-User-Agent.py and spider.py run against
    the fixture server's /products listing: the listing pages as the
    crawlers see them, the pages the crawls visit and what they collect. */
module EndToEnd {
  import opened PyText
  import opened Scrape
  import S = ServerWeb
  import UA = UserAgentCrawler
  import Spider

  // ---------------------------------------------------------------------
  // The listing as the crawlers see it
  // ---------------------------------------------------------------------

  function DetailPath(id: nat): string {
    "/product/" + NatToString(id)
  }

  /** The absolute URL of a product's detail page. */
  function ProductLink(p: S.Product): string {
    BaseUrl + DetailPath(p.id)
  }

  /** The two paragraphs of one product on the listing page. */
  function ListingParagraphs(p: S.Product): seq<string> {
    ["类别: " + p.category + " | 价格: ¥" + S.PriceText(p.priceCents) + " | 发布日期: " + p.createdAt,
     "规格: CPU " + p.specs.cpu + ", 内存 " + p.specs.memory + ", 存储 " + p.specs.storage]
  }

  /** One div.product of the listing: its h3 link and its two paragraphs. */
  function ProductElement(p: S.Product): Element {
    var ps := ListingParagraphs(p);
    Element(p.name + ps[0] + ps[1], Some(p.name), Some(DetailPath(p.id)), ps, [])
  }

  /** The items of a page, each product rendered by `render`. */
  function Elements(render: S.Product -> Element, ps: seq<S.Product>): (es: seq<Element>)
    ensures |es| == |ps|
  {
    if ps == [] then [] else [render(ps[0])] + Elements(render, ps[1..])
  }

  lemma {:induction false} ElementsAt(render: S.Product -> Element, ps: seq<S.Product>)
    ensures forall k :: 0 <= k < |ps| ==> Elements(render, ps)[k] == render(ps[k])
  {
    if ps != [] {
      ElementsAt(render, ps[1..]);
    }
  }

  lemma ElementsAppend(render: S.Product -> Element, a: seq<S.Product>, b: seq<S.Product>)
    ensures Elements(render, a + b) == Elements(render, a) + Elements(render, b)
  {
    ElementsAt(render, a);
    ElementsAt(render, b);
    ElementsAt(render, a + b);
  }

  /** The concatenated text of the items. */
  function ItemsText(items: seq<Element>): string {
    if items == [] then "" else items[0].text + ItemsText(items[1..])
  }

  /** The listing page as parsed: its product items and whether the
      "下一页" link is there. The template markup is not modelled; the body
      and page text hold the items' text. */
  function ListingHtml(l: S.Listing): Html {
    var items := Elements(ProductElement, l.products);
    var text := "产品列表" + ItemsText(items);
    Html(text, text, Some("产品列表"), items, l.hasNext)
  }

  /** What requests.get gives for /products?page=<page>. */
  function Requested(products: seq<S.Product>, page: nat): Transport {
    Delivered(Response(200, ListingHtml(S.ProductList(products, Some(IntToString(page))))))
  }

  /** s[i:] bound for a page offset. */
  function Clamp(i: nat, n: nat): nat {
    if i <= n then i else n
  }

  /** The products from page `page` on. */
  function FromPage(products: seq<S.Product>, page: nat): seq<S.Product>
    requires page >= 1
  {
    products[Clamp((page - 1) * S.PerPage, |products|)..]
  }

  /** The products page `page` shows: offsets (page-1)*5 up to page*5. */
  function Shown(products: seq<S.Product>, page: nat): seq<S.Product>
    requires page >= 1
  {
    products[Clamp((page - 1) * S.PerPage, |products|)..Clamp(page * S.PerPage, |products|)]
  }

  /** What the crawlers rely on in the answer for one listing page: status
      200, the page's products as items, and a next link exactly before the
      last page. */
  predicate ServesPage(t: Transport, render: S.Product -> Element, products: seq<S.Product>, page: nat)
    requires page >= 1
  {
    && t.Delivered?
    && t.response.status == 200
    && t.response.html.items == Elements(render, Shown(products, page))
    && (t.response.html.nextLink <==> page < S.TotalPages(|products|))
  }

  ghost predicate Serves(serve: nat -> Transport, render: S.Product -> Element, products: seq<S.Product>) {
    forall page: nat :: page >= 1 ==> ServesPage(serve(page), render, products, page)
  }

  /** The route's slice for a page from 1 on is the page's products. */
  lemma PageSliceShown(products: seq<S.Product>, page: nat)
    requires page >= 1
    ensures S.PageSlice(products, page) == Shown(products, page)
  {
  }

  /** The /products route answers page `page` as ServesPage says. */
  lemma RequestedPage(products: seq<S.Product>, page: nat)
    requires page >= 1
    ensures ServesPage(Requested(products, page), ProductElement, products, page)
  {
    S.PageArgRoundTrip(page);
    PageSliceShown(products, page);
  }

  /** The /products route answers every page as ServesPage says. */
  lemma RequestedServes(products: seq<S.Product>)
    ensures Serves((page: nat) => Requested(products, page), ProductElement, products)
  {
    forall page: nat | page >= 1
      ensures ServesPage(Requested(products, page), ProductElement, products, page)
    {
      RequestedPage(products, page);
    }
  }

  /** The last page the crawl asks for: total_pages, or page 1 when there
      are no products. */
  function LastPage(products: seq<S.Product>): (n: nat)
    ensures n >= 1 && n >= S.TotalPages(|products|)
  {
    if S.TotalPages(|products|) == 0 then 1 else S.TotalPages(|products|)
  }

  /** The answers for pages 1..n. */
  function SiteUpTo(serve: nat -> Transport, n: nat): (site: seq<Transport>)
    ensures |site| == n
  {
    if n == 0 then [] else SiteUpTo(serve, n - 1) + [serve(n)]
  }

  lemma {:induction false} SiteAt(serve: nat -> Transport, n: nat, i: nat)
    requires i < n
    ensures SiteUpTo(serve, n)[i] == serve(i + 1)
  {
    if i < n - 1 {
      SiteAt(serve, n - 1, i);
    }
  }

  /** Page numbers j..n. */
  function PagesFrom(j: nat, n: nat): (pages: seq<nat>)
    requires 1 <= j <= n + 1
    ensures |pages| == n + 1 - j
    ensures forall k :: 0 <= k < |pages| ==> pages[k] == j + k
    decreases n + 1 - j
  {
    if j > n then [] else [j] + PagesFrom(j + 1, n)
  }

  /** A visit list 1, 2, ..., n is PagesFrom(1, n). */
  lemma Consecutive(v: seq<nat>, n: nat)
    requires |v| == n && forall k :: 0 <= k < |v| ==> v[k] == k + 1
    ensures v == PagesFrom(1, n)
  {
  }

  /** Nothing is left after the last page. */
  lemma PastLastPage(products: seq<S.Product>)
    ensures FromPage(products, LastPage(products) + 1) == []
  {
  }

  /** Pages j.. of the listing show the products from offset (j-1)*5 on. */
  lemma ShownSplit(products: seq<S.Product>, j: nat)
    requires j >= 1
    ensures FromPage(products, j) == Shown(products, j) + FromPage(products, j + 1)
  {
  }

  // ---------------------------------------------------------------------
  // crawler-User-Agent.py: crawl_paginated_data on /products
  // ---------------------------------------------------------------------

  /** The last served page has no next link, so the crawl stops there. */
  lemma UASiteEnds(serve: nat -> Transport, render: S.Product -> Element, products: seq<S.Product>)
    requires Serves(serve, render, products)
    ensures UA.Finite(SiteUpTo(serve, LastPage(products)))
  {
    var n := LastPage(products);
    SiteAt(serve, n, n - 1);
    assert ServesPage(serve(n), render, products, n);
  }

  /** The answers for pages 1..LastPage, as crawl_paginated_data gets them. */
  function UASite(serve: nat -> Transport, render: S.Product -> Element, products: seq<S.Product>): (site: seq<Transport>)
    requires Serves(serve, render, products)
    ensures |site| == LastPage(products) && UA.Finite(site)
  {
    UASiteEnds(serve, render, products);
    SiteUpTo(serve, LastPage(products))
  }

  /** A crawl that stops at page `last` because the page has no next link
      has reached the last page. */
  lemma LastVisit(serve: nat -> Transport, render: S.Product -> Element, products: seq<S.Product>, last: nat)
    requires Serves(serve, render, products)
    requires 1 <= last <= LastPage(products)
    requires UA.Stops(SiteUpTo(serve, LastPage(products))[last - 1])
    ensures last == LastPage(products)
  {
    SiteAt(serve, LastPage(products), last - 1);
    assert ServesPage(serve(last), render, products, last);
  }

  /** The crawl asks for pages 1, 2, ... up to total_pages (page 1 alone
      when there are no products). */
  lemma UAVisits(schema: seq<Field>, serve: nat -> Transport, render: S.Product -> Element, products: seq<S.Product>)
    requires Serves(serve, render, products)
    ensures UA.Linked(schema, UASite(serve, render, products)).visited == PagesFrom(1, LastPage(products))
  {
    var site := UASite(serve, render, products);
    UA.LinkedVisits(schema, site);
    var v := UA.Linked(schema, site).visited;
    LastVisit(serve, render, products, |v|);
    Consecutive(v, LastPage(products));
  }

  /** The pages of a crawled site, each answered as ServesPage says. */
  ghost predicate ServedSite(site: seq<Transport>, render: S.Product -> Element, products: seq<S.Product>) {
    && |site| == LastPage(products)
    && forall i :: 0 <= i < |site| ==> ServedAt(site, render, products, i)
  }

  predicate ServedAt(site: seq<Transport>, render: S.Product -> Element, products: seq<S.Product>, i: nat)
    requires i < |site|
  {
    ServesPage(site[i], render, products, i + 1)
  }

  lemma UASiteServed(serve: nat -> Transport, render: S.Product -> Element, products: seq<S.Product>)
    requires Serves(serve, render, products)
    ensures ServedSite(UASite(serve, render, products), render, products)
  {
    var n := LastPage(products);
    var site := UASite(serve, render, products);
    forall i | 0 <= i < n
      ensures ServedAt(site, render, products, i)
    {
      SiteAt(serve, n, i);
      assert ServesPage(serve(i + 1), render, products, i + 1);
    }
  }

  lemma PagesFromTail(j: nat, n: nat)
    requires 1 <= j <= n
    ensures PagesFrom(j, n)[0] == j && PagesFrom(j, n)[1..] == PagesFrom(j + 1, n)
  {
    var rest := PagesFrom(j + 1, n);
    assert PagesFrom(j, n) == [j] + rest;
    assert ([j] + rest)[1..] == rest;
  }

  /** Gathering pages j..n is page j's harvest followed by pages j+1..n. */
  lemma GatheredCons(schema: seq<Field>, site: seq<Transport>, j: nat)
    requires 1 <= j <= |site|
    ensures UA.Gathered(schema, site, PagesFrom(j, |site|))
            == UA.PageRecords(schema, site[j - 1]) + UA.Gathered(schema, site, PagesFrom(j + 1, |site|))
  {
    PagesFromTail(j, |site|);
  }

  lemma HarvestShown(schema: seq<Field>, render: S.Product -> Element, products: seq<S.Product>, j: nat)
    requires j >= 1
    ensures Harvest(schema, Elements(render, FromPage(products, j)))
            == Harvest(schema, Elements(render, Shown(products, j)))
               + Harvest(schema, Elements(render, FromPage(products, j + 1)))
  {
    var rest := FromPage(products, j + 1);
    ShownSplit(products, j);
    ElementsAppend(render, Shown(products, j), rest);
    HarvestAppend(schema, Elements(render, Shown(products, j)), Elements(render, rest));
  }

  /** A served page contributes the harvest of its products' items. */
  lemma UAPageRecords(schema: seq<Field>, site: seq<Transport>, render: S.Product -> Element,
                      products: seq<S.Product>, j: nat)
    requires ServedSite(site, render, products) && 1 <= j <= |site|
    ensures UA.PageRecords(schema, site[j - 1]) == Harvest(schema, Elements(render, Shown(products, j)))
  {
    assert ServedAt(site, render, products, j - 1);
  }

  lemma {:induction false} UAGatheredFrom(schema: seq<Field>, site: seq<Transport>, render: S.Product -> Element,
                                          products: seq<S.Product>, j: nat)
    requires ServedSite(site, render, products)
    requires 1 <= j <= |site| + 1
    ensures UA.Gathered(schema, site, PagesFrom(j, |site|)) == Harvest(schema, Elements(render, FromPage(products, j)))
    decreases |site| + 1 - j
  {
    if j <= |site| {
      UAGatheredFrom(schema, site, render, products, j + 1);
      UAPageRecords(schema, site, render, products, j);
      GatheredCons(schema, site, j);
      HarvestShown(schema, render, products, j);
    } else {
      assert PagesFrom(j, |site|) == [];
      PastLastPage(products);
    }
  }

  /** The crawl collects one record per product, in table order, each the
      schema's extraction of that product's listing item. */
  lemma UARecords(schema: seq<Field>, serve: nat -> Transport, render: S.Product -> Element, products: seq<S.Product>)
    requires Serves(serve, render, products)
    ensures UA.Linked(schema, UASite(serve, render, products)).records == Harvest(schema, Elements(render, products))
  {
    var site := UASite(serve, render, products);
    UAVisits(schema, serve, render, products);
    UA.LinkedRecords(schema, site);
    UASiteServed(serve, render, products);
    UAGatheredFrom(schema, site, render, products, 1);
  }

  // ---------------------------------------------------------------------
  // spider.py: crawl_products on /products
  // ---------------------------------------------------------------------

  /** Record k holds the detail URL of product k. */
  predicate LinksTo(records: seq<Record>, products: seq<S.Product>)
    decreases |records|
  {
    && |records| == |products|
    && (records != [] ==>
          && HasStr(records[0], "link") && records[0]["link"].s == ProductLink(products[0])
          && LinksTo(records[1..], products[1..]))
  }

  lemma {:induction false} LinksToAt(records: seq<Record>, products: seq<S.Product>)
    ensures LinksTo(records, products) <==>
              && |records| == |products|
              && forall k :: 0 <= k < |records| ==>
                   HasStr(records[k], "link") && records[k]["link"].s == ProductLink(products[k])
    decreases |records|
  {
    if records != [] && |records| == |products| {
      LinksToAt(records[1..], products[1..]);
      assert forall k :: 1 <= k < |records| ==> records[k] == records[1..][k - 1] && products[k] == products[1..][k - 1];
    }
  }

  lemma {:induction false} LinksToAppend(r1: seq<Record>, p1: seq<S.Product>, r2: seq<Record>, p2: seq<S.Product>)
    requires LinksTo(r1, p1) && LinksTo(r2, p2)
    ensures LinksTo(r1 + r2, p1 + p2)
    decreases |r1|
  {
    if r1 != [] {
      LinksToAppend(r1[1..], p1[1..], r2, p2);
      assert (r1 + r2)[0] == r1[0] && (p1 + p2)[0] == p1[0];
      assert (r1 + r2)[1..] == r1[1..] + r2 && (p1 + p2)[1..] == p1[1..] + p2;
    } else {
      assert r1 + r2 == r2 && p1 + p2 == p2;
    }
  }

  /** What spider.py needs of an item to build a product dict from it. */
  predicate Shaped(e: Element) {
    && e.heading.Some? && e.href.Some?
    && StartsWith(e.href.value, "/") && !StartsWith(e.href.value, "//") && '.' !in e.href.value
    && |e.paragraphs| >= 2 && |Split(e.paragraphs[0], "|")| >= 2
  }

  /** Every listing item the server renders has that shape, with the
      product's detail path as its link. */
  lemma RenderedShaped(p: S.Product)
    ensures Shaped(ProductElement(p))
    ensures BaseUrl + ProductElement(p).href.value == ProductLink(p)
  {
    var p0 := ListingParagraphs(p)[0];
    var href := DetailPath(p.id);
    assert href[1] == 'p';
    forall k | 0 <= k < |href| ensures href[k] != '.' {
      if k >= 9 {
        assert href[k] == NatToString(p.id)[k - 9];
      }
    }
    assert OccursAt(p0, "|", |"类别: " + p.category + " "|);
    SplitFound(p0, "|");
  }

  /** An item of that shape makes a product dict whose link is the item's
      href under the base URL. */
  lemma ShapedParses(e: Element)
    requires Shaped(e)
    ensures Spider.SpiderProduct(e).Some?
    ensures Spider.SpiderProduct(e).value["link"].s == BaseUrl + e.href.value
  {
    NoDotSegment(e.href.value);
  }

  /** The listing's first paragraph, grouped where spider.py cuts it. */
  lemma ListingFirstParagraph(p: S.Product)
    ensures ListingParagraphs(p)[0]
            == ("类别:" + " " + p.category + " ") + "|"
               + (" " + "价格:" + " " + ("¥" + S.PriceText(p.priceCents)) + " ")
               + ("| 发布日期: " + p.createdAt)
  {
  }

  /** The database's categories are plain words: no white space at their
      ends, no "|" and no ":". */
  lemma CategoriesPlain(c: string)
    requires c in S.Categories
    ensures |c| > 0 && !IsSpace(c[0]) && !IsSpace(c[|c| - 1]) && '|' !in c && ':' !in c
  {
  }

  /** spider.py reads back the category and the price the listing shows for
      a product with one of the database's categories. */
  lemma ListingValues(p: S.Product)
    requires p.category in S.Categories
    ensures Spider.SpiderProduct(ProductElement(p)).Some?
    ensures Spider.SpiderProduct(ProductElement(p)).value["category"] == Str(p.category)
    ensures Spider.SpiderProduct(ProductElement(p)).value["price"] == Str("¥" + S.PriceText(p.priceCents))
  {
    ListingFirstParagraph(p);
    CategoriesPlain(p.category);
    var text := S.PriceText(p.priceCents);
    var price := "¥" + text;
    assert price[0] == '¥' && price[|price| - 1] == text[|text| - 1];
    assert forall k :: 0 <= k < |price| ==> price[k] == '¥' || price[k] == '.' || '0' <= price[k] <= '9';
    Spider.ProductRendered(ProductElement(p), p.category, price, "| 发布日期: " + p.createdAt);
  }

  /** How spider.py reads the answer for one listing page: it ends the
      crawl exactly from total_pages on, ... */
  predicate StopsAt(a: Spider.Answer, products: seq<S.Product>, page: nat) {
    !a.last <==> page < S.TotalPages(|products|)
  }

  /** ... and its records carry the detail URLs of the page's products. */
  predicate CarriesLinks(a: Spider.Answer, products: seq<S.Product>, page: nat)
    requires page >= 1
  {
    LinksTo(a.records, Shown(products, page))
  }

  ghost predicate SpiderServes(serve: nat -> Transport, products: seq<S.Product>) {
    && (forall page: nat {:trigger StopsAt(Spider.Answered(serve(page)), products, page)} ::
          page >= 1 ==> StopsAt(Spider.Answered(serve(page)), products, page))
    && (forall page: nat {:trigger CarriesLinks(Spider.Answered(serve(page)), products, page)} ::
          page >= 1 ==> CarriesLinks(Spider.Answered(serve(page)), products, page))
  }

  /** `render` gives items of that shape whose href is the product's
      detail path. */
  ghost predicate RendersLinks(render: S.Product -> Element) {
    forall p :: Shaped(render(p)) && BaseUrl + render(p).href.value == ProductLink(p)
  }

  lemma ListingRendersLinks()
    ensures RendersLinks(ProductElement)
  {
    forall p
      ensures Shaped(ProductElement(p)) && BaseUrl + ProductElement(p).href.value == ProductLink(p)
    {
      RenderedShaped(p);
    }
  }

  /** Items of that shape all parse, and their records link to `slice`. */
  lemma ParsedLinks(items: seq<Element>, slice: seq<S.Product>)
    requires |items| == |slice|
    requires forall k :: 0 <= k < |items| ==>
               Shaped(items[k]) && BaseUrl + items[k].href.value == ProductLink(slice[k])
    ensures Spider.Parsed(items, Spider.SpiderProduct).complete
    ensures LinksTo(Spider.Parsed(items, Spider.SpiderProduct).records, slice)
  {
    forall k | 0 <= k < |items|
      ensures Spider.SpiderProduct(items[k]).Some?
      ensures Spider.SpiderProduct(items[k]).value["link"].s == ProductLink(slice[k])
    {
      ShapedParses(items[k]);
    }
    Spider.ParsedStops(items, Spider.SpiderProduct);
    LinksToAt(Spider.Parsed(items, Spider.SpiderProduct).records, slice);
  }

  lemma SpiderPage(t: Transport, render: S.Product -> Element, products: seq<S.Product>, page: nat)
    requires page >= 1 && RendersLinks(render) && ServesPage(t, render, products, page)
    ensures StopsAt(Spider.Answered(t), products, page) && CarriesLinks(Spider.Answered(t), products, page)
  {
    var slice := Shown(products, page);
    var items := t.response.html.items;
    ElementsAt(render, slice);
    assert forall k :: 0 <= k < |items| ==> items[k] == render(slice[k]);
    ParsedLinks(items, slice);
  }

  /** A server whose listing items have that shape is read page by page
      as StopsAt and CarriesLinks say. */
  lemma ServesSpider(serve: nat -> Transport, render: S.Product -> Element, products: seq<S.Product>)
    requires Serves(serve, render, products) && RendersLinks(render)
    ensures SpiderServes(serve, products)
  {
    forall page: nat | page >= 1
      ensures StopsAt(Spider.Answered(serve(page)), products, page)
      ensures CarriesLinks(Spider.Answered(serve(page)), products, page)
    {
      SpiderPage(serve(page), render, products, page);
    }
  }

  /** The answers for pages 1..LastPage, page by page as SpiderServes
      says, ending the crawl at the last of them. */
  ghost predicate SpiderSite(site: seq<Transport>, products: seq<S.Product>) {
    && |site| == LastPage(products)
    && Spider.Finite(site)
    && (forall i :: 0 <= i < |site| ==> StopsAt(Spider.Answers(site)[i], products, i + 1))
    && (forall i :: 0 <= i < |site| ==> CarriesLinks(Spider.Answers(site)[i], products, i + 1))
  }

  lemma SpiderSiteOf(serve: nat -> Transport, products: seq<S.Product>)
    requires SpiderServes(serve, products)
    ensures SpiderSite(SiteUpTo(serve, LastPage(products)), products)
  {
    var n := LastPage(products);
    var site := SiteUpTo(serve, n);
    forall i | 0 <= i < n
      ensures StopsAt(Spider.Answers(site)[i], products, i + 1)
      ensures CarriesLinks(Spider.Answers(site)[i], products, i + 1)
    {
      SiteAt(serve, n, i);
      Spider.AnswerAt(site, i);
      assert StopsAt(Spider.Answered(serve(i + 1)), products, i + 1);
      assert CarriesLinks(Spider.Answered(serve(i + 1)), products, i + 1);
    }
    assert StopsAt(Spider.Answers(site)[n - 1], products, n);
  }

  /** The crawl asks for pages 1, 2, ... up to total_pages (page 1 alone
      when there are no products). */
  lemma SpiderVisits(site: seq<Transport>, products: seq<S.Product>)
    requires SpiderSite(site, products)
    ensures Spider.Products(site).visited == PagesFrom(1, LastPage(products))
  {
    var answers := Spider.Answers(site);
    Spider.RunFromShape(answers, 1);
    var v := Spider.Products(site).visited;
    assert v == Spider.RunFrom(answers, 1).visited;
    assert StopsAt(answers[|v| - 1], products, |v|);
    Consecutive(v, LastPage(products));
  }

  /** Yielding pages j..n is page j's records followed by pages j+1..n. */
  lemma YieldsCons(answers: seq<Spider.Answer>, j: nat)
    requires 1 <= j <= |answers|
    ensures Spider.Yields(answers, PagesFrom(j, |answers|))
            == answers[j - 1].records + Spider.Yields(answers, PagesFrom(j + 1, |answers|))
  {
    PagesFromTail(j, |answers|);
  }

  lemma {:induction false} SpiderYieldsFrom(site: seq<Transport>, products: seq<S.Product>, j: nat)
    requires SpiderSite(site, products)
    requires 1 <= j <= LastPage(products) + 1
    ensures LinksTo(Spider.Yields(Spider.Answers(site), PagesFrom(j, LastPage(products))),
                    FromPage(products, j))
    decreases LastPage(products) + 1 - j
  {
    var n := LastPage(products);
    if j <= n {
      SpiderYieldsFrom(site, products, j + 1);
      YieldsCons(Spider.Answers(site), j);
      assert CarriesLinks(Spider.Answers(site)[j - 1], products, j);
      ShownSplit(products, j);
      LinksToAppend(Spider.Answers(site)[j - 1].records, Shown(products, j),
                    Spider.Yields(Spider.Answers(site), PagesFrom(j + 1, n)), FromPage(products, j + 1));
    } else {
      PastLastPage(products);
    }
  }

  /** spider.py collects one product dict per product, in table order, and
      record k links to product k's detail page. */
  lemma SpiderLinks(site: seq<Transport>, products: seq<S.Product>)
    requires SpiderSite(site, products)
    ensures LinksTo(Spider.Products(site).records, products)
  {
    SpiderVisits(site, products);
    Spider.ProductsRecords(site);
    SpiderYieldsFrom(site, products, 1);
  }

  // ---------------------------------------------------------------------
  // The generated database
  // ---------------------------------------------------------------------

  lemma SixPages()
    ensures PagesFrom(1, 6) == [1, 2, 3, 4, 5, 6]
  {
  }

  /** Over a table of 30 products the UA crawl visits pages 1..6 and
      collects 30 records. */
  lemma TableCrawlUA(schema: seq<Field>, serve: nat -> Transport, products: seq<S.Product>)
    requires |products| == S.ProductCount && Serves(serve, ProductElement, products)
    ensures UA.Linked(schema, UASite(serve, ProductElement, products)).visited == [1, 2, 3, 4, 5, 6]
    ensures |UA.Linked(schema, UASite(serve, ProductElement, products)).records| == S.ProductCount
  {
    UAVisits(schema, serve, ProductElement, products);
    UARecords(schema, serve, ProductElement, products);
    SixPages();
  }

  /** Records that link to a table with ids 1..n link to /product/<k+1>,
      and the detail route answers that path with product k+1. */
  lemma LinksToTable(records: seq<Record>, products: seq<S.Product>)
    requires S.ConsecutiveIds(products) && LinksTo(records, products)
    ensures |records| == |products|
    ensures forall k :: 0 <= k < |records| ==>
              HasStr(records[k], "link") && records[k]["link"].s == BaseUrl + DetailPath(k + 1)
              && S.ProductDetail(products, k + 1) == S.Shown(products[k])
  {
    LinksToAt(records, products);
    forall k | 0 <= k < |products|
      ensures S.ProductDetail(products, k + 1) == S.Shown(products[k])
    {
      S.DetailOfConsecutive(products, k + 1);
    }
  }

  /** Over a table of products 1..30 the spider visits pages 1..6 and its
      record k links to /product/<k+1>, which the detail route answers with
      product k+1. */
  lemma TableCrawlSpider(site: seq<Transport>, products: seq<S.Product>)
    requires |products| == S.ProductCount && S.ConsecutiveIds(products) && SpiderSite(site, products)
    ensures Spider.Products(site).visited == [1, 2, 3, 4, 5, 6]
    ensures var records := Spider.Products(site).records;
            && |records| == S.ProductCount
            && forall k :: 0 <= k < |records| ==>
                 records[k]["link"].s == BaseUrl + DetailPath(k + 1)
                 && S.ProductDetail(products, k + 1) == S.Shown(products[k])
  {
    SpiderVisits(site, products);
    SpiderLinks(site, products);
    LinksToTable(Spider.Products(site).records, products);
    SixPages();
  }

  /** Any server that answers /products as the route does (RequestedServes)
      over the generated database: both crawls visit pages 1..6 and collect
      30 records, and the spider's record k links to the detail page of
      product k+1. */
  lemma GeneratedCrawls(schema: seq<Field>, serve: nat -> Transport, products: seq<S.Product>,
                        draws: nat -> S.ProductDraw, clock: S.Clock)
    requires S.ProductsDrawn(products, draws, clock)
    requires Serves(serve, ProductElement, products)
    ensures SpiderSite(UASite(serve, ProductElement, products), products)
    ensures var site := UASite(serve, ProductElement, products);
            && UA.Linked(schema, site).visited == [1, 2, 3, 4, 5, 6]
            && |UA.Linked(schema, site).records| == S.ProductCount
            && Spider.Products(site).visited == [1, 2, 3, 4, 5, 6]
            && |Spider.Products(site).records| == S.ProductCount
            && forall k :: 0 <= k < |Spider.Products(site).records| ==>
                 Spider.Products(site).records[k]["link"].s == BaseUrl + DetailPath(k + 1)
                 && S.ProductDetail(products, k + 1) == S.Shown(products[k])
  {
    S.GeneratedSite(products, draws, clock);
    ListingRendersLinks();
    ServesSpider(serve, ProductElement, products);
    SpiderSiteOf(serve, products);
    TableCrawlUA(schema, serve, products);
    TableCrawlSpider(UASite(serve, ProductElement, products), products);
  }
}
