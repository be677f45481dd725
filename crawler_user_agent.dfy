/** The plain crawler with a random User-Agent: one request per page, no
    retry and no status check; listings are followed through their "下一页"
    link; every field extractor is isolated; the first three users are
    enriched from their detail pages. */
module UserAgentCrawler {
  import opened PyText
  import opened Scrape

  // ---------------------------------------------------------------------
  // Request headers

  const UserAgents: seq<string> := [
    "Mozilla/5.0 (Windows NT 10.0; Win64; x64) AppleWebKit/537.36 (KHTML, like Gecko) Chrome/91.0.4472.124 Safari/537.36",
    "Mozilla/5.0 (Windows NT 10.0; Win64; x64; rv:89.0) Gecko/20100101 Firefox/89.0",
    "Mozilla/5.0 (Macintosh; Intel Mac OS X 10_15_7) AppleWebKit/537.36 (KHTML, like Gecko) Chrome/91.0.4472.124 Safari/537.36",
    "Mozilla/5.0 (Macintosh; Intel Mac OS X 10_15_7) AppleWebKit/605.1.15 (KHTML, like Gecko) Version/14.1.1 Safari/605.1.15",
    "Mozilla/5.0 (Windows NT 10.0; Win64; x64) AppleWebKit/537.36 (KHTML, like Gecko) Chrome/91.0.4472.124 Safari/537.36 Edg/91.0.864.59",
    "Mozilla/5.0 (iPhone; CPU iPhone OS 14_6 like Mac OS X) AppleWebKit/605.1.15 (KHTML, like Gecko) Version/14.0 Mobile/15E148 Safari/604.1",
    "Mozilla/5.0 (Linux; Android 10; SM-G981B) AppleWebKit/537.36 (KHTML, like Gecko) Chrome/91.0.4472.120 Mobile Safari/537.36"]

  const Accept := "text/html,application/xhtml+xml,application/xml;q=0.9,image/webp,*/*;q=0.8"
  const AcceptLanguage := "en-US,en;q=0.5"

  datatype Headers = Headers(userAgent: string, accept: string, acceptLanguage: string)

  /** get_random_headers(); `pick` is the draw of random.choice. */
  function RandomHeaders(pick: nat): (h: Headers)
    ensures h.userAgent in UserAgents
    ensures h.accept == Accept && h.acceptLanguage == AcceptLanguage
  {
    Headers(UserAgents[pick % |UserAgents|], Accept, AcceptLanguage)
  }

  // ---------------------------------------------------------------------
  // Following the next-page link

  /** The loop ends after this answer: the request raised, or the page has
      no next-page link. */
  predicate Stops(t: Transport) {
    t.Unreachable? || !t.response.html.nextLink
  }

  /** A site whose answers for pages 1 to |site| end the loop by the last
      of them. */
  predicate Finite(site: seq<Transport>) {
    |site| >= 1 && Stops(site[|site| - 1])
  }

  /** crawl_paginated_data from `page` on; `site[p - 1]` is what
      requests.get gives for page p. */
  function LinkedFrom(schema: seq<Field>, site: seq<Transport>, page: nat): PageRun
    requires Finite(site) && 1 <= page <= |site|
    decreases |site| - page
  {
    match site[page - 1]
    case Unreachable => PageRun([], [page])
    case Delivered(resp) =>
      var here := Harvest(schema, resp.html.items);
      if resp.html.nextLink then
        var rest := LinkedFrom(schema, site, page + 1);
        PageRun(here + rest.records, [page] + rest.visited)
      else PageRun(here, [page])
  }

  function Linked(schema: seq<Field>, site: seq<Transport>): PageRun
    requires Finite(site)
  {
    LinkedFrom(schema, site, 1)
  }

  /** crawl_paginated_data(base_path, item_class, field_extractors). */
  method CrawlPaginated(schema: seq<Field>, site: seq<Transport>)
    returns (data: seq<Record>, visited: seq<nat>)
    requires Finite(site)
    ensures PageRun(data, visited) == Linked(schema, site)
  {
    data, visited := [], [];
    var page := 1;
    while true
      invariant 1 <= page <= |site|
      invariant Remaining(data, visited, LinkedFrom(schema, site, page)) == Linked(schema, site)
      decreases |site| - page
    {
      ghost var before := PageRun(data, visited);
      visited := visited + [page];
      var reply := site[page - 1];
      if reply.Unreachable? {
        break;
      }
      var html := reply.response.html;
      data := ExtractPage(schema, html.items, data);
      if !html.nextLink {
        break;
      }
      RemainingStep(before, Harvest(schema, html.items), page, LinkedFrom(schema, site, page + 1));
      page := page + 1;
    }
  }

  /** The records one answer contributes. */
  function PageRecords(schema: seq<Field>, t: Transport): seq<Record> {
    match t
    case Delivered(resp) => Harvest(schema, resp.html.items)
    case Unreachable => []
  }

  /** The records of the delivered pages among `pages`, in page order. */
  function Gathered(schema: seq<Field>, site: seq<Transport>, pages: seq<nat>): seq<Record>
    requires forall k :: 0 <= k < |pages| ==> 1 <= pages[k] <= |site|
  {
    if pages == [] then []
    else PageRecords(schema, site[pages[0] - 1]) + Gathered(schema, site, pages[1..])
  }

  lemma GatheredFirst(schema: seq<Field>, site: seq<Transport>, page: nat, pages: seq<nat>)
    requires 1 <= page <= |site| && forall k :: 0 <= k < |pages| ==> 1 <= pages[k] <= |site|
    ensures Gathered(schema, site, [page] + pages) == PageRecords(schema, site[page - 1]) + Gathered(schema, site, pages)
  {
    assert ([page] + pages)[0] == page && ([page] + pages)[1..] == pages;
  }

  /** From `page` on the crawl asks for consecutive pages, goes past a page
      only when it came back with a next-page link, and ends at the first
      page that stops it. */
  lemma {:induction false} LinkedFromShape(schema: seq<Field>, site: seq<Transport>, page: nat)
    requires Finite(site) && 1 <= page <= |site|
    ensures var run := LinkedFrom(schema, site, page);
            && 1 <= |run.visited| <= |site| - page + 1
            && (forall k :: 0 <= k < |run.visited| ==> run.visited[k] == page + k)
            && (forall k :: 0 <= k < |run.visited| - 1 ==> !Stops(site[run.visited[k] - 1]))
            && Stops(site[page + |run.visited| - 2])
    decreases |site| - page
  {
    var run := LinkedFrom(schema, site, page);
    if !Stops(site[page - 1]) {
      var rest := LinkedFrom(schema, site, page + 1);
      LinkedFromShape(schema, site, page + 1);
      assert run.visited == [page] + rest.visited;
    }
  }

  /** The records from `page` on are those of the pages it got. */
  lemma {:induction false} LinkedFromRecords(schema: seq<Field>, site: seq<Transport>, page: nat)
    requires Finite(site) && 1 <= page <= |site|
    ensures var run := LinkedFrom(schema, site, page);
            && (forall k :: 0 <= k < |run.visited| ==> 1 <= run.visited[k] <= |site|)
            && run.records == Gathered(schema, site, run.visited)
    decreases |site| - page
  {
    var run := LinkedFrom(schema, site, page);
    LinkedFromShape(schema, site, page);
    if !Stops(site[page - 1]) {
      var rest := LinkedFrom(schema, site, page + 1);
      LinkedFromRecords(schema, site, page + 1);
      GatheredFirst(schema, site, page, rest.visited);
      assert run == PageRun(PageRecords(schema, site[page - 1]) + rest.records, [page] + rest.visited);
    } else {
      GatheredFirst(schema, site, page, []);
      assert run == PageRun(PageRecords(schema, site[page - 1]) + [], [page] + []);
    }
  }

  /** The crawl asks for pages 1, 2, ... once each, with no cap, going on
      exactly while the page came back with a next-page link; a request that
      raises ends it. */
  lemma LinkedVisits(schema: seq<Field>, site: seq<Transport>)
    requires Finite(site)
    ensures var visited := Linked(schema, site).visited;
            && 1 <= |visited| <= |site|
            && (forall k :: 0 <= k < |visited| ==> visited[k] == k + 1)
            && (forall k :: 0 <= k < |visited| - 1 ==>
                  site[k].Delivered? && site[k].response.html.nextLink)
            && Stops(site[|visited| - 1])
  {
    LinkedFromShape(schema, site, 1);
    var visited := Linked(schema, site).visited;
    forall k | 0 <= k < |visited| - 1
      ensures site[k].Delivered? && site[k].response.html.nextLink
    {
      assert visited[k] == k + 1;
    }
  }

  /** The records are those of the pages got before the crawl ended; a
      request that raises keeps the earlier ones. */
  lemma LinkedRecords(schema: seq<Field>, site: seq<Transport>)
    requires Finite(site)
    ensures var run := Linked(schema, site);
            && (forall k :: 0 <= k < |run.visited| ==> 1 <= run.visited[k] <= |site|)
            && run.records == Gathered(schema, site, run.visited)
  {
    LinkedFromRecords(schema, site, 1);
  }

  // ---------------------------------------------------------------------
  // The field extractors of crawl_website

  /** div.find("h3").get_text(strip=True): raises when there is no h3. */
  function Heading(e: Element): (a: Attempt)
    ensures a.Raised? <==> e.heading.None?
  {
    match e.heading
    case Some(t) => Got(Str(t))
    case None => Raised
  }

  /** urljoin(BASE_URL, div.find("a")["href"]): raises when there is no a or
      no href. */
  function Link(e: Element): (a: Attempt)
    ensures a.Raised? <==> e.href.None?
  {
    match e.href
    case Some(h) => Got(Str(UrlJoin(BaseUrl, h)))
    case None => Raised
  }

  /** int(extract_field(div, "浏览量:")) on the extracted field. */
  function Views(f: string): (a: Attempt)
    ensures a.Raised? <==> ParseInt(f).None?
    ensures a.Got? ==> a.value == Int(ParseInt(f).value)
  {
    match ParseInt(f)
    case Some(n) => Got(Int(n))
    case None => Raised
  }

  const ProductSchema: seq<Field> := [
    Field("name", (e: Element) => Heading(e)),
    Field("link", (e: Element) => Link(e)),
    Field("category", (e: Element) => Got(Str(FieldAfter(e.text, "类别:")))),
    Field("price", (e: Element) => Got(Str(FieldAfter(e.text, "价格:")))),
    Field("specs", (e: Element) => Got(Specs(e))),
    Field("created_at", (e: Element) => Got(Str(FieldAfter(e.text, "上架时间:"))))]

  const NewsSchema: seq<Field> := [
    Field("title", (e: Element) => Heading(e)),
    Field("link", (e: Element) => Link(e)),
    Field("publish_date", (e: Element) => Got(Str(FieldAfter(e.text, "日期:")))),
    Field("author", (e: Element) => Got(Str(FieldAfter(e.text, "作者:")))),
    Field("views", (e: Element) => Views(FieldAfter(e.text, "浏览量:")))]

  /** A news item whose view count is not an integer gets None there, not 0,
      and an integer one gets that integer. */
  lemma NewsViews(item: Element)
    ensures var r := Extracted(NewsSchema, item);
            var f := FieldAfter(item.text, "浏览量:");
            && "views" in r
            && (ParseInt(f).None? ==> r["views"] == Null)
            && (ParseInt(f).Some? ==> r["views"] == Int(ParseInt(f).value))
  {
    NewsNames();
    ExtractedAt(NewsSchema, item, 4);
  }

  lemma NewsNames()
    ensures DistinctNames(NewsSchema) && NewsSchema[4].name == "views"
  {
  }

  /** A product without a heading gets None for its name, and its other
      fields are extracted as usual. */
  lemma ProductWithoutName(item: Element)
    requires item.heading.None?
    ensures var r := Extracted(ProductSchema, item);
            && "name" in r && r["name"] == Null
            && "category" in r && r["category"] == Str(FieldAfter(item.text, "类别:"))
  {
    assert DistinctNames(ProductSchema);
    ExtractedAt(ProductSchema, item, 0);
    ExtractedAt(ProductSchema, item, 2);
  }

  // ---------------------------------------------------------------------
  // The users stage

  /** crawl_user_detail(url) on what requests.get gives: the three fields,
      or {} when the request raises. */
  function UserDetail(t: Transport): (detail: Record)
    ensures t.Unreachable? <==> detail == map[]
    ensures "detail_link" !in detail
  {
    assert "detail_link" !in DetailKeys;
    match t
    case Unreachable => map[]
    case Delivered(resp) =>
      var text := resp.html.text;
      DetailRecord(FieldAfter(text, "邮箱:"), FieldAfter(text, "电话:"), FieldAfter(text, "最后登录:"))
  }

  /** crawl_user_detail as a function of the URL; `details(url)` is what
      the network gives that URL. */
  function UserDetails(details: string -> Transport): (fetch: string -> Record)
    ensures forall url :: "detail_link" !in fetch(url)
  {
    assert forall url :: "detail_link" !in UserDetail(details(url));
    (url: string) => UserDetail(details(url))
  }

  method CrawlUserDetail(t: Transport) returns (detail: Record)
    ensures detail == UserDetail(t)
  {
    if t.Unreachable? {
      return map[];
    }
    var text := t.response.html.text;
    detail := DetailRecord(FieldAfter(text, "邮箱:"), FieldAfter(text, "电话:"), FieldAfter(text, "最后登录:"));
  }

  /** A detail request that raises leaves the user as it was. */
  lemma EnrichFailed(user: Record, details: string -> Transport)
    requires HasDetailLink(user)
    requires details(DetailLink(user)).Unreachable?
    ensures Merged(user, "detail_link", UserDetails(details)) == user
  {
    UpdateEmpty(user);
  }

  /** The loop over users[:3]. */
  method EnrichFirstThree(users: array<Record>, details: string -> Transport)
    requires forall i :: 0 <= i < users.Length ==> HasStr(users[i], "detail_link")
    modifies users
    ensures users[..] == UpdatedAt(old(users[..]), Range(Min(3, users.Length)), "detail_link", UserDetails(details))
  {
    ghost var listed := users[..];
    ghost var fetch := UserDetails(details);
    for i := 0 to Min(3, users.Length)
      invariant users[..] == UpdatedAt(listed, Range(i), "detail_link", fetch)
    {
      assert Range(i + 1)[..i] == Range(i);
      var detail := CrawlUserDetail(details(users[i]["detail_link"].s));
      users[i] := Update(users[i], detail);
    }
  }

  /** The users the listing yields: None when its request raises or a kept
      row's id is not an integer. */
  function ListedUsers(listing: Transport): (users: Option<seq<Record>>)
    ensures users.Some? <==> listing.Delivered? && Users(listing.response.html.items).Some?
    ensures users.Some? ==> users == Users(listing.response.html.items)
    ensures users.Some? ==> forall i :: 0 <= i < |users.value| ==> HasDetailLink(users.value[i])
  {
    match listing
    case Unreachable => None
    case Delivered(resp) =>
      var rows := resp.html.items;
      if Users(rows).Some? then UsersLinked(rows); Users(rows) else None
  }

  /** What the users stage saves: every listed user, the first three
      enriched; None when the listing fails. */
  function UsersStage(listing: Transport, details: string -> Transport): Option<seq<Record>> {
    match ListedUsers(listing)
    case None => None
    case Some(users) => Some(UpdatedAt(users, Range(Min(3, |users|)), "detail_link", UserDetails(details)))
  }

  /** The stage saves exactly when the listing does not fail; then it saves
      one user per listed user, the first three merged with their own detail
      pages and the others as listed. */
  lemma UsersStageSaves(listing: Transport, details: string -> Transport)
    ensures UsersStage(listing, details).Some? <==> ListedUsers(listing).Some?
    ensures UsersStage(listing, details).Some? ==>
              var users := ListedUsers(listing).value;
              var saved := UsersStage(listing, details).value;
              && |saved| == |users|
              && (forall i :: 0 <= i < Min(3, |users|) ==>
                    saved[i] == Merged(users[i], "detail_link", UserDetails(details)))
              && (forall i :: 3 <= i < |users| ==> saved[i] == users[i])
  {
    if UsersStage(listing, details).Some? {
      var users := ListedUsers(listing).value;
      UpdatedFirst(users, Min(3, |users|), "detail_link", UserDetails(details));
    }
  }

  /** The users stage of crawl_website. */
  method CrawlUsers(listing: Transport, details: string -> Transport) returns (saved: Option<seq<Record>>)
    ensures saved == UsersStage(listing, details)
  {
    if listing.Unreachable? {
      return None;
    }
    var rows := listing.response.html.items;
    var listed := CollectUsers(rows);
    if listed.None? {
      return None;
    }
    var users := listed.value;
    assert ListedUsers(listing) == Some(users);
    var table := new Record[|users|](i requires 0 <= i < |users| => users[i]);
    assert table[..] == users;
    EnrichFirstThree(table, details);
    saved := Some(table[..]);
  }

  // ---------------------------------------------------------------------
  // The whole run

  /** What the network gives one run of crawl_website. */
  datatype Env = Env(productSite: seq<Transport>, newsSite: seq<Transport>,
                     usersPage: Transport, details: string -> Transport)

  /** crawl_website: products and news are always written, users when that
      stage does not raise. */
  method CrawlWebsite(env: Env) returns (saved: Saved)
    requires Finite(env.productSite) && Finite(env.newsSite)
    ensures saved.products == Some(Linked(ProductSchema, env.productSite).records)
    ensures saved.news == Some(Linked(NewsSchema, env.newsSite).records)
    ensures saved.users == UsersStage(env.usersPage, env.details)
  {
    var products, productPages := CrawlPaginated(ProductSchema, env.productSite);
    var news, newsPages := CrawlPaginated(NewsSchema, env.newsSite);
    var users := CrawlUsers(env.usersPage, env.details);
    saved := Saved(Some(products), Some(news), users);
  }
}
