/** The fixture web server the crawl scripts run against: an in-memory
    database of generated products, news and users; the product listing with
    five products per page and its prev/next links; the product detail page
    with its 404 answer; and the base template every page is appended to. */
module ServerWeb {
  import opened PyText

  // ---------------------------------------------------------------------
  // Generated database
  // ---------------------------------------------------------------------

  const Categories: seq<string> := ["云计算", "服务器", "数据库", "存储", "网络", "安全"]
  const CpuCores: seq<nat> := [2, 4, 8, 16]
  const MemorySizes: seq<nat> := [8, 16, 32, 64]
  const DiskSizes: seq<nat> := [100, 200, 500, 1000]
  const NewsTypes: seq<string> := ["产品发布", "优惠活动", "技术分享", "行业动态"]
  const Tags: seq<string> := ["重磅", "最新", "独家"]
  const Topics: seq<string> := ["云计算", "大数据", "人工智能"]
  const Authors: seq<string> := ["华为云官方", "技术专家", "市场部"]
  const Roles: seq<string> := ["管理员", "普通用户", "VIP用户", "测试用户"]

  const ProductCount := 30
  const NewsCount := 20
  const UserCount := 10

  /** random.choice(options), given the raw number the generator drew. */
  function Choice<T>(options: seq<T>, draw: nat): (r: T)
    requires |options| > 0
    ensures r in options
  {
    options[draw % |options|]
  }

  /** random.randint(lo, hi), both ends included, given the raw draw. */
  function RandInt(lo: int, hi: int, draw: nat): (r: int)
    requires lo <= hi
    ensures lo <= r <= hi
  {
    lo + draw % (hi - lo + 1)
  }

  /** The date `days` days before now, formatted "%Y-%m-%d". */
  type Clock = nat -> string

  predicate EndsWith(s: string, suffix: string) {
    |suffix| <= |s| && s[|s| - |suffix|..] == suffix
  }

  datatype Specs = Specs(cpu: string, memory: string, storage: string)

  /** A product dict; the price is kept in cents (it is a float rounded to
      two decimals in the server). */
  datatype Product = Product(
    id: nat,
    name: string,
    category: string,
    priceCents: nat,
    specs: Specs,
    description: string,
    createdAt: string)

  datatype NewsItem = NewsItem(id: nat, title: string, content: string, publishDate: string, author: string)

  datatype User = User(id: nat, username: string, email: string, role: string, registerDate: string)

  /** str(price) for a price of `cents` hundredths: Python prints the
      shortest decimal that reads back as the float, so 12.50 shows as
      "12.5" and 12.00 as "12.0". */
  function PriceText(cents: nat): (r: string)
    ensures forall k :: 0 <= k < |r| ==> r[k] == '.' || '0' <= r[k] <= '9'
    ensures '.' in r
  {
    var whole := NatToString(cents / 100);
    var frac := cents % 100;
    var decimals := if frac % 10 == 0 then [Digit(frac / 10)] else [Digit(frac / 10), Digit(frac % 10)];
    whole + "." + decimals
  }

  /** The ASCII digit that str() prints for `d`; reading it back gives `d`. */
  function Digit(d: nat): (c: char)
    requires d < 10
    ensures '0' <= c <= '9' && DigitValue(c) == d
  {
    '0' + d as char
  }

  /** The random numbers drawn while building one product, in draw order. */
  datatype ProductDraw = ProductDraw(
    nameCategory: nat, category: nat, price: nat,
    cpu: nat, memory: nat, disk: nat, descriptionCategory: nat, age: nat)

  datatype NewsDraw = NewsDraw(kind: nat, tag: nat, topic: nat, age: nat, author: nat)

  datatype UserDraw = UserDraw(role: nat, age: nat)

  /** The draws for every id of every table. */
  datatype Draws = Draws(products: nat -> ProductDraw, news: nat -> NewsDraw, users: nat -> UserDraw)

  /** The product the generator builds for id i. */
  function DrawnProduct(i: nat, d: ProductDraw, clock: Clock): (p: Product)
    ensures p.id == i
    ensures EndsWith(p.name, "服务" + NatToString(i))
    ensures p.category in Categories
    ensures 10000 <= p.priceCents <= 500000
    ensures EndsWith(p.specs.storage, "GB SSD")
    ensures exists days :: 1 <= days <= 365 && p.createdAt == clock(days)
  {
    var days := RandInt(1, 365, d.age);
    Product(
      i,
      Choice(Categories, d.nameCategory) + "服务" + NatToString(i),
      Choice(Categories, d.category),
      RandInt(10000, 500000, d.price),
      Specs(NatToString(Choice(CpuCores, d.cpu)) + "核",
            NatToString(Choice(MemorySizes, d.memory)) + "GB",
            NatToString(Choice(DiskSizes, d.disk)) + "GB SSD"),
      "这是" + Choice(Categories, d.descriptionCategory) + "类产品的详细描述，适用于各种企业场景",
      clock(days))
  }

  /** The news item the generator builds for id i. */
  function DrawnNews(i: nat, d: NewsDraw, clock: Clock): (n: NewsItem)
    ensures n.id == i
    ensures EndsWith(n.title, "消息")
    ensures n.author in Authors
    ensures exists days :: 1 <= days <= 60 && n.publishDate == clock(days)
  {
    var days := RandInt(1, 60, d.age);
    NewsItem(
      i,
      Choice(NewsTypes, d.kind) + "：" + Choice(Tags, d.tag) + "消息",
      "这里是新闻的详细内容，包含各种技术术语和产品介绍。本次新闻主要关于" + Choice(Topics, d.topic) + "领域的发展。",
      clock(days),
      Choice(Authors, d.author))
  }

  /** The user the generator builds for id i. */
  function DrawnUser(i: nat, d: UserDraw, clock: Clock): (u: User)
    ensures u.id == i
    ensures u.email == u.username + "@example.com"
    ensures u.role in Roles
    ensures exists days :: 30 <= days <= 365 && u.registerDate == clock(days)
  {
    var days := RandInt(30, 365, d.age);
    var name := "user" + NatToString(i);
    User(i, name, name + "@example.com", Choice(Roles, d.role), clock(days))
  }

  /** Different ids give different user names. */
  lemma UsernamesDistinct(i: nat, j: nat, di: UserDraw, dj: UserDraw, clock: Clock)
    requires i != j
    ensures DrawnUser(i, di, clock).username != DrawnUser(j, dj, clock).username
  {
    if DrawnUser(i, di, clock).username == DrawnUser(j, dj, clock).username {
      var a := "user" + NatToString(i);
      var b := "user" + NatToString(j);
      assert a[4..] == NatToString(i) && b[4..] == NatToString(j);
      DecimalValueOfNatToString(i);
      DecimalValueOfNatToString(j);
    }
  }

  /** The table built for ids 1..count, in id order. */
  ghost predicate ProductsDrawn(products: seq<Product>, draws: nat -> ProductDraw, clock: Clock) {
    |products| == ProductCount
    && forall k :: 0 <= k < |products| ==> products[k] == DrawnProduct(k + 1, draws(k + 1), clock)
  }

  ghost predicate NewsDrawn(news: seq<NewsItem>, draws: nat -> NewsDraw, clock: Clock) {
    |news| == NewsCount
    && forall k :: 0 <= k < |news| ==> news[k] == DrawnNews(k + 1, draws(k + 1), clock)
  }

  ghost predicate UsersDrawn(users: seq<User>, draws: nat -> UserDraw, clock: Clock) {
    |users| == UserCount
    && forall k :: 0 <= k < |users| ==> users[k] == DrawnUser(k + 1, draws(k + 1), clock)
  }

  /** Ids run 1, 2, 3, ... in table order. */
  predicate ConsecutiveIds(products: seq<Product>) {
    forall k :: 0 <= k < |products| ==> products[k].id == k + 1
  }

  /** The in-memory database the routes read. */
  class Database {
    var products: seq<Product>
    var news: seq<NewsItem>
    var users: seq<User>

    constructor(draws: Draws, clock: Clock)
      ensures ProductsDrawn(products, draws.products, clock)
      ensures NewsDrawn(news, draws.news, clock)
      ensures UsersDrawn(users, draws.users, clock)
    {
      var p := GenerateProducts(draws.products, clock);
      var n := GenerateNews(draws.news, clock);
      var u := GenerateUsers(draws.users, clock);
      products, news, users := p, n, u;
    }

    /** Appends one product per id 1..30. */
    static method GenerateProducts(draws: nat -> ProductDraw, clock: Clock) returns (products: seq<Product>)
      ensures ProductsDrawn(products, draws, clock)
      ensures ConsecutiveIds(products)
    {
      products := [];
      for i := 1 to ProductCount + 1
        invariant |products| == i - 1
        invariant forall k :: 0 <= k < |products| ==> products[k] == DrawnProduct(k + 1, draws(k + 1), clock)
      {
        products := products + [DrawnProduct(i, draws(i), clock)];
      }
    }

    /** Appends one news item per id 1..20. */
    static method GenerateNews(draws: nat -> NewsDraw, clock: Clock) returns (news: seq<NewsItem>)
      ensures NewsDrawn(news, draws, clock)
      ensures forall k :: 0 <= k < |news| ==> news[k].id == k + 1
    {
      news := [];
      for i := 1 to NewsCount + 1
        invariant |news| == i - 1
        invariant forall k :: 0 <= k < |news| ==> news[k] == DrawnNews(k + 1, draws(k + 1), clock)
      {
        news := news + [DrawnNews(i, draws(i), clock)];
      }
    }

    /** Appends one user per id 1..10. */
    static method GenerateUsers(draws: nat -> UserDraw, clock: Clock) returns (users: seq<User>)
      ensures UsersDrawn(users, draws, clock)
      ensures forall k :: 0 <= k < |users| ==> users[k].id == k + 1
    {
      users := [];
      for i := 1 to UserCount + 1
        invariant |users| == i - 1
        invariant forall k :: 0 <= k < |users| ==> users[k] == DrawnUser(k + 1, draws(k + 1), clock)
      {
        users := users + [DrawnUser(i, draws(i), clock)];
      }
    }
  }

  // ---------------------------------------------------------------------
  // /products: pagination
  // ---------------------------------------------------------------------

  const PerPage := 5

  /** (n + per_page - 1) // per_page: the smallest page count that holds n
      products. */
  function TotalPages(n: nat): (t: nat)
    ensures n <= t * PerPage
    ensures t == 0 || (t - 1) * PerPage < n
  {
    (n + PerPage - 1) / PerPage
  }

  /** A Python slice bound: negative counts from the end, then clamped. */
  function SliceIndex(i: int, n: nat): (j: nat)
    ensures j <= n
    ensures 0 <= i <= n ==> j == i
  {
    if i < 0 then (if i + n < 0 then 0 else i + n)
    else if i > n then n
    else i
  }

  /** s[lo:hi] in Python. */
  function PySlice<T>(s: seq<T>, lo: int, hi: int): (r: seq<T>)
    ensures 0 <= lo <= hi ==> r == s[SliceIndex(lo, |s|)..SliceIndex(hi, |s|)]
  {
    var a := SliceIndex(lo, |s|);
    var b := SliceIndex(hi, |s|);
    if a < b then s[a..b] else []
  }

  /** db.products[(page-1)*per_page : page*per_page]. */
  function PageSlice<T>(s: seq<T>, page: int): seq<T> {
    PySlice(s, (page - 1) * PerPage, page * PerPage)
  }

  /** Every page, of any number, holds at most five products, each the
      product at its own offset in the table. */
  lemma PageSliceAt<T>(s: seq<T>, page: int)
    ensures |PageSlice(s, page)| <= PerPage
    ensures page >= 1 ==> forall j :: 0 <= j < |PageSlice(s, page)| ==>
              (page - 1) * PerPage + j < |s| && PageSlice(s, page)[j] == s[(page - 1) * PerPage + j]
  {
  }

  /** From page 1 on, a page is empty exactly when it lies past the last
      page. */
  lemma PageNonEmpty<T>(s: seq<T>, page: int)
    ensures page >= 1 ==> (PageSlice(s, page) != [] <==> page <= TotalPages(|s|))
  {
  }

  /** Pages 1..k laid end to end. */
  function Pages<T>(s: seq<T>, k: nat): seq<T> {
    if k == 0 then [] else Pages(s, k - 1) + PageSlice(s, k)
  }

  lemma {:induction false} PagesPrefix<T>(s: seq<T>, k: nat)
    ensures Pages(s, k) == s[..if k * PerPage <= |s| then k * PerPage else |s|]
  {
    if k > 0 {
      PagesPrefix(s, k - 1);
    }
  }

  /** Pages 1..total_pages, in order, are the whole table. */
  lemma PagesCover<T>(s: seq<T>)
    ensures Pages(s, TotalPages(|s|)) == s
  {
    PagesPrefix(s, TotalPages(|s|));
  }

  /** Page 0 is empty; a negative page counts back from the end of the
      table, so page -1 shows the five products ending five before the
      last. */
  lemma NegativePage<T>(s: seq<T>, page: int)
    requires page <= 0
    ensures page == 0 ==> PageSlice(s, page) == []
    ensures page < 0 && |s| + (page - 1) * PerPage >= 0 ==>
              PageSlice(s, page) == s[|s| + (page - 1) * PerPage..|s| + page * PerPage]
  {
  }

  /** request.args.get('page', 1, type=int): the argument converted by int(),
      or 1 when it is absent or int() raises. */
  function PageArg(arg: Option<string>): (page: int)
    ensures arg.None? ==> page == 1
    ensures arg.Some? && ParseInt(arg.value).None? ==> page == 1
  {
    match arg
    case None => 1
    case Some(s) => ParseInt(s).GetOr(1)
  }

  /** The page number a link writes is the page number the route reads. */
  lemma PageArgRoundTrip(page: int)
    ensures PageArg(Some(IntToString(page))) == page
  {
    ParseIntToString(page);
  }

  /** What the listing template is given. */
  datatype Listing = Listing(products: seq<Product>, page: int, totalPages: nat, hasPrev: bool, hasNext: bool)

  /** product_list(): the page's products and its link flags. */
  function ProductList(products: seq<Product>, arg: Option<string>): (l: Listing)
    ensures |l.products| <= PerPage
    ensures l.page >= 1 ==> (l.products != [] <==> l.page <= l.totalPages)
    ensures l.totalPages == TotalPages(|products|)
  {
    var page := PageArg(arg);
    PageSliceAt(products, page);
    PageNonEmpty(products, page);
    Listing(PageSlice(products, page), page, TotalPages(|products|), page > 1, page < TotalPages(|products|))
  }

  /** From page 0 on, the "下一页" link is shown exactly when the next page
      has products; from page 2 up to one past the last page, the "上一页"
      link leads to a page with products. */
  lemma ListingLinks(products: seq<Product>, page: int)
    requires page >= 0
    ensures ProductList(products, Some(IntToString(page))).hasNext <==> PageSlice(products, page + 1) != []
    ensures ProductList(products, Some(IntToString(page))).hasPrev <==> page >= 2
    ensures 2 <= page <= TotalPages(|products|) + 1 ==> PageSlice(products, page - 1) != []
  {
    PageArgRoundTrip(page);
    PageNonEmpty(products, page + 1);
    PageNonEmpty(products, page - 1);
  }

  // ---------------------------------------------------------------------
  // /product/<int:id>
  // ---------------------------------------------------------------------

  /** The position of the first product with this id, as the generator
      expression passed to next() finds it. */
  function FirstWithId(products: seq<Product>, id: nat): (r: Option<nat>)
    ensures r.Some? ==> r.value < |products| && products[r.value].id == id
    ensures r.Some? ==> forall j :: 0 <= j < r.value ==> products[j].id != id
    ensures r.None? <==> forall j :: 0 <= j < |products| ==> products[j].id != id
  {
    if products == [] then None
    else if products[0].id == id then Some(0)
    else
      match FirstWithId(products[1..], id)
      case None => None
      case Some(k) => Some(k + 1)
  }

  datatype DetailPage = Shown(product: Product) | Missing(body: string, status: int)

  /** product_detail(id): the first product with the id, or the 404 reply.
      The route's int converter only matches non-negative numbers. */
  function ProductDetail(products: seq<Product>, id: nat): (r: DetailPage)
    ensures r.Shown? ==> r.product in products && r.product.id == id
    ensures r.Missing? <==> forall j :: 0 <= j < |products| ==> products[j].id != id
    ensures r.Missing? ==> r.body == "产品不存在" && r.status == 404
  {
    match FirstWithId(products, id)
    case None => Missing("产品不存在", 404)
    case Some(k) => Shown(products[k])
  }

  /** On a table with consecutive ids, product i is row i - 1 and every
      other id is answered with 404. */
  lemma DetailOfConsecutive(products: seq<Product>, id: nat)
    requires ConsecutiveIds(products)
    ensures 1 <= id <= |products| ==> ProductDetail(products, id) == Shown(products[id - 1])
    ensures (id == 0 || id > |products|) ==> ProductDetail(products, id).Missing?
  {
    if 1 <= id <= |products| {
      assert products[id - 1].id == id;
    }
  }

  /** With the generated database, the listing has six pages and product
      pages 1..30 exist. */
  lemma GeneratedSite(products: seq<Product>, draws: nat -> ProductDraw, clock: Clock)
    requires ProductsDrawn(products, draws, clock)
    ensures |products| == ProductCount && ConsecutiveIds(products)
    ensures TotalPages(|products|) == 6
    ensures forall id: nat :: 1 <= id <= ProductCount ==> ProductDetail(products, id) == Shown(products[id - 1])
    ensures ProductDetail(products, 0).Missing? && ProductDetail(products, ProductCount + 1).Missing?
  {
    assert ConsecutiveIds(products);
    forall id: nat | 1 <= id <= ProductCount
      ensures ProductDetail(products, id) == Shown(products[id - 1])
    {
      DetailOfConsecutive(products, id);
    }
    DetailOfConsecutive(products, 0);
    DetailOfConsecutive(products, ProductCount + 1);
  }

  // ---------------------------------------------------------------------
  // Base template
  // ---------------------------------------------------------------------

  const DocumentEnd := "</html>\n"

  /** BASE_TEMPLATE up to its closing html tag. */
  const TemplateHead: string :=
    "\n"
    + "<!DOCTYPE html>\n"
    + "<html>\n"
    + "<head>\n"
    + "    <title>云计算服务测试平台</title>\n"
    + "    <style>\n"
    + "        body { font-family: Arial, sans-serif; margin: 20px; }\n"
    + "        .container { display: flex; }\n"
    + "        .sidebar { width: 200px; padding: 10px; }\n"
    + "        .content { flex: 1; padding: 10px; }\n"
    + "        .product, .news-item, .user { border: 1px solid #ddd; padding: 15px; margin-bottom: 10px; }\n"
    + "        .pagination { margin-top: 20px; }\n"
    + "        a { margin: 0 5px; }\n"
    + "    </style>\n"
    + "</head>\n"
    + "<body>\n"
    + "    <h1>云计算服务测试平台</h1>\n"
    + "    <div class=\"container\">\n"
    + "        <div class=\"sidebar\">\n"
    + "            <h3>导航</h3>\n"
    + "            <ul>\n"
    + "                <li><a href=\"/\">首页</a></li>\n"
    + "                <li><a href=\"/products\">产品列表</a></li>\n"
    + "                <li><a href=\"/news\">新闻中心</a></li>\n"
    + "                <li><a href=\"/users\">用户管理</a></li>\n"
    + "            </ul>\n"
    + "        </div>\n"
    + "        <div class=\"content\">\n"
    + "            {% block content %}{% endblock %}\n"
    + "        </div>\n"
    + "    </div>\n"
    + "</body>\n"

  const BaseTemplate := TemplateHead + DocumentEnd

  /** render_with_base(content): the template text followed by the content. */
  function RenderWithBase(content: string): (page: string)
    ensures |page| == |BaseTemplate| + |content|
    ensures StartsWithTemplate(page) && page[|BaseTemplate|..] == content
  {
    BaseTemplate + content
  }

  predicate StartsWithTemplate(page: string) {
    |BaseTemplate| <= |page| && page[..|BaseTemplate|] == BaseTemplate
  }

  /** The content is not placed in the template's content block: it comes
      after the document's closing html tag. */
  lemma ContentAfterDocument(content: string)
    ensures OccursAt(RenderWithBase(content), DocumentEnd, |TemplateHead|)
    ensures RenderWithBase(content)[|TemplateHead| + |DocumentEnd|..] == content
  {
    var page := RenderWithBase(content);
    assert page == TemplateHead + (DocumentEnd + content);
  }
}
