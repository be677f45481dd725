# Crawlers and fixture server of a cloud-service test site

This project models, in Dafny, three crawl scripts and the Flask fixture site
they were written against:

- `anti_anti_crawler.py`: `request_with_retry` (three attempts, a random proxy, headers drawn only when the
  caller gave none, a ten-second timeout, HTTP errors, the anti-crawler marker), a paginated crawl capped
  at five pages that goes on with a 70 % draw, per-field fault-isolated extraction (`extract_with_bs4`,
  `extract_field`, `extract_spec`), and the users table with a random sample of three to five detail pages.
- `crawler-User-Agent.py`: the same stages without retries, following the "下一页" link until a page has
  none, and enriching the first three users.
- `spider.py`: `crawl_products` (a product dict per `.product` div, built in one expression, so one bad
  div ends the crawl), `crawl_news`, and `crawl_product_details` over the first five products.
- `server_web.py`: the generated database (30 products, 20 news items, 10 users), the `/products` listing
  with five products per page and Python slice semantics, the `/product/<id>` detail route with its 404,
  and `render_with_base`.

The modules are:

- `PyText`: the Python string operations the scripts rely on (`in`, `split`, `strip`, `replace`, `isdigit`,
  `int()`, `str()`).
- `Scrape`: the shared data model. It holds JSON values, records, parsed elements and pages, and what a
  request gives. It also holds the field-by-field extraction loop, the users-table loop, the
  `urljoin` reference forms an href can take, and `dict.update` applied to selected records.
- `AntiAntiCrawler`, `UserAgentCrawler`, `Spider` and `ServerWeb`: one module per source file.
- `EndToEnd`: feeds the server's listing pages to the two next-link crawls. It proves that both crawls
  visit pages 1 to `total_pages` (page 1 alone when there are no products). The User-Agent crawl collects one record per product, in table order. The
  spider's record k links to `/product/<k+1>`, and the detail route answers that path with product k+1.

Randomness, the network and the clock are parameters: draw functions (`nat -> ...`), a `Transport` per
request (a delivered response or a raised exception), and a `Clock` from a day offset to a date string.
HTML parsing is abstracted as an `Html` value: the page text, the elements the item selector matches
(their text, first h3, first href, paragraphs and cells), and whether the "下一页" link is present.

Loops in the source are methods with loop invariants, each proved against a specification function:
`ExtractPage`, `CollectUsers`, `RequestWithRetry`, `CrawlPaginated` in both crawler modules,
`CrawlProducts` and `ParsePage`. The in-place `user.update(...)` / `product.update(...)` passes are
methods over an `array<Record>`. The database is a class whose constructor fills its three tables.

Two facts about the code shape the model:

- `raise_for_status` raises only for statuses 400 to 599, as `requests` does.
- `server_web.py` has no `/news`, `/users` or `/user/<id>` routes. The crawls of those paths are modelled
  against arbitrary server answers.

## Model

| member | source | states |
|---|---|---|
| PyText.ContainsChar | anti_anti_crawler.py:65 | a one-character substring test is character membership |
| PyText.FindFrom | anti_anti_crawler.py:65 | finds the first occurrence at or after the start, and none is skipped |
| PyText.Find | anti_anti_crawler.py:65 | finds the first occurrence; None exactly when the pattern is not in the text |
| PyText.Split | anti_anti_crawler.py:245 | str.split gives at least one part and no part contains the separator |
| PyText.SplitFound | spider.py:30 | when the separator occurs, split gives at least two parts (so `[1]` does not raise) |
| PyText.JoinSplit | anti_anti_crawler.py:245 | joining the parts of a split with the separator gives the text back |
| PyText.FirstPart | anti_anti_crawler.py:245 | `split(sep)[0]` is the prefix that ends exactly where str.find puts the first separator, or the whole text when there is none |
| PyText.LastPart | anti_anti_crawler.py:245 | `split(sep)[-1]` is a separator-free suffix that directly follows an occurrence of the separator; the whole text when there is none |
| PyText.AfterLastUnique | anti_anti_crawler.py:245 | for a separator that cannot overlap itself, at most one separator-free suffix directly follows an occurrence |
| PyText.LastPartExact | anti_anti_crawler.py:245 | for such a separator, `split(sep)[-1]` is the one separator-free suffix after an occurrence, i.e. the text after the last one |
| PyText.LastCharOnce | anti_anti_crawler.py:245 | a separator whose last character occurs only once cannot overlap itself |
| PyText.SplitAfterFirst | spider.py:29-30 | `split("\|")` of a text whose first "\|" follows a gives a, then the first piece of what comes after that "\|" |
| PyText.LastPartAfterChar | spider.py:72 | `split("\|")[-1]` is exactly what follows the last "\|", whatever comes before it |
| PyText.LastPartAfterOnly | anti_anti_crawler.py:245 | when the tag occurs once, `split(tag)[-1]` is exactly what follows it |
| PyText.FirstPartBefore | anti_anti_crawler.py:245 | `split(c)[0]` of a value followed by c (or nothing) is the value |
| PyText.FirstPartChars | anti_anti_crawler.py:245 | the first part holds only characters of the text |
| PyText.LastPartChars | anti_anti_crawler.py:245 | the last part holds only characters of the text |
| PyText.Replace | spider.py:29 | replacing a pattern that does not occur changes nothing |
| PyText.ReplaceOnly | spider.py:29-30 | replacing a pattern that occurs exactly once puts the replacement in its place and leaves the text around it unchanged |
| PyText.StripLeft | anti_anti_crawler.py:245 | removes exactly the leading whitespace |
| PyText.StripRight | anti_anti_crawler.py:245 | removes exactly the trailing whitespace |
| PyText.Strip | anti_anti_crawler.py:245 | the result is a slice of the text with only white space before and after it, and it neither starts nor ends with white space |
| PyText.StripChars | anti_anti_crawler.py:245 | strip keeps only characters of the text |
| PyText.StripLeftPadded | anti_anti_crawler.py:245 | lstrip removes exactly the white space in front of a text that starts with a non-space |
| PyText.StripRightPadded | anti_anti_crawler.py:245 | rstrip removes exactly the white space after a text that ends with a non-space |
| PyText.StripPadded | anti_anti_crawler.py:245 | strip removes exactly the white space around a text with non-space ends |
| PyText.StripStripped | anti_anti_crawler.py:245 | strip leaves an already stripped text unchanged |
| PyText.StripIdempotent | anti_anti_crawler.py:245 | strip is idempotent |
| PyText.DigitValue | anti_anti_crawler.py:161 | an ASCII or full-width decimal digit has its offset from "0" as its value, which is below ten |
| PyText.ParseInt | anti_anti_crawler.py:161 | int() succeeds exactly when the stripped text is an optional sign followed by decimal digits; the text then holds a decimal digit |
| PyText.ParseIntChars | anti_anti_crawler.py:161 | int() accepts only text made of white space, signs and decimal digits |
| PyText.ParseIntPadded | anti_anti_crawler.py:161 | int() of a numeral with white space around it reads the numeral |
| PyText.ParseSigned | anti_anti_crawler.py:161 | accepts exactly an optional sign followed by decimal digits, giving their decimal value, negated after "-" |
| PyText.NatToString | server_web.py:19-20 | str() of a natural is a non-empty run of ASCII digits with no leading zero |
| PyText.IntToString | server_web.py:147-151 | str() of an integer is non-empty |
| PyText.DecimalValueOfNatToString | server_web.py:19-20 | the digits of str(n) denote n |
| PyText.ParseSignedDigits | anti_anti_crawler.py:161 | int() reads back str(n) and "-" + str(n) |
| PyText.SignedToString | server_web.py:147-151 | str(i) is a numeral that reads back as i |
| PyText.ParseIntToString | server_web.py:131 | int(str(i)) == i for every integer, so a page number survives the link round trip |
| Scrape.UrlJoin | anti_anti_crawler.py:121 | urljoin with the base: an absolute path without dot segments is appended; an http or https URL is kept; a network-path reference keeps the reference behind the base's scheme; every other reference (relative path, query, fragment) stays under the base, and a query or fragment is appended as it is |
| Scrape.Extracted | anti_anti_crawler.py:201-209 | an item's record has exactly the schema's field names as keys |
| Scrape.ExtractedValues | anti_anti_crawler.py:203-208 | each field holds its extractor's value, or None when the extractor raised |
| Scrape.ExtractedAt | anti_anti_crawler.py:203-208 | the same for one field |
| Scrape.ExtractItem | anti_anti_crawler.py:202-208 | the per-field loop builds that record, each field its extractor's value or None |
| Scrape.Harvest | anti_anti_crawler.py:201-209 | one record per item |
| Scrape.HarvestAt | anti_anti_crawler.py:201-209 | record k is item k's extraction |
| Scrape.HarvestAppend | anti_anti_crawler.py:201-209 | harvesting two pages in turn equals harvesting them together |
| Scrape.ExtractPage | anti_anti_crawler.py:201-209 | the page loop appends the page's harvest to the data |
| Scrape.KeptRows | anti_anti_crawler.py:157-158 | the filter keeps at most the rows given |
| Scrape.KeptRowsMembers | anti_anti_crawler.py:157-158 | a row is kept exactly when it is a row with at least six cells |
| Scrape.UserOf | anti_anti_crawler.py:159-168 | a kept row gives a user exactly when its first cell is an int, with detail link /user/<id> |
| Scrape.UserLink | anti_anti_crawler.py:159-167 | an id int() accepts joins to the base URL + "/user/" + id, with nothing to resolve |
| Scrape.UsersCharacterised | anti_anti_crawler.py:151-168 | the table loop fails exactly when a kept row has a non-integer id, else one user per kept row in order |
| Scrape.UsersLinked | anti_anti_crawler.py:167 | user k's detail link is the base URL + "/user/" + its row's first cell |
| Scrape.CollectUsers | anti_anti_crawler.py:151-168 | the loop over the rows yields that list, or the failure |
| Scrape.UsersNoneExtends | anti_anti_crawler.py:161 | once a row fails, the whole table fails |
| Scrape.FieldAfter | crawler-User-Agent.py:156-160 | the extracted field never contains "\|" |
| Scrape.FieldAfterAbsent | crawler-User-Agent.py:158 | with the label absent, the field is the stripped first segment of the whole text |
| Scrape.FieldAfterRendered | crawler-User-Agent.py:158 | a value rendered once after its label, up to "\|", is read back exactly |
| Scrape.ExtractSpec | anti_anti_crawler.py:249-255 | the extracted spec never contains "," |
| Scrape.LabelsBorderless | anti_anti_crawler.py:122-234 | none of the labels and spec names the crawlers split at can overlap itself |
| Scrape.ExtractSpecRendered | anti_anti_crawler.py:253 | a value rendered once after its name, up to ",", is read back exactly |
| Scrape.RemainingStep | crawler-User-Agent.py:113-127 | appending one page to the run so far and then the rest is the same run |
| Scrape.Range | crawler-User-Agent.py:84 | indices 0..n-1, distinct, in order |
| Scrape.Update | anti_anti_crawler.py:174 | dict.update: keys are the union, the detail's values win, the others stay |
| Scrape.UpdateEmpty | anti_anti_crawler.py:174 | updating with the empty dict of a failed detail fetch leaves the user unchanged |
| Scrape.Merged | anti_anti_crawler.py:173-174 | merging a fetched detail keeps the link the detail was fetched from |
| Scrape.UpdatedAt | crawler-User-Agent.py:84-86 | updating selected records keeps their number and their links |
| Scrape.UpdatedAtEffect | anti_anti_crawler.py:172-174 | each distinct pick is merged with its own detail; every other record is unchanged |
| Scrape.UpdatedFirst | crawler-User-Agent.py:84-86 | updating the first k merges exactly records 0..k-1 and leaves the rest |
| Scrape.DetailRecord | anti_anti_crawler.py:231-235 | a user detail has exactly the keys email, phone and last_login |
| AntiAntiCrawler.RandomHeaders | anti_anti_crawler.py:29-38 | the DNT header is "0" or "1" |
| AntiAntiCrawler.Classify | anti_anti_crawler.py:54-68 | an attempt succeeds iff the verb is GET or POST, a response came, its status is not 4xx/5xx and the body lacks the marker |
| AntiAntiCrawler.AttemptsFrom | anti_anti_crawler.py:41-74 | at least one more attempt and never more than RETRY_TIMES |
| AntiAntiCrawler.AttemptsSkip | anti_anti_crawler.py:41-74 | failed attempts only move the loop on |
| AntiAntiCrawler.AttemptsFromShape | anti_anti_crawler.py:41-74 | all attempts before the last failed; the last succeeded or was attempt RETRY_TIMES |
| AntiAntiCrawler.ReturnsFirstSuccess | anti_anti_crawler.py:68 | the call returns iff some attempt succeeds, and then returns the first successful response |
| AntiAntiCrawler.ReraisesAfterLast | anti_anti_crawler.py:72-73 | a re-raise happens only after three failed attempts, with the last attempt's exception |
| AntiAntiCrawler.FailuresThenSuccess | anti_anti_crawler.py:41-68 | k failures followed by a success make k+1 attempts and return that success |
| AntiAntiCrawler.RequestWithRetry | anti_anti_crawler.py:40-74 | the loop ends as the retry rule says; each attempt carries a proxy, the caller's or one drawn set of headers, and timeout 10; one delay per attempt and one backoff per failed attempt before the last |
| AntiAntiCrawler.Fetch | anti_anti_crawler.py:197 | a page fetch is a GET through request_with_retry |
| AntiAntiCrawler.CrawlPaginated | anti_anti_crawler.py:183-224 | the while loop yields exactly the capped run |
| AntiAntiCrawler.CappedFromShape | anti_anti_crawler.py:189-221 | from any page: consecutive pages under the cap; every page but the last fetched and continued; the last failed, stopped or hit the cap |
| AntiAntiCrawler.CappedFromRecords | anti_anti_crawler.py:197-209 | the data are the harvests of the visited pages in order, failed pages contributing nothing |
| AntiAntiCrawler.CappedVisits | anti_anti_crawler.py:186-189 | pages 1, 2, ... are visited, at least one and at most five |
| AntiAntiCrawler.CappedStopRule | anti_anti_crawler.py:212-221 | the crawl goes on exactly after a fetched page that drew continue below page 5 |
| AntiAntiCrawler.CappedRecords | anti_anti_crawler.py:197-209 | the data are the harvests of the visited pages |
| AntiAntiCrawler.CappedFull | anti_anti_crawler.py:187-213 | when every page is fetched and every draw continues, exactly pages 1..5 are visited |
| AntiAntiCrawler.CappedStopAtOnce | anti_anti_crawler.py:212-217 | a stop draw on page 1 ends the crawl after page 1 |
| AntiAntiCrawler.ExtractField | anti_anti_crawler.py:241-247 | the field contains neither "\|" nor a newline |
| AntiAntiCrawler.ExtractFieldAbsent | anti_anti_crawler.py:245 | with the label absent, the field comes from the start of the text |
| AntiAntiCrawler.ExtractFieldRendered | anti_anti_crawler.py:245 | a value rendered once after its label, up to "\|", is read back exactly |
| AntiAntiCrawler.ViewCountRaises | anti_anti_crawler.py:140 | "²" passes isdigit but int() raises, so the views field becomes None |
| AntiAntiCrawler.SuperscriptViews | anti_anti_crawler.py:140 | an item whose text is "浏览量:²" makes the views extractor raise |
| AntiAntiCrawler.DigitsParse | anti_anti_crawler.py:140 | int() of a decimal digit string (ASCII or full-width) is its decimal value |
| AntiAntiCrawler.ViewCount | anti_anti_crawler.py:140 | the corrected views value is always a non-negative int, agrees with the source wherever it does not raise, and is the decimal value of a digit string |
| AntiAntiCrawler.AcceptedDigitsDecimal | anti_anti_crawler.py:140 | a string that passes isdigit and that int() accepts is all decimal digits (ASCII or full-width) |
| AntiAntiCrawler.ViewCountAsWrittenCases | anti_anti_crawler.py:140 | the views lambda raises exactly on a field that passes isdigit but is not all decimal digits; otherwise it gives a non-negative int |
| AntiAntiCrawler.NewsViews | anti_anti_crawler.py:135-141 | a news record's views is None exactly when its field passes isdigit but is not all decimal digits, and a non-negative int otherwise |
| AntiAntiCrawler.CorrectedNewsViews | anti_anti_crawler.py:135-141 | the corrected program: with the corrected lambda every news record's views is a non-negative int, the program's own value wherever it does not raise |
| AntiAntiCrawler.DetailCount | anti_anti_crawler.py:171 | randint(3, min(5, n)) succeeds iff n >= 3, giving a count between 3 and min(5, n) |
| AntiAntiCrawler.Without | anti_anti_crawler.py:172 | drawing one element leaves one fewer |
| AntiAntiCrawler.WithoutEntries | anti_anti_crawler.py:172 | what is left holds neither the drawn element nor anything new, and stays distinct |
| AntiAntiCrawler.SampleFrom | anti_anti_crawler.py:172 | the sample has the requested size, distinct members, all from the pool |
| AntiAntiCrawler.Sample | anti_anti_crawler.py:172 | random.sample gives count distinct indices below n |
| AntiAntiCrawler.DetailOf | anti_anti_crawler.py:226-239 | the detail is {} exactly when the request raised, else it has the three detail keys |
| AntiAntiCrawler.CrawlUserDetail | anti_anti_crawler.py:226-239 | fetching a user's detail page yields that detail |
| AntiAntiCrawler.UserDetails | anti_anti_crawler.py:231-235 | a detail never overwrites detail_link |
| AntiAntiCrawler.UserDetail | anti_anti_crawler.py:226-239 | the same for one URL |
| AntiAntiCrawler.EnrichFailed | anti_anti_crawler.py:237-239 | a user whose detail request raised is left unchanged |
| AntiAntiCrawler.EnrichSample | anti_anti_crawler.py:172-174 | the in-place update pass merges each sampled user with its detail and leaves the rest |
| AntiAntiCrawler.ListedUsers | anti_anti_crawler.py:148-168 | every listed user carries a detail link |
| AntiAntiCrawler.UsersStageSaves | anti_anti_crawler.py:146-179 | users are saved iff the listing parses with at least three users; then 3 to 5 sampled users are merged with their details and the others saved as listed |
| AntiAntiCrawler.ListUsers | anti_anti_crawler.py:148-168 | the listing request and the table loop yield the listed users |
| AntiAntiCrawler.CrawlUsers | anti_anti_crawler.py:146-179 | the users stage saves exactly what UsersStage says |
| AntiAntiCrawler.CrawlWebsite | anti_anti_crawler.py:105-181 | a failed home request saves nothing; otherwise products, news and users are saved as the stages say |
| UserAgentCrawler.RandomHeaders | crawler-User-Agent.py:19-25 | the User-Agent is one of the seven listed, the other headers fixed |
| UserAgentCrawler.CrawlPaginated | crawler-User-Agent.py:95-135 | the while loop yields exactly the linked run |
| UserAgentCrawler.GatheredFirst | crawler-User-Agent.py:110-121 | gathering a page followed by others is that page's records then the others' |
| UserAgentCrawler.LinkedFromShape | crawler-User-Agent.py:100-132 | from any page: consecutive pages; all but the last delivered a next link; the last stops |
| UserAgentCrawler.LinkedFromRecords | crawler-User-Agent.py:106-121 | the data are the harvests of the visited pages, unreachable pages contributing nothing |
| UserAgentCrawler.LinkedVisits | crawler-User-Agent.py:98-132 | pages 1, 2, ... are visited; the crawl goes on exactly while pages are delivered with a next link |
| UserAgentCrawler.LinkedRecords | crawler-User-Agent.py:110-121 | the data are the harvests of the visited pages |
| UserAgentCrawler.Heading | crawler-User-Agent.py:34 | the name extractor raises iff the item has no h3 |
| UserAgentCrawler.Link | crawler-User-Agent.py:35 | the link extractor raises iff the item has no a with href |
| UserAgentCrawler.Views | crawler-User-Agent.py:53 | the views extractor raises iff int() rejects the field, else gives its value |
| UserAgentCrawler.NewsViews | crawler-User-Agent.py:48-54 | a news record's views is None when int() rejects the field, else that int |
| UserAgentCrawler.ProductWithoutName | crawler-User-Agent.py:33-44 | an item without h3 still gives a record: name None, the other fields extracted |
| UserAgentCrawler.UserDetail | crawler-User-Agent.py:137-154 | the detail is {} exactly when the request raised; it never holds detail_link |
| UserAgentCrawler.UserDetails | crawler-User-Agent.py:146-150 | a detail never overwrites detail_link |
| UserAgentCrawler.CrawlUserDetail | crawler-User-Agent.py:137-154 | fetching a user's detail page yields that detail |
| UserAgentCrawler.EnrichFailed | crawler-User-Agent.py:152-154 | a user whose detail request raised is left unchanged |
| UserAgentCrawler.EnrichFirstThree | crawler-User-Agent.py:84-86 | the in-place pass merges users 0..2 with their details and leaves the rest |
| UserAgentCrawler.ListedUsers | crawler-User-Agent.py:62-81 | users are listed iff the request delivers and every kept row has an int id; each carries a detail link |
| UserAgentCrawler.UsersStageSaves | crawler-User-Agent.py:58-91 | users are saved iff they are listed; the first three are merged with their details, the others saved as listed |
| UserAgentCrawler.CrawlUsers | crawler-User-Agent.py:58-91 | the users stage saves exactly what UsersStage says |
| UserAgentCrawler.CrawlWebsite | crawler-User-Agent.py:29-93 | products and news are the linked runs' records; users as the stage says |
| Spider.Parsed | spider.py:25-37 | never more records than items; all of them when no item raised |
| Spider.ParsedStops | spider.py:25-37 | records are the parses of the leading items; complete iff every item parses; else the next item raised |
| Spider.ParsedFailedStays | spider.py:25-37 | once an item raises, later items add nothing |
| Spider.ParsePage | spider.py:25-37 | the for loop appends the parsed records and reports whether the page finished |
| Spider.SpiderProduct | spider.py:26-36 | a product dict always carries its link |
| Spider.ProductFields | spider.py:26-36 | the dict carries the link, the category and the price it is built from |
| Spider.LabelledValue | spider.py:29-30 | a label and a value with white space around them give back the value once the label is replaced by "" and the rest stripped |
| Spider.LeadingLabel | spider.py:29 | the same for a segment that starts with its label |
| Spider.ProductSegments | spider.py:29-30 | the category is the first "\|"-segment of the first paragraph with "类别:" removed, the price the second with "价格:" removed |
| Spider.CategoryValue | spider.py:29 | "类别: c " gives back c |
| Spider.PriceValue | spider.py:30 | " 价格: p " gives back p |
| Spider.ProductRendered | spider.py:26-36 | a first paragraph "类别: c \| 价格: p ..." yields category c and price p |
| Spider.ProductRaises | spider.py:26-36 | building the dict raises iff there is no h3, no href, fewer than two paragraphs, or no "\|" in the first |
| Spider.NoPriceSegment | spider.py:30 | a first paragraph without "\|" makes the price lookup raise |
| Spider.StorageRendered | spider.py:32-34 | the storage spec is read back exactly; splitting at "," would cut a value holding one |
| Spider.Answers | spider.py:19-49 | one answer per page |
| Spider.AnswerAt | spider.py:19-49 | answer i is how page i+1 is read |
| Spider.RunFromLinked | spider.py:25-37 | every record of a run carries a link |
| Spider.AnswerLinked | spider.py:25-37 | every record of one page carries a link |
| Spider.Products | spider.py:9-54 | every collected product carries a link |
| Spider.CrawlPage | spider.py:19-49 | one loop round appends the page's products and says whether to stop |
| Spider.CrawlProducts | spider.py:9-54 | the while loop yields exactly the run |
| Spider.RunFromShape | spider.py:15-49 | consecutive pages; all but the last continued; the last stops |
| Spider.RunFromRecords | spider.py:15-49 | the products are the visited pages' records in order |
| Spider.ProductsVisits | spider.py:13-49 | pages 1, 2, ... are visited until the first page that stops |
| Spider.ProductsRecords | spider.py:15-49 | the products are the visited pages' records |
| Spider.NewsItem | spider.py:68-73 | a news dict is built iff the div has an h3, an href and a paragraph |
| Spider.NewsSegments | spider.py:71-72 | the date is the first "\|"-segment stripped, the author the last one with "作者:" removed |
| Spider.NewsParagraph | spider.py:71-72 | a paragraph "date ... \| author" splits at "\|" into exactly that date first and that author last |
| Spider.DateValue | spider.py:71 | "d " gives back d |
| Spider.AuthorValue | spider.py:72 | " 作者: a" gives back a |
| Spider.NewsRendered | spider.py:68-73 | a paragraph "d \| 作者: a" yields date d and author a |
| Spider.News | spider.py:56-83 | news is saved iff the page is delivered without HTTP error and every div parses, one dict per div in order |
| Spider.CrawlNews | spider.py:56-83 | the loop yields that news list |
| Spider.DetailKeysUnlinked | spider.py:98-107 | the detail dict has no link key |
| Spider.ProductDetail | spider.py:94-107 | a product detail has exactly its four keys and never a link |
| Spider.DetailFields | spider.py:98-107 | the same, from the four extracted texts |
| Spider.ProductDetailRecord | spider.py:98-107 | the same, from the four values |
| Spider.ProductDetails | spider.py:98-110 | a detail never overwrites the link |
| Spider.DetailOrNothing | spider.py:92-114 | a failed detail fetch updates nothing |
| Spider.EnrichFirstFive | spider.py:91-114 | the in-place pass merges products 0..4 with their details and leaves the rest |
| Spider.DetailPass | spider.py:91-114 | the first five are merged (unchanged when their fetch failed) and the rest stay |
| Spider.RunScript | spider.py:121-125 | the script writes the crawled products, the news, and the products with the first five detailed |
| ServerWeb.Choice | server_web.py:20 | random.choice picks a member of the list |
| ServerWeb.RandInt | server_web.py:29 | random.randint stays within its bounds |
| ServerWeb.PriceText | server_web.py:22 | a price prints as digits with a decimal point |
| ServerWeb.Digit | server_web.py:22 | a digit below ten prints as the ASCII digit whose value it is |
| ServerWeb.DrawnProduct | server_web.py:17-30 | product i: id i, name ending in "服务" + str(i), a listed category, price 100.00 to 5000.00, "GB SSD" storage, created 1 to 365 days ago |
| ServerWeb.DrawnNews | server_web.py:36-43 | news i: id i, a title ending in "消息", a listed author, published 1 to 60 days ago |
| ServerWeb.DrawnUser | server_web.py:49-56 | user i: id i, email username + "@example.com", a listed role, registered 30 to 365 days ago |
| ServerWeb.UsernamesDistinct | server_web.py:52 | different users have different usernames |
| ServerWeb.Database.constructor | server_web.py:9-12 | the three tables are generated as drawn |
| ServerWeb.Database.GenerateProducts | server_web.py:14-31 | 30 drawn products with ids 1..30 in order |
| ServerWeb.Database.GenerateNews | server_web.py:33-44 | 20 drawn news items with ids 1..20 in order |
| ServerWeb.Database.GenerateUsers | server_web.py:46-57 | 10 drawn users with ids 1..10 in order |
| ServerWeb.TotalPages | server_web.py:133 | ceiling division: the pages hold every product and none is empty |
| ServerWeb.SliceIndex | server_web.py:134 | a Python slice bound lands within the list, and in-range bounds are kept |
| ServerWeb.PySlice | server_web.py:134 | for non-negative bounds, the slice is the ordinary subsequence |
| ServerWeb.PageSliceAt | server_web.py:134 | every page holds at most five products, each the product at its offset |
| ServerWeb.PageNonEmpty | server_web.py:133-134 | a page from 1 on is non-empty iff it is at most total_pages |
| ServerWeb.PagesPrefix | server_web.py:133-134 | pages 1..k together are the first 5k products |
| ServerWeb.PagesCover | server_web.py:133-134 | pages 1..total_pages together are the whole table, in order |
| ServerWeb.NegativePage | server_web.py:134 | page 0 is empty; a negative page counts back from the end, as Python slices do |
| ServerWeb.PageArg | server_web.py:131 | a missing or non-integer page argument means page 1 |
| ServerWeb.PageArgRoundTrip | server_web.py:131 | the page written in a link is the page read back |
| ServerWeb.ProductList | server_web.py:129-158 | at most five products; non-empty iff the page is within total_pages |
| ServerWeb.ListingLinks | server_web.py:146-152 | from page 0 on, the next link is shown iff the next page has products; the previous link iff page >= 2 |
| ServerWeb.FirstWithId | server_web.py:162 | finds the first product with the id, and None iff there is none |
| ServerWeb.ProductDetail | server_web.py:160-182 | shows a product with that id, or "产品不存在" with 404 iff there is none |
| ServerWeb.DetailOfConsecutive | server_web.py:160-164 | with ids 1..n, /product/<id> shows product id, and ids 0 and above n give 404 |
| ServerWeb.GeneratedSite | server_web.py:14-31 | the generated table has 30 products on six pages, /product/1..30 shown, 0 and 31 missing |
| ServerWeb.RenderWithBase | server_web.py:97-99 | the page is the template followed by the content |
| ServerWeb.ContentAfterDocument | server_web.py:94-99 | the content lands after the closing html tag |
| EndToEnd.Elements | server_web.py:138-144 | one listing item per product |
| EndToEnd.ElementsAt | server_web.py:138-144 | item k renders product k |
| EndToEnd.ElementsAppend | server_web.py:138-144 | rendering two runs of products in turn equals rendering them together |
| EndToEnd.PageSliceShown | server_web.py:134 | the route's slice for page >= 1 is the page's products |
| EndToEnd.RequestedPage | server_web.py:129-158 | the route answers a page from 1 on with status 200, its products, and a next link iff below total_pages |
| EndToEnd.RequestedServes | server_web.py:129-158 | the same for every page |
| EndToEnd.LastPage | server_web.py:133 | the crawls' last page is at least 1 and at least total_pages |
| EndToEnd.SiteUpTo | crawler-User-Agent.py:100-109 | the answers to pages 1..n |
| EndToEnd.SiteAt | crawler-User-Agent.py:100-109 | answer i is the server's answer for page i+1 |
| EndToEnd.PagesFrom | crawler-User-Agent.py:127 | page numbers j..n |
| EndToEnd.Consecutive | crawler-User-Agent.py:127 | a visit list 1, 2, ..., n is pages 1..n |
| EndToEnd.PastLastPage | server_web.py:133-134 | nothing is left after the last page |
| EndToEnd.ShownSplit | server_web.py:134 | the products from page j on are page j's then those from page j+1 on |
| EndToEnd.UASiteEnds | server_web.py:150-152 | the last page has no next link, so the crawl stops there |
| EndToEnd.UASite | crawler-User-Agent.py:100-127 | the answers the crawl can ask for end with a stopping page |
| EndToEnd.LastVisit | crawler-User-Agent.py:124-126 | a crawl stops only at the last page |
| EndToEnd.UAVisits | crawler-User-Agent.py:95-135 | against the listing, the crawl visits pages 1..total_pages (page 1 alone when there are no products) |
| EndToEnd.UASiteServed | server_web.py:129-158 | every page of that site is answered as the route does |
| EndToEnd.PagesFromTail | crawler-User-Agent.py:127 | pages j..n are j followed by j+1..n |
| EndToEnd.GatheredCons | crawler-User-Agent.py:110-121 | gathering pages j..n is page j's records then pages j+1..n |
| EndToEnd.HarvestShown | crawler-User-Agent.py:113-121 | harvesting from page j on is page j's harvest then the rest |
| EndToEnd.UAPageRecords | crawler-User-Agent.py:113-121 | a served page contributes its products' records |
| EndToEnd.UAGatheredFrom | crawler-User-Agent.py:100-127 | pages j..n yield the records of the products from page j on |
| EndToEnd.UARecords | crawler-User-Agent.py:95-135 | against the listing, the crawl collects one record per product, in table order |
| EndToEnd.LinksTo | spider.py:28 | record k holds product k's detail URL |
| EndToEnd.LinksToAt | spider.py:28 | the same, stated index by index |
| EndToEnd.LinksToAppend | spider.py:37 | linked runs concatenate |
| EndToEnd.RenderedShaped | server_web.py:139-143 | every rendered listing item can be parsed by the spider and links to its product's detail path |
| EndToEnd.ShapedParses | spider.py:26-36 | such an item gives a dict whose link is the base URL plus its href |
| EndToEnd.CategoriesPlain | server_web.py:15 | the database's categories have no white space at their ends and hold no "\|" and no ":" |
| EndToEnd.ListingValues | server_web.py:141 | spider.py reads back the category and the "¥" + price the listing shows, for every product with a database category |
| EndToEnd.ListingRendersLinks | server_web.py:139-143 | the route's rendering has that shape for every product |
| EndToEnd.ParsedLinks | spider.py:25-37 | a page of such items parses completely, record k linking to product k |
| EndToEnd.SpiderPage | spider.py:19-44 | a served page is read as complete, stopping exactly at total_pages, with the page's products' links |
| EndToEnd.ServesSpider | spider.py:19-44 | the same for every page of a server answering as the route does |
| EndToEnd.SpiderSiteOf | spider.py:15-49 | the answers to pages 1..last are read that way |
| EndToEnd.SpiderVisits | spider.py:9-49 | against the listing, the spider visits pages 1..total_pages (page 1 alone when there are no products) |
| EndToEnd.YieldsCons | spider.py:37 | yielding pages j..n is page j's records then pages j+1..n |
| EndToEnd.SpiderYieldsFrom | spider.py:15-49 | pages j..n yield records linking to the products from page j on |
| EndToEnd.SpiderLinks | spider.py:9-54 | against the listing, the spider collects one product per product, record k linking to product k |
| EndToEnd.TableCrawlUA | crawler-User-Agent.py:33-44 | over 30 products the crawl visits pages 1..6 and collects 30 records |
| EndToEnd.LinksToTable | server_web.py:160-164 | with ids 1..n, record k links to /product/<k+1>, which shows product k+1 |
| EndToEnd.TableCrawlSpider | spider.py:9-54 | over products 1..30 the spider visits pages 1..6 and record k links to the page of product k+1 |
| EndToEnd.GeneratedCrawls | server_web.py:14-31 | over the generated database both crawls visit pages 1..6 and collect 30 records; the spider's links all resolve |

## Left out

- Networking, BeautifulSoup parsing, Flask routing and Jinja rendering are not modelled. A request is a
  `Transport` value. A parsed page is an `Html` value that gives the page's text, items and next-link flag.
- `EndToEnd.ListingHtml`: the listing page's text is the items' text. The template markup and the
  pagination text are not modelled.
- Randomness (`random.choice`, `randint`, `uniform`, `random()`, `sample`, `ua.random`) comes from draw
  parameters. `datetime.now()` is a `Clock` parameter.
- `time.sleep` is not modelled. `RequestWithRetry` only counts its delays and backoffs.
- `print`, `save_to_file`, the JSON output and its key order are left out. The saved data is the method's
  result.
- `simulate_human_behavior` is left out. Its result is never used.
- `bypass-js-spider.py` and `chromedriver-test.py` are not part of this model. They drive a browser.
- The `index` route (`server_web.py:101-127`) is left out. No crawl in the model reads its content.
- `ServerWeb.PriceText`: prices are integer cents. The float formatting of `round(uniform(100, 5000), 2)` is not modelled.
- `AntiAntiCrawler.CappedFromShape`: the 70 % continue draw is a boolean parameter per page. Its probability is not modelled.
- `UserAgentCrawler.CrawlPaginated`: the crawl is stated for sites whose answers end with a page that
  stops it. A server that always shows a next link would make it loop forever, and that case is not modelled.
- `Spider.CrawlProducts`: same, for sites that end.
- `Spider.RunScript`: the detail pass reads the products back from products.json. It is applied to the
  crawled products directly. `EndToEnd` does not compose it with the server's detail pages.
- `EndToEnd.GeneratedCrawls`: stated for any server whose answers satisfy `Serves`. `RequestedServes`
  proves that the modelled route does.
- `extract_with_bs4`: its catch-all handler is modelled by each extractor returning an `Attempt` (a value or
  a raise).
- `request_with_retry`'s `method.upper()` comparison is modelled by the `Verb` datatype. Case folding is not modelled.
- `PyText.IsDigitChar`: `str.isdigit` is modelled for ASCII digits, full-width digits and the superscripts
  one, two and three. The digits of other scripts and the other Unicode digit characters are not modelled.
- `PyText.ParseInt`: `int()` is modelled as accepting surrounding white space, a sign, and ASCII or
  full-width decimal digits. Underscores and the decimal digits of other scripts are not modelled.
- `Scrape.UrlJoin`: dot segments ("." and "..") are not resolved, and a reference with a scheme other than
  http or https is joined as a relative path, where `urljoin` resolves the first and returns the second
  unchanged. The contract states `base + ref` only for paths with one leading "/" and no "/.".
- `PyText.LastPart`: its contract fixes the result only for a separator that cannot overlap itself
  (`LastPartExact`). For one that can, such as "aa" in "aaa", it also admits suffixes Python's
  left-to-right split does not give. Every label the crawlers split at is such a separator (`LabelsBorderless`).
- `PyText.Split`: its separator-free parts and `JoinSplit` fix the parts only for such separators as well.
- `PyText.IntToString`: its contract is only non-emptiness. Its meaning is stated by `SignedToString` and `ParseIntToString`.

## Findings

| source | as written | input that shows it | evidently intended | confidence | as-written member | corrected member |
|---|---|---|---|---|---|---|
| anti_anti_crawler.py:140 | the views extractor calls `int()` on a field whenever `isdigit()` accepts it | a news item whose text is "浏览量:²": `"²".isdigit()` is true and `int("²")` raises, so views becomes None | views is always an int, 0 when the field is not a plain number | not executed | AntiAntiCrawler.SuperscriptViews | AntiAntiCrawler.ViewCount |

The crawl itself (`AntiAntiCrawler.CrawlWebsite`) uses the news extractors as written (`NewsSchema`), so its
news records hold None where the lambda raises. `CorrectedNewsSchema` swaps in the corrected lambda, and
`AntiAntiCrawler.CorrectedNewsViews` proves the intended property of it.
