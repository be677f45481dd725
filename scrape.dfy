/** What the crawl scripts share: the values they store in records, the page
    and element views BeautifulSoup gives them, the network's answers, the
    per-field fault-isolated extraction of one item, and the users-table row
    filter. */
module Scrape {
  import opened PyText

  /** A value as it ends up in the JSON output: None, str, int or a dict. */
  datatype Value = Null | Str(s: string) | Int(i: int) | Obj(fields: map<string, Value>)

  /** A Python dict from field name to value. Key order is not modelled. */
  type Record = map<string, Value>

  /** One element found by a selector, as the crawlers read it. */
  datatype Element = Element(
    text: string,              // get_text(strip=True) of the whole element
    heading: Option<string>,   // text of its first h3
    href: Option<string>,      // href of its first a; None when there is no a or no href
    paragraphs: seq<string>,   // texts of its p elements, in document order
    cells: seq<string>)        // texts of its td cells, for a table row

  /** A fetched page after parsing. */
  datatype Html = Html(
    body: string,              // the raw response text
    text: string,              // get_text(strip=True) of the whole page
    title: Option<string>,     // text of the first h2
    items: seq<Element>,       // the elements the crawl's item selector matches
    nextLink: bool)            // a pagination link reading "下一页" exists

  datatype Response = Response(status: int, html: Html)

  /** What one HTTP request gives: a response, or an exception raised by the
      transport (connection refused, timeout). */
  datatype Transport = Delivered(response: Response) | Unreachable

  /** requests' raise_for_status raises for client and server errors only. */
  predicate RaisesForStatus(status: int) {
    400 <= status < 600
  }

  const BaseUrl := "http://127.0.0.1:5000"

  predicate StartsWith(s: string, prefix: string) {
    |prefix| <= |s| && s[..|prefix|] == prefix
  }

  /** urljoin(base, ref) for an http or https base URL without a path,
      following the reference resolution of section 5.2 of RFC 3986 for the
      forms of reference a page's href can take: a network-path reference
      ("//host/p") keeps only the base's scheme, an absolute path replaces the
      (empty) base path, a query or fragment is appended to the base, an
      absolute http or https URL is taken as it is, and any other relative
      path is resolved below the root. */
  function UrlJoin(base: string, ref: string): (url: string)
    ensures StartsWith(ref, "/") && !StartsWith(ref, "//") && !Contains(ref, "/.") ==> url == base + ref
    ensures StartsWith(ref, "http://") || StartsWith(ref, "https://") ==> url == ref
    ensures StartsWith(ref, "//") ==> |url| - |ref| in {5, 6} && url[|url| - |ref|..] == ref
    ensures !StartsWith(ref, "//") && !StartsWith(ref, "http://") && !StartsWith(ref, "https://") ==>
              StartsWith(url, base)
    ensures ref != [] && (ref[0] == '?' || ref[0] == '#') ==> url == base + ref
  {
    if StartsWith(ref, "http://") || StartsWith(ref, "https://") then
      assert ref[0] == 'h';
      ref
    else if StartsWith(ref, "//") then
      (if StartsWith(base, "https://") then "https:" else "http:") + ref
    else if StartsWith(ref, "/") then base + ref
    else if ref == "" || ref[0] == '?' || ref[0] == '#' then base + ref
    else base + "/" + ref
  }

  /** A reference without a dot has no dot segment to resolve. */
  lemma NoDotSegment(ref: string)
    requires '.' !in ref
    ensures !Contains(ref, "/.")
  {
    forall i: nat | i <= |ref| ensures !OccursAt(ref, "/.", i) {
      if i + 2 <= |ref| {
        assert ref[i..i + 2][1] == ref[i + 1];
      }
    }
  }

  /** What one field extractor does with an item: a value, or an exception. */
  datatype Attempt = Got(value: Value) | Raised

  /** One entry of a crawl's field_extractors dict. */
  datatype Field = Field(name: string, extract: Element -> Attempt)

  /** The per-field except handler: a raising extractor stores None. */
  function Settle(a: Attempt): Value {
    match a
    case Got(v) => v
    case Raised => Null
  }

  function NameSet(schema: seq<Field>): set<string> {
    set k | 0 <= k < |schema| :: schema[k].name
  }

  /** Dict keys are unique. */
  predicate DistinctNames(schema: seq<Field>) {
    forall i, j :: 0 <= i < j < |schema| ==> schema[i].name != schema[j].name
  }

  /** The record the extraction loop builds for one item, field by field in
      schema order. */
  function Extracted(schema: seq<Field>, item: Element): (r: Record)
    ensures r.Keys == NameSet(schema)
  {
    if schema == [] then map[]
    else
      var init := schema[..|schema| - 1];
      var last := schema[|schema| - 1];
      var r := Extracted(init, item)[last.name := Settle(last.extract(item))];
      assert NameSet(schema) == NameSet(init) + {last.name} by {
        forall k | 0 <= k < |schema| - 1 ensures schema[k].name in NameSet(init) {
          assert init[k] == schema[k];
        }
      }
      r
  }

  /** Every field holds what its own extractor produced, or None if that
      extractor raised, whatever the other extractors did. */
  lemma {:induction false} ExtractedValues(schema: seq<Field>, item: Element)
    requires DistinctNames(schema)
    ensures forall k :: 0 <= k < |schema| ==>
              Extracted(schema, item)[schema[k].name] == Settle(schema[k].extract(item))
  {
    if schema != [] {
      var init := schema[..|schema| - 1];
      ExtractedValues(init, item);
      forall k | 0 <= k < |schema| - 1
        ensures Extracted(schema, item)[schema[k].name] == Settle(schema[k].extract(item))
      {
        assert init[k] == schema[k];
      }
    }
  }

  /** Field k of the record, on its own. */
  lemma ExtractedAt(schema: seq<Field>, item: Element, k: nat)
    requires DistinctNames(schema) && k < |schema|
    ensures schema[k].name in Extracted(schema, item)
    ensures Extracted(schema, item)[schema[k].name] == Settle(schema[k].extract(item))
  {
    ExtractedValues(schema, item);
  }

  /** The inner loop of crawl_paginated_data: one record per item. */
  method ExtractItem(schema: seq<Field>, item: Element) returns (record: Record)
    ensures record == Extracted(schema, item)
    ensures record.Keys == NameSet(schema)
    ensures DistinctNames(schema) ==> forall k :: 0 <= k < |schema| ==>
              record[schema[k].name] == Settle(schema[k].extract(item))
  {
    record := map[];
    for i := 0 to |schema|
      invariant record == Extracted(schema[..i], item)
    {
      assert schema[..i + 1][..i] == schema[..i];
      record := record[schema[i].name := Settle(schema[i].extract(item))];
    }
    assert schema[..|schema|] == schema;
    if DistinctNames(schema) {
      ExtractedValues(schema, item);
    }
  }

  /** The records one page contributes: one per item, in page order. */
  function Harvest(schema: seq<Field>, items: seq<Element>): (records: seq<Record>)
    ensures |records| == |items|
  {
    if items == [] then [] else [Extracted(schema, items[0])] + Harvest(schema, items[1..])
  }

  /** Record k of a page is the extraction of item k. */
  lemma {:induction false} HarvestAt(schema: seq<Field>, items: seq<Element>)
    ensures forall k :: 0 <= k < |items| ==> Harvest(schema, items)[k] == Extracted(schema, items[k])
  {
    if items != [] {
      HarvestAt(schema, items[1..]);
    }
  }

  lemma {:induction false} HarvestAppend(schema: seq<Field>, a: seq<Element>, b: seq<Element>)
    ensures Harvest(schema, a + b) == Harvest(schema, a) + Harvest(schema, b)
  {
    var h := Harvest(schema, a + b);
    var g := Harvest(schema, a) + Harvest(schema, b);
    HarvestAt(schema, a + b);
    HarvestAt(schema, a);
    HarvestAt(schema, b);
    assert |h| == |g|;
    forall k | 0 <= k < |h| ensures h[k] == g[k] {
      if k < |a| {
        assert (a + b)[k] == a[k];
      } else {
        assert (a + b)[k] == b[k - |a|];
      }
    }
  }

  /** The page loop's item loop: appends one record per item. */
  method ExtractPage(schema: seq<Field>, items: seq<Element>, data: seq<Record>)
    returns (data': seq<Record>)
    ensures data' == data + Harvest(schema, items)
  {
    data' := data;
    for i := 0 to |items|
      invariant data' == data + Harvest(schema, items[..i])
    {
      var record := ExtractItem(schema, items[i]);
      HarvestAppend(schema, items[..i], [items[i]]);
      assert items[..i + 1] == items[..i] + [items[i]];
      data' := data' + [record];
    }
    assert items[..|items|] == items;
  }

  // ---------------------------------------------------------------------
  // The users table: rows with fewer than six cells are skipped; every kept
  // row becomes one user whose detail link is "/user/" + the id text.

  predicate KeptRow(row: Element) {
    |row.cells| >= 6
  }

  /** The rows the filter keeps, in table order. */
  function KeptRows(rows: seq<Element>): (kept: seq<Element>)
    ensures |kept| <= |rows|
  {
    if rows == [] then []
    else
      var init := KeptRows(rows[..|rows| - 1]);
      var last := rows[|rows| - 1];
      if KeptRow(last) then init + [last] else init
  }

  /** The filter keeps exactly the rows with six cells or more, in order. */
  lemma {:induction false} KeptRowsMembers(rows: seq<Element>)
    ensures forall k :: 0 <= k < |KeptRows(rows)| ==> KeptRow(KeptRows(rows)[k])
    ensures forall row :: row in KeptRows(rows) <==> row in rows && KeptRow(row)
  {
    if rows != [] {
      var init := rows[..|rows| - 1];
      KeptRowsMembers(init);
      assert rows == init + [rows[|rows| - 1]];
    }
  }

  /** The detail link of a user whose id int() accepts is its path under the
      base URL: an id holds no "/" and no ".", so there is nothing to
      resolve. */
  lemma UserLink(id: string)
    requires ParseInt(id).Some?
    ensures UrlJoin(BaseUrl, "/user/" + id) == BaseUrl + "/user/" + id
  {
    ParseIntChars(id);
    NumeralUserLink(id);
  }

  lemma NumeralUserLink(id: string)
    requires forall k :: 0 <= k < |id| ==> NumeralChar(id[k])
    ensures UrlJoin(BaseUrl, "/user/" + id) == BaseUrl + "/user/" + id
  {
    UserPath(id);
    NoDigitDot(id);
    NoDotSegment("/user/" + id);
  }

  lemma NoDigitDot(id: string)
    requires forall k :: 0 <= k < |id| ==> NumeralChar(id[k])
    ensures '.' !in "/user/" + id
  {
    forall k | 0 <= k < |id| ensures id[k] != '.' {
      assert NumeralChar(id[k]);
    }
  }

  lemma UserPath(id: string)
    ensures StartsWith("/user/" + id, "/") && !StartsWith("/user/" + id, "//")
  {
    var ref := "/user/" + id;
    assert ref[0] == '/' && ref[1] == 'u';
  }

  /** The dict one kept row becomes; None when int(id) raises. */
  function UserOf(row: Element): (user: Option<Record>)
    requires KeptRow(row)
    ensures user.Some? <==> ParseInt(row.cells[0]).Some?
    ensures user.Some? ==> HasDetailLink(user.value)
    ensures user.Some? ==> DetailLink(user.value) == BaseUrl + "/user/" + row.cells[0]
  {
    var id := row.cells[0];
    match ParseInt(id)
    case None => None
    case Some(n) =>
      UserLink(id);
      var link := UrlJoin(BaseUrl, "/user/" + id);
      var fields := map[
        "id" := Int(n),
        "username" := Str(row.cells[1]),
        "name" := Str(row.cells[2]),
        "role" := Str(row.cells[3]),
        "department" := Str(row.cells[4]),
        "register_date" := Str(row.cells[5])];
      Some(fields["detail_link" := Str(link)])
  }

  /** The users the row loop produces, or None when some kept row's id is not
      an integer (the exception leaves the loop). */
  function Users(rows: seq<Element>): Option<seq<Record>> {
    if rows == [] then Some([])
    else
      var init := Users(rows[..|rows| - 1]);
      var last := rows[|rows| - 1];
      if !KeptRow(last) then init
      else if init.None? || UserOf(last).None? then None
      else Some(init.value + [UserOf(last).value])
  }

  /** The loop fails exactly when some kept row has a non-integer id, and
      otherwise yields one user per kept row, in table order. */
  lemma {:induction false} UsersCharacterised(rows: seq<Element>)
    ensures Users(rows).Some? <==> forall row :: row in rows && KeptRow(row) ==> UserOf(row).Some?
    ensures Users(rows).Some? ==> |Users(rows).value| == |KeptRows(rows)|
    ensures Users(rows).Some? ==> forall k :: 0 <= k < |KeptRows(rows)| ==>
              KeptRow(KeptRows(rows)[k]) && UserOf(KeptRows(rows)[k]) == Some(Users(rows).value[k])
  {
    if rows != [] {
      var init := rows[..|rows| - 1];
      UsersCharacterised(init);
      KeptRowsMembers(init);
      assert rows == init + [rows[|rows| - 1]];
    }
  }

  /** Every user has a detail link. */
  predicate HasDetailLink(user: Record) {
    HasStr(user, "detail_link")
  }

  function DetailLink(user: Record): string
    requires HasDetailLink(user)
  {
    user["detail_link"].s
  }

  /** Every user the loop yields carries a detail link made from its own id
      text. */
  lemma UsersLinked(rows: seq<Element>)
    requires Users(rows).Some?
    ensures |Users(rows).value| == |KeptRows(rows)|
    ensures forall k :: 0 <= k < |KeptRows(rows)| ==>
              && KeptRow(KeptRows(rows)[k])
              && HasDetailLink(Users(rows).value[k])
              && DetailLink(Users(rows).value[k]) == BaseUrl + "/user/" + KeptRows(rows)[k].cells[0]
  {
    UsersCharacterised(rows);
    KeptRowsMembers(rows);
  }

  /** The users loop of crawl_website. */
  method CollectUsers(rows: seq<Element>) returns (users: Option<seq<Record>>)
    ensures users == Users(rows)
  {
    var acc: seq<Record> := [];
    var i := 0;
    while i < |rows|
      invariant 0 <= i <= |rows|
      invariant Users(rows[..i]) == Some(acc)
    {
      var row := rows[i];
      assert rows[..i + 1][..i] == rows[..i];
      if KeptRow(row) {
        var user := UserOf(row);
        if user.None? {
          UsersNoneExtends(rows, i + 1);
          return None;
        }
        acc := acc + [user.value];
      }
      i := i + 1;
    }
    assert rows[..|rows|] == rows;
    users := Some(acc);
  }

  /** Once the loop has failed, later rows do not revive it. */
  lemma {:induction false} UsersNoneExtends(rows: seq<Element>, n: nat)
    requires n <= |rows| && Users(rows[..n]).None?
    ensures Users(rows).None?
    decreases |rows| - n
  {
    if n < |rows| {
      assert rows[..n + 1][..n] == rows[..n];
      UsersNoneExtends(rows, n + 1);
    } else {
      assert rows[..n] == rows;
    }
  }

  // ---------------------------------------------------------------------
  // Label-delimited fields

  /** The label cut every crawler's extract_field shares: what follows the
      last occurrence of the label, cut at the first "|", stripped. An empty
      label makes split raise, and the handler returns "". */
  function FieldAfter(text: string, tag: string): (r: string)
    ensures '|' !in r
  {
    if tag == [] then ""
    else
      var piece := FirstPart(LastPart(text, tag), "|");
      ContainsChar(piece, '|');
      Strip(piece)
  }

  /** With the label absent, the whole text goes to the cut. */
  lemma FieldAfterAbsent(text: string, tag: string)
    requires tag != [] && !Contains(text, tag)
    ensures FieldAfter(text, tag) == Strip(FirstPart(text, "|"))
  {
  }

  /** A value rendered after its label, up to a "|" or the end of the text,
      comes back out unchanged when the label occurs nowhere else. */
  lemma FieldAfterRendered(p: string, tag: string, v: string, tail: string)
    requires tag != []
    requires forall j: nat :: OccursAt(p + tag + v + tail, tag, j) ==> j == |p|
    requires '|' !in v
    requires v == [] || (!IsSpace(v[0]) && !IsSpace(v[|v| - 1]))
    requires tail == [] || tail[0] == '|'
    ensures FieldAfter(p + tag + v + tail, tag) == v
  {
    assert p + tag + v + tail == p + tag + (v + tail);
    LastPartAfterOnly(p, tag, v + tail);
    FirstPartBefore(v, '|', tail);
    StripStripped(v);
  }

  /** None of the labels and spec names the crawlers split at can overlap
      itself, so `LastPartExact` applies to every one of them. */
  lemma LabelsBorderless()
    ensures Borderless("类别:") && Borderless("价格:") && Borderless("上架时间:")
    ensures Borderless("日期:") && Borderless("作者:") && Borderless("浏览量:")
    ensures Borderless("邮箱:") && Borderless("电话:") && Borderless("最后登录:")
    ensures Borderless("CPU") && Borderless("内存") && Borderless("存储")
  {
    LastCharOnce("类别:");
    LastCharOnce("价格:");
    LastCharOnce("上架时间:");
    LastCharOnce("日期:");
    LastCharOnce("作者:");
    LastCharOnce("浏览量:");
    LastCharOnce("邮箱:");
    LastCharOnce("电话:");
    LastCharOnce("最后登录:");
    LastCharOnce("CPU");
    LastCharOnce("内存");
    LastCharOnce("存储");
  }

  /** extract_spec(html, spec_name): what follows the last occurrence of the
      name, cut at the first "," and stripped. */
  function ExtractSpec(text: string, name: string): (r: string)
    ensures ',' !in r
  {
    if name == [] then ""
    else
      var piece := FirstPart(LastPart(text, name), ",");
      ContainsChar(piece, ',');
      Strip(piece)
  }

  /** A spec value rendered after its name, up to a "," or the end of the
      text, comes back out unchanged when the name occurs nowhere else. */
  lemma ExtractSpecRendered(p: string, name: string, v: string, tail: string)
    requires name != []
    requires forall j: nat :: OccursAt(p + name + v + tail, name, j) ==> j == |p|
    requires ',' !in v
    requires v == [] || (!IsSpace(v[0]) && !IsSpace(v[|v| - 1]))
    requires tail == [] || tail[0] == ','
    ensures ExtractSpec(p + name + v + tail, name) == v
  {
    assert p + name + v + tail == p + name + (v + tail);
    LastPartAfterOnly(p, name, v + tail);
    FirstPartBefore(v, ',', tail);
    StripStripped(v);
  }

  /** The specs dict of both crawlers' product schemas. */
  function Specs(e: Element): Value {
    Obj(map["CPU" := Str(ExtractSpec(e.text, "CPU")),
            "内存" := Str(ExtractSpec(e.text, "内存")),
            "存储" := Str(ExtractSpec(e.text, "存储"))])
  }

  // ---------------------------------------------------------------------
  // Page-by-page crawls

  /** The records collected and the pages requested. */
  datatype PageRun = PageRun(records: seq<Record>, visited: seq<nat>)

  /** The run so far followed by what is left of it. */
  function Remaining(data: seq<Record>, visited: seq<nat>, rest: PageRun): PageRun {
    PageRun(data + rest.records, visited + rest.visited)
  }

  /** Before the first page nothing has been collected. */
  lemma RemainingStart(run: PageRun)
    ensures Remaining([], [], run) == run
  {
    assert [] + run.records == run.records && [] + run.visited == run.visited;
  }

  lemma RemainingStep(before: PageRun, here: seq<Record>, page: nat, rest: PageRun)
    ensures Remaining(before.records + here, before.visited + [page], rest)
         == Remaining(before.records, before.visited, PageRun(here + rest.records, [page] + rest.visited))
  {
    assert (before.records + here) + rest.records == before.records + (here + rest.records);
    assert (before.visited + [page]) + rest.visited == before.visited + ([page] + rest.visited);
  }

  // ---------------------------------------------------------------------
  // Detail loops: some records are updated in place from a detail page
  // whose URL one of their fields holds.

  predicate Distinct(s: seq<nat>) {
    forall a, b :: 0 <= a < b < |s| ==> s[a] != s[b]
  }

  /** range(n). */
  function Range(n: nat): (r: seq<nat>)
    ensures |r| == n && Distinct(r)
    ensures forall k :: 0 <= k < n ==> r[k] == k
    ensures forall x :: x in r ==> x < n
  {
    seq(n, k => k)
  }

  /** dict.update: the detail's keys overwrite, the others stay. */
  function Update(record: Record, detail: Record): (r: Record)
    ensures r.Keys == record.Keys + detail.Keys
    ensures forall k :: k in detail ==> r[k] == detail[k]
    ensures forall k :: k in record && k !in detail ==> r[k] == record[k]
  {
    record + detail
  }

  /** An empty detail dict leaves the record as it was. */
  lemma UpdateEmpty(record: Record)
    ensures Update(record, map[]) == record
  {
    assert record + map[] == record;
  }

  /** The record holds a string under `key`. */
  predicate HasStr(record: Record, key: string) {
    key in record && record[key].Str?
  }

  /** One record after `record.update(fetch(record[key]))`, where `fetch`
      gives the detail dict for a URL. */
  function Merged(record: Record, key: string, fetch: string -> Record): (r: Record)
    requires HasStr(record, key)
    requires key !in fetch(record[key].s)
    ensures HasStr(r, key) && r[key] == record[key]
  {
    Update(record, fetch(record[key].s))
  }

  /** The records after a detail loop has merged into the records at
      `picks`, one after the other. */
  function UpdatedAt(records: seq<Record>, picks: seq<nat>, key: string, fetch: string -> Record)
    : (r: seq<Record>)
    requires forall j :: 0 <= j < |picks| ==> picks[j] < |records|
    requires forall i :: 0 <= i < |records| ==> HasStr(records[i], key)
    requires forall url :: key !in fetch(url)
    ensures |r| == |records|
    ensures forall i :: 0 <= i < |r| ==> HasStr(r[i], key)
    decreases |picks|
  {
    if picks == [] then records
    else
      var prev := UpdatedAt(records, picks[..|picks| - 1], key, fetch);
      var i := picks[|picks| - 1];
      prev[i := Merged(prev[i], key, fetch)]
  }

  /** With no position picked twice, every picked record is merged with the
      detail of its own URL and every other record is left as it was. */
  lemma {:induction false} UpdatedAtEffect(records: seq<Record>, picks: seq<nat>, key: string, fetch: string -> Record)
    requires forall j :: 0 <= j < |picks| ==> picks[j] < |records|
    requires forall i :: 0 <= i < |records| ==> HasStr(records[i], key)
    requires forall url :: key !in fetch(url)
    requires Distinct(picks)
    ensures forall j :: 0 <= j < |picks| ==>
              UpdatedAt(records, picks, key, fetch)[picks[j]] == Merged(records[picks[j]], key, fetch)
    ensures forall i :: 0 <= i < |records| && i !in picks ==>
              UpdatedAt(records, picks, key, fetch)[i] == records[i]
    decreases |picks|
  {
    if picks != [] {
      var init := picks[..|picks| - 1];
      var last := picks[|picks| - 1];
      UpdatedAtEffect(records, init, key, fetch);
      assert last !in init;
      forall i | 0 <= i < |records| && i !in picks
        ensures UpdatedAt(records, picks, key, fetch)[i] == records[i]
      {
        assert i !in init && i != last;
      }
      forall j | 0 <= j < |picks|
        ensures UpdatedAt(records, picks, key, fetch)[picks[j]] == Merged(records[picks[j]], key, fetch)
      {
        if j < |picks| - 1 {
          assert picks[j] == init[j] && picks[j] != last;
        }
      }
    }
  }

  /** The loop over records[:k]: the first k records are merged, in order,
      and the rest are left as they were. */
  lemma UpdatedFirst(records: seq<Record>, k: nat, key: string, fetch: string -> Record)
    requires k <= |records|
    requires forall i :: 0 <= i < |records| ==> HasStr(records[i], key)
    requires forall url :: key !in fetch(url)
    ensures forall i :: 0 <= i < k ==> UpdatedAt(records, Range(k), key, fetch)[i] == Merged(records[i], key, fetch)
    ensures forall i :: k <= i < |records| ==> UpdatedAt(records, Range(k), key, fetch)[i] == records[i]
  {
    UpdatedAtEffect(records, Range(k), key, fetch);
    forall i | 0 <= i < k
      ensures UpdatedAt(records, Range(k), key, fetch)[i] == Merged(records[i], key, fetch)
    {
      assert Range(k)[i] == i;
    }
  }

  // ---------------------------------------------------------------------
  // What a user's detail page adds, and what a run writes

  /** The keys a detail page adds; the detail link is not among them. */
  const DetailKeys: set<string> := {"email", "phone", "last_login"}

  /** The dict crawl_user_detail builds from a detail page. */
  function DetailRecord(email: string, phone: string, lastLogin: string): (detail: Record)
    ensures detail.Keys == DetailKeys
  {
    map["email" := Str(email), "phone" := Str(phone), "last_login" := Str(lastLogin)]
  }

  /** What crawl_website writes: products.json, news.json, users.json;
      None for a file that is not written. */
  datatype Saved = Saved(products: Option<seq<Record>>, news: Option<seq<Record>>, users: Option<seq<Record>>)

  function Min(a: nat, b: nat): nat {
    if a < b then a else b
  }
}
