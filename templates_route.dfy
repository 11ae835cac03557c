/**
 * The `/api/templates` collection handlers: the shaping of a create request
 * (`POST`) into the record handed to the store, and of a list request (`GET`)
 * into a query, with a reference meaning of that query over the stored rows.
 */
module TemplatesRoute {
  import opened Wrappers
  import Decimal

  // ---------------------------------------------------------------------------
  // Values of a JSON request body and JavaScript truthiness
  // ---------------------------------------------------------------------------

  /** A value as `req.json()` produces it, with `undefined` for a missing property. */
  datatype JsValue =
    | Undefined
    | Null
    | Bool(b: bool)
    | Number(n: int)
    | Str(s: string)
    | Array(items: seq<JsValue>)
    | Object(props: map<string, JsValue>)

  /** JavaScript's falsy values among these: `undefined`, `null`, `false`, `0` and `""`. */
  predicate Truthy(v: JsValue)
    ensures Truthy(v) <==> v !in {Undefined, Null, Bool(false), Number(0), Str("")}
  {
    match v
    case Undefined => false
    case Null => false
    case Bool(b) => b
    case Number(n) => n != 0
    case Str(s) => s != ""
    case Array(_) => true
    case Object(_) => true
  }

  /** `v || fallback`. */
  function Or(v: JsValue, fallback: JsValue): (r: JsValue)
    ensures Truthy(v) ==> r == v
    ensures !Truthy(v) ==> r == fallback
  {
    if Truthy(v) then v else fallback
  }

  /** Reading a property of the body: present properties of an object, `undefined` otherwise. */
  function Property(body: JsValue, name: string): (r: JsValue)
    ensures !body.Object? ==> r == Undefined
    ensures body.Object? && name !in body.props ==> r == Undefined
    ensures body.Object? && name in body.props ==> r == body.props[name]
  {
    if body.Object? && name in body.props then body.props[name] else Undefined
  }

  // ---------------------------------------------------------------------------
  // POST: create
  // ---------------------------------------------------------------------------

  /** The object literal given to `insert`. */
  datatype InsertRecord = InsertRecord(title: JsValue, description: JsValue, content: JsValue,
                                       tags: JsValue, category: JsValue)

  datatype CreateOutcome =
    | TitleMissing   // the early `errorResponse('标题不能为空')`; the store is not called
    | Crashed        // destructuring a `null` body throws, and the handler answers 500
    | Insert(record: InsertRecord)

  /** The create handler up to the store call. */
  function PrepareCreate(body: JsValue): (r: CreateOutcome)
    ensures r.Crashed? <==> body == Null || body == Undefined
    ensures r.TitleMissing? <==> body != Null && body != Undefined && !Truthy(Property(body, "title"))
    ensures r.Insert? ==> r.record.title == Property(body, "title") && Truthy(r.record.title)
    ensures r.Insert? ==> r.record.description == Or(Property(body, "description"), Null)
    ensures r.Insert? ==> r.record.content == Or(Property(body, "content"), Null)
    ensures r.Insert? ==> r.record.tags == Or(Property(body, "tags"), Array([]))
    ensures r.Insert? ==> r.record.category == Or(Property(body, "category"), Null)
  {
    if body == Null || body == Undefined then Crashed
    else
      var title := Property(body, "title");
      if !Truthy(title) then TitleMissing
      else Insert(InsertRecord(
        title,
        Or(Property(body, "description"), Null),
        Or(Property(body, "content"), Null),
        Or(Property(body, "tags"), Array([])),
        Or(Property(body, "category"), Null)))
  }

  /** Every optional field of a prepared record is either passed through truthy, or its default. */
  lemma PreparedFieldsAreNormal(body: JsValue)
    requires PrepareCreate(body).Insert?
    ensures var rec := PrepareCreate(body).record;
            (rec.description == Null || (Truthy(rec.description) && rec.description == Property(body, "description"))) &&
            (rec.content == Null || (Truthy(rec.content) && rec.content == Property(body, "content"))) &&
            (rec.category == Null || (Truthy(rec.category) && rec.category == Property(body, "category"))) &&
            (rec.tags == Array([]) || rec.tags == Property(body, "tags"))
  {
  }

  /** A body holding only a non-empty title yields null text fields and empty tags. */
  lemma TitleOnlyBody(t: string)
    requires t != ""
    ensures PrepareCreate(Object(map["title" := Str(t)])) ==
            Insert(InsertRecord(Str(t), Null, Null, Array([]), Null))
  {
  }

  /** Empty strings are not kept: `""` description, content and category become `null`. */
  lemma EmptyStringsBecomeNull(t: string)
    requires t != ""
    ensures var body := Object(map["title" := Str(t), "description" := Str(""), "content" := Str(""),
                                   "category" := Str(""), "tags" := Null]);
            PrepareCreate(body) == Insert(InsertRecord(Str(t), Null, Null, Array([]), Null))
  {
  }

  /** A falsy title is refused whatever else the body holds. */
  lemma FalsyTitleRefused(props: map<string, JsValue>)
    requires "title" !in props || props["title"] in {Undefined, Null, Str(""), Number(0), Bool(false)}
    ensures PrepareCreate(Object(props)) == TitleMissing
  {
  }

  /** The record as a request body again. */
  function AsBody(rec: InsertRecord): JsValue
  {
    Object(map["title" := rec.title, "description" := rec.description, "content" := rec.content,
               "tags" := rec.tags, "category" := rec.category])
  }

  /** Normalisation is idempotent: a prepared record sent back as a body is prepared unchanged. */
  lemma PrepareCreateIdempotent(body: JsValue)
    requires PrepareCreate(body).Insert?
    ensures PrepareCreate(AsBody(PrepareCreate(body).record)) == PrepareCreate(body)
  {
    var rec := PrepareCreate(body).record;
    var again := AsBody(rec);
    assert Property(again, "title") == rec.title;
    assert Property(again, "description") == rec.description;
    assert Property(again, "content") == rec.content;
    assert Property(again, "tags") == rec.tags;
    assert Property(again, "category") == rec.category;
  }

  // ---------------------------------------------------------------------------
  // GET: list
  // ---------------------------------------------------------------------------

  /** The query string's parameters, in order (`URLSearchParams`). */
  type Params = seq<(string, string)>

  /** `searchParams.get(name)`: the first value given for `name`, `null` when there is none. */
  function GetParam(ps: Params, name: string): (r: Option<string>)
    ensures r.None? <==> forall i :: 0 <= i < |ps| ==> ps[i].0 != name
    ensures r.Some? ==> exists i :: 0 <= i < |ps| && ps[i] == (name, r.value) &&
                                    forall j :: 0 <= j < i ==> ps[j].0 != name
  {
    if ps == [] then None
    else if ps[0].0 == name then Some(ps[0].1)
    else match GetParam(ps[1..], name)
      case None => None
      case Some(v) =>
        ghost var i :| 0 <= i < |ps[1..]| && ps[1..][i] == (name, v) &&
                       forall j :: 0 <= j < i ==> ps[1..][j].0 != name;
        assert ps[i + 1] == (name, v);
        Some(v)
  }

  /** `searchParams.get(name) || fallback`. */
  function ParamOr(p: Option<string>, fallback: string): (r: string)
    ensures p == None || p == Some("") ==> r == fallback
    ensures p.Some? && p.value != "" ==> r == p.value
  {
    if p.Some? && p.value != "" then p.value else fallback
  }

  /** A `get` result used as a condition: present and non-empty. */
  function NonEmpty(p: Option<string>): (r: Option<string>)
    ensures r.Some? <==> p.Some? && p.value != ""
    ensures r.Some? ==> r == p
  {
    if p.Some? && p.value != "" then p else None
  }

  /** The query the handler builds: the filters it adds and the inclusive row range. */
  datatype ListQuery = ListQuery(category: Option<string>, search: Option<string>,
                                 limit: int, offset: int, rangeFrom: int, rangeTo: int)

  datatype ListPlan =
    | NotANumber           // `parseInt` gave NaN for limit or offset; the store's answer is not modelled
    | Query(q: ListQuery)

  /** The list handler up to the store call. */
  function PrepareList(ps: Params): (r: ListPlan)
    ensures var l := Decimal.ParseInt(ParamOr(GetParam(ps, "limit"), "100"));
            var o := Decimal.ParseInt(ParamOr(GetParam(ps, "offset"), "0"));
            r.NotANumber? <==> l.None? || o.None?
    ensures r.Query? ==> r.q.limit == Decimal.ParseInt(ParamOr(GetParam(ps, "limit"), "100")).value
    ensures r.Query? ==> r.q.offset == Decimal.ParseInt(ParamOr(GetParam(ps, "offset"), "0")).value
    ensures r.Query? ==> r.q.rangeFrom == r.q.offset && r.q.rangeTo == r.q.offset + r.q.limit - 1
    ensures r.Query? ==> r.q.category == NonEmpty(GetParam(ps, "category"))
    ensures r.Query? ==> r.q.search == NonEmpty(GetParam(ps, "search"))
  {
    var limit := Decimal.ParseInt(ParamOr(GetParam(ps, "limit"), "100"));
    var offset := Decimal.ParseInt(ParamOr(GetParam(ps, "offset"), "0"));
    if limit.None? || offset.None? then NotANumber
    else
      Query(ListQuery(NonEmpty(GetParam(ps, "category")), NonEmpty(GetParam(ps, "search")),
                      limit.value, offset.value, offset.value, offset.value + limit.value - 1))
  }

  /** An absent or empty `limit` is read as 100. */
  lemma LimitDefault(ps: Params)
    requires GetParam(ps, "limit") in {None, Some("")}
    ensures Decimal.ParseInt(ParamOr(GetParam(ps, "limit"), "100")) == Some(100)
  {
    assert ParamOr(GetParam(ps, "limit"), "100") == Decimal.IntToString(100);
    Decimal.IntRoundTrip(100);
  }

  /** An absent or empty `offset` is read as 0. */
  lemma OffsetDefault(ps: Params)
    requires GetParam(ps, "offset") in {None, Some("")}
    ensures Decimal.ParseInt(ParamOr(GetParam(ps, "offset"), "0")) == Some(0)
  {
    assert ParamOr(GetParam(ps, "offset"), "0") == Decimal.IntToString(0);
    Decimal.IntRoundTrip(0);
  }

  /** A `limit` or `offset` given as the decimal spelling of an integer is read as that integer. */
  lemma IntegerParamRead(ps: Params, name: string, fallback: string, i: int)
    requires GetParam(ps, name) == Some(Decimal.IntToString(i))
    ensures Decimal.ParseInt(ParamOr(GetParam(ps, name), fallback)) == Some(i)
  {
    Decimal.IntRoundTrip(i);
  }

  /**
   * Each paging parameter is defaulted on its own: an absent or empty one is
   * 100 (limit) or 0 (offset), an integer one is the integer it spells,
   * whatever the other is and in whatever order they appear.
   */
  lemma ListPaging(ps: Params, limit: Option<int>, offset: Option<int>)
    requires limit.None? ==> GetParam(ps, "limit") in {None, Some("")}
    requires limit.Some? ==> GetParam(ps, "limit") == Some(Decimal.IntToString(limit.value))
    requires offset.None? ==> GetParam(ps, "offset") in {None, Some("")}
    requires offset.Some? ==> GetParam(ps, "offset") == Some(Decimal.IntToString(offset.value))
    ensures PrepareList(ps).Query?
    ensures var q := PrepareList(ps).q;
            q.limit == (if limit.Some? then limit.value else 100) &&
            q.offset == (if offset.Some? then offset.value else 0) &&
            q.rangeFrom == q.offset && q.rangeTo == q.offset + q.limit - 1
  {
    if limit.Some? { IntegerParamRead(ps, "limit", "100", limit.value); } else { LimitDefault(ps); }
    if offset.Some? { IntegerParamRead(ps, "offset", "0", offset.value); } else { OffsetDefault(ps); }
  }

  /** Without `limit` and `offset` (or with them empty) a page of 100 rows from row 0 is asked for. */
  lemma ListDefaults(ps: Params)
    requires GetParam(ps, "limit") in {None, Some("")}
    requires GetParam(ps, "offset") in {None, Some("")}
    ensures PrepareList(ps).Query?
    ensures var q := PrepareList(ps).q; q.limit == 100 && q.offset == 0 && q.rangeFrom == 0 && q.rangeTo == 99
  {
    ListPaging(ps, None, None);
  }

  /** `?offset=40` alone asks for rows 40 to 139. */
  lemma OffsetOnlyExample()
    ensures PrepareList([("offset", "40")]).Query?
    ensures var q := PrepareList([("offset", "40")]).q; q.limit == 100 && q.offset == 40 && q.rangeTo == 139
  {
    assert Decimal.IntToString(40) == "40";
    ListPaging([("offset", "40")], None, Some(40));
  }

  /** `?offset=5&limit=10` asks for rows 5 to 14: the order of the parameters does not matter. */
  lemma ReorderedParamsExample()
    ensures var ps := [("offset", "5"), ("limit", "10")];
            PrepareList(ps).Query? && PrepareList(ps).q.limit == 10 && PrepareList(ps).q.offset == 5 &&
            PrepareList(ps).q.rangeTo == 14
  {
    var ps := [("offset", "5"), ("limit", "10")];
    assert Decimal.IntToString(5) == "5" && Decimal.IntToString(10) == "10";
    assert GetParam(ps, "limit") == Some("10");
    ListPaging(ps, Some(10), Some(5));
  }

  // ---------------------------------------------------------------------------
  // The list query's meaning over the stored rows
  // ---------------------------------------------------------------------------

  /** A stored `ArticleTemplate`; the two timestamps are modelled as instants. */
  datatype ArticleTemplate = ArticleTemplate(id: string, title: string, description: Option<string>,
                                             content: Option<string>, tags: seq<string>,
                                             category: Option<string>, createdAt: int, updatedAt: int)

  function LowerChar(c: char): char
  {
    if 'A' <= c <= 'Z' then (c as int + 32) as char else c
  }

  function Lower(s: string): (r: string)
    ensures |r| == |s| && forall k :: 0 <= k < |s| ==> r[k] == LowerChar(s[k])
  {
    seq(|s|, k requires 0 <= k < |s| => LowerChar(s[k]))
  }

  /** `needle` occurs in `hay` at some position. */
  predicate Contains(hay: string, needle: string)
  {
    exists i :: 0 <= i <= |hay| && needle <= hay[i..]
  }

  /** `column ilike '%s%'`: a non-null column containing `s`, ignoring letter case. */
  predicate ILikeContains(column: Option<string>, s: string)
    ensures ILikeContains(column, s) ==> column.Some?
  {
    column.Some? && Contains(Lower(column.value), Lower(s))
  }

  lemma LowerIdempotent(s: string)
    ensures Lower(Lower(s)) == Lower(s)
  {
  }

  /** The search ignores letter case: an upper-case and a lower-case search find the same rows. */
  lemma SearchIgnoresCase(column: Option<string>, s: string)
    ensures ILikeContains(column, s) <==> ILikeContains(column, Lower(s))
  {
    LowerIdempotent(s);
  }

  /** The row passes the `eq('category', …)` filter when there is one. */
  predicate CategoryOk(category: Option<string>, row: ArticleTemplate)
    ensures category.Some? && row.category.None? ==> !CategoryOk(category, row)
  {
    category.None? || row.category == category
  }

  /** The row passes the `or(title.ilike…, description.ilike…)` filter when there is one. */
  predicate SearchOk(search: Option<string>, row: ArticleTemplate)
    ensures search.Some? && row.description.None? ==>
              (SearchOk(search, row) <==> ILikeContains(Some(row.title), search.value))
  {
    search.None? || ILikeContains(Some(row.title), search.value) || ILikeContains(row.description, search.value)
  }

  /** The rows for which `keep` holds, in their order. */
  function Filter(rows: seq<ArticleTemplate>, keep: ArticleTemplate -> bool): (r: seq<ArticleTemplate>)
    ensures forall k :: 0 <= k < |r| ==> keep(r[k])
    ensures forall x :: x in rows && keep(x) ==> x in r
    ensures multiset(r) <= multiset(rows)
  {
    if rows == [] then []
    else
      var tail := Filter(rows[1..], keep);
      assert rows == [rows[0]] + rows[1..];
      if keep(rows[0]) then [rows[0]] + tail else tail
  }

  /** The filters the query carries, applied as the handler adds them. */
  function Selected(rows: seq<ArticleTemplate>, q: ListQuery): (r: seq<ArticleTemplate>)
    ensures forall k :: 0 <= k < |r| ==> CategoryOk(q.category, r[k]) && SearchOk(q.search, r[k])
    ensures forall x :: x in rows && CategoryOk(q.category, x) && SearchOk(q.search, x) ==> x in r
    ensures multiset(r) <= multiset(rows)
  {
    var byCategory := Filter(rows, row => CategoryOk(q.category, row));
    var r := Filter(byCategory, row => SearchOk(q.search, row));
    assert forall k :: 0 <= k < |r| ==> r[k] in multiset(r) && r[k] in multiset(byCategory) && r[k] in byCategory;
    r
  }

  /** Newest first: `created_at` never increases along the sequence. */
  predicate NewestFirst(rows: seq<ArticleTemplate>)
  {
    forall i, j :: 0 <= i < j < |rows| ==> rows[i].createdAt >= rows[j].createdAt
  }

  function InsertByDate(x: ArticleTemplate, rows: seq<ArticleTemplate>): (r: seq<ArticleTemplate>)
    requires NewestFirst(rows)
    ensures NewestFirst(r)
    ensures multiset(r) == multiset(rows) + multiset{x}
  {
    if rows == [] || x.createdAt >= rows[0].createdAt then [x] + rows
    else
      var tail := InsertByDate(x, rows[1..]);
      assert rows == [rows[0]] + rows[1..];
      assert forall k :: 0 <= k < |tail| ==> tail[k] in multiset(rows[1..]) + multiset{x};
      [rows[0]] + tail
  }

  /** `order('created_at', { ascending: false })`. */
  function SortNewestFirst(rows: seq<ArticleTemplate>): (r: seq<ArticleTemplate>)
    ensures NewestFirst(r)
    ensures multiset(r) == multiset(rows)
  {
    if rows == [] then []
    else
      assert rows == [rows[0]] + rows[1..];
      InsertByDate(rows[0], SortNewestFirst(rows[1..]))
  }

  /** `range(from, to)`: the rows at positions `from` through `to`, both included, that exist. */
  function Window(rows: seq<ArticleTemplate>, from: int, to: int): (r: seq<ArticleTemplate>)
    ensures from >= 0 ==> forall k :: 0 <= k < |r| ==> from + k <= to && from + k < |rows| && r[k] == rows[from + k]
    ensures from >= 0 ==> |r| == if from >= |rows| || to < from then 0
                                 else (if to + 1 < |rows| then to + 1 else |rows|) - from
  {
    var lo := if from < 0 then 0 else if from > |rows| then |rows| else from;
    var hi := if to + 1 < lo then lo else if to + 1 > |rows| then |rows| else to + 1;
    rows[lo..hi]
  }

  /** The response body of a successful list: rows, `count || 0`, and the echoed `limit` and `offset`. */
  datatype ListResponse = ListResponse(templates: seq<ArticleTemplate>, total: int, limit: int, offset: int)

  /** `count || 0`. */
  function Total(count: Option<int>): (t: int)
    ensures count.None? ==> t == 0
    ensures count.Some? ==> t == count.value
  {
    if count.Some? && count.value != 0 then count.value else 0
  }

  function Respond(data: seq<ArticleTemplate>, count: Option<int>, q: ListQuery): (r: ListResponse)
    ensures r.templates == data && r.limit == q.limit && r.offset == q.offset
    ensures count.None? ==> r.total == 0
    ensures count.Some? ==> r.total == count.value
  {
    ListResponse(data, Total(count), q.limit, q.offset)
  }

  /**
   * What the store answers to the query, read as: select the rows the filters
   * keep, order them newest first, window them, and count every kept row.
   */
  function RunList(rows: seq<ArticleTemplate>, q: ListQuery): (r: ListResponse)
    ensures r.limit == q.limit && r.offset == q.offset
  {
    var kept := Selected(rows, q);
    Respond(Window(SortNewestFirst(kept), q.rangeFrom, q.rangeTo), Some(|kept|), q)
  }

  /** `total` counts every selected row, whatever the page asked for. */
  lemma TotalIgnoresPaging(rows: seq<ArticleTemplate>, q: ListQuery, q': ListQuery)
    requires q.category == q'.category && q.search == q'.search
    ensures RunList(rows, q).total == RunList(rows, q').total == |Selected(rows, q)|
  {
  }

  /** A prepared query's page holds `min(limit, total - offset)` rows, none when `offset >= total`. */
  lemma PageSize(rows: seq<ArticleTemplate>, ps: Params)
    requires PrepareList(ps).Query?
    requires PrepareList(ps).q.offset >= 0 && PrepareList(ps).q.limit >= 0
    ensures var q := PrepareList(ps).q; var r := RunList(rows, q);
            |r.templates| == if q.offset >= r.total then 0
                             else if q.limit < r.total - q.offset then q.limit else r.total - q.offset
  {
    var q := PrepareList(ps).q;
    var kept := Selected(rows, q);
    var sorted := SortNewestFirst(kept);
    assert |sorted| == |multiset(sorted)| == |multiset(kept)| == |kept|;
  }

  /** Every returned row is a stored row that passes the category and the search filter. */
  lemma PageRowsMatch(rows: seq<ArticleTemplate>, q: ListQuery)
    ensures forall k :: 0 <= k < |RunList(rows, q).templates| ==>
              var row := RunList(rows, q).templates[k];
              row in rows && CategoryOk(q.category, row) && SearchOk(q.search, row)
  {
    var byCategory := Filter(rows, row => CategoryOk(q.category, row));
    var kept := Selected(rows, q);
    var sorted := SortNewestFirst(kept);
    var page := RunList(rows, q).templates;
    forall k | 0 <= k < |page|
      ensures page[k] in rows && CategoryOk(q.category, page[k]) && SearchOk(q.search, page[k])
    {
      assert page[k] in multiset(sorted);
      assert page[k] in kept;
      assert page[k] in byCategory;
      assert page[k] in multiset(byCategory);
    }
  }

  /** The page is ordered newest first. */
  lemma PageNewestFirst(rows: seq<ArticleTemplate>, q: ListQuery)
    ensures NewestFirst(RunList(rows, q).templates)
  {
  }

  /** A first page large enough holds every selected row: nothing that matches is lost. */
  lemma FirstPageComplete(rows: seq<ArticleTemplate>, q: ListQuery)
    requires q.rangeFrom == 0 && q.rangeTo + 1 >= |Selected(rows, q)|
    ensures multiset(RunList(rows, q).templates) == multiset(Selected(rows, q))
  {
    var kept := Selected(rows, q);
    var sorted := SortNewestFirst(kept);
    assert |sorted| == |multiset(sorted)| == |multiset(kept)| == |kept|;
    assert Window(sorted, q.rangeFrom, q.rangeTo) == sorted;
  }
}
