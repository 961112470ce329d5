/**
  The list-query middleware (middleware/advancedResults.js): it turns the URL query of a
  listing request into a filtered, projected, sorted and paginated query against one
  collection, and stores the result envelope `{success, count, pagination, data}` on the
  response for the route handler to send.

  What the store itself does is outside the model. Counting the collection is `|collection|`;
  the records the store finds for the filter, in the requested order, with the requested
  fields and relations, are the parameter `matched`; `skip` and `limit` are applied to them
  as a window. Serialising the filter map (JSON.stringify) is the parameter `serialize`.
*/
module AdvancedResults {
  import opened Wrappers
  import Text
  import JsParseInt
  import OperatorRewrite

  /** The query keys that steer the listing instead of filtering it. */
  const ReservedKeys: seq<string> := ["select", "sort", "page", "limit"]
  const DefaultSort: string := "-createdAt"
  const DefaultPage: int := 1
  const DefaultLimit: int := 25

  /** The query as it is handed to the store: filter text, projection, sort order,
      skip, limit and the relation to populate. */
  datatype Query = Query(filter: string, projection: Option<string>, sortBy: string,
                         skip: int, limit: int, populate: Option<string>)

  datatype Link = Link(page: int, limit: int)

  datatype Pagination = Pagination(next: Option<Link>, prev: Option<Link>)

  datatype Envelope<R> = Envelope(success: bool, count: int, pagination: Pagination, data: seq<R>)

  /** The store refuses a negative skip; the rejection leaves the middleware unhandled. */
  datatype StoreError = NegativeSkip(skip: int)

  /** The part of the response object the middleware writes. */
  class Response<R> {
    var advancedResults: Option<Envelope<R>>

    constructor ()
      ensures advancedResults == None
    {
      advancedResults := None;
    }
  }

  /** `req.query[key]`, absent as `None`. */
  function Param(query: map<string, string>, key: string): Option<string> {
    if key in query then Some(query[key]) else None
  }

  /** JavaScript truthiness of an optional string: present and not empty. */
  predicate Truthy(v: Option<string>) {
    v.Some? && v.value != ""
  }

  /** Copy the request query and delete the reserved keys from the copy, one after the
      other. */
  method RemoveReservedKeys(query: map<string, string>) returns (filter: map<string, string>)
    ensures filter.Keys == query.Keys - {"select", "sort", "page", "limit"}
    ensures forall key :: key in filter ==> filter[key] == query[key]
  {
    filter := query;
    for i := 0 to |ReservedKeys|
      invariant filter.Keys == query.Keys - set j | 0 <= j < i :: ReservedKeys[j]
      invariant forall key :: key in filter ==> filter[key] == query[key]
    {
      filter := filter - {ReservedKeys[i]};
    }
    assert ReservedKeys[0] == "select" && ReservedKeys[1] == "sort";
    assert ReservedKeys[2] == "page" && ReservedKeys[3] == "limit";
    assert (set j | 0 <= j < |ReservedKeys| :: ReservedKeys[j]) == {"select", "sort", "page", "limit"};
  }

  /** The text handed to the store as filter: the serialised filter map with its
      operator words prefixed by `$`; nothing but `$` characters is added. */
  function FilterText(filter: map<string, string>, serialize: map<string, string> -> string): (r: string)
    ensures |r| == |serialize(filter)| + OperatorRewrite.OperatorCount(serialize(filter), 0)
    ensures OperatorRewrite.EraseDollars(r) == OperatorRewrite.EraseDollars(serialize(filter))
  {
    OperatorRewrite.RewriteLength(serialize(filter));
    OperatorRewrite.RewriteErase(serialize(filter));
    OperatorRewrite.Rewrite(serialize(filter))
  }

  /** The projection: the `select` list with commas turned into spaces, when it is set. */
  function Projection(query: map<string, string>): (r: Option<string>)
    ensures r.Some? <==> Truthy(Param(query, "select"))
    ensures r.Some? ==> r.value == Text.ReplaceChar(query["select"], ',', ' ')
    ensures r.Some? ==> |r.value| == |query["select"]| && ',' !in r.value
  {
    var select := Param(query, "select");
    if Truthy(select) then Some(Text.CommasToSpaces(select.value)) else None
  }

  /** The sort order: the `sort` list with commas turned into spaces, or newest first. */
  function SortOrder(query: map<string, string>): (r: string)
    ensures !Truthy(Param(query, "sort")) ==> r == DefaultSort
    ensures Truthy(Param(query, "sort")) ==> r == Text.ReplaceChar(query["sort"], ',', ' ')
  {
    var sort := Param(query, "sort");
    if Truthy(sort) then Text.CommasToSpaces(sort.value) else DefaultSort
  }

  /** `parseInt(raw, 10) || default`: NaN and zero are falsy and give the default. */
  function IntOr(raw: Option<string>, default: int): (r: int)
    ensures default != 0 ==> r != 0
    ensures raw.None? ==> r == default
    ensures raw.Some? && JsParseInt.ParseInt(raw.value) in {None, Some(0)} ==> r == default
    ensures raw.Some? && JsParseInt.ParseInt(raw.value).Some? && JsParseInt.ParseInt(raw.value).value != 0 ==>
              r == JsParseInt.ParseInt(raw.value).value
  {
    var parsed := if raw.Some? then JsParseInt.ParseInt(raw.value) else None;
    if parsed.None? || parsed.value == 0 then default else parsed.value
  }

  /** The page requested, 1 by default; never zero. */
  function PageNumber(query: map<string, string>): (r: int)
    ensures r != 0
    ensures "page" !in query ==> r == DefaultPage
    ensures "page" in query && JsParseInt.ParseInt(query["page"]) in {None, Some(0)} ==> r == DefaultPage
    ensures "page" in query && JsParseInt.ParseInt(query["page"]).Some? && JsParseInt.ParseInt(query["page"]).value != 0 ==>
              r == JsParseInt.ParseInt(query["page"]).value
  {
    IntOr(Param(query, "page"), DefaultPage)
  }

  /** The page size requested, 25 by default; never zero. */
  function PageSize(query: map<string, string>): (r: int)
    ensures r != 0
    ensures "limit" !in query ==> r == DefaultLimit
    ensures "limit" in query && JsParseInt.ParseInt(query["limit"]) in {None, Some(0)} ==> r == DefaultLimit
    ensures "limit" in query && JsParseInt.ParseInt(query["limit"]).Some? && JsParseInt.ParseInt(query["limit"]).value != 0 ==>
              r == JsParseInt.ParseInt(query["limit"]).value
  {
    IntOr(Param(query, "limit"), DefaultLimit)
  }

  /** The query the middleware builds, before the store runs it. */
  function Plan(query: map<string, string>, populate: Option<string>,
                serialize: map<string, string> -> string): Query
  {
    var page, limit := PageNumber(query), PageSize(query);
    Query(FilterText(query - {"select", "sort", "page", "limit"}, serialize), Projection(query),
          SortOrder(query), (page - 1) * limit, limit, populate)
  }

  function Abs(x: int): nat {
    if x < 0 then -x else x
  }

  /** `skip(skip).limit(limit)` on the matched records. A negative limit asks the store
      for a single batch of at most `-limit` records. */
  function Window<R>(rs: seq<R>, skip: nat, limit: int): (page: seq<R>)
    ensures |page| <= Abs(limit)
    ensures skip < |rs| ==> |page| == if |rs| - skip < Abs(limit) then |rs| - skip else Abs(limit)
    ensures skip >= |rs| ==> page == []
    ensures forall i :: 0 <= i < |page| ==> page[i] == rs[skip + i]
  {
    if skip >= |rs| then []
    else if skip + Abs(limit) <= |rs| then rs[skip..skip + Abs(limit)]
    else rs[skip..]
  }

  /** The links to the neighbouring pages. */
  function Links(page: int, limit: int, total: int): Pagination {
    Pagination(if page * limit < total then Some(Link(page + 1, limit)) else None,
               if (page - 1) * limit > 0 then Some(Link(page - 1, limit)) else None)
  }

  /** The envelope for one page of the matched records, `total` being the size of the
      whole collection; the store's rejection of a negative skip is an error. */
  function Listing<R>(page: int, limit: int, total: int, matched: seq<R>): Result<Envelope<R>, StoreError> {
    var start := (page - 1) * limit;
    if start < 0 then Err(NegativeSkip(start))
    else
      var data := Window(matched, start, limit);
      Ok(Envelope(true, |data|, Links(page, limit, total), data))
  }

  /** The pagination object, filled field by field. */
  method BuildPagination(page: int, limit: int, startIndex: int, endIndex: int, total: int)
    returns (pagination: Pagination)
    requires startIndex == (page - 1) * limit && endIndex == page * limit
    ensures pagination == Links(page, limit, total)
  {
    pagination := Pagination(None, None);
    if endIndex < total {
      pagination := pagination.(next := Some(Link(page + 1, limit)));
    }
    if startIndex > 0 {
      pagination := pagination.(prev := Some(Link(page - 1, limit)));
    }
  }

  /** Build the query step by step, as the builder chain does. */
  method BuildQuery(query: map<string, string>, populate: Option<string>,
                    serialize: map<string, string> -> string)
    returns (q: Query)
    ensures q == Plan(query, populate, serialize)
  {
    var filter := RemoveReservedKeys(query);
    assert filter == query - {"select", "sort", "page", "limit"};
    var queryStr := serialize(filter);
    queryStr := OperatorRewrite.Rewrite(queryStr);
    q := Query(queryStr, None, DefaultSort, 0, 0, None);
    var select := Param(query, "select");
    if Truthy(select) {
      q := q.(projection := Some(Text.CommasToSpaces(select.value)));
    }
    var sort := Param(query, "sort");
    if Truthy(sort) {
      q := q.(sortBy := Text.CommasToSpaces(sort.value));
    } else {
      q := q.(sortBy := DefaultSort);
    }
    var page := PageNumber(query);
    var limit := PageSize(query);
    q := q.(skip := (page - 1) * limit, limit := limit);
    if populate.Some? {
      q := q.(populate := populate);
    }
  }

  /** The middleware: build the query, count the collection, take the page of the
      matched records and store the envelope on the response. When the store rejects
      the query, nothing is stored. */
  method Run<R>(query: map<string, string>, populate: Option<string>,
                serialize: map<string, string> -> string,
                collection: seq<R>, matched: seq<R>, res: Response<R>)
    returns (q: Query, outcome: Result<Envelope<R>, StoreError>)
    modifies res
    ensures q == Plan(query, populate, serialize)
    ensures outcome == Listing(PageNumber(query), PageSize(query), |collection|, matched)
    ensures res.advancedResults == if outcome.Ok? then Some(outcome.value) else old(res.advancedResults)
  {
    q := BuildQuery(query, populate, serialize);
    var page, limit := PageNumber(query), PageSize(query);
    var startIndex, endIndex := (page - 1) * limit, page * limit;
    var total := |collection|;
    if startIndex < 0 {
      outcome := Err(NegativeSkip(startIndex));
      return;
    }
    var results := Window(matched, startIndex, limit);
    var pagination := BuildPagination(page, limit, startIndex, endIndex, total);
    var envelope := Envelope(true, |results|, pagination, results);
    res.advancedResults := Some(envelope);
    outcome := Ok(envelope);
  }

  // ---------------------------------------------------------------------------
  // Properties of the page and limit parameters.

  /** `page` and `limit` fall back to 1 and 25 when absent, not a number, or zero, and
      are the parsed integer otherwise; either way they are never zero. */
  lemma PageAndSizeDefaults(query: map<string, string>)
    ensures PageNumber(query) != 0 && PageSize(query) != 0
    ensures "page" !in query ==> PageNumber(query) == DefaultPage
    ensures "limit" !in query ==> PageSize(query) == DefaultLimit
    ensures "page" in query && JsParseInt.ParseInt(query["page"]) in {None, Some(0)} ==> PageNumber(query) == DefaultPage
    ensures "limit" in query && JsParseInt.ParseInt(query["limit"]) in {None, Some(0)} ==> PageSize(query) == DefaultLimit
    ensures "page" in query && JsParseInt.ParseInt(query["page"]).Some? && JsParseInt.ParseInt(query["page"]).value != 0 ==>
              PageNumber(query) == JsParseInt.ParseInt(query["page"]).value
    ensures "limit" in query && JsParseInt.ParseInt(query["limit"]).Some? && JsParseInt.ParseInt(query["limit"]).value != 0 ==>
              PageSize(query) == JsParseInt.ParseInt(query["limit"]).value
  {
  }

  /** A non-numeric page such as `page=abc` falls back to the first page. */
  lemma NonNumericPage()
    ensures PageNumber(map["page" := "abc"]) == 1
  {
    JsParseInt.ParseIntNaN();
  }

  // ---------------------------------------------------------------------------
  // Properties of the envelope.

  /** The envelope of any page: the store accepts the query exactly when the skip is not
      negative; `count` is the number of records returned, at most the limit; the data
      are the matched records from `startIndex` on; `next` is there exactly when
      `endIndex < total` and `prev` exactly when `startIndex > 0`, each with the same
      limit; and `endIndex - startIndex == limit`. */
  lemma ListingShape<R>(page: int, limit: int, total: int, matched: seq<R>)
    ensures page * limit - (page - 1) * limit == limit
    ensures Listing(page, limit, total, matched).Ok? <==> (page - 1) * limit >= 0
    ensures Listing(page, limit, total, matched).Ok? ==>
      var e := Listing(page, limit, total, matched).value;
      && e.success
      && e.count == |e.data| <= Abs(limit)
      && |e.data| == (var start := (page - 1) * limit;
                      if start >= |matched| then 0
                      else if |matched| - start < Abs(limit) then |matched| - start
                      else Abs(limit))
      && (forall i :: 0 <= i < |e.data| ==> e.data[i] == matched[(page - 1) * limit + i])
      && (e.pagination.next.Some? <==> page * limit < total)
      && (e.pagination.next.Some? ==> e.pagination.next.value == Link(page + 1, limit))
      && (e.pagination.prev.Some? <==> (page - 1) * limit > 0)
      && (e.pagination.prev.Some? ==> e.pagination.prev.value == Link(page - 1, limit))
  {
  }

  /** For `page >= 1` and `limit >= 1`, `startIndex` is never negative, it is positive
      exactly from the second page on, and `endIndex` is one limit further. */
  lemma StartIndexSign(page: int, limit: int)
    requires page >= 1 && limit >= 1
    ensures (page - 1) * limit >= 0
    ensures (page - 1) * limit > 0 <==> page > 1
    ensures page * limit == (page - 1) * limit + limit
  {
    if page > 1 {
      assert (page - 1) * limit >= limit;
    }
  }

  /** For the usual `page >= 1` and `limit >= 1`: the store never rejects the query,
      `prev` is there exactly when `page > 1`, and the data are the matched records
      from `(page-1)*limit` up to `page*limit`, cut at the end of the matches. */
  lemma {:induction false} PositivePaging<R>(page: int, limit: int, total: int, matched: seq<R>)
    requires page >= 1 && limit >= 1
    ensures Listing(page, limit, total, matched).Ok?
    ensures var e := Listing(page, limit, total, matched).value;
      && (e.pagination.prev.Some? <==> page > 1)
      && |e.data| <= limit
      && ((page - 1) * limit <= |matched| ==>
            e.data == matched[(page - 1) * limit .. if page * limit < |matched| then page * limit else |matched|])
  {
    var start := (page - 1) * limit;
    StartIndexSign(page, limit);
    var e := Listing(page, limit, total, matched).value;
    if start <= |matched| {
      var hi := if page * limit < |matched| then page * limit else |matched|;
      assert |e.data| == hi - start;
      assert forall i :: 0 <= i < |e.data| ==> e.data[i] == matched[start..hi][i];
    }
  }

  /** The second page of ten out of twenty-five records: ten records, the eleventh to the
      twentieth, with links to the first and the third page. */
  lemma SecondPageOfTwentyFive<R>(collection: seq<R>, matched: seq<R>)
    requires |collection| == 25 && |matched| == 25
    ensures var query := map["page" := "2", "limit" := "10"];
      Listing(PageNumber(query), PageSize(query), |collection|, matched) ==
        Ok(Envelope(true, 10, Pagination(Some(Link(3, 10)), Some(Link(1, 10))), matched[10..20]))
  {
    var query := map["page" := "2", "limit" := "10"];
    JsParseInt.ParseIntTwo();
    JsParseInt.ParseIntTen();
    assert PageNumber(query) == 2 && PageSize(query) == 10;
  }

  /** `total` counts the whole collection, not the records the filter matches: with 30
      records of which the filter matches 3, the first page of 25 still links to a second
      page, and that page is empty. */
  lemma NextLinkBeyondMatches<R>(collection: seq<R>, matched: seq<R>)
    requires |collection| == 30 && |matched| == 3
    ensures Listing(1, 25, |collection|, matched).Ok?
    ensures Listing(1, 25, |collection|, matched).value.pagination.next == Some(Link(2, 25))
    ensures Listing(1, 25, |collection|, matched).value.data == matched
    ensures Listing(2, 25, |collection|, matched).value.data == []
  {
  }
}
