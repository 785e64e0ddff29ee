/** The members routes of the API: the list of attribute columns, the filter
    validation against the cache of allowed values, the unique-value and
    count queries, and the two filtered queries. Each route is modelled up to
    the BigQuery job it submits (SQL text and parameters) or the HTTP error it
    raises first; running the job is not modelled. */
module ChinguMembers {
  import opened Common
  import opened Text
  import opened Models

  /** Where the members table lives. */
  datatype Settings = Settings(project: string, dataset: string, table: string)

  function TablePath(s: Settings): string {
    s.project + "." + s.dataset + "." + s.table
  }

  /** An error raised as an HTTP response, and why. */
  datatype ErrorKind =
    | CacheUnavailable
    | InvalidInclude(attribute: Attribute, invalid: set<FilterValue>)
    | InvalidExclude(attribute: Attribute, invalid: set<FilterValue>)
    | Overlap(attributes: set<Attribute>)
    | EndBeforeStart
    | DatesNotPaired

  datatype HttpError = HttpError(status: int, kind: ErrorKind)

  /** A named parameter of a BigQuery job. Dates are day numbers. */
  datatype QueryParam =
    | ArrayParam(name: string, bqType: string, values: seq<FilterValue>)
    | ScalarParam(name: string, bqType: string, value: int)

  /** The SQL text of a job and its parameters. */
  datatype QueryJob = QueryJob(sql: string, params: seq<QueryParam>)

  // ---------------------------------------------------------------------------
  // Attribute columns

  /** `get_categorical_columns`: the column name of every member of
      `Attribute`, in the enumeration's order. */
  function CategoricalColumns(): (r: seq<string>)
    ensures |r| == |Attributes()|
    ensures forall i :: 0 <= i < |r| ==> r[i] == Attributes()[i].Value()
  {
    MapSeq(Attributes(), (a: Attribute) => a.Value())
  }

  /** The columns are the values of `make_attribute_enum`, in its order. */
  lemma CategoricalColumnsOfEnum()
    ensures |CategoricalColumns()| == |MakeAttributeEnum()| == 11
    ensures forall i :: 0 <= i < 11 ==> CategoricalColumns()[i] == MakeAttributeEnum()[i].1
  {
    MakeAttributeEnumMembers();
  }

  /** Every attribute's column is listed, and no column twice. */
  lemma CategoricalColumnsDistinct()
    ensures forall a: Attribute :: a.Value() in CategoricalColumns()
    ensures forall i, j :: 0 <= i < j < |CategoricalColumns()| ==> CategoricalColumns()[i] != CategoricalColumns()[j]
  {
    AttributesDistinct();
    var r := CategoricalColumns();
    var attrs := Attributes();
    forall a: Attribute
      ensures a.Value() in r
    {
      assert a in attrs;
      var i :| 0 <= i < |attrs| && attrs[i] == a;
      assert r[i] == a.Value();
    }
    forall i, j | 0 <= i < j < |r|
      ensures r[i] != r[j]
    {
      AttributeValuesDistinct(attrs[i], attrs[j]);
    }
  }

  // ---------------------------------------------------------------------------
  // The cache of allowed values and the validation of a filter body

  /** Column name to the set of values the table holds in it. */
  type Cache = map<string, set<FilterValue>>

  /** `prefill_filter_cache`: the distinct values of every column of
      `Attribute`, or the empty cache when BigQuery could not be reached. */
  function PrefillCache(results: Option<seq<seq<FilterValue>>>): (cache: Cache)
    requires results.Some? ==> |results.value| == |Attributes()|
    ensures results.None? ==> cache == map[]
    ensures results.Some? ==>
              forall i :: 0 <= i < |Attributes()| ==>
                Attributes()[i].Value() in cache
                && cache[Attributes()[i].Value()] == set v | v in results.value[i]
  {
    match results
    case None => map[]
    case Some(rows) =>
      var entries := seq(|rows|, i requires 0 <= i < |rows| => (Attributes()[i].Value(), set v | v in rows[i]));
      AttributesDistinct();
      var cache := FromEntries(entries);
      assert forall i :: 0 <= i < |Attributes()| ==>
               Attributes()[i].Value() in cache && cache[Attributes()[i].Value()] == set v | v in rows[i] by {
        forall i | 0 <= i < |Attributes()|
          ensures Attributes()[i].Value() in cache && cache[Attributes()[i].Value()] == set v | v in rows[i]
        {
          forall j, k | 0 <= j < k < |entries|
            ensures entries[j].0 != entries[k].0
          {
            AttributeValuesDistinct(Attributes()[j], Attributes()[k]);
          }
          FromEntriesDistinct(entries, i);
        }
      }
      cache
  }

  /** The values the cache allows for an attribute; a column missing from the
      cache allows none. */
  function Allowed(cache: Cache, a: Attribute): set<FilterValue> {
    if a.Value() in cache then cache[a.Value()] else {}
  }

  /** `set(attributes) - allowed`. */
  function InvalidValues(values: seq<FilterValue>, allowed: set<FilterValue>): (r: set<FilterValue>)
    ensures forall v :: v in r <==> v in values && v !in allowed
  {
    (set v | v in values) - allowed
  }

  predicate ValidEntry(entry: (Attribute, seq<FilterValue>), cache: Cache) {
    InvalidValues(entry.1, Allowed(cache, entry.0)) == {}
  }

  /** The position of the first entry holding a value the cache does not allow. */
  function FirstInvalid(e: Entries, cache: Cache): (r: Option<nat>)
    ensures r.Some? ==> r.value < |e| && !ValidEntry(e[r.value], cache)
    ensures r.Some? ==> forall j :: 0 <= j < r.value ==> ValidEntry(e[j], cache)
    ensures r.None? ==> forall j :: 0 <= j < |e| ==> ValidEntry(e[j], cache)
  {
    if e == [] then None
    else if !ValidEntry(e[0], cache) then Some(0)
    else
      match FirstInvalid(e[1..], cache)
      case None => None
      case Some(i) => Some(i + 1)
  }

  /** The error `validate_FilterBody` raises, if any: 502 when the cache is
      empty, else 400 for the first include entry, then the first exclude
      entry, that holds a value outside the cache. */
  function ValidationError(f: FilterBody, cache: Cache): Option<HttpError> {
    if cache == map[] then Some(HttpError(502, CacheUnavailable))
    else
      match FirstInvalid(f.included, cache)
      case Some(i) =>
        var (a, values) := f.included[i];
        Some(HttpError(400, InvalidInclude(a, InvalidValues(values, Allowed(cache, a)))))
      case None =>
        match FirstInvalid(f.excluded, cache)
        case Some(i) =>
          var (a, values) := f.excluded[i];
          Some(HttpError(400, InvalidExclude(a, InvalidValues(values, Allowed(cache, a)))))
        case None => None
  }

  /** `validate_FilterBody`. */
  method ValidateFilterBody(f: FilterBody, cache: Cache) returns (err: Option<HttpError>)
    ensures err == ValidationError(f, cache)
  {
    if cache == map[] {
      return Some(HttpError(502, CacheUnavailable));
    }
    for i := 0 to |f.included|
      invariant forall j :: 0 <= j < i ==> ValidEntry(f.included[j], cache)
    {
      var (a, values) := f.included[i];
      var invalid := (set v | v in values) - Allowed(cache, a);
      if invalid != {} {
        FirstInvalidAt(f.included, cache, i);
        return Some(HttpError(400, InvalidInclude(a, invalid)));
      }
    }
    assert FirstInvalid(f.included, cache).None?;
    for i := 0 to |f.excluded|
      invariant forall j :: 0 <= j < i ==> ValidEntry(f.excluded[j], cache)
    {
      var (a, values) := f.excluded[i];
      var invalid := (set v | v in values) - Allowed(cache, a);
      if invalid != {} {
        assert FirstInvalid(f.included, cache).None?;
        FirstInvalidAt(f.excluded, cache, i);
        return Some(HttpError(400, InvalidExclude(a, invalid)));
      }
    }
    assert FirstInvalid(f.excluded, cache).None?;
    return None;
  }

  /** The first entry that is not valid is the one `FirstInvalid` finds. */
  lemma FirstInvalidAt(e: Entries, cache: Cache, i: nat)
    requires i < |e| && !ValidEntry(e[i], cache)
    requires forall j :: 0 <= j < i ==> ValidEntry(e[j], cache)
    ensures FirstInvalid(e, cache) == Some(i)
  {
    var r := FirstInvalid(e, cache);
    assert r.Some?;
    assert !(r.value < i) && !(i < r.value);
  }

  /** Every value of every entry is one the cache holds for its column. */
  predicate AllAllowed(e: Entries, cache: Cache) {
    forall i, k :: 0 <= i < |e| && 0 <= k < |e[i].1| ==> e[i].1[k] in Allowed(cache, e[i].0)
  }

  lemma ValidEntriesAllowed(e: Entries, cache: Cache)
    ensures (forall j :: 0 <= j < |e| ==> ValidEntry(e[j], cache)) <==> AllAllowed(e, cache)
  {
    if !AllAllowed(e, cache) {
      var i, k :| 0 <= i < |e| && 0 <= k < |e[i].1| && e[i].1[k] !in Allowed(cache, e[i].0);
      assert e[i].1[k] in InvalidValues(e[i].1, Allowed(cache, e[i].0));
    }
  }

  /** A body passes validation exactly when the cache is warm and every
      included and excluded value is one the table holds. */
  lemma ValidationPasses(f: FilterBody, cache: Cache)
    ensures ValidationError(f, cache).None? <==>
              cache != map[] && AllAllowed(f.included, cache) && AllAllowed(f.excluded, cache)
  {
    ValidEntriesAllowed(f.included, cache);
    ValidEntriesAllowed(f.excluded, cache);
  }

  /** A cold cache fails every body with 502; otherwise a failure is a 400
      naming an attribute of the body and a non-empty set of its values that
      the cache does not allow, include entries first. */
  lemma ValidationErrorShape(f: FilterBody, cache: Cache)
    ensures cache == map[] ==> ValidationError(f, cache) == Some(HttpError(502, CacheUnavailable))
    ensures cache != map[] && ValidationError(f, cache).Some? ==>
              var e := ValidationError(f, cache).value;
              e.status == 400
              && (e.kind.InvalidInclude? ==> e.kind.attribute in Keys(f.included))
              && (e.kind.InvalidExclude? ==> e.kind.attribute in Keys(f.excluded) && AllAllowed(f.included, cache))
              && (e.kind.InvalidInclude? || e.kind.InvalidExclude?)
              && e.kind.invalid != {}
              && forall v :: v in e.kind.invalid ==> v !in Allowed(cache, e.kind.attribute)
  {
    ValidEntriesAllowed(f.included, cache);
  }

  /** After a failed warm-up every filter body is refused, even the empty one. */
  lemma ColdCacheRefusesAll(f: FilterBody)
    ensures ValidationError(f, PrefillCache(None)) == Some(HttpError(502, CacheUnavailable))
  {
  }

  // ---------------------------------------------------------------------------
  // Unique values and counts

  /** `get_unique_values`: the query of the distinct values of a column; a
      list column is unnested first. */
  function UniqueValuesQuery(a: Attribute, s: Settings): (sql: string)
    ensures a.Listed? ==> Contains(sql, "UNNEST(`" + a.Value() + "`) AS v")
    ensures a.Categorical? ==> Contains(sql, "SELECT DISTINCT `" + a.Value() + "` AS value")
  {
    if a.Listed? then
      var sql := "\n                SELECT DISTINCT v AS value\n                FROM `" + TablePath(s) + "`,\n                "
        + ("UNNEST(`" + a.Value() + "`) AS v") + "\n            ";
      ContainsMiddle("\n                SELECT DISTINCT v AS value\n                FROM `" + TablePath(s) + "`,\n                ",
        "UNNEST(`" + a.Value() + "`) AS v", "\n            ");
      sql
    else
      var from := "\n                FROM `" + TablePath(s) + "`\n            ";
      var sql := "\n                " + ("SELECT DISTINCT `" + a.Value() + "` AS value") + from;
      ContainsMiddle("\n                ", "SELECT DISTINCT `" + a.Value() + "` AS value", from);
      sql
  }

  /** The job of `get_unique_count`, or the error it raises: a date range needs
      both ends, in order. Dates are day numbers. */
  function UniqueCountJob(a: CategoricalAttribute, start: Option<int>, end: Option<int>, s: Settings)
    : Result<QueryJob, HttpError>
  {
    var head := "SELECT `" + a.Value() + "`,\n        Count(*) as count\n        FROM `" + TablePath(s) + "`\n    ";
    var group := " GROUP BY `" + a.Value() + "`;";
    if start.Some? && end.Some? then
      if end.value < start.value then Err(HttpError(400, EndBeforeStart))
      else
        Ok(QueryJob(head + " WHERE DATE(Timestamp) BETWEEN @start_date AND @end_date" + group,
          [ScalarParam("start_date", "DATE", start.value), ScalarParam("end_date", "DATE", end.value)]))
    else if start.Some? || end.Some? then Err(HttpError(400, DatesNotPaired))
    else Ok(QueryJob(head + group, []))
  }

  /** The response of `get_unique_count` for the rows BigQuery returned. */
  function UniqueCountResponse<Row>(rows: seq<Row>, schema: seq<string>, start: Option<int>, end: Option<int>)
    : (r: CountResponse<Row>)
    ensures r.rowCount == |rows| && r.response == rows && r.responseSchema == schema
    ensures r.dayCount.Some? <==> start.Some? && end.Some?
  {
    var dayCount := if start.Some? && end.Some? then Some(end.value - start.value + 1) else None;
    CountResponse(|rows|, schema, dayCount, rows)
  }

  /** A count request succeeds exactly when it gives both dates in order or
      neither; with a range, the job binds both dates and the response counts
      the days of the range, both ends included, at least one. */
  lemma UniqueCountDates<Row>(a: CategoricalAttribute, start: Option<int>, end: Option<int>, s: Settings,
                              rows: seq<Row>, schema: seq<string>)
    ensures UniqueCountJob(a, start, end, s).Ok? <==>
              (start.None? && end.None?) || (start.Some? && end.Some? && start.value <= end.value)
    ensures UniqueCountJob(a, start, end, s).Ok? && start.Some? ==>
              UniqueCountJob(a, start, end, s).value.params
                == [ScalarParam("start_date", "DATE", start.value), ScalarParam("end_date", "DATE", end.value)]
              && UniqueCountResponse(rows, schema, start, end).dayCount == Some(end.value - start.value + 1)
              && end.value - start.value + 1 >= 1
    ensures UniqueCountJob(a, start, end, s).Ok? && start.None? ==>
              UniqueCountJob(a, start, end, s).value.params == []
              && UniqueCountResponse(rows, schema, start, end).dayCount == None
  {
  }

  // ---------------------------------------------------------------------------
  // Filter clauses

  /** The columns bound as INT64 parameters; every other column is STRING. */
  const IntAttributes: set<string> := {"Solo_Project_Tier", "GMT_Offset", "Voyage_Signup_ids"}

  function ParamName(a: Attribute): string {
    a.Value() + "_filter"
  }

  function BqType(a: Attribute): string {
    if a.Value() in IntAttributes then "INT64" else "STRING"
  }

  function Maybe(excluded: bool): string {
    if excluded then "NOT" else ""
  }

  /** The WHERE clause of a categorical column: the column's value is in the
      array bound to `param`, or with `maybe` = `NOT` is not. */
  function CategoricalClause(column: string, maybe: string, param: string): string {
    " AND `" + column + "` " + maybe + " IN UNNEST(" + param + ")"
  }

  /** The WHERE clause of a list column: some element of the column is in the
      array bound to `param`, or with `maybe` = `NOT` none is. */
  function ListClause(column: string, maybe: string, param: string): string {
    " AND " + maybe + ExistsTest(column, param)
  }

  function ExistsTest(column: string, param: string): string {
    " " + ExistsBody(column, param)
  }

  /** Some element of the list column is in the array bound to `param`. */
  function ExistsBody(column: string, param: string): string {
    "EXISTS (SELECT 1 FROM UNNEST(`" + column + "`) v WHERE v IN UNNEST(" + param + "))"
  }

  /** The WHERE clause of one filter entry. */
  function FilterClause(a: Attribute, excluded: bool): string {
    match a
    case Categorical(c) => CategoricalClause(c.Value(), Maybe(excluded), "@" + ParamName(a))
    case Listed(l) => ListClause(l.Value(), Maybe(excluded), "@" + ParamName(a))
  }

  /** The clauses of a filter dictionary, in its order. */
  function ClausesOf(e: Entries, excluded: bool): string {
    if e == [] then "" else ClausesOf(e[..|e| - 1], excluded) + FilterClause(e[|e| - 1].0, excluded)
  }

  function ParamOf(entry: (Attribute, seq<FilterValue>)): QueryParam {
    ArrayParam(ParamName(entry.0), BqType(entry.0), entry.1)
  }

  function ParamsOf(e: Entries): (r: seq<QueryParam>)
    ensures |r| == |e| && forall i :: 0 <= i < |e| ==> r[i] == ParamOf(e[i])
  {
    MapSeq(e, ParamOf)
  }

  lemma ClausesOfSnoc(e: Entries, i: nat, excluded: bool)
    requires i < |e|
    ensures ClausesOf(e[..i + 1], excluded) == ClausesOf(e[..i], excluded) + FilterClause(e[i].0, excluded)
  {
    assert e[..i + 1][..i] == e[..i];
  }

  /** All clauses: the include entries, then the negated exclude entries. */
  function FilterSql(f: FilterBody): string {
    ClausesOf(f.included, false) + ClausesOf(f.excluded, true)
  }

  function FilterParams(f: FilterBody): seq<QueryParam> {
    ParamsOf(f.included) + ParamsOf(f.excluded)
  }

  /** The inner loop of both filtered routes: one clause and one array
      parameter per entry of a filter dictionary, appended in its order. */
  method AppendEntries(e: Entries, excluded: bool, sql0: string, params0: seq<QueryParam>)
    returns (sql: string, params: seq<QueryParam>)
    ensures sql == sql0 + ClausesOf(e, excluded)
    ensures params == params0 + ParamsOf(e)
  {
    sql, params := sql0, params0;
    for i := 0 to |e|
      invariant sql == sql0 + ClausesOf(e[..i], excluded)
      invariant params == params0 + ParamsOf(e[..i])
    {
      var (a, values) := e[i];
      var bqType := if a.Value() in IntAttributes then "INT64" else "STRING";
      var param := ArrayParam(a.Value() + "_filter", bqType, values);
      var clause := FilterClause(a, excluded);
      AppendClauseStep(e, i, excluded, sql0, sql);
      AppendParamStep(e, i, params0, params);
      sql := sql + clause;
      params := params + [param];
    }
    assert e[..|e|] == e;
  }

  /** One round of `AppendEntries` extends the clauses by the entry's clause. */
  lemma AppendClauseStep(e: Entries, i: nat, excluded: bool, sql0: string, sql: string)
    requires i < |e|
    requires sql == sql0 + ClausesOf(e[..i], excluded)
    ensures sql + FilterClause(e[i].0, excluded) == sql0 + ClausesOf(e[..i + 1], excluded)
  {
    ClausesOfSnoc(e, i, excluded);
    ConcatAssoc(sql0, ClausesOf(e[..i], excluded), FilterClause(e[i].0, excluded));
  }

  /** One round of `AppendEntries` extends the parameters by the entry's parameter. */
  lemma AppendParamStep(e: Entries, i: nat, params0: seq<QueryParam>, params: seq<QueryParam>)
    requires i < |e|
    requires params == params0 + ParamsOf(e[..i])
    ensures params + [ParamOf(e[i])] == params0 + ParamsOf(e[..i + 1])
  {
    assert ParamsOf(e[..i + 1]) == ParamsOf(e[..i]) + [ParamOf(e[i])];
  }

  /** The clauses and parameters after the first `rounds` of `[include, exclude]`. */
  function RoundsSql(f: FilterBody, rounds: nat): string
    requires rounds <= 2
  {
    if rounds == 0 then "" else if rounds == 1 then ClausesOf(f.included, false) else FilterSql(f)
  }

  function RoundsParams(f: FilterBody, rounds: nat): seq<QueryParam>
    requires rounds <= 2
  {
    if rounds == 0 then [] else if rounds == 1 then ParamsOf(f.included) else FilterParams(f)
  }

  lemma RoundStep(f: FilterBody, k: nat, sql0: string, sql: string, params: seq<QueryParam>)
    requires k < 2
    requires sql == sql0 + RoundsSql(f, k) && params == RoundsParams(f, k)
    ensures var e := if k == 0 then f.included else f.excluded;
            sql + ClausesOf(e, k == 1) == sql0 + RoundsSql(f, k + 1)
            && params + ParamsOf(e) == RoundsParams(f, k + 1)
  {
    if k == 1 {
      ConcatAssoc(sql0, ClausesOf(f.included, false), ClausesOf(f.excluded, true));
    } else {
      assert sql == sql0;
      assert params == [];
    }
  }

  /** The loop both filtered routes run over `[include, exclude]`, the second
      round negating its clauses. */
  method AppendFilters(f: FilterBody, sql0: string) returns (sql: string, params: seq<QueryParam>)
    ensures sql == sql0 + FilterSql(f)
    ensures params == FilterParams(f)
  {
    sql, params := sql0, [];
    var maps := [f.included, f.excluded];
    for excludesAtOne := 0 to 2
      invariant sql == sql0 + RoundsSql(f, excludesAtOne)
      invariant params == RoundsParams(f, excludesAtOne)
    {
      assert maps[excludesAtOne] == if excludesAtOne == 0 then f.included else f.excluded;
      RoundStep(f, excludesAtOne, sql0, sql, params);
      sql, params := AppendEntries(maps[excludesAtOne], excludesAtOne == 1, sql, params);
    }
  }

  /** The attributes both included and excluded. */
  function OverlapOf(f: FilterBody): set<Attribute> {
    Keys(f.excluded) * Keys(f.included)
  }

  // ---------------------------------------------------------------------------
  // The filtered table

  /** The `limit` the route uses when the request gives none. */
  const DefaultLimit: nat := 200

  function FilteredTableHead(s: Settings): string {
    "SELECT *\n        FROM `" + TablePath(s) + "`\n        WHERE 1=1\n    "
  }

  /** The names of the window parameters. */
  function LimitName(): string { "window_limit" }
  function OffsetName(): string { "window_offset" }

  /** The window of the filtered table: `LIMIT`, then `OFFSET` when given. */
  function WindowSql(offset: Option<nat>): string {
    " ORDER BY `id`" + " LIMIT " + ("@" + LimitName())
      + (if offset.Some? then " OFFSET " + ("@" + OffsetName()) else "")
  }

  function WindowParams(offset: Option<nat>, limit: nat): seq<QueryParam> {
    [ScalarParam(LimitName(), "INT64", limit)]
      + (if offset.Some? then [ScalarParam(OffsetName(), "INT64", offset.value)] else [])
  }

  /** The ordering and pagination window `query_filtered_table` appends after
      the filters. */
  method AppendWindow(sql0: string, params0: seq<QueryParam>, offset: Option<nat>, limit: nat)
    returns (sql: string, params: seq<QueryParam>)
    ensures sql == sql0 + WindowSql(offset)
    ensures params == params0 + WindowParams(offset, limit)
  {
    sql := sql0 + " ORDER BY `id`";
    sql := sql + " LIMIT " + ("@" + LimitName());
    params := params0 + [ScalarParam(LimitName(), "INT64", limit)];
    if offset.Some? {
      sql := sql + " OFFSET " + ("@" + OffsetName());
      params := params + [ScalarParam(OffsetName(), "INT64", offset.value)];
    }
  }

  /** What `query_filtered_table` does with a body, an offset and a limit:
      the validation error, the overlap error, or the job it submits. */
  function FilteredTableJob(f: FilterBody, offset: Option<nat>, limit: nat, cache: Cache, s: Settings)
    : Result<QueryJob, HttpError>
  {
    match ValidationError(f, cache)
    case Some(e) => Err(e)
    case None =>
      if OverlapOf(f) != {} then Err(HttpError(400, Overlap(OverlapOf(f))))
      else
        Ok(QueryJob(FilteredTableHead(s) + FilterSql(f) + WindowSql(offset) + ";",
          FilterParams(f) + WindowParams(offset, limit)))
  }

  /** `query_filtered_table`, up to the job it submits. */
  method QueryFilteredTable(f: FilterBody, offset: Option<nat>, limit: nat, cache: Cache, s: Settings)
    returns (r: Result<QueryJob, HttpError>)
    ensures r == FilteredTableJob(f, offset, limit, cache, s)
  {
    var err := ValidateFilterBody(f, cache);
    if err.Some? {
      return Err(err.value);
    }
    var sql := FilteredTableHead(s);
    var overlapping := Keys(f.excluded) * Keys(f.included);
    if overlapping != {} {
      return Err(HttpError(400, Overlap(overlapping)));
    }
    var params;
    sql, params := AppendFilters(f, sql);
    sql, params := AppendWindow(sql, params, offset, limit);
    sql := sql + ";";
    return Ok(QueryJob(sql, params));
  }

  // ---------------------------------------------------------------------------
  // The country-code count

  function CountryCountHead(s: Settings): string {
    "SELECT `" + CountryCode.Value() + "`,\n        COUNT(*) as count FROM `" + TablePath(s) + "`\n        WHERE 1=1\n    "
  }

  function GroupByCountry(): string {
    " GROUP BY `" + CountryCode.Value() + "`"
  }

  function CountryCountTail(): string {
    GroupByCountry() + ";"
  }

  /** What `filter_country_code_count` does with a body. */
  function CountryCountJob(f: FilterBody, cache: Cache, s: Settings): Result<QueryJob, HttpError> {
    match ValidationError(f, cache)
    case Some(e) => Err(e)
    case None =>
      if OverlapOf(f) != {} then Err(HttpError(400, Overlap(OverlapOf(f))))
      else Ok(QueryJob(CountryCountHead(s) + FilterSql(f) + CountryCountTail(), FilterParams(f)))
  }

  /** `filter_country_code_count`, up to the job it submits. */
  method FilterCountryCodeCount(f: FilterBody, cache: Cache, s: Settings) returns (r: Result<QueryJob, HttpError>)
    ensures r == CountryCountJob(f, cache, s)
  {
    var err := ValidateFilterBody(f, cache);
    if err.Some? {
      return Err(err.value);
    }
    var sql := CountryCountHead(s);
    var overlapping := Keys(f.excluded) * Keys(f.included);
    if overlapping != {} {
      return Err(HttpError(400, Overlap(overlapping)));
    }
    var params;
    sql, params := AppendFilters(f, sql);
    ghost var filtered := sql;
    sql := sql + GroupByCountry();
    sql := sql + ";";
    assert sql == filtered + CountryCountTail();
    return Ok(QueryJob(sql, params));
  }

  // ---------------------------------------------------------------------------
  // What the filtered routes promise

  /** A filtered-table request yields a job exactly when the cache is warm,
      every included and excluded value is one the table holds, and no
      attribute is both included and excluded; a validation error takes
      precedence over the overlap error, which names the shared attributes. */
  lemma FilteredTableOutcome(f: FilterBody, offset: Option<nat>, limit: nat, cache: Cache, s: Settings)
    ensures FilteredTableJob(f, offset, limit, cache, s).Ok? <==>
              cache != map[] && AllAllowed(f.included, cache) && AllAllowed(f.excluded, cache)
              && Keys(f.excluded) * Keys(f.included) == {}
    ensures ValidationError(f, cache).Some? ==>
              FilteredTableJob(f, offset, limit, cache, s) == Err(ValidationError(f, cache).value)
    ensures ValidationError(f, cache).None? && Keys(f.excluded) * Keys(f.included) != {} ==>
              FilteredTableJob(f, offset, limit, cache, s)
                == Err(HttpError(400, Overlap(Keys(f.excluded) * Keys(f.included))))
  {
    ValidationPasses(f, cache);
  }

  /** The country-code count fails exactly when the filtered table fails, with
      the same error; when both succeed they bind the same filter parameters,
      the table adding only its window parameters after them. */
  lemma FilteredRoutesAgree(f: FilterBody, offset: Option<nat>, limit: nat, cache: Cache, s: Settings)
    ensures CountryCountJob(f, cache, s).Err? <==> FilteredTableJob(f, offset, limit, cache, s).Err?
    ensures CountryCountJob(f, cache, s).Err? ==>
              CountryCountJob(f, cache, s).error == FilteredTableJob(f, offset, limit, cache, s).error
    ensures CountryCountJob(f, cache, s).Ok? ==>
              CountryCountJob(f, cache, s).value.params + WindowParams(offset, limit)
                == FilteredTableJob(f, offset, limit, cache, s).value.params
  {
  }

  /** A parameter is bound as INT64 exactly for the solo-project tier, the GMT
      offset and the voyage signup ids. */
  lemma BqTypeInt(a: Attribute)
    ensures BqType(a) == "INT64" <==>
              a == Categorical(SoloProjectTier) || a == Categorical(GmtOffset) || a == Listed(VoyageSignupIds)
    ensures BqType(a) != "INT64" ==> BqType(a) == "STRING"
  {
  }

  /** The parameters of a filtered-table job: one array parameter per include
      entry, in order, then one per exclude entry, each carrying the entry's
      own values under `<column>_filter`, then the limit, then the offset when
      one is given. */
  lemma FilteredTableParams(f: FilterBody, offset: Option<nat>, limit: nat, cache: Cache, s: Settings)
    requires FilteredTableJob(f, offset, limit, cache, s).Ok?
    ensures var p := FilteredTableJob(f, offset, limit, cache, s).value.params;
            var n := |f.included| + |f.excluded|;
            |p| == n + (if offset.Some? then 2 else 1)
            && (forall i :: 0 <= i < n ==>
                  var entry := if i < |f.included| then f.included[i] else f.excluded[i - |f.included|];
                  p[i] == ArrayParam(entry.0.Value() + "_filter", BqType(entry.0), entry.1))
            && p[n] == ScalarParam("window_limit", "INT64", limit)
            && (offset.Some? ==> p[n + 1] == ScalarParam("window_offset", "INT64", offset.value))
  {
    FilteredTableJobOk(f, offset, limit, cache, s);
    var fp := FilterParams(f);
    var n := |f.included| + |f.excluded|;
    assert |fp| == n;
    forall i | 0 <= i < n
      ensures fp[i] == ParamOf(if i < |f.included| then f.included[i] else f.excluded[i - |f.included|])
    {
      if i >= |f.included| {
        assert fp[i] == ParamsOf(f.excluded)[i - |f.included|];
      }
    }
  }

  /** A request that leaves out `limit` asks for at most 200 rows: the
      route's default is bound as the limit parameter. */
  lemma FilteredTableDefaultLimit(f: FilterBody, offset: Option<nat>, cache: Cache, s: Settings)
    requires FilteredTableJob(f, offset, DefaultLimit, cache, s).Ok?
    ensures var p := FilteredTableJob(f, offset, DefaultLimit, cache, s).value.params;
            p[|f.included| + |f.excluded|] == ScalarParam("window_limit", "INT64", 200)
  {
    FilteredTableParams(f, offset, DefaultLimit, cache, s);
  }

  /** A filter parameter's name determines its attribute. */
  lemma ParamNameInjective(a: Attribute, b: Attribute)
    requires ParamName(a) == ParamName(b)
    ensures a == b
  {
    assert a.Value() == ParamName(a)[..|ParamName(a)| - 7];
    assert b.Value() == ParamName(b)[..|ParamName(b)| - 7];
    if a != b {
      AttributeValuesDistinct(a, b);
    }
  }

  /** Filter parameter names end in `r`, so none is a window parameter. */
  lemma ParamNameNotWindow(a: Attribute)
    ensures ParamName(a) != "window_limit" && ParamName(a) != "window_offset"
  {
    assert ParamName(a)[|ParamName(a)| - 1] == 'r';
  }

  /** The attribute of the `i`-th filter parameter: the include entries come
      first, then the exclude entries. */
  function ParamAttribute(f: FilterBody, i: nat): Attribute
    requires i < |f.included| + |f.excluded|
  {
    if i < |f.included| then f.included[i].0 else f.excluded[i - |f.included|].0
  }

  /** A successful filtered-table job is the head, the filter clauses and the
      window, with the filter parameters followed by the window parameters. */
  lemma FilteredTableJobOk(f: FilterBody, offset: Option<nat>, limit: nat, cache: Cache, s: Settings)
    requires FilteredTableJob(f, offset, limit, cache, s).Ok?
    ensures FilteredTableJob(f, offset, limit, cache, s).value
              == QueryJob(FilteredTableHead(s) + FilterSql(f) + WindowSql(offset) + ";",
                          FilterParams(f) + WindowParams(offset, limit))
  {
  }

  /** A filtered-table job succeeds only when no attribute is both included
      and excluded. */
  lemma FilteredTableOkDisjoint(f: FilterBody, offset: Option<nat>, limit: nat, cache: Cache, s: Settings)
    requires FilteredTableJob(f, offset, limit, cache, s).Ok?
    ensures Keys(f.excluded) * Keys(f.included) == {}
  {
  }

  /** The filter parameters are named after their attributes. */
  lemma FilterParamNames(f: FilterBody)
    ensures |FilterParams(f)| == |f.included| + |f.excluded|
    ensures forall i :: 0 <= i < |FilterParams(f)| ==> FilterParams(f)[i].name == ParamName(ParamAttribute(f, i))
  {
    var ni := |f.included|;
    forall i | 0 <= i < |FilterParams(f)|
      ensures FilterParams(f)[i].name == ParamName(ParamAttribute(f, i))
    {
      if i < ni {
        assert FilterParams(f)[i] == ParamsOf(f.included)[i];
      } else {
        assert FilterParams(f)[i] == ParamsOf(f.excluded)[i - ni];
      }
    }
  }

  /** No two filter parameters share a name when each dictionary holds its
      keys once and no attribute is both included and excluded. */
  lemma FilterParamNamesDistinct(f: FilterBody)
    requires DistinctKeys(f.included) && DistinctKeys(f.excluded)
    requires Keys(f.excluded) * Keys(f.included) == {}
    ensures forall i, j :: 0 <= i < j < |FilterParams(f)| ==> FilterParams(f)[i].name != FilterParams(f)[j].name
  {
    var p, ni := FilterParams(f), |f.included|;
    FilterParamNames(f);
    forall i, j | 0 <= i < j < |p|
      ensures p[i].name != p[j].name
    {
      var a, b := ParamAttribute(f, i), ParamAttribute(f, j);
      if j < ni {
        assert a == f.included[i].0 && b == f.included[j].0;
        assert a != b;
      } else if i >= ni {
        assert a == f.excluded[i - ni].0 && b == f.excluded[j - ni].0;
        assert a != b;
      } else {
        assert f.included[i].0 == a && f.excluded[j - ni].0 == b;
        assert a in Keys(f.included) && b in Keys(f.excluded);
        assert a !in Keys(f.excluded) by {
          assert a in Keys(f.excluded) ==> a in Keys(f.excluded) * Keys(f.included);
        }
        assert a != b;
      }
      if p[i].name == p[j].name {
        ParamNameInjective(a, b);
      }
    }
  }

  /** The filter parameters followed by the window parameters never repeat
      a name, under the same conditions. */
  lemma JobParamNamesDistinct(f: FilterBody, offset: Option<nat>, limit: nat)
    requires DistinctKeys(f.included) && DistinctKeys(f.excluded)
    requires Keys(f.excluded) * Keys(f.included) == {}
    ensures var p := FilterParams(f) + WindowParams(offset, limit);
            forall i, j :: 0 <= i < j < |p| ==> p[i].name != p[j].name
  {
    var fp, wp := FilterParams(f), WindowParams(offset, limit);
    var p: seq<QueryParam> := fp + wp;
    FilterParamNames(f);
    FilterParamNamesDistinct(f);
    forall i, j | 0 <= i < j < |p|
      ensures p[i].name != p[j].name
    {
      if j < |fp| {
        assert p[i] == fp[i] && p[j] == fp[j];
      } else if i < |fp| {
        ParamNameNotWindow(ParamAttribute(f, i));
        assert p[i] == fp[i] && p[j] == wp[j - |fp|];
      } else {
        assert p[i] == wp[i - |fp|] && p[j] == wp[j - |fp|];
      }
    }
  }

  /** No two parameters of a filtered-table job share a name, provided each
      filter dictionary holds its keys once, as a dictionary does. */
  lemma FilteredTableParamNamesDistinct(
    f: FilterBody, offset: Option<nat>, limit: nat, cache: Cache, s: Settings)
    requires FilteredTableJob(f, offset, limit, cache, s).Ok?
    requires DistinctKeys(f.included) && DistinctKeys(f.excluded)
    ensures var p := FilteredTableJob(f, offset, limit, cache, s).value.params;
            forall i, j :: 0 <= i < j < |p| ==> p[i].name != p[j].name
  {
    FilteredTableOkDisjoint(f, offset, limit, cache, s);
    FilteredTableJobOk(f, offset, limit, cache, s);
    JobParamNamesDistinct(f, offset, limit);
  }

  /** The parts of a categorical clause: it opens with the column, ends with
      the membership test, and refers to the parameter. */
  lemma CategoricalClauseForm(column: string, maybe: string, param: string)
    ensures var c := CategoricalClause(column, maybe, param);
            StartsWith(c, " AND `" + column + "` ") && EndsWith(c, " IN UNNEST(" + param + ")")
            && Contains(c, param)
  {
    var c := CategoricalClause(column, maybe, param);
    var pre, post := " AND `" + column + "` ", " IN UNNEST(" + param + ")";
    assert c == pre + maybe + post;
    assert c[..|pre|] == pre;
    assert c[|c| - |post|..] == post;
    ContainsMiddle(" AND `" + column + "` " + maybe + " IN UNNEST(", param, ")");
  }

  /** A list clause holds the existence test over the column's elements. */
  lemma ListClauseForm(column: string, maybe: string, param: string)
    ensures Contains(ListClause(column, maybe, param), ExistsBody(column, param))
    ensures Contains(ListClause(column, maybe, param), param)
  {
    var body := ExistsBody(column, param);
    ContainsSelf(body);
    ContainsRight(" ", body, body);
    ContainsRight(" AND " + maybe, ExistsTest(column, param), body);
    ContainsMiddle("EXISTS (SELECT 1 FROM UNNEST(`" + column + "`) v WHERE v IN UNNEST(", param, "))");
    ContainsRight(" ", body, param);
    ContainsRight(" AND " + maybe, ExistsTest(column, param), param);
  }

  /** A negated clause is the plain one with `NOT` inserted at `k`. */
  predicate NegatedAt(plain: string, negated: string, k: int) {
    0 <= k <= |plain| && negated == plain[..k] + "NOT" + plain[k..]
  }

  lemma CategoricalClauseNegates(column: string, param: string)
    ensures NegatedAt(CategoricalClause(column, "", param), CategoricalClause(column, "NOT", param),
                      |" AND `" + column + "` "|)
  {
    var pre, post := " AND `" + column + "` ", " IN UNNEST(" + param + ")";
    var plain := CategoricalClause(column, "", param);
    assert plain == pre + post;
    assert plain[..|pre|] == pre && plain[|pre|..] == post;
    assert CategoricalClause(column, "NOT", param) == pre + "NOT" + post;
  }

  lemma ListClauseNegates(column: string, param: string)
    ensures NegatedAt(ListClause(column, "", param), ListClause(column, "NOT", param), 5)
  {
    var pre, post := " AND ", ExistsTest(column, param);
    var plain := pre + "" + post;
    assert plain == pre + post;
    assert plain[..|pre|] == pre && plain[|pre|..] == post;
  }

  /** A clause refers to the parameter of its own attribute; a categorical
      clause tests the column's membership in it, a list clause whether some
      element of the column is in it. */
  lemma FilterClauseForm(a: Attribute, excluded: bool)
    ensures Contains(FilterClause(a, excluded), "@" + ParamName(a))
    ensures a.Categorical? ==>
              StartsWith(FilterClause(a, excluded), " AND `" + a.Value() + "` ")
              && EndsWith(FilterClause(a, excluded), " IN UNNEST(" + ("@" + ParamName(a)) + ")")
    ensures a.Listed? ==> Contains(FilterClause(a, excluded), ExistsBody(a.Value(), "@" + ParamName(a)))
  {
    var param := "@" + ParamName(a);
    match a
    case Categorical(c) =>
      CategoricalClauseForm(c.Value(), Maybe(excluded), param);
    case Listed(l) =>
      ListClauseForm(l.Value(), Maybe(excluded), param);
  }

  /** An exclude clause is the include clause of the same attribute with `NOT`
      inserted before the membership test. */
  lemma ExcludeClauseNegates(a: Attribute)
    ensures exists k :: NegatedAt(FilterClause(a, false), FilterClause(a, true), k)
  {
    match a
    case Categorical(c) =>
      CategoricalClauseNegates(c.Value(), "@" + ParamName(a));
      assert NegatedAt(FilterClause(a, false), FilterClause(a, true), |" AND `" + c.Value() + "` "|);
    case Listed(l) =>
      ListClauseNegates(l.Value(), "@" + ParamName(a));
      assert NegatedAt(FilterClause(a, false), FilterClause(a, true), 5);
  }

  /** The clauses of a dictionary refer to the parameter of each of its entries. */
  lemma {:induction false} ClausesOfMention(e: Entries, excluded: bool, i: nat)
    requires i < |e|
    ensures Contains(ClausesOf(e, excluded), "@" + ParamName(e[i].0))
    decreases |e|
  {
    var init, last := ClausesOf(e[..|e| - 1], excluded), FilterClause(e[|e| - 1].0, excluded);
    if i == |e| - 1 {
      FilterClauseForm(e[i].0, excluded);
      ContainsRight(init, last, "@" + ParamName(e[i].0));
    } else {
      assert e[..|e| - 1][i] == e[i];
      ClausesOfMention(e[..|e| - 1], excluded, i);
      ContainsLeft(init, last, "@" + ParamName(e[i].0));
    }
  }

  /** The clauses of a body refer to the parameter of every entry. */
  lemma FilterSqlMentions(f: FilterBody, a: Attribute)
    requires a in Keys(f.included) || a in Keys(f.excluded)
    ensures Contains(FilterSql(f), "@" + ParamName(a))
  {
    var ci, ce := ClausesOf(f.included, false), ClausesOf(f.excluded, true);
    if a in Keys(f.included) {
      var i :| 0 <= i < |f.included| && f.included[i].0 == a;
      ClausesOfMention(f.included, false, i);
      ContainsLeft(ci, ce, "@" + ParamName(a));
    } else {
      var i :| 0 <= i < |f.excluded| && f.excluded[i].0 == a;
      ClausesOfMention(f.excluded, true, i);
      ContainsRight(ci, ce, "@" + ParamName(a));
    }
  }

  /** The filter clauses refer to every filter parameter. */
  lemma FilterSqlMentionsParams(f: FilterBody)
    ensures forall i :: 0 <= i < |FilterParams(f)| ==> Contains(FilterSql(f), "@" + FilterParams(f)[i].name)
  {
    var ni := |f.included|;
    forall i | 0 <= i < |FilterParams(f)|
      ensures Contains(FilterSql(f), "@" + FilterParams(f)[i].name)
    {
      var a := if i < ni then f.included[i].0 else f.excluded[i - ni].0;
      assert a in Keys(f.included) || a in Keys(f.excluded);
      assert FilterParams(f)[i].name == ParamName(a);
      FilterSqlMentions(f, a);
    }
  }

  /** The window ends the statement: the ordering, the limit, and the offset
      when one is given. */
  lemma WindowSqlText(offset: Option<nat>)
    ensures WindowSql(offset) + ";" ==
              if offset.Some? then " ORDER BY `id` LIMIT @window_limit OFFSET @window_offset;"
              else " ORDER BY `id` LIMIT @window_limit;"
  {
    if offset.Some? {
      assert WindowSql(offset) == WindowSql(Some(0));
      WindowSqlWithOffset();
    } else {
      WindowSqlWithoutOffset();
    }
  }

  lemma WindowSqlWithOffset()
    ensures WindowSql(Some(0)) + ";" == " ORDER BY `id` LIMIT @window_limit OFFSET @window_offset;"
  {
    var limitPart, offsetPart := " ORDER BY `id`" + " LIMIT " + ("@" + LimitName()), " OFFSET " + ("@" + OffsetName());
    assert limitPart == " ORDER BY `id` LIMIT @window_limit";
    assert offsetPart == " OFFSET @window_offset";
    assert WindowSql(Some(0)) == limitPart + offsetPart;
  }

  lemma WindowSqlWithoutOffset()
    ensures WindowSql(None) + ";" == " ORDER BY `id` LIMIT @window_limit;"
  {
  }

  /** The window refers to each window parameter. */
  lemma WindowSqlMentions(offset: Option<nat>, limit: nat)
    ensures forall i :: 0 <= i < |WindowParams(offset, limit)| ==>
              Contains(WindowSql(offset) + ";", "@" + WindowParams(offset, limit)[i].name)
  {
    var limitRef, offsetRef := "@" + LimitName(), "@" + OffsetName();
    var tail := if offset.Some? then " OFFSET " + offsetRef else "";
    ContainsMiddle(" ORDER BY `id`" + " LIMIT ", limitRef, tail);
    ContainsLeft(WindowSql(offset), ";", limitRef);
    if offset.Some? {
      ContainsMiddle(" ORDER BY `id`" + " LIMIT " + limitRef + " OFFSET ", offsetRef, "");
      assert " ORDER BY `id`" + " LIMIT " + limitRef + " OFFSET " + offsetRef + "" == WindowSql(offset);
      ContainsLeft(WindowSql(offset), ";", offsetRef);
    }
  }

  /** Every parameter of a filtered-table job is referred to by its SQL text,
      and the text ends with the ordering and the window. */
  lemma FilteredTableSql(f: FilterBody, offset: Option<nat>, limit: nat, cache: Cache, s: Settings)
    requires FilteredTableJob(f, offset, limit, cache, s).Ok?
    ensures var job := FilteredTableJob(f, offset, limit, cache, s).value;
            forall i :: 0 <= i < |job.params| ==> Contains(job.sql, "@" + job.params[i].name)
    ensures var job := FilteredTableJob(f, offset, limit, cache, s).value;
            EndsWith(job.sql, if offset.Some? then " ORDER BY `id` LIMIT @window_limit OFFSET @window_offset;"
                              else " ORDER BY `id` LIMIT @window_limit;")
  {
    var job := FilteredTableJob(f, offset, limit, cache, s).value;
    var head, body, tail := FilteredTableHead(s), FilterSql(f), WindowSql(offset) + ";";
    var fp, wp := FilterParams(f), WindowParams(offset, limit);
    assert job.sql == head + body + tail;
    assert job.params == fp + wp;
    FilterSqlMentionsParams(f);
    WindowSqlText(offset);
    WindowSqlMentions(offset, limit);
    forall i | 0 <= i < |job.params|
      ensures Contains(job.sql, "@" + job.params[i].name)
    {
      if i < |fp| {
        assert job.params[i] == fp[i];
        ContainsWithin(head, body, tail, "@" + fp[i].name);
      } else {
        assert job.params[i] == wp[i - |fp|];
        ContainsRight(head + body, tail, "@" + wp[i - |fp|].name);
      }
    }
    assert job.sql[|head + body|..] == tail;
  }

  /** Two dictionaries with the same keys in the same order. */
  predicate SameKeys(d: Entries, e: Entries) {
    |d| == |e| && forall i :: 0 <= i < |d| ==> d[i].0 == e[i].0
  }

  lemma {:induction false} ClausesOfKeys(d: Entries, e: Entries, excluded: bool)
    requires SameKeys(d, e)
    ensures ClausesOf(d, excluded) == ClausesOf(e, excluded)
    decreases |d|
  {
    if d != [] {
      assert SameKeys(d[..|d| - 1], e[..|e| - 1]);
      ClausesOfKeys(d[..|d| - 1], e[..|e| - 1], excluded);
    }
  }

  /** The SQL text depends only on which attributes are filtered, in which
      order, and on whether an offset is given: the submitted values travel
      only as parameters, never in the text. */
  lemma FilteredTableSqlIgnoresValues(f: FilterBody, g: FilterBody, offset: Option<nat>, offset': Option<nat>,
                                      limit: nat, limit': nat, cache: Cache, cache': Cache, s: Settings)
    requires SameKeys(f.included, g.included) && SameKeys(f.excluded, g.excluded)
    requires offset.Some? == offset'.Some?
    requires FilteredTableJob(f, offset, limit, cache, s).Ok? && FilteredTableJob(g, offset', limit', cache', s).Ok?
    ensures FilteredTableJob(f, offset, limit, cache, s).value.sql == FilteredTableJob(g, offset', limit', cache', s).value.sql
    ensures CountryCountJob(f, cache, s).value.sql == CountryCountJob(g, cache', s).value.sql
  {
    ClausesOfKeys(f.included, g.included, false);
    ClausesOfKeys(f.excluded, g.excluded, true);
  }

  /** A successful country-code count is the head, the filter clauses and the
      grouping, with the filter parameters. */
  lemma CountryCountJobOk(f: FilterBody, cache: Cache, s: Settings)
    requires CountryCountJob(f, cache, s).Ok?
    ensures CountryCountJob(f, cache, s).value
              == QueryJob(CountryCountHead(s) + FilterSql(f) + CountryCountTail(), FilterParams(f))
  {
  }

  /** Every parameter of a filter is an array parameter named in its clauses. */
  lemma FilterParamsShape(f: FilterBody)
    ensures |FilterParams(f)| == |f.included| + |f.excluded|
    ensures forall i :: 0 <= i < |FilterParams(f)| ==> FilterParams(f)[i].ArrayParam?
    ensures forall i :: 0 <= i < |FilterParams(f)| ==> Contains(FilterSql(f), "@" + FilterParams(f)[i].name)
  {
    var ni := |f.included|;
    forall i | 0 <= i < |FilterParams(f)|
      ensures FilterParams(f)[i].ArrayParam?
    {
      if i < ni {
        assert FilterParams(f)[i] == ParamOf(f.included[i]);
      } else {
        assert FilterParams(f)[i] == ParamOf(f.excluded[i - ni]);
      }
    }
    FilterSqlMentionsParams(f);
  }

  /** Text placed between a head and a tail keeps the parameter names it
      mentions, and the whole ends with the tail. */
  lemma EnclosedMentions(head: string, body: string, tail: string, params: seq<QueryParam>)
    requires forall i :: 0 <= i < |params| ==> Contains(body, "@" + params[i].name)
    ensures EndsWith(head + body + tail, tail)
    ensures forall i :: 0 <= i < |params| ==> Contains(head + body + tail, "@" + params[i].name)
  {
    assert (head + body + tail)[|head + body|..] == tail;
    forall i | 0 <= i < |params|
      ensures Contains(head + body + tail, "@" + params[i].name)
    {
      ContainsWithin(head, body, tail, "@" + params[i].name);
    }
  }

  lemma CountryCountTailText()
    ensures CountryCountTail() == " GROUP BY `Country_Code`;"
  {
  }

  /** A country-code count job groups by the country code, binds no window,
      and refers to every parameter it binds. */
  lemma CountryCountSql(f: FilterBody, cache: Cache, s: Settings)
    requires CountryCountJob(f, cache, s).Ok?
    ensures var job := CountryCountJob(f, cache, s).value;
            EndsWith(job.sql, " GROUP BY `Country_Code`;")
            && |job.params| == |f.included| + |f.excluded|
            && (forall i :: 0 <= i < |job.params| ==> job.params[i].ArrayParam?)
            && forall i :: 0 <= i < |job.params| ==> Contains(job.sql, "@" + job.params[i].name)
  {
    CountryCountJobOk(f, cache, s);
    FilterParamsShape(f);
    CountryCountTailText();
    EnclosedMentions(CountryCountHead(s), FilterSql(f), CountryCountTail(), FilterParams(f));
  }
}
