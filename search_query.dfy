/**
 * The Elasticsearch queries built by the airplane and flight search handlers from the
 * request's query-string arguments: a boolean `must` list with one `match` clause per
 * non-empty argument, plus `from`, `size` and (for flights) `sort`.
 */
module SearchQuery {
  import opened Wrappers

  /** The request's query-string arguments, by name. */
  type Args = map<string, string>

  /** `request.args.get(name)`: the argument's value, or `None` when it is absent. */
  function Get(args: Args, name: string): (v: Option<string>)
    ensures v.Some? <==> name in args
    ensures v.Some? ==> v.value == args[name]
  {
    if name in args then Some(args[name]) else None
  }

  /** Python truthiness of an optional string: present and not empty. */
  predicate Truthy(v: Option<string>) {
    v.Some? && v.value != ""
  }

  /** `{"match": {field: value}}` */
  datatype Clause = Match(field: string, value: string)

  /** An entry of the `sort` list: `{field: "asc"}` or the bare `"_score"`. */
  datatype SortKey = Ascending(field: string) | Score

  /**
   * `{"query": {"bool": {"must": must}}, "sort": sort, "from": from, "size": size}`;
   * `sort` is `None` when the query has no `sort` key.
   */
  datatype Query = Query(must: seq<Clause>, sort: Option<seq<SortKey>>, from: int, size: int)

  /** One entry of `search_config`: the field, its form label and its position in the sort order. */
  datatype SearchField = SearchField(field: string, formLabel: Option<string>, sortOrder: Option<nat>)

  /** The airplane search form, in its declared order. */
  const AIRPLANE_SEARCH_CONFIG: seq<SearchField> := [
    SearchField("TailNum", Some("Tail Number"), None),
    SearchField("Owner", None, Some(0)),
    SearchField("OwnerState", Some("Owner State"), None),
    SearchField("Manufacturer", None, Some(1)),
    SearchField("Model", None, Some(2)),
    SearchField("ManufacturerYear", Some("MFR Year"), None),
    SearchField("SerialNumber", Some("Serial Number"), None),
    SearchField("EngineManufacturer", Some("Engine MFR"), Some(3)),
    SearchField("EngineModel", Some("Engine Model"), Some(4))
  ]

  /** The field names of the airplane search form, as listed in `AIRPLANE_SEARCH_CONFIG`. */
  const AIRPLANE_SEARCH_FIELDS: seq<string> := [
    "TailNum", "Owner", "OwnerState", "Manufacturer", "Model",
    "ManufacturerYear", "SerialNumber", "EngineManufacturer", "EngineModel"
  ]

  /** The flight search parameters, in the order the handler tests them. */
  const FLIGHT_SEARCH_FIELDS: seq<string> := ["Carrier", "FlightDate", "Origin", "Dest", "TailNum", "FlightNum"]

  /** The flight search's fixed `sort`: by flight date ascending, then by score. */
  const FLIGHT_SORT: seq<SortKey> := [Ascending("FlightDate"), Score]

  /** The field names of a search configuration, in order. */
  function FieldNames(config: seq<SearchField>): (names: seq<string>)
    ensures |names| == |config|
    ensures forall i :: 0 <= i < |config| ==> names[i] == config[i].field
  {
    seq(|config|, i requires 0 <= i < |config| => config[i].field)
  }

  /** The `match` clause one field contributes: none unless its argument is truthy. */
  function FieldClause(args: Args, field: string): seq<Clause> {
    if Truthy(Get(args, field)) then [Match(field, args[field])] else []
  }

  /** The `must` clauses the given fields produce, in field order: one per truthy argument. */
  function MatchClauses(fields: seq<string>, args: Args): seq<Clause> {
    if fields == [] then [] else FieldClause(args, fields[0]) + MatchClauses(fields[1..], args)
  }

  /** Clauses of consecutive runs of fields are concatenated: the order of the fields is kept. */
  lemma {:induction false} MatchClausesAppend(xs: seq<string>, ys: seq<string>, args: Args)
    ensures MatchClauses(xs + ys, args) == MatchClauses(xs, args) + MatchClauses(ys, args)
  {
    if xs == [] {
      assert xs + ys == ys;
    } else {
      assert (xs + ys)[1..] == xs[1..] + ys;
      MatchClausesAppend(xs[1..], ys, args);
    }
  }

  /** A clause is produced exactly for a listed field whose argument is present and non-empty. */
  lemma {:induction false} MatchClausesMembership(fields: seq<string>, args: Args, c: Clause)
    ensures c in MatchClauses(fields, args) <==>
      c.field in fields && Get(args, c.field) == Some(c.value) && c.value != ""
  {
    if fields != [] {
      MatchClausesMembership(fields[1..], args, c);
      assert fields == [fields[0]] + fields[1..];
    }
  }

  /** The number of fields whose argument is present and non-empty. */
  function TruthyCount(fields: seq<string>, args: Args): (n: nat)
    ensures n <= |fields|
  {
    if fields == [] then 0
    else (if Truthy(Get(args, fields[0])) then 1 else 0) + TruthyCount(fields[1..], args)
  }

  /** There is exactly one clause per field with a truthy argument, so never more clauses than fields. */
  lemma {:induction false} MatchClausesLength(fields: seq<string>, args: Args)
    ensures |MatchClauses(fields, args)| == TruthyCount(fields, args)
    ensures |MatchClauses(fields, args)| <= |fields|
  {
    if fields != [] {
      MatchClausesLength(fields[1..], args);
    }
  }

  /** When fields i < j both carry an argument, the clause for field i comes before that for field j. */
  lemma MatchClausesKeepOrder(fields: seq<string>, args: Args, i: int, j: int)
    requires 0 <= i < j < |fields|
    requires Truthy(Get(args, fields[i])) && Truthy(Get(args, fields[j]))
    ensures exists p, q ::
      && 0 <= p < q < |MatchClauses(fields, args)|
      && MatchClauses(fields, args)[p] == Match(fields[i], args[fields[i]])
      && MatchClauses(fields, args)[q] == Match(fields[j], args[fields[j]])
  {
    var front, back := fields[..j], fields[j..];
    assert fields == front + back;
    MatchClausesAppend(front, back, args);
    var cf, cb := MatchClauses(front, args), MatchClauses(back, args);
    MatchClausesMembership(front, args, Match(fields[i], args[fields[i]]));
    assert front[i] == fields[i];
    var p :| 0 <= p < |cf| && cf[p] == Match(fields[i], args[fields[i]]);
    assert back[0] == fields[j];
    assert cb[0] == Match(fields[j], args[fields[j]]);
    assert (cf + cb)[p] == cf[p] && (cf + cb)[|cf|] == cb[0];
  }

  /**
   * The query of the airplane search (`search_airplanes`): every configured field is recorded
   * in `argDict` (as `None` when absent), and every truthy one adds a `match` clause.
   */
  method SearchAirplanesQuery(searchConfig: seq<SearchField>, args: Args, start: int, pageSize: int)
    returns (query: Query, argDict: map<string, Option<string>>)
    ensures query == Query(MatchClauses(FieldNames(searchConfig), args), None, start, pageSize)
    ensures argDict.Keys == set i | 0 <= i < |searchConfig| :: searchConfig[i].field
    ensures forall f :: f in argDict ==> argDict[f] == Get(args, f)
  {
    query := Query([], None, start, pageSize);
    argDict := map[];
    for i := 0 to |searchConfig|
      invariant query.sort == None && query.from == start && query.size == pageSize
      invariant query.must == MatchClauses(FieldNames(searchConfig[..i]), args)
      invariant argDict.Keys == set j | 0 <= j < i :: searchConfig[j].field
      invariant forall f :: f in argDict ==> argDict[f] == Get(args, f)
    {
      var field := searchConfig[i].field;
      var value := Get(args, field);
      argDict := argDict[field := value];
      assert FieldNames(searchConfig[..i + 1]) == FieldNames(searchConfig[..i]) + [field];
      MatchClausesAppend(FieldNames(searchConfig[..i]), [field], args);
      if Truthy(value) {
        query := query.(must := query.must + [Match(field, value.value)]);
      }
    }
    assert searchConfig[..|searchConfig|] == searchConfig;
  }

  /** Adding one field at the end adds its clause, if any, at the end. */
  lemma MatchClausesSnoc(fields: seq<string>, field: string, args: Args)
    ensures MatchClauses(fields + [field], args) == MatchClauses(fields, args) + FieldClause(args, field)
  {
    MatchClausesAppend(fields, [field], args);
    assert [field][1..] == [];
  }

  /** The flight clauses, field by field. */
  lemma FlightClausesUnfolded(args: Args)
    ensures MatchClauses(FLIGHT_SEARCH_FIELDS, args) ==
      FieldClause(args, "Carrier") + FieldClause(args, "FlightDate") + FieldClause(args, "Origin") +
      FieldClause(args, "Dest") + FieldClause(args, "TailNum") + FieldClause(args, "FlightNum")
  {
    MatchClausesSnoc([], "Carrier", args);
    assert [] + ["Carrier"] == ["Carrier"];
    MatchClausesSnoc(["Carrier"], "FlightDate", args);
    assert ["Carrier"] + ["FlightDate"] == ["Carrier", "FlightDate"];
    MatchClausesSnoc(["Carrier", "FlightDate"], "Origin", args);
    assert ["Carrier", "FlightDate"] + ["Origin"] == ["Carrier", "FlightDate", "Origin"];
    MatchClausesSnoc(["Carrier", "FlightDate", "Origin"], "Dest", args);
    assert ["Carrier", "FlightDate", "Origin"] + ["Dest"] == ["Carrier", "FlightDate", "Origin", "Dest"];
    MatchClausesSnoc(["Carrier", "FlightDate", "Origin", "Dest"], "TailNum", args);
    assert ["Carrier", "FlightDate", "Origin", "Dest"] + ["TailNum"] == ["Carrier", "FlightDate", "Origin", "Dest", "TailNum"];
    MatchClausesSnoc(["Carrier", "FlightDate", "Origin", "Dest", "TailNum"], "FlightNum", args);
    assert ["Carrier", "FlightDate", "Origin", "Dest", "TailNum"] + ["FlightNum"] == ["Carrier", "FlightDate", "Origin", "Dest", "TailNum", "FlightNum"];
  }

  /** `search_airplanes` builds its query from its own nine-entry `search_config`. */
  method SearchAirplanesWithConfig(args: Args, start: int, pageSize: int)
    returns (query: Query, argDict: map<string, Option<string>>)
    ensures query == Query(MatchClauses(AIRPLANE_SEARCH_FIELDS, args), None, start, pageSize)
    ensures forall f :: f in argDict <==> f in AIRPLANE_SEARCH_FIELDS
    ensures forall f :: f in argDict ==> argDict[f] == Get(args, f)
  {
    query, argDict := SearchAirplanesQuery(AIRPLANE_SEARCH_CONFIG, args, start, pageSize);
    assert FieldNames(AIRPLANE_SEARCH_CONFIG) == AIRPLANE_SEARCH_FIELDS;
    forall f | f in AIRPLANE_SEARCH_FIELDS
      ensures f in argDict
    {
      var i :| 0 <= i < |AIRPLANE_SEARCH_FIELDS| && AIRPLANE_SEARCH_FIELDS[i] == f;
      assert AIRPLANE_SEARCH_CONFIG[i].field == f;
    }
  }

  /**
   * The query of the flight search (`search_flights`): a `match` clause for each of the six
   * parameters that is present and non-empty, in the fixed order, sorted by date then score.
   */
  method SearchFlightsQuery(args: Args, start: int, pageSize: int) returns (query: Query)
    ensures query == Query(MatchClauses(FLIGHT_SEARCH_FIELDS, args), Some(FLIGHT_SORT), start, pageSize)
  {
    var carrier := Get(args, "Carrier");
    var flightDate := Get(args, "FlightDate");
    var origin := Get(args, "Origin");
    var dest := Get(args, "Dest");
    var tailNumber := Get(args, "TailNum");
    var flightNumber := Get(args, "FlightNum");

    var must: seq<Clause> := [];
    if Truthy(carrier) {
      must := must + [Match("Carrier", carrier.value)];
    }
    assert must == FieldClause(args, "Carrier");
    if Truthy(flightDate) {
      must := must + [Match("FlightDate", flightDate.value)];
    }
    assert must == FieldClause(args, "Carrier") + FieldClause(args, "FlightDate");
    if Truthy(origin) {
      must := must + [Match("Origin", origin.value)];
    }
    assert must == FieldClause(args, "Carrier") + FieldClause(args, "FlightDate") + FieldClause(args, "Origin");
    if Truthy(dest) {
      must := must + [Match("Dest", dest.value)];
    }
    assert must == FieldClause(args, "Carrier") + FieldClause(args, "FlightDate") + FieldClause(args, "Origin") + FieldClause(args, "Dest");
    if Truthy(tailNumber) {
      must := must + [Match("TailNum", tailNumber.value)];
    }
    assert must == FieldClause(args, "Carrier") + FieldClause(args, "FlightDate") + FieldClause(args, "Origin") + FieldClause(args, "Dest") + FieldClause(args, "TailNum");
    if Truthy(flightNumber) {
      must := must + [Match("FlightNum", flightNumber.value)];
    }
    assert must == FieldClause(args, "Carrier") + FieldClause(args, "FlightDate") + FieldClause(args, "Origin") + FieldClause(args, "Dest") + FieldClause(args, "TailNum") + FieldClause(args, "FlightNum");
    FlightClausesUnfolded(args);
    query := Query(must, Some(FLIGHT_SORT), start, pageSize);
  }
}
