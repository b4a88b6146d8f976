# Flight and airplane search helpers, in Dafny

This project models the logic inside the Flask controllers of the "Agile Data Science" web
application (`ch06/web/report_flask.py`). The controllers look up flights and airplanes in
MongoDB and Elasticsearch and render the results. Four pieces of that file compute something,
and they are modelled here:

- `navigation.dfy`, module `Navigation`: `get_navigation_offsets`. It turns the current
  `(offset1, offset2)` window (`start`, `end` at the call sites) and a page size into the
  "Previous" and "Next" links. As in the source, each link's `top_offset` comes from `offset2`
  and its `bottom_offset` from `offset1`. "Previous" is clamped at 0.
- `strip_place.dfy`, module `NavPath`: `strip_place`. It removes `&start=...&end=...` from the
  request URL with `re.match("(.+)&start=.+&end=.+", url).group(1)` and falls back to the URL when
  nothing matches. The regular expression is stated declaratively (`MatchesWithGroupAt`) with
  Python's rules: `.` matches any character except a newline, the match is anchored at the start
  only, and the greedy group 1 is the longest prefix for which the rest still matches. The
  executable part replays the backtracking: group 1 first reaches the first newline, then
  shrinks one character at a time.
- `process_search.dfy`, module `SearchResults`: `process_search`. It collects each hit's
  `_source` in hit order, paired with `hits.total`. Each exception the code can raise is a
  `Failure` value: `KeyError` for a key that is missing, and `UnboundLocalError` when there are
  no hits and `total` was never bound.
- `search_query.dfy`, module `SearchQuery`: the Elasticsearch query built by `search_airplanes`
  (a loop over `search_config` that also fills `arg_dict`) and by `search_flights` (six
  conditional appends in a fixed order). Both are proved to produce `MatchClauses(fields, args)`:
  one `match` clause per field whose argument is present and non-empty, in field order.
  The request arguments are a `map<string, string>`, and `request.args.get` gives an `Option`.
  The page sizes `RECORDS_PER_PAGE` and `AIRPLANE_RECORDS_PER_PAGE` are parameters.
- `wrappers.dfy`, module `Wrappers`: `Option` and `Result`.

## Model

| member | source | states |
|---|---|---|
| `Navigation.GetNavigationOffsets` | ch06/web/report_flask.py:33-43 | "Previous" offsets are never negative. Each is its input minus `increment` when that is not negative, and 0 otherwise; top comes from `offset2`, bottom from `offset1`. "Next" offsets are the inputs plus exactly `increment`. |
| `Navigation.NextKeepsWidth` | ch06/web/report_flask.py:39-42 | The "Next" window has the same width `offset2 - offset1` as the current one. |
| `Navigation.PreviousBelowNextAbove` | ch06/web/report_flask.py:35-42 | For non-negative offsets and increment, "Previous" offsets are at most the inputs and "Next" offsets at least the inputs. |
| `Navigation.PreviousUndoesNext` | ch06/web/report_flask.py:35-42 | Going "Next" and then "Previous" from a non-negative window returns to that window. |
| `Navigation.NextUndoesPrevious` | ch06/web/report_flask.py:35-42 | Going "Previous" and then "Next" returns to the window when the clamp at 0 did not fire. |
| `NavPath.FirstLineLength` | ch06/web/report_flask.py:49 | The greedy `.+` first reaches the longest newline-free prefix, which stops at the first newline or at the end of the string. |
| `NavPath.ScanEnd` | ch06/web/report_flask.py:49 | Returns true exactly when `.+&end=.+` matches at the start of the text with a split at or after the given position. |
| `NavPath.RestMatches` | ch06/web/report_flask.py:49 | True exactly when `&start=.+&end=.+` matches at the start of the text. |
| `NavPath.LongestGroup` | ch06/web/report_flask.py:49 | Backtracking over group 1: returns the longest group end up to `k` at which the whole pattern matches, or `None` when no group end up to `k` does. |
| `NavPath.StripPlace` | ch06/web/report_flask.py:47-52 | With no match, the URL is returned unchanged (the `AttributeError` fallback). With a match, the result is the prefix of the URL that forms group 1 of a match, and it is the longest such prefix. |
| `NavPath.StripPlaceMatchedShape` | ch06/web/report_flask.py:49-52 | When the pattern matches, the result is a non-empty proper prefix of the URL, and the URL continues with `&start=` right after it. |
| `NavPath.MatchesAtPathEnd` | ch06/web/report_flask.py:49 | A non-empty, newline-free path followed by `&start=<a>&end=<b>`, with `a` and `b` non-empty and newline-free, matches with group 1 ending where the path ends. |
| `NavPath.StripPlaceRemovesPagination` | ch06/web/report_flask.py:47-52 | Stripping a non-empty, newline-free path followed by `&start=<a>&end=<b>` gives the path back when `a` and `b` are non-empty, newline-free and hold no `&`. |
| `SearchResults.ProcessSearch` | ch06/web/report_flask.py:21-29 | Returns one record per hit, in hit order, each that hit's `_source`, paired with `hits.total`. It succeeds exactly when the hits object is truthy, its hit list is non-empty, `total` is present and every hit has a `_source`. A falsy hits object or an empty hit list gives `UnboundLocalError("total")`. Each missing key gives a `KeyError` for that key. |
| `SearchResults.ProcessSearchBound` | ch06/web/report_flask.py:21-29 | The corrected walk with `total` bound beforehand never raises `UnboundLocalError`. With no hits it returns an empty record list and the default total. Otherwise it behaves as the source. |
| `SearchResults.NoHitsCounterexample` | ch06/web/report_flask.py:23-29 | A response with `total` 0 and an empty hit list raises `UnboundLocalError("total")` under the source's code. |
| `SearchQuery.Get` | ch06/web/report_flask.py:156 | `request.args.get(name)` is `Some` exactly when the argument is present, and then it holds the argument's value. |
| `SearchQuery.MatchClausesAppend` | ch06/web/report_flask.py:154-159 | The clauses for a concatenation of field lists are the concatenations of their clauses, so clauses keep field order. |
| `SearchQuery.MatchClausesMembership` | ch06/web/report_flask.py:154-159 | A clause `match {f: v}` is in the `must` list if and only if `f` is a listed field, its argument is present with value `v`, and `v` is non-empty. |
| `SearchQuery.MatchClausesLength` | ch06/web/report_flask.py:154-159 | The number of clauses is exactly the number of fields whose argument is present and non-empty, so there are never more clauses than fields. |
| `SearchQuery.MatchClausesKeepOrder` | ch06/web/report_flask.py:154-159 | If fields `i < j` both carry a truthy argument, the clause for field `i` comes before the clause for field `j`. |
| `SearchQuery.SearchAirplanesQuery` | ch06/web/report_flask.py:147-159 | The query's `must` list is `MatchClauses` of the configured fields in `search_config` order. `from` is `start`, `size` is the airplane page size, and there is no `sort`. `arg_dict` has exactly the configured fields as keys, each mapped to its argument, or to `None` when the argument is absent. |
| `SearchQuery.SearchAirplanesWithConfig` | ch06/web/report_flask.py:122-159 | With the handler's own `search_config`, `arg_dict` has exactly the nine airplane fields as keys, each mapped to its argument or to `None`. The `must` list is `MatchClauses` of those nine fields in declared order, `from` is `start`, `size` is the airplane page size, and there is no `sort`. |
| `SearchQuery.MatchClausesSnoc` | ch06/web/report_flask.py:295-306 | Adding one more field at the end adds its clause, if it has one, at the end. |
| `SearchQuery.FlightClausesUnfolded` | ch06/web/report_flask.py:295-306 | The flight clauses are the clauses of Carrier, FlightDate, Origin, Dest, TailNum and FlightNum, concatenated in that order. |
| `SearchQuery.SearchFlightsQuery` | ch06/web/report_flask.py:287-306 | The query's `must` list is `MatchClauses` of Carrier, FlightDate, Origin, Dest, TailNum and FlightNum, in that order: one clause per truthy parameter, and nothing for absent or empty ones. `sort` is `[{FlightDate: asc}, _score]`, `from` is `start` and `size` is the flight page size. |

## Findings

| source | as written | input that shows it | evidently intended | confidence | as-written member | corrected member |
|---|---|---|---|---|---|---|
| ch06/web/report_flask.py:21-29 | `total` is bound only inside `if results["hits"] and results["hits"]["hits"]:`, but `return records, total` reads it on every path | a response whose `hits.hits` is `[]`, as for a flight search that finds nothing | an empty page: no records and a count, with `total` bound before the test as `records` is | high (not executed) | `SearchResults.NoHitsCounterexample` (on `SearchResults.ProcessSearch`) | `SearchResults.ProcessSearchBound` |

## Left out

- Flask routing, `request`, `render_template` and `app.run`, which are web-framework plumbing. The
  request's URL and arguments are parameters of the modelled functions.
- The MongoDB `find`/`find_one`/`count` calls and the Elasticsearch `search` call. These are
  external clients. The search response is an input of `ProcessSearch`.
- `json.dumps` and `bson.json_util.dumps`, which are foreign serialisers.
- The `int(...)` parsing of `start`/`end` and the `or 0` / `or RECORDS_PER_PAGE` defaults. Python's
  `int()` grammar is foreign, so `start` is taken as an already-parsed integer.
- The `search_helpers` module is not part of this model. `search_airplanes` calls its
  `strip_place`, `get_navigation_offsets` and `process_search`, and `search_flights` calls its
  `strip_place` and `get_navigation_offsets`. The model follows the definitions at lines 21-52 of
  `report_flask.py`. `search_flights` calls the local `process_search` at line 310, so the
  defect under "## Findings" is reachable from the flight search.
- The `config` module is not part of this model. `RECORDS_PER_PAGE` and
  `AIRPLANE_RECORDS_PER_PAGE` are parameters.
- The controllers in `ch02/web/` echo a route argument or do a single MongoDB lookup. They contain
  no logic.
- `SearchQuery.SearchAirplanesQuery`: `arg_dict` is a `map`, so the insertion order of the Python
  dict is not modelled. Keys are unique, and the template looks values up by field name.
- `SearchResults.ProcessSearch`: the hits object is modelled only through its `total` and `hits`
  keys. A hits object with neither key is the empty (falsy) dict. A hits object that has only
  other keys is truthy in Python and would raise `KeyError("hits")`. The model treats it as empty
  and reports `UnboundLocalError`.
- Integer widths: Python integers are unbounded, and so are Dafny's `int`, so no overflow is
  modelled.
