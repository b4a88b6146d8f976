/**
 * `process_search`: turn an Elasticsearch response into the list of hit documents and the
 * hit count. `D` is the type of a document (`_source`), `T` that of `hits.total`.
 *
 * A key the source reads that is absent from the response is `None` here; reading it raises
 * `KeyError` in the source and gives `Failure(KeyError(key))` here.
 */
module SearchResults {
  import opened Wrappers

  /** One element of `hits.hits`; `source` is its `_source` document. */
  datatype Hit<D> = Hit(source: Option<D>)

  /** The `hits` object of a response: its `total` and its `hits` list. */
  datatype HitsObject<D, T> = HitsObject(total: Option<T>, hits: Option<seq<Hit<D>>>)

  /** A search response, of which only the `hits` key is read. */
  datatype SearchResponse<D, T> = SearchResponse(hits: Option<HitsObject<D, T>>)

  /** The Python exceptions `process_search` can raise. */
  datatype SearchError = KeyError(key: string) | UnboundLocalError(name: string)

  /** Python truthiness of the `hits` object: a dict is false when it has no keys. */
  predicate HitsObjectTruthy<D, T>(h: HitsObject<D, T>) {
    h.total.Some? || h.hits.Some?
  }

  /** Every hit of the list carries a `_source` document. */
  predicate AllSourced<D>(hits: seq<Hit<D>>) {
    forall i :: 0 <= i < |hits| ==> hits[i].source.Some?
  }

  /** The response has a truthy `hits` object with a non-empty `hits` list: the branch that binds `total`. */
  predicate HasHits<D, T>(results: SearchResponse<D, T>) {
    results.hits.Some? && HitsObjectTruthy(results.hits.value) &&
    results.hits.value.hits.Some? && results.hits.value.hits.value != []
  }

  /**
   * Collects the `_source` of every hit, in hit order, paired with `hits.total`. With no hits,
   * `total` is never bound and the `return` raises `UnboundLocalError`.
   */
  method ProcessSearch<D, T>(results: SearchResponse<D, T>) returns (r: Result<(seq<D>, T), SearchError>)
    // reading `results["hits"]`
    ensures results.hits.None? ==> r == Failure(KeyError("hits"))
    // a falsy `hits` object, or an empty hit list: `total` is unbound at the return
    ensures results.hits.Some? && !HitsObjectTruthy(results.hits.value) ==> r == Failure(UnboundLocalError("total"))
    ensures results.hits.Some? && HitsObjectTruthy(results.hits.value) && results.hits.value.hits == Some([]) ==>
      r == Failure(UnboundLocalError("total"))
    // reading `results["hits"]["hits"]`, `results["hits"]["total"]` and each `hit["_source"]`
    ensures results.hits.Some? && HitsObjectTruthy(results.hits.value) && results.hits.value.hits.None? ==>
      r == Failure(KeyError("hits"))
    ensures HasHits(results) && results.hits.value.total.None? ==> r == Failure(KeyError("total"))
    ensures HasHits(results) && results.hits.value.total.Some? && !AllSourced(results.hits.value.hits.value) ==>
      r == Failure(KeyError("_source"))
    // the success case: one record per hit, in order, each that hit's `_source`
    ensures r.Success? <==>
      HasHits(results) && results.hits.value.total.Some? && AllSourced(results.hits.value.hits.value)
    ensures r.Success? ==>
      var hits := results.hits.value.hits.value;
      var (records, total) := r.value;
      |records| == |hits| && total == results.hits.value.total.value &&
      forall i :: 0 <= i < |hits| ==> records[i] == hits[i].source.value
  {
    var records: seq<D> := [];
    if results.hits.None? {
      return Failure(KeyError("hits"));
    }
    var hitsObject := results.hits.value;
    if HitsObjectTruthy(hitsObject) {
      if hitsObject.hits.None? {
        return Failure(KeyError("hits"));
      }
      if hitsObject.hits.value != [] {
        if hitsObject.total.None? {
          return Failure(KeyError("total"));
        }
        var total := hitsObject.total.value;
        var hits := hitsObject.hits.value;
        for i := 0 to |hits|
          invariant |records| == i
          invariant forall j :: 0 <= j < i ==> hits[j].source.Some? && records[j] == hits[j].source.value
        {
          var hit := hits[i];
          if hit.source.None? {
            return Failure(KeyError("_source"));
          }
          records := records + [hit.source.value];
        }
        return Success((records, total));
      }
    }
    return Failure(UnboundLocalError("total"));
  }

  /**
   * The same walk with `total` bound to `noTotal` before the test, as `records` is: a response
   * without hits then gives an empty page instead of an exception.
   */
  method ProcessSearchBound<D, T>(results: SearchResponse<D, T>, noTotal: T) returns (r: Result<(seq<D>, T), SearchError>)
    ensures !(r.Failure? && r.error.UnboundLocalError?)
    ensures results.hits.Some? && !HasHits(results) && results.hits.value.hits != None ==> r == Success(([], noTotal))
    ensures results.hits.Some? && !HitsObjectTruthy(results.hits.value) ==> r == Success(([], noTotal))
    ensures results.hits.None? ==> r == Failure(KeyError("hits"))
    ensures results.hits.Some? && HitsObjectTruthy(results.hits.value) && results.hits.value.hits.None? ==>
      r == Failure(KeyError("hits"))
    ensures HasHits(results) && results.hits.value.total.None? ==> r == Failure(KeyError("total"))
    ensures HasHits(results) && results.hits.value.total.Some? && !AllSourced(results.hits.value.hits.value) ==>
      r == Failure(KeyError("_source"))
    ensures HasHits(results) && results.hits.value.total.Some? && AllSourced(results.hits.value.hits.value) ==>
      r.Success? &&
      var hits := results.hits.value.hits.value;
      var (records, total) := r.value;
      |records| == |hits| && total == results.hits.value.total.value &&
      forall i :: 0 <= i < |hits| ==> records[i] == hits[i].source.value
  {
    var records: seq<D> := [];
    var total := noTotal;
    if results.hits.None? {
      return Failure(KeyError("hits"));
    }
    var hitsObject := results.hits.value;
    if HitsObjectTruthy(hitsObject) {
      if hitsObject.hits.None? {
        return Failure(KeyError("hits"));
      }
      if hitsObject.hits.value != [] {
        if hitsObject.total.None? {
          return Failure(KeyError("total"));
        }
        total := hitsObject.total.value;
        var hits := hitsObject.hits.value;
        for i := 0 to |hits|
          invariant |records| == i
          invariant forall j :: 0 <= j < i ==> hits[j].source.Some? && records[j] == hits[j].source.value
        {
          var hit := hits[i];
          if hit.source.None? {
            return Failure(KeyError("_source"));
          }
          records := records + [hit.source.value];
        }
      }
    }
    return Success((records, total));
  }

  /** A response whose hit list is empty, as for a search that finds nothing, makes the source raise. */
  method NoHitsCounterexample() returns (r: Result<(seq<string>, int), SearchError>)
    ensures r == Failure(UnboundLocalError("total"))
  {
    var empty: SearchResponse<string, int> := SearchResponse(Some(HitsObject(Some(0), Some([]))));
    r := ProcessSearch(empty);
  }
}
