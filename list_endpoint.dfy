/** The `GET` handler of app/api/municipalities/route.ts without its HTTP and
    logging plumbing: one optional search, then the postal-code filter, then the sort. */
module ListEndpoint {
  import opened Params
  import opened Municipalities
  import opened Search
  import opened Sorting

  /** The query parameters the handler reads. */
  datatype ListQuery = ListQuery(
    search: Option<string>,
    name: Option<string>,
    delegation: Option<string>,
    postalCode: Option<string>,
    sort: Option<string>,
    order: Option<string>)

  /** The single search a request asks for: `search`, else `name`, else
      `delegation`; the first two search governorates first, the last
      delegations first. */
  function SearchRequest(q: ListQuery): (r: Option<(string, SearchType)>)
    ensures r == None <==> !Given(q.search) && !Given(q.name) && !Given(q.delegation)
    ensures r.Some? ==> r.value.0 != ""
  {
    if Given(q.search) then Some((q.search.value, ByGovernorate))
    else if Given(q.name) then Some((q.name.value, ByGovernorate))
    else if Given(q.delegation) then Some((q.delegation.value, ByDelegation))
    else None
  }

  /** What the search stage leaves of its input. */
  function SearchStage(q: ListQuery, ms: seq<Municipality>): seq<Municipality> {
    match SearchRequest(q)
    case None => ms
    case Some((term, searchType)) => SearchResults(term, searchType, ms)
  }

  /** What the postal-code stage leaves of its input. */
  function PostalStage(q: ListQuery, ms: seq<Municipality>): seq<Municipality> {
    if Given(q.postalCode) then FilterByPostalCode(q.postalCode.value, ms) else ms
  }

  /** `searchParams.get("order") || "asc"` */
  function SortOrder(q: ListQuery): (r: string)
    ensures r != ""
    ensures r == "asc" || (Given(q.order) && r == q.order.value)
  {
    if Given(q.order) then q.order.value else "asc"
  }

  /** The sort stage runs only for the two recognised fields. */
  predicate SortRequested(q: ListQuery) {
    q.sort == Some("name") || q.sort == Some("nameAr")
  }

  /** The three-way `if (search) ... else if (name) ... else if (delegation)`:
      at most one `enhancedSearch` runs, and only its results are kept. */
  method ApplySearch(q: ListQuery, ms: seq<Municipality>) returns (results: seq<Municipality>)
    ensures results == SearchStage(q, ms)
  {
    results := ms;
    var searchUsed, fallbackApplied;
    if Given(q.search) {
      results, searchUsed, fallbackApplied := EnhancedSearch(q.search.value, ByGovernorate, results);
    } else if Given(q.name) {
      results, searchUsed, fallbackApplied := EnhancedSearch(q.name.value, ByGovernorate, results);
    } else if Given(q.delegation) {
      results, searchUsed, fallbackApplied := EnhancedSearch(q.delegation.value, ByDelegation, results);
    }
  }

  /** `results = sortMunicipalities(results, sortingField, sortOrder)`: the
      current list is sorted in place in an array of the pipeline's own. */
  method SortStage(ms: seq<Municipality>, sortField: string, sortOrder: string, c: Collation)
    returns (sorted: seq<Municipality>)
    requires ValidCollation(c)
    ensures multiset(sorted) == multiset(ms)
    ensures Sorted(c, sortField, sortOrder == "asc", sorted)
  {
    var buffer := new Municipality[|ms|](i requires 0 <= i < |ms| => ms[i]);
    assert buffer[..] == ms;
    SortMunicipalities(buffer, sortField, sortOrder, c);
    sorted := buffer[..];
  }

  /** The handler. The dataset is only read (the method may modify nothing):
      the stages work on a copy. The result is the searched and postal-filtered
      list, sorted when a recognised sort field is requested and otherwise in
      its original order. Whatever the search did, a postal code that is given
      leaves only delegations with exactly that code, in non-empty governorates. */
  method Get(data: array<Municipality>, q: ListQuery, c: Collation) returns (results: seq<Municipality>)
    requires ValidCollation(c)
    ensures var filtered := PostalStage(q, SearchStage(q, data[..]));
            if SortRequested(q)
            then multiset(results) == multiset(filtered) && Sorted(c, q.sort.value, SortOrder(q) == "asc", results)
            else results == filtered
    ensures Given(q.postalCode) ==>
              forall g :: g in results ==>
                g.Delegations != [] && forall d :: d in g.Delegations ==> d.PostalCode == q.postalCode.value
  {
    results := data[..];  // `[...data]`
    ghost var searched := SearchStage(q, data[..]);
    results := ApplySearch(q, results);
    if Given(q.postalCode) {
      results := FilterByPostalCode(q.postalCode.value, results);
    }
    ghost var filtered := results;
    assert filtered == PostalStage(q, searched);
    PostalStageExact(q, searched);
    var sortOrder := if Given(q.order) then q.order.value else "asc";
    if q.sort.Some? && q.sort.value != "" && (q.sort.value == "name" || q.sort.value == "nameAr") {
      results := SortStage(results, q.sort.value, sortOrder, c);
    }
  }

  /** A given postal code leaves only delegations with exactly that code, in
      non-empty governorates. */
  lemma PostalStageExact(q: ListQuery, ms: seq<Municipality>)
    ensures Given(q.postalCode) ==>
              forall g :: g in PostalStage(q, ms) ==>
                g.Delegations != [] && forall d :: d in g.Delegations ==> d.PostalCode == q.postalCode.value
  {
  }

  /** A given `search` parameter decides the search alone: `name` and
      `delegation` are then ignored. */
  lemma SearchOverridesLegacyParameters(q: ListQuery, name: Option<string>, delegation: Option<string>, ms: seq<Municipality>)
    requires Given(q.search)
    ensures SearchStage(q.(name := name, delegation := delegation), ms) == SearchStage(q, ms)
            == SearchResults(q.search.value, ByGovernorate, ms)
  {
  }

  /** Without `search`, a given `name` decides the search: `delegation` is ignored,
      so `name` and `delegation` are never combined. */
  lemma NameOverridesDelegation(q: ListQuery, delegation: Option<string>, ms: seq<Municipality>)
    requires !Given(q.search) && Given(q.name)
    ensures SearchStage(q.(delegation := delegation), ms) == SearchStage(q, ms)
            == SearchResults(q.name.value, ByGovernorate, ms)
  {
  }

  /** An empty parameter value counts as an absent one. */
  lemma EmptyParameterIsAbsent(q: ListQuery, ms: seq<Municipality>)
    ensures SearchStage(q.(search := Some("")), ms) == SearchStage(q.(search := None), ms)
    ensures SearchStage(q.(name := Some("")), ms) == SearchStage(q.(name := None), ms)
    ensures SearchStage(q.(delegation := Some("")), ms) == SearchStage(q.(delegation := None), ms)
    ensures PostalStage(q.(postalCode := Some("")), ms) == PostalStage(q.(postalCode := None), ms)
  {
    assert SearchRequest(q.(search := Some(""))) == SearchRequest(q.(search := None));
    assert SearchRequest(q.(name := Some(""))) == SearchRequest(q.(name := None));
    assert SearchRequest(q.(delegation := Some(""))) == SearchRequest(q.(delegation := None));
  }

  /** Without any search parameter the search stage passes its input through. */
  lemma NoSearchKeepsEverything(q: ListQuery, ms: seq<Municipality>)
    requires !Given(q.search) && !Given(q.name) && !Given(q.delegation)
    ensures SearchStage(q, ms) == ms
  {
  }
}
