/** The text search of app/api/municipalities/route.ts: governorate search,
    delegation search, the fallback between them, and the postal-code filter. */
module Search {
  import opened Text
  import opened Seqs
  import opened Municipalities

  /** `name.toLowerCase().includes(term.toLowerCase()) || nameAr.toLowerCase().includes(...)` */
  predicate NameMatches(term: string, name: string, nameAr: string) {
    Contains(Lower(name), Lower(term)) || Contains(Lower(nameAr), Lower(term))
  }

  predicate GovernorateMatches(term: string, m: Municipality) {
    NameMatches(term, m.Name, m.NameAr)
  }

  predicate DelegationMatches(term: string, d: Delegation) {
    NameMatches(term, d.Name, d.NameAr)
  }

  /** The per-delegation test of the delegation search, as a value. */
  function DelegationTest(term: string): Delegation -> bool {
    d => DelegationMatches(term, d)
  }

  /** The per-delegation test of the postal-code filter: exact string equality. */
  function PostalTest(postalCode: string): Delegation -> bool {
    (d: Delegation) => d.PostalCode == postalCode
  }

  /** `searchByGovernorate`: the governorates whose name or Arabic name contains
      the term, case-insensitively, in input order and with all their delegations. */
  function SearchByGovernorate(term: string, ms: seq<Municipality>): (r: seq<Municipality>)
    ensures IsSubsequence(r, ms)
    ensures forall m :: m in r <==> m in ms && GovernorateMatches(term, m)
    ensures forall m :: multiset(r)[m] == if GovernorateMatches(term, m) then multiset(ms)[m] else 0
  {
    Filter(m => GovernorateMatches(term, m), ms)
  }

  /** `searchByDelegation`: every governorate narrowed to its delegations whose
      name or Arabic name contains the term; governorates left empty are dropped. */
  function SearchByDelegation(term: string, ms: seq<Municipality>): (r: seq<Municipality>)
    ensures IsSubsequence(r, ProjectAll(DelegationTest(term), ms))
    ensures forall g :: g in r ==> g.Delegations != [] && forall d :: d in g.Delegations ==> DelegationMatches(term, d)
    ensures forall g :: g in r ==> exists m :: m in ms && NarrowedFrom(g, m, DelegationTest(term))
    ensures forall m, d :: m in ms && d in m.Delegations && DelegationMatches(term, d) ==>
              exists g :: g in r && NarrowedFrom(g, m, DelegationTest(term)) && d in g.Delegations
    ensures forall g :: multiset(r)[g] == if g.Delegations != [] then multiset(ProjectAll(DelegationTest(term), ms))[g] else 0
  {
    var keep := DelegationTest(term);
    assert forall d :: keep(d) == DelegationMatches(term, d);
    Narrow(keep, ms)
  }

  /** `filterByPostalCode`: every governorate narrowed to its delegations whose
      postal code equals the argument exactly; governorates left empty are dropped. */
  function FilterByPostalCode(postalCode: string, ms: seq<Municipality>): (r: seq<Municipality>)
    ensures IsSubsequence(r, ProjectAll(PostalTest(postalCode), ms))
    ensures forall g :: g in r ==> g.Delegations != [] && forall d :: d in g.Delegations ==> d.PostalCode == postalCode
    ensures forall g :: g in r ==> exists m :: m in ms && NarrowedFrom(g, m, PostalTest(postalCode))
    ensures forall m, d :: m in ms && d in m.Delegations && d.PostalCode == postalCode ==>
              exists g :: g in r && NarrowedFrom(g, m, PostalTest(postalCode)) && d in g.Delegations
    ensures forall g :: multiset(r)[g] == if g.Delegations != [] then multiset(ProjectAll(PostalTest(postalCode), ms))[g] else 0
  {
    var keep := PostalTest(postalCode);
    assert forall d :: keep(d) == (d.PostalCode == postalCode);
    Narrow(keep, ms)
  }

  /** Governorates all of whose delegations match come through the delegation
      search unchanged. */
  lemma SearchByDelegationKeepsFullMatches(term: string, ms: seq<Municipality>)
    requires forall m :: m in ms ==> m.Delegations != [] && forall d :: d in m.Delegations ==> DelegationMatches(term, d)
    ensures SearchByDelegation(term, ms) == ms
  {
    NarrowFixed(DelegationTest(term), ms);
  }

  /** Applying the postal-code filter twice is applying it once. */
  lemma FilterByPostalCodeIdempotent(postalCode: string, ms: seq<Municipality>)
    ensures FilterByPostalCode(postalCode, FilterByPostalCode(postalCode, ms)) == FilterByPostalCode(postalCode, ms)
  {
    NarrowIdempotent(PostalTest(postalCode), ms);
  }

  /** The empty term is contained in every name: the governorate search returns
      its input, the delegation search every governorate that has a delegation. */
  lemma EmptyTermMatchesEverything(ms: seq<Municipality>)
    ensures SearchByGovernorate("", ms) == ms
    ensures SearchByDelegation("", ms) == Filter(HasDelegations, ms)
  {
    forall m | m in ms ensures GovernorateMatches("", m) {
      ContainsEmpty(Lower(m.Name));
    }
    FilterAll(m => GovernorateMatches("", m), ms);
    forall m | m in ms ensures Project(DelegationTest(""), m) == m {
      forall d | d in m.Delegations ensures DelegationMatches("", d) {
        ContainsEmpty(Lower(d.Name));
      }
      FilterAll(DelegationTest(""), m.Delegations);
    }
    MapIdentity(m => Project(DelegationTest(""), m), ms);
  }

  // ---------------------------------------------------------------------------
  // enhancedSearch

  /** The `searchType` argument: `"governorate" | "delegation"`. */
  datatype SearchType = ByGovernorate | ByDelegation

  /** The string form of a search type, as `searchUsed` starts out. */
  function Label(t: SearchType): string {
    match t
    case ByGovernorate => "governorate"
    case ByDelegation => "delegation"
  }

  /** The `searchUsed` reported when the fallback search ran. */
  function FallbackLabel(t: SearchType): string {
    match t
    case ByGovernorate => "delegation (fallback)"
    case ByDelegation => "governorate (fallback)"
  }

  function PrimarySearch(t: SearchType, term: string, ms: seq<Municipality>): seq<Municipality> {
    match t
    case ByGovernorate => SearchByGovernorate(term, ms)
    case ByDelegation => SearchByDelegation(term, ms)
  }

  function OtherSearch(t: SearchType, term: string, ms: seq<Municipality>): seq<Municipality> {
    match t
    case ByGovernorate => SearchByDelegation(term, ms)
    case ByDelegation => SearchByGovernorate(term, ms)
  }

  /** The results of `enhancedSearch`: the primary search, or the other search
      over the same input when the primary one found nothing. The outcome is
      empty exactly when both searches are. */
  function SearchResults(term: string, t: SearchType, ms: seq<Municipality>): (r: seq<Municipality>)
    ensures PrimarySearch(t, term, ms) != [] ==> r == PrimarySearch(t, term, ms)
    ensures PrimarySearch(t, term, ms) == [] ==> r == OtherSearch(t, term, ms)
    ensures r == [] <==> SearchByGovernorate(term, ms) == [] && SearchByDelegation(term, ms) == []
  {
    var primary := PrimarySearch(t, term, ms);
    if primary == [] then OtherSearch(t, term, ms) else primary
  }

  /** `enhancedSearch`, with its three local variables updated as the source does. */
  method EnhancedSearch(term: string, searchType: SearchType, ms: seq<Municipality>)
    returns (results: seq<Municipality>, searchUsed: string, fallbackApplied: bool)
    ensures fallbackApplied <==> PrimarySearch(searchType, term, ms) == []
    ensures !fallbackApplied ==> results == PrimarySearch(searchType, term, ms) && searchUsed == Label(searchType)
    ensures fallbackApplied ==> results == OtherSearch(searchType, term, ms) && searchUsed == FallbackLabel(searchType)
    ensures results == SearchResults(term, searchType, ms)
  {
    results := [];
    fallbackApplied := false;
    searchUsed := Label(searchType);
    if searchType == ByGovernorate {
      results := SearchByGovernorate(term, ms);
      if |results| == 0 {
        results := SearchByDelegation(term, ms);
        fallbackApplied := true;
        searchUsed := "delegation (fallback)";
      }
    } else {
      results := SearchByDelegation(term, ms);
      if |results| == 0 {
        results := SearchByGovernorate(term, ms);
        fallbackApplied := true;
        searchUsed := "governorate (fallback)";
      }
    }
  }

  /** A term that names no governorate but some delegation makes the
      governorate-primary search fall back to the delegation search. */
  lemma FallbackToDelegations(term: string, ms: seq<Municipality>, m: Municipality, d: Delegation)
    requires forall g :: g in ms ==> !GovernorateMatches(term, g)
    requires m in ms && d in m.Delegations && DelegationMatches(term, d)
    ensures SearchResults(term, ByGovernorate, ms) == SearchByDelegation(term, ms) != []
  {
    assert SearchByGovernorate(term, ms) == [];
    assert SearchByDelegation(term, ms) != [] by {
      assert DelegationTest(term)(d);
      assert Project(DelegationTest(term), m) in SearchByDelegation(term, ms);
    }
  }
}

/** The worked example of a one-governorate dataset. */
module SearchExample {
  import opened Text
  import opened Seqs
  import opened Municipalities
  import opened Search

  function ArianaVille(): Delegation {
    Delegation("ARIANA VILLE", "أريانة المدينة", "ARIANA VILLE", "2058", 36.866011, 10.193923)
  }

  function Ariana(): Municipality {
    Municipality("ARIANA", "أريانة", "ARIANA", [ArianaVille()])
  }

  /** `name=ariana` finds the governorate whole, without falling back. */
  lemma ArianaByName()
    ensures SearchResults("ariana", ByGovernorate, [Ariana()]) == [Ariana()]
  {
    assert Lower("ARIANA") == "ariana";
    assert Lower("ariana") == "ariana";
    assert StartsWith("ariana", "ariana");
    assert GovernorateMatches("ariana", Ariana());
    FilterAll(m => GovernorateMatches("ariana", m), [Ariana()]);
  }

  /** "ARIANA VILLE" is longer than either name of the governorate, so it
      names no governorate. */
  lemma ArianaVilleNamesNoGovernorate()
    ensures SearchByGovernorate("ARIANA VILLE", [Ariana()]) == []
  {
    var term := "ARIANA VILLE";
    assert !GovernorateMatches(term, Ariana()) by {
      ContainsIffOccurs(Lower("ARIANA"), Lower(term));
      ContainsIffOccurs(Lower("أريانة"), Lower(term));
    }
  }

  /** "ARIANA VILLE" names the governorate's only delegation. */
  lemma ArianaVilleNamesDelegation()
    ensures SearchByDelegation("ARIANA VILLE", [Ariana()]) == [Ariana()]
  {
    OneMatchingDelegation("ARIANA VILLE", Ariana(), ArianaVille());
  }

  /** A governorate whose one delegation is named by the term comes through
      the delegation search whole. */
  lemma OneMatchingDelegation(term: string, m: Municipality, d: Delegation)
    requires m.Delegations == [d] && d.Name == term
    ensures SearchByDelegation(term, [m]) == [m]
  {
    assert StartsWith(Lower(term), Lower(term));
    assert DelegationMatches(term, d);
    SearchByDelegationKeepsFullMatches(term, [m]);
  }

  /** `search=ARIANA VILLE` falls back from the governorate search to the
      delegation search, which keeps the governorate with its matching delegation. */
  lemma ArianaVilleFallsBack()
    ensures SearchResults("ARIANA VILLE", ByGovernorate, [Ariana()]) == [Ariana()]
  {
    ArianaVilleNamesNoGovernorate();
    ArianaVilleNamesDelegation();
  }

  /** The postal code "2058" keeps the governorate whole; "20580", of which
      "2058" is a prefix, keeps nothing. */
  lemma ArianaPostalCode()
    ensures FilterByPostalCode("2058", [Ariana()]) == [Ariana()]
    ensures FilterByPostalCode("20580", [Ariana()]) == []
  {
    NarrowFixed(PostalTest("2058"), [Ariana()]);
    assert FilterByPostalCode("20580", [Ariana()]) == [] by {
      var keep := PostalTest("20580");
      assert !keep(ArianaVille());
      assert Project(keep, Ariana()).Delegations == [];
      assert ProjectAll(keep, [Ariana()]) == [Project(keep, Ariana())];
    }
  }
}
