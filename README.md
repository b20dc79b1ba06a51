# Tunisian municipalities query engine, modelled in Dafny

This project models the query engine of the Tunisian municipalities API. The
engine serves a fixed dataset of governorates (`Municipality` records), each
owning an ordered list of delegations. Three parts are modelled.

- **The list endpoint** (`GET /api/municipalities`). It runs at most one text
  search, then an exact postal-code filter, then an optional sort.
  - The search is picked from `search`, `name` and `delegation`, in that order.
    It is case-insensitive substring matching on the English and Arabic names.
  - If the first search mode finds nothing, the other mode runs as a fallback.
  - The sort uses the lower-cased `Name` or `NameAr`, ascending or descending.
- **The nearby endpoint** (`GET /api/municipalities/near`). It keeps the
  delegations within a radius of a point and drops governorates left empty.
  It does nothing unless `lat`, `lng` and `radius` are all truthy numbers.
- **The navigation bar's locale switch.** It rewrites `/en…` and `/ar…` paths
  for another language and reads the language back from a path.

Files and modules:

| file | module | contents |
|---|---|---|
| `text.dfy` | `Text` | `toLowerCase` (ASCII case fold), `includes`, `startsWith` |
| `seqs.dfy` | `Seqs` | `filter` and `map` on sequences, "is a subsequence of" |
| `params.dfy` | `Params` | query parameters as `Option<string>` and their truthiness |
| `municipalities.dfy` | `Municipalities` | the records, and `Narrow`. `Narrow` narrows each governorate's delegations, then drops the empty governorates. The delegation search, the postal filter and the radius filter all share this shape. |
| `search.dfy` | `Search`, `SearchExample` | the searches, the fallback, the postal filter, and a worked one-governorate example |
| `sorting.dfy` | `Sorting` | the in-place sort |
| `list_endpoint.dfy` | `ListEndpoint` | the list endpoint's pipeline |
| `near_endpoint.dfy` | `NearEndpoint` | the nearby endpoint |
| `locale_path.dfy` | `LocalePath` | the locale path rewrite and language detection |

Collaborators that the model takes as parameters:

- The dataset (`@/data/data`) is an input: an `array` for the list endpoint and
  a sequence for the nearby endpoint. `ListEndpoint.Get` has no `modifies`
  clause, so it cannot change the dataset. Its stages work on the copy `data[..]`.
- `localeCompare` is a `Collation`: two relations, each required to be a total
  preorder. `defaultLocale(x, y)` stands for `x.localeCompare(y) <= 0`, which
  compares in the runtime's default locale because no locale is passed.
  `arabic(x, y)` stands for `x.localeCompare(y, "ar") <= 0`.
- `haversineDistance` is a `Distance` parameter over reals.
- `parseFloat` is a parameter returning `NaN` or a real. The only fact assumed
  about it is `parseFloat("0") == 0`.

The code and its documentation disagree in one place. The documentation page
(`components/DocumentationSection.tsx:174`) shows `name` and `delegation`
combined in one query. The handler (`app/api/municipalities/route.ts:171-197`)
honours only one of them. The model follows the handler:
`ListEndpoint.NameOverridesDelegation` states that `delegation` is ignored
whenever `name` is given.

## Model

| member | source | states |
|---|---|---|
| `Text.LowerChar` | app/api/municipalities/route.ts:17-18 | the model's ASCII fold: each capital A-Z maps to the lower-case letter 32 code points above it, and every other character is left unchanged |
| `Text.Lower` | app/api/municipalities/route.ts:17-18 | the model's `toLowerCase`, an ASCII-only fold, keeps the length and folds each character independently. (The real Unicode `toLowerCase` does neither in general.) |
| `Text.StartsWith` | components/Navbar.tsx:52-60 | definition of `startsWith`: the prefix is no longer than the string and equals its first characters |
| `Text.Contains` | app/api/municipalities/route.ts:17-18 | definition of `includes` as a scan: the needle is a prefix here or occurs in the tail. `Text.ContainsIffOccurs` ties it to the substring definition. |
| `Text.ContainsIffOccurs` | app/api/municipalities/route.ts:17-18 | the `includes` scan returns true exactly when the needle occurs at some start position |
| `Text.ContainsEmpty` | app/api/municipalities/route.ts:17-18 | the empty string is contained in every string |
| `Seqs.Map` | app/api/municipalities/route.ts:32-33 | `map` keeps the length, and element i of the result is `f` applied to element i of the input |
| `Seqs.Filter` | app/api/municipalities/route.ts:15-19 | `filter` keeps the passing elements in order, each as often as it occurs, and nothing else |
| `Municipalities.HasDelegations` | app/api/municipalities/route.ts:41 | definition of `item.Delegations.length > 0`, the drop-empty test also used at line 102 and in the nearby endpoint |
| `Municipalities.Project` | app/api/municipalities/route.ts:33-40 | the spread copy keeps `Name`, `NameAr` and `Value`. Its `Delegations` are exactly the passing ones, in order. |
| `Municipalities.ProjectAll` | app/api/municipalities/route.ts:32-40 | the mapped list has the input's length, and element i is governorate i narrowed to its passing delegations |
| `Municipalities.Narrow` | app/api/municipalities/route.ts:32-41 | map then drop-empty. No governorate in the output is empty, and every output delegation passes. Every output governorate is an input one narrowed, and every passing delegation survives in its own governorate. Governorate order is kept, and each non-empty narrowed governorate appears exactly as often as in the mapped list. |
| `Municipalities.NarrowFixed` | app/api/municipalities/route.ts:97-102 | a list of non-empty governorates whose delegations all pass comes through unchanged |
| `Municipalities.NarrowIdempotent` | app/api/municipalities/route.ts:97-102 | narrowing twice with the same test equals narrowing once |
| `Search.SearchByGovernorate` | app/api/municipalities/route.ts:11-20 | the output is the input governorates whose lower-cased `Name` or `NameAr` contains the lower-cased term, in input order, each whole. No others are included. |
| `Search.SearchByDelegation` | app/api/municipalities/route.ts:28-42 | each output governorate is an input one, narrowed to its delegations whose name contains the term. Each matching delegation is kept in its own governorate, and order is kept. No output governorate is empty. Each non-empty narrowed governorate appears as often as its source does in the mapped list. |
| `Search.FilterByPostalCode` | app/api/municipalities/route.ts:93-103 | each remaining delegation's `PostalCode` equals the argument exactly. Every such input delegation is kept, in its own governorate and in order. No empty governorate remains. Each non-empty narrowed governorate appears as often as in the mapped list. |
| `Search.FilterByPostalCodeIdempotent` | app/api/municipalities/route.ts:93-103 | applying the postal filter twice equals applying it once |
| `Search.SearchByDelegationKeepsFullMatches` | app/api/municipalities/route.ts:32-41 | governorates whose delegations all match come through the delegation search unchanged |
| `Search.EmptyTermMatchesEverything` | app/api/municipalities/route.ts:15-41 | an empty term keeps every governorate, and in delegation mode every governorate that has a delegation |
| `Search.GovernorateMatches` | app/api/municipalities/route.ts:16-18 | definition of the governorate test: the governorate's `Name` or `NameAr` matches the term |
| `Search.DelegationMatches` | app/api/municipalities/route.ts:36-38 | definition of the delegation test: the delegation's `Name` or `NameAr` matches the term |
| `Search.DelegationTest` | app/api/municipalities/route.ts:36-38 | definition: the delegation test as a function value, the callback passed to `Delegations.filter` |
| `Search.NameMatches` | app/api/municipalities/route.ts:17-18 | definition of the match test: the lower-cased English or Arabic name contains the lower-cased term |
| `Search.PostalTest` | app/api/municipalities/route.ts:100 | definition of the postal test: the delegation's `PostalCode` equals the argument exactly |
| `Search.Label` | app/api/municipalities/route.ts:60 | definition: `searchUsed` starts as the requested search type, "governorate" or "delegation" |
| `Search.FallbackLabel` | app/api/municipalities/route.ts:70-80 | definition: `searchUsed` after the fallback is "delegation (fallback)" for a governorate search and "governorate (fallback)" for a delegation search |
| `Search.PrimarySearch` | app/api/municipalities/route.ts:62-76 | definition of the `searchType` dispatch: the governorate search for "governorate", the delegation search otherwise |
| `Search.OtherSearch` | app/api/municipalities/route.ts:66-81 | definition of the fallback search: the delegation search after a governorate search, and the governorate search after a delegation search |
| `Search.SearchResults` | app/api/municipalities/route.ts:53-85 | a non-empty primary search is the result. An empty primary search gives exactly the other search over the same input. So the result is empty exactly when both searches are empty. |
| `Search.EnhancedSearch` | app/api/municipalities/route.ts:53-85 | `fallbackApplied` is true exactly when the primary search is empty. Then `results` is the other search over the same input, and `searchUsed` is "delegation (fallback)" or "governorate (fallback)". Otherwise `results` is the primary result and `searchUsed` is the requested type. |
| `Search.FallbackToDelegations` | app/api/municipalities/route.ts:62-71 | a term that matches no governorate but some delegation gives the non-empty delegation search |
| `SearchExample.ArianaByName` | app/api/municipalities/route.ts:62-64 | `name=ariana` returns the ARIANA governorate unmodified |
| `SearchExample.ArianaVilleNamesNoGovernorate` | app/api/municipalities/route.ts:11-20 | "ARIANA VILLE" matches neither name of the ARIANA governorate |
| `SearchExample.ArianaVilleNamesDelegation` | app/api/municipalities/route.ts:28-42 | the delegation search for "ARIANA VILLE" keeps the ARIANA governorate whole |
| `SearchExample.OneMatchingDelegation` | app/api/municipalities/route.ts:28-42 | a governorate whose one delegation is named by the term, in any case, comes through the delegation search whole |
| `SearchExample.ArianaVilleFallsBack` | app/api/municipalities/route.ts:62-71 | `search=ARIANA VILLE` falls back to the delegation search and returns the ARIANA governorate |
| `SearchExample.ArianaPostalCode` | app/api/municipalities/route.ts:93-103 | postal code "2058" keeps the ARIANA governorate whole, and "20580" keeps nothing |
| `Sorting.Precedes` | app/api/municipalities/route.ts:117-136 | definition of the comparator's "`<= 0`". For "name" it compares the lower-cased `Name` in the default locale, and for "nameAr" the lower-cased `NameAr` in the Arabic collation. The arguments are swapped when the order is not "asc". Any other field compares equal. |
| `Sorting.PrecedesTotal` | app/api/municipalities/route.ts:117-136 | the comparator orders any two governorates one way or the other, for any field and order |
| `Sorting.PrecedesTransitive` | app/api/municipalities/route.ts:117-136 | the comparator is transitive, for any field and order |
| `Sorting.SortMunicipalities` | app/api/municipalities/route.ts:112-137 | the array is sorted in place and stays a permutation of its input. The key is the lower-cased `Name` for "name" and the lower-cased `NameAr` for "nameAr". The order is ascending when the order argument is "asc" and descending otherwise. For any other field the array is unchanged. |
| `ListEndpoint.SearchRequest` | app/api/municipalities/route.ts:171-197 | no search is requested exactly when `search`, `name` and `delegation` are all falsy. A requested search always has a non-empty term. |
| `ListEndpoint.SearchStage` | app/api/municipalities/route.ts:171-197 | definition: the input unchanged when no search is requested, otherwise the `enhancedSearch` result for the requested term and type |
| `ListEndpoint.PostalStage` | app/api/municipalities/route.ts:199-203 | definition: the postal filter when `postalCode` is truthy, otherwise the input unchanged |
| `ListEndpoint.SortOrder` | app/api/municipalities/route.ts:207 | `order` or "asc": never empty. It is "asc" or the given non-empty `order`. |
| `ListEndpoint.SortRequested` | app/api/municipalities/route.ts:208-211 | definition: `sort` is exactly "name" or "nameAr" |
| `ListEndpoint.ApplySearch` | app/api/municipalities/route.ts:166-197 | at most one `enhancedSearch` runs: `search`, else `name` (both governorate-primary), else `delegation` (delegation-primary) |
| `Params.Given` | app/api/municipalities/route.ts:171-201 | definition of string-parameter truthiness: present and not "" |
| `ListEndpoint.SortStage` | app/api/municipalities/route.ts:206-213 | the sorted list is a permutation of the current list, ordered by the requested field and order |
| `ListEndpoint.Get` | app/api/municipalities/route.ts:160-215 | the result is the searched list, postal-filtered after the search. It is sorted only when `sort` is exactly "name" or "nameAr", with the order defaulting to "asc"; otherwise it stays in order. A given postal code leaves only exact-code delegations. The dataset is not modified. |
| `ListEndpoint.PostalStageExact` | app/api/municipalities/route.ts:199-203 | after the postal stage every governorate is non-empty and holds only delegations with the requested code |
| `ListEndpoint.SearchOverridesLegacyParameters` | app/api/municipalities/route.ts:171-179 | a given `search` decides the search alone; `name` and `delegation` are ignored |
| `ListEndpoint.NameOverridesDelegation` | app/api/municipalities/route.ts:180-197 | without `search`, a given `name` decides the search; `delegation` is ignored |
| `ListEndpoint.EmptyParameterIsAbsent` | app/api/municipalities/route.ts:171-201 | an empty `search`, `name`, `delegation` or `postalCode` behaves exactly like a missing one |
| `ListEndpoint.NoSearchKeepsEverything` | app/api/municipalities/route.ts:163-197 | without any search parameter the whole dataset copy reaches the postal stage |
| `NearEndpoint.Truthy` | app/api/municipalities/near/route.ts:14 | definition of number truthiness: neither NaN nor 0 |
| `NearEndpoint.ParamText` | app/api/municipalities/near/route.ts:10-12 | definition: the parameter's text when it is truthy, otherwise "0" |
| `NearEndpoint.RadiusTest` | app/api/municipalities/near/route.ts:18-25 | definition of the per-delegation test: the distance from the point to the delegation is at most the radius |
| `NearEndpoint.WithinRadius` | app/api/municipalities/near/route.ts:15-28 | every output delegation has distance <= radius (the boundary is included). Every input delegation within the radius is kept, in its own governorate and in order. No output governorate is empty, and labels and governorate order are kept. Each non-empty narrowed governorate appears as often as in the mapped list. |
| `NearEndpoint.NearResults` | app/api/municipalities/near/route.ts:14-29 | if `lat`, `lng` or `radius` is 0 or NaN, the result is exactly the input dataset. Otherwise it is the radius filter. |
| `NearEndpoint.Get` | app/api/municipalities/near/route.ts:5-31 | a missing or empty `lat`, `lng` or `radius` parses as "0", so the result is exactly the dataset |
| `NearEndpoint.ZeroDisablesFilter` | app/api/municipalities/near/route.ts:10-14 | a point on the equator or the prime meridian, or a radius of 0, returns the whole dataset |
| `NearEndpoint.BoundaryIncluded` | app/api/municipalities/near/route.ts:25 | a delegation at exactly the radius is kept. It stays inside its own governorate, narrowed to the delegations within the radius. |
| `LocalePath.SupportedLanguages` | components/Navbar.tsx:27-30 | definition: the codes the switcher offers, "en" and "ar" |
| `LocalePath.StripLocale` | components/Navbar.tsx:51-54 | a path starting with "/en" or "/ar" loses exactly its first three characters. Any other path is unchanged. |
| `LocalePath.SwitchLanguage` | components/Navbar.tsx:56 | the target path is "/" + langCode followed by the stripped path |
| `LocalePath.DetectLanguage` | components/Navbar.tsx:60 | the detected language is "ar" exactly when the path starts with "/ar", and "en" otherwise |
| `LocalePath.DetectAfterSwitch` | components/Navbar.tsx:27-60 | for "en" and "ar", the language detected from the rewritten path is the language switched to |
| `LocalePath.SwitchOverridesSwitch` | components/Navbar.tsx:51-56 | after a switch to "en" or "ar", a second switch gives what switching directly would |
| `LocalePath.SwitchIdempotent` | components/Navbar.tsx:51-56 | switching to the same language twice gives the same path as switching once |
| `LocalePath.PrefixIsCharacterBased` | components/Navbar.tsx:52-53 | the prefix test is on characters, not on path segments: "/english" strips to "glish", and "/fr/docs" is kept whole |

## Left out

- Text.Lower: folds only ASCII capitals. Unicode `toLowerCase` also folds accented Latin and other cased scripts, which the model leaves unchanged. It can also change the length (`"İ"` becomes two code units) and can fold depending on context (final sigma). The model's fold does neither. Arabic has no case, so Arabic names are unaffected.
- Sorting.SortMunicipalities: does not state that governorates with equal keys keep their input order. `Array.prototype.sort` is stable. The model's insertion sort only swaps strictly out-of-order pairs, but stability is not proved beyond the unknown-field case.
- ListEndpoint.SortStage: does not state that governorates with equal sort keys keep their input order, which the stable `Array.prototype.sort` guarantees. Its contract is a sorted permutation, as in `Sorting.SortMunicipalities`.
- ListEndpoint.Get: when a sort is requested, does not state the order of governorates with equal sort keys, for the same reason as `ListEndpoint.SortStage`.
- Sorting.SortMunicipalities: `localeCompare`, including the Arabic collation, is an abstract total preorder. No actual default-locale or Arabic ordering is claimed.
- `haversineDistance` (`lib/utils`, not part of this model) is a parameter. Its formula, symmetry and zero self-distance are not modelled.
- NearEndpoint.Get: `parseFloat` is a parameter. Only `parseFloat("0") == 0` is assumed. Floating point is modelled as reals plus NaN, so infinities, `-0` as a separate value and rounding are not modelled.
- The imported dataset (`@/data/data`) is not part of this model. It is an arbitrary input.
- Response building and logging are left out: `NextResponse.json`, URL parsing, the `console.log` calls, and the `try/catch` that returns a 500. `searchUsed` and `fallbackApplied` are computed (`Search.EnhancedSearch`) but the handler only logs them, so `ListEndpoint.Get` discards them.
- The navigation bar's React state is left out: `setCurrentLanguage`, `router.push`, the dropdown, and the scroll and resize handlers. Only the path rewrite and the language detection are modelled.
- Presentation components have no query logic and are not modelled: the map, the API playground, the documentation, statistics, feature, hero and footer sections, `app/page.tsx`, and the locale layout and page.
- `i18n/config.ts` is not modelled. It loads message files.
