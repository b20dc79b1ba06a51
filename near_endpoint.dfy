/** The `GET` handler of app/api/municipalities/near/route.ts without its HTTP
    plumbing: a radius filter around a point, behind a truthiness gate. */
module NearEndpoint {
  import opened Params
  import opened Seqs
  import opened Municipalities

  /** A JavaScript number as `parseFloat` returns it. */
  datatype Number = NaN | Num(value: real)

  /** JavaScript truthiness of a number: neither 0 nor NaN. */
  predicate Truthy(x: Number) {
    x.Num? && x.value != 0.0
  }

  /** The great-circle distance in kilometres between two points given in
      degrees (`haversineDistance(lat1, lng1, lat2, lng2)`). */
  type Distance = (real, real, real, real) -> real

  /** `haversineDistance(userLat, userLng, d.Latitude, d.Longitude) <= radius` */
  function RadiusTest(distance: Distance, lat: real, lng: real, radius: real): Delegation -> bool {
    (d: Delegation) => distance(lat, lng, d.Latitude, d.Longitude) <= radius
  }

  /** The map/filter of lines 15-28: every governorate narrowed to the
      delegations within the radius (boundary included), empty ones dropped. */
  function WithinRadius(distance: Distance, lat: real, lng: real, radius: real, ms: seq<Municipality>)
    : (r: seq<Municipality>)
    ensures IsSubsequence(r, ProjectAll(RadiusTest(distance, lat, lng, radius), ms))
    ensures forall g :: g in r ==>
              g.Delegations != [] && forall d :: d in g.Delegations ==> distance(lat, lng, d.Latitude, d.Longitude) <= radius
    ensures forall g :: g in r ==> exists m :: m in ms && NarrowedFrom(g, m, RadiusTest(distance, lat, lng, radius))
    ensures forall m, d :: m in ms && d in m.Delegations && distance(lat, lng, d.Latitude, d.Longitude) <= radius ==>
              exists g :: g in r && NarrowedFrom(g, m, RadiusTest(distance, lat, lng, radius)) && d in g.Delegations
    ensures forall g :: multiset(r)[g] == if g.Delegations != [] then multiset(ProjectAll(RadiusTest(distance, lat, lng, radius), ms))[g] else 0
  {
    var keep := RadiusTest(distance, lat, lng, radius);
    assert forall d :: keep(d) == (distance(lat, lng, d.Latitude, d.Longitude) <= radius);
    Narrow(keep, ms)
  }

  /** The body of the handler on parsed parameters: the dataset itself unless
      all three of latitude, longitude and radius are truthy. */
  function NearResults(distance: Distance, data: seq<Municipality>, lat: Number, lng: Number, radius: Number)
    : (r: seq<Municipality>)
    ensures !(Truthy(lat) && Truthy(lng) && Truthy(radius)) ==> r == data
    ensures Truthy(lat) && Truthy(lng) && Truthy(radius) ==>
              r == WithinRadius(distance, lat.value, lng.value, radius.value, data)
  {
    if Truthy(lat) && Truthy(lng) && Truthy(radius) then
      WithinRadius(distance, lat.value, lng.value, radius.value, data)
    else
      data
  }

  /** `searchParams.get(name) || "0"` */
  function ParamText(p: Option<string>): string {
    if Given(p) then p.value else "0"
  }

  /** The handler: each parameter is parsed from its text, "0" when missing or
      empty. Since `parseFloat("0")` is 0, a missing parameter disables the filter. */
  function Get(distance: Distance, parseFloat: string -> Number, data: seq<Municipality>,
               lat: Option<string>, lng: Option<string>, radius: Option<string>)
    : (r: seq<Municipality>)
    requires parseFloat("0") == Num(0.0)
    ensures !Given(lat) || !Given(lng) || !Given(radius) ==> r == data
  {
    NearResults(distance, data, parseFloat(ParamText(lat)), parseFloat(ParamText(lng)), parseFloat(ParamText(radius)))
  }

  /** The zero-value gate: a point on the equator or meridian, or a radius of
      exactly 0, returns the whole dataset rather than filtering. */
  lemma ZeroDisablesFilter(distance: Distance, data: seq<Municipality>, lat: real, lng: real, radius: real)
    requires lat == 0.0 || lng == 0.0 || radius == 0.0
    ensures NearResults(distance, data, Num(lat), Num(lng), Num(radius)) == data
  {
  }

  /** A delegation at exactly the radius is kept, inside its own governorate. */
  lemma BoundaryIncluded(distance: Distance, data: seq<Municipality>, lat: real, lng: real, radius: real,
                         m: Municipality, d: Delegation)
    requires lat != 0.0 && lng != 0.0 && radius != 0.0
    requires m in data && d in m.Delegations && distance(lat, lng, d.Latitude, d.Longitude) == radius
    ensures exists g :: g in NearResults(distance, data, Num(lat), Num(lng), Num(radius)) &&
              NarrowedFrom(g, m, RadiusTest(distance, lat, lng, radius)) && d in g.Delegations
  {
  }
}
