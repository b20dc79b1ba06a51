/** The records the API serves (types/index.ts) and the one shape shared by
    every delegation-level filter of the engine: narrow each governorate's
    delegations, then drop the governorates left with none. */
module Municipalities {
  import opened Seqs

  /** A delegation: a sub-division of a governorate. Coordinates are WGS84 degrees. */
  datatype Delegation = Delegation(
    Name: string,
    NameAr: string,
    Value: string,
    PostalCode: string,
    Latitude: real,
    Longitude: real)

  /** A governorate (`Municipality` in the source) owning an ordered list of delegations. */
  datatype Municipality = Municipality(
    Name: string,
    NameAr: string,
    Value: string,
    Delegations: seq<Delegation>)

  /** `item.Delegations.length > 0` */
  predicate HasDelegations(m: Municipality) {
    m.Delegations != []
  }

  /** `g` is a copy of `m` with the same labels whose delegations are exactly
      those of `m` that pass `keep`, in their original order. */
  ghost predicate NarrowedFrom(g: Municipality, m: Municipality, keep: Delegation -> bool) {
    && g.Name == m.Name && g.NameAr == m.NameAr && g.Value == m.Value
    && IsSubsequence(g.Delegations, m.Delegations)
    && (forall d :: d in g.Delegations <==> d in m.Delegations && keep(d))
    && (forall d :: multiset(g.Delegations)[d] == if keep(d) then multiset(m.Delegations)[d] else 0)
  }

  /** `{ ...item, Delegations: item.Delegations.filter(keep) }`: a copy of the
      governorate whose delegations are the ones that pass, in their order. */
  function Project(keep: Delegation -> bool, m: Municipality): (r: Municipality)
    ensures NarrowedFrom(r, m, keep)
  {
    m.(Delegations := Filter(keep, m.Delegations))
  }

  /** `municipalities.map(item => ({ ...item, Delegations: ... }))` */
  function ProjectAll(keep: Delegation -> bool, ms: seq<Municipality>): (r: seq<Municipality>)
    ensures |r| == |ms|
    ensures forall i :: 0 <= i < |ms| ==> r[i] == Project(keep, ms[i])
  {
    Map(m => Project(keep, m), ms)
  }

  /** The map-then-filter shape: every governorate narrowed to the delegations
      that pass `keep`, governorates left empty dropped. */
  function Narrow(keep: Delegation -> bool, ms: seq<Municipality>): (r: seq<Municipality>)
    ensures |r| <= |ms|
    // governorate order is kept
    ensures IsSubsequence(r, ProjectAll(keep, ms))
    // no empty governorate, and only delegations that pass
    ensures forall g :: g in r ==> g.Delegations != [] && forall d :: d in g.Delegations ==> keep(d)
    // every output governorate is an input one, narrowed
    ensures forall g :: g in r ==> exists m :: m in ms && g == Project(keep, m)
    // every delegation that passes survives inside its own governorate
    ensures forall m, d :: m in ms && d in m.Delegations && keep(d) ==> Project(keep, m) in r
    ensures forall m, d :: m in ms && d in m.Delegations && keep(d) ==>
              exists g :: g in r && NarrowedFrom(g, m, keep) && d in g.Delegations
    // each non-empty narrowed governorate appears as often as in the projected list
    ensures forall g :: multiset(r)[g] == if g.Delegations != [] then multiset(ProjectAll(keep, ms))[g] else 0
  {
    ProjectAllMembers(keep, ms);
    Filter(HasDelegations, ProjectAll(keep, ms))
  }

  /** The projected list holds exactly the projections of the input governorates. */
  lemma ProjectAllMembers(keep: Delegation -> bool, ms: seq<Municipality>)
    ensures forall m :: m in ms ==> Project(keep, m) in ProjectAll(keep, ms)
    ensures forall g :: g in ProjectAll(keep, ms) ==> exists m :: m in ms && g == Project(keep, m)
  {
    var projected := ProjectAll(keep, ms);
    forall m | m in ms ensures Project(keep, m) in projected {
      var i :| 0 <= i < |ms| && ms[i] == m;
      assert projected[i] == Project(keep, m);
    }
    forall g | g in projected ensures exists m :: m in ms && g == Project(keep, m) {
      var i :| 0 <= i < |projected| && projected[i] == g;
      assert ms[i] in ms;
    }
  }

  /** A list that already consists of non-empty governorates whose delegations
      all pass comes through the narrowing unchanged. */
  lemma NarrowFixed(keep: Delegation -> bool, ms: seq<Municipality>)
    requires forall g :: g in ms ==> g.Delegations != [] && forall d :: d in g.Delegations ==> keep(d)
    ensures Narrow(keep, ms) == ms
  {
    forall g | g in ms ensures Project(keep, g) == g {
      FilterAll(keep, g.Delegations);
    }
    MapIdentity(m => Project(keep, m), ms);
    FilterAll(HasDelegations, ms);
  }

  /** Narrowing twice with the same test is narrowing once. */
  lemma NarrowIdempotent(keep: Delegation -> bool, ms: seq<Municipality>)
    ensures Narrow(keep, Narrow(keep, ms)) == Narrow(keep, ms)
  {
    NarrowFixed(keep, Narrow(keep, ms));
  }
}
