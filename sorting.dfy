/** `sortMunicipalities` of app/api/municipalities/route.ts: an in-place sort
    of the governorate list by lower-cased English or Arabic name. */
module Sorting {
  import opened Text
  import opened Municipalities

  /** The locale-aware string comparisons the sort uses, as relations:
      `defaultLocale(x, y)` stands for `x.localeCompare(y) <= 0`, compared in
      the runtime's default locale (no locale argument is passed), and
      `arabic(x, y)` for `x.localeCompare(y, "ar") <= 0`. */
  datatype Collation = Collation(defaultLocale: (string, string) -> bool, arabic: (string, string) -> bool)

  /** Any two strings are comparable, and the relation is transitive. */
  ghost predicate TotalPreorder(le: (string, string) -> bool) {
    && (forall x, y :: le(x, y) || le(y, x))
    && (forall x, y, z :: le(x, y) && le(y, z) ==> le(x, z))
  }

  ghost predicate ValidCollation(c: Collation) {
    TotalPreorder(c.defaultLocale) && TotalPreorder(c.arabic)
  }

  /** The comparator of the sort does not put `b` strictly before `a`
      (it returns a value `<= 0`). For a field other than "name" and "nameAr"
      the comparator returns 0, so every pair may stay as it is. */
  predicate Precedes(c: Collation, sortField: string, ascending: bool, a: Municipality, b: Municipality) {
    if sortField == "name" then
      var fieldA, fieldB := Lower(a.Name), Lower(b.Name);
      if ascending then c.defaultLocale(fieldA, fieldB) else c.defaultLocale(fieldB, fieldA)
    else if sortField == "nameAr" then
      var fieldA, fieldB := Lower(a.NameAr), Lower(b.NameAr);
      if ascending then c.arabic(fieldA, fieldB) else c.arabic(fieldB, fieldA)
    else
      true
  }

  /** Every governorate may precede every later one. */
  ghost predicate Sorted(c: Collation, sortField: string, ascending: bool, s: seq<Municipality>) {
    forall i, j :: 0 <= i < j < |s| ==> Precedes(c, sortField, ascending, s[i], s[j])
  }

  /** The comparator orders any two governorates one way or the other. */
  lemma PrecedesTotal(c: Collation, sortField: string, ascending: bool, a: Municipality, b: Municipality)
    requires ValidCollation(c)
    ensures Precedes(c, sortField, ascending, a, b) || Precedes(c, sortField, ascending, b, a)
  {
  }

  /** The comparator is transitive. */
  lemma PrecedesTransitive(c: Collation, sortField: string, ascending: bool, a: Municipality, b: Municipality, d: Municipality)
    requires ValidCollation(c)
    requires Precedes(c, sortField, ascending, a, b) && Precedes(c, sortField, ascending, b, d)
    ensures Precedes(c, sortField, ascending, a, d)
  {
  }

  /** Exchanges two neighbouring elements of the array. */
  method SwapAdjacent(a: array<Municipality>, j: nat)
    requires 0 < j < a.Length
    modifies a
    ensures a[..] == old(a[..])[j - 1 := old(a[j])][j := old(a[j - 1])]
    ensures multiset(a[..]) == multiset(old(a[..]))
  {
    a[j - 1], a[j] := a[j], a[j - 1];
  }

  /** One insertion step: `a[..i]` is sorted, and `a[i]` is moved left past
      every element it must strictly precede, so that `a[..i + 1]` is sorted. */
  method InsertNext(a: array<Municipality>, i: nat, c: Collation, sortField: string, ascending: bool)
    requires ValidCollation(c)
    requires i < a.Length && Sorted(c, sortField, ascending, a[..i])
    modifies a
    ensures Sorted(c, sortField, ascending, a[..i + 1])
    ensures multiset(a[..]) == multiset(old(a[..]))
    ensures a[i + 1..] == old(a[i + 1..])
    ensures sortField != "name" && sortField != "nameAr" ==> a[..] == old(a[..])
  {
    var j := i;
    while j > 0 && !Precedes(c, sortField, ascending, a[j - 1], a[j])
      invariant 0 <= j <= i
      invariant forall k, l :: 0 <= k < l <= i && k != j && l != j ==> Precedes(c, sortField, ascending, a[k], a[l])
      invariant forall l :: j < l <= i ==> Precedes(c, sortField, ascending, a[j], a[l])
      invariant multiset(a[..]) == multiset(old(a[..]))
      invariant a[i + 1..] == old(a[i + 1..])
      invariant sortField != "name" && sortField != "nameAr" ==> a[..] == old(a[..])
    {
      PrecedesTotal(c, sortField, ascending, a[j - 1], a[j]);
      SwapAdjacent(a, j);
      j := j - 1;
    }
    forall k | 0 <= k < j
      ensures Precedes(c, sortField, ascending, a[k], a[j])
    {
      if k < j - 1 {
        PrecedesTransitive(c, sortField, ascending, a[k], a[j - 1], a[j]);
      }
    }
  }

  /** `municipalities.sort(...)`: sorts the array in place by the lower-cased
      `Name` ("name") or `NameAr` ("nameAr"), ascending when `sortOrder` is "asc"
      and descending otherwise. Elements are only ever swapped when strictly out
      of order, so for any other field the array is left as it is. */
  method SortMunicipalities(a: array<Municipality>, sortField: string, sortOrder: string, c: Collation)
    requires ValidCollation(c)
    modifies a
    ensures multiset(a[..]) == multiset(old(a[..]))
    ensures Sorted(c, sortField, sortOrder == "asc", a[..])
    ensures sortField != "name" && sortField != "nameAr" ==> a[..] == old(a[..])
  {
    var ascending := sortOrder == "asc";
    var i := 0;
    while i < a.Length
      invariant 0 <= i <= a.Length
      invariant Sorted(c, sortField, ascending, a[..i])
      invariant multiset(a[..]) == multiset(old(a[..]))
      invariant sortField != "name" && sortField != "nameAr" ==> a[..] == old(a[..])
    {
      InsertNext(a, i, c, sortField, ascending);
      i := i + 1;
    }
    assert a[..a.Length] == a[..];
  }
}
