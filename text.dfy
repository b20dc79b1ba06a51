/** String operations the query engine and the locale switcher rely on:
    `String.prototype.toLowerCase`, `includes` and `startsWith`. */
module Text {

  /** Case fold of one character. Only the ASCII capitals have a lower-case
      form here; every other character (Arabic letters included) is its own fold. */
  function LowerChar(c: char): (r: char)
    ensures 'A' <= c <= 'Z' ==> 'a' <= r <= 'z' && r as int - c as int == 32
    ensures !('A' <= c <= 'Z') ==> r == c
  {
    if 'A' <= c <= 'Z' then (c as int + 32) as char else c
  }

  /** `s.toLowerCase()`: folds every character, keeps the length. */
  function Lower(s: string): (r: string)
    ensures |r| == |s|
    ensures forall i :: 0 <= i < |s| ==> r[i] == LowerChar(s[i])
  {
    if s == [] then [] else [LowerChar(s[0])] + Lower(s[1..])
  }

  /** `s.startsWith(prefix)`. */
  predicate StartsWith(s: string, prefix: string) {
    |prefix| <= |s| && s[..|prefix|] == prefix
  }

  /** `needle` occurs in `haystack` starting at position `i`. */
  predicate OccursAt(haystack: string, needle: string, i: int) {
    0 <= i && i + |needle| <= |haystack| && haystack[i..i + |needle|] == needle
  }

  /** `haystack.includes(needle)`, computed by trying every start position in turn. */
  predicate Contains(haystack: string, needle: string)
    decreases |haystack|
  {
    StartsWith(haystack, needle) || (haystack != [] && Contains(haystack[1..], needle))
  }

  /** The scan agrees with the definition of substring containment: some start
      position holds an occurrence of the needle. */
  lemma {:induction false} ContainsIffOccurs(haystack: string, needle: string)
    ensures Contains(haystack, needle) <==> exists i :: OccursAt(haystack, needle, i)
    decreases |haystack|
  {
    if StartsWith(haystack, needle) {
      assert OccursAt(haystack, needle, 0);
    } else if haystack == [] {
      assert forall i :: !OccursAt(haystack, needle, i);
    } else {
      var tail := haystack[1..];
      ContainsIffOccurs(tail, needle);
      forall i | OccursAt(haystack, needle, i) ensures i >= 1 && OccursAt(tail, needle, i - 1) {
        assert tail[i - 1..i - 1 + |needle|] == haystack[i..i + |needle|];
      }
      forall i | OccursAt(tail, needle, i) ensures OccursAt(haystack, needle, i + 1) {
        assert tail[i..i + |needle|] == haystack[i + 1..i + 1 + |needle|];
      }
    }
  }

  /** The empty string occurs in every string, so an empty search term matches everything. */
  lemma ContainsEmpty(haystack: string)
    ensures Contains(haystack, [])
  {
  }
}
