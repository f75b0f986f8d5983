/** String matching used by the doctor and appointment queries: the
    `IgnoreCase` and `Containing` keywords of the Spring Data repository
    methods, and String.equalsIgnoreCase. Case folding is ASCII only. */
module Text {

  function LowerChar(c: char): (r: char)
    ensures 'A' <= c <= 'Z' ==> r as int == c as int + 32
    ensures !('A' <= c <= 'Z') ==> r == c
  {
    if 'A' <= c <= 'Z' then (c as int + 32) as char else c
  }

  function ToLower(s: string): (r: string)
    ensures |r| == |s|
    ensures forall i :: 0 <= i < |s| ==> r[i] == LowerChar(s[i])
  {
    if s == [] then [] else [LowerChar(s[0])] + ToLower(s[1..])
  }

  /** String.equalsIgnoreCase (and the `IgnoreCase` equality of a query) */
  predicate EqualsIgnoreCase(a: string, b: string) {
    ToLower(a) == ToLower(b)
  }

  /** `needle` occurs in `hay` starting at position k */
  predicate OccursAt(hay: string, needle: string, k: int) {
    0 <= k && k + |needle| <= |hay| && hay[k..k + |needle|] == needle
  }

  /** String.contains, by scanning the start positions of `hay` from the left. */
  predicate Contains(hay: string, needle: string)
    decreases |hay|
  {
    needle <= hay || (hay != [] && Contains(hay[1..], needle))
  }

  /** Position 0 is the prefix test. */
  lemma OccursAtStart(hay: string, needle: string)
    ensures OccursAt(hay, needle, 0) <==> needle <= hay
  {
    if |needle| <= |hay| {
      assert hay[0..|needle|] == hay[..|needle|];
    }
  }

  /** A position k >= 1 of `hay` is position k - 1 of its tail. */
  lemma OccursInTail(hay: string, needle: string, k: int)
    requires hay != [] && 1 <= k
    ensures OccursAt(hay, needle, k) <==> OccursAt(hay[1..], needle, k - 1)
  {
    if k + |needle| <= |hay| {
      assert hay[1..][k - 1..k - 1 + |needle|] == hay[k..k + |needle|];
    }
  }

  /** Contains holds exactly when the needle occurs at some position. */
  lemma {:induction false} ContainsIffOccurs(hay: string, needle: string)
    ensures Contains(hay, needle) <==> exists k :: OccursAt(hay, needle, k)
    decreases |hay|
  {
    OccursAtStart(hay, needle);
    if hay == [] {
      forall k | OccursAt(hay, needle, k) ensures k == 0 {
      }
    } else {
      ContainsIffOccurs(hay[1..], needle);
      forall k | OccursAt(hay, needle, k) && k != 0 ensures OccursAt(hay[1..], needle, k - 1) {
        OccursInTail(hay, needle, k);
      }
      if Contains(hay[1..], needle) {
        var k :| OccursAt(hay[1..], needle, k);
        OccursInTail(hay, needle, k + 1);
      }
    }
  }

  /** `ContainingIgnoreCase`: case-insensitive substring match. */
  predicate ContainsIgnoreCase(hay: string, needle: string) {
    Contains(ToLower(hay), ToLower(needle))
  }
}
