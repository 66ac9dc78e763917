/**
 * The two string operations the search filters use: `toLowerCase()`, modelled
 * as ASCII case folding, and `includes(needle)`, substring containment.
 */
module Text {

  /** ASCII `toLowerCase` of one character: upper-case letters map to lower case, all else is kept. */
  function LowerChar(c: char): (r: char)
    ensures !('A' <= r <= 'Z')
    ensures !('A' <= c <= 'Z') ==> r == c
    ensures 'A' <= c <= 'Z' ==> r as int == c as int + 32
  {
    if 'A' <= c <= 'Z' then (c as int - 'A' as int + 'a' as int) as char else c
  }

  function Lower(s: string): (r: string)
    ensures |r| == |s|
    ensures forall i :: 0 <= i < |s| ==> r[i] == LowerChar(s[i])
  {
    seq(|s|, i requires 0 <= i < |s| => LowerChar(s[i]))
  }

  /** `needle` occurs in `hay` starting at position `i`. */
  predicate OccursAt(hay: string, needle: string, i: nat)
  {
    i + |needle| <= |hay| && hay[i..i + |needle|] == needle
  }

  lemma OccursAtShift(hay: string, needle: string, i: nat)
    requires hay != []
    ensures OccursAt(hay[1..], needle, i) <==> OccursAt(hay, needle, i + 1)
  {
    if i + |needle| <= |hay| - 1 {
      assert hay[1..][i..i + |needle|] == hay[i + 1..i + 1 + |needle|];
    }
  }

  /** `hay.includes(needle)`: true exactly when `needle` occurs somewhere in `hay`. */
  function Includes(hay: string, needle: string): (r: bool)
    ensures r <==> exists i: nat :: OccursAt(hay, needle, i)
    decreases |hay|
  {
    if |needle| > |hay| then false
    else if needle <= hay then
      assert OccursAt(hay, needle, 0);
      true
    else
      var r := Includes(hay[1..], needle);
      assert !OccursAt(hay, needle, 0);
      assert r ==> exists i: nat :: OccursAt(hay, needle, i) by {
        if r {
          var i: nat :| OccursAt(hay[1..], needle, i);
          OccursAtShift(hay, needle, i);
        }
      }
      assert (exists i: nat :: OccursAt(hay, needle, i)) ==> r by {
        if exists i: nat :: OccursAt(hay, needle, i) {
          var i: nat :| OccursAt(hay, needle, i);
          assert i > 0;
          OccursAtShift(hay, needle, i - 1);
        }
      }
      r
  }

  /** The empty string is contained in every string, as `"abc".includes("")` is true. */
  lemma IncludesEmpty(hay: string)
    ensures Includes(hay, "")
  {
    assert OccursAt(hay, "", 0);
  }

  /** `hay.toLowerCase().includes(needle.toLowerCase())`. */
  predicate ContainsIgnoringCase(hay: string, needle: string)
  {
    Includes(Lower(hay), Lower(needle))
  }
}
