/** The string operations the events page relies on: `toLowerCase` and `includes`. */
module Text {

  /** Lower-casing of one character, restricted to the ASCII letters (see README). */
  function LowerChar(c: char): (d: char)
    ensures !('A' <= d <= 'Z')
    ensures !('A' <= c <= 'Z') ==> d == c
    ensures 'A' <= c <= 'Z' ==> d as int - c as int == 'a' as int - 'A' as int
  {
    if 'A' <= c <= 'Z' then (c as int - 'A' as int + 'a' as int) as char else c
  }

  /** The reference meaning of "the same letter up to case", independent of `LowerChar`:
      equal, or an ASCII upper-case letter and its lower-case counterpart, either way round. */
  predicate SameUpToCase(a: char, b: char)
  {
    || a == b
    || ('A' <= a <= 'Z' && b as int == a as int + ('a' as int - 'A' as int))
    || ('A' <= b <= 'Z' && a as int == b as int + ('a' as int - 'A' as int))
  }

  /** `String.prototype.toLowerCase`, character by character. */
  function Lower(s: string): (r: string)
    ensures |r| == |s|
    ensures forall i :: 0 <= i < |r| ==> !('A' <= r[i] <= 'Z')
    ensures forall i :: 0 <= i < |r| && !('A' <= s[i] <= 'Z') ==> r[i] == s[i]
    ensures forall i :: 0 <= i < |r| && 'A' <= s[i] <= 'Z' ==> r[i] as int == s[i] as int + ('a' as int - 'A' as int)
  {
    seq(|s|, i requires 0 <= i < |s| => LowerChar(s[i]))
  }

  /** `needle` occurs in `hay` starting at position `i`. */
  ghost predicate OccursAt(hay: string, needle: string, i: int)
  {
    0 <= i && i + |needle| <= |hay| && hay[i..i + |needle|] == needle
  }

  /** The reference meaning of "substring": some position where it occurs. */
  ghost predicate IsSubstring(needle: string, hay: string)
  {
    exists i :: OccursAt(hay, needle, i)
  }

  /** `hay.includes(needle)`: scan the start positions from left to right. */
  predicate Includes(hay: string, needle: string)
    ensures needle == "" ==> Includes(hay, needle)
    ensures Includes(hay, needle) ==> |needle| <= |hay|
    ensures |needle| <= |hay| && hay[..|needle|] == needle ==> Includes(hay, needle)
    decreases |hay|
  {
    |needle| <= |hay| && (hay[..|needle|] == needle || Includes(hay[1..], needle))
  }

  /** `Includes` decides exactly the substring relation. */
  lemma {:induction false} IncludesIffSubstring(hay: string, needle: string)
    ensures Includes(hay, needle) <==> IsSubstring(needle, hay)
    decreases |hay|
  {
    if |needle| <= |hay| {
      if hay[..|needle|] == needle {
        assert OccursAt(hay, needle, 0);
      } else {
        IncludesIffSubstring(hay[1..], needle);
        if Includes(hay[1..], needle) {
          var i :| OccursAt(hay[1..], needle, i);
          assert hay[i + 1..i + 1 + |needle|] == needle by {
            forall k | 0 <= k < |needle|
              ensures hay[i + 1 + k] == needle[k]
            {
              assert hay[1..][i..i + |needle|][k] == hay[1..][i + k];
            }
          }
          assert OccursAt(hay, needle, i + 1);
        }
        if IsSubstring(needle, hay) {
          var i :| OccursAt(hay, needle, i);
          assert i != 0;
          assert hay[1..][i - 1..i - 1 + |needle|] == needle by {
            forall k | 0 <= k < |needle|
              ensures hay[1..][i - 1 + k] == needle[k]
            {
              assert hay[i..i + |needle|][k] == hay[i + k];
            }
          }
          assert OccursAt(hay[1..], needle, i - 1);
        }
      }
    }
  }
}
