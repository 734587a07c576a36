/**
 * The two string operations the matcher applies to line-item descriptions:
 * `str.lower()` (restricted to ASCII letters) and the substring test `a in b`.
 */
module Text {

  predicate IsUpper(c: char) { 'A' <= c <= 'Z' }

  function LowerChar(c: char): char
  {
    if IsUpper(c) then (c as int + 32) as char else c
  }

  /** `s.lower()`: every ASCII capital replaced by its small letter, everything else kept. */
  function Lower(s: string): (r: string)
    ensures |r| == |s|
    ensures forall i :: 0 <= i < |r| ==> !IsUpper(r[i])
    ensures SameIgnoringCase(s, r)
  {
    seq(|s|, i requires 0 <= i < |s| => LowerChar(s[i]))
  }

  /** Lowering an already lowered string changes nothing. */
  lemma LowerIdempotent(s: string)
    ensures Lower(Lower(s)) == Lower(s)
  {
  }

  /**
   * `s` and `t` differ only in the case of ASCII letters: at each position the
   * characters are equal, or one is a capital and the other its small letter.
   */
  predicate SameIgnoringCase(s: string, t: string)
  {
    |s| == |t| &&
    forall i :: 0 <= i < |s| ==>
      s[i] == t[i] ||
      (IsUpper(s[i]) && t[i] as int == s[i] as int + 32) ||
      (IsUpper(t[i]) && s[i] as int == t[i] as int + 32)
  }

  /** Two strings that differ only in the case of ASCII letters lower to the same string. */
  lemma LowerIgnoresCase(s: string, t: string)
    requires SameIgnoringCase(s, t)
    ensures Lower(s) == Lower(t)
  {
  }

  /** `needle` occurs in `hay` starting at position `i`. */
  predicate OccursAt(needle: string, hay: string, i: nat)
  {
    i + |needle| <= |hay| && hay[i..i + |needle|] == needle
  }

  /** Python's `needle in hay` on strings: a left-to-right search for a window equal to `needle`. */
  predicate Contains(needle: string, hay: string)
    decreases |hay|
    ensures Contains(needle, hay) ==> |needle| <= |hay|
    ensures needle == [] ==> Contains(needle, hay)
  {
    |needle| <= |hay| &&
    (hay[..|needle|] == needle || (hay != [] && Contains(needle, hay[1..])))
  }

  /** The search finds `needle` exactly when some window of `hay` equals it. */
  lemma {:induction false} ContainsIff(needle: string, hay: string)
    ensures Contains(needle, hay) <==> exists i: nat :: OccursAt(needle, hay, i)
    decreases |hay|
  {
    if |needle| <= |hay| && hay[..|needle|] == needle {
      assert OccursAt(needle, hay, 0);
    } else if |needle| <= |hay| && hay != [] {
      ContainsIff(needle, hay[1..]);
      if Contains(needle, hay[1..]) {
        var i: nat :| OccursAt(needle, hay[1..], i);
        assert hay[1..][i..i + |needle|] == hay[i + 1..i + 1 + |needle|];
        assert OccursAt(needle, hay, i + 1);
      }
      if exists i: nat :: OccursAt(needle, hay, i) {
        var i: nat :| OccursAt(needle, hay, i);
        if i != 0 {
          assert hay[1..][i - 1..i - 1 + |needle|] == hay[i..i + |needle|];
          assert OccursAt(needle, hay[1..], i - 1);
        }
      }
    } else {
      forall i: nat ensures !OccursAt(needle, hay, i) {
      }
    }
  }
}
