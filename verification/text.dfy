/** The string operations the search box relies on: lower-casing
    (String.prototype.toLowerCase, restricted here to ASCII letters) and the
    substring test (String.prototype.includes). */
module Text {

  function LowerChar(c: char): char
  {
    if 'A' <= c <= 'Z' then (c as int + 32) as char else c
  }

  /** Lower-casing keeps the length, leaves no ASCII capital behind, and
      changes a character only by mapping a capital to its small letter. */
  function Lower(s: string): (r: string)
    ensures |r| == |s|
    ensures forall i :: 0 <= i < |r| ==> !('A' <= r[i] <= 'Z')
    ensures forall i :: 0 <= i < |s| ==> r[i] == s[i] || ('A' <= s[i] <= 'Z' && r[i] as int == s[i] as int + 32)
  {
    seq(|s|, i requires 0 <= i < |s| => LowerChar(s[i]))
  }

  /** Lower-casing twice is lower-casing once. */
  lemma LowerIdempotent(s: string)
    ensures Lower(Lower(s)) == Lower(s)
  {
  }

  /** `needle` occurs in `hay` starting at position `i`. */
  ghost predicate OccursAt(needle: string, hay: string, i: nat)
  {
    i + |needle| <= |hay| && hay[i..i + |needle|] == needle
  }

  /** Reference definition: some position of `hay` starts a copy of `needle`. */
  ghost predicate IsSubstring(needle: string, hay: string)
  {
    exists i: nat :: i <= |hay| && OccursAt(needle, hay, i)
  }

  /** An occurrence in `hay` that is not at position 0 is an occurrence in
      `hay[1..]`, and every occurrence in `hay[1..]` is one in `hay`. */
  lemma ShiftOccurrence(needle: string, hay: string)
    requires |hay| > 0
    requires !(needle <= hay)
    ensures IsSubstring(needle, hay) <==> IsSubstring(needle, hay[1..])
  {
    if IsSubstring(needle, hay) {
      assert |needle| > |hay| || hay[..|needle|] != needle;
      var i: nat :| i <= |hay| && OccursAt(needle, hay, i);
      assert hay[1..][i - 1..i - 1 + |needle|] == hay[i..i + |needle|];
      assert OccursAt(needle, hay[1..], i - 1);
    }
    if IsSubstring(needle, hay[1..]) {
      var i: nat :| i <= |hay[1..]| && OccursAt(needle, hay[1..], i);
      assert hay[1..][i..i + |needle|] == hay[i + 1..i + 1 + |needle|];
      assert OccursAt(needle, hay, i + 1);
    }
  }

  /** `hay.includes(needle)`: scans the positions of `hay` for a copy of
      `needle`; the empty needle is found everywhere. */
  function Includes(hay: string, needle: string): (b: bool)
    ensures b <==> IsSubstring(needle, hay)
    decreases |hay|
  {
    if needle <= hay then
      assert hay[0..|needle|] == needle;
      assert OccursAt(needle, hay, 0);
      true
    else if |hay| == 0 then
      false
    else
      ShiftOccurrence(needle, hay);
      Includes(hay[1..], needle)
  }
}
