/**
  Case-insensitive substring matching, as the list query's `contains` filter with
  `mode: 'insensitive'` applies it. Case folding is ASCII only.
 */
module Text {

  function LowerChar(c: char): char
  {
    if 'A' <= c <= 'Z' then (c as int + 32) as char else c
  }

  function Lower(s: string): (r: string)
    ensures |r| == |s|
    ensures forall i :: 0 <= i < |s| ==> r[i] == LowerChar(s[i])
  {
    seq(|s|, i requires 0 <= i < |s| => LowerChar(s[i]))
  }

  /** `needle` occurs in `hay` at position `at`. */
  predicate OccursAt(hay: string, needle: string, at: int)
  {
    0 <= at && at + |needle| <= |hay| && hay[at..at + |needle|] == needle
  }

  predicate Contains(hay: string, needle: string)
  {
    exists at | 0 <= at <= |hay| - |needle| :: OccursAt(hay, needle, at)
  }

  /** `{ contains: needle, mode: 'insensitive' }`. */
  predicate ContainsInsensitive(hay: string, needle: string)
  {
    Contains(Lower(hay), Lower(needle))
  }

  lemma LowerSlice(s: string, i: int, j: int)
    requires 0 <= i <= j <= |s|
    ensures Lower(s)[i..j] == Lower(s[i..j])
  {
    assert forall k :: 0 <= k < j - i ==> Lower(s)[i..j][k] == Lower(s[i..j])[k];
  }

  /** An exact occurrence is also a case-insensitive one. */
  lemma ExactMatchIsInsensitiveMatch(hay: string, needle: string)
    requires Contains(hay, needle)
    ensures ContainsInsensitive(hay, needle)
  {
    var at :| 0 <= at <= |hay| - |needle| && OccursAt(hay, needle, at);
    LowerSlice(hay, at, at + |needle|);
    assert OccursAt(Lower(hay), Lower(needle), at);
  }

  /** Lower-casing is idempotent. */
  lemma LowerIdempotent(s: string)
    ensures Lower(Lower(s)) == Lower(s)
  {
  }

  /** The search ignores the case of both the text and the needle. */
  lemma InsensitiveToCase(hay: string, needle: string)
    ensures ContainsInsensitive(hay, needle) <==> ContainsInsensitive(Lower(hay), Lower(needle))
  {
    LowerIdempotent(hay);
    LowerIdempotent(needle);
  }

  /** A task named "Access Control Policy" is found by the search text "access". */
  lemma SearchExample()
    ensures ContainsInsensitive("Access Control Policy", "access")
    ensures !Contains("Access Control Policy", "access")
  {
    assert OccursAt(Lower("Access Control Policy"), Lower("access"), 0);
    var hay := "Access Control Policy";
    assert forall i :: 0 <= i < |hay| ==> hay[i] != 'a';
    forall at | 0 <= at <= |hay| - 6
      ensures !OccursAt(hay, "access", at)
    {
      assert hay[at..at + 6][0] == hay[at];
    }
  }
}
