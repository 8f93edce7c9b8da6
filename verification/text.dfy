/**
 * The string helpers the allocator leans on: `toLowerCase()` comparisons
 * (day names, locations, shift preferences), `Array.some` over such
 * comparisons, and the case-sensitive `Array.indexOf`.
 */
module Text {

  /** `toLowerCase()` on one character, for the ASCII range. */
  function LowerChar(c: char): char
  {
    if 'A' <= c <= 'Z' then (c as int - 'A' as int + 'a' as int) as char else c
  }

  function Lower(s: string): (r: string)
    ensures |r| == |s|
    ensures forall i :: 0 <= i < |s| ==> r[i] == LowerChar(s[i])
  {
    if |s| == 0 then [] else [LowerChar(s[0])] + Lower(s[1..])
  }

  /** A string without capitals is its own lower case. */
  lemma LowerOfLowercase(s: string)
    requires forall i :: 0 <= i < |s| ==> !('A' <= s[i] <= 'Z')
    ensures Lower(s) == s
  {
  }

  /** `a.toLowerCase() === b.toLowerCase()` */
  predicate SameIgnoringCase(a: string, b: string)
  {
    Lower(a) == Lower(b)
  }

  /** `xs.some(x => x.toLowerCase() === y.toLowerCase())` */
  predicate ContainsIgnoringCase(xs: seq<string>, y: string)
  {
    exists i :: 0 <= i < |xs| && SameIgnoringCase(xs[i], y)
  }

  /** `xs.indexOf(y)`: strict (case-sensitive) equality, -1 when absent. */
  function IndexOf(xs: seq<string>, y: string): (r: int)
    ensures -1 <= r < |xs|
    ensures r == -1 <==> y !in xs
    ensures 0 <= r ==> xs[r] == y && y !in xs[..r]
  {
    if |xs| == 0 then -1
    else if xs[0] == y then 0
    else
      var k := IndexOf(xs[1..], y);
      assert xs == [xs[0]] + xs[1..];
      if k == -1 then -1
      else
        assert xs[..k + 1] == [xs[0]] + xs[1..][..k];
        k + 1
  }
}
