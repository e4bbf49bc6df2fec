/**
 * Character classes and string operations that the Python source takes from
 * its standard library (str.isalnum, str.isalpha, str.lower, str.upper,
 * str.join, str.split, str.rsplit).  Character classes are ASCII only.
 */
module Strings {

  predicate IsAsciiLetter(c: char) {
    'a' <= c <= 'z' || 'A' <= c <= 'Z'
  }

  predicate IsDigit(c: char) {
    '0' <= c <= '9'
  }

  /** str.isalnum on a single character. */
  predicate IsAlnum(c: char) {
    IsAsciiLetter(c) || IsDigit(c)
  }

  /** str.isalpha on a single character. */
  predicate IsAlpha(c: char) {
    IsAsciiLetter(c)
  }

  /** str.isalpha on a whole string: non-empty and every character a letter. */
  predicate IsAlphaString(s: string) {
    |s| > 0 && forall i :: 0 <= i < |s| ==> IsAlpha(s[i])
  }

  function LowerChar(c: char): (r: char)
    ensures 'A' <= c <= 'Z' ==> 'a' <= r <= 'z'
    ensures !('A' <= c <= 'Z') ==> r == c
  {
    if 'A' <= c <= 'Z' then (c as int + 32) as char else c
  }

  function UpperChar(c: char): (r: char)
    ensures 'a' <= c <= 'z' ==> 'A' <= r <= 'Z'
    ensures !('a' <= c <= 'z') ==> r == c
  {
    if 'a' <= c <= 'z' then (c as int - 32) as char else c
  }

  /** str.lower */
  function Lower(s: string): (r: string)
    ensures |r| == |s|
    ensures forall i :: 0 <= i < |s| ==> r[i] == LowerChar(s[i])
  {
    if s == [] then [] else [LowerChar(s[0])] + Lower(s[1..])
  }

  /** str.upper */
  function Upper(s: string): (r: string)
    ensures |r| == |s|
    ensures forall i :: 0 <= i < |s| ==> r[i] == UpperChar(s[i])
  {
    if s == [] then [] else [UpperChar(s[0])] + Upper(s[1..])
  }

  predicate IsLowerString(s: string) {
    forall i :: 0 <= i < |s| ==> !('A' <= s[i] <= 'Z')
  }

  lemma LowerOfLower(s: string)
    requires IsLowerString(s)
    ensures Lower(s) == s
  {
  }

  /** The sum of the lengths of the parts. */
  function TotalLength(parts: seq<string>): nat {
    if parts == [] then 0 else TotalLength(parts[..|parts| - 1]) + |parts[|parts| - 1]|
  }

  /** ''.join(parts) */
  function Concat(parts: seq<string>): (r: string)
    ensures |r| == TotalLength(parts)
    ensures |parts| == 1 ==> r == parts[0]
  {
    if parts == [] then [] else Concat(parts[..|parts| - 1]) + parts[|parts| - 1]
  }

  /** Part i of the join is the text between the lengths of the parts before it and up to it. */
  lemma {:induction false} ConcatPart(parts: seq<string>, i: int)
    requires 0 <= i < |parts|
    ensures TotalLength(parts[..i]) + |parts[i]| == TotalLength(parts[..i + 1]) <= |Concat(parts)|
    ensures Concat(parts)[TotalLength(parts[..i])..TotalLength(parts[..i + 1])] == parts[i]
    decreases |parts|
  {
    var n := |parts| - 1;
    var front := parts[..n];
    assert parts[..i + 1][..i] == parts[..i];
    if i == n {
      assert parts[..i] == front && parts[..i + 1] == parts;
    } else {
      ConcatPart(front, i);
      assert front[..i] == parts[..i] && front[..i + 1] == parts[..i + 1] && front[i] == parts[i];
      assert Concat(parts)[..|Concat(front)|] == Concat(front);
    }
  }

  lemma ConcatAppend(parts: seq<string>, more: seq<string>)
    ensures Concat(parts + more) == Concat(parts) + Concat(more)
  {
    if more == [] {
      assert parts + more == parts;
    } else {
      assert (parts + more)[..|parts + more| - 1] == parts + more[..|more| - 1];
      ConcatAppend(parts, more[..|more| - 1]);
    }
  }

  /** sep.join(parts) */
  function JoinWith(sep: string, parts: seq<string>): string {
    if parts == [] then []
    else if |parts| == 1 then parts[0]
    else JoinWith(sep, parts[..|parts| - 1]) + sep + parts[|parts| - 1]
  }

  /** True iff `sep` occurs in `s` starting at index `i`. */
  predicate OccursAt(s: string, sep: string, i: int) {
    0 <= i && i + |sep| <= |s| && s[i..i + |sep|] == sep
  }

  predicate Contains(s: string, sep: string) {
    exists i | 0 <= i <= |s| :: OccursAt(s, sep, i)
  }

  /** Index of the first occurrence of `sep` in `s` (which must be non-empty), or None. */
  function FindFirst(s: string, sep: string): (r: int)
    requires |sep| > 0
    ensures -1 <= r && (r >= 0 ==> r + |sep| <= |s|)
    ensures r >= 0 ==> OccursAt(s, sep, r)
    ensures r >= 0 ==> forall j :: 0 <= j < r ==> !OccursAt(s, sep, j)
    ensures r < 0 ==> !Contains(s, sep)
    decreases |s|
  {
    if |s| < |sep| then
      assert forall j :: !OccursAt(s, sep, j);
      -1
    else if s[..|sep|] == sep then 0
    else
      var k := FindFirst(s[1..], sep);
      if k < 0 then
        assert forall j :: OccursAt(s, sep, j) ==> j == 0 || OccursAt(s[1..], sep, j - 1);
        -1
      else
        assert forall j :: 1 <= j ==> OccursAt(s, sep, j) == OccursAt(s[1..], sep, j - 1);
        k + 1
  }
}
