/** The two string operations the sign-in classifier uses: ASCII lower-casing
    and substring search (JavaScript's `toLowerCase` and `includes`). */
module Text {

  /** A letter of the ASCII upper-case range. */
  predicate IsUpper(c: char) {
    'A' <= c <= 'Z'
  }

  /** Lower-cases one character; only ASCII letters are folded. */
  function LowerChar(c: char): (r: char)
    ensures !IsUpper(r)
    ensures IsUpper(c) ==> r as int - c as int == 'a' as int - 'A' as int
    ensures !IsUpper(c) ==> r == c
  {
    if IsUpper(c) then (c as int - 'A' as int + 'a' as int) as char else c
  }

  /** Lower-cases a string character by character. */
  function Lower(s: string): (r: string)
    ensures |r| == |s|
    ensures forall i :: 0 <= i < |s| ==> r[i] == LowerChar(s[i])
  {
    if s == [] then [] else [LowerChar(s[0])] + Lower(s[1..])
  }

  /** `p` occurs in `s` at position `i`. */
  ghost predicate OccursAt(s: string, p: string, i: int) {
    0 <= i <= |s| - |p| && s[i..i + |p|] == p
  }

  /** The reference meaning of substring containment. */
  ghost predicate Occurs(s: string, p: string) {
    exists i :: OccursAt(s, p, i)
  }

  /** Substring search, scanning start positions left to right. */
  function Includes(s: string, p: string): (b: bool)
    ensures b <==> Occurs(s, p)
    decreases |s|
  {
    if |s| < |p| then false
    else if s[..|p|] == p then assert OccursAt(s, p, 0); true
    else OccursShift(s, p); Includes(s[1..], p)
  }

  /** When `p` is not a prefix of `s`, it occurs in `s` iff it occurs in `s[1..]`. */
  lemma OccursShift(s: string, p: string)
    requires |s| >= |p| && s[..|p|] != p
    ensures Occurs(s, p) <==> Occurs(s[1..], p)
  {
    if Occurs(s, p) {
      var i :| OccursAt(s, p, i);
      assert i != 0;
      assert s[1..][i - 1..i - 1 + |p|] == s[i..i + |p|];
      assert OccursAt(s[1..], p, i - 1);
    }
    if Occurs(s[1..], p) {
      var i :| OccursAt(s[1..], p, i);
      assert s[1..][i..i + |p|] == s[i + 1..i + 1 + |p|];
      assert OccursAt(s, p, i + 1);
    }
  }

  /** Whatever contains `big` contains every substring of `big`. */
  lemma {:induction false} OccursTransitive(s: string, big: string, small: string, j: int)
    requires Occurs(s, big)
    requires OccursAt(big, small, j)
    ensures Occurs(s, small)
  {
    var i :| OccursAt(s, big, i);
    forall k | 0 <= k < |small|
      ensures s[i + j + k] == small[k]
    {
      assert small[k] == big[j..j + |small|][k] == big[j + k];
      assert big[j + k] == s[i..i + |big|][j + k];
    }
    assert OccursAt(s, small, i + j);
  }

  /** A pattern holding a character the string lacks does not occur in it. */
  lemma MissingCharacter(s: string, p: string, k: int)
    requires 0 <= k < |p| && p[k] !in s
    ensures !Occurs(s, p)
  {
  }
}
