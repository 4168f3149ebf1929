/** The java.lang.String operations the rewriters rely on: prefix and suffix
    tests, and `replace(target, "")`, which deletes every occurrence of the
    target found by a left-to-right scan. */
module Strings {

  predicate StartsWith(s: string, p: string)
  {
    |p| <= |s| && s[..|p|] == p
  }

  predicate EndsWith(s: string, p: string)
  {
    |p| <= |s| && s[|s| - |p|..] == p
  }

  /** A prefix test says exactly that the string is the prefix followed by something. */
  lemma StartsWithIsPrefix(s: string, p: string)
    ensures StartsWith(s, p) <==> exists t :: s == p + t
  {
    if StartsWith(s, p) {
      assert s == p + s[|p|..];
    }
    if exists t :: s == p + t {
      var t :| s == p + t;
      assert s[..|p|] == p;
    }
  }

  /** `p` occurs in `s` at position `i`. */
  predicate OccursAt(s: string, p: string, i: nat)
  {
    i + |p| <= |s| && s[i..i + |p|] == p
  }

  predicate Occurs(s: string, p: string)
  {
    exists i: nat | i <= |s| :: OccursAt(s, p, i)
  }

  /** `s.replace(p, "")`: scanning from the left, each occurrence of `p` is
      deleted and the scan resumes after it. */
  function RemoveAll(s: string, p: string): (r: string)
    requires |p| > 0
    ensures |r| <= |s|
    ensures !Occurs(s, p) ==> r == s
    decreases |s|
  {
    if |s| < |p| then s
    else if s[..|p|] == p then
      assert OccursAt(s, p, 0);
      RemoveAll(s[|p|..], p)
    else
      NoOccurrenceInTail(s, p);
      [s[0]] + RemoveAll(s[1..], p)
  }

  /** Where `p` does not start `s`, the scan keeps the first character. */
  lemma RemoveAllKeepsFront(s: string, p: string)
    requires |p| > 0 && |s| >= |p| && s[..|p|] != p
    ensures RemoveAll(s, p) == [s[0]] + RemoveAll(s[1..], p)
  {
  }

  lemma NoOccurrenceInTail(s: string, p: string)
    requires |s| > 0
    ensures !Occurs(s, p) ==> !Occurs(s[1..], p)
  {
    if Occurs(s[1..], p) {
      var i: nat :| i <= |s| - 1 && OccursAt(s[1..], p, i);
      assert s[i + 1..i + 1 + |p|] == s[1..][i..i + |p|];
      assert OccursAt(s, p, i + 1);
    }
  }

  /** Where `p` occurs but not at the front, it occurs in the tail. */
  lemma OccursInTail(s: string, p: string)
    requires |s| > 0 && Occurs(s, p) && !OccursAt(s, p, 0)
    ensures Occurs(s[1..], p)
  {
    var i: nat :| i <= |s| && OccursAt(s, p, i);
    assert i > 0;
    assert s[1..][i - 1..i - 1 + |p|] == s[i..i + |p|];
    assert OccursAt(s[1..], p, i - 1);
  }

  /** Where `p` occurs, the scan deletes at least one copy of it. */
  lemma {:induction false} RemoveAllShrinks(s: string, p: string)
    requires |p| > 0 && Occurs(s, p)
    ensures |RemoveAll(s, p)| <= |s| - |p|
    decreases |s|
  {
    var i: nat :| i <= |s| && OccursAt(s, p, i);
    if s[..|p|] != p {
      assert !OccursAt(s, p, 0);
      OccursInTail(s, p);
      RemoveAllShrinks(s[1..], p);
    }
  }
}
