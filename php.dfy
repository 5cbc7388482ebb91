/**
 * The pieces of PHP's own semantics that the handlers lean on:
 * `empty()` on a string and the `<` comparison of two non-numeric strings.
 */
module Php {

  /** `empty($s)` for a string: true for "" and, PHP being PHP, for "0". */
  predicate Blank(s: string): (r: bool)
    ensures r ==> |s| <= 1
    ensures |s| == 1 ==> (r <==> s[0] == '0')
    ensures |s| == 0 ==> r
  {
    s == "" || s == "0"
  }

  /**
   * `$a < $b` on two strings that are not numeric (a `Y-m-d` date is not):
   * byte-wise comparison, a proper prefix sorting first.
   */
  predicate LexLess(a: string, b: string): (r: bool)
    ensures r ==> a != b
    ensures |a| < |b| && a == b[..|a|] ==> r
    ensures |b| <= |a| && b == a[..|b|] ==> !r
  {
    if |a| == 0 then |b| > 0
    else if |b| == 0 then false
    else if a[0] != b[0] then a[0] < b[0]
    else LexLess(a[1..], b[1..])
  }

  /** No string is before itself: this is what makes a same-day reset check a no-op. */
  lemma {:induction false} LexLessIrreflexive(a: string)
    ensures !LexLess(a, a)
  {
    if |a| > 0 {
      LexLessIrreflexive(a[1..]);
    }
  }

  /** Exactly one of `a < b`, `a == b`, `b < a` holds. */
  lemma {:induction false} LexLessTrichotomy(a: string, b: string)
    ensures LexLess(a, b) || a == b || LexLess(b, a)
    ensures !(LexLess(a, b) && LexLess(b, a))
    ensures LexLess(a, b) ==> a != b
  {
    if |a| > 0 && |b| > 0 {
      LexLessTrichotomy(a[1..], b[1..]);
      if a[0] == b[0] && a[1..] == b[1..] {
        assert a == [a[0]] + a[1..] && b == [b[0]] + b[1..];
      }
    }
    if a == b {
      LexLessIrreflexive(a);
    }
  }

  /** Comparing two concatenations whose first parts have the same length. */
  lemma {:induction false} LexLessAppend(a1: string, a2: string, b1: string, b2: string)
    requires |a1| == |b1|
    ensures LexLess(a1 + a2, b1 + b2) <==> LexLess(a1, b1) || (a1 == b1 && LexLess(a2, b2))
  {
    if |a1| == 0 {
      assert a1 + a2 == a2 && b1 + b2 == b2;
    } else {
      assert (a1 + a2)[0] == a1[0] && (b1 + b2)[0] == b1[0];
      assert (a1 + a2)[1..] == a1[1..] + a2;
      assert (b1 + b2)[1..] == b1[1..] + b2;
      LexLessAppend(a1[1..], a2, b1[1..], b2);
      assert a1 == [a1[0]] + a1[1..] && b1 == [b1[0]] + b1[1..];
    }
  }

  /** Two concatenations whose first parts have the same length are equal iff both parts are. */
  lemma AppendEqual(a1: string, a2: string, b1: string, b2: string)
    requires |a1| == |b1|
    ensures a1 + a2 == b1 + b2 <==> a1 == b1 && a2 == b2
  {
    if a1 + a2 == b1 + b2 {
      assert a1 == (a1 + a2)[..|a1|] && b1 == (b1 + b2)[..|b1|];
      assert a2 == (a1 + a2)[|a1|..] && b2 == (b1 + b2)[|b1|..];
    }
  }
}
