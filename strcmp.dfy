/**
 * Byte-wise string comparison as done by `strcmp`: the first differing
 * character decides, and a proper prefix orders before the longer string.
 * Only the sign of the result matters to a sort comparator.
 */
module StrCmp {

  /** -1, 0 or 1 as `a` orders before, equal to, or after `b`. */
  function Compare(a: string, b: string): (r: int)
    ensures -1 <= r <= 1
    ensures r == 0 <==> a == b
  {
    if a == [] && b == [] then 0
    else if a == [] then -1
    else if b == [] then 1
    else if a[0] < b[0] then -1
    else if a[0] > b[0] then 1
    else
      var r := Compare(a[1..], b[1..]);
      assert r == 0 ==> a == [a[0]] + a[1..] == [b[0]] + b[1..] == b;
      r
  }

  /** `a` sorts no later than `b` (the comparator returns at most 0). */
  predicate LexLe(a: string, b: string) {
    Compare(a, b) <= 0
  }

  /** Swapping the arguments flips the sign of the result. */
  lemma {:induction false} CompareAntisymmetric(a: string, b: string)
    ensures Compare(b, a) == -Compare(a, b)
  {
    if a != [] && b != [] && a[0] == b[0] {
      CompareAntisymmetric(a[1..], b[1..]);
    }
  }

  /** Any two strings are ordered one way or the other. */
  lemma LexLeTotal(a: string, b: string)
    ensures LexLe(a, b) || LexLe(b, a)
  {
    CompareAntisymmetric(a, b);
  }

  /** Strings that order both ways are equal. */
  lemma LexLeAntisymmetric(a: string, b: string)
    requires LexLe(a, b) && LexLe(b, a)
    ensures a == b
  {
    CompareAntisymmetric(a, b);
  }

  /** The order is transitive. */
  lemma {:induction false} LexLeTransitive(a: string, b: string, c: string)
    requires LexLe(a, b) && LexLe(b, c)
    ensures LexLe(a, c)
  {
    if a != [] && b != [] && c != [] && a[0] == b[0] == c[0] {
      LexLeTransitive(a[1..], b[1..], c[1..]);
    }
  }

  /** A proper prefix sorts first; this is why equal-width timestamps compare chronologically. */
  lemma {:induction false} PrefixFirst(a: string, b: string)
    requires |a| < |b| && a == b[..|a|]
    ensures Compare(a, b) == -1
  {
    if a != [] {
      assert a[1..] == b[1..][..|a| - 1];
      PrefixFirst(a[1..], b[1..]);
    }
  }

  /** Two timestamps of the form used by the provider. */
  lemma TimestampExample()
    ensures Compare("2024-05-13T09:15:00", "2024-05-13T10:02:41") == -1
  {
    var a, b := "2024-05-13T09:15:00", "2024-05-13T10:02:41";
    assert a == "2024-05-13T0" + a[12..] && b == "2024-05-13T1" + b[12..];
    assert a[..11] == b[..11] && a[11] < b[11];
    CommonPrefixDecides(a, b, 11);
  }

  /** After a common prefix of length `k`, the character at `k` decides. */
  lemma {:induction false} CommonPrefixDecides(a: string, b: string, k: nat)
    requires k < |a| && k < |b| && a[..k] == b[..k] && a[k] < b[k]
    ensures Compare(a, b) == -1
  {
    if k > 0 {
      assert a[0] == a[..k][0] == b[..k][0] == b[0];
      assert a[1..][..k - 1] == a[..k][1..] == b[..k][1..] == b[1..][..k - 1];
      CommonPrefixDecides(a[1..], b[1..], k - 1);
    }
  }
}
