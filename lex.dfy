/**
 * Python compares `str` values lexicographically by code point: the first
 * position where the two strings differ decides, and a proper prefix comes
 * first. Dafny's `<=` on sequences means "is a prefix of", so the order the
 * "Alphabetically" sort uses is defined here.
 */
module Lex {

  /** `a <= b` on Python strings. */
  predicate LexLe(a: string, b: string)
    decreases |a|
  {
    |a| == 0 ||
    (|b| > 0 && (a[0] < b[0] || (a[0] == b[0] && LexLe(a[1..], b[1..]))))
  }

  /** `a` and `b` agree before position `k` and `a` has the smaller character at `k`. */
  ghost predicate DiffersAt(a: string, b: string, k: int) {
    0 <= k < |a| && k < |b| && a[..k] == b[..k] && a[k] < b[k]
  }

  /**
   * The textbook definition, independent of the recursion above: `a` is a
   * prefix of `b`, or at the first position where they differ `a` has the
   * smaller character.
   */
  ghost predicate FirstDifferenceLe(a: string, b: string) {
    a <= b || exists k :: DiffersAt(a, b, k)
  }

  lemma DiffersAtTail(a: string, b: string, k: int)
    requires |a| > 0 && |b| > 0 && k > 0
    ensures DiffersAt(a, b, k) <==> a[0] == b[0] && DiffersAt(a[1..], b[1..], k - 1)
  {
    if k <= |a| && k <= |b| {
      assert a[..k] == [a[0]] + a[1..][..k - 1];
      assert b[..k] == [b[0]] + b[1..][..k - 1];
    }
  }

  lemma PrefixTail(a: string, b: string)
    requires |a| > 0 && |b| > 0
    ensures a <= b <==> a[0] == b[0] && a[1..] <= b[1..]
  {
  }

  /** When the first characters agree, the textbook order is decided by the tails. */
  lemma FirstDifferenceTail(a: string, b: string)
    requires |a| > 0 && |b| > 0 && a[0] == b[0]
    ensures FirstDifferenceLe(a, b) <==> FirstDifferenceLe(a[1..], b[1..])
  {
    PrefixTail(a, b);
    if k :| DiffersAt(a, b, k) {
      DiffersAtTail(a, b, k);
    }
    if k :| DiffersAt(a[1..], b[1..], k) {
      DiffersAtTail(a, b, k + 1);
    }
  }

  /** When the first characters differ, they decide the textbook order. */
  lemma FirstDifferenceHead(a: string, b: string)
    requires |a| > 0 && |b| > 0 && a[0] != b[0]
    ensures FirstDifferenceLe(a, b) <==> a[0] < b[0]
  {
    PrefixTail(a, b);
    if a[0] < b[0] {
      assert DiffersAt(a, b, 0);
    } else {
      forall k | 0 < k ensures !DiffersAt(a, b, k) {
        DiffersAtTail(a, b, k);
      }
    }
  }

  lemma {:induction false} LexLeMeansFirstDifference(a: string, b: string)
    ensures LexLe(a, b) <==> FirstDifferenceLe(a, b)
  {
    if |a| == 0 {
    } else if |b| == 0 {
      assert !(a <= b);
    } else if a[0] != b[0] {
      FirstDifferenceHead(a, b);
    } else {
      FirstDifferenceTail(a, b);
      LexLeMeansFirstDifference(a[1..], b[1..]);
    }
  }

  lemma {:induction false} LexLeReflexive(a: string)
    ensures LexLe(a, a)
  {
    if |a| > 0 {
      LexLeReflexive(a[1..]);
    }
  }

  lemma {:induction false} LexLeAntisymmetric(a: string, b: string)
    requires LexLe(a, b) && LexLe(b, a)
    ensures a == b
  {
    if |a| > 0 && |b| > 0 {
      LexLeAntisymmetric(a[1..], b[1..]);
      assert a == [a[0]] + a[1..];
      assert b == [b[0]] + b[1..];
    }
  }

  lemma {:induction false} LexLeTransitive(a: string, b: string, c: string)
    requires LexLe(a, b) && LexLe(b, c)
    ensures LexLe(a, c)
  {
    if |a| > 0 && |b| > 0 && |c| > 0 && a[0] == b[0] == c[0] {
      LexLeTransitive(a[1..], b[1..], c[1..]);
    }
  }

  lemma {:induction false} LexLeTotal(a: string, b: string)
    ensures LexLe(a, b) || LexLe(b, a)
  {
    if |a| > 0 && |b| > 0 && a[0] == b[0] {
      LexLeTotal(a[1..], b[1..]);
    }
  }
}
