/**
 * The order in which the report queries sort makes and models.
 *
 * The database orders strings by its collation; this model fixes one total
 * order instead: lexicographic comparison of character codes (ordinal order),
 * in which a proper prefix sorts first.
 */
module Strings {

  /** `a` sorts at or before `b` in ordinal lexicographic order. */
  predicate Le(a: string, b: string)
    decreases |a|
  {
    a == [] || (b != [] && (a[0] < b[0] || (a[0] == b[0] && Le(a[1..], b[1..]))))
  }

  /** `a` sorts strictly before `b`. */
  predicate Lt(a: string, b: string) {
    Le(a, b) && a != b
  }

  lemma {:induction false} LeReflexive(a: string)
    ensures Le(a, a)
  {
    if a != [] {
      LeReflexive(a[1..]);
    }
  }

  lemma {:induction false} LeTotal(a: string, b: string)
    ensures Le(a, b) || Le(b, a)
    decreases |a|
  {
    if a != [] && b != [] && a[0] == b[0] {
      LeTotal(a[1..], b[1..]);
    }
  }

  lemma {:induction false} LeTransitive(a: string, b: string, c: string)
    requires Le(a, b) && Le(b, c)
    ensures Le(a, c)
    decreases |a|
  {
    if a != [] && a[0] == b[0] && b[0] == c[0] {
      LeTransitive(a[1..], b[1..], c[1..]);
    }
  }

  lemma {:induction false} LeAntisymmetric(a: string, b: string)
    requires Le(a, b) && Le(b, a)
    ensures a == b
    decreases |a|
  {
    if a != [] {
      LeAntisymmetric(a[1..], b[1..]);
      assert a == [a[0]] + a[1..] && b == [b[0]] + b[1..];
    }
  }

  /** The three order facts above for one triple, as implications. */
  lemma OrderFacts(a: string, b: string, c: string)
    ensures Le(a, b) || Le(b, a)
    ensures Le(a, b) && Le(b, c) ==> Le(a, c)
    ensures Le(a, b) && Le(b, a) ==> a == b
  {
    LeTotal(a, b);
    if Le(a, b) && Le(b, c) {
      LeTransitive(a, b, c);
    }
    if Le(a, b) && Le(b, a) {
      LeAntisymmetric(a, b);
    }
  }
}
