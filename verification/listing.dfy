/**
 * Listing records in a model's default ordering.  The datastore returns a
 * queryset sorted by the model's `Meta.ordering`; here that is a stable
 * insertion sort by a "may be listed before" relation.
 */
module Listing {
  /** `before` is total (any two records compare) and transitive. */
  ghost predicate TotalPreorder<T(!new)>(before: (T, T) -> bool)
  {
    && (forall a, b :: before(a, b) || before(b, a))
    && (forall a, b, c :: before(a, b) && before(b, c) ==> before(a, c))
  }

  /** Every record is listed before every record after it. */
  predicate ListedBy<T>(s: seq<T>, before: (T, T) -> bool)
  {
    forall i, j :: 0 <= i < j < |s| ==> before(s[i], s[j])
  }

  /** Inserts `x` in front of the first record it may precede. */
  function Insert<T>(x: T, s: seq<T>, before: (T, T) -> bool): (r: seq<T>)
    ensures multiset(r) == multiset(s) + multiset{x}
  {
    if s == [] then [x]
    else if before(x, s[0]) then [x] + s
    else
      assert s == [s[0]] + s[1..];
      [s[0]] + Insert(x, s[1..], before)
  }

  /** The records of `s`, listed by `before`. */
  function SortBy<T>(s: seq<T>, before: (T, T) -> bool): (r: seq<T>)
    ensures multiset(r) == multiset(s)
  {
    if s == [] then []
    else
      assert s == [s[0]] + s[1..];
      Insert(s[0], SortBy(s[1..], before), before)
  }

  /** Inserting into a listing keeps it a listing. */
  lemma {:induction false} InsertListed<T(!new)>(x: T, s: seq<T>, before: (T, T) -> bool)
    requires TotalPreorder(before) && ListedBy(s, before)
    ensures ListedBy(Insert(x, s, before), before)
  {
    if s != [] {
      var r := Insert(x, s, before);
      if before(x, s[0]) {
        forall i, j | 0 <= i < j < |r| ensures before(r[i], r[j]) {
          if i == 0 && j > 1 {
            assert before(s[0], s[j - 1]);
          } else if i > 0 {
            assert r[i] == s[i - 1] && r[j] == s[j - 1];
          }
        }
      } else {
        var t := Insert(x, s[1..], before);
        assert ListedBy(s[1..], before) by {
          forall i, j | 0 <= i < j < |s[1..]| ensures before(s[1..][i], s[1..][j]) {
            assert s[1..][i] == s[i + 1] && s[1..][j] == s[j + 1];
          }
        }
        InsertListed(x, s[1..], before);
        assert before(s[0], x);
        forall i, j | 0 <= i < j < |r| ensures before(r[i], r[j]) {
          if i == 0 {
            var y := t[j - 1];
            assert y in multiset(t);
            assert y == x || y in multiset(s[1..]);
            if y != x {
              var k :| 0 <= k < |s[1..]| && s[1..][k] == y;
              assert s[1..][k] == s[k + 1];
            }
          } else {
            assert r[i] == t[i - 1] && r[j] == t[j - 1];
          }
        }
      }
    }
  }

  /** Sorting by a total preorder yields a listing. */
  lemma {:induction false} SortByListed<T(!new)>(s: seq<T>, before: (T, T) -> bool)
    requires TotalPreorder(before)
    ensures ListedBy(SortBy(s, before), before)
  {
    if s != [] {
      SortByListed(s[1..], before);
      InsertListed(s[0], SortBy(s[1..], before), before);
    }
  }
}
