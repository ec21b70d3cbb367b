/**
  Ascending enumeration of a finite set of keys, as a range-for over a
  std::map visits them: every key exactly once, smallest first, under the
  map's strict total order on keys.
*/
module Sorting {

  ghost predicate StrictTotalOrder<T(!new)>(less: (T, T) -> bool) {
    && (forall x :: !less(x, x))
    && (forall x, y, z :: less(x, y) && less(y, z) ==> less(x, z))
    && (forall x, y :: x != y ==> less(x, y) || less(y, x))
  }

  predicate StrictlyAscending<T>(s: seq<T>, less: (T, T) -> bool) {
    forall i, j :: 0 <= i < j < |s| ==> less(s[i], s[j])
  }

  predicate IsLeast<T(==)>(x: T, keys: set<T>, less: (T, T) -> bool) {
    x in keys && forall y :: y in keys && y != x ==> less(x, y)
  }

  lemma {:induction false} LeastExists<T(!new)>(keys: set<T>, less: (T, T) -> bool)
    requires StrictTotalOrder(less)
    requires keys != {}
    ensures exists x :: IsLeast(x, keys, less)
    decreases |keys|
  {
    var y :| y in keys;
    var rest := keys - {y};
    if rest == {} {
      assert keys == {y};
      assert IsLeast(y, keys, less);
    } else {
      LeastExists(rest, less);
      var z :| IsLeast(z, rest, less);
      if less(y, z) {
        forall w | w in keys && w != y ensures less(y, w) {
          if w != z {
            assert w in rest && less(z, w);
          }
        }
        assert IsLeast(y, keys, less);
      } else {
        forall w | w in keys && w != z ensures less(z, w) {
          if w == y {
            assert y != z && !less(y, z);
          } else {
            assert w in rest;
          }
        }
        assert IsLeast(z, keys, less);
      }
    }
  }

  /** The keys in ascending order. */
  function Ascending<T(!new)>(keys: set<T>, less: (T, T) -> bool): (r: seq<T>)
    requires StrictTotalOrder(less)
    ensures |r| == |keys|
    ensures forall x :: x in r <==> x in keys
    ensures StrictlyAscending(r, less)
    decreases |keys|
  {
    if keys == {} then []
    else
      LeastExists(keys, less);
      var x :| IsLeast(x, keys, less);
      [x] + Ascending(keys - {x}, less)
  }

  /** The first key visited is the smallest one (what matrix.begin() denotes). */
  lemma AscendingStartsAtLeast<T(!new)>(keys: set<T>, less: (T, T) -> bool)
    requires StrictTotalOrder(less)
    requires keys != {}
    ensures IsLeast(Ascending(keys, less)[0], keys, less)
  {
  }

  /** The natural-number order of bucket sizes. */
  function NatLess(a: nat, b: nat): bool { a < b }

  lemma NatLessIsStrictTotal()
    ensures StrictTotalOrder(NatLess)
  {
  }
}
