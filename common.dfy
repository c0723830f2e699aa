/** Shared vocabulary: optional values, the range of a 32-bit INTEGER
    column, and the order in which the store hands back the rows of a table. */
module Common {

  datatype Option<+T> = None | Some(value: T)

  /** Bounds of a 32-bit SQL INTEGER column; the store refuses any write outside them. */
  const Int32Min: int := -0x8000_0000
  const Int32Max: int := 0x7fff_ffff

  predicate InInt32(n: int) {
    Int32Min <= n <= Int32Max
  }

  /** Python's int() applied to a quotient: truncation toward zero
      (Dafny's own / on int is Euclidean). */
  function TruncDiv(a: int, b: int): int
    requires b > 0
  {
    if a >= 0 then a / b else -((-a) / b)
  }

  predicate Distinct<T(==)>(s: seq<T>) {
    forall i, j :: 0 <= i < j < |s| ==> s[i] != s[j]
  }

  function Elements<T>(s: seq<T>): set<T> {
    set x | x in s
  }

  /** A sequence without repetitions has exactly as many elements as its set. */
  lemma {:induction false} DistinctCardinality<T>(s: seq<T>)
    requires Distinct(s)
    ensures |Elements(s)| == |s|
  {
    if s != [] {
      var init, last := s[..|s| - 1], s[|s| - 1];
      assert Distinct(init);
      DistinctCardinality(init);
      assert s == init + [last];
      assert Elements(s) == Elements(init) + {last};
      assert last !in Elements(init) by {
        forall k | 0 <= k < |init| ensures init[k] != last {
          assert s[k] == init[k];
        }
      }
    }
  }

  /** Some element of a non-empty set. */
  lemma Pick<T>(s: set<T>) returns (x: T)
    requires s != {}
    ensures x in s
  {
    if forall y :: y !in s {
      assert false;
    }
    x :| x in s;
  }

  /** The rows of a table come back in an order the store chooses: some
      enumeration of the keys, each key exactly once. */
  method Enumerate<K(==)>(keys: set<K>) returns (order: seq<K>)
    ensures Distinct(order)
    ensures Elements(order) == keys
  {
    order := [];
    var rest := keys;
    while rest != {}
      invariant rest <= keys
      invariant Distinct(order)
      invariant Elements(order) == keys - rest
      decreases |rest|
    {
      var k :| k in rest;
      assert Elements(order + [k]) == Elements(order) + {k};
      order := order + [k];
      rest := rest - {k};
    }
  }
}
