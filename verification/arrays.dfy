/** Two JavaScript array idioms the source uses on query results:
    `slice(0, n)` and `[...new Set(xs)]`. */
module JsArrays {

  /** `xs.slice(0, n)`: the first n elements, or all of them when there are fewer. */
  function FirstN<T>(xs: seq<T>, n: nat): (r: seq<T>)
    ensures |r| == if |xs| < n then |xs| else n
    ensures r <= xs
  {
    if |xs| <= n then xs else xs[..n]
  }

  /** `[...new Set(xs)]`: each value once, in the order of its first occurrence. */
  function Distinct<T(==,!new)>(xs: seq<T>): (r: seq<T>)
    ensures NoDuplicates(r)
    ensures forall x :: x in r <==> x in xs
  {
    DistinctAfter(xs, {})
  }

  /** The values of xs not in `seen`, each once, in first-occurrence order:
      the Set being filled while the array is scanned. */
  function DistinctAfter<T(==,!new)>(xs: seq<T>, seen: set<T>): (r: seq<T>)
    ensures NoDuplicates(r)
    ensures forall x :: x in r <==> x in xs && x !in seen
  {
    if |xs| == 0 then []
    else if xs[0] in seen then DistinctAfter(xs[1..], seen)
    else
      var rest := DistinctAfter(xs[1..], seen + {xs[0]});
      var r := [xs[0]] + rest;
      assert forall i :: 1 <= i < |r| ==> r[i] == rest[i - 1];
      r
  }

  predicate NoDuplicates<T(==,!new)>(xs: seq<T>) {
    forall i, j :: 0 <= i < j < |xs| ==> xs[i] != xs[j]
  }

  /** Appending a value the Set already holds changes nothing; appending a new
      one adds it at the end. This pins down first-occurrence order. */
  lemma {:induction false} DistinctSnoc<T(!new)>(xs: seq<T>, x: T, seen: set<T>)
    ensures DistinctAfter(xs + [x], seen) ==
      if x in xs || x in seen then DistinctAfter(xs, seen) else DistinctAfter(xs, seen) + [x]
  {
    if |xs| == 0 {
      assert xs + [x] == [x];
      assert [x][1..] == [];
    } else {
      assert (xs + [x])[0] == xs[0];
      assert (xs + [x])[1..] == xs[1..] + [x];
      if xs[0] in seen {
        DistinctSnoc(xs[1..], x, seen);
        assert x in xs[1..] ==> x in xs;
      } else {
        DistinctSnoc(xs[1..], x, seen + {xs[0]});
        assert x in xs <==> x == xs[0] || x in xs[1..];
      }
    }
  }

  /** A duplicate-free sequence is as long as the set of its elements is large. */
  lemma {:induction false} NoDuplicatesCardinality<T(!new)>(xs: seq<T>)
    requires NoDuplicates(xs)
    ensures |set x | x in xs| == |xs|
  {
    if |xs| > 0 {
      var tail := xs[1..];
      assert NoDuplicates(tail) by {
        forall i, j | 0 <= i < j < |tail|
          ensures tail[i] != tail[j]
        {
          assert tail[i] == xs[i + 1] && tail[j] == xs[j + 1];
        }
      }
      NoDuplicatesCardinality(tail);
      assert xs[0] !in tail by {
        forall i | 0 <= i < |tail|
          ensures tail[i] != xs[0]
        {
          assert tail[i] == xs[i + 1];
        }
      }
      assert (set x | x in xs) == (set x | x in tail) + {xs[0]} by {
        assert xs == [xs[0]] + tail;
      }
    }
  }

  /** The number of distinct values is the size of the set of values. */
  lemma DistinctCount<T(!new)>(xs: seq<T>)
    ensures |Distinct(xs)| == |set x | x in xs|
  {
    var r := Distinct(xs);
    NoDuplicatesCardinality(r);
    assert (set x | x in r) == (set x | x in xs);
  }
}
