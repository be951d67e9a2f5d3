/** Facts about finite sets and lists that several modules share. */
module Collections {

  ghost predicate Distinct<T>(xs: seq<T>) {
    forall i, j :: 0 <= i < j < |xs| ==> xs[i] != xs[j]
  }

  function ElementsOf<T(==)>(xs: seq<T>): set<T> {
    set x | x in xs
  }

  lemma ElementsOfSnoc<T>(xs: seq<T>, i: nat)
    requires i < |xs|
    ensures ElementsOf(xs[..i + 1]) == ElementsOf(xs[..i]) + {xs[i]}
  {
    assert xs[..i + 1] == xs[..i] + [xs[i]];
  }

  lemma {:induction false} DistinctCardinality<T>(xs: seq<T>)
    requires Distinct(xs)
    ensures |set x | x in xs| == |xs|
    ensures |ElementsOf(xs)| == |xs|
  {
    if xs == [] {
      assert (set x | x in xs) == {};
    } else {
      var rest := xs[1..];
      DistinctCardinality(rest);
      assert xs[0] !in rest by {
        assert forall j :: 0 <= j < |rest| ==> rest[j] == xs[j + 1];
      }
      assert (set x | x in xs) == (set x | x in rest) + {xs[0]};
    }
  }

  lemma {:induction false} SubsetSize<T>(a: set<T>, b: set<T>)
    requires a <= b
    ensures |a| <= |b|
  {
    if a != {} {
      var x :| x in a;
      SubsetSize(a - {x}, b - {x});
    }
  }
}
