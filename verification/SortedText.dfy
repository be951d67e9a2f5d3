/** Python's `sorted` on strings. */
module SortedText {
  import opened Lexicographic

  function Insert(x: string, xs: seq<string>): seq<string> {
    if xs == [] || LexAtMost(x, xs[0]) then [x] + xs else [xs[0]] + Insert(x, xs[1..])
  }

  function Sorted(xs: seq<string>): seq<string> {
    if xs == [] then [] else Insert(xs[0], Sorted(xs[1..]))
  }

  lemma {:induction false} InsertedElements(x: string, xs: seq<string>)
    ensures multiset(Insert(x, xs)) == multiset(xs) + multiset{x}
  {
    hide LexAtMost;
    if xs != [] && !LexAtMost(x, xs[0]) {
      InsertedElements(x, xs[1..]);
      assert xs == [xs[0]] + xs[1..];
    } else {
      assert Insert(x, xs) == [x] + xs;
    }
  }

  lemma {:induction false} SortedElements(xs: seq<string>)
    ensures multiset(Sorted(xs)) == multiset(xs)
  {
    hide Insert;
    if xs != [] {
      SortedElements(xs[1..]);
      InsertedElements(xs[0], Sorted(xs[1..]));
      assert xs == [xs[0]] + xs[1..];
    }
  }

  lemma {:induction false} InsertCommutes(x: string, y: string, xs: seq<string>)
    ensures Insert(x, Insert(y, xs)) == Insert(y, Insert(x, xs))
  {
    hide LexLess, LexAtMost;
    AtMostTotal(x, y);
    if xs != [] {
      var z := xs[0];
      AtMostTransitive(x, y, z);
      AtMostTransitive(y, x, z);
      if !LexAtMost(x, z) && !LexAtMost(y, z) {
        InsertCommutes(x, y, xs[1..]);
      } else if LexAtMost(x, z) && LexAtMost(y, z) {
        InsertTwo(x, y, xs);
        InsertTwo(y, x, xs);
      }
    }
  }

  lemma InsertTwo(x: string, y: string, xs: seq<string>)
    requires xs != [] && LexAtMost(x, xs[0]) && LexAtMost(y, xs[0])
    ensures Insert(x, Insert(y, xs)) == if LexAtMost(x, y) then [x, y] + xs else [y, x] + xs
  {
    hide LexLess, LexAtMost;
    assert Insert(y, xs) == [y] + xs && ([y] + xs)[1..] == xs;
    assert Insert(x, xs) == [x] + xs;
  }

  lemma {:induction false} SortedAround(a: seq<string>, x: string, b: seq<string>)
    ensures Sorted(a + [x] + b) == Insert(x, Sorted(a + b))
  {
    hide Insert;
    if a == [] {
      assert a + [x] + b == [x] + b && a + b == b && ([x] + b)[1..] == b;
    } else {
      assert (a + [x] + b)[1..] == a[1..] + [x] + b && (a + b)[1..] == a[1..] + b;
      SortedAround(a[1..], x, b);
      InsertCommutes(a[0], x, Sorted(a[1..] + b));
    }
  }

  lemma TakeOut(x: string, rest: seq<string>, ys: seq<string>) returns (a: seq<string>, b: seq<string>)
    requires multiset([x] + rest) == multiset(ys)
    ensures ys == a + [x] + b && multiset(a + b) == multiset(rest)
  {
    assert x in multiset([x] + rest);
    assert x in multiset(ys);
    var i :| 0 <= i < |ys| && ys[i] == x;
    a, b := ys[..i], ys[i + 1..];
    assert ys == a + [x] + b;
    assert multiset(a + b) == multiset(ys) - multiset{x};
    assert multiset(rest) == multiset([x] + rest) - multiset{x};
  }

  /** Sorting depends on the elements only, not on their order. */
  lemma {:induction false} SortedIgnoresOrder(xs: seq<string>, ys: seq<string>)
    requires multiset(xs) == multiset(ys)
    ensures Sorted(xs) == Sorted(ys)
  {
    hide Insert;
    if xs == [] {
      assert |multiset(ys)| == |multiset(xs)| == 0;
    } else {
      var x, rest := xs[0], xs[1..];
      assert xs == [x] + rest;
      var a, b := TakeOut(x, rest, ys);
      SortedIgnoresOrder(rest, a + b);
      SortedAround(a, x, b);
    }
  }
}
