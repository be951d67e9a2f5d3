/** Byte-wise text comparison, as SQLite's default BINARY collation performs it on ASCII text. */
module Lexicographic {

  predicate LexLess(a: string, b: string) {
    if b == "" then false
    else if a == "" then true
    else if a[0] != b[0] then a[0] < b[0]
    else LexLess(a[1..], b[1..])
  }

  /** `a <= b` of the SQL comparison. */
  predicate LexAtMost(a: string, b: string) {
    a == b || LexLess(a, b)
  }

  /** Order on equally long lists of numbers: the first difference decides. */
  predicate NumbersLess(xs: seq<int>, ys: seq<int>)
    requires |xs| == |ys|
  {
    xs != [] && (xs[0] < ys[0] || (xs[0] == ys[0] && NumbersLess(xs[1..], ys[1..])))
  }

  lemma {:induction false} LexLessCommonPrefix(p: string, a: string, b: string)
    ensures LexLess(p + a, p + b) == LexLess(a, b)
  {
    if p == "" {
      assert p + a == a && p + b == b;
    } else {
      assert (p + a)[1..] == p[1..] + a && (p + b)[1..] == p[1..] + b;
      LexLessCommonPrefix(p[1..], a, b);
    }
  }

  /** Text behind two different prefixes of equal length plays no part. */
  lemma {:induction false} LexLessDifferentHeads(u: string, v: string, a: string, b: string)
    requires |u| == |v| && u != v
    ensures LexLess(u + a, v + b) == LexLess(u, v)
  {
    assert (u + a)[0] == u[0] && (v + b)[0] == v[0];
    assert (u + a)[1..] == u[1..] + a && (v + b)[1..] == v[1..] + b;
    if u[0] == v[0] {
      assert u[1..] != v[1..] by { assert u == [u[0]] + u[1..] && v == [v[0]] + v[1..]; }
      LexLessDifferentHeads(u[1..], v[1..], a, b);
    }
  }

  lemma {:induction false} LexLessTotal(a: string, b: string)
    ensures a == b || LexLess(a, b) || LexLess(b, a)
    ensures !(LexLess(a, b) && LexLess(b, a))
    ensures a == b ==> !LexLess(a, b)
  {
    if a != "" && b != "" {
      LexLessTotal(a[1..], b[1..]);
      assert a == [a[0]] + a[1..] && b == [b[0]] + b[1..];
    }
  }

  lemma AtMostTotal(a: string, b: string)
    ensures LexAtMost(a, b) || LexAtMost(b, a)
    ensures LexAtMost(a, b) && LexAtMost(b, a) ==> a == b
  {
    hide LexLess;
    LexLessTotal(a, b);
  }

  lemma {:induction false} LexLessTransitive(a: string, b: string, c: string)
    requires LexLess(a, b) && LexLess(b, c)
    ensures LexLess(a, c)
  {
    if a != "" && a[0] == b[0] && b[0] == c[0] { LexLessTransitive(a[1..], b[1..], c[1..]); }
  }

  lemma AtMostTransitive(a: string, b: string, c: string)
    ensures LexAtMost(a, b) && LexAtMost(b, c) ==> LexAtMost(a, c)
  {
    hide LexLess;
    if LexLess(a, b) && LexLess(b, c) { LexLessTransitive(a, b, c); }
  }
}
