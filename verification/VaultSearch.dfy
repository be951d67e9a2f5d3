/** BM25 ranking of the indexed notes, over the reals. The logarithm is a function assumed positive above 1. */
module VaultSearch {
  import opened Options
  import opened VaultIndex

  type Logarithm = real -> real

  ghost predicate PositiveAboveOne(ln: Logarithm) {
    forall x: real :: x > 1.0 ==> ln(x) > 0.0
  }

  /** The stored notes in the order in which the index lists them. */
  type Listing = seq<(string, Entry)>

  datatype Scored = Scored(score: real, ref: string, title: Option<string>)

  const K1: real := 1.5
  const B: real := 0.75

  // ---- Scores ----

  function DocFrequency(docs: Listing, token: string): (n: nat)
    ensures n <= |docs|
  {
    if docs == [] then 0
    else DocFrequency(docs[..|docs| - 1], token) + if token in docs[|docs| - 1].1.termFreqs then 1 else 0
  }

  /** The weight of a token that n of all notes contain. */
  function Weight(all: nat, n: nat, ln: Logarithm): real
    requires n <= all
  {
    ln((all as real - n as real + 0.5) / (n as real + 0.5) + 1.0)
  }

  function Idf(docs: Listing, token: string, ln: Logarithm): real {
    Weight(|docs|, DocFrequency(docs, token), ln)
  }

  function TermScore(e: Entry, token: string, idf: real, avgLen: real): real
    requires avgLen > 0.0
  {
    if token in e.termFreqs && e.termFreqs[token] > 0 then
      var tf := e.termFreqs[token] as real;
      idf * (tf * (K1 + 1.0)) / (tf + K1 * (1.0 - B + B * (e.docLen as real / avgLen)))
    else 0.0
  }

  function Score(docs: Listing, e: Entry, query: seq<string>, avgLen: real, ln: Logarithm): real
    requires avgLen > 0.0
  {
    if query == [] then 0.0
    else
      var token := query[|query| - 1];
      Score(docs, e, query[..|query| - 1], avgLen, ln) + TermScore(e, token, Idf(docs, token, ln), avgLen)
  }

  function SummedIdf(docs: Listing, query: seq<string>, ln: Logarithm): real {
    if query == [] then 0.0
    else SummedIdf(docs, query[..|query| - 1], ln) + Idf(docs, query[|query| - 1], ln)
  }

  predicate ContainsAny(e: Entry, query: seq<string>) {
    exists i :: 0 <= i < |query| && query[i] in e.termFreqs && e.termFreqs[query[i]] > 0
  }

  lemma IdfIsPositive(docs: Listing, token: string, ln: Logarithm)
    requires PositiveAboveOne(ln)
    ensures Idf(docs, token, ln) > 0.0
  {
    var n := DocFrequency(docs, token) as real;
    var a, b := |docs| as real - n + 0.5, n + 0.5;
    assert a > 0.0 && b > 0.0;
    assert a / b > 0.0;
  }

  /** A matching token adds something, but less than 2.5 times its weight. */
  lemma TermScoreBounds(e: Entry, token: string, idf: real, avgLen: real)
    requires avgLen > 0.0 && idf > 0.0
    ensures 0.0 <= TermScore(e, token, idf, avgLen) < 2.5 * idf
    ensures TermScore(e, token, idf, avgLen) > 0.0 <==> token in e.termFreqs && e.termFreqs[token] > 0
  {
    if token in e.termFreqs && e.termFreqs[token] > 0 {
      var tf, ratio := e.termFreqs[token] as real, e.docLen as real / avgLen;
      assert ratio >= 0.0;
      var top, denom := idf * (tf * (K1 + 1.0)), tf + K1 * (1.0 - B + B * ratio);
      assert denom > tf;
      SaturatingQuotient(idf, tf, denom);
    }
  }

  lemma SaturatingQuotient(idf: real, tf: real, denom: real)
    requires idf > 0.0 && 0.0 < tf < denom
    ensures 0.0 < idf * (tf * 2.5) / denom < 2.5 * idf
  {
    var bound := 2.5 * idf;
    assert bound > 0.0;
    assert idf * (tf * 2.5) == bound * tf;
    assert 0.0 < bound * tf < bound * denom;
    QuotientBetween(bound * tf, denom, bound);
  }

  lemma QuotientBetween(x: real, denom: real, bound: real)
    requires denom > 0.0 && 0.0 < x < bound * denom
    ensures 0.0 < x / denom < bound
  {
    var q := x / denom;
    assert q * denom == x;
    ProductOrder(q, bound, denom);
  }

  lemma ProductOrder(a: real, b: real, k: real)
    requires k > 0.0
    ensures a >= b ==> a * k >= b * k
  {
  }

  /** A note scores above 0 exactly when it contains some query token, and always below 2.5 times the
      summed weights of the query. */
  lemma {:induction false} ScoreBounds(docs: Listing, e: Entry, query: seq<string>, avgLen: real, ln: Logarithm)
    requires avgLen > 0.0 && PositiveAboveOne(ln)
    ensures 0.0 <= Score(docs, e, query, avgLen, ln) <= 2.5 * SummedIdf(docs, query, ln)
    ensures query != [] ==> Score(docs, e, query, avgLen, ln) < 2.5 * SummedIdf(docs, query, ln)
    ensures Score(docs, e, query, avgLen, ln) > 0.0 <==> ContainsAny(e, query)
  {
    hide Idf, TermScore, PositiveAboveOne;
    if query != [] {
      var rest, token := query[..|query| - 1], query[|query| - 1];
      ScoreBounds(docs, e, rest, avgLen, ln);
      IdfIsPositive(docs, token, ln);
      TermScoreBounds(e, token, Idf(docs, token, ln), avgLen);
      if ContainsAny(e, rest) {
        var i :| 0 <= i < |rest| && rest[i] in e.termFreqs && e.termFreqs[rest[i]] > 0;
        assert query[i] == rest[i];
      }
    }
  }

  // ---- What the weights and scores prefer ----

  ghost predicate Increasing(ln: Logarithm) {
    forall x: real, y: real :: 0.0 < x < y ==> ln(x) < ln(y)
  }

  function Holders(docs: Listing, token: string, n: nat): set<int>
    requires n <= |docs|
  {
    set i | 0 <= i < n && token in docs[i].1.termFreqs
  }

  /** The document frequency is the number of notes that contain the token. */
  lemma FrequencyIsCount(docs: Listing, token: string)
    ensures DocFrequency(docs, token) == |set i | 0 <= i < |docs| && token in docs[i].1.termFreqs|
  {
    HoldersCount(docs, token, |docs|);
    assert docs[..|docs|] == docs;
    assert Holders(docs, token, |docs|) == set i | 0 <= i < |docs| && token in docs[i].1.termFreqs;
  }

  lemma {:induction false} HoldersCount(docs: Listing, token: string, n: nat)
    requires n <= |docs|
    ensures |Holders(docs, token, n)| == DocFrequency(docs[..n], token)
    decreases n
  {
    if n > 0 {
      HoldersCount(docs, token, n - 1);
      assert docs[..n][..n - 1] == docs[..n - 1];
      OneMoreHolder(docs, token, n - 1);
    }
  }

  lemma OneMoreHolder(docs: Listing, token: string, n: nat)
    requires n < |docs|
    ensures |Holders(docs, token, n + 1)| == |Holders(docs, token, n)| + if token in docs[n].1.termFreqs then 1 else 0
  {
    var before := Holders(docs, token, n);
    assert n !in before;
    assert Holders(docs, token, n + 1) == if token in docs[n].1.termFreqs then before + {n} else before;
  }

  lemma QuotientOrder(x: real, d: real, x': real, d': real)
    requires d > 0.0 && d' > 0.0 && x * d' < x' * d
    ensures x / d < x' / d'
  {
    var q, q' := x / d, x' / d';
    assert q * d == x && q' * d' == x';
    assert q * d * d' == q * (d * d') && q' * d' * d == q' * (d * d');
    assert d * d' > 0.0;
    ProductOrder(q, q', d * d');
  }

  /** A token weighs more exactly when fewer notes contain it. */
  lemma RarerWeighsMore(docs: Listing, a: string, b: string, ln: Logarithm)
    requires Increasing(ln)
    ensures Idf(docs, a, ln) > Idf(docs, b, ln) <==> DocFrequency(docs, a) < DocFrequency(docs, b)
  {
    hide Weight, Increasing, DocFrequency;
    if DocFrequency(docs, a) < DocFrequency(docs, b) {
      FewerWeighMore(|docs|, DocFrequency(docs, a), DocFrequency(docs, b), ln);
    } else if DocFrequency(docs, b) < DocFrequency(docs, a) {
      FewerWeighMore(|docs|, DocFrequency(docs, b), DocFrequency(docs, a), ln);
    }
  }

  lemma FewerWeighMore(all: nat, n: nat, m: nat, ln: Logarithm)
    requires Increasing(ln) && n < m <= all
    ensures Weight(all, n, ln) > Weight(all, m, ln)
  {
    var t, x, y := all as real, n as real, m as real;
    CrossProducts(t, x, y);
    QuotientOrder(t - y + 0.5, y + 0.5, t - x + 0.5, x + 0.5);
    PositiveQuotient(t - y + 0.5, y + 0.5);
  }

  lemma CrossProducts(t: real, x: real, y: real)
    requires 0.0 <= x < y <= t
    ensures (t - y + 0.5) * (x + 0.5) < (t - x + 0.5) * (y + 0.5)
  {
    assert (t - x + 0.5) * (y + 0.5) - (t - y + 0.5) * (x + 0.5) == (t + 1.0) * (y - x);
    assert (t + 1.0) * (y - x) > 0.0;
  }

  lemma PositiveQuotient(x: real, d: real)
    requires x > 0.0 && d > 0.0
    ensures x / d > 0.0
  {
  }

  /** The weights in numbers: the logarithm of one note more than there are over a half more than hold the
      token, so of 2 for a token in half of an even number of notes. */
  lemma WeightIs(all: nat, n: nat, ln: Logarithm)
    requires n <= all
    ensures Weight(all, n, ln) == ln((all as real + 1.0) / (n as real + 0.5))
    ensures all == 2 * n ==> Weight(all, n, ln) == ln(2.0)
  {
    var x, d := all as real - n as real + 0.5, n as real + 0.5;
    SumOverOne(x, d);
    if all == 2 * n {
      assert x == d;
      SelfQuotient(d);
    }
  }

  lemma SumOverOne(x: real, d: real)
    requires d > 0.0
    ensures x / d + 1.0 == (x + d) / d
  {
    var q, r := x / d, (x + d) / d;
    assert q * d == x && r * d == x + d;
    ZeroProduct(r - q - 1.0, d);
  }

  lemma ZeroProduct(a: real, d: real)
    requires d > 0.0 && a * d == 0.0
    ensures a == 0.0
  {
  }

  function Count(e: Entry, token: string): nat {
    if token in e.termFreqs then e.termFreqs[token] else 0
  }

  /** Of two notes the one that has the token more often and is no longer, or as often and is shorter,
      gets strictly more for it. */
  lemma MoreAndShorterScoresMore(e: Entry, e': Entry, token: string, idf: real, avgLen: real)
    requires avgLen > 0.0 && idf > 0.0
    requires Count(e', token) > 0 && Count(e, token) <= Count(e', token) && e.docLen >= e'.docLen
    requires Count(e, token) < Count(e', token) || e.docLen > e'.docLen
    ensures TermScore(e, token, idf, avgLen) < TermScore(e', token, idf, avgLen)
  {
    if Count(e, token) == 0 {
      TermScoreBounds(e', token, idf, avgLen);
    } else {
      var x, x' := Count(e, token) as real, Count(e', token) as real;
      var k, k' := LengthPart(e, avgLen), LengthPart(e', avgLen);
      LengthPartOrder(e, e', avgLen);
      SaturationOrder(x, k, x', k', idf);
    }
  }

  function LengthPart(e: Entry, avgLen: real): real
    requires avgLen > 0.0
  {
    K1 * (1.0 - B + B * (e.docLen as real / avgLen))
  }

  lemma LengthPartOrder(e: Entry, e': Entry, avgLen: real)
    requires avgLen > 0.0 && e.docLen >= e'.docLen
    ensures 0.0 < LengthPart(e', avgLen) <= LengthPart(e, avgLen)
    ensures e.docLen > e'.docLen ==> LengthPart(e', avgLen) < LengthPart(e, avgLen)
  {
    var l, l' := e.docLen as real, e'.docLen as real;
    if l > l' { QuotientOrder(l', avgLen, l, avgLen); }
    assert l' / avgLen >= 0.0;
  }

  lemma CrossOrder(x: real, k: real, x': real, k': real)
    requires 0.0 < x <= x' && 0.0 < k' <= k && (x < x' || k' < k)
    ensures x * k' < x' * k
  {
    var gain, room := x' - x, k - k';
    assert x' * k - x * k' == x' * room + gain * k';
    if gain > 0.0 { assert gain * k' > 0.0; } else { assert x' * room > 0.0; }
    assert x' * room >= 0.0 && gain * k' >= 0.0;
  }

  lemma SaturationOrder(x: real, k: real, x': real, k': real, idf: real)
    requires idf > 0.0 && 0.0 < x <= x' && 0.0 < k' <= k && (x < x' || k' < k)
    ensures idf * (x * (K1 + 1.0)) / (x + k) < idf * (x' * (K1 + 1.0)) / (x' + k')
  {
    var c := idf * (K1 + 1.0);
    assert c > 0.0;
    CrossOrder(x, k, x', k');
    assert x * (x' + k') < x' * (x + k);
    assert c * (x * (x' + k')) < c * (x' * (x + k));
    assert idf * (x * (K1 + 1.0)) == c * x && idf * (x' * (K1 + 1.0)) == c * x';
    assert c * x * (x' + k') == c * (x * (x' + k')) && c * x' * (x + k) == c * (x' * (x + k));
    QuotientOrder(c * x, x + k, c * x', x' + k');
  }

  lemma SelfQuotient(x: real)
    requires x > 0.0
    ensures x / x == 1.0
  {
  }

  /** The saturation and the length normalization in numbers: one occurrence in a note of r times the
      average length gets 2.5 / (1.375 + 1.125 r) of the token's weight, all of it at average length. */
  lemma OneOccurrence(e: Entry, token: string, idf: real, avgLen: real)
    requires avgLen > 0.0 && Count(e, token) == 1
    ensures TermScore(e, token, idf, avgLen) * (1.375 + 1.125 * (e.docLen as real / avgLen)) == 2.5 * idf
    ensures e.docLen as real == avgLen ==> TermScore(e, token, idf, avgLen) == idf
  {
    var r := e.docLen as real / avgLen;
    assert r >= 0.0;
    var d := 1.375 + 1.125 * r;
    assert TermScore(e, token, idf, avgLen) == idf * (1.0 * 2.5) / d;
    if e.docLen as real == avgLen {
      SelfQuotient(avgLen);
    }
  }

  /** Two notes that differ, among the query's tokens, only in that one has `a` where the other has `b`. */
  ghost predicate Swapped(e: Entry, e': Entry, a: string, b: string, query: seq<string>) {
    && a != b && e.docLen == e'.docLen && Count(e, a) == Count(e', b) > 0 && Count(e, b) == Count(e', a) == 0
    && forall t :: t in query && t != a && t != b ==> Count(e, t) == Count(e', t)
  }

  lemma SameCountSameScore(e: Entry, t: string, e': Entry, t': string, idf: real, avgLen: real)
    requires avgLen > 0.0 && e.docLen == e'.docLen && Count(e, t) == Count(e', t')
    ensures TermScore(e, t, idf, avgLen) == TermScore(e', t', idf, avgLen)
    ensures Count(e, t) == 0 ==> TermScore(e, t, idf, avgLen) == 0.0
  {
  }

  function Times(n: nat, x: real): real {
    n as real * x
  }

  lemma NoTimes(x: real)
    ensures Times(0, x) == 0.0
  {
  }

  /** The difference of their scores comes from the two tokens alone. */
  lemma {:induction false} ScoreDifference(docs: Listing, e: Entry, e': Entry, a: string, b: string, query: seq<string>, avgLen: real, ln: Logarithm)
    requires avgLen > 0.0 && Swapped(e, e', a, b, query)
    ensures Score(docs, e, query, avgLen, ln) - Score(docs, e', query, avgLen, ln) ==
              Times(multiset(query)[a], TermScore(e, a, Idf(docs, a, ln), avgLen))
              - Times(multiset(query)[b], TermScore(e', b, Idf(docs, b, ln), avgLen))
    decreases |query|
  {
    hide TermScore, Idf, Score, Swapped, Times;
    NoQuery(docs, e, avgLen, ln);
    NoQuery(docs, e', avgLen, ln);
    NoTimes(TermScore(e, a, Idf(docs, a, ln), avgLen));
    NoTimes(TermScore(e', b, Idf(docs, b, ln), avgLen));
    if query != [] {
      var rest, t := query[..|query| - 1], query[|query| - 1];
      assert query == rest + [t];
      SwappedRest(e, e', a, b, rest, t);
      ScoreDifference(docs, e, e', a, b, rest, avgLen, ln);
      ScoreStep(docs, e, query, avgLen, ln);
      ScoreStep(docs, e', query, avgLen, ln);
      TermDifference(e, e', a, b, query, t, Idf(docs, t, ln), avgLen);
      CountsGrow(rest, t, a);
      CountsGrow(rest, t, b);
      var x, y := TermScore(e, a, Idf(docs, a, ln), avgLen), TermScore(e', b, Idf(docs, b, ln), avgLen);
      var term := TermScore(e, t, Idf(docs, t, ln), avgLen) - TermScore(e', t, Idf(docs, t, ln), avgLen);
      assert term == if t == a then x else if t == b then -y else 0.0;
      OneTermMore(Score(docs, e, rest, avgLen, ln) - Score(docs, e', rest, avgLen, ln), term,
                  multiset(rest)[a], multiset(rest)[b], multiset(query)[a], multiset(query)[b], x, y);
    }
  }

  lemma CountsGrow(rest: seq<string>, t: string, a: string)
    ensures multiset(rest + [t])[a] == multiset(rest)[a] + if t == a then 1 else 0
  {
  }

  lemma OneTermMore(d: real, term: real, n: nat, m: nat, n': nat, m': nat, x: real, y: real)
    requires d == Times(n, x) - Times(m, y)
    requires (term == x && n' == n + 1 && m' == m) || (term == -y && n' == n && m' == m + 1) || (term == 0.0 && n' == n && m' == m)
    ensures d + term == Times(n', x) - Times(m', y)
  {
    OneMore(n, x);
    OneMore(m, y);
  }

  lemma NoQuery(docs: Listing, e: Entry, avgLen: real, ln: Logarithm)
    requires avgLen > 0.0
    ensures Score(docs, e, [], avgLen, ln) == 0.0
  {
  }

  lemma ScoreStep(docs: Listing, e: Entry, query: seq<string>, avgLen: real, ln: Logarithm)
    requires avgLen > 0.0 && query != []
    ensures var t := query[|query| - 1];
            Score(docs, e, query, avgLen, ln) == Score(docs, e, query[..|query| - 1], avgLen, ln) + TermScore(e, t, Idf(docs, t, ln), avgLen)
  {
    hide TermScore, Idf;
  }

  lemma SwappedRest(e: Entry, e': Entry, a: string, b: string, rest: seq<string>, t: string)
    requires Swapped(e, e', a, b, rest + [t])
    ensures Swapped(e, e', a, b, rest) && a != b
  {
    assert forall x :: x in rest ==> x in rest + [t];
  }

  /** What one token of the query contributes to the difference. */
  lemma TermDifference(e: Entry, e': Entry, a: string, b: string, query: seq<string>, t: string, weight: real, avgLen: real)
    requires avgLen > 0.0 && Swapped(e, e', a, b, query) && t in query
    ensures TermScore(e, t, weight, avgLen) - TermScore(e', t, weight, avgLen) ==
              if t == a then TermScore(e, t, weight, avgLen) else if t == b then -TermScore(e', t, weight, avgLen) else 0.0
  {
    hide TermScore;
    if t == a {
      SameCountSameScore(e', a, e', a, weight, avgLen);
    } else if t == b {
      SameCountSameScore(e, b, e, b, weight, avgLen);
    } else {
      SameCountSameScore(e, t, e', t, weight, avgLen);
    }
  }

  lemma OneMore(n: nat, x: real)
    ensures Times(n + 1, x) == Times(n, x) + x
  {
  }

  /** Of two such notes, the one with the rarer token scores strictly higher. */
  lemma RarerTokenScoresMore(docs: Listing, e: Entry, e': Entry, a: string, b: string, query: seq<string>, avgLen: real, ln: Logarithm)
    requires avgLen > 0.0 && Increasing(ln) && PositiveAboveOne(ln) && Swapped(e, e', a, b, query)
    requires DocFrequency(docs, a) < DocFrequency(docs, b) && multiset(query)[a] == multiset(query)[b] > 0
    ensures Score(docs, e, query, avgLen, ln) > Score(docs, e', query, avgLen, ln)
  {
    hide TermScore, Idf, Score, Increasing, PositiveAboveOne, DocFrequency, Times;
    ScoreDifference(docs, e, e', a, b, query, avgLen, ln);
    RarerWeighsMore(docs, a, b, ln);
    IdfIsPositive(docs, b, ln);
    HeavierScoresMore(e, a, e', b, Idf(docs, a, ln), Idf(docs, b, ln), avgLen);
    DifferenceIsPositive(Score(docs, e, query, avgLen, ln) - Score(docs, e', query, avgLen, ln),
                         multiset(query)[a], TermScore(e, a, Idf(docs, a, ln), avgLen), TermScore(e', b, Idf(docs, b, ln), avgLen));
  }

  lemma DifferenceIsPositive(d: real, n: nat, x: real, y: real)
    requires d == Times(n, x) - Times(n, y) && n > 0 && x > y
    ensures d > 0.0
  {
    StrictProduct(y, x, n as real);
  }

  lemma StrictProduct(x: real, y: real, n: real)
    requires n > 0.0 && x < y
    ensures n * x < n * y
  {
  }

  lemma HeavierScoresMore(e: Entry, t: string, e': Entry, t': string, w: real, w': real, avgLen: real)
    requires avgLen > 0.0 && e.docLen == e'.docLen && Count(e, t) == Count(e', t') > 0 && w > w' > 0.0
    ensures TermScore(e, t, w, avgLen) > TermScore(e', t', w', avgLen)
  {
    var x, k := Count(e, t) as real, LengthPart(e, avgLen);
    LengthPartOrder(e, e, avgLen);
    var c := x * (K1 + 1.0);
    assert w' * c < w * c by { StrictProduct(w', w, c); }
    var d := x + k;
    assert d > 0.0;
    assert w' * c * d < w * c * d by { StrictProduct(w' * c, w * c, d); }
    QuotientOrder(w' * c, d, w * c, d);
  }

  // ---- Ranking ----

  /** `list.sort(key=score, reverse=True)`: descending, equal scores keep their order. */
  function Insert(x: Scored, xs: seq<Scored>): seq<Scored> {
    if xs == [] || xs[0].score <= x.score then [x] + xs else [xs[0]] + Insert(x, xs[1..])
  }

  function SortDescending(xs: seq<Scored>): seq<Scored> {
    if xs == [] then [] else Insert(xs[0], SortDescending(xs[1..]))
  }

  predicate Descending(xs: seq<Scored>) {
    forall i, j :: 0 <= i < j < |xs| ==> xs[i].score >= xs[j].score
  }

  lemma {:induction false} InsertKeepsElements(x: Scored, xs: seq<Scored>)
    ensures multiset(Insert(x, xs)) == multiset(xs) + multiset{x} && |Insert(x, xs)| == |xs| + 1
  {
    if xs != [] && xs[0].score > x.score {
      InsertKeepsElements(x, xs[1..]);
      assert xs == [xs[0]] + xs[1..];
    } else {
      assert [x] + xs == Insert(x, xs);
    }
  }

  lemma {:induction false} InsertKeepsOrder(x: Scored, xs: seq<Scored>)
    requires Descending(xs)
    ensures Descending(Insert(x, xs))
    ensures Insert(x, xs)[0] == x || (xs != [] && Insert(x, xs)[0] == xs[0])
  {
    if xs != [] && xs[0].score > x.score {
      InsertKeepsOrder(x, xs[1..]);
      DescendingFrom(xs[0], Insert(x, xs[1..]));
    }
  }

  lemma DescendingFrom(x: Scored, xs: seq<Scored>)
    requires Descending(xs) && (xs == [] || x.score >= xs[0].score)
    ensures Descending([x] + xs)
  {
    forall j | 0 <= j < |xs| ensures x.score >= xs[j].score { assert xs[0].score >= xs[j].score; }
  }

  lemma {:induction false} SortIsDescending(xs: seq<Scored>)
    ensures Descending(SortDescending(xs)) && multiset(SortDescending(xs)) == multiset(xs)
    ensures |SortDescending(xs)| == |xs|
  {
    if xs != [] {
      hide Insert, Descending;
      SortIsDescending(xs[1..]);
      InsertKeepsOrder(xs[0], SortDescending(xs[1..]));
      InsertKeepsElements(xs[0], SortDescending(xs[1..]));
      assert xs == [xs[0]] + xs[1..];
    }
  }

  /** A slice `[:limit]`: a negative limit drops from the end. */
  function Take<T>(xs: seq<T>, limit: int): seq<T> {
    if limit < 0 then (if |xs| + limit < 0 then [] else xs[..|xs| + limit])
    else if limit <= |xs| then xs[..limit] else xs
  }

  /** The notes with a positive score, in listing order. */
  function Matching(docs: Listing, n: nat, query: seq<string>, avgLen: real, ln: Logarithm): seq<Scored>
    requires avgLen > 0.0 && n <= |docs|
  {
    if n == 0 then []
    else
      var d := docs[n - 1];
      var score := Score(docs, d.1, query, avgLen, ln);
      Matching(docs, n - 1, query, avgLen, ln) + if score > 0.0 then [Scored(score, d.0, d.1.title)] else []
  }

  function TopMatches(docs: Listing, query: seq<string>, limit: int, avgLen: real, ln: Logarithm): seq<Scored>
    requires avgLen > 0.0
  {
    if query == [] || docs == [] then [] else Take(SortDescending(Matching(docs, |docs|, query, avgLen, ln)), limit)
  }

  method CountDocuments(docs: Listing, token: string) returns (n: nat)
    ensures n == DocFrequency(docs, token)
  {
    n := 0;
    for i := 0 to |docs|
      invariant n == DocFrequency(docs[..i], token)
    {
      assert docs[..i + 1][..i] == docs[..i];
      if token in docs[i].1.termFreqs { n := n + 1; }
    }
    assert docs[..|docs|] == docs;
  }

  /** The weights of the query's distinct tokens. */
  method Weights(docs: Listing, query: seq<string>, ln: Logarithm) returns (idfs: map<string, real>)
    ensures forall t :: t in query ==> t in idfs && idfs[t] == Idf(docs, t, ln)
  {
    idfs := map[];
    for i := 0 to |query|
      invariant forall t :: t in query[..i] ==> t in idfs && idfs[t] == Idf(docs, t, ln)
    {
      var n := CountDocuments(docs, query[i]);
      idfs := idfs[query[i] := ln((|docs| as real - n as real + 0.5) / (n as real + 0.5) + 1.0)];
    }
  }

  method ScoreNote(docs: Listing, e: Entry, query: seq<string>, avgLen: real, ln: Logarithm, idfs: map<string, real>)
    returns (score: real)
    requires avgLen > 0.0 && forall t :: t in query ==> t in idfs && idfs[t] == Idf(docs, t, ln)
    ensures score == Score(docs, e, query, avgLen, ln)
  {
    hide Idf;
    score := 0.0;
    for i := 0 to |query|
      invariant score == Score(docs, e, query[..i], avgLen, ln)
    {
      var token := query[i];
      assert query[..i + 1][..i] == query[..i] && query[..i + 1][i] == token && token in query;
      score := score + TermScore(e, token, idfs[token], avgLen);
    }
    assert query[..|query|] == query;
  }

  /** `search`: score every note, keep the positive ones, sort, cut. */
  method Search(docs: Listing, query: seq<string>, limit: int, avgLen: real, ln: Logarithm) returns (results: seq<Scored>)
    requires avgLen > 0.0
    ensures results == TopMatches(docs, query, limit, avgLen, ln)
  {
    hide Idf, Score;
    if query == [] || docs == [] { return []; }
    var idfs := Weights(docs, query, ln);
    var scored: seq<Scored> := [];
    for i := 0 to |docs|
      invariant scored == Matching(docs, i, query, avgLen, ln)
    {
      var score := ScoreNote(docs, docs[i].1, query, avgLen, ln, idfs);
      if score > 0.0 { scored := scored + [Scored(score, docs[i].0, docs[i].1.title)]; }
    }
    return Take(SortDescending(scored), limit);
  }

  // ---- What the result is ----

  lemma {:induction false} MatchingAreMatches(docs: Listing, n: nat, query: seq<string>, avgLen: real, ln: Logarithm)
    requires avgLen > 0.0 && n <= |docs| && PositiveAboveOne(ln)
    ensures forall x :: x in Matching(docs, n, query, avgLen, ln) <==>
              exists i :: 0 <= i < n && ContainsAny(docs[i].1, query)
                       && x == Scored(Score(docs, docs[i].1, query, avgLen, ln), docs[i].0, docs[i].1.title)
  {
    hide Score, ContainsAny, PositiveAboveOne;
    if n > 0 {
      MatchingAreMatches(docs, n - 1, query, avgLen, ln);
      ScoreBounds(docs, docs[n - 1].1, query, avgLen, ln);
    }
  }

  /** How many of n results a slice keeps: a negative limit counts from the end. */
  function Kept(n: nat, limit: int): nat {
    if limit >= n then n else if limit >= 0 then limit else if n + limit >= 0 then n + limit else 0
  }

  /** The result lists matching notes only, best first, as many as the limit allows, and no matching note
      left out scores better than one listed. */
  lemma ResultIsTop(docs: Listing, query: seq<string>, limit: int, avgLen: real, ln: Logarithm)
    requires avgLen > 0.0 && PositiveAboveOne(ln) && query != []
    ensures var all := Matching(docs, |docs|, query, avgLen, ln);
            var top := TopMatches(docs, query, limit, avgLen, ln);
            && Descending(top) && multiset(top) <= multiset(all)
            && |top| == Kept(|all|, limit)
            && forall x, y :: x in top && y in multiset(all) - multiset(top) ==> x.score >= y.score
  {
    hide Score, Matching, SortDescending, Take;
    var all := Matching(docs, |docs|, query, avgLen, ln);
    if docs == [] {
      NothingMatches(query, avgLen, ln);
    } else {
      SortIsDescending(all);
      HeadIsTop(SortDescending(all), limit);
    }
  }

  lemma HeadIsTop(sorted: seq<Scored>, limit: int)
    requires Descending(sorted)
    ensures var top := Take(sorted, limit);
            && Descending(top) && multiset(top) <= multiset(sorted)
            && |top| == Kept(|sorted|, limit)
            && forall x, y :: x in top && y in multiset(sorted) - multiset(top) ==> x.score >= y.score
  {
    var k := |Take(sorted, limit)|;
    assert Take(sorted, limit) == sorted[..k];
    HeadBeatsTail(sorted, k);
    TailIsTheRest(sorted, k);
  }

  lemma HeadBeatsTail(sorted: seq<Scored>, k: nat)
    requires Descending(sorted) && k <= |sorted|
    ensures Descending(sorted[..k])
    ensures forall x, y :: x in sorted[..k] && y in sorted[k..] ==> x.score >= y.score
  {
    forall x: Scored, y: Scored | x in sorted[..k] && y in sorted[k..]
      ensures x.score >= y.score
    {
      var i :| 0 <= i < k && sorted[i] == x;
      var j :| k <= j < |sorted| && sorted[j] == y;
    }
  }

  lemma TailIsTheRest(xs: seq<Scored>, k: nat)
    requires k <= |xs|
    ensures multiset(xs[..k]) <= multiset(xs) && multiset(xs) - multiset(xs[..k]) == multiset(xs[k..])
    ensures forall y :: y in multiset(xs[k..]) <==> y in xs[k..]
  {
    assert xs == xs[..k] + xs[k..];
  }

  lemma NothingMatches(query: seq<string>, avgLen: real, ln: Logarithm)
    requires avgLen > 0.0
    ensures Matching([], 0, query, avgLen, ln) == []
  {
  }

  /** So no limit lists the note with the commoner token and leaves out the one with the rarer. */
  lemma RarerIsListedFirst(docs: Listing, i: nat, j: nat, a: string, b: string, query: seq<string>, limit: int, avgLen: real, ln: Logarithm)
    requires avgLen > 0.0 && Increasing(ln) && PositiveAboveOne(ln) && query != []
    requires i < |docs| && j < |docs| && Swapped(docs[i].1, docs[j].1, a, b, query)
    requires DocFrequency(docs, a) < DocFrequency(docs, b) && multiset(query)[a] == multiset(query)[b] > 0
    ensures var rarer := Scored(Score(docs, docs[i].1, query, avgLen, ln), docs[i].0, docs[i].1.title);
            var commoner := Scored(Score(docs, docs[j].1, query, avgLen, ln), docs[j].0, docs[j].1.title);
            var top := TopMatches(docs, query, limit, avgLen, ln);
            && (commoner in top ==> rarer in top)
            && forall x, y :: 0 <= x < |top| && 0 <= y < |top| && top[x] == commoner && top[y] == rarer ==> y < x
  {
    hide Score, Matching, TopMatches, ContainsAny, Increasing, PositiveAboveOne, DocFrequency;
    RarerTokenScoresMore(docs, docs[i].1, docs[j].1, a, b, query, avgLen, ln);
    ResultIsTop(docs, query, limit, avgLen, ln);
    MatchingAreMatches(docs, |docs|, query, avgLen, ln);
    HoldsToken(docs[i].1, a, query);
    var all, top := Matching(docs, |docs|, query, avgLen, ln), TopMatches(docs, query, limit, avgLen, ln);
    var rarer := Scored(Score(docs, docs[i].1, query, avgLen, ln), docs[i].0, docs[i].1.title);
    assert rarer in all;
    if rarer !in top { assert rarer in multiset(all) - multiset(top); }
  }

  lemma HoldsToken(e: Entry, a: string, query: seq<string>)
    requires Count(e, a) > 0 && multiset(query)[a] > 0
    ensures ContainsAny(e, query)
  {
    var k :| 0 <= k < |query| && query[k] == a;
  }
}
