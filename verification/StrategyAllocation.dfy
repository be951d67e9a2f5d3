/** Persistent strategy assignments and balanced exploration over the least-assigned strategies. */
module StrategyAllocation {
  import opened Collections
  import opened Division
  import opened Options
  import opened SortedText

  datatype Assignment = Assignment(workspace: string, taskKind: string, strategy: string, version: int, reason: string)

  type Table = map<string, Assignment>

  /** Runs of one workspace and task kind that were given a strategy. */
  function RunsWith(t: Table, workspace: string, taskKind: string, strategy: string): set<string> {
    set run | run in t && Has(t[run], workspace, taskKind, strategy)
  }

  function Count(t: Table, workspace: string, taskKind: string, strategy: string): nat {
    |RunsWith(t, workspace, taskKind, strategy)|
  }

  type Counts = map<string, nat>

  function CountsOf(t: Table, workspace: string, taskKind: string, ids: set<string>): (c: Counts)
    ensures c.Keys == ids
  {
    map id | id in ids :: Count(t, workspace, taskKind, id)
  }

  ghost predicate IsLeast(c: Counts, id: string) {
    id in c && forall x :: x in c ==> c[id] <= c[x]
  }

  lemma CountAfterInsert(t: Table, run: string, a: Assignment, workspace: string, taskKind: string, strategy: string)
    requires run !in t
    ensures Count(t[run := a], workspace, taskKind, strategy) ==
              Count(t, workspace, taskKind, strategy) + if Has(a, workspace, taskKind, strategy) then 1 else 0
  {
    RunsAfterInsert(t, run, a, workspace, taskKind, strategy);
  }

  predicate Has(a: Assignment, workspace: string, taskKind: string, strategy: string) {
    a.workspace == workspace && a.taskKind == taskKind && a.strategy == strategy
  }

  lemma RunsAfterInsert(t: Table, run: string, a: Assignment, workspace: string, taskKind: string, strategy: string)
    requires run !in t
    ensures run !in RunsWith(t, workspace, taskKind, strategy)
    ensures RunsWith(t[run := a], workspace, taskKind, strategy) ==
              RunsWith(t, workspace, taskKind, strategy) + if Has(a, workspace, taskKind, strategy) then {run} else {}
  {
    hide Has;
  }

  class ObservationStore {
    var assignments: Table

    constructor ()
      ensures assignments == map[]
    {
      assignments := map[];
    }

    /** Persist an explicit or evidence-backed choice; a run that already has one keeps it. */
    method AssignStrategy(run: string, a: Assignment) returns (strategy: string)
      modifies this
      ensures run in assignments && strategy == assignments[run].strategy
      ensures assignments == if run in old(assignments) then old(assignments) else old(assignments)[run := a]
    {
      if run !in assignments { assignments := assignments[run := a]; }
      return assignments[run].strategy;
    }

    /** Persist a least-assigned strategy; `digest` stands for the hash of workspace, kind and run that
        breaks ties. None is the validation error. */
    method AssignBalancedExploration(workspace: string, taskKind: string, run: string, ids: seq<string>,
                                     versions: map<string, int>, digest: nat)
      returns (strategy: Option<string>)
      modifies this
      ensures strategy.None? <==> ids == [] || exists i :: 0 <= i < |ids| && (ids[i] !in versions || versions[ids[i]] < 1)
      ensures strategy.None? || run in old(assignments) ==> assignments == old(assignments)
      ensures strategy.Some? ==> run in assignments && strategy.value == assignments[run].strategy
      ensures strategy.Some? && run !in old(assignments) ==>
                var chosen := Chosen(CountsOf(old(assignments), workspace, taskKind, ElementsOf(ids)), ids, digest);
                && chosen in versions
                && assignments == old(assignments)[run := Assignment(workspace, taskKind, chosen, versions[chosen], "exploration")]
    {
      if ids == [] { return None; }
      for i := 0 to |ids|
        invariant forall k :: 0 <= k < i ==> HasVersion(versions, ids[k])
      {
        if !HasVersion(versions, ids[i]) { return None; }
      }
      if run in assignments { return Some(assignments[run].strategy); }
      hide Count, Chosen;
      var counts := CountsOf(assignments, workspace, taskKind, ElementsOf(ids));
      var chosen := ChooseLeast(counts, ids, digest);
      ChosenIsLeast(counts, ids, digest);
      assert HasVersion(versions, chosen);
      assignments := assignments[run := Assignment(workspace, taskKind, chosen, VersionOf(versions, chosen), "exploration")];
      return Some(chosen);
    }
  }

  /** The minimum, the strategies that share it, and the hash's pick among them. */
  method ChooseLeast(counts: Counts, ids: seq<string>, digest: nat) returns (chosen: string)
    requires Covers(counts, ids)
    ensures chosen == Chosen(counts, ids, digest)
  {
    hide Sorted, Minimum;
    var minimum := counts[ids[0]];
    for i := 1 to |ids|
      invariant forall k :: 0 <= k < i ==> minimum <= counts[ids[k]]
      invariant exists k :: 0 <= k < i && minimum == counts[ids[k]]
    {
      if counts[ids[i]] < minimum { minimum := counts[ids[i]]; }
    }
    MinimumIs(counts, ids, minimum);
    var tied: seq<string> := [];
    for i := 0 to |ids|
      invariant tied == Tied(counts, ids[..i], minimum)
    {
      assert ids[..i + 1][..i] == ids[..i];
      if counts[ids[i]] == minimum { tied := tied + [ids[i]]; }
    }
    assert ids[..|ids|] == ids;
    TiedIsNotEmpty(counts, ids);
    return Sorted(tied)[digest % |tied|];
  }

  function VersionOf(versions: map<string, int>, id: string): int {
    if id in versions then versions[id] else 0
  }

  predicate HasVersion(versions: map<string, int>, id: string) {
    VersionOf(versions, id) >= 1
  }

  // ---- The choice among the least assigned ----

  predicate Covers(c: Counts, ids: seq<string>) {
    ids != [] && forall i :: 0 <= i < |ids| ==> ids[i] in c
  }

  function Minimum(c: Counts, ids: seq<string>): nat
    requires Covers(c, ids)
  {
    if |ids| == 1 then c[ids[0]]
    else
      var m := Minimum(c, ids[..|ids| - 1]);
      if c[ids[|ids| - 1]] < m then c[ids[|ids| - 1]] else m
  }

  lemma {:induction false} MinimumIsLeast(c: Counts, ids: seq<string>)
    requires Covers(c, ids)
    ensures forall k :: 0 <= k < |ids| ==> Minimum(c, ids) <= c[ids[k]]
    ensures exists k :: 0 <= k < |ids| && Minimum(c, ids) == c[ids[k]]
  {
    if |ids| == 1 {
      assert Minimum(c, ids) == c[ids[0]];
    } else {
      var before, last := ids[..|ids| - 1], ids[|ids| - 1];
      MinimumIsLeast(c, before);
      assert forall k :: 0 <= k < |before| ==> before[k] == ids[k];
      if c[last] < Minimum(c, before) {
        assert Minimum(c, ids) == c[ids[|ids| - 1]];
      } else {
        var k :| 0 <= k < |before| && Minimum(c, before) == c[before[k]];
        assert Minimum(c, ids) == c[ids[k]];
      }
    }
  }

  lemma MinimumIs(c: Counts, ids: seq<string>, m: nat)
    requires Covers(c, ids)
    requires forall k :: 0 <= k < |ids| ==> m <= c[ids[k]]
    requires exists k :: 0 <= k < |ids| && m == c[ids[k]]
    ensures m == Minimum(c, ids)
  {
    MinimumIsLeast(c, ids);
  }

  /** The strategies with the given count, in the order of `ids`. */
  function Tied(c: Counts, ids: seq<string>, m: nat): seq<string>
    requires forall i :: 0 <= i < |ids| ==> ids[i] in c
  {
    if ids == [] then []
    else Tied(c, ids[..|ids| - 1], m) + if c[ids[|ids| - 1]] == m then [ids[|ids| - 1]] else []
  }

  lemma {:induction false} TiedOccurrences(c: Counts, ids: seq<string>, m: nat, x: string)
    requires forall i :: 0 <= i < |ids| ==> ids[i] in c
    ensures multiset(Tied(c, ids, m))[x] == if x in c && c[x] == m then multiset(ids)[x] else 0
  {
    if ids != [] {
      var before := ids[..|ids| - 1];
      TiedOccurrences(c, before, m, x);
      assert ids == before + [ids[|ids| - 1]];
    }
  }

  lemma TiedIsNotEmpty(c: Counts, ids: seq<string>)
    requires Covers(c, ids)
    ensures |Sorted(Tied(c, ids, Minimum(c, ids)))| == |Tied(c, ids, Minimum(c, ids))| > 0
  {
    hide Minimum, Tied, Sorted;
    MinimumIsLeast(c, ids);
    var m := Minimum(c, ids);
    var k :| 0 <= k < |ids| && m == c[ids[k]];
    TiedOccurrences(c, ids, m, ids[k]);
    SortedElements(Tied(c, ids, m));
    assert ids[k] in multiset(ids) && ids[k] in multiset(Tied(c, ids, m));
    assert |multiset(Sorted(Tied(c, ids, m)))| == |multiset(Tied(c, ids, m))|;
  }

  function Chosen(c: Counts, ids: seq<string>, digest: nat): string
    requires Covers(c, ids)
  {
    TiedIsNotEmpty(c, ids);
    var tied := Sorted(Tied(c, ids, Minimum(c, ids)));
    tied[digest % |tied|]
  }

  /** The choice is one of the given strategies, and none of them has fewer assignments. */
  lemma ChosenIsLeast(c: Counts, ids: seq<string>, digest: nat)
    requires Covers(c, ids)
    ensures Chosen(c, ids, digest) in ids
    ensures forall k :: 0 <= k < |ids| ==> c[Chosen(c, ids, digest)] <= c[ids[k]]
  {
    hide Minimum, Tied, Sorted;
    TiedIsNotEmpty(c, ids);
    var tied := Tied(c, ids, Minimum(c, ids));
    SortedElements(tied);
    var x := Chosen(c, ids, digest);
    assert x in multiset(Sorted(tied));
    TiedOccurrences(c, ids, Minimum(c, ids), x);
    assert x in multiset(ids);
    MinimumIsLeast(c, ids);
  }

  /** Ties are broken by the hash alone: the order in which the strategies are given plays no part. */
  lemma ChoiceIgnoresOrder(c: Counts, ids: seq<string>, others: seq<string>, digest: nat)
    requires Covers(c, ids) && Covers(c, others) && multiset(ids) == multiset(others)
    ensures Chosen(c, ids, digest) == Chosen(c, others, digest)
  {
    hide Minimum, Tied, Sorted;
    MinimumIsLeast(c, ids);
    MinimumIsLeast(c, others);
    var m := Minimum(c, ids);
    forall k | 0 <= k < |others| ensures m <= c[others[k]] { assert others[k] in multiset(ids); assert others[k] in ids; }
    var k :| 0 <= k < |ids| && m == c[ids[k]];
    assert ids[k] in multiset(others);
    assert ids[k] in others;
    MinimumIs(c, others, m);
    forall x ensures multiset(Tied(c, ids, m))[x] == multiset(Tied(c, others, m))[x] {
      TiedOccurrences(c, ids, m, x);
      TiedOccurrences(c, others, m, x);
    }
    assert multiset(Tied(c, ids, m)) == multiset(Tied(c, others, m));
    SortedIgnoresOrder(Tied(c, ids, m), Tied(c, others, m));
  }

  // ---- Exploration steps on counts ----

  function Bump(c: Counts, id: string): Counts
    requires id in c
  {
    c[id := c[id] + 1]
  }

  ghost predicate IsStep(c: Counts, c': Counts) {
    exists id :: IsLeast(c, id) && c' == Bump(c, id)
  }

  /** A fresh exploration changes the counts of its strategies by one step. */
  lemma ExplorationIsStep(t: Table, run: string, ids: seq<string>, digest: nat, a: Assignment)
    requires run !in t && ids != []
    requires a.strategy == Chosen(CountsOf(t, a.workspace, a.taskKind, ElementsOf(ids)), ids, digest)
    ensures IsStep(CountsOf(t, a.workspace, a.taskKind, ElementsOf(ids)),
                   CountsOf(t[run := a], a.workspace, a.taskKind, ElementsOf(ids)))
  {
    hide Count, Chosen;
    var c := CountsOf(t, a.workspace, a.taskKind, ElementsOf(ids));
    ChosenIsLeast(c, ids, digest);
    forall id | id in ElementsOf(ids)
      ensures Count(t[run := a], a.workspace, a.taskKind, id)
           == Count(t, a.workspace, a.taskKind, id) + if id == a.strategy then 1 else 0
    {
      CountAfterInsert(t, run, a, a.workspace, a.taskKind, id);
    }
    forall x | x in c ensures c[a.strategy] <= c[x] { var k :| 0 <= k < |ids| && ids[k] == x; }
    assert CountsOf(t[run := a], a.workspace, a.taskKind, ElementsOf(ids)) == Bump(c, a.strategy);
  }

  ghost predicate Balanced(c: Counts) {
    forall x, y :: x in c && y in c ==> c[x] <= c[y] + 1
  }

  /** Once no two strategies differ by more than one assignment, they never will again. */
  lemma BalanceIsKept(c: Counts, c': Counts)
    requires Balanced(c) && IsStep(c, c')
    ensures Balanced(c') && c'.Keys == c.Keys
  {
  }

  ghost predicate IsExploration(steps: seq<Counts>) {
    steps != [] && forall i :: 0 <= i < |steps| - 1 ==> IsStep(steps[i], steps[i + 1])
  }

  lemma {:induction false} BalanceIsKeptForever(steps: seq<Counts>, n: nat)
    requires IsExploration(steps) && Balanced(steps[0]) && n < |steps|
    ensures Balanced(steps[n])
  {
    if n > 0 {
      BalanceIsKeptForever(steps, n - 1);
      assert IsStep(steps[n - 1], steps[n]);
      BalanceIsKept(steps[n - 1], steps[n]);
    }
  }

  // ---- How many steps equalize ----

  ghost predicate IsGreatest(c: Counts, m: nat) {
    (exists x :: x in c && c[x] == m) && forall x :: x in c ==> c[x] <= m
  }

  ghost predicate Equal(c: Counts, m: nat) {
    forall x :: x in c ==> c[x] == m
  }

  /** The sum of m - c[x] over all strategies. */
  ghost function Shortfall(c: Counts, m: int): int {
    if c == map[] then 0
    else
      assert c.Keys != {};
      var x :| x in c;
      m - c[x] + Shortfall(c - {x}, m)
  }

  lemma {:induction false} ShortfallWithout(c: Counts, m: int, x: string)
    requires x in c
    ensures Shortfall(c, m) == m - c[x] + Shortfall(c - {x}, m)
    decreases |c|
  {
    var y :| y in c && Shortfall(c, m) == m - c[y] + Shortfall(c - {y}, m);
    if y != x {
      ShortfallWithout(c - {y}, m, x);
      ShortfallWithout(c - {x}, m, y);
      assert c - {x} - {y} == c - {y} - {x};
    }
  }

  lemma {:induction false} ShortfallSign(c: Counts, m: nat)
    requires forall x :: x in c ==> c[x] <= m
    ensures Shortfall(c, m) >= 0
    ensures Shortfall(c, m) == 0 <==> Equal(c, m)
    decreases |c|
  {
    if c != map[] {
      assert c.Keys != {};
      var x :| x in c;
      ShortfallWithout(c, m, x);
      ShortfallSign(c - {x}, m);
      var rest := c - {x};
      assert forall y :: y in c ==> y == x || (y in rest && rest[y] == c[y]);
    }
  }

  lemma ShortfallOfBump(c: Counts, m: int, id: string)
    requires id in c
    ensures Shortfall(Bump(c, id), m) == Shortfall(c, m) - 1
  {
    ShortfallWithout(c, m, id);
    ShortfallWithout(Bump(c, id), m, id);
    assert Bump(c, id) - {id} == c - {id};
  }

  /** While the counts differ, a step keeps the greatest count and lowers the shortfall by one. */
  lemma StepLowersShortfall(c: Counts, c': Counts, m: nat)
    requires IsStep(c, c') && IsGreatest(c, m) && !Equal(c, m)
    ensures IsGreatest(c', m) && Shortfall(c', m) == Shortfall(c, m) - 1
  {
    var id :| IsLeast(c, id) && c' == Bump(c, id);
    var top :| top in c && c[top] == m;
    var low :| low in c && c[low] != m;
    assert c[id] <= c[low] < m && id != top;
    ShortfallOfBump(c, m, id);
    assert c'[top] == m;
  }

  /** Up to the shortfall, the greatest count stays, and all counts equal it at the shortfall only. */
  lemma {:induction false} UpToShortfall(steps: seq<Counts>, m: nat, n: nat)
    requires IsExploration(steps) && IsGreatest(steps[0], m) && n < |steps| && n <= Shortfall(steps[0], m)
    ensures IsGreatest(steps[n], m) && Shortfall(steps[n], m) == Shortfall(steps[0], m) - n
    ensures Equal(steps[n], m) <==> n == Shortfall(steps[0], m)
  {
    hide Shortfall, IsStep;
    if n > 0 {
      UpToShortfall(steps, m, n - 1);
      assert IsStep(steps[n - 1], steps[n]);
      StepLowersShortfall(steps[n - 1], steps[n], m);
    }
    ShortfallSign(steps[n], m);
  }

  ghost predicate AllEqual(c: Counts) {
    forall x, y :: x in c && y in c ==> c[x] == c[y]
  }

  lemma {:induction false} ShortfallShift(c: Counts, m: int, d: int)
    ensures Shortfall(c, m + d) == Shortfall(c, m) + |c| * d
    decreases |c|
  {
    if c != map[] {
      assert c.Keys != {};
      var x :| x in c;
      ShortfallWithout(c, m, x);
      ShortfallWithout(c, m + d, x);
      ShortfallShift(c - {x}, m, d);
      assert |c - {x}| == |c| - 1 by { assert (c - {x}).Keys == c.Keys - {x}; }
      assert (|c| - 1) * d + d == |c| * d;
    }
  }

  /** Counts of two neighbouring values: the shortfall from the lower one tells how many are above it. */
  lemma {:induction false} ShortfallFromLeast(c: Counts, low: nat)
    requires forall x :: x in c ==> low <= c[x] <= low + 1
    ensures -|c| <= Shortfall(c, low) <= 0
    ensures Shortfall(c, low) == 0 <==> Equal(c, low)
    ensures Shortfall(c, low) == -|c| <==> Equal(c, low + 1)
    decreases |c|
  {
    if c != map[] {
      assert c.Keys != {};
      var x :| x in c;
      ShortfallWithout(c, low, x);
      var rest := c - {x};
      ShortfallFromLeast(rest, low);
      assert |rest| == |c| - 1 by { assert rest.Keys == c.Keys - {x}; }
      assert forall y :: y in c ==> y == x || (y in rest && rest[y] == c[y]);
    }
  }

  lemma {:induction false} LeastExists(c: Counts) returns (id: string)
    requires c != map[]
    ensures IsLeast(c, id)
    decreases |c|
  {
    assert c.Keys != {};
    var first :| first in c;
    var rest := c - {first};
    assert forall y :: y in c ==> y == first || (y in rest && rest[y] == c[y]);
    id := first;
    if rest != map[] {
      assert |rest| < |c| by { assert rest.Keys == c.Keys - {first}; }
      var other := LeastExists(rest);
      if rest[other] < c[first] { id := other; }
    }
  }

  lemma RemainderIs(j: int, k: int, q: int)
    requires 0 <= j < k
    ensures (k * q - j) % k == 0 <==> j == 0
  {
    if j == 0 {
      QuotientIs(k * q, k, q, 0);
    } else {
      assert k * q - j == (q - 1) * k + (k - j) by { assert (q - 1) * k == k * q - k; }
      QuotientIs(k * q - j, k, q - 1, k - j);
    }
  }

  /** Balanced counts are equal exactly when their number divides the shortfall, from whatever height. */
  lemma BalancedEqualIff(c: Counts, m: int)
    requires Balanced(c) && c != map[]
    ensures AllEqual(c) <==> Shortfall(c, m) % |c| == 0
  {
    var id := LeastExists(c);
    var low := c[id];
    ShortfallFromLeast(c, low);
    ShortfallShift(c, low, m - low);
    RemainderIs(-Shortfall(c, low), |c|, m - low);
  }

  lemma {:induction false} ShortfallAfter(steps: seq<Counts>, m: int, n: nat)
    requires IsExploration(steps) && n < |steps|
    ensures steps[n].Keys == steps[0].Keys && Shortfall(steps[n], m) == Shortfall(steps[0], m) - n
  {
    if n > 0 {
      ShortfallAfter(steps, m, n - 1);
      assert IsStep(steps[n - 1], steps[n]);
      var id :| IsLeast(steps[n - 1], id) && steps[n] == Bump(steps[n - 1], id);
      ShortfallOfBump(steps[n - 1], m, id);
    }
  }

  lemma {:induction false} BalancedFrom(steps: seq<Counts>, i: nat, n: nat)
    requires IsExploration(steps) && i <= n < |steps| && Balanced(steps[i])
    ensures Balanced(steps[n])
  {
    hide IsStep, Balanced;
    if i < n {
      BalancedFrom(steps, i, n - 1);
      assert IsStep(steps[n - 1], steps[n]);
      BalanceIsKept(steps[n - 1], steps[n]);
    }
  }

  /** From any counts, all counts are equal after n fresh explorations if and only if n is the sum of
      max - count, or exceeds it by a multiple of the number of strategies. */
  lemma ExplorationEqualizes(steps: seq<Counts>, m: nat, n: nat)
    requires IsExploration(steps) && IsGreatest(steps[0], m) && n < |steps|
    ensures var s := Shortfall(steps[0], m);
            |steps[0]| > 0 && (AllEqual(steps[n]) <==> n >= s && (n - s) % |steps[0]| == 0)
  {
    hide Shortfall, IsStep, IsExploration;
    var s, k := Shortfall(steps[0], m), |steps[0]|;
    ShortfallSign(steps[0], m);
    GreatestIsThere(steps[0], m);
    if n < s {
      UpToShortfall(steps, m, n);
    } else {
      UpToShortfall(steps, m, s);
      BalancedFrom(steps, s, n);
      ShortfallAfter(steps, m, n);
      assert |steps[n]| == |steps[n].Keys| == |steps[0].Keys| == k;
      BalancedEqualIff(steps[n], m);
      SameDivisibility(n - s, k);
    }
  }

  lemma GreatestIsThere(c: Counts, m: nat)
    requires IsGreatest(c, m)
    ensures c != map[] && |c| > 0
  {
    var x :| x in c && c[x] == m;
    assert x in c.Keys;
  }

  lemma SameDivisibility(d: int, k: int)
    requires k > 0
    ensures (-d) % k == 0 <==> d % k == 0
  {
    var q, r := d / k, d % k;
    assert d == k * q + r;
    assert -d == k * (-q) - r by { assert k * (-q) == -(k * q); }
    RemainderIs(r, k, -q);
  }

  // ---- An assignment never changes ----

  datatype Request =
    | Explicit(run: string, assignment: Assignment)
    | Explore(run: string, workspace: string, taskKind: string, ids: seq<string>, versions: map<string, int>, digest: nat)

  /** What either assign method may do. */
  ghost predicate Next(t: Table, r: Request, t': Table) {
    if r.run in t then t' == t
    else if r.Explicit? then t' == t[r.run := r.assignment]
    else if r.ids == [] || exists i :: 0 <= i < |r.ids| && !HasVersion(r.versions, r.ids[i]) then t' == t
    else exists a: Assignment ::
      && a.workspace == r.workspace && a.taskKind == r.taskKind
      && a.strategy == Chosen(CountsOf(t, r.workspace, r.taskKind, ElementsOf(r.ids)), r.ids, r.digest)
      && t' == t[r.run := a]
  }

  /** Whatever requests follow, for whichever runs and by whichever method, a run keeps its assignment. */
  lemma {:induction false} AssignmentIsForever(tables: seq<Table>, requests: seq<Request>, i: nat, j: nat, run: string)
    requires |tables| == |requests| + 1 && i <= j < |tables| && run in tables[i]
    requires forall k :: 0 <= k < |requests| ==> Next(tables[k], requests[k], tables[k + 1])
    ensures run in tables[j] && tables[j][run] == tables[i][run]
    decreases j - i
  {
    if i < j {
      assert Next(tables[i], requests[i], tables[i + 1]);
      AssignmentIsForever(tables, requests, i + 1, j, run);
    }
  }
}

/** The evidence-backed choice among outcome patterns, over exact rationals. */
module EvidenceWinner {
  import opened Lexicographic
  import opened Options

  datatype Pattern = Pattern(strategy: string, accepted: nat, rejected: nat, edited: nat) {
    function Labelled(): nat {
      accepted + rejected + edited
    }

    function Score(): real {
      if Labelled() == 0 then 0.0 else (accepted as real + 0.5 * edited as real) / Labelled() as real
    }
  }

  /** The score is the share of acceptances, edits counting half: between 0 and 1. */
  lemma ScoreIsShare(p: Pattern)
    ensures 0.0 <= p.Score() <= 1.0
    ensures var labelled := p.accepted + p.rejected + p.edited;
            if labelled == 0 then p.Score() == 0.0
            else p.Score() * labelled as real == p.accepted as real + 0.5 * p.edited as real
    ensures p.accepted + p.rejected + p.edited > 0 ==>
              (p.Score() == 1.0 <==> p.rejected + p.edited == 0) && (p.Score() == 0.0 <==> p.accepted + p.edited == 0)
  {
    var n, x := (p.accepted + p.rejected + p.edited) as real, p.accepted as real + 0.5 * p.edited as real;
    if n > 0.0 { QuotientIn(x, n); }
  }

  lemma QuotientIn(x: real, n: real)
    requires n > 0.0 && 0.0 <= x <= n
    ensures 0.0 <= x / n <= 1.0 && x / n * n == x
    ensures (x / n == 1.0 <==> x == n) && (x / n == 0.0 <==> x == 0.0)
  {
    var q := x / n;
    assert q * n == x && (q - 1.0) * n == x - n;
    SignOfProduct(q, n);
    SignOfProduct(q - 1.0, n);
  }

  lemma SignOfProduct(a: real, n: real)
    requires n > 0.0
    ensures (a > 0.0 <==> a * n > 0.0) && (a < 0.0 <==> a * n < 0.0)
  {
  }

  /** One more label moves the score towards what it says: up to 1 for an acceptance, down to 0 for a
      rejection, to a half for an edit. */
  lemma LabelMovesScore(p: Pattern)
    requires p.Labelled() > 0
    ensures var up := p.(accepted := p.accepted + 1).Score(); up >= p.Score() && (up > p.Score() <==> p.Score() < 1.0)
    ensures var down := p.(rejected := p.rejected + 1).Score(); down <= p.Score() && (down < p.Score() <==> p.Score() > 0.0)
    ensures var half := p.(edited := p.edited + 1).Score();
            (half > p.Score() <==> p.Score() < 0.5) && (half < p.Score() <==> p.Score() > 0.5)
  {
    var n, x := p.Labelled() as real, p.accepted as real + 0.5 * p.edited as real;
    ScoreIsShare(p);
    MeanMoves(x, n, 1.0);
    MeanMoves(x, n, 0.0);
    MeanMoves(x, n, 0.5);
  }

  /** One more value moves a mean towards it. */
  lemma MeanMoves(x: real, n: real, v: real)
    requires n > 0.0
    ensures (x + v) / (n + 1.0) > x / n <==> x / n < v
    ensures (x + v) / (n + 1.0) < x / n <==> x / n > v
  {
    var q, r := x / n, (x + v) / (n + 1.0);
    assert q * n == x && r * (n + 1.0) == x + v;
    assert (r - q) * (n + 1.0) == v - q;
    SignOfProduct(r - q, n + 1.0);
  }

  const MIN_LABELLED: nat := 5
  const MIN_SCORE: real := 0.70
  const MIN_LEAD: real := 0.15

  function Eligible(ps: seq<Pattern>): seq<Pattern> {
    if ps == [] then []
    else (if ps[0].Labelled() >= MIN_LABELLED then [ps[0]] else []) + Eligible(ps[1..])
  }

  predicate RanksBefore(p: Pattern, q: Pattern) {
    p.Score() > q.Score() || (p.Score() == q.Score() && LexAtMost(p.strategy, q.strategy))
  }

  /** `sorted` by descending score, then by name. */
  function Insert(p: Pattern, ps: seq<Pattern>): seq<Pattern> {
    if ps == [] || RanksBefore(p, ps[0]) then [p] + ps else [ps[0]] + Insert(p, ps[1..])
  }

  function Ranked(ps: seq<Pattern>): seq<Pattern> {
    if ps == [] then [] else Insert(ps[0], Ranked(ps[1..]))
  }

  function Winner(patterns: seq<Pattern>): Option<(Pattern, Pattern)> {
    var eligible := Eligible(patterns);
    if |eligible| < 2 then None
    else
      RankedSize(eligible);
      var winner, comparator := Ranked(eligible)[0], Ranked(eligible)[1];
      if winner.Score() < MIN_SCORE then None
      else if winner.Score() - comparator.Score() < MIN_LEAD then None
      else Some((winner, comparator))
  }

  lemma {:induction false} InsertedSize(p: Pattern, ps: seq<Pattern>)
    ensures |Insert(p, ps)| == |ps| + 1 && multiset(Insert(p, ps)) == multiset(ps) + multiset{p}
  {
    hide RanksBefore;
    if ps != [] && !RanksBefore(p, ps[0]) {
      InsertedSize(p, ps[1..]);
      assert ps == [ps[0]] + ps[1..];
    } else {
      assert Insert(p, ps) == [p] + ps;
    }
  }

  lemma {:induction false} RankedSize(ps: seq<Pattern>)
    ensures |Ranked(ps)| == |ps| && multiset(Ranked(ps)) == multiset(ps)
  {
    hide Insert;
    if ps != [] {
      RankedSize(ps[1..]);
      InsertedSize(ps[0], Ranked(ps[1..]));
      assert ps == [ps[0]] + ps[1..];
    }
  }

  predicate Descending(ps: seq<Pattern>) {
    forall i, j :: 0 <= i < j < |ps| ==> ps[i].Score() >= ps[j].Score()
  }

  lemma {:induction false} InsertDescends(p: Pattern, ps: seq<Pattern>)
    requires Descending(ps)
    ensures Descending(Insert(p, ps))
    ensures Insert(p, ps)[0] == p || (ps != [] && Insert(p, ps)[0] == ps[0])
  {
    hide LexAtMost;
    if ps != [] && !RanksBefore(p, ps[0]) {
      InsertDescends(p, ps[1..]);
      var r := Insert(p, ps[1..]);
      assert forall j :: 0 <= j < |r| ==> r[0].Score() >= r[j].Score();
      assert ps[0].Score() >= r[0].Score();
    }
  }

  lemma {:induction false} RankedDescends(ps: seq<Pattern>)
    ensures Descending(Ranked(ps))
  {
    if ps != [] {
      RankedDescends(ps[1..]);
      InsertDescends(ps[0], Ranked(ps[1..]));
    }
  }

  /** The rule without any ranking: w is eligible, good enough, and ahead of every other eligible pattern. */
  ghost predicate Leads(patterns: seq<Pattern>, w: Pattern) {
    var others := multiset(Eligible(patterns)) - multiset{w};
    && w in multiset(Eligible(patterns)) && others != multiset{}
    && w.Score() >= 0.70
    && forall p :: p in others ==> w.Score() - p.Score() >= 0.15
  }

  /** The winner is exactly the pattern that leads, and no pattern leads when there is none. */
  lemma WinnerIsLeader(patterns: seq<Pattern>, w: Pattern)
    ensures (Winner(patterns).Some? && Winner(patterns).value.0 == w) <==> Leads(patterns, w)
  {
    hide Eligible, Ranked, Pattern.Score;
    var eligible := Eligible(patterns);
    RankedSize(eligible);
    RankedDescends(eligible);
    var r := Ranked(eligible);
    if |eligible| < 2 {
      if w in multiset(eligible) { assert eligible == [w]; }
    } else {
      OthersBehindFirst(r, w);
    }
  }

  lemma OthersBehindFirst(r: seq<Pattern>, w: Pattern)
    requires Descending(r) && |r| >= 2
    ensures (r[0] == w && r[0].Score() >= MIN_SCORE && r[0].Score() - r[1].Score() >= MIN_LEAD) <==>
              (var others := multiset(r) - multiset{w};
               && w in multiset(r) && others != multiset{} && w.Score() >= MIN_SCORE
               && forall p :: p in others ==> w.Score() - p.Score() >= MIN_LEAD)
  {
    hide Pattern.Score, Descending;
    var rest := r[1..];
    if r[0] == w {
      FirstAmongOthers(r);
      assert rest[0] in multiset(rest);
    } else {
      var others := multiset(r) - multiset{w};
      assert r[0] in others;
      if w in multiset(r) { FirstIsBest(r, w); }
    }
  }

  lemma FirstIsBest(r: seq<Pattern>, p: Pattern)
    requires Descending(r) && p in multiset(r)
    ensures r[0].Score() >= p.Score()
  {
    hide Pattern.Score;
    var i :| 0 <= i < |r| && r[i] == p;
  }

  lemma FirstAmongOthers(r: seq<Pattern>)
    requires Descending(r) && |r| >= 2
    ensures multiset(r) - multiset{r[0]} == multiset(r[1..])
    ensures forall p :: p in multiset(r[1..]) ==> r[1].Score() >= p.Score()
  {
    hide Pattern.Score;
    assert r == [r[0]] + r[1..];
    assert Descending(r[1..]);
    forall p | p in multiset(r[1..]) ensures r[1].Score() >= p.Score() { FirstIsBest(r[1..], p); }
  }

  lemma {:induction false} EligibleOfPermutation(ps: seq<Pattern>, p: Pattern)
    ensures multiset(Eligible(ps))[p] == if p.accepted + p.rejected + p.edited >= 5 then multiset(ps)[p] else 0
  {
    if ps != [] {
      EligibleOfPermutation(ps[1..], p);
      assert ps == [ps[0]] + ps[1..];
      assert multiset(Eligible(ps)) == (if ps[0].Labelled() >= MIN_LABELLED then multiset{ps[0]} else multiset{}) + multiset(Eligible(ps[1..]));
    }
  }

  /** The winner does not depend on the order in which the patterns come, and there is at most one. */
  lemma WinnerIgnoresOrder(ps: seq<Pattern>, qs: seq<Pattern>)
    requires multiset(ps) == multiset(qs)
    ensures Winner(ps).Some? <==> Winner(qs).Some?
    ensures Winner(ps).Some? ==> Winner(ps).value.0 == Winner(qs).value.0
  {
    hide Eligible, Ranked;
    forall p ensures multiset(Eligible(ps))[p] == multiset(Eligible(qs))[p] {
      EligibleOfPermutation(ps, p);
      EligibleOfPermutation(qs, p);
    }
    assert multiset(Eligible(ps)) == multiset(Eligible(qs));
    if Winner(ps).Some? {
      WinnerIsLeader(ps, Winner(ps).value.0);
      WinnerIsLeader(qs, Winner(ps).value.0);
    }
    if Winner(qs).Some? {
      WinnerIsLeader(qs, Winner(qs).value.0);
      WinnerIsLeader(ps, Winner(qs).value.0);
    }
  }
}
