/** Runs of the schedule table: any number of processes, each doing one atomic transaction at a time. */
module ScheduleRuns {
  import opened Collections
  import opened Division
  import opened IsoTime
  import opened Recurrence
  import opened ScheduleTable

  datatype Event =
    | Claim(now: int, limit: int, ids: seq<string>)
    | ClaimAborted(now: int, limit: int, ids: seq<string>)
    | Create(id: string, trigger: Trigger, enabled: bool, now: int)
    | SetEnabled(id: string, enabled: bool)
    | Remove(id: string)

  /** `used` holds every identifier ever created: identifiers are UUIDs and do not repeat. */
  datatype State = State(table: Table, used: set<string>)

  ghost predicate Consistent(s: State) {
    ValidTable(s.table) && s.table.Keys <= s.used
  }

  ghost predicate Next(cron: CronClock, s: State, e: Event, s': State)
    requires Consistent(s)
  {
    match e
    case Claim(now, limit, ids) =>
      && IsSelection(s.table, now, limit, ids) && Advances(cron, s.table, ids, now)
      && s' == s.(table := Claimed(cron, s.table, ids, now))
    case ClaimAborted(now, limit, ids) =>
      IsSelection(s.table, now, limit, ids) && !Advances(cron, s.table, ids, now) && s' == s
    case Create(id, trigger, enabled, now) =>
      && id !in s.used && trigger.Valid() && Representable(trigger.NextRunAt(cron, now))
      && s' == State(s.table[id := Job(enabled, trigger, trigger.NextRunAt(cron, now))], s.used + {id})
    case SetEnabled(id, enabled) =>
      s' == if id in s.table then s.(table := s.table[id := s.table[id].(enabled := enabled)]) else s
    case Remove(id) => s' == s.(table := s.table - {id})
  }

  lemma NextConsistent(cron: CronClock, s: State, e: Event, s': State)
    requires Consistent(s) && Next(cron, s, e, s')
    ensures Consistent(s') && s.used <= s'.used
  {
    if e.Claim? {
      forall id | id in s'.table
        ensures s'.table[id].trigger.Valid() && Representable(s'.table[id].next)
      {
        if id in e.ids { var i :| 0 <= i < |e.ids| && e.ids[i] == id; }
      }
    }
  }

  /** A stretch of execution from a consistent state; from the empty table it is a whole run. */
  ghost predicate IsRun(cron: CronClock, states: seq<State>, events: seq<Event>) {
    && StrictlyLater(cron)
    && |states| == |events| + 1
    && (forall i :: 0 <= i < |states| ==> Consistent(states[i]))
    && (forall i :: 0 <= i < |events| ==> Next(cron, states[i], events[i], states[i + 1]))
  }

  ghost predicate ClaimsAt(states: seq<State>, events: seq<Event>, i: int, id: string) {
    0 <= i < |events| < |states| && events[i].Claim? && id in events[i].ids && id in states[i].table
  }

  // ---- No occurrence is claimed twice ----

  /** What one transaction does to one job: its time never goes back, and a claim moves it forward. */
  lemma StepOfJob(cron: CronClock, s: State, e: Event, s': State, id: string)
    requires StrictlyLater(cron) && Consistent(s) && Next(cron, s, e, s')
    ensures id in s.used ==> id in s'.used
    ensures id in s.used && id in s'.table ==> id in s.table
    ensures id in s.table && id in s'.table ==>
              && s.table[id].next <= s'.table[id].next
              && s'.table[id].trigger == s.table[id].trigger
    ensures e.Claim? && id in e.ids ==> id in s'.table && id in s.table && s.table[id].next < s'.table[id].next
    ensures id in s.table && id in s'.table && !(e.Claim? && id in e.ids) ==> s'.table[id].next == s.table[id].next
  {
    if e.Claim? && id in e.ids {
      var i :| 0 <= i < |e.ids| && e.ids[i] == id;
      assert id in Due(s.table, e.now);
      CoalesceMovesPastNow(s.table[id].trigger, cron, s.table[id].next, e.now);
    }
  }

  lemma {:induction false} TimeNeverGoesBack(cron: CronClock, states: seq<State>, events: seq<Event>, i: nat, j: nat, id: string)
    requires IsRun(cron, states, events) && i <= j < |states|
    requires id in states[i].used && id in states[j].table
    ensures id in states[i].table && states[i].table[id].next <= states[j].table[id].next
    ensures states[i].table[id].trigger == states[j].table[id].trigger
    decreases j - i
  {
    if i < j {
      StepOfJob(cron, states[i], events[i], states[i + 1], id);
      TimeNeverGoesBack(cron, states, events, i + 1, j, id);
    }
  }

  /** Two claims of the same schedule, by whichever processes, return different occurrences, in time order. */
  lemma NoOccurrenceClaimedTwice(cron: CronClock, states: seq<State>, events: seq<Event>, i: nat, j: nat, id: string)
    requires IsRun(cron, states, events) && i < j
    requires ClaimsAt(states, events, i, id) && ClaimsAt(states, events, j, id)
    ensures states[i].table[id].next < states[j].table[id].next
  {
    StepOfJob(cron, states[i], events[i], states[i + 1], id);
    TimeNeverGoesBack(cron, states, events, i + 1, j, id);
  }

  // ---- No run is skipped ----

  /** A claim of the schedule before event n, made when `t` had come, returned an occurrence up to `t`. */
  ghost predicate ClaimedFor(states: seq<State>, events: seq<Event>, id: string, n: nat, t: int) {
    exists j :: 0 <= j < n && ClaimsAt(states, events, j, id) && states[j].table[id].next <= t <= events[j].now
  }

  /** What a claim does to one row: it is next due at its first run after the claim. */
  lemma ClaimOfJob(cron: CronClock, fires: Firing, s: State, e: Event, s': State, id: string)
    requires FiresNext(cron, fires) && Consistent(s) && Next(cron, s, e, s') && e.Claim? && id in e.ids
    ensures id in s.table && id in s'.table && s'.table[id].trigger == s.table[id].trigger
    ensures IsFirstAfter(s.table[id].trigger, fires, s.table[id].next, e.now, s'.table[id].next)
  {
    hide IsFirstAfter, FiresNext, IsSelection;
    ClaimedIsNextRun(cron, fires, s.table, e.limit, e.ids, e.now);
  }

  /** In every run, from the creation of a schedule on, its stored time is always one of its runs, and
      every run before the stored time was answered by a claim made at or after it: whatever was missed
      while nobody claimed is made up for by one claim, and nothing is lost. */
  lemma {:induction false} NoRunIsSkipped(cron: CronClock, fires: Firing, states: seq<State>, events: seq<Event>, c: nat, n: nat, id: string)
    requires IsRun(cron, states, events) && FiresNext(cron, fires) && c < n <= |events|
    requires events[c].Create? && events[c].id == id && id in states[n].table
    ensures var created, row := events[c], states[n].table[id];
            && row.trigger == created.trigger && row.next > created.now && Occurs(created.trigger, fires, created.now, row.next)
            && forall t :: created.now < t < row.next && Occurs(created.trigger, fires, created.now, t) ==>
                             ClaimedFor(states, events, id, n, t)
    decreases n
  {
    hide Next, Occurs, FiresNext, ClaimedFor;
    var trigger, from := events[c].trigger, events[c].now;
    if n == c + 1 {
      CreatedRow(cron, fires, states[c], events[c], states[n]);
    } else {
      var s, e, s' := states[n - 1], events[n - 1], states[n];
      StillUsed(cron, states, events, c, n - 1, id);
      StepOfJob(cron, s, e, s', id);
      NoRunIsSkipped(cron, fires, states, events, c, n - 1, id);
      if e.Claim? && id in e.ids {
        ClaimOfJob(cron, fires, s, e, s', id);
        OccursFromLater(trigger, fires, from, s.table[id].next, s'.table[id].next);
        forall t | from < t < s'.table[id].next && Occurs(trigger, fires, from, t) ensures ClaimedFor(states, events, id, n, t) {
          if t < s.table[id].next {
            ClaimedForLonger(states, events, id, n - 1, t);
          } else {
            OccursFromLater(trigger, fires, from, s.table[id].next, t);
            AnsweredNow(states, events, id, n - 1, t);
          }
        }
      } else {
        forall t | from < t < s'.table[id].next && Occurs(trigger, fires, from, t) ensures ClaimedFor(states, events, id, n, t) {
          ClaimedForLonger(states, events, id, n - 1, t);
        }
      }
    }
  }

  lemma CreatedRow(cron: CronClock, fires: Firing, s: State, e: Event, s': State)
    requires FiresNext(cron, fires) && Consistent(s) && Next(cron, s, e, s') && e.Create?
    ensures e.id in s'.table && s'.table[e.id].trigger == e.trigger
    ensures IsFirstAfter(e.trigger, fires, e.now, e.now, s'.table[e.id].next)
  {
    hide FiresNext, IsFirstAfter;
    FirstRunIs(e.trigger, cron, fires, e.now);
  }

  lemma {:induction false} StillUsed(cron: CronClock, states: seq<State>, events: seq<Event>, c: nat, n: nat, id: string)
    requires IsRun(cron, states, events) && c < n <= |events| && events[c].Create? && events[c].id == id
    ensures id in states[n].used
    decreases n
  {
    assert Next(cron, states[n - 1], events[n - 1], states[n]);
    if n > c + 1 {
      StillUsed(cron, states, events, c, n - 1, id);
      StepOfJob(cron, states[n - 1], events[n - 1], states[n], id);
    }
  }

  lemma ClaimedForLonger(states: seq<State>, events: seq<Event>, id: string, n: nat, t: int)
    requires ClaimedFor(states, events, id, n, t)
    ensures ClaimedFor(states, events, id, n + 1, t)
  {
    var j :| 0 <= j < n && ClaimsAt(states, events, j, id) && states[j].table[id].next <= t <= events[j].now;
  }

  lemma AnsweredNow(states: seq<State>, events: seq<Event>, id: string, n: nat, t: int)
    requires ClaimsAt(states, events, n, id) && states[n].table[id].next <= t <= events[n].now
    ensures ClaimedFor(states, events, id, n + 1, t)
  {
  }

  // ---- How often an interval schedule is claimed ----

  /** The occurrences of one schedule returned by the first n transactions, in order. */
  ghost function Occurrences(states: seq<State>, events: seq<Event>, id: string, n: nat): seq<int>
    requires n <= |events| < |states|
  {
    if n == 0 then []
    else Occurrences(states, events, id, n - 1) +
         (if ClaimsAt(states, events, n - 1, id) then [states[n - 1].table[id].next] else [])
  }

  predicate Increasing(xs: seq<int>) {
    forall i, j :: 0 <= i < j < |xs| ==> xs[i] < xs[j]
  }

  ghost predicate OfPhase(x: int, first: int, period: int) {
    exists k: nat :: x == first + k * period
  }

  ghost predicate InPhase(xs: seq<int>, first: int, period: int) {
    forall i :: 0 <= i < |xs| ==> OfPhase(xs[i], first, period)
  }

  /** A transaction keeps a schedule's phase. */
  lemma PhaseStep(cron: CronClock, s: State, e: Event, s': State, id: string, first: int)
    requires StrictlyLater(cron) && Consistent(s) && Next(cron, s, e, s')
    requires id in s.table && id in s'.table && s.table[id].trigger.Interval?
    requires OfPhase(s.table[id].next, first, s.table[id].trigger.period)
    ensures OfPhase(s'.table[id].next, first, s.table[id].trigger.period)
  {
    StepOfJob(cron, s, e, s', id);
    if e.Claim? && id in e.ids {
      var period := s.table[id].trigger.period;
      var k: nat :| s.table[id].next == first + k * period;
      CoalescedIsLeast(s.table[id].next, e.now, period);
      var m: nat :| s'.table[id].next == s.table[id].next + m * period;
      assert s'.table[id].next == first + (k + m) * period by { assert (k + m) * period == k * period + m * period; }
    }
  }

  lemma {:induction false} OccurrencesProgress(cron: CronClock, states: seq<State>, events: seq<Event>, id: string, n: nat, first: int)
    requires IsRun(cron, states, events) && n <= |events|
    requires id in states[0].table && states[0].table[id].trigger.Interval? && states[0].table[id].next == first
    ensures var xs := Occurrences(states, events, id, n);
            var period := states[0].table[id].trigger.period;
            && Increasing(xs) && InPhase(xs, first, period) && id in states[n].used
            && (id in states[n].table ==>
                  && states[n].table[id].trigger == states[0].table[id].trigger
                  && OfPhase(states[n].table[id].next, first, period)
                  && forall i :: 0 <= i < |xs| ==> xs[i] < states[n].table[id].next)
  {
    assert Consistent(states[0]) && id in states[0].used;
    hide Next, OfPhase, Consistent;
    var period := states[0].table[id].trigger.period;
    if n == 0 {
      OwnPhase(first, period);
    } else {
      OccurrencesProgress(cron, states, events, id, n - 1, first);
      var s, e, s' := states[n - 1], events[n - 1], states[n];
      StepOfJob(cron, s, e, s', id);
      if id in s'.table { PhaseStep(cron, s, e, s', id, first); }
    }
  }

  lemma OwnPhase(first: int, period: int)
    ensures OfPhase(first, first, period)
  {
    assert first == first + 0 * period;
  }

  function CountBetween(xs: seq<int>, from: int, to: int): nat {
    if xs == [] then 0
    else CountBetween(xs[..|xs| - 1], from, to) + if from <= xs[|xs| - 1] <= to then 1 else 0
  }

  predicate Spaced(xs: seq<int>, period: int) {
    forall i, j :: 0 <= i < j < |xs| ==> xs[i] <= xs[j] - period
  }

  /** Increasing values of one phase are at least a period apart. */
  lemma PhaseSpaces(xs: seq<int>, first: int, period: int)
    requires period > 0 && Increasing(xs) && InPhase(xs, first, period)
    ensures Spaced(xs, period)
  {
    forall i, j | 0 <= i < j < |xs| ensures xs[i] <= xs[j] - period { PhaseGap(xs[i], xs[j], first, period); }
  }

  /** Values at least a period apart need that much room. */
  lemma {:induction false} SpanCovers(xs: seq<int>, period: int, from: int, to: int)
    requires period > 0 && Spaced(xs, period) && CountBetween(xs, from, to) > 0
    ensures from <= to && (CountBetween(xs, from, to) - 1) * period <= to - from
    decreases |xs|
  {
    var last, rest := xs[|xs| - 1], xs[..|xs| - 1];
    if from <= last <= to {
      CountBelow(rest, from, last - period, to);
      var c := CountBetween(rest, from, to);
      if c > 0 {
        SpanCovers(rest, period, from, last - period);
        OnePeriodMore(c, period);
      }
    } else {
      SpanCovers(rest, period, from, to);
    }
  }

  lemma OnePeriodMore(c: int, period: int)
    ensures c * period == (c - 1) * period + period
  {
  }

  lemma PhaseGap(x: int, y: int, first: int, period: int)
    requires period > 0 && x < y
    requires OfPhase(x, first, period) && OfPhase(y, first, period)
    ensures x <= y - period
  {
    var k: nat :| x == first + k * period;
    var m: nat :| y == first + m * period;
    assert y - x == (m - k) * period;
    MultipleIsFar(m - k, period);
  }

  lemma QuotientAtLeast(c: int, span: int, period: int)
    requires period > 0 && c * period <= span
    ensures c <= span / period
  {
    var q, r := span / period, span % period;
    assert span == q * period + r;
    assert (c - q) * period == c * period - q * period;
    MultipleIsFar(c - q, period);
  }

  lemma {:induction false} CountBelow(xs: seq<int>, from: int, a: int, b: int)
    requires a <= b && forall i :: 0 <= i < |xs| ==> xs[i] <= a
    ensures CountBetween(xs, from, a) == CountBetween(xs, from, b)
  {
    if xs != [] { CountBelow(xs[..|xs| - 1], from, a, b); }
  }

  lemma CountOfPhase(xs: seq<int>, first: int, period: int, from: int, to: int)
    requires period > 0 && from <= to && Increasing(xs) && InPhase(xs, first, period)
    ensures CountBetween(xs, from, to) <= (to - from) / period + 1
  {
    hide *;
    if CountBetween(xs, from, to) > 0 {
      PhaseSpaces(xs, first, period);
      SpanCovers(xs, period, from, to);
      QuotientAtLeast(CountBetween(xs, from, to) - 1, to - from, period);
    } else {
      QuotientAtLeast(0, to - from, period);
    }
  }

  /** In any run, an interval schedule is claimed at most once per period of any span of time, and
      every occurrence keeps the phase of the first one. */
  lemma ClaimRateBounded(cron: CronClock, states: seq<State>, events: seq<Event>, id: string, from: int, to: int)
    requires IsRun(cron, states, events) && from <= to
    requires id in states[0].table && states[0].table[id].trigger.Interval?
    ensures var xs := Occurrences(states, events, id, |events|);
            var period := states[0].table[id].trigger.period;
            && CountBetween(xs, from, to) <= (to - from) / period + 1
            && InPhase(xs, states[0].table[id].next, period) && Increasing(xs)
  {
    var xs, period := Occurrences(states, events, id, |events|), states[0].table[id].trigger.period;
    assert Consistent(states[0]) && period > 0;
    OccurrencesProgress(cron, states, events, id, |events|, states[0].table[id].next);
    hide *;
    CountOfPhase(xs, states[0].table[id].next, period, from, to);
  }

  // ---- Bounded waiting ----

  /** The other enabled schedules that are due no later: those that may be served first. */
  ghost function Ahead(t: Table, id: string): set<string>
    requires id in t
  {
    set x | x in t && x != id && t[x].enabled && t[x].next <= t[id].next
  }

  /** Claims see `id` as due and take at least `atLeast` rows; nobody touches `id` itself; schedules
      created or re-enabled meanwhile are due later than it. */
  ghost predicate Orderly(cron: CronClock, s: State, e: Event, id: string, atLeast: nat)
    requires id in s.table
  {
    match e
    case Claim(now, limit, ids) => now >= s.table[id].next && (limit < 0 || limit >= atLeast)
    case ClaimAborted(now, limit, ids) => now >= s.table[id].next && (limit < 0 || limit >= atLeast)
    case Create(_, _, _, now) => now >= s.table[id].next
    case SetEnabled(x, enabled) => x != id && (enabled && x in s.table ==> s.table[x].next > s.table[id].next)
    case Remove(x) => x != id
  }

  ghost function SetOf(ids: seq<string>): set<string> {
    set x | x in ids
  }

  /** A claim that leaves `id` out takes its full limit from the schedules ahead of `id`. */
  lemma PassedOverClaim(cron: CronClock, s: State, e: Event, s': State, id: string, atLeast: nat)
    requires StrictlyLater(cron) && Consistent(s) && Next(cron, s, e, s') && e.Claim?
    requires id in s.table && s.table[id].enabled && Orderly(cron, s, e, id, atLeast) && id !in e.ids
    ensures id in s'.table && s'.table[id] == s.table[id]
    ensures |Ahead(s'.table, id)| + atLeast <= |Ahead(s.table, id)|
  {
    var t, taken := s.table, SetOf(e.ids);
    DistinctCardinality(e.ids);
    assert id in Due(t, e.now);
    assert taken <= Due(t, e.now) - {id};
    assert |taken| <= |Due(t, e.now) - {id}| by { SubsetSize(taken, Due(t, e.now) - {id}); }
    assert |e.ids| == e.limit >= atLeast;
    forall x | x in taken
      ensures x in Ahead(t, id) && x !in Ahead(s'.table, id)
    {
      var i :| 0 <= i < |e.ids| && e.ids[i] == x;
      StepOfJob(cron, s, e, s', x);
      CoalesceMovesPastNow(t[x].trigger, cron, t[x].next, e.now);
    }
    forall x | x in Ahead(s'.table, id)
      ensures x in Ahead(t, id) - taken
    {
      StepOfJob(cron, s, e, s', x);
    }
    SubsetSize(Ahead(s'.table, id), Ahead(t, id) - taken);
    SubsetSize(taken, Ahead(t, id));
    assert |Ahead(t, id) - taken| == |Ahead(t, id)| - |taken|;
  }

  lemma OtherTransaction(cron: CronClock, s: State, e: Event, s': State, id: string, atLeast: nat)
    requires StrictlyLater(cron) && Consistent(s) && Next(cron, s, e, s') && !e.Claim?
    requires id in s.table && Orderly(cron, s, e, id, atLeast)
    ensures id in s'.table && s'.table[id] == s.table[id]
    ensures |Ahead(s'.table, id)| <= |Ahead(s.table, id)|
  {
    if e.Create? {
      assert e.trigger.NextRunAt(cron, e.now) > e.now;
    }
    assert Ahead(s'.table, id) <= Ahead(s.table, id);
    SubsetSize(Ahead(s'.table, id), Ahead(s.table, id));
  }

  /** Successful claims among transactions i..n-1. */
  function Claims(events: seq<Event>, i: nat): nat
    requires i <= |events|
    decreases |events| - i
  {
    if i == |events| then 0 else Claims(events, i + 1) + if events[i].Claim? then 1 else 0
  }

  ghost predicate NotYetClaimed(states: seq<State>, events: seq<Event>, id: string, n: int) {
    forall j :: 0 <= j < n ==> !ClaimsAt(states, events, j, id)
  }

  /** The conditions hold until `id` is first claimed. */
  ghost predicate OrderlyRun(cron: CronClock, states: seq<State>, events: seq<Event>, id: string, atLeast: nat) {
    forall i :: 0 <= i < |events| < |states| && id in states[i].table && NotYetClaimed(states, events, id, i) ==>
                  Orderly(cron, states[i], events[i], id, atLeast)
  }

  lemma {:induction false} WaitingFrom(cron: CronClock, states: seq<State>, events: seq<Event>, id: string, atLeast: nat, i: nat)
    requires IsRun(cron, states, events) && OrderlyRun(cron, states, events, id, atLeast) && i <= |events|
    requires id in states[i].table && states[i].table[id].enabled
    requires NotYetClaimed(states, events, id, |events|)
    ensures Claims(events, i) * atLeast <= |Ahead(states[i].table, id)|
    decreases |events| - i
  {
    hide Next, Consistent, Orderly, Ahead;
    if i < |events| {
      var s, e, s' := states[i], events[i], states[i + 1];
      assert !ClaimsAt(states, events, i, id) && NotYetClaimed(states, events, id, i);
      if e.Claim? {
        PassedOverClaim(cron, s, e, s', id, atLeast);
        assert Claims(events, i) * atLeast == Claims(events, i + 1) * atLeast + atLeast;
      } else {
        OtherTransaction(cron, s, e, s', id, atLeast);
      }
      WaitingFrom(cron, states, events, id, atLeast, i + 1);
    }
  }

  /** A due schedule with k others due no later is claimed within ceil((k + 1) / L) successful claims of
      at least L rows each, whatever other transactions the processes interleave. */
  lemma BoundedWaiting(cron: CronClock, states: seq<State>, events: seq<Event>, id: string, atLeast: nat)
    requires IsRun(cron, states, events) && OrderlyRun(cron, states, events, id, atLeast) && atLeast > 0
    requires id in states[0].table && states[0].table[id].enabled
    requires Claims(events, 0) >= (|Ahead(states[0].table, id)| + 1 + atLeast - 1) / atLeast
    ensures exists i :: ClaimsAt(states, events, i, id)
  {
    var k, c := |Ahead(states[0].table, id)|, Claims(events, 0);
    var q, r := (k + atLeast) / atLeast, (k + atLeast) % atLeast;
    assert k + atLeast == q * atLeast + r;
    ProductGrows(q, c, atLeast);
    if NotYetClaimed(states, events, id, |events|) {
      WaitingFrom(cron, states, events, id, atLeast, 0);
    }
  }

  lemma ProductGrows(a: nat, b: nat, k: nat)
    requires a <= b
    ensures a * k <= b * k
  {
  }

  // ---- When claims abort ----

  /** Claim calls among transactions i..n-1, whether they succeed or abort. */
  function ClaimCalls(events: seq<Event>, i: nat): nat
    requires i <= |events|
    decreases |events| - i
  {
    if i == |events| then 0 else ClaimCalls(events, i + 1) + if events[i].Claim? || events[i].ClaimAborted? then 1 else 0
  }

  /** No due row's next time would pass the last representable instant. */
  ghost predicate NoneOverflows(cron: CronClock, t: Table, now: int)
    requires ValidTable(t)
  {
    forall x :: x in Due(t, now) ==> Representable(Advanced(cron, t[x], now))
  }

  lemma {:induction false} CallsSucceed(cron: CronClock, states: seq<State>, events: seq<Event>, i: nat)
    requires IsRun(cron, states, events) && i <= |events|
    requires forall j :: 0 <= j < |events| && events[j].ClaimAborted? ==> NoneOverflows(cron, states[j].table, events[j].now)
    ensures ClaimCalls(events, i) == Claims(events, i)
    decreases |events| - i
  {
    hide Representable, Advanced;
    if i < |events| {
      CallsSucceed(cron, states, events, i + 1);
      assert Next(cron, states[i], events[i], states[i + 1]);
    }
  }

  /** The same bound counts claim calls, as long as no due row overflows. */
  lemma BoundedWaitingInCalls(cron: CronClock, states: seq<State>, events: seq<Event>, id: string, atLeast: nat)
    requires IsRun(cron, states, events) && OrderlyRun(cron, states, events, id, atLeast) && atLeast > 0
    requires id in states[0].table && states[0].table[id].enabled
    requires forall j :: 0 <= j < |events| && events[j].ClaimAborted? ==> NoneOverflows(cron, states[j].table, events[j].now)
    requires ClaimCalls(events, 0) >= (|Ahead(states[0].table, id)| + 1 + atLeast - 1) / atLeast
    ensures exists i :: ClaimsAt(states, events, i, id)
  {
    hide IsRun, OrderlyRun, Ahead, Claims, ClaimCalls, ClaimsAt, NoneOverflows;
    CallsSucceed(cron, states, events, 0);
    BoundedWaiting(cron, states, events, id, atLeast);
  }

  /** An enabled interval row that is due at `from` and whose next time overflows already then. */
  ghost predicate Overflows(t: Table, bad: string, from: int)
    requires ValidTable(t)
  {
    && bad in t && t[bad].enabled && t[bad].trigger.Interval? && t[bad].next <= from
    && !Representable(CoalesceInterval(t[bad].next, from, t[bad].trigger.period))
  }

  /** It overflows at every later moment too. */
  lemma OverflowLasts(persisted: int, from: int, now: int, period: int)
    requires period > 0 && from <= now && 0 <= persisted && !Representable(CoalesceInterval(persisted, from, period))
    ensures !Representable(CoalesceInterval(persisted, now, period))
  {
    CoalescedIsLeast(persisted, from, period);
    CoalescedIsLeast(persisted, now, period);
    var k: nat :| CoalesceInterval(persisted, now, period) == persisted + k * period;
    assert CoalesceInterval(persisted, from, period) <= persisted + k * period;
  }

  lemma SelectedFit(cron: CronClock, t: Table, ids: seq<string>, now: int)
    requires ValidTable(t) && Advances(cron, t, ids, now)
    ensures forall x :: x in ids && x in t ==> Representable(Advanced(cron, t[x], now))
  {
    hide Representable, Advanced;
    forall x | x in ids && x in t ensures Representable(Advanced(cron, t[x], now)) {
      var i :| 0 <= i < |ids| && ids[i] == x;
    }
  }

  /** A claim that succeeds leaves out every due row whose next time overflows, interval or cron, and so
      takes its whole limit from the rows due no later. */
  lemma OverflowingRowIsLeftOut(cron: CronClock, s: State, e: Event, s': State, bad: string)
    requires StrictlyLater(cron) && Consistent(s) && Next(cron, s, e, s') && e.Claim?
    requires bad in Due(s.table, e.now) && !Representable(Advanced(cron, s.table[bad], e.now))
    ensures bad !in e.ids && 0 <= e.limit <= |Ahead(s.table, bad)|
    ensures s'.table.Keys == s.table.Keys && s'.table[bad] == s.table[bad]
  {
    hide Representable, Advanced;
    SelectedFit(cron, s.table, e.ids, e.now);
    AtMostDue(s.table, e.now, e.limit, e.ids, bad);
  }

  /** A selection that leaves a due row out is full, with rows due no later than it. */
  lemma AtMostDue(t: Table, now: int, limit: int, ids: seq<string>, left: string)
    requires IsSelection(t, now, limit, ids) && left in Due(t, now) && left !in ids
    ensures 0 <= limit == |ids| <= |Ahead(t, left)|
  {
    DistinctCardinality(ids);
    var taken := SetOf(ids);
    assert taken <= Due(t, now) - {left};
    SubsetSize(taken, Due(t, now) - {left});
    forall x | x in taken ensures x in Ahead(t, left) { var i :| 0 <= i < |ids| && ids[i] == x; }
    SubsetSize(taken, Ahead(t, left));
  }

  /** What keeps such a row the earliest: nobody removes or disables it, or enables or creates a row that
      is due no later; claims come at no earlier moment. */
  ghost predicate LeavesEarliest(s: State, e: Event, s': State, bad: string, from: int)
    requires bad in s.table
  {
    match e
    case Claim(now, _, _) => now >= from
    case ClaimAborted(_, _, _) => true
    case Create(id, _, enabled, _) => enabled && id in s'.table ==> s'.table[id].next > s.table[bad].next
    case SetEnabled(x, enabled) =>
      (x == bad ==> enabled) && (enabled && x in s.table && x != bad ==> s.table[x].next > s.table[bad].next)
    case Remove(x) => x != bad
  }

  lemma AheadShrinks(cron: CronClock, s: State, e: Event, s': State, bad: string, from: int)
    requires StrictlyLater(cron) && Consistent(s) && Next(cron, s, e, s')
    requires bad in s.table && bad in s'.table && s'.table[bad].next == s.table[bad].next && LeavesEarliest(s, e, s', bad, from)
    ensures Ahead(s'.table, bad) <= Ahead(s.table, bad)
  {
    forall x | x in Ahead(s'.table, bad) ensures x in Ahead(s.table, bad) {
      StepOfJob(cron, s, e, s', x);
    }
  }

  lemma EarliestStays(cron: CronClock, s: State, e: Event, s': State, bad: string, from: int)
    requires StrictlyLater(cron) && Consistent(s) && Consistent(s') && Next(cron, s, e, s')
    requires Overflows(s.table, bad, from) && Ahead(s.table, bad) == {} && LeavesEarliest(s, e, s', bad, from)
    ensures Overflows(s'.table, bad, from) && Ahead(s'.table, bad) == {}
    ensures e.Claim? ==> e.limit == 0
  {
    hide CoalesceInterval, Ahead, IsSelection;
    if e.Claim? {
      OverflowLasts(s.table[bad].next, from, e.now, s.table[bad].trigger.period);
      OverflowingRowIsLeftOut(cron, s, e, s', bad);
    }
    assert Overflows(s'.table, bad, from);
    AheadShrinks(cron, s, e, s', bad, from);
  }

  /** In every run, an overflowing interval row due before all other enabled rows stops all claiming: no
      claim of any limit but zero succeeds, as long as the row stays the earliest. */
  lemma {:induction false} OverflowingRowBlocksClaims(cron: CronClock, states: seq<State>, events: seq<Event>, bad: string, from: int, n: nat)
    requires IsRun(cron, states, events) && n <= |events|
    requires Overflows(states[0].table, bad, from) && Ahead(states[0].table, bad) == {}
    requires forall i :: 0 <= i < n && bad in states[i].table ==> LeavesEarliest(states[i], events[i], states[i + 1], bad, from)
    ensures Overflows(states[n].table, bad, from) && Ahead(states[n].table, bad) == {}
    ensures forall i :: 0 <= i < n && events[i].Claim? ==> events[i].limit == 0
    decreases n
  {
    hide Next, LeavesEarliest, Ahead;
    if n > 0 {
      OverflowingRowBlocksClaims(cron, states, events, bad, from, n - 1);
      EarliestStays(cron, states[n - 1], events[n - 1], states[n], bad, from);
    }
  }

  /** Such a row needs no more than a schedule created one period before the last representable moment:
      for every period there is a run from the empty table to a table whose one row overflows. */
  lemma OverflowingRowCanBeCreated(cron: CronClock, period: int)
    requires StrictlyLater(cron) && 0 < period < END_OF_TIME
    ensures exists states: seq<State>, events: seq<Event> ::
              && IsRun(cron, states, events) && |events| == 1 && events[0].Create?
              && states[0] == State(map[], {}) && "a" in states[1].table && states[1].table["a"].trigger == Interval(period)
              && Overflows(states[1].table, "a", END_OF_TIME - 1) && Ahead(states[1].table, "a") == {}
  {
    var last := END_OF_TIME - 1;
    var create := Create("a", Interval(period), true, last - period);
    var before, after := State(map[], {}), State(map["a" := Job(true, Interval(period), last)], {"a"});
    assert Next(cron, before, create, after);
    var states, events := [before, after], [create];
    assert IsRun(cron, states, events);
    CoalescedIsLeast(last, last, period);
    assert Overflows(states[1].table, "a", last) && Ahead(states[1].table, "a") == {};
  }
}
