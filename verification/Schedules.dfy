/** The schedule table as a map of jobs, and one atomic claim on it. */
module ScheduleTable {
  import opened IsoTime
  import opened Recurrence
  import opened Collections

  datatype Job = Job(enabled: bool, trigger: Trigger, next: int)

  type Table = map<string, Job>

  ghost predicate ValidTable(t: Table) {
    forall id :: id in t ==> t[id].trigger.Valid() && Representable(t[id].next)
  }

  function Due(t: Table, now: int): set<string> {
    set id | id in t && t[id].enabled && t[id].next <= now
  }

  /** A legal answer to the claim's SELECT: the earliest due rows, at most `limit` of them (a negative
      SQL limit means no limit), sorted by time; ties may come in any order. */
  ghost predicate IsSelection(t: Table, now: int, limit: int, ids: seq<string>) {
    && Distinct(ids)
    && (forall i :: 0 <= i < |ids| ==> ids[i] in Due(t, now))
    && (forall i, j :: 0 <= i < j < |ids| ==> t[ids[i]].next <= t[ids[j]].next)
    && |ids| == (if limit < 0 || |Due(t, now)| <= limit then |Due(t, now)| else limit)
    && (forall i, d :: 0 <= i < |ids| && d in Due(t, now) && d !in ids ==> t[ids[i]].next <= t[d].next)
  }

  function Advanced(cron: CronClock, job: Job, now: int): int
    requires job.trigger.Valid()
  {
    job.trigger.Coalesce(cron, job.next, now)
  }

  /** Computing a date past year 9999 raises in the source, which then commits nothing. */
  ghost predicate Advances(cron: CronClock, t: Table, ids: seq<string>, now: int)
    requires ValidTable(t)
  {
    forall i :: 0 <= i < |ids| && ids[i] in t ==> Representable(Advanced(cron, t[ids[i]], now))
  }

  /** The table after the claim of `ids` has committed. */
  ghost function Claimed(cron: CronClock, t: Table, ids: seq<string>, now: int): (t': Table)
    requires ValidTable(t)
    ensures t'.Keys == t.Keys
  {
    map id | id in t :: if id in ids then t[id].(next := Advanced(cron, t[id], now)) else t[id]
  }

  /** What a claim promises about a claimed row: it is next due at its first run after the claim. */
  ghost predicate FirstRunAfter(t: Table, fires: Firing, id: string, now: int, t': Table)
    requires id in t && id in t'
  {
    IsFirstAfter(t[id].trigger, fires, t[id].next, now, t'[id].next)
  }

  /** However many runs a claimed row has missed, interval or cron, it is next due at the first one after
      the claim; every other row keeps its time. */
  lemma ClaimedIsNextRun(cron: CronClock, fires: Firing, t: Table, limit: int, ids: seq<string>, now: int)
    requires ValidTable(t) && FiresNext(cron, fires) && IsSelection(t, now, limit, ids)
    ensures forall id :: id in ids ==> id in t && FirstRunAfter(t, fires, id, now, Claimed(cron, t, ids, now))
    ensures forall id :: id in t && id !in ids ==> Claimed(cron, t, ids, now)[id] == t[id]
  {
    hide IsFirstAfter, FiresNext;
    forall id | id in ids ensures id in t && FirstRunAfter(t, fires, id, now, Claimed(cron, t, ids, now)) {
      var i :| 0 <= i < |ids| && ids[i] == id;
      assert id in Due(t, now);
      CoalescedIsFirst(t[id].trigger, cron, fires, t[id].next, now);
    }
  }

  lemma ClaimOneMore(cron: CronClock, t: Table, ids: seq<string>, i: nat, now: int)
    requires ValidTable(t) && Distinct(ids) && i < |ids| && ids[i] in t
    ensures ids[..i + 1] == ids[..i] + [ids[i]] && ids[i] !in ids[..i]
    ensures Claimed(cron, t, ids[..i + 1], now)
         == Claimed(cron, t, ids[..i], now)[ids[i] := t[ids[i]].(next := Advanced(cron, t[ids[i]], now))]
  {
    hide Advanced;
    assert ids[..i + 1] == ids[..i] + [ids[i]];
    assert ids[i] !in ids[..i];
  }

  /** An interval schedule's next time stays representable while one period still fits before the end
      of time. */
  lemma IntervalFits(cron: CronClock, job: Job, now: int)
    requires job.trigger.Valid() && job.trigger.Interval? && Representable(job.next)
    requires Representable(now + job.trigger.period)
    ensures job.next <= now ==> Representable(Advanced(cron, job, now))
  {
    var p := job.trigger.period;
    if job.next <= now {
      CoalescedIsLeast(job.next, now, p);
      var q, r := (now - job.next) / p, (now - job.next) % p;
      assert now - job.next == q * p + r;
      assert p * (q + 1) == q * p + p;
    }
  }

  // ---- Every due set has a selection ----

  /** The order in which SELECT may list jobs: by time, ties by identifier. */
  lemma {:induction false} SelectionOf(t: Table, due: set<string>, n: nat) returns (ids: seq<string>)
    requires forall d :: d in due ==> d in t
    requires n <= |due|
    ensures Distinct(ids) && |ids| == n
    ensures forall i :: 0 <= i < |ids| ==> ids[i] in due
    ensures forall i, j :: 0 <= i < j < |ids| ==> t[ids[i]].next <= t[ids[j]].next
    ensures forall i, d :: 0 <= i < |ids| && d in due && d !in ids ==> t[ids[i]].next <= t[d].next
    decreases n
  {
    if n == 0 {
      ids := [];
    } else {
      var first := Earliest(t, due);
      var rest := SelectionOf(t, due - {first}, n - 1);
      ids := [first] + rest;
    }
  }

  lemma {:induction false} Earliest(t: Table, due: set<string>) returns (e: string)
    requires due != {} && forall d :: d in due ==> d in t
    ensures e in due && forall d :: d in due ==> t[e].next <= t[d].next
    decreases |due|
  {
    e :| e in due;
    if due != {e} {
      assert due - {e} != {};
      var f := Earliest(t, due - {e});
      if t[f].next < t[e].next { e := f; }
    }
  }

  lemma SelectionExists(t: Table, now: int, limit: int)
    ensures exists ids :: IsSelection(t, now, limit, ids)
  {
    var due := Due(t, now);
    var n := if limit < 0 || |due| <= limit then |due| else limit;
    var ids := SelectionOf(t, due, n);
    assert IsSelection(t, now, limit, ids);
  }
}

/** The store itself: rows hold ISO text, as in the database, and are compared as text. */
module Schedules {
  import opened Collections
  import opened IsoTime
  import opened Lexicographic
  import opened Options
  import opened Recurrence
  import opened ScheduleTable

  datatype Row = Row(enabled: bool, trigger: Trigger, nextRunAt: string, lastRunAt: Option<string>)

  datatype ClaimResult = ClaimedRows(rows: seq<(string, Row)>) | ClaimFailed

  function TextDue(rows: map<string, Row>, now: string): set<string> {
    set id | id in rows && rows[id].enabled && LexAtMost(rows[id].nextRunAt, now)
  }

  /** What SQLite may return for the claim's SELECT, with its text comparisons. */
  ghost predicate IsTextSelection(rows: map<string, Row>, now: string, limit: int, ids: seq<string>) {
    && Distinct(ids)
    && (forall i :: 0 <= i < |ids| ==> ids[i] in TextDue(rows, now))
    && (forall i, j :: 0 <= i < j < |ids| ==> LexAtMost(rows[ids[i]].nextRunAt, rows[ids[j]].nextRunAt))
    && |ids| == (if limit < 0 || |TextDue(rows, now)| <= limit then |TextDue(rows, now)| else limit)
    && (forall i, d :: 0 <= i < |ids| && d in TextDue(rows, now) && d !in ids ==>
                         LexAtMost(rows[ids[i]].nextRunAt, rows[d].nextRunAt))
  }

  ghost predicate ValidRow(r: Row) {
    r.trigger.Valid() && exists t :: Representable(t) && r.nextRunAt == Text(t)
  }

  ghost predicate ValidRows(rows: map<string, Row>) {
    forall id :: id in rows ==> ValidRow(rows[id])
  }

  ghost function JobOf(r: Row): (j: Job)
    requires ValidRow(r)
    ensures Representable(j.next) && r.nextRunAt == Text(j.next)
    ensures j.enabled == r.enabled && j.trigger == r.trigger
  {
    var t :| Representable(t) && r.nextRunAt == Text(t);
    Job(r.enabled, r.trigger, t)
  }

  ghost function JobsOf(rows: map<string, Row>): (t: Table)
    requires ValidRows(rows)
    ensures ValidTable(t) && t.Keys == rows.Keys
  {
    map id | id in rows :: JobOf(rows[id])
  }

  lemma JobOfText(r: Row, t: int)
    requires r.trigger.Valid() && Representable(t) && r.nextRunAt == Text(t)
    ensures ValidRow(r) && JobOf(r) == Job(r.enabled, r.trigger, t)
  {
    TextOrder(JobOf(r).next, t);
  }

  /** Text comparison selects exactly what comparison of instants selects. */
  lemma SelectionsAgree(rows: map<string, Row>, now: int, limit: int, ids: seq<string>)
    requires ValidRows(rows) && Representable(now)
    ensures IsTextSelection(rows, Text(now), limit, ids) <==> IsSelection(JobsOf(rows), now, limit, ids)
  {
    hide Text;
    var t := JobsOf(rows);
    forall id | id in rows
      ensures LexAtMost(rows[id].nextRunAt, Text(now)) <==> t[id].next <= now
    {
      TextOrder(t[id].next, now);
    }
    assert TextDue(rows, Text(now)) == Due(t, now);
    forall a, b | a in rows && b in rows
      ensures LexAtMost(rows[a].nextRunAt, rows[b].nextRunAt) <==> t[a].next <= t[b].next
    {
      TextOrder(t[a].next, t[b].next);
    }
  }

  lemma StoredInstant(r: Row, t: int)
    requires ValidRow(r) && JobOf(r).next == t
    ensures Instant(r.nextRunAt) == Some(t)
  {
    hide Text, Instant;
    InstantOfText(t);
  }

  lemma ReplacedJob(rows: map<string, Row>, id: string, r: Row, next: int)
    requires ValidRows(rows) && r.trigger.Valid() && Representable(next) && r.nextRunAt == Text(next)
    ensures ValidRows(rows[id := r])
    ensures JobsOf(rows[id := r]) == JobsOf(rows)[id := Job(r.enabled, r.trigger, next)]
  {
    hide Text;
    JobOfText(r, next);
  }

  /** The claim's working copy after its first i rows: these are advanced and stamped, the others as before. */
  ghost predicate ClaimedSoFar(cron: CronClock, rows: map<string, Row>, work: map<string, Row>,
                               claimed: seq<(string, Row)>, ids: seq<string>, i: nat, now: int)
    requires ValidRows(rows) && i <= |ids| && Representable(now)
  {
    && ValidRows(work) && work.Keys == rows.Keys && |claimed| == i
    && (forall k :: 0 <= k < i && ids[k] in rows ==> claimed[k] == (ids[k], rows[ids[k]]))
    && Advances(cron, JobsOf(rows), ids[..i], now)
    && JobsOf(work) == Claimed(cron, JobsOf(rows), ids[..i], now)
    && (forall id :: id in rows ==>
          if id in ids[..i] then work[id].lastRunAt == Some(Text(now)) else work[id] == rows[id])
  }

  lemma ClaimStep(cron: CronClock, rows: map<string, Row>, work: map<string, Row>,
                  claimed: seq<(string, Row)>, ids: seq<string>, i: nat, now: int, advanced: Row)
    requires ValidRows(rows) && i < |ids| && Representable(now) && Distinct(ids) && ids[i] in rows
    requires ClaimedSoFar(cron, rows, work, claimed, ids, i, now)
    requires var next := Advanced(cron, JobsOf(rows)[ids[i]], now);
             Representable(next) && advanced == rows[ids[i]].(nextRunAt := Text(next), lastRunAt := Some(Text(now)))
    ensures ClaimedSoFar(cron, rows, work[ids[i] := advanced], claimed + [(ids[i], rows[ids[i]])], ids, i + 1, now)
  {
    hide Text, JobOf, ValidRow, Advanced;
    var before, id := JobsOf(rows), ids[i];
    ClaimOneMore(cron, before, ids, i, now);
    TriggerIsValid(rows[id]);
    ReplacedJob(work, id, advanced, Advanced(cron, before[id], now));
  }

  lemma SelectedAreRows(t: Table, now: int, limit: int, ids: seq<string>)
    requires IsSelection(t, now, limit, ids)
    ensures Distinct(ids) && forall i :: 0 <= i < |ids| ==> ids[i] in t
  {
  }

  lemma NothingClaimedYet(cron: CronClock, rows: map<string, Row>, ids: seq<string>, now: int)
    requires ValidRows(rows) && Representable(now)
    ensures ClaimedSoFar(cron, rows, rows, [], ids, 0, now)
  {
    hide Text, JobOf, ValidRow, Advanced;
  }

  lemma RowIsUntouched(cron: CronClock, rows: map<string, Row>, work: map<string, Row>,
                       claimed: seq<(string, Row)>, ids: seq<string>, i: nat, now: int)
    requires ValidRows(rows) && i < |ids| && Representable(now) && Distinct(ids) && ids[i] in rows
    requires ClaimedSoFar(cron, rows, work, claimed, ids, i, now)
    ensures ids[i] in work && work[ids[i]] == rows[ids[i]] && ValidRow(rows[ids[i]]) && rows[ids[i]].trigger.Valid()
    ensures ids[i] in JobsOf(rows) && JobOf(rows[ids[i]]) == JobsOf(rows)[ids[i]]
  {
    hide Text, JobOf, Advanced;
    assert ids[i] !in ids[..i];
  }

  lemma AdvancedOf(cron: CronClock, r: Row, now: int)
    requires ValidRow(r) && r.trigger.Valid()
    ensures Advanced(cron, JobOf(r), now) == r.trigger.Coalesce(cron, JobOf(r).next, now)
  {
    hide Text;
  }

  lemma AllClaimed(cron: CronClock, rows: map<string, Row>, work: map<string, Row>,
                   claimed: seq<(string, Row)>, ids: seq<string>, now: int)
    requires ValidRows(rows) && Representable(now) && ClaimedSoFar(cron, rows, work, claimed, ids, |ids|, now)
    requires forall i :: 0 <= i < |ids| ==> ids[i] in rows
    ensures ValidRows(work) && work.Keys == rows.Keys && Advances(cron, JobsOf(rows), ids, now)
    ensures JobsOf(work) == Claimed(cron, JobsOf(rows), ids, now)
    ensures |claimed| == |ids| && forall i :: 0 <= i < |ids| ==> claimed[i] == (ids[i], rows[ids[i]])
    ensures forall id :: id in rows ==> work[id].lastRunAt == if id in ids then Some(Text(now)) else rows[id].lastRunAt
  {
    hide Text, JobOf, ValidRow, Advanced, Claimed;
    assert ids[..|ids|] == ids;
  }

  lemma TriggerIsValid(r: Row)
    requires ValidRow(r)
    ensures r.trigger.Valid()
  {
  }

  class ScheduleStore {
    const cron: CronClock
    /** When cron expressions fire, as the library reads them. */
    ghost const fires: Firing
    var rows: map<string, Row>

    ghost predicate Valid()
      reads this
    {
      FiresNext(cron, fires) && ValidRows(rows)
    }

    ghost function Jobs(): (t: Table)
      requires Valid()
      reads this
      ensures ValidTable(t) && t.Keys == rows.Keys
    {
      JobsOf(rows)
    }

    constructor (cron: CronClock, ghost fires: Firing)
      requires FiresNext(cron, fires)
      ensures Valid() && rows == map[] && this.cron == cron && this.fires == fires
    {
      this.cron, this.fires := cron, fires;
      rows := map[];
    }

    /** One claim transaction; `selected` is what the database answered to its SELECT. */
    method ClaimDue(now: int, limit: int, selected: seq<string>) returns (result: ClaimResult)
      requires Valid() && Representable(now)
      requires IsTextSelection(rows, Text(now), limit, selected)
      modifies this
      ensures Valid()
      ensures IsSelection(old(Jobs()), now, limit, selected)
      ensures result.ClaimFailed? <==> !Advances(cron, old(Jobs()), selected, now)
      ensures result.ClaimFailed? ==> rows == old(rows)
      ensures result.ClaimedRows? ==>
                && Jobs() == Claimed(cron, old(Jobs()), selected, now)
                && (forall id :: id in selected ==> FirstRunAfter(old(Jobs()), fires, id, now, Jobs()))
                && |result.rows| == |selected|
                && (forall i :: 0 <= i < |selected| ==> result.rows[i] == (selected[i], old(rows)[selected[i]]))
                && (forall id :: id in rows ==>
                      rows[id].lastRunAt == if id in selected then Some(Text(now)) else old(rows)[id].lastRunAt)
    {
      hide Text, Instant, JobOf, ValidRow, IsTextSelection, ClaimedSoFar, Claimed, Advanced, FirstRunAfter, FiresNext;
      SelectionsAgree(rows, now, limit, selected);
      SelectedAreRows(Jobs(), now, limit, selected);
      var work := rows;
      var claimed: seq<(string, Row)> := [];
      NothingClaimedYet(cron, rows, selected, now);
      for i := 0 to |selected|
        invariant Valid() && rows == old(rows)
        invariant ClaimedSoFar(cron, rows, work, claimed, selected, i, now)
      {
        var id := selected[i];
        RowIsUntouched(cron, rows, work, claimed, selected, i, now);
        var row := work[id];
        StoredInstant(row, Jobs()[id].next);
        var next := row.trigger.Coalesce(cron, Instant(row.nextRunAt).value, now);
        assert next == Advanced(cron, Jobs()[id], now) by { AdvancedOf(cron, row, now); }
        if !Representable(next) {
          return ClaimFailed;
        }
        var advanced := row.(nextRunAt := Text(next), lastRunAt := Some(Text(now)));
        ClaimStep(cron, rows, work, claimed, selected, i, now, advanced);
        work := work[id := advanced];
        claimed := claimed + [(id, row)];
      }
      AllClaimed(cron, rows, work, claimed, selected, now);
      ClaimedIsNextRun(cron, fires, Jobs(), limit, selected, now);
      rows := work;
      return ClaimedRows(claimed);
    }

    /** A new identifier never repeats one that is in the table. */
    method CreateSchedule(id: string, trigger: Trigger, enabled: bool, now: int) returns (ok: bool)
      requires Valid() && id !in rows && trigger.Valid() && Representable(now)
      modifies this
      ensures Valid()
      ensures ok <==> Representable(trigger.NextRunAt(cron, now))
      ensures Jobs() == if ok then old(Jobs())[id := Job(enabled, trigger, trigger.NextRunAt(cron, now))] else old(Jobs())
      ensures ok ==> IsFirstAfter(trigger, fires, now, now, Jobs()[id].next)
      ensures ok && trigger.Interval? ==> Jobs()[id].next == now + trigger.period
      ensures forall x :: x in old(rows) ==> rows[x] == old(rows)[x]
    {
      hide Text, FiresNext, IsFirstAfter;
      var next := trigger.NextRunAt(cron, now);
      FirstRunIs(trigger, cron, fires, now);
      ok := Representable(next);
      if ok {
        var row := Row(enabled, trigger, Text(next), None);
        ReplacedJob(rows, id, row, next);
        rows := rows[id := row];
      }
    }

    method SetEnabled(id: string, enabled: bool) returns (existed: bool)
      requires Valid()
      modifies this
      ensures Valid()
      ensures existed <==> id in old(rows)
      ensures Jobs() == if existed then old(Jobs())[id := old(Jobs())[id].(enabled := enabled)] else old(Jobs())
    {
      hide Text;
      existed := id in rows;
      if existed {
        ReplacedJob(rows, id, rows[id].(enabled := enabled), JobOf(rows[id]).next);
        rows := rows[id := rows[id].(enabled := enabled)];
      }
    }

    method Remove(id: string) returns (existed: bool)
      requires Valid()
      modifies this
      ensures Valid()
      ensures existed <==> id in old(rows)
      ensures Jobs() == old(Jobs()) - {id}
    {
      hide Text;
      existed := id in rows;
      rows := rows - {id};
    }
  }
}
