/** The run ledger: numbered events, numbered approvals and status transitions of each run. */
module RunLedger {
  import opened Options

  datatype Event = Event(kind: string, payload: string)

  datatype Approval = Approval(decision: string, actor: string)

  /** The three tables. Event and approval rows are keyed by run and sequence number. */
  datatype Ledger = Ledger(
    runs: map<string, string>,
    events: map<(string, int), Event>,
    approvals: map<(string, int), Approval>)

  predicate Terminal(status: string) {
    status == "completed" || status == "error" || status == "cancelled"
  }

  // ---- Sequence numbers ----

  /** The table's numbers for one run. */
  function Numbers<T>(rows: map<(string, int), T>, run: string): set<int> {
    set k | k in rows && k.0 == run :: k.1
  }

  /** A run's rows are numbered 1..n. */
  ghost predicate Numbered<T>(rows: map<(string, int), T>, run: string, n: nat) {
    forall i: int :: (run, i) in rows <==> 1 <= i <= n
  }

  ghost predicate IsMax(numbers: set<int>, m: int) {
    m in numbers && forall i :: i in numbers ==> i <= m
  }

  /** `COALESCE(MAX(seq), 0)`. */
  function MaxSeq(numbers: set<int>): (m: int)
    ensures numbers == {} ==> m == 0
    ensures numbers != {} ==> m in numbers && forall i :: i in numbers ==> i <= m
  {
    if numbers == {} then 0
    else
      MaxExists(numbers);
      var m :| m in numbers && forall i :: i in numbers ==> i <= m;
      m
  }

  lemma {:induction false} MaxExists(numbers: set<int>)
    requires numbers != {}
    ensures exists m :: IsMax(numbers, m)
  {
    assert (forall x: int :: x !in numbers) ==> numbers == {};
    var x: int :| x in numbers;
    var rest := numbers - {x};
    if rest == {} {
      OnlyOne(numbers, x);
    } else {
      hide IsMax;
      MaxExists(rest);
      var m :| IsMax(rest, m);
      LargerOfTwo(numbers, x, m);
    }
  }

  lemma OnlyOne(numbers: set<int>, x: int)
    requires x in numbers && numbers - {x} == {}
    ensures IsMax(numbers, x)
  {
    forall i | i in numbers ensures i == x { assert i !in numbers - {x}; }
  }

  lemma LargerOfTwo(numbers: set<int>, x: int, m: int)
    requires x in numbers && IsMax(numbers - {x}, m)
    ensures IsMax(numbers, if x <= m then m else x)
  {
    forall i | i in numbers ensures i == x || i <= m { if i != x { assert i in numbers - {x}; } }
  }

  function NextSeq<T>(rows: map<(string, int), T>, run: string): int {
    MaxSeq(Numbers(rows, run)) + 1
  }

  lemma NextAfterNumbered<T>(rows: map<(string, int), T>, run: string, n: nat)
    requires Numbered(rows, run, n)
    ensures NextSeq(rows, run) == n + 1
  {
    var numbers := Numbers(rows, run);
    forall i ensures i in numbers <==> 1 <= i <= n {
      if 1 <= i <= n { assert (run, i) in rows; }
    }
    if n > 0 { assert n in numbers; }
  }

  // ---- Transactions as functions ----

  function WithEvent(l: Ledger, run: string, e: Event): Ledger {
    l.(events := l.events[(run, NextSeq(l.events, run)) := e])
  }

  function WithApproval(l: Ledger, run: string, a: Approval): Ledger {
    l.(approvals := l.approvals[(run, NextSeq(l.approvals, run)) := a])
  }

  function WithStatus(l: Ledger, run: string, status: string): Ledger {
    if run in l.runs then l.(runs := l.runs[run := status]) else l
  }

  predicate Has(l: Ledger, run: string, status: string) {
    run in l.runs && l.runs[run] == status
  }

  // ---- The ledger's own object ----

  class RunStore {
    var runs: map<string, string>
    var events: map<(string, int), Event>
    var approvals: map<(string, int), Approval>

    ghost function Now(): Ledger
      reads this
    {
      Ledger(runs, events, approvals)
    }

    constructor ()
      ensures Now() == Ledger(map[], map[], map[])
    {
      runs, events, approvals := map[], map[], map[];
    }

    /** Run identifiers are UUIDs and do not repeat. */
    method CreateRun(run: string)
      requires run !in runs
      modifies this`runs
      ensures runs == old(runs)[run := "queued"]
    {
      runs := runs[run := "queued"];
    }

    method AppendEvent(run: string, e: Event) returns (seq_: int)
      modifies this`events
      ensures seq_ == NextSeq(old(events), run) && Now() == WithEvent(old(Now()), run, e)
    {
      hide NextSeq;
      seq_ := NextSeq(events, run);
      events := events[(run, seq_) := e];
    }

    method SetStatus(run: string, status: string)
      modifies this`runs
      ensures Now() == WithStatus(old(Now()), run, status)
    {
      if run in runs { runs := runs[run := status]; }
    }

    method TransitionStatus(run: string, expected: string, status: string) returns (moved: bool)
      modifies this`runs
      ensures moved <==> Has(old(Now()), run, expected)
      ensures Now() == if moved then WithStatus(old(Now()), run, status) else old(Now())
    {
      moved := run in runs && runs[run] == expected;
      if moved { runs := runs[run := status]; }
    }

    /** None stands for the error "run not found". */
    method RecordApproval(run: string, a: Approval) returns (seq_: Option<int>)
      modifies this`approvals
      ensures seq_ == if run in runs then Some(NextSeq(old(approvals), run)) else None
      ensures Now() == if run in runs then WithApproval(old(Now()), run, a) else old(Now())
    {
      hide NextSeq;
      if run !in runs { return None; }
      var n := NextSeq(approvals, run);
      approvals := approvals[(run, n) := a];
      return Some(n);
    }

    method RecordApprovalAndTransition(run: string, a: Approval, expected: string, status: string) returns (moved: bool)
      modifies this
      ensures moved <==> Has(old(Now()), run, expected)
      ensures Now() == if moved then WithStatus(WithApproval(old(Now()), run, a), run, status) else old(Now())
    {
      hide NextSeq;
      if run !in runs || runs[run] != expected { return false; }
      var n := NextSeq(approvals, run);
      approvals := approvals[(run, n) := a];
      runs := runs[run := status];
      return true;
    }

    method RecordCancellationAndTransition(run: string, actor: string) returns (moved: bool)
      modifies this
      ensures moved <==> run in old(runs) && !Terminal(old(runs)[run])
      ensures Now() == if moved then WithStatus(WithApproval(old(Now()), run, Approval("cancelled", actor)), run, "cancelled")
                       else old(Now())
    {
      hide NextSeq;
      if run !in runs || Terminal(runs[run]) { return false; }
      var n := NextSeq(approvals, run);
      approvals := approvals[(run, n) := Approval("cancelled", actor)];
      runs := runs[run := "cancelled"];
      return true;
    }
  }

  // ---- Interleavings of transactions ----

  datatype Transaction =
    | Create(run: string)
    | Append(run: string, event: Event)
    | Set(run: string, status: string)
    | Transition(run: string, expected: string, status: string)
    | Approve(run: string, approval: Approval)
    | ApproveAndMove(run: string, approval: Approval)  // interrupted to running
    | Cancel(run: string, actor: string)

  function Next(l: Ledger, t: Transaction): Ledger {
    match t
    case Create(run) => if run in l.runs then l else l.(runs := l.runs[run := "queued"])
    case Append(run, e) => WithEvent(l, run, e)
    case Set(run, status) => WithStatus(l, run, status)
    case Transition(run, expected, status) => if Has(l, run, expected) then WithStatus(l, run, status) else l
    case Approve(run, a) => if run in l.runs then WithApproval(l, run, a) else l
    case ApproveAndMove(run, a) =>
      if Has(l, run, "interrupted") then WithStatus(WithApproval(l, run, a), run, "running") else l
    case Cancel(run, actor) =>
      if run in l.runs && !Terminal(l.runs[run])
      then WithStatus(WithApproval(l, run, Approval("cancelled", actor)), run, "cancelled") else l
  }

  function After(ts: seq<Transaction>): Ledger {
    if ts == [] then Ledger(map[], map[], map[]) else Next(After(ts[..|ts| - 1]), ts[|ts| - 1])
  }

  /** Event rows a transaction adds to a run, and approval rows. */
  function EventsAdded(t: Transaction, run: string): nat {
    if t.Append? && t.run == run then 1 else 0
  }

  function ApprovalsAdded(l: Ledger, t: Transaction, run: string): nat {
    if t.run != run then 0
    else
      match t
      case Approve(_, _) => if run in l.runs then 1 else 0
      case ApproveAndMove(_, _) => if Has(l, run, "interrupted") then 1 else 0
      case Cancel(_, _) => if run in l.runs && !Terminal(l.runs[run]) then 1 else 0
      case _ => 0
  }

  function EventCount(ts: seq<Transaction>, run: string): nat {
    if ts == [] then 0 else EventCount(ts[..|ts| - 1], run) + EventsAdded(ts[|ts| - 1], run)
  }

  function ApprovalCount(ts: seq<Transaction>, run: string): nat {
    if ts == [] then 0
    else ApprovalCount(ts[..|ts| - 1], run) + ApprovalsAdded(After(ts[..|ts| - 1]), ts[|ts| - 1], run)
  }

  lemma AddRow<T>(rows: map<(string, int), T>, run: string, n: nat, row: T, other: string, m: nat)
    requires Numbered(rows, run, n) && Numbered(rows, other, m) && (other == run ==> m == n)
    ensures Numbered(rows[(run, NextSeq(rows, run)) := row], other, if other == run then n + 1 else m)
  {
    hide NextSeq;
    NextAfterNumbered(rows, run, n);
  }

  /** With n rows of `run` and k of the run that the transaction is about. */
  lemma EventsStayNumbered(l: Ledger, t: Transaction, run: string, n: nat, k: nat)
    requires Numbered(l.events, run, n) && Numbered(l.events, t.run, k) && (run == t.run ==> n == k)
    ensures Numbered(Next(l, t).events, run, n + EventsAdded(t, run))
  {
    hide NextSeq, Numbered;
    if t.Append? { AddRow(l.events, t.run, k, t.event, run, n); }
  }

  lemma ApprovalsStayNumbered(l: Ledger, t: Transaction, run: string, m: nat, k: nat)
    requires Numbered(l.approvals, run, m) && Numbered(l.approvals, t.run, k) && (run == t.run ==> m == k)
    ensures Numbered(Next(l, t).approvals, run, m + ApprovalsAdded(l, t, run))
  {
    hide NextSeq, Numbered;
    if t.Approve? || t.ApproveAndMove? || t.Cancel? {
      AddRow(l.approvals, t.run, k, if t.Cancel? then Approval("cancelled", t.actor) else t.approval, run, m);
    }
  }

  /** In every interleaving each run's events, and its approvals, are numbered exactly 1..n, where n
      counts the transactions that added one. */
  lemma {:induction false} NumbersAreGapless(ts: seq<Transaction>, run: string)
    ensures Numbered(After(ts).events, run, EventCount(ts, run))
    ensures Numbered(After(ts).approvals, run, ApprovalCount(ts, run))
  {
    hide Numbered, Next;
    if ts == [] {
      EmptyNumbered<Event>(run);
      EmptyNumbered<Approval>(run);
    } else {
      var before, t := ts[..|ts| - 1], ts[|ts| - 1];
      NumbersAreGapless(before, run);
      NumbersAreGapless(before, t.run);
      EventsStayNumbered(After(before), t, run, EventCount(before, run), EventCount(before, t.run));
      ApprovalsStayNumbered(After(before), t, run, ApprovalCount(before, run), ApprovalCount(before, t.run));
    }
  }

  lemma EmptyNumbered<T>(run: string)
    ensures Numbered<T>(map[], run, 0)
  {
  }

  // ---- The rows are what was appended ----

  /** A run's events in the order of their transactions, and its approvals. */
  function Appended(ts: seq<Transaction>, run: string): (es: seq<Event>)
    ensures |es| == EventCount(ts, run)
  {
    if ts == [] then []
    else
      var t := ts[|ts| - 1];
      Appended(ts[..|ts| - 1], run) + if t.Append? && t.run == run then [t.event] else []
  }

  /** What a transaction says about approvals of a run that takes it. */
  function ApprovalOf(t: Transaction): Approval
    requires t.Approve? || t.ApproveAndMove? || t.Cancel?
  {
    if t.Cancel? then Approval("cancelled", t.actor) else t.approval
  }

  function Approved(ts: seq<Transaction>, run: string): (aps: seq<Approval>)
    ensures |aps| == ApprovalCount(ts, run)
  {
    if ts == [] then []
    else
      var before, t := ts[..|ts| - 1], ts[|ts| - 1];
      Approved(before, run) + if ApprovalsAdded(After(before), t, run) == 1 then [ApprovalOf(t)] else []
  }

  ghost predicate Lists<T>(rows: map<(string, int), T>, run: string, xs: seq<T>) {
    Numbered(rows, run, |xs|) && forall i :: 1 <= i <= |xs| ==> rows[(run, i)] == xs[i - 1]
  }

  lemma AddToList<T>(rows: map<(string, int), T>, run: string, xs: seq<T>, row: T, other: string, ys: seq<T>)
    requires Lists(rows, run, xs) && Lists(rows, other, ys) && (other == run ==> xs == ys)
    ensures Lists(rows[(run, NextSeq(rows, run)) := row], other, if other == run then ys + [row] else ys)
  {
    hide NextSeq;
    NextAfterNumbered(rows, run, |xs|);
  }

  /** In every interleaving the tables hold, for each run, exactly the events appended to it and the
      approvals it took, in the order of their transactions: no row is lost, changed or moved. */
  lemma {:induction false} RowsAreTheHistory(ts: seq<Transaction>, run: string)
    ensures Lists(After(ts).events, run, Appended(ts, run))
    ensures Lists(After(ts).approvals, run, Approved(ts, run))
  {
    hide Lists, NextSeq;
    if ts == [] {
      NoRows<Event>(run);
      NoRows<Approval>(run);
    } else {
      var before, t := ts[..|ts| - 1], ts[|ts| - 1];
      RowsAreTheHistory(before, run);
      RowsAreTheHistory(before, t.run);
      var l := After(before);
      assert Appended(before, run) + [] == Appended(before, run) && Approved(before, run) + [] == Approved(before, run);
      if t.Append? { AddToList(l.events, t.run, Appended(before, t.run), t.event, run, Appended(before, run)); }
      if ApprovalsAdded(l, t, t.run) == 1 {
        AddToList(l.approvals, t.run, Approved(before, t.run), ApprovalOf(t), run, Approved(before, run));
      }
    }
  }

  lemma NoRows<T>(run: string)
    ensures Lists<T>(map[], run, [])
  {
  }

  // ---- Status ----

  function StatusIn(l: Ledger, run: string): Option<string> {
    if run in l.runs then Some(l.runs[run]) else None
  }

  /** What each transaction makes of a run's status: a cancellation is refused exactly by a completed, failed
      or cancelled run, and an approval resumes exactly an interrupted one. */
  lemma StatusAfter(l: Ledger, t: Transaction, run: string)
    ensures var was, now := StatusIn(l, run), StatusIn(Next(l, t), run);
            now == if t.run != run then was
                  else match t
                    case Create(_) => if was.None? then Some("queued") else was
                    case Append(_, _) => was
                    case Set(_, status) => if was.Some? then Some(status) else None
                    case Transition(_, expected, status) => if was == Some(expected) then Some(status) else was
                    case Approve(_, _) => was
                    case ApproveAndMove(_, _) => if was == Some("interrupted") then Some("running") else was
                    case Cancel(_, _) =>
                      if was.Some? && was.value !in ["completed", "error", "cancelled"] then Some("cancelled") else was
  {
  }

  /** A run that has completed, failed or been cancelled stays so, in every interleaving, whatever approvals
      and cancellations still arrive, unless its status is set outright or a transition expects it. */
  lemma {:induction false} FinishedStays(ts: seq<Transaction>, more: seq<Transaction>, run: string, status: string)
    requires StatusIn(After(ts), run) == Some(status) && status in ["completed", "error", "cancelled"]
    requires forall i :: 0 <= i < |more| && more[i].run == run ==>
               !more[i].Set? && (more[i].Transition? ==> more[i].expected != status)
    ensures StatusIn(After(ts + more), run) == Some(status)
    decreases |more|
  {
    if more == [] {
      assert ts + more == ts;
    } else {
      var n := |more| - 1;
      FinishedStays(ts, more[..n], run, status);
      assert (ts + more)[..|ts + more| - 1] == ts + more[..n];
      StatusAfter(After(ts + more[..n]), more[n], run);
    }
  }

  // ---- Approvals and interruptions ----

  /** Atomic approvals of a run that added a row. */
  function AtomicApprovals(ts: seq<Transaction>, run: string): nat {
    if ts == [] then 0
    else
      var t := ts[|ts| - 1];
      AtomicApprovals(ts[..|ts| - 1], run)
      + if t.ApproveAndMove? && t.run == run && Has(After(ts[..|ts| - 1]), run, "interrupted") then 1 else 0
  }

  /** Transactions that take a run into status interrupted. */
  function Interruptions(ts: seq<Transaction>, run: string): nat {
    if ts == [] then 0
    else
      var before := ts[..|ts| - 1];
      Interruptions(before, run)
      + if !Has(After(before), run, "interrupted") && Has(After(ts), run, "interrupted") then 1 else 0
  }

  /** An atomic approval adds a row exactly when it moves the run from interrupted to running, so each
      interruption is approved at most once however many processes try. */
  lemma {:induction false} OneApprovalPerInterruption(ts: seq<Transaction>, run: string)
    ensures AtomicApprovals(ts, run) + (if Has(After(ts), run, "interrupted") then 1 else 0) <= Interruptions(ts, run)
  {
    hide NextSeq;
    if ts != [] { OneApprovalPerInterruption(ts[..|ts| - 1], run); }
  }

  lemma AtomicApprovalMovesOrDoesNothing(l: Ledger, run: string, a: Approval)
    ensures var l' := Next(l, ApproveAndMove(run, a));
            && (Has(l, run, "interrupted") ==> Has(l', run, "running") && l'.approvals != l.approvals)
            && (!Has(l, run, "interrupted") ==> l' == l)
  {
    var numbers := Numbers(l.approvals, run);
    var n := NextSeq(l.approvals, run);
    assert (run, n) in l.approvals <==> n in numbers;
  }

}

/** Readers of the event stream, polling a ledger that other processes keep writing. */
module EventStream {
  import opened RunLedger

  /** The cursor reader of one connection. */
  class StreamReader {
    var lastSeq: int
    var emitted: seq<int>

    constructor (after: int)
      ensures lastSeq == after && emitted == []
    {
      lastSeq, emitted := after, [];
    }

    /** One pass over the rows that `list_events` returned. */
    method EmitAll(rows: seq<int>)
      modifies this
      ensures emitted == old(emitted) + rows
      ensures lastSeq == if rows == [] then old(lastSeq) else rows[|rows| - 1]
    {
      for i := 0 to |rows|
        invariant emitted == old(emitted) + rows[..i]
        invariant lastSeq == if i == 0 then old(lastSeq) else rows[i - 1]
      {
        lastSeq := rows[i];
        emitted := emitted + [rows[i]];
        assert rows[..i + 1] == rows[..i] + [rows[i]];
      }
    }
  }

  /** `list_events`: the run's event numbers above `from`, ascending. */
  ghost predicate IsListing(l: Ledger, run: string, from: int, rows: seq<int>) {
    && Ascending(rows)
    && forall x :: x in rows <==> x > from && (run, x) in l.events
  }

  predicate Ascending(xs: seq<int>) {
    forall i, j :: 0 <= i < j < |xs| ==> xs[i] < xs[j]
  }

  function Consecutive(first: int, n: nat): (r: seq<int>)
    ensures |r| == n && forall i :: 0 <= i < n ==> r[i] == first + i
  {
    seq(n, i => first + i)
  }

  lemma {:induction false} AscendingIsDetermined(xs: seq<int>, ys: seq<int>)
    requires Ascending(xs) && Ascending(ys) && forall x :: x in xs <==> x in ys
    ensures xs == ys
    decreases |xs|
  {
    if xs == [] {
      assert forall i :: 0 <= i < |ys| ==> ys[i] in ys;
    } else {
      var x := xs[|xs| - 1];
      assert x in ys;
      var y := ys[|ys| - 1];
      assert y in xs && x == y;
      var xs', ys' := xs[..|xs| - 1], ys[..|ys| - 1];
      forall z ensures z in xs' <==> z in ys' {
        if z in xs' { assert z in ys && z < x; }
        if z in ys' { assert z in xs && z < y; }
      }
      AscendingIsDetermined(xs', ys');
      assert xs == xs' + [x] && ys == ys' + [y];
    }
  }

  function Start(after: int): nat {
    if after < 0 then 0 else after
  }

  /** How many of the first n events lie beyond the cursor. */
  function Beyond(n: nat, after: int): nat {
    if n > Start(after) then n - Start(after) else 0
  }

  lemma ListingIsConsecutive(l: Ledger, run: string, from: int, rows: seq<int>, n: nat)
    requires Numbered(l.events, run, n) && IsListing(l, run, from, rows)
    ensures rows == Consecutive(Start(from) + 1, Beyond(n, from))
  {
    var ys := Consecutive(Start(from) + 1, Beyond(n, from));
    forall x ensures x in rows <==> x in ys {
      if Start(from) < x <= n { assert ys[x - Start(from) - 1] == x; }
    }
    AscendingIsDetermined(rows, ys);
  }

  /** A poll after the first `time` transactions. */
  datatype Poll = Poll(time: nat, rows: seq<int>)

  function Emitted(polls: seq<Poll>): seq<int> {
    if polls == [] then [] else Emitted(polls[..|polls| - 1]) + polls[|polls| - 1].rows
  }

  function LastSeen(after: int, polls: seq<Poll>): int {
    if polls == [] then after
    else
      var rows := polls[|polls| - 1].rows;
      if rows == [] then LastSeen(after, polls[..|polls| - 1]) else rows[|rows| - 1]
  }

  /** A reader's polls over an interleaving: each lists the ledger as it is then, behind its cursor. */
  ghost predicate IsReading(ts: seq<Transaction>, run: string, after: int, polls: seq<Poll>) {
    && (forall i :: 0 <= i < |polls| ==> polls[i].time <= |ts|)
    && (forall i, j :: 0 <= i < j < |polls| ==> polls[i].time <= polls[j].time)
    && (forall i :: 0 <= i < |polls| ==>
          IsListing(After(ts[..polls[i].time]), run, LastSeen(after, polls[..i]), polls[i].rows))
  }

  lemma {:induction false} CountGrows(ts: seq<Transaction>, run: string, i: nat, j: nat)
    requires i <= j <= |ts|
    ensures EventCount(ts[..i], run) <= EventCount(ts[..j], run)
    decreases j - i
  {
    if i < j {
      assert ts[..j][..j - 1] == ts[..j - 1];
      CountGrows(ts, run, i, j - 1);
    }
  }

  /** In every interleaving of writers and polls, a reader emits after + 1, after + 2, ... (1, 2, ... for
      a negative cursor) without gap or repeat, up to the last event stored at its last poll. */
  lemma {:induction false} StreamIsGapless(ts: seq<Transaction>, run: string, after: int, polls: seq<Poll>)
    requires IsReading(ts, run, after, polls)
    ensures forall i :: 0 <= i < |polls| ==> polls[i].time <= |ts|
    ensures Emitted(polls) == Consecutive(Start(after) + 1, Beyond(Stored(ts, run, polls), after))
    ensures LastSeen(after, polls) == Cursor(after, Stored(ts, run, polls))
  {
    hide IsListing, After, EventCount, Numbered, Beyond, Consecutive, Cursor;
    if polls == [] {
      NothingRead(after);
    } else {
      var before, p := polls[..|polls| - 1], polls[|polls| - 1];
      ReadingPrefix(ts, run, after, polls);
      StreamIsGapless(ts, run, after, before);
      NumbersAreGapless(ts[..p.time], run);
      ListingIsConsecutive(After(ts[..p.time]), run, LastSeen(after, before), p.rows, EventCount(ts[..p.time], run));
      if before != [] { CountGrows(ts, run, before[|before| - 1].time, p.time); }
      PollContinues(after, Stored(ts, run, before), EventCount(ts[..p.time], run));
    }
  }

  lemma NothingRead(after: int)
    ensures Consecutive(Start(after) + 1, Beyond(0, after)) == [] && Cursor(after, 0) == after
  {
  }

  /** The cursor after everything up to event n has been read. */
  function Cursor(after: int, n: nat): int {
    if n > Start(after) then n else after
  }

  /** Events stored when the last poll was made. */
  function Stored(ts: seq<Transaction>, run: string, polls: seq<Poll>): nat
    requires forall i :: 0 <= i < |polls| ==> polls[i].time <= |ts|
  {
    if polls == [] then 0 else EventCount(ts[..polls[|polls| - 1].time], run)
  }

  /** One poll takes up where the previous ones stopped. */
  lemma PollContinues(after: int, seen: nat, stored: nat)
    requires seen <= stored
    ensures var rows := Consecutive(Start(Cursor(after, seen)) + 1, Beyond(stored, Cursor(after, seen)));
            && Consecutive(Start(after) + 1, Beyond(seen, after)) + rows == Consecutive(Start(after) + 1, Beyond(stored, after))
            && (if rows == [] then Cursor(after, seen) else rows[|rows| - 1]) == Cursor(after, stored)
  {
    ConsecutiveJoin(Start(after) + 1, Beyond(seen, after), Beyond(stored, Cursor(after, seen)));
  }

  lemma ReadingPrefix(ts: seq<Transaction>, run: string, after: int, polls: seq<Poll>)
    requires IsReading(ts, run, after, polls) && polls != []
    ensures IsReading(ts, run, after, polls[..|polls| - 1])
    ensures polls[|polls| - 1].time <= |ts|
    ensures |polls| > 1 ==> polls[..|polls| - 1][|polls| - 2].time <= polls[|polls| - 1].time
    ensures IsListing(After(ts[..polls[|polls| - 1].time]), run, LastSeen(after, polls[..|polls| - 1]), polls[|polls| - 1].rows)
  {
    hide IsListing, After, LastSeen;
    var before := polls[..|polls| - 1];
    assert forall i :: 0 <= i < |before| ==> before[..i] == polls[..i];
  }

  lemma ConsecutiveJoin(first: int, m: nat, n: nat)
    ensures Consecutive(first, m) + Consecutive(first + m, n) == Consecutive(first, m + n)
  {
  }

  /** The reader stops when the status it reads after its last poll is terminal. It has then delivered
      every event beyond its starting cursor exactly when none was appended after that poll. */
  lemma StreamIsCompleteIff(ts: seq<Transaction>, run: string, after: int, polls: seq<Poll>)
    requires IsReading(ts, run, after, polls) && polls != []
    ensures (forall k: int :: (run, k) in After(ts).events && k > after ==> k in Emitted(polls)) <==>
              (EventCount(ts[..polls[|polls| - 1].time], run) == EventCount(ts, run)
               || EventCount(ts, run) <= Start(after))
  {
    hide After, EventCount, IsReading, Emitted, LastSeen;
    var time := polls[|polls| - 1].time;
    StreamIsGapless(ts, run, after, polls);
    NumbersAreGapless(ts, run);
    CountGrows(ts, run, time, |ts|);
    assert ts[..|ts|] == ts;
    var n, total := EventCount(ts[..time], run), EventCount(ts, run);
    var xs := Emitted(polls);
    forall k: int ensures k in xs <==> Start(after) < k <= n {
      if Start(after) < k <= n { assert xs[k - Start(after) - 1] == k; }
    }
    if n < total && Start(after) < total { assert (run, total as int) in After(ts).events && total !in xs; }
  }

  lemma AfterStep(ts: seq<Transaction>, t: Transaction)
    ensures After(ts + [t]) == Next(After(ts), t)
  {
    hide Next;
    assert (ts + [t])[..|ts + [t]| - 1] == ts;
  }

  /** A poll after the first transaction that finds nothing. */
  lemma EmptyPoll(ts: seq<Transaction>, run: string)
    requires |ts| >= 1 && After(ts[..1]).events == map[]
    ensures IsReading(ts, run, 0, [Poll(1, [])]) && 1 !in Emitted([Poll(1, [])])
  {
    hide After;
    var polls := [Poll(1, [])];
    assert polls[..0] == [];
    assert Emitted(polls) == [];
  }

  lemma CompletedRun(run: string, e: Event)
    ensures After([]) == Ledger(map[], map[], map[])
    ensures var l0 := Next(Ledger(map[], map[], map[]), Create(run));
            var l2 := Next(Next(l0, Append(run, e)), Set(run, "completed"));
            && l0.events == map[] && (run, 1) in l2.events && Has(l2, run, "completed")
  {
    hide NextSeq;
    EmptyNumbered<Event>(run);
    NextAfterNumbered<Event>(map[], run, 0);
  }

  /** That can fail: the writer appends its result and completes the run between the reader's poll and
      its status check, and the result is never delivered. */
  lemma StreamCanMissTheResult()
    ensures exists ts: seq<Transaction>, run: string, polls: seq<Poll> ::
              && IsReading(ts, run, 0, polls) && polls != []
              && Has(After(ts), run, "completed")
              && (run, 1) in After(ts).events && 1 !in Emitted(polls)
  {
    hide *;
    var run, e := "r", Event("result", "");
    var t0 := [Create(run)];
    var t1 := t0 + [Append(run, e)];
    var t2 := t1 + [Set(run, "completed")];
    AfterStep([], Create(run));
    AfterStep(t0, Append(run, e));
    AfterStep(t1, Set(run, "completed"));
    assert [] + [Create(run)] == t0 && t2[..1] == t0;
    CompletedRun(run, e);
    EmptyPoll(t2, run);
  }
}
