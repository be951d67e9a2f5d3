/** The scheduler service: each tick claims as many due schedules as there are free dispatch slots. */
module Scheduler {
  import opened Collections
  import opened IsoTime
  import opened ScheduleTable
  import opened Schedules

  const CAPACITY: nat := 10

  function Least(a: int, b: int): int {
    if a <= b then a else b
  }

  class SchedulerService {
    var running: bool
    /** Child tasks by identity, each with the schedule it dispatches. */
    var children: map<nat, string>
    ghost var spawned: nat

    ghost predicate Valid()
      reads this
    {
      |children| <= CAPACITY && forall task :: task in children ==> task < spawned
    }

    constructor ()
      ensures Valid() && !running && children == map[]
    {
      running, children, spawned := false, map[], 0;
    }

    method Start(enabled: bool)
      requires Valid()
      modifies this`running
      ensures Valid() && running == (old(running) || enabled)
    {
      if running || !enabled { return; }
      running := true;
    }

    function FreeSlots(): int
      reads this
    {
      if |children| >= CAPACITY then 0 else CAPACITY - |children|
    }

    /** One tick: nothing when stopped or full; otherwise one child per claimed row, and a claim that
        fails is logged and changes nothing. `selected` is what the database answers to the claim. */
    method Tick(store: ScheduleStore, now: int, selected: seq<string>, tasks: seq<nat>)
      requires Valid() && store.Valid() && Representable(now)
      requires running && |children| < 10 ==> IsTextSelection(store.rows, Text(now), 10 - |children|, selected)
      requires |tasks| == |selected| && Distinct(tasks) && forall i :: 0 <= i < |tasks| ==> tasks[i] >= spawned
      modifies this, store
      ensures Valid() && store.Valid() && running == old(running)
      ensures !old(running) || |old(children)| == 10 ==> store.rows == old(store.rows) && children == old(children)
      ensures old(running) && |old(children)| < 10 && !Advances(store.cron, old(store.Jobs()), selected, now) ==>
                store.rows == old(store.rows) && children == old(children)
      ensures old(running) && |old(children)| < 10 && Advances(store.cron, old(store.Jobs()), selected, now) ==>
                && store.Jobs() == Claimed(store.cron, old(store.Jobs()), selected, now)
                && |children| == |old(children)| + |selected|
                && |children| == Least(|old(children)| + |Due(old(store.Jobs()), now)|, 10)
                && (forall i :: 0 <= i < |selected| ==> tasks[i] in children && children[tasks[i]] == selected[i])
                && (forall c :: c in old(children) ==> c in children && children[c] == old(children)[c])
    {
      hide Text, Advances, IsTextSelection, Claimed, FirstRunAfter;
      if !running { return; }
      var capacity := FreeSlots();
      if capacity <= 0 { return; }
      var result := store.ClaimDue(now, capacity, selected);
      if result.ClaimFailed? { return; }
      Spawn(result.rows, tasks);
    }

    /** A child for every claimed row. */
    method Spawn(claimed: seq<(string, Row)>, tasks: seq<nat>)
      requires Valid() && |children| + |claimed| <= CAPACITY
      requires |tasks| == |claimed| && Distinct(tasks) && forall i :: 0 <= i < |tasks| ==> tasks[i] >= spawned
      modifies this`children, this`spawned
      ensures Valid()
      ensures |children| == |old(children)| + |claimed|
      ensures forall i :: 0 <= i < |claimed| ==> tasks[i] in children && children[tasks[i]] == claimed[i].0
      ensures forall c :: c in old(children) ==> c in children && children[c] == old(children)[c]
    {
      for i := 0 to |claimed|
        invariant |children| == |old(children)| + i
        invariant forall k :: i <= k < |tasks| ==> tasks[k] !in children
        invariant forall k :: 0 <= k < i ==> tasks[k] in children && children[tasks[k]] == claimed[k].0
        invariant forall c :: c in old(children) ==> c in children && children[c] == old(children)[c]
        invariant spawned >= old(spawned) && forall c :: c in children ==> c < spawned
      {
        var task := tasks[i];
        children := children[task := claimed[i].0];
        if spawned <= task { spawned := task + 1; }
      }
    }

    /** A finished child leaves the set. */
    method TaskDone(task: nat)
      requires Valid()
      modifies this`children
      ensures Valid() && children == old(children) - {task}
    {
      children := children - {task};
      SubsetSize(children.Keys, old(children).Keys);
    }

    /** Stopping drains every dispatched child; no later tick claims until the service starts again. */
    method Stop()
      requires Valid()
      modifies this
      ensures Valid() && !running && children == map[]
    {
      running := false;
      children := map[];
    }
  }
}
