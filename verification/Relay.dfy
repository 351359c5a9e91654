/** The relay's per-device tasks: making them match the registry. */
module Relay {
  import opened Reads

  type Uuid = nat

  /** One device's task: the configuration it was started for, and its cancellation token. */
  datatype Running = Running(uuid: Uuid, task: nat)

  datatype Change = Change(started: nat, stopped: nat, rebound: nat, untouched: nat)

  ghost function Uuids(running: map<DeviceId, Running>): map<DeviceId, Uuid> {
    map id | id in running :: running[id].uuid
  }

  predicate Keeps(running: map<DeviceId, Running>, wanted: map<DeviceId, Uuid>, id: DeviceId) {
    id in running && id in wanted && running[id].uuid == wanted[id]
  }

  function Kept(running: map<DeviceId, Running>, wanted: map<DeviceId, Uuid>): set<DeviceId> {
    set id | id in running && Keeps(running, wanted, id)
  }

  function Stale(running: map<DeviceId, Running>, wanted: map<DeviceId, Uuid>): set<DeviceId> {
    set id | id in running && !Keeps(running, wanted, id)
  }

  /** What one pass does to the running tasks, and what it reports. */
  ghost predicate Applied(before: map<DeviceId, Running>, after: map<DeviceId, Running>,
                          wanted: map<DeviceId, Uuid>, change: Change) {
    && Uuids(after) == wanted
    && (forall id :: Keeps(before, wanted, id) ==> id in after && after[id] == before[id])
    && change.untouched == |Kept(before, wanted)|
    && change.rebound == |Stale(before, wanted) * wanted.Keys|
    && change.stopped == |before.Keys - wanted.Keys|
    && change.started == |wanted.Keys - before.Keys|
  }

  lemma SplitSize<T>(a: set<T>, b: set<T>)
    ensures |a| == |a * b| + |a - b|
  {
    assert a == a * b + (a - b);
  }

  lemma CountOne<T>(done: set<T>, b: set<T>, x: T)
    requires x !in done
    ensures |(done + {x}) * b| == |done * b| + (if x in b then 1 else 0)
    ensures |(done + {x}) - b| == |done - b| + (if x in b then 0 else 1)
  {
    if x in b {
      assert (done + {x}) * b == done * b + {x};
      assert (done + {x}) - b == done - b;
    } else {
      assert (done + {x}) * b == done * b;
      assert (done + {x}) - b == done - b + {x};
    }
  }

  /** One turn of a loop over a set: what is done grows by what is taken. */
  lemma TakeOne<T>(all: set<T>, left: set<T>, x: T)
    requires x in left && left <= all
    ensures all - (left - {x}) == (all - left) + {x} && x !in all - left
  {
  }

  lemma UnionMore<T>(a: set<T>, b: set<T>, x: T)
    ensures a + b + {x} == a + (b + {x})
  {
  }

  lemma RemoveMore<K, V>(m: map<K, V>, done: set<K>, x: K)
    ensures m - done - {x} == m - (done + {x})
  {
  }

  /** The counters account for every device on both sides. */
  lemma CountsAddUp(before: map<DeviceId, Running>, after: map<DeviceId, Running>,
                    wanted: map<DeviceId, Uuid>, change: Change)
    requires Applied(before, after, wanted, change)
    ensures change.started + change.rebound + change.untouched == |wanted|
    ensures change.stopped + change.rebound + change.untouched == |before|
  {
    var kept, stale := Kept(before, wanted), Stale(before, wanted);
    SplitSize(wanted.Keys, before.Keys);
    SplitSize(before.Keys, wanted.Keys);
    SplitSize(wanted.Keys * before.Keys, stale);
    assert wanted.Keys * before.Keys == before.Keys * wanted.Keys;
    assert wanted.Keys * before.Keys * stale == stale * wanted.Keys;
    assert wanted.Keys * before.Keys - stale == kept;
  }

  /** A second pass over the same registry touches no task. */
  lemma SecondPassChangesNothing(before: map<DeviceId, Running>, once: map<DeviceId, Running>,
                                 twice: map<DeviceId, Running>, wanted: map<DeviceId, Uuid>, c1: Change, c2: Change)
    requires Applied(before, once, wanted, c1) && Applied(once, twice, wanted, c2)
    ensures twice == once && c2 == Change(0, 0, 0, |wanted|)
  {
    MatchingTouchesNothing(once, twice, wanted, c2);
  }

  lemma MatchingTouchesNothing(before: map<DeviceId, Running>, after: map<DeviceId, Running>,
                               wanted: map<DeviceId, Uuid>, change: Change)
    requires Uuids(before) == wanted && Applied(before, after, wanted, change)
    ensures after == before && change == Change(0, 0, 0, |wanted|)
  {
    assert before.Keys == Uuids(before).Keys && after.Keys == Uuids(after).Keys;
    forall id | id in before
      ensures Keeps(before, wanted, id)
    {
      assert Uuids(before)[id] == before[id].uuid;
    }
    assert Kept(before, wanted) == wanted.Keys && Stale(before, wanted) == {};
    assert before.Keys - wanted.Keys == {} && wanted.Keys - before.Keys == {};
    assert Stale(before, wanted) * wanted.Keys == {};
  }

  class RelayHandle {
    var running: map<DeviceId, Running>
    var spawned: nat            // tasks started so far; the next token
    var cancelled: set<nat>

    /** Tokens are used once, and no running task has been told to stop. */
    ghost predicate Valid()
      reads this
    {
      && (forall id :: id in running ==> running[id].task < spawned && running[id].task !in cancelled)
      && (forall a, b :: a in running && b in running && a != b ==> running[a].task != running[b].task)
      && (forall t :: t in cancelled ==> t < spawned)
    }

    constructor ()
      ensures Valid() && running == map[]
    {
      running, spawned, cancelled := map[], 0, {};
    }

    method StopTask(id: DeviceId)
      requires Valid() && id in running
      modifies this`running, this`cancelled
      ensures Valid() && running == old(running) - {id} && cancelled == old(cancelled) + {old(running)[id].task}
    {
      cancelled := cancelled + {running[id].task};
      running := running - {id};
    }

    method StartTask(id: DeviceId, uuid: Uuid)
      requires Valid() && id !in running
      modifies this`running, this`spawned
      ensures Valid() && running == old(running)[id := Running(uuid, old(spawned))] && spawned == old(spawned) + 1
    {
      running := running[id := Running(uuid, spawned)];
      spawned := spawned + 1;
    }

    /** Stop what is stale; a task whose device is still wanted will be rebound. */
    method StopAll(stale: set<DeviceId>, wanted: set<DeviceId>) returns (stopped: nat, rebound: nat)
      requires Valid() && stale <= running.Keys
      modifies this`running, this`cancelled
      ensures Valid()
      ensures running == old(running) - stale
      ensures cancelled == old(cancelled) + Tasks(old(running), stale)
      ensures rebound == |stale * wanted| && stopped == |stale - wanted|
    {
      var left := stale;
      stopped, rebound := 0, 0;
      while left != {}
        invariant left <= stale
        invariant Valid() && running == old(running) - (stale - left)
        invariant cancelled == old(cancelled) + Tasks(old(running), stale - left)
        invariant rebound == |(stale - left) * wanted| && stopped == |(stale - left) - wanted|
        decreases |left|
      {
        var id :| id in left;
        TakeOne(stale, left, id);
        RemoveMore(old(running), stale - left, id);
        CountOne(stale - left, wanted, id);
        TasksOne(old(running), stale - left, id);
        UnionMore(old(cancelled), Tasks(old(running), stale - left), running[id].task);
        StopTask(id);
        if id in wanted {
          rebound := rebound + 1;
        } else {
          stopped := stopped + 1;
        }
        left := left - {id};
      }
      assert stale - left == stale;
    }

    /** One wanted device: leave its task alone, or start one. */
    method StartIfMissing(id: DeviceId, wanted: map<DeviceId, Uuid>, ghost before: map<DeviceId, Running>)
      returns (begun: nat)
      requires Valid() && id in wanted && Extends(before, running, wanted)
      modifies this`running, this`spawned
      ensures Valid() && Extends(before, running, wanted)
      ensures running.Keys == old(running).Keys + {id} && |running.Keys| == |old(running).Keys| + begun && begun <= 1
    {
      begun := if id in running then 0 else 1;
      if id !in running {
        ExtendsMore(before, running, wanted, id, spawned);
        StartTask(id, wanted[id]);
      } else {
        assert running.Keys == running.Keys + {id};
      }
    }

    /** Start a task for every wanted device that has none. */
    method StartMissing(wanted: map<DeviceId, Uuid>) returns (started: nat, untouched: nat)
      requires Valid() && running.Keys <= wanted.Keys
      modifies this`running, this`spawned
      ensures Valid() && running.Keys == wanted.Keys
      ensures Extends(old(running), running, wanted)
      ensures started == |wanted.Keys| - |old(running).Keys| && untouched == |old(running).Keys|
    {
      var left := wanted.Keys;
      started, untouched := 0, 0;
      while left != {}
        invariant left <= wanted.Keys && running.Keys <= wanted.Keys <= running.Keys + left
        invariant Valid() && Extends(old(running), running, wanted)
        invariant started == |running.Keys| - |old(running).Keys|
        invariant started + untouched + |left| == |wanted.Keys|
        decreases |left|
      {
        var id :| id in left;
        var begun := StartIfMissing(id, wanted, old(running));
        started := started + begun;
        untouched := untouched + 1 - begun;
        left := left - {id};
      }
    }

    /** Make the running tasks match the registry's devices; exactly the stale tasks are told to stop. */
    method Apply(wanted: map<DeviceId, Uuid>) returns (change: Change)
      requires Valid()
      modifies this
      ensures Valid() && Applied(old(running), running, wanted, change)
      ensures cancelled == old(cancelled) + Tasks(old(running), Stale(old(running), wanted))
    {
      ghost var stale := Stale(running, wanted);
      var stopped, rebound := StopAll(Stale(running, wanted), wanted.Keys);
      ghost var kept := running;
      PassKeys(old(running), kept, wanted);
      var started, untouched := StartMissing(wanted);
      PassCounts(old(running).Keys, stale, wanted.Keys);
      change := Change(started - rebound, stopped, rebound, untouched);
      PassApplied(old(running), kept, running, wanted, change);
    }
  }

  function Tasks(running: map<DeviceId, Running>, ids: set<DeviceId>): set<nat> {
    set id | id in ids && id in running :: running[id].task
  }

  lemma TasksOne(running: map<DeviceId, Running>, ids: set<DeviceId>, id: DeviceId)
    requires id in running
    ensures Tasks(running, ids + {id}) == Tasks(running, ids) + {running[id].task}
  {
  }

  /** `after` keeps every entry of `before` and adds only wanted ones. */
  ghost predicate Extends(before: map<DeviceId, Running>, after: map<DeviceId, Running>, wanted: map<DeviceId, Uuid>) {
    && (forall id :: id in before ==> id in after && after[id] == before[id])
    && (forall id :: id in after && id !in before ==> id in wanted && after[id].uuid == wanted[id])
  }

  lemma ExtendsMore(before: map<DeviceId, Running>, mid: map<DeviceId, Running>, wanted: map<DeviceId, Uuid>,
                    id: DeviceId, task: nat)
    requires Extends(before, mid, wanted) && id in wanted && id !in mid
    ensures var after := mid[id := Running(wanted[id], task)];
            Extends(before, after, wanted) && after.Keys == mid.Keys + {id}
  {
  }

  lemma PassKeys(before: map<DeviceId, Running>, kept: map<DeviceId, Running>, wanted: map<DeviceId, Uuid>)
    requires kept == before - Stale(before, wanted)
    ensures kept.Keys == Kept(before, wanted) == before.Keys - Stale(before, wanted) && kept.Keys <= wanted.Keys
    ensures wanted.Keys * kept.Keys == Kept(before, wanted)
    ensures Stale(before, wanted) - wanted.Keys == before.Keys - wanted.Keys
  {
  }

  /** Every rebound device is also spawned again, so the difference that is reported cannot underflow. */
  lemma PassCounts<T>(before: set<T>, stale: set<T>, wanted: set<T>)
    requires stale <= before && before - stale <= wanted
    ensures |wanted| - |before - stale| == |wanted - before| + |stale * wanted|
  {
    var spawned := wanted - (before - stale);
    SplitSize(wanted, before - stale);
    assert wanted * (before - stale) == before - stale;
    SplitSize(spawned, stale);
    assert spawned * stale == stale * wanted;
    assert spawned - stale == wanted - before;
  }

  lemma PassApplied(before: map<DeviceId, Running>, kept: map<DeviceId, Running>, after: map<DeviceId, Running>,
                    wanted: map<DeviceId, Uuid>, change: Change)
    requires kept == before - Stale(before, wanted) && Extends(kept, after, wanted) && after.Keys == wanted.Keys
    requires change.untouched == |kept.Keys| && change.rebound == |Stale(before, wanted) * wanted.Keys|
    requires change.stopped == |Stale(before, wanted) - wanted.Keys|
    requires change.started == |wanted.Keys| - |kept.Keys| - change.rebound
    ensures Applied(before, after, wanted, change)
  {
    PassKeys(before, kept, wanted);
    PassMatches(before, kept, after, wanted);
    PassCounts(before.Keys, Stale(before, wanted), wanted.Keys);
  }

  lemma PassMatches(before: map<DeviceId, Running>, kept: map<DeviceId, Running>,
                    after: map<DeviceId, Running>, wanted: map<DeviceId, Uuid>)
    requires kept == before - Stale(before, wanted) && Extends(kept, after, wanted) && after.Keys == wanted.Keys
    ensures Uuids(after) == wanted
    ensures forall id :: Keeps(before, wanted, id) ==> id in after && after[id] == before[id]
  {
    forall id | id in wanted
      ensures after[id].uuid == wanted[id]
    {
      assert id in kept ==> Keeps(before, wanted, id);
    }
    forall id | Keeps(before, wanted, id)
      ensures id in after && after[id] == before[id]
    {
      assert id in kept;
    }
  }
}
