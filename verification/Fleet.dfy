/**
 Keeping the per-device tasks in step with the registry. Publishers change the registry and then
 announce; the reconciler wakes, marks what it has seen, and reads the registry afresh for the
 relay and again for the keepalive. Any number of publishers interleave with it.
 */
module Fleet {
  import opened Base
  import opened Reads
  import Relay

  type Registry = map<DeviceId, Relay.Uuid>

  datatype Phase =
    | Starting                    // before the reconciler's first read of the channel
    | Idle                        // waiting for a change
    | Woken                       // told of a change
    | Marked                      // has marked the channel as seen
    | Snapped(wanted: Registry)   // has read the registry for the relay
    | Relayed                     // the relay's tasks match what was read
    | Warming(wanted: Registry)   // has read the registry for the keepalive

  datatype State = State(
    registry: Registry,
    version: nat,          // the channel's own count of announcements
    generation: nat,       // the 64-bit value carried, which wraps
    seen: nat,
    announcing: set<nat>,  // publishers between changing the registry and announcing it
    phase: Phase,
    running: map<DeviceId, Relay.Running>,   // the relay's tasks
    warmed: Registry)      // what the keepalive was last given

  datatype Action =
    | Mutate(who: nat, registry: Registry)
    | Announce(who: nat)
    | FirstRead
    | Wake
    | Mark
    | Snapshot
    | ApplyRelay(after: map<DeviceId, Relay.Running>, change: Relay.Change)   // one pass and its outcome
    | SnapshotAgain
    | ApplyKeepalive

  ghost predicate Enabled(s: State, a: Action) {
    match a
    case Mutate(p, _) => p !in s.announcing
    case Announce(p) => p in s.announcing
    case FirstRead => s.phase.Starting?
    case Wake => s.phase.Idle? && s.version > s.seen
    case Mark => s.phase.Woken?
    case Snapshot => s.phase.Marked?
    case ApplyRelay(after, c) => s.phase.Snapped? && Relay.Applied(s.running, after, s.phase.wanted, c)
    case SnapshotAgain => s.phase.Relayed?
    case ApplyKeepalive => s.phase.Warming?
  }

  function Next(s: State, a: Action): State
    requires Enabled(s, a)
  {
    match a
    case Mutate(p, r) => s.(registry := r, announcing := s.announcing + {p})
    case Announce(p) =>
      s.(announcing := s.announcing - {p}, version := s.version + 1, generation := (s.generation + 1) % (U64_MAX + 1))
    case FirstRead => s.(phase := Idle, seen := s.version)
    case Wake => s.(phase := Woken, seen := s.version)
    case Mark => s.(phase := Marked, seen := s.version)
    case Snapshot => s.(phase := Snapped(s.registry))
    case ApplyRelay(after, _) => s.(phase := Relayed, running := after)
    case SnapshotAgain => s.(phase := Warming(s.registry))
    case ApplyKeepalive => s.(phase := Idle, warmed := s.phase.wanted)
  }

  ghost predicate IsRun(s: State, acts: seq<Action>)
    decreases |acts|
  {
    acts == [] || (Enabled(s, acts[0]) && IsRun(Next(s, acts[0]), acts[1..]))
  }

  ghost function Reached(s: State, acts: seq<Action>): State
    requires IsRun(s, acts)
    decreases |acts|
  {
    if acts == [] then s else Reached(Next(s, acts[0]), acts[1..])
  }

  /** Started from a registry the relay's own first pass has matched; nothing announced or seen. */
  ghost predicate Booted(s: State) {
    s.version == 0 && s.seen == 0 && s.announcing == {} && s.phase == Starting && InStep(s)
  }

  /** The relay's tasks and the keepalive both match the registry, id by id and uuid by uuid. */
  ghost predicate InStep(s: State) {
    Relay.Uuids(s.running) == s.registry && s.warmed == s.registry
  }

  // ---- The invariant -----------------------------------------------------------

  /** A change is still on its way to the reconciler. */
  predicate Coming(s: State) {
    s.announcing != {} || s.version > s.seen
  }

  ghost predicate RelayInStep(s: State) {
    match s.phase
    case Snapped(wanted) => wanted == s.registry || Coming(s)
    case Woken => true
    case Marked => true
    case Starting => Relay.Uuids(s.running) == s.registry || Coming(s)
    case Idle => Relay.Uuids(s.running) == s.registry || Coming(s)
    case Relayed => Relay.Uuids(s.running) == s.registry || Coming(s)
    case Warming(_) => Relay.Uuids(s.running) == s.registry || Coming(s)
  }

  predicate KeepaliveInStep(s: State) {
    match s.phase
    case Warming(wanted) => wanted == s.registry || Coming(s)
    case Starting => s.warmed == s.registry || Coming(s)
    case Idle => s.warmed == s.registry || Coming(s)
    case Snapped(_) => true
    case Woken => true
    case Marked => true
    case Relayed => true
  }

  ghost predicate Inv(s: State) {
    s.seen <= s.version && RelayInStep(s) && KeepaliveInStep(s)
  }

  lemma NextRelay(s: State, a: Action)
    requires RelayInStep(s) && Enabled(s, a) && a != FirstRead && s.seen <= s.version
    ensures RelayInStep(Next(s, a))
  {
    match a
    case Mutate(p, r) => assert p in Next(s, a).announcing;
    case Announce(p) => assert Coming(Next(s, a));
    case Wake =>
    case Mark =>
    case Snapshot =>
    case ApplyRelay(after, c) => assert Relay.Uuids(after) == s.phase.wanted;
    case SnapshotAgain =>
    case ApplyKeepalive =>
  }

  lemma NextKeepalive(s: State, a: Action)
    requires KeepaliveInStep(s) && Enabled(s, a) && a != FirstRead && s.seen <= s.version
    ensures KeepaliveInStep(Next(s, a))
  {
    match a
    case Mutate(p, r) => assert p in Next(s, a).announcing;
    case Announce(p) => assert Coming(Next(s, a));
    case Wake =>
    case Mark =>
    case Snapshot =>
    case ApplyRelay(after, c) =>
    case SnapshotAgain =>
    case ApplyKeepalive =>
  }

  /** Every step but the first read keeps the invariant. */
  lemma NextInv(s: State, a: Action)
    requires Inv(s) && Enabled(s, a) && a != FirstRead
    ensures Inv(Next(s, a)) && (s.phase.Starting? <==> Next(s, a).phase.Starting?)
  {
    NextRelay(s, a);
    NextKeepalive(s, a);
  }

  predicate Quiet(s: State) {
    s.phase.Idle? && s.announcing == {} && s.seen == s.version
  }

  lemma {:induction false} RunInv(s: State, acts: seq<Action>)
    requires Inv(s) && !s.phase.Starting? && IsRun(s, acts)
    ensures Inv(Reached(s, acts)) && !Reached(s, acts).phase.Starting?
    decreases |acts|
  {
    if acts != [] {
      NextInv(s, acts[0]);
      RunInv(Next(s, acts[0]), acts[1..]);
    }
  }

  /** In every run from `s`, a quiet state is in step. */
  ghost predicate NeverOutOfStep(s: State) {
    forall acts :: IsRun(s, acts) && Quiet(Reached(s, acts)) ==> InStep(Reached(s, acts))
  }

  lemma InvInStep(s: State)
    requires Inv(s) && !s.phase.Starting?
    ensures NeverOutOfStep(s)
  {
    forall acts | IsRun(s, acts) && Quiet(Reached(s, acts))
      ensures InStep(Reached(s, acts))
    {
      RunInv(s, acts);
    }
  }

  /**
   Every later quiet state is in step if and only if, at the first read, both task sets already match
   the registry or a publisher has still to announce: what was announced before it is marked seen
   without being acted on.
   */
  lemma FirstReadExact(s: State)
    requires Enabled(s, FirstRead)
    ensures NeverOutOfStep(Next(s, FirstRead)) <==> InStep(s) || s.announcing != {}
  {
    var t := Next(s, FirstRead);
    if InStep(s) || s.announcing != {} {
      InvInStep(t);
    } else {
      var none: seq<Action> := [];
      assert IsRun(t, none) && Reached(t, none) == t;
    }
  }

  predicate NoneAnnounced(acts: seq<Action>) {
    forall i :: 0 <= i < |acts| ==> acts[i].Mutate?
  }

  lemma {:induction false} EarlyMutations(s: State, acts: seq<Action>)
    requires s.phase.Starting? && IsRun(s, acts) && NoneAnnounced(acts)
    requires s.announcing != {} || InStep(s)
    ensures var t := Reached(s, acts);
            t.phase.Starting? && (t.announcing != {} || InStep(t))
    decreases |acts|
  {
    if acts != [] {
      EarlyMutations(Next(s, acts[0]), acts[1..]);
    }
  }

  /**
   No lost wake-up. If nothing was announced before the reconciler's first read, then in every run
   after it, whenever the reconciler is idle, nothing is being announced and the last announcement
   has been seen, the running tasks match the registry, however many changes shared one wake-up.
   */
  lemma NoLostWakeup(boot: State, early: seq<Action>, acts: seq<Action>)
    requires Booted(boot) && IsRun(boot, early) && NoneAnnounced(early)
    requires var s := Reached(boot, early);
             Enabled(s, FirstRead) && IsRun(Next(s, FirstRead), acts)
    ensures var t := Reached(Next(Reached(boot, early), FirstRead), acts);
            Quiet(t) ==> InStep(t)
  {
    EarlyMutations(boot, early);
    FirstReadExact(Reached(boot, early));
  }

  /** Without that hypothesis a change can go unnoticed: the run is over, quiet, and out of step. */
  lemma EarlyAnnouncementMissed(boot: State, changed: Registry)
    requires Booted(boot) && changed != boot.registry
    ensures var acts := [Mutate(0, changed), Announce(0), FirstRead];
            IsRun(boot, acts) && Quiet(Reached(boot, acts)) && !InStep(Reached(boot, acts))
  {
    var s1 := Next(boot, Mutate(0, changed));
    var s2 := Next(s1, Announce(0));
    var s3 := Next(s2, FirstRead);
    var acts := [Mutate(0, changed), Announce(0), FirstRead];
    assert acts[1..] == [Announce(0), FirstRead] && acts[1..][1..] == [FirstRead] && acts[1..][1..][1..] == [];
    assert IsRun(s3, []) && Reached(s3, []) == s3;
    assert IsRun(s2, [FirstRead]) && Reached(s2, [FirstRead]) == s3;
    assert IsRun(s1, acts[1..]) && Reached(s1, acts[1..]) == s3;
  }

  /** Any later wake-up repairs it, from whatever state the reconciler woke in. */
  lemma WakeRepairs(s: State, acts: seq<Action>)
    requires Enabled(s, Wake) && IsRun(Next(s, Wake), acts)
    ensures var t := Reached(Next(s, Wake), acts);
            Quiet(t) ==> InStep(t)
  {
    RunInv(Next(s, Wake), acts);
  }

  // ---- Tasks the protocol leaves alone ----------------------------------------------

  /** No registry in a run, as it is when the relay's pass reads it, gives `id` another uuid. */
  ghost predicate AlwaysListed(acts: seq<Action>, id: DeviceId, uuid: Relay.Uuid) {
    forall i :: 0 <= i < |acts| && acts[i].Mutate? ==> id in acts[i].registry && acts[i].registry[id] == uuid
  }

  /** A device that stays in the registry under one uuid keeps its task through every run, whatever else changes. */
  lemma {:induction false} TaskSurvives(s: State, acts: seq<Action>, id: DeviceId)
    requires IsRun(s, acts) && id in s.running && AlwaysListed(acts, id, s.running[id].uuid)
    requires id in s.registry && s.registry[id] == s.running[id].uuid
    requires s.phase.Snapped? ==> id in s.phase.wanted && s.phase.wanted[id] == s.running[id].uuid
    ensures id in Reached(s, acts).running && Reached(s, acts).running[id] == s.running[id]
    decreases |acts|
  {
    if acts != [] {
      var t := Next(s, acts[0]);
      if acts[0].ApplyRelay? {
        assert Relay.Keeps(s.running, s.phase.wanted, id);
      }
      TaskSurvives(t, acts[1..], id);
    }
  }
}
