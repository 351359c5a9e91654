/** What the sweeper says about evictions, tick by tick. */
module Sweeper {
  import opened Base
  import opened Reads
  import Text
  import SM = StoreModel
  import MS = MemoryStore
  import C = Configuration

  datatype Report = Quiet | Evicting(entries: nat) | OverBudget

  function ReportOf(usage: MS.Usage, seen: nat): Report {
    if MS.OverBudget(usage) then OverBudget
    else if usage.evicted > seen then Evicting(usage.evicted - seen)
    else Quiet
  }

  /**
   The oldest stamp worth keeping; `back` is the clock's, giving the stamp an age before now, or
   nothing if that is before the calendar begins.
   */
  function Cutoff(retain: C.Retention, back: nat -> Option<string>): Option<string> {
    match retain
    case Forever => None
    case Age(nanos) => back(nanos)
    case Since(floor) => Some(floor)
  }

  /** A read is kept exactly if it was live and is not stamped before `floor`. */
  ghost predicate KeepsFrom(before: seq<Read>, after: seq<Read>, floor: string) {
    forall r :: r in after <==> r in before && !Text.Before(r.at, floor)
  }

  lemma KeepsExactly(m: SM.Model, floor: string)
    ensures KeepsFrom(m.entries, SM.Prune(m, floor).entries, floor)
  {
    forall r
      ensures r in SM.Prune(m, floor).entries <==> r in m.entries && !Text.Before(r.at, floor)
    {
      SM.PruneExact(m, floor, r);
    }
  }

  /** The last reads alone cost more than the budget, so no deleting of history will do. */
  ghost predicate FloorTooHigh(m: SM.Model) {
    m.budget.Some? && SM.Floor(m.latest) > m.budget.value
  }

  class Sweeper {
    var seenEvicted: nat

    constructor ()
      ensures seenEvicted == 0
    {
      seenEvicted := 0;
    }

    /** One pass over a store that may refuse to prune, or whose usage may turn out to be unreadable. */
    method Sweep(store: MS.MemoryStore, retain: C.Retention, back: nat -> Option<string>, prunes: bool, readable: bool)
      returns (said: Option<Report>)
      requires store.Valid()
      modifies this, store, store.ledger
      ensures store.Valid()
      ensures store.model == if Cutoff(retain, back).Some? && prunes
                             then SM.Prune(old(store.model), Cutoff(retain, back).value)
                             else old(store.model)
      ensures retain.Forever? || !prunes ==> store.model == old(store.model)
      ensures store.model.latest == old(store.model.latest)
      ensures retain.Since? && prunes ==> KeepsFrom(old(store.model.entries), store.model.entries, retain.floor)
      ensures retain.Age? && prunes && back(retain.nanos).Some? ==>
                KeepsFrom(old(store.model.entries), store.model.entries, back(retain.nanos).value)
      ensures retain.Age? && back(retain.nanos).None? ==> store.model == old(store.model)
      ensures !readable ==> said == None && seenEvicted == old(seenEvicted)
      ensures readable ==> seenEvicted == store.model.evicted
      ensures readable ==> said == Some(ReportOf(
                MS.Usage(SM.Used(store.model), |store.model.entries|, store.model.budget, store.model.evicted),
                old(seenEvicted)))
      ensures readable ==> (said == Some(OverBudget) <==> FloorTooHigh(store.model))
      ensures readable && !FloorTooHigh(store.model) ==>
                said == Some(if store.model.evicted <= old(seenEvicted) then Quiet
                             else Evicting(store.model.evicted - old(seenEvicted)))
    {
      var cutoff := Cutoff(retain, back);
      if cutoff.Some? && prunes {
        KeepsExactly(store.model, cutoff.value);
        var swept := store.Prune(cutoff.value);
      }
      if !readable {
        return None;
      }
      var usage := store.GetUsage();
      said := Some(ReportOf(usage, seenEvicted));
      seenEvicted := usage.evicted;
    }
  }

  /** The readings of successive ticks; `None` where usage could not be read. */
  type Ticks = seq<Option<MS.Usage>>

  function SeenAfter(ticks: Ticks): nat {
    if ticks == [] then 0
    else if ticks[|ticks| - 1].Some? then ticks[|ticks| - 1].value.evicted
    else SeenAfter(ticks[..|ticks| - 1])
  }

  /** The cumulative counter never goes back between readings. */
  ghost predicate Growing(ticks: Ticks) {
    forall i, j :: 0 <= i < j < |ticks| && ticks[i].Some? && ticks[j].Some?
      ==> ticks[i].value.evicted <= ticks[j].value.evicted
  }

  /** Evictions since the last reading, as tick `i` sees them. */
  function Delta(ticks: Ticks, i: nat): nat
    requires i < |ticks|
  {
    if ticks[i].Some? && ticks[i].value.evicted > SeenAfter(ticks[..i])
        then ticks[i].value.evicted - SeenAfter(ticks[..i]) else 0
  }

  function Deltas(ticks: Ticks): nat {
    if ticks == [] then 0 else Deltas(ticks[..|ticks| - 1]) + Delta(ticks, |ticks| - 1)
  }

  /** The total of what `Evicting` reports. */
  function Reported(ticks: Ticks): nat {
    if ticks == [] then 0
    else
      var init, last := ticks[..|ticks| - 1], ticks[|ticks| - 1];
      Reported(init) + if last.Some? && ReportOf(last.value, SeenAfter(init)).Evicting?
                       then ReportOf(last.value, SeenAfter(init)).entries else 0
  }

  lemma {:induction false} SeenIsRead(ticks: Ticks, bound: nat)
    requires forall i :: 0 <= i < |ticks| && ticks[i].Some? ==> ticks[i].value.evicted <= bound
    ensures SeenAfter(ticks) <= bound
  {
    if ticks != [] && ticks[|ticks| - 1].None? {
      SeenIsRead(ticks[..|ticks| - 1], bound);
    }
  }

  lemma {:induction false} DeltasTelescope(ticks: Ticks)
    requires Growing(ticks)
    ensures Deltas(ticks) == SeenAfter(ticks)
  {
    if ticks != [] {
      var init, last := ticks[..|ticks| - 1], ticks[|ticks| - 1];
      assert Growing(init) by {
        assert forall i :: 0 <= i < |init| ==> init[i] == ticks[i];
      }
      DeltasTelescope(init);
      if last.Some? {
        forall i | 0 <= i < |init| && init[i].Some?
          ensures init[i].value.evicted <= last.value.evicted
        {
          assert init[i] == ticks[i];
        }
        SeenIsRead(init, last.value.evicted);
      }
    }
  }

  predicate HidesEvictions(ticks: Ticks, i: nat)
    requires i < |ticks|
  {
    ticks[i].Some? && MS.OverBudget(ticks[i].value) && Delta(ticks, i) > 0
  }

  lemma {:induction false} ReportedAtMost(ticks: Ticks)
    ensures Reported(ticks) <= Deltas(ticks)
    ensures Reported(ticks) == Deltas(ticks) <==> forall i :: 0 <= i < |ticks| ==> !HidesEvictions(ticks, i)
  {
    if ticks != [] {
      var n := |ticks| - 1;
      var init := ticks[..n];
      ReportedAtMost(init);
      forall i | 0 <= i < n
        ensures HidesEvictions(init, i) <==> HidesEvictions(ticks, i)
      {
        assert init[..i] == ticks[..i] && init[i] == ticks[i];
      }
      assert HidesEvictions(ticks, n) ==> Reported(ticks) < Deltas(ticks);
    }
  }

  /**
   The per-tick differences add up to the whole count, across ticks that could not read it. The
   reports add up to it exactly if no tick found the store over budget with fresh evictions: such a
   tick says `OverBudget` and the evictions are never reported.
   */
  lemma ReportsAddUp(ticks: Ticks)
    requires Growing(ticks)
    ensures Deltas(ticks) == SeenAfter(ticks)
    ensures Reported(ticks) == SeenAfter(ticks) <==> forall i :: 0 <= i < |ticks| ==> !HidesEvictions(ticks, i)
  {
    DeltasTelescope(ticks);
    ReportedAtMost(ticks);
  }

  /** A budget below what `latest` costs, one write, one tick: the eviction is never reported. */
  lemma HiddenEviction(r: Read)
    ensures var m := SM.Upsert(SM.Empty(Some(1)), r);
            var u := MS.Usage(SM.Used(m), |m.entries|, m.budget, m.evicted);
            u.evicted == 1 && Reported([Some(u)]) == 0
  {
    var m := SM.Upsert(SM.Empty(Some(1)), r);
    SumMapPut(map[], LatestBytes, KeyOf(r), r);
    var latest: map<Key, Read> := map[];
    assert SM.Floor(latest[KeyOf(r) := r]) == LatestBytes(r) > 1;
    assert m.entries == [];
    var u := MS.Usage(SM.Used(m), |m.entries|, m.budget, m.evicted);
    assert MS.OverBudget(u);
    assert [Some(u)][..0] == [];
  }

  /** Readings taken at successive moments of one run of the store do grow. */
  lemma RunReadingsGrow(budget: Option<nat>, es: seq<SM.Event>, moments: seq<nat>, ticks: Ticks)
    requires |moments| == |ticks|
    requires forall i, j :: 0 <= i < j < |moments| ==> moments[i] <= moments[j]
    requires forall i :: 0 <= i < |moments| ==> moments[i] <= |es|
    requires forall i :: 0 <= i < |ticks| && ticks[i].Some? ==>
               ticks[i].value.evicted == SM.Run(SM.Empty(budget), es[..moments[i]]).evicted
    ensures Growing(ticks)
  {
    forall i, j | 0 <= i < j < |ticks| && ticks[i].Some? && ticks[j].Some?
      ensures ticks[i].value.evicted <= ticks[j].value.evicted
    {
      SM.EvictedGrows(budget, es[..moments[j]], moments[i]);
      assert es[..moments[j]][..moments[i]] == es[..moments[i]];
    }
  }
}
