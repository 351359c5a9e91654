/**
 The in-memory store run by one caller at a time. Its three structures (last reads, nested
 history, ledger) are changed separately; `Valid` ties all three to the reference store, and every
 method is one step of that reference.
 */
module MemoryStore {
  import opened Base
  import opened Reads
  import opened History
  import opened Ledger
  import SM = StoreModel
  import Text

  /** The three structures agree with each other and with the reference. */
  ghost predicate Agrees(latest: map<Key, Read>, history: History, books: Books, m: SM.Model) {
    && latest == m.latest
    && Stands(books, m)
    && Projects(history, m.entries)
    && Tidy(history)
  }

  /** A write filed in the maps, settled in the books and trimmed by what the books claimed. */
  lemma WriteAgrees(latest: map<Key, Read>, history: History, books: Books, m: SM.Model, r: Read, after: History)
    requires Agrees(latest, history, books, m) && Tidy(after)
    requires Dropped(Push(history, r), after, books.Admit(LatestBytes(r), Displaced(latest, KeyOf(r)), SlotOf(r)).1)
    ensures Agrees(latest[KeyOf(r) := r], after,
                   books.Admit(LatestBytes(r), Displaced(latest, KeyOf(r)), SlotOf(r)).0, SM.Upsert(m, r))
  {
    var front := AdmitSheds(books, m, r);
    PushProjects(history, m.entries, r);
    EvictedProjects(Push(history, r), after, front, SM.Upsert(m, r).entries);
  }

  lemma RecapAgrees(latest: map<Key, Read>, history: History, books: Books, m: SM.Model, budget: Option<nat>,
                    after: History)
    requires Agrees(latest, history, books, m) && Tidy(after)
    requires Dropped(history, after, books.Recap(budget).1)
    ensures Agrees(latest, after, books.Recap(budget).0, SM.Recap(m, budget))
    ensures |books.Recap(budget).1| == SM.Recap(m, budget).evicted - m.evicted
  {
    var front := RecapSheds(books, m, budget);
    EvictedProjects(history, after, front, SM.Recap(m, budget).entries);
  }

  lemma SweepAgrees(latest: map<Key, Read>, history: History, books: Books, m: SM.Model, before: string, after: History)
    requires Agrees(latest, history, books, m) && SM.SeriesSorted(m.entries) && Tidy(after)
    requires Dropped(history, after, books.Expire(before).1)
    ensures Agrees(latest, after, books.Expire(before).0, SM.Prune(m, before))
    ensures |books.Expire(before).1| == |m.entries| - |SM.Prune(m, before).entries|
    ensures SumBy(books.Expire(before).1, SlotBytes) == SM.Used(m) - SM.Used(SM.Prune(m, before))
  {
    TakeIfStands(books, m, StampedBefore(before), SlotStampedBefore(before));
    FilterSplitsLength(m.entries, StampedBefore(before));
    ExpiredProjects(history, after, m.entries, before);
  }

  datatype Swept = Swept(entries: nat, bytes: nat)
  datatype Usage = Usage(bytes: nat, entries: nat, budget: Option<nat>, evicted: nat)
  datatype TimeSpan = TimeSpan(start: string, end: string)

  predicate OverBudget(u: Usage) {
    u.budget.Some? && u.bytes > u.budget.value
  }

  /** A closed interval, compared as text. */
  function Within(span: TimeSpan): Read -> bool {
    (r: Read) => !Text.Before(r.at, span.start) && !Text.Before(span.end, r.at)
  }

  class MemoryStore {
    var latest: map<Key, Read>
    var history: History
    const ledger: Ledger
    ghost const cap: Option<nat>
    ghost var trace: seq<SM.Event>    // every operation so far
    ghost var model: SM.Model         // the reference after them

    ghost predicate Valid()
      reads this, ledger
    {
      && model == SM.Run(SM.Empty(cap), trace)
      && Agrees(latest, history, ledger.View(), model)
      && SM.SeriesSorted(model.entries)
      && SM.WithinCap(model)
    }

    constructor (budget: Option<nat>)
      ensures Valid() && fresh(ledger) && cap == budget && trace == []
    {
      latest, history, model := map[], map[], SM.Empty(budget);
      cap, trace := budget, [];
      ledger := new Ledger(budget);
      new;
      assert Slots(model.entries) == [];
    }

    /** Pop one front; a series or a device that empties loses its key. */
    method DropSlot(slot: Slot)
      modifies this`history
      ensures history == DropOne(old(history), slot)
    {
      if slot.device in history {
        var fields := history[slot.device];
        if slot.field in fields {
          var series := if |fields[slot.field]| == 0 then [] else fields[slot.field][1..];
          if series == [] {
            fields := fields - {slot.field};
          } else {
            fields := fields[slot.field := series];
          }
        }
        history := history[slot.device := fields];
        assert history == PopFront(old(history), KeyOfSlot(slot));
        if fields == map[] {
          history := history - {slot.device};
        }
      }
    }

    method DropFront(slots: seq<Slot>)
      requires Tidy(history)
      modifies this`history
      ensures Tidy(history) && Dropped(old(history), history, slots)
    {
      for i := 0 to |slots|
        invariant Tidy(history) && Dropped(old(history), history, slots[..i])
      {
        DropOneTidy(history, slots[i]);
        DropOneMore(old(history), history, slots[..i], slots[i]);
        assert slots[..i + 1] == slots[..i] + [slots[i]];
        DropSlot(slots[i]);
      }
      assert slots[..|slots|] == slots;
    }

    /** The map half of a write; reports what the displaced read had cost. */
    method FileRead(r: Read) returns (displaced: nat)
      modifies this`latest, this`history
      ensures latest == old(latest)[KeyOf(r) := r] && history == Push(old(history), r)
      ensures displaced == Displaced(old(latest), KeyOf(r))
    {
      var k := KeyOf(r);
      displaced := if k in latest then LatestBytes(latest[k]) else 0;
      latest := latest[k := r];
      var fields := if r.device in history then history[r.device] else map[];
      var series := if r.field in fields then fields[r.field] else [];
      history := history[r.device := fields[r.field := series + [r]]];
    }

    method UpsertLatest(r: Read)
      requires Valid()
      requires SM.Follows(model.entries, r)
      modifies this, ledger
      ensures Valid() && model == SM.Upsert(old(model), r)
      ensures trace == old(trace) + [SM.Wrote(r)]
    {
      ghost var m := model;
      PushSeries(history, r, KeyOf(r));
      var displaced := FileRead(r);
      var evicted := ledger.AdmitWrite(LatestBytes(r), displaced, SlotOf(r));
      DropFront(evicted);

      model := SM.Upsert(m, r);
      SM.RunSnoc(SM.Empty(cap), trace, SM.Wrote(r));
      trace := trace + [SM.Wrote(r)];
      WriteAgrees(old(latest), old(history), old(ledger.View()), m, r, history);
      SM.StepSeriesSorted(m, SM.Wrote(r));
      SM.StepWithinCap(m, SM.Wrote(r));
    }

    /** Re-cap, evicting at once; reports how many entries that cost. */
    method SetBudget(budget: Option<nat>) returns (entries: nat)
      requires Valid()
      modifies this, ledger
      ensures Valid() && model == SM.Recap(old(model), budget)
      ensures trace == old(trace) + [SM.Recapped(budget)]
      ensures entries == model.evicted - old(model.evicted)
      ensures latest == old(latest)
    {
      ghost var m := model;
      var evicted := ledger.SetCap(budget);
      entries := |evicted|;
      DropFront(evicted);
      model := SM.Recap(m, budget);
      SM.RunSnoc(SM.Empty(cap), trace, SM.Recapped(budget));
      trace := trace + [SM.Recapped(budget)];
      RecapAgrees(latest, old(history), old(ledger.View()), m, budget, history);
      SM.StepSeriesSorted(m, SM.Recapped(budget));
      SM.StepWithinCap(m, SM.Recapped(budget));
    }

    /** Expire everything stamped before the cutoff; the report is what left, in entries and in bytes. */
    method Prune(before: string) returns (swept: Swept)
      requires Valid()
      modifies this, ledger
      ensures Valid() && model == SM.Prune(old(model), before)
      ensures trace == old(trace) + [SM.Pruned(before)]
      ensures swept.entries == |old(model.entries)| - |model.entries|
      ensures swept.bytes == SM.Used(old(model)) - SM.Used(model)
      ensures latest == old(latest)
    {
      ghost var m := model;
      var expired := ledger.ExpireBefore(before);
      swept := Swept(|expired|, SumBy(expired, SlotBytes));
      DropFront(expired);
      model := SM.Prune(m, before);
      SM.RunSnoc(SM.Empty(cap), trace, SM.Pruned(before));
      trace := trace + [SM.Pruned(before)];
      SweepAgrees(latest, old(history), old(ledger.View()), m, before, history);
      SM.StepSeriesSorted(m, SM.Pruned(before));
      SM.StepWithinCap(m, SM.Pruned(before));
    }

    method DropLatest(d: DeviceId) returns (dropped: nat)
      modifies this`latest
      ensures latest == old(latest) - SM.KeysOfDevice(old(latest), d)
      ensures dropped == SM.Floor(map k | k in SM.KeysOfDevice(old(latest), d) :: old(latest)[k])
    {
      var gone := SM.KeysOfDevice(latest, d);
      dropped := TotalBytes(map k | k in gone :: latest[k]);
      latest := latest - gone;
    }

    /** Drop everything recorded for one device; reports how many history entries went. */
    method ForgetDevice(d: DeviceId) returns (entries: nat)
      requires Valid()
      modifies this, ledger
      ensures Valid() && model == SM.Forget(old(model), d)
      ensures trace == old(trace) + [SM.Forgot(d)]
      ensures entries == |old(model.entries)| - |model.entries|
    {
      ghost var m := model;
      ForgetStands(ledger.View(), m, d);
      ForgottenProjects(history, m.entries, d);
      FilterSplitsLength(m.entries, OfDevice(d));
      var dropped := DropLatest(d);
      var slots := ledger.ForgetDevice(d, dropped);
      history := history - {d};
      entries := |slots|;

      model := SM.Forget(m, d);
      SM.RunSnoc(SM.Empty(cap), trace, SM.Forgot(d));
      trace := trace + [SM.Forgot(d)];
      SM.StepSeriesSorted(m, SM.Forgot(d));
      SM.StepWithinCap(m, SM.Forgot(d));
    }

    method GetUsage() returns (u: Usage)
      requires Valid()
      ensures u == Usage(SM.Used(model), |model.entries|, model.budget, model.evicted)
      ensures OverBudget(u) ==> u.entries == 0
      ensures OverBudget(u) <==> model.budget.Some? && SM.Floor(model.latest) > model.budget.value
      ensures u.entries + u.evicted + SM.SweptBy(SM.Empty(cap), trace) + SM.ForgottenBy(SM.Empty(cap), trace)
              == |SM.Written(trace)|
    {
      SM.Conservation(cap, trace);
      u := Usage(ledger.latestBytes + ledger.historyBytes, |ledger.queue|, ledger.budget, ledger.evicted);
    }

    method GetLatest(k: Key) returns (r: Option<Read>)
      requires Valid()
      ensures r == SM.LastWrite(trace, k)
    {
      SM.LatestIsLastWrite(cap, trace, k);
      r := if k in latest then Some(latest[k]) else None;
    }

    /** One series cut to a span, oldest first: the live writes of that key, in the order they were made. */
    method Between(k: Key, span: TimeSpan) returns (found: seq<Read>)
      requires Valid()
      ensures found == Filter(Filter(model.entries, OfKey(k)), Within(span))
      ensures SM.Sorted(found)
      ensures SM.WritesAndCaps(trace) ==>
                SM.HoldsFrom(model, SM.Written(trace))
                && found == Filter(Filter(SM.Written(trace)[model.evicted..], OfKey(k)), Within(span))
    {
      if SM.WritesAndCaps(trace) {
        SM.LiveIsSuffix(cap, trace);
      }
      found := [];
      if k.device in history && k.field in history[k.device] {
        var series := history[k.device][k.field];
        for i := 0 to |series|
          invariant found == Filter(series[..i], Within(span))
        {
          assert series[..i + 1] == series[..i] + [series[i]];
          FilterConcat(series[..i], [series[i]], Within(span));
          if Within(span)(series[i]) {
            found := found + [series[i]];
          }
        }
        assert series[..|series|] == series;
      }
      assert SeriesOf(history, k) == Filter(model.entries, OfKey(k));
      FilterSwap(model.entries, OfKey(k), Within(span));
      SM.FilterSeriesSorted(model.entries, Within(span));
      SM.ProjectionSorted(Filter(model.entries, Within(span)), k);
    }
  }

  /** The sum over a device's last reads. */
  method TotalBytes(reads': map<Key, Read>) returns (total: nat)
    ensures total == SumMap(reads', LatestBytes)
  {
    total := 0;
    var left := reads';
    while left != map[]
      invariant total + SumMap(left, LatestBytes) == SumMap(reads', LatestBytes)
      decreases |left|
    {
      var k :| k in left;
      SumMapAt(left, LatestBytes, k);
      total := total + LatestBytes(left[k]);
      left := left - {k};
    }
  }
}
