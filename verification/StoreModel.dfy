/**
 The reference store: one list of live reads in the order they were written, and the last read
 of each field. Every operation of the real store is stated here in its simplest form, and the
 laws a run obeys are proved here once.
 */
module StoreModel {
  import opened Base
  import opened Reads
  import Text

  datatype Model = Model(
    latest: map<Key, Read>,
    entries: seq<Read>,
    budget: Option<nat>,
    evicted: nat)

  function Empty(budget: Option<nat>): Model {
    Model(map[], [], budget, 0)
  }

  /** What `latest` costs, which nothing evicts. */
  ghost function Floor(latest: map<Key, Read>): nat {
    SumMap(latest, LatestBytes)
  }

  function Cost(entries: seq<Read>): nat {
    SumBy(entries, HistoryBytes)
  }

  ghost function Used(m: Model): nat {
    Floor(m.latest) + Cost(m.entries)
  }

  /** Whether evicting the oldest `n` entries is enough. */
  ghost predicate Suffices(entries: seq<Read>, floor: nat, cap: nat, n: nat)
    requires n <= |entries|
  {
    floor + Cost(entries[n..]) <= cap || entries[n..] == []
  }

  lemma SufficesShifts(entries: seq<Read>, floor: nat, cap: nat)
    requires entries != []
    ensures forall j :: 0 < j <= |entries| ==>
              Suffices(entries, floor, cap, j) == Suffices(entries[1..], floor, cap, j - 1)
  {
    forall j | 0 < j <= |entries|
      ensures Suffices(entries, floor, cap, j) == Suffices(entries[1..], floor, cap, j - 1)
    {
      assert entries[1..][j - 1..] == entries[j..];
    }
  }

  /** The length of the shortest prefix whose removal brings the store within `cap`. */
  ghost function Excess(entries: seq<Read>, floor: nat, cap: nat): (n: nat)
    ensures n <= |entries| && Suffices(entries, floor, cap, n)
    ensures forall j :: 0 <= j < n ==> !Suffices(entries, floor, cap, j)
  {
    if entries == [] || floor + Cost(entries) <= cap then
      assert entries[0..] == entries;
      0
    else
      SufficesShifts(entries, floor, cap);
      assert entries[0..] == entries;
      1 + Excess(entries[1..], floor, cap)
  }

  /** No other length is shortest. */
  lemma ExcessUnique(entries: seq<Read>, floor: nat, cap: nat, n: nat)
    requires n <= |entries| && Suffices(entries, floor, cap, n)
    requires forall j :: 0 <= j < n ==> !Suffices(entries, floor, cap, j)
    ensures n == Excess(entries, floor, cap)
  {
  }

  ghost function Enforce(m: Model): Model {
    match m.budget
    case None => m
    case Some(cap) =>
      var n := Excess(m.entries, Floor(m.latest), cap);
      m.(entries := m.entries[n..], evicted := m.evicted + n)
  }

  ghost function Upsert(m: Model, r: Read): Model {
    Enforce(m.(latest := m.latest[KeyOf(r) := r], entries := m.entries + [r]))
  }

  ghost function Recap(m: Model, budget: Option<nat>): Model {
    Enforce(m.(budget := budget))
  }

  function Prune(m: Model, before: string): Model {
    m.(entries := Filter(m.entries, Negate(StampedBefore(before))))
  }

  function KeysOfDevice(latest: map<Key, Read>, d: DeviceId): set<Key> {
    set k | k in latest && k.device == d
  }

  function Forget(m: Model, d: DeviceId): Model {
    m.(latest := m.latest - KeysOfDevice(m.latest, d),
       entries := Filter(m.entries, Negate(OfDevice(d))))
  }

  datatype Event = Wrote(read: Read) | Recapped(budget: Option<nat>) | Pruned(before: string) | Forgot(device: DeviceId)

  ghost function Step(m: Model, e: Event): Model {
    match e
    case Wrote(r) => Upsert(m, r)
    case Recapped(b) => Recap(m, b)
    case Pruned(t) => Prune(m, t)
    case Forgot(d) => Forget(m, d)
  }

  ghost function Run(m: Model, es: seq<Event>): Model {
    if es == [] then m else Step(Run(m, es[..|es| - 1]), es[|es| - 1])
  }

  lemma RunSnoc(m: Model, es: seq<Event>, e: Event)
    ensures Run(m, es + [e]) == Step(Run(m, es), e)
  {
    assert (es + [e])[..|es|] == es;
  }

  // ---- The cap ----------------------------------------------------------

  ghost predicate WithinCap(m: Model) {
    m.budget.Some? ==> Used(m) <= m.budget.value || m.entries == []
  }

  lemma ForgetLowersFloor(latest: map<Key, Read>, d: DeviceId)
    ensures Floor(latest) ==
            Floor(latest - KeysOfDevice(latest, d)) + Floor(map k | k in KeysOfDevice(latest, d) :: latest[k])
  {
    SumMapRemove(latest, LatestBytes, KeysOfDevice(latest, d));
  }

  lemma StepWithinCap(m: Model, e: Event)
    requires WithinCap(m)
    ensures WithinCap(Step(m, e))
  {
    match e
    case Wrote(r) =>
    case Recapped(b) =>
    case Pruned(t) =>
      SumSplits(m.entries, HistoryBytes, StampedBefore(t));
    case Forgot(d) =>
      SumSplits(m.entries, HistoryBytes, OfDevice(d));
      ForgetLowersFloor(m.latest, d);
  }

  /** After every operation of every run, usage is within the cap or no history is left. */
  lemma {:induction false} RunWithinCap(budget: Option<nat>, es: seq<Event>)
    ensures WithinCap(Run(Empty(budget), es))
  {
    if es != [] {
      RunWithinCap(budget, es[..|es| - 1]);
      StepWithinCap(Run(Empty(budget), es[..|es| - 1]), es[|es| - 1]);
    }
  }

  predicate AtMost(a: Option<nat>, b: Option<nat>) {
    b.None? || (a.Some? && a.value <= b.value)
  }

  lemma {:induction false} ExcessInSteps(entries: seq<Read>, floor: nat, high: nat, low: nat)
    requires low <= high
    ensures var n := Excess(entries, floor, high);
            n + Excess(entries[n..], floor, low) == Excess(entries, floor, low)
  {
    if entries != [] && floor + Cost(entries) > high {
      ExcessInSteps(entries[1..], floor, high, low);
      var n := Excess(entries[1..], floor, high);
      assert entries[1..][n..] == entries[1 + n..];
    } else {
      assert entries[0..] == entries;
    }
  }

  /** Lowering the cap in two steps leaves what lowering it once leaves, eviction count included. */
  lemma RecapInSteps(m: Model, high: Option<nat>, low: Option<nat>)
    requires AtMost(low, high)
    ensures Recap(Recap(m, high), low) == Recap(m, low)
  {
    if high.Some? {
      ExcessInSteps(m.entries, Floor(m.latest), high.value, low.value);
      var n := Excess(m.entries, Floor(m.latest), high.value);
      var k := Excess(m.entries[n..], Floor(m.latest), low.value);
      assert m.entries[n..][k..] == m.entries[n + k..];
    }
  }

  /** Restating the cap already in force, or raising it, evicts nothing. */
  lemma RaiseEvictsNothing(m: Model, budget: Option<nat>)
    requires WithinCap(m) && AtMost(m.budget, budget)
    ensures Recap(m, budget) == m.(budget := budget)
  {
    assert m.entries[0..] == m.entries;
  }

  // ---- What survives ----------------------------------------------------

  function Written(es: seq<Event>): seq<Read> {
    if es == [] then []
    else Written(es[..|es| - 1]) + (if es[|es| - 1].Wrote? then [es[|es| - 1].read] else [])
  }

  predicate WritesAndCaps(es: seq<Event>) {
    forall e :: e in es ==> e.Wrote? || e.Recapped?
  }

  /** `m` holds the write log from its oldest unevicted entry on. */
  ghost predicate HoldsFrom(m: Model, log: seq<Read>) {
    m.evicted <= |log| && m.entries == log[m.evicted..]
  }

  lemma EnforceHoldsFrom(m: Model, log: seq<Read>)
    requires HoldsFrom(m, log)
    ensures HoldsFrom(Enforce(m), log)
  {
    var n := Enforce(m).evicted - m.evicted;
    assert m.budget.Some? ==> Enforce(m).entries == m.entries[n..];
  }

  /** Without sweeps or removals the live history is a suffix of the write log, and the rest was evicted. */
  lemma {:induction false} LiveIsSuffix(budget: Option<nat>, es: seq<Event>)
    requires WritesAndCaps(es)
    ensures HoldsFrom(Run(Empty(budget), es), Written(es))
  {
    if es != [] {
      var init, e := es[..|es| - 1], es[|es| - 1];
      assert e in es;
      LiveIsSuffix(budget, init);
      var m := Run(Empty(budget), init);
      match e
      case Wrote(r) =>
        EnforceHoldsFrom(m.(latest := m.latest[KeyOf(r) := r], entries := m.entries + [r]), Written(init) + [r]);
      case Recapped(b) =>
        assert Written(init) + [] == Written(init);
        EnforceHoldsFrom(m.(budget := b), Written(init));
    }
  }

  lemma {:induction false} PruneTwice(m: Model, a: string, b: string)
    ensures Prune(Prune(m, a), b) == Prune(m, if Text.Before(a, b) then b else a)
  {
    var later := if Text.Before(a, b) then b else a;
    forall r: Read
      ensures Negate(StampedBefore(later))(r) <==> Negate(StampedBefore(a))(r) && Negate(StampedBefore(b))(r)
    {
      Text.BeforeTotal(a, b);
      if Text.Before(a, b) {
        if Text.Before(r.at, a) {
          Text.BeforeTransitive(r.at, a, b);
        }
      } else {
        Text.BeforeChain(b, a, r.at);
        Text.BeforeTotal(r.at, b);
        Text.BeforeTotal(r.at, a);
        if Text.Before(r.at, b) && b != a {
          Text.BeforeTransitive(r.at, b, a);
        }
      }
    }
    FilterTwice(m.entries, Negate(StampedBefore(a)), Negate(StampedBefore(b)), Negate(StampedBefore(later)));
  }

  /** Prune keeps a read exactly if it is live and not stamped before the cutoff. */
  lemma PruneExact(m: Model, before: string, r: Read)
    ensures r in Prune(m, before).entries <==> r in m.entries && !Text.Before(r.at, before)
    ensures Prune(m, before).latest == m.latest
  {
    FilterMember(m.entries, Negate(StampedBefore(before)), r);
  }

  // ---- Conservation -----------------------------------------------------

  /** Entries the sweeps of a run removed. */
  ghost function SweptBy(m: Model, es: seq<Event>): nat {
    if es == [] then 0
    else
      var prior, e := Run(m, es[..|es| - 1]), es[|es| - 1];
      SweptBy(m, es[..|es| - 1]) + if e.Pruned? then |Filter(prior.entries, StampedBefore(e.before))| else 0
  }

  /** Entries removed by devices leaving the fleet. */
  ghost function ForgottenBy(m: Model, es: seq<Event>): nat {
    if es == [] then 0
    else
      var prior, e := Run(m, es[..|es| - 1]), es[|es| - 1];
      ForgottenBy(m, es[..|es| - 1]) + if e.Forgot? then |Filter(prior.entries, OfDevice(e.device))| else 0
  }

  /** Every write is live, evicted, swept or forgotten, and counted once. */
  lemma {:induction false} Conservation(budget: Option<nat>, es: seq<Event>)
    ensures var m := Run(Empty(budget), es);
            |Written(es)| == |m.entries| + m.evicted + SweptBy(Empty(budget), es) + ForgottenBy(Empty(budget), es)
  {
    if es != [] {
      var init, e := es[..|es| - 1], es[|es| - 1];
      Conservation(budget, init);
      var m := Run(Empty(budget), init);
      match e
      case Wrote(r) =>
      case Recapped(b) =>
      case Pruned(t) => FilterSplitsLength(m.entries, StampedBefore(t));
      case Forgot(d) => FilterSplitsLength(m.entries, OfDevice(d));
    }
  }

  /** The eviction counter never goes back. */
  lemma {:induction false} EvictedGrows(budget: Option<nat>, es: seq<Event>, n: nat)
    requires n <= |es|
    ensures Run(Empty(budget), es[..n]).evicted <= Run(Empty(budget), es).evicted
  {
    if n < |es| {
      EvictedGrows(budget, es[..|es| - 1], n);
      assert es[..|es| - 1][..n] == es[..n];
    } else {
      assert es[..n] == es;
    }
  }

  // ---- Without evictions ---------------------------------------------------

  /** What a run would have kept had nothing been evicted. */
  function Unevicted(es: seq<Event>): seq<Read> {
    if es == [] then []
    else
      var kept := Unevicted(es[..|es| - 1]);
      match es[|es| - 1]
      case Wrote(r) => kept + [r]
      case Recapped(_) => kept
      case Pruned(t) => Filter(kept, Negate(StampedBefore(t)))
      case Forgot(d) => Filter(kept, Negate(OfDevice(d)))
  }

  ghost predicate EndsWith(all: seq<Read>, back: seq<Read>) {
    |back| <= |all| && all[|all| - |back|..] == back
  }

  lemma EndsFilter(all: seq<Read>, back: seq<Read>, p: Read -> bool)
    requires EndsWith(all, back)
    ensures EndsWith(Filter(all, p), Filter(back, p))
  {
    var front := all[..|all| - |back|];
    assert all == front + back;
    FilterConcat(front, back, p);
  }

  /** What is left of a list's end, and of what joins it, once a front is gone. */
  lemma EndsLater(all: seq<Read>, back: seq<Read>, joins: seq<Read>, front: seq<Read>, rest: seq<Read>)
    requires EndsWith(all, back) && back + joins == front + rest
    ensures EndsWith(all + joins, rest)
  {
    var head := all[..|all| - |back|];
    assert all + joins == head + (back + joins) == (head + front) + rest;
  }

  lemma EndsUnique(all: seq<Read>, a: seq<Read>, b: seq<Read>)
    requires EndsWith(all, a) && EndsWith(all, b) && |a| == |b|
    ensures a == b
  {
  }

  lemma EnforceKeepsBack(m: Model)
    ensures EndsWith(m.entries, Enforce(m).entries)
  {
    assert m.entries[0..] == m.entries;
  }

  lemma EndsThrough(all: seq<Read>, mid: seq<Read>, back: seq<Read>)
    requires EndsWith(all, mid) && EndsWith(mid, back)
    ensures EndsWith(all, back)
  {
  }

  lemma StepEndsUnevicted(m: Model, es: seq<Event>, e: Event)
    requires EndsWith(Unevicted(es), m.entries)
    ensures EndsWith(Unevicted(es + [e]), Step(m, e).entries)
  {
    assert (es + [e])[..|es|] == es;
    match e
    case Wrote(r) =>
      EndsLater(Unevicted(es), m.entries, [r], [], m.entries + [r]);
      EnforceKeepsBack(m.(latest := m.latest[KeyOf(r) := r], entries := m.entries + [r]));
      EndsThrough(Unevicted(es) + [r], m.entries + [r], Step(m, e).entries);
    case Recapped(b) =>
      EnforceKeepsBack(m.(budget := b));
      EndsThrough(Unevicted(es), m.entries, Step(m, e).entries);
    case Pruned(t) => EndsFilter(Unevicted(es), m.entries, Negate(StampedBefore(t)));
    case Forgot(d) => EndsFilter(Unevicted(es), m.entries, Negate(OfDevice(d)));
  }

  /** Whatever was evicted was the oldest of what would have been kept. */
  lemma {:induction false} LiveEndsUnevicted(budget: Option<nat>, es: seq<Event>)
    ensures EndsWith(Unevicted(es), Run(Empty(budget), es).entries)
  {
    if es != [] {
      var init, e := es[..|es| - 1], es[|es| - 1];
      LiveEndsUnevicted(budget, init);
      StepEndsUnevicted(Run(Empty(budget), init), init, e);
      assert init + [e] == es;
    }
  }

  // ---- The last read of a field -----------------------------------------

  /** The last write of `k` since its device was last forgotten, read off the event list alone. */
  function LastWrite(es: seq<Event>, k: Key): Option<Read> {
    if es == [] then None
    else
      var e := es[|es| - 1];
      if e.Wrote? && KeyOf(e.read) == k then Some(e.read)
      else if e.Forgot? && e.device == k.device then None
      else LastWrite(es[..|es| - 1], k)
  }

  /** The last write of `k`, removals ignored. */
  function LastWritten(es: seq<Event>, k: Key): Option<Read> {
    if es == [] then None
    else
      var e := es[|es| - 1];
      if e.Wrote? && KeyOf(e.read) == k then Some(e.read) else LastWritten(es[..|es| - 1], k)
  }

  /** Whether a removal of its device stands after the last write of `k`. */
  predicate RemovedSince(es: seq<Event>, k: Key) {
    es != [] &&
    var init, e := es[..|es| - 1], es[|es| - 1];
    if e.Wrote? && KeyOf(e.read) == k then false
    else if e.Forgot? && e.device == k.device then LastWritten(init, k).Some?
    else RemovedSince(init, k)
  }

  lemma {:induction false} LastWriteIs(es: seq<Event>, k: Key)
    ensures LastWrite(es, k) == if RemovedSince(es, k) then None else LastWritten(es, k)
    ensures RemovedSince(es, k) ==> LastWritten(es, k).Some?
  {
    if es != [] {
      LastWriteIs(es[..|es| - 1], k);
    }
  }

  lemma EventSnoc(es: seq<Event>, e: Event, k: Key)
    ensures LastWritten(es + [e], k) == if e.Wrote? && KeyOf(e.read) == k then Some(e.read) else LastWritten(es, k)
    ensures LastWrite(es + [e], k) == if e.Wrote? && KeyOf(e.read) == k then Some(e.read)
                                      else if e.Forgot? && e.device == k.device then None
                                      else LastWrite(es, k)
  {
    assert (es + [e])[..|es|] == es;
  }

  function Lookup(latest: map<Key, Read>, k: Key): Option<Read> {
    if k in latest then Some(latest[k]) else None
  }

  /** Only a write of the field or a removal of its device touches its last read. */
  lemma StepLatest(m: Model, e: Event, k: Key)
    ensures Lookup(Step(m, e).latest, k)
         == if e.Wrote? && KeyOf(e.read) == k then Some(e.read)
            else if e.Forgot? && e.device == k.device then None
            else Lookup(m.latest, k)
  {
  }

  /** `latest` answers with the last write, whatever was evicted, swept or re-capped since. */
  lemma {:induction false} LatestIsLastWrite(budget: Option<nat>, es: seq<Event>, k: Key)
    ensures LastWrite(es, k) == Lookup(Run(Empty(budget), es).latest, k)
  {
    if es != [] {
      var init, e := es[..|es| - 1], es[|es| - 1];
      LatestIsLastWrite(budget, init, k);
      StepLatest(Run(Empty(budget), init), e, k);
    }
  }

  // ---- Series -----------------------------------------------------------

  /** Stamps never go back inside a series. */
  ghost predicate SeriesSorted(entries: seq<Read>) {
    forall i, j :: 0 <= i < j < |entries| && KeyOf(entries[i]) == KeyOf(entries[j])
      ==> !Text.Before(entries[j].at, entries[i].at)
  }

  ghost predicate Sorted(series: seq<Read>) {
    forall i, j :: 0 <= i < j < |series| ==> !Text.Before(series[j].at, series[i].at)
  }

  /** The one thing a writer promises: the new stamp is not older than what its series holds. */
  ghost predicate Follows(entries: seq<Read>, r: Read) {
    forall e :: e in entries && KeyOf(e) == KeyOf(r) ==> !Text.Before(r.at, e.at)
  }

  lemma {:induction false} FilterSeriesSorted(entries: seq<Read>, p: Read -> bool)
    requires SeriesSorted(entries)
    ensures SeriesSorted(Filter(entries, p))
  {
    if entries != [] {
      var rest := entries[1..];
      FilterSeriesSorted(rest, p);
      var kept := Filter(rest, p);
      if p(entries[0]) {
        forall j | 0 <= j < |kept| && KeyOf(kept[j]) == KeyOf(entries[0])
          ensures !Text.Before(kept[j].at, entries[0].at)
        {
          FilterMember(rest, p, kept[j]);
          var i :| 0 <= i < |rest| && rest[i] == kept[j];
          assert rest[i] == entries[i + 1];
        }
      }
    }
  }

  lemma {:induction false} ProjectionSorted(entries: seq<Read>, k: Key)
    requires SeriesSorted(entries)
    ensures Sorted(Filter(entries, OfKey(k)))
  {
    FilterSeriesSorted(entries, OfKey(k));
    var s := Filter(entries, OfKey(k));
    forall i | 0 <= i < |s|
      ensures KeyOf(s[i]) == k
    {
      FilterMember(entries, OfKey(k), s[i]);
    }
  }

  lemma AppendSorted(entries: seq<Read>, r: Read)
    requires SeriesSorted(entries) && Follows(entries, r)
    ensures SeriesSorted(entries + [r])
  {
    forall i | 0 <= i < |entries| && KeyOf(entries[i]) == KeyOf(r)
      ensures !Text.Before(r.at, entries[i].at)
    {
      assert entries[i] in entries;
    }
  }

  lemma BackSorted(all: seq<Read>, front: seq<Read>, back: seq<Read>)
    requires SeriesSorted(all) && all == front + back
    ensures SeriesSorted(back)
  {
    forall i, j | 0 <= i < j < |back| && KeyOf(back[i]) == KeyOf(back[j])
      ensures !Text.Before(back[j].at, back[i].at)
    {
      assert all[|front| + i] == back[i] && all[|front| + j] == back[j];
    }
  }

  lemma StepSeriesSorted(m: Model, e: Event)
    requires SeriesSorted(m.entries)
    requires e.Wrote? ==> Follows(m.entries, e.read)
    ensures SeriesSorted(Step(m, e).entries)
  {
    match e
    case Wrote(r) =>
      var all := m.entries + [r];
      assert SeriesSorted(all) by {
        forall i | 0 <= i < |m.entries| && KeyOf(m.entries[i]) == KeyOf(r)
          ensures !Text.Before(r.at, m.entries[i].at)
        {
          assert m.entries[i] in m.entries;
        }
      }
    case Recapped(b) =>
    case Pruned(t) => FilterSeriesSorted(m.entries, Negate(StampedBefore(t)));
    case Forgot(d) => FilterSeriesSorted(m.entries, Negate(OfDevice(d)));
  }

  /**
   Popping as many fronts as a series has expired entries deletes the expired entries exactly if
   they stand in front.
   */
  lemma FrontPopExact(series: seq<Read>, before: string)
    ensures series[|Filter(series, StampedBefore(before))|..] == Filter(series, Negate(StampedBefore(before)))
            <==> StandsInFront(series, StampedBefore(before))
  {
    if StandsInFront(series, StampedBefore(before)) {
      DropIfInFront(series, StampedBefore(before));
    } else if series[|Filter(series, StampedBefore(before))|..] == Filter(series, Negate(StampedBefore(before))) {
      InFrontIfDrop(series, StampedBefore(before));
    }
  }

  lemma SortedExpiresFirst(series: seq<Read>, before: string)
    requires Sorted(series)
    ensures StandsInFront(series, StampedBefore(before))
  {
    forall i, j | 0 <= i < j < |series| && Text.Before(series[j].at, before)
      ensures Text.Before(series[i].at, before)
    {
      Text.BeforeChain(series[i].at, series[j].at, before);
    }
  }
}
