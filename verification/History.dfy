/** The nested history map, and what popping the front of a series does to it. */
module History {
  import opened Base
  import opened Reads
  import opened StoreModel
  import Text

  type Series = map<FieldName, seq<Read>>
  type History = map<DeviceId, Series>

  function SeriesOf(h: History, k: Key): seq<Read> {
    if k.device in h && k.field in h[k.device] then h[k.device][k.field] else []
  }

  function Push(h: History, r: Read): History {
    var fields := if r.device in h then h[r.device] else map[];
    h[r.device := fields[r.field := SeriesOf(h, KeyOf(r)) + [r]]]
  }

  /** Pop one front; a series that empties loses its key, its device does not yet. */
  function PopFront(h: History, k: Key): History {
    if k.device !in h || k.field !in h[k.device] then h
    else
      var fields := h[k.device];
      if |fields[k.field]| <= 1 then h[k.device := fields - {k.field}]
      else h[k.device := fields[k.field := fields[k.field][1..]]]
  }

  predicate Vacated(h: History, d: DeviceId) {
    d in h && h[d] == map[]
  }

  /** The re-check under the shard's write lock. */
  function RemoveIfEmpty(h: History, d: DeviceId): History {
    if Vacated(h, d) then h - {d} else h
  }

  function KeyOfSlot(s: Slot): Key {
    Key(s.device, s.field)
  }

  function First(s: seq<Read>, n: nat): seq<Read> {
    if n <= |s| then s[..n] else s
  }

  function Rest(s: seq<Read>, n: nat): seq<Read> {
    if n <= |s| then s[n..] else []
  }

  ghost predicate NoEmptySeries(h: History) {
    forall d, f :: d in h && f in h[d] ==> h[d][f] != []
  }

  ghost predicate Tidy(h: History) {
    NoEmptySeries(h) && forall d :: d in h ==> h[d] != map[]
  }

  /** Each series is the write-ordered list cut down to its key. */
  ghost predicate Projects(h: History, entries: seq<Read>) {
    forall k :: SeriesOf(h, k) == Filter(entries, OfKey(k))
  }

  lemma PushSeries(h: History, r: Read, k: Key)
    ensures SeriesOf(Push(h, r), k) == SeriesOf(h, k) + (if k == KeyOf(r) then [r] else [])
    ensures NoEmptySeries(h) ==> NoEmptySeries(Push(h, r))
    ensures Tidy(h) ==> Tidy(Push(h, r))
    ensures forall d :: Vacated(Push(h, r), d) ==> Vacated(h, d)
  {
    var h' := Push(h, r);
    assert r.field in h'[r.device];
    if Tidy(h) {
      forall d | d in h'
        ensures h'[d] != map[]
      {
        assert d != r.device ==> h'[d] == h[d];
      }
    }
  }

  lemma PopSeries(h: History, at: Key, k: Key)
    ensures SeriesOf(PopFront(h, at), k) == Rest(SeriesOf(h, k), if k == at then 1 else 0)
    ensures NoEmptySeries(h) ==> NoEmptySeries(PopFront(h, at))
    ensures forall d :: Vacated(PopFront(h, at), d) ==> Vacated(h, d) || d == at.device
  {
  }

  lemma RemoveSeries(h: History, d: DeviceId, k: Key)
    ensures SeriesOf(RemoveIfEmpty(h, d), k) == SeriesOf(h, k)
    ensures NoEmptySeries(h) ==> NoEmptySeries(RemoveIfEmpty(h, d))
    ensures forall e :: Vacated(RemoveIfEmpty(h, d), e) <==> Vacated(h, e) && e != d
  {
  }

  // ---- What a set of claims leaves of a series ----------------------------

  function ClaimsOn(slots: seq<Slot>, k: Key): nat {
    |Filter(slots, SlotOfKey(k))|
  }

  lemma ClaimsOnReads(taken: seq<Read>, k: Key)
    ensures ClaimsOn(Slots(taken), k) == |Filter(taken, OfKey(k))|
  {
    SlotsFilter(taken, OfKey(k), SlotOfKey(k));
  }

  /** Expiring takes a prefix of every series, because stamps do not go back inside one. */
  lemma ExpiryTakesFronts(entries: seq<Read>, before: string, k: Key)
    requires SeriesSorted(entries)
    ensures var p := StampedBefore(before);
            Filter(entries, OfKey(k)) == Filter(Filter(entries, p), OfKey(k))
                + Filter(Filter(entries, Negate(p)), OfKey(k))
  {
    var p := StampedBefore(before);
    var series := Filter(entries, OfKey(k));
    ProjectionSorted(entries, k);
    SortedExpiresFirst(series, before);
    FilterSwap(entries, p, OfKey(k));
    FilterSwap(entries, Negate(p), OfKey(k));
    SplitInFront(series, p);
  }

  lemma ForgettingClearsDevice(entries: seq<Read>, d: DeviceId, k: Key)
    ensures Filter(Filter(entries, Negate(OfDevice(d))), OfKey(k))
         == if k.device == d then [] else Filter(entries, OfKey(k))
  {
    FilterSwap(entries, Negate(OfDevice(d)), OfKey(k));
    var series := Filter(entries, OfKey(k));
    forall x | x in series
      ensures OfKey(k)(x)
    {
      FilterMember(entries, OfKey(k), x);
    }
    if k.device == d {
      FilterKeepsNone(series, Negate(OfDevice(d)));
    } else {
      FilterKeepsAll(series, Negate(OfDevice(d)));
    }
  }

  // ---- Whole-map steps ----------------------------------------------------

  lemma PushProjects(h: History, entries: seq<Read>, r: Read)
    requires Projects(h, entries)
    ensures Projects(Push(h, r), entries + [r])
  {
    forall k
      ensures SeriesOf(Push(h, r), k) == Filter(entries + [r], OfKey(k))
    {
      PushSeries(h, r, k);
      FilterConcat(entries, [r], OfKey(k));
    }
  }

  /** `after` is `before` with one front popped per slot. */
  ghost predicate Dropped(before: History, after: History, slots: seq<Slot>) {
    forall k :: SeriesOf(after, k) == Rest(SeriesOf(before, k), ClaimsOn(slots, k))
  }

  /** One turn of the drop loop. */
  function DropOne(h: History, s: Slot): History {
    RemoveIfEmpty(PopFront(h, KeyOfSlot(s)), s.device)
  }

  lemma DropOneTidy(h: History, s: Slot)
    requires Tidy(h)
    ensures Tidy(DropOne(h, s))
  {
    var at := KeyOfSlot(s);
    PopSeries(h, at, at);
    RemoveSeries(PopFront(h, at), s.device, at);
    forall d | d in DropOne(h, s)
      ensures !Vacated(DropOne(h, s), d)
    {
      assert Vacated(DropOne(h, s), d) ==> Vacated(h, d);
    }
  }

  lemma DropOneMore(start: History, h: History, slots: seq<Slot>, s: Slot)
    requires Dropped(start, h, slots)
    ensures Dropped(start, DropOne(h, s), slots + [s])
  {
    forall k
      ensures SeriesOf(DropOne(h, s), k) == Rest(SeriesOf(start, k), ClaimsOn(slots + [s], k))
    {
      PopSeries(h, KeyOfSlot(s), k);
      RemoveSeries(PopFront(h, KeyOfSlot(s)), s.device, k);
      FilterConcat(slots, [s], SlotOfKey(k));
    }
  }

  /** Evicting a prefix of the write order pops a prefix of every series. */
  lemma EvictedProjects(before: History, after: History, front: seq<Read>, back: seq<Read>)
    requires Projects(before, front + back) && Dropped(before, after, Slots(front))
    ensures Projects(after, back)
  {
    forall k
      ensures SeriesOf(after, k) == Filter(back, OfKey(k))
    {
      FilterConcat(front, back, OfKey(k));
      ClaimsOnReads(front, k);
    }
  }

  /** What a sweep leaves of one series, beside what it should. */
  lemma SweptSeries(before: History, after: History, entries: seq<Read>, cutoff: string, k: Key)
    requires Projects(before, entries) && Dropped(before, after, Slots(Filter(entries, StampedBefore(cutoff))))
    ensures var p, series := StampedBefore(cutoff), Filter(entries, OfKey(k));
            && SeriesOf(after, k) == series[|Filter(series, p)|..]
            && Filter(Filter(entries, Negate(p)), OfKey(k)) == Filter(series, Negate(p))
  {
    var p := StampedBefore(cutoff);
    ClaimsOnReads(Filter(entries, p), k);
    FilterSwap(entries, p, OfKey(k));
    FilterSwap(entries, Negate(p), OfKey(k));
  }

  /**
   Popping a front per expired entry, in queue order across all series, leaves exactly the entries
   that had not expired if and only if the expired entries stand in front of every series.
   */
  lemma SweepExact(before: History, after: History, entries: seq<Read>, cutoff: string)
    requires Projects(before, entries) && Dropped(before, after, Slots(Filter(entries, StampedBefore(cutoff))))
    ensures Projects(after, Filter(entries, Negate(StampedBefore(cutoff))))
            <==> forall k :: StandsInFront(Filter(entries, OfKey(k)), StampedBefore(cutoff))
  {
    forall k
      ensures SeriesOf(after, k) == Filter(Filter(entries, Negate(StampedBefore(cutoff))), OfKey(k))
              <==> StandsInFront(Filter(entries, OfKey(k)), StampedBefore(cutoff))
    {
      SweptSeries(before, after, entries, cutoff, k);
      FrontPopExact(Filter(entries, OfKey(k)), cutoff);
    }
  }

  /**
   Two reads of one field whose stamps go back, and a cutoff between them: the sweep deletes the one
   that had not expired, and keeps the one that had.
   */
  lemma SweepDeletesLive(before: History, after: History, live: Read, expired: Read, cutoff: string)
    requires KeyOf(live) == KeyOf(expired)
    requires Text.Before(expired.at, cutoff) && !Text.Before(live.at, cutoff)
    requires Projects(before, [live, expired])
    requires Dropped(before, after, Slots(Filter([live, expired], StampedBefore(cutoff))))
    ensures SeriesOf(after, KeyOf(live)) == [expired]
    ensures Filter([live, expired], Negate(StampedBefore(cutoff))) == [live]
  {
    var entries, p, k := [live, expired], StampedBefore(cutoff), KeyOf(live);
    FilterKeepsAll(entries, OfKey(k));
    SweptSeries(before, after, entries, cutoff, k);
    assert entries[1..] == [expired] && entries[1..][1..] == [];
    assert Filter(entries[1..], p) == [expired] && Filter(entries, p) == [expired];
  }

  lemma ExpiredProjects(before: History, after: History, entries: seq<Read>, cutoff: string)
    requires SeriesSorted(entries)
    requires Projects(before, entries) && Dropped(before, after, Slots(Filter(entries, StampedBefore(cutoff))))
    ensures Projects(after, Filter(entries, Negate(StampedBefore(cutoff))))
  {
    forall k
      ensures StandsInFront(Filter(entries, OfKey(k)), StampedBefore(cutoff))
    {
      ProjectionSorted(entries, k);
      SortedExpiresFirst(Filter(entries, OfKey(k)), cutoff);
    }
    SweepExact(before, after, entries, cutoff);
  }

  lemma ForgottenProjects(h: History, entries: seq<Read>, d: DeviceId)
    requires Projects(h, entries) && Tidy(h)
    ensures Projects(h - {d}, Filter(entries, Negate(OfDevice(d)))) && Tidy(h - {d})
  {
    forall k
      ensures SeriesOf(h - {d}, k) == Filter(Filter(entries, Negate(OfDevice(d))), OfKey(k))
    {
      ForgettingClearsDevice(entries, d, k);
      assert SeriesOf(h, k) == Filter(entries, OfKey(k));
    }
  }
}
