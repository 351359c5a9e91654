/**
 When overlapping callers leave what one caller at a time would have left. Writes, sweeps and re-caps
 always do. A removal may not, since its three sections hold nothing between them; each promise of the
 store is given here the exact condition, read off the steps of the run, under which it holds.
 */
module Overlap {
  import opened Base
  import opened Reads
  import opened History
  import opened Ledger
  import opened Interleaving
  import SM = StoreModel
  import MS = MemoryStore

  // ---- The series -----------------------------------------------------------------

  lemma CutSplit(pushed: seq<Read>, dropped: seq<Read>, series: seq<Read>, claimed: seq<Read>,
                 live: seq<Read>, waiting: seq<Read>, pending: nat)
    requires Cut(pushed, dropped, series, claimed, live, waiting, pending, 0)
    ensures dropped <= claimed && series == claimed[|dropped|..] + live + waiting
  {
    assert dropped == pushed[..|dropped|] == claimed[..|dropped|];
    assert series == pushed[|dropped|..];
  }

  /**
   One series is its claimed-but-not-dropped entries, then the ledger's queue cut to its key, then
   the entry not admitted yet. What was popped is a prefix of what was claimed, whichever evictor
   popped it.
   */
  ghost predicate Split(s: State, k: Key) {
    var claimed, dropped := Filter(s.log.claimed, OfKey(k)), Filter(s.log.dropped, OfKey(k));
    var live := Filter(s.log.live, OfKey(k));
    && dropped <= claimed
    && |claimed| - |dropped| == Pending(s.callers, k)
    && SeriesOf(s.history, k) == claimed[|dropped|..] + live + Waiting(s.writers, k)
    && Slots(live) == Filter(s.books.queue, SlotOfKey(k))
  }

  /** In every state of every run a series splits so if and only if nothing of it is owed. */
  lemma SeriesSplit(cap: Option<nat>, acts: seq<Action>, k: Key)
    requires IsRun(Start(cap), acts)
    ensures Split(Reached(Start(cap), acts), k) <==> Owed(Start(cap), acts, k, 0) == 0
  {
    StartLaw(cap);
    RunLaw(Start(cap), acts);
    RunSeries(Start(cap), acts, k, 0);
    LawSplits(Reached(Start(cap), acts), k, Owed(Start(cap), acts, k, 0));
  }

  lemma LawSplits(s: State, k: Key, owed: nat)
    requires LedgerLaw(s) && SeriesLaw(s, k, owed)
    ensures Split(s, k) <==> owed == 0
  {
    var claimed, dropped := Filter(s.log.claimed, OfKey(k)), Filter(s.log.dropped, OfKey(k));
    SlotsFilter(s.log.live, OfKey(k), SlotOfKey(k));
    assert |claimed| + owed == |dropped| + Pending(s.callers, k);
    if owed == 0 {
      CutSplit(Filter(s.log.pushed, OfKey(k)), dropped, SeriesOf(s.history, k), claimed,
               Filter(s.log.live, OfKey(k)), Waiting(s.writers, k), Pending(s.callers, k));
    }
  }

  /** In every run an evictor about to pop finds an entry if and only if fewer are owed than the series is due. */
  lemma PopFindsEntry(cap: Option<nat>, acts: seq<Action>, who: nat)
    requires IsRun(Start(cap), acts) && Enabled(Reached(Start(cap), acts), Pop(who))
    ensures var s := Reached(Start(cap), acts);
            var k := KeyOfSlot(s.callers[who].slots[0]);
            SeriesOf(s.history, k) != [] <==>
              Owed(Start(cap), acts, k, 0)
              < Pending(s.callers, k) + |Filter(s.log.live, OfKey(k))| + |Waiting(s.writers, k)|
  {
    var s := Reached(Start(cap), acts);
    StartLaw(cap);
    RunSeries(Start(cap), acts, KeyOfSlot(s.callers[who].slots[0]), 0);
  }

  /** A pop of a series that owes nothing never misses. */
  lemma PopNeverMisses(cap: Option<nat>, acts: seq<Action>, who: nat)
    requires IsRun(Start(cap), acts) && Enabled(Reached(Start(cap), acts), Pop(who))
    requires Owed(Start(cap), acts, KeyOfSlot(Reached(Start(cap), acts).callers[who].slots[0]), 0) == 0
    ensures var s := Reached(Start(cap), acts);
            SeriesOf(s.history, KeyOfSlot(s.callers[who].slots[0])) != []
  {
    var s := Reached(Start(cap), acts);
    PopFindsEntry(cap, acts, who);
    PopPending(s, who, KeyOfSlot(s.callers[who].slots[0]));
  }

  /**
   What a reader of a series that owes nothing is answered: the entries claimed and not popped yet,
   the live ones, and the one not admitted yet, each cut to the span.
   */
  lemma ReaderSees(cap: Option<nat>, acts: seq<Action>, k: Key, span: MS.TimeSpan)
    requires IsRun(Start(cap), acts) && Owed(Start(cap), acts, k, 0) == 0
    ensures var s, w := Reached(Start(cap), acts), MS.Within(span);
            var claimed, dropped := Filter(s.log.claimed, OfKey(k)), Filter(s.log.dropped, OfKey(k));
            && |dropped| <= |claimed|
            && Answer(s, k, span) == Filter(claimed[|dropped|..], w) + Filter(Filter(s.log.live, OfKey(k)), w)
                                     + Filter(Waiting(s.writers, k), w)
  {
    var s, w := Reached(Start(cap), acts), MS.Within(span);
    var claimed, dropped := Filter(s.log.claimed, OfKey(k)), Filter(s.log.dropped, OfKey(k));
    var live := Filter(s.log.live, OfKey(k));
    SeriesSplit(cap, acts, k);
    FilterConcat(claimed[|dropped|..] + live, Waiting(s.writers, k), w);
    FilterConcat(claimed[|dropped|..], live, w);
  }

  // ---- The total of last reads ------------------------------------------------------

  /** The step's subtraction takes more than there is. */
  ghost predicate Saturates(s: State, a: Action)
    requires Enabled(s, a)
  {
    || (a.Settle? && s.books.latestBytes + LatestBytes(s.writers[a.key].read) < s.writers[a.key].displaced)
    || (a.Release? && s.books.latestBytes < SM.Floor(s.callers[a.who].held))
  }

  ghost predicate NeverSaturates(s: State, acts: seq<Action>)
    requires IsRun(s, acts)
    decreases |acts|
  {
    acts == [] || (!Saturates(s, acts[0]) && NeverSaturates(Next(s, acts[0]), acts[1..]))
  }

  lemma StepSurplus(s: State, a: Action)
    requires Enabled(s, a)
    ensures s.log.surplus <= Next(s, a).log.surplus
    ensures s.log.surplus == Next(s, a).log.surplus <==> !Saturates(s, a)
  {
  }

  lemma {:induction false} SurplusExact(s: State, acts: seq<Action>)
    requires IsRun(s, acts)
    ensures s.log.surplus <= Reached(s, acts).log.surplus
    ensures Reached(s, acts).log.surplus == s.log.surplus <==> NeverSaturates(s, acts)
    decreases |acts|
  {
    if acts != [] {
      StepSurplus(s, acts[0]);
      SurplusExact(Next(s, acts[0]), acts[1..]);
    }
  }

  /**
   Once every caller has finished, the books count exactly what `latest` costs if and only if no
   subtraction of the run saturated. Whatever overlapped, nothing else can put the total wrong, and
   nothing puts it right again.
   */
  lemma TotalExact(cap: Option<nat>, acts: seq<Action>)
    requires IsRun(Start(cap), acts) && Quiescent(Reached(Start(cap), acts))
    ensures var s := Reached(Start(cap), acts);
            s.books.latestBytes == SM.Floor(s.latest) <==> NeverSaturates(Start(cap), acts)
  {
    StartLaw(cap);
    RunLaw(Start(cap), acts);
    SurplusExact(Start(cap), acts);
  }

  // ---- The books against the reference ------------------------------------------------

  /** Admitting a write keeps the books exact if and only if what it displaced is what the books count. */
  lemma SettleExact(s: State, key: Key, who: nat)
    requires Stands(s.books, Ref(s)) && Enabled(s, Settle(key, who)) && KeyOf(s.writers[key].read) == key
    ensures var t := Next(s, Settle(key, who));
            Stands(t.books, Ref(t)) <==> s.writers[key].displaced == Displaced(Ref(s).latest, key)
  {
    var w := s.writers[key];
    SM.RunSnoc(SM.Empty(s.log.cap), s.log.trace, SM.Wrote(w.read));
    if w.displaced == Displaced(Ref(s).latest, key) {
      AdmitStands(s.books, Ref(s), w.read);
    } else {
      AdmitMiscounts(s.books, Ref(s), w.read, w.displaced);
    }
  }

  lemma AdmitMiscounts(b: Books, m: SM.Model, r: Read, displaced: nat)
    requires Stands(b, m) && displaced != Displaced(m.latest, KeyOf(r))
    ensures !Stands(b.Admit(LatestBytes(r), displaced, SlotOf(r)).0, SM.Upsert(m, r))
  {
    var front, back := AdmitLists(b, m.entries, LatestBytes(r), displaced, r);
    EnforceSheds(Filed(m, r));
    SumMapPut(m.latest, LatestBytes, KeyOf(r), r);
  }

  /** The bytes given decide only the total of last reads. */
  lemma ForgetRest(b: Books, d: DeviceId, given: nat, share: nat)
    ensures b.Forget(d, given).0 == b.Forget(d, share).0.(latestBytes := SaturatingSub(b.latestBytes, given))
  {
  }

  /**
   Counting a device out keeps the books exact if and only if the bytes given are the device's
   share, or more than everything the books count, with nothing else counted: then the subtraction
   saturates at the right figure.
   */
  lemma ForgetExact(b: Books, m: SM.Model, d: DeviceId, given: nat)
    requires Stands(b, m)
    ensures var share, all := SM.Floor(Share(m.latest, d)), SM.Floor(m.latest);
            Stands(b.Forget(d, given).0, SM.Forget(m, d)) <==> given == share || (given > share && share == all)
  {
    SM.ForgetLowersFloor(m.latest, d);
    ForgetStands(b, m, d);
    ForgetRest(b, d, given, SM.Floor(Share(m.latest, d)));
  }

  ghost predicate GivesShare(s: State, who: nat)
    requires Enabled(s, Release(who))
  {
    var given := SM.Floor(s.callers[who].held);
    var share, all := SM.Floor(Share(Ref(s).latest, s.callers[who].device)), SM.Floor(Ref(s).latest);
    given == share || (given > share && share == all)
  }

  lemma ReleaseStep(s: State, who: nat)
    requires Enabled(s, Release(who))
    ensures var t, c := Next(s, Release(who)), s.callers[who];
            t.books == s.books.Forget(c.device, SM.Floor(c.held)).0 && Ref(t) == SM.Forget(Ref(s), c.device)
  {
    SM.RunSnoc(SM.Empty(s.log.cap), s.log.trace, SM.Forgot(s.callers[who].device));
  }

  lemma ReleaseExact(s: State, who: nat)
    requires Stands(s.books, Ref(s)) && Enabled(s, Release(who))
    ensures Stands(Next(s, Release(who)).books, Ref(Next(s, Release(who)))) <==> GivesShare(s, who)
  {
    ReleaseStep(s, who);
    ForgetExact(s.books, Ref(s), s.callers[who].device, SM.Floor(s.callers[who].held));
  }

  /** The figures a step hands the ledger are those it counts. */
  ghost predicate CountsRight(s: State, a: Action)
    requires Enabled(s, a)
  {
    && (a.Settle? ==> s.writers[a.key].displaced == Displaced(Ref(s).latest, a.key))
    && (a.Release? ==> GivesShare(s, a.who))
  }

  ghost predicate AlwaysCountsRight(s: State, acts: seq<Action>)
    requires IsRun(s, acts)
    decreases |acts|
  {
    acts == [] || (CountsRight(s, acts[0]) && AlwaysCountsRight(Next(s, acts[0]), acts[1..]))
  }

  /** In every state of the run the books are the reference's, after the same steps in the order the lock was taken. */
  ghost predicate AlwaysStands(s: State, acts: seq<Action>)
    requires IsRun(s, acts)
    decreases |acts|
  {
    Stands(s.books, Ref(s)) && (acts == [] || AlwaysStands(Next(s, acts[0]), acts[1..]))
  }

  lemma ExpireKeeps(s: State, before: string, who: nat)
    requires Stands(s.books, Ref(s)) && Enabled(s, Expire(before, who))
    ensures Stands(Next(s, Expire(before, who)).books, Ref(Next(s, Expire(before, who))))
  {
    SM.RunSnoc(SM.Empty(s.log.cap), s.log.trace, SM.Pruned(before));
    TakeIfStands(s.books, Ref(s), StampedBefore(before), SlotStampedBefore(before));
  }

  lemma RecapKeeps(s: State, budget: Option<nat>, who: nat)
    requires Stands(s.books, Ref(s)) && Enabled(s, Recap(budget, who))
    ensures Stands(Next(s, Recap(budget, who)).books, Ref(Next(s, Recap(budget, who))))
  {
    SM.RunSnoc(SM.Empty(s.log.cap), s.log.trace, SM.Recapped(budget));
    RecapStands(s.books, Ref(s), budget);
  }

  lemma StepStands(s: State, a: Action)
    requires WritersLaw(s) && Stands(s.books, Ref(s)) && Enabled(s, a)
    ensures Stands(Next(s, a).books, Ref(Next(s, a))) <==> CountsRight(s, a)
  {
    if Ledgers(a) {
      match a
      case Settle(k, e) => SettleExact(s, k, e);
      case Expire(before, e) => ExpireKeeps(s, before, e);
      case Recap(b, e) => RecapKeeps(s, b, e);
      case Release(e) => ReleaseExact(s, e);
    }
  }

  lemma {:induction false} RunStands(s: State, acts: seq<Action>)
    requires Law(s) && IsRun(s, acts) && Stands(s.books, Ref(s))
    ensures AlwaysStands(s, acts) <==> AlwaysCountsRight(s, acts)
    ensures AlwaysStands(s, acts) ==> Stands(Reached(s, acts).books, Ref(Reached(s, acts)))
    decreases |acts|
  {
    if acts != [] {
      var next := Next(s, acts[0]);
      NextLaw(s, acts[0]);
      StepStands(s, acts[0]);
      if Stands(next.books, Ref(next)) {
        RunStands(next, acts[1..]);
      } else {
        assert !AlwaysStands(next, acts[1..]);
      }
    }
  }

  lemma StartStands(cap: Option<nat>)
    ensures Stands(Start(cap).books, Ref(Start(cap)))
  {
    assert Slots([]) == [];
  }

  /**
   In every run the books are the reference's throughout, evictions included, if and only if every
   step hands the ledger the figures it counts.
   */
  lemma BooksExact(cap: Option<nat>, acts: seq<Action>)
    requires IsRun(Start(cap), acts)
    ensures AlwaysStands(Start(cap), acts) <==> AlwaysCountsRight(Start(cap), acts)
  {
    StartLaw(cap);
    StartStands(cap);
    RunStands(Start(cap), acts);
  }

  /** Books that count as many entries as the reference count the same entries. */
  lemma SameLive(s: State)
    requires LedgerLaw(s) && Stands(s.books, Ref(s))
    ensures s.log.live == Ref(s).entries
  {
    SM.LiveEndsUnevicted(s.log.cap, s.log.trace);
    SM.EndsUnique(SM.Unevicted(s.log.trace), s.log.live, Ref(s).entries);
  }

  // ---- The last reads ---------------------------------------------------------------

  /** No removal comes after the last write of `k` in one order and before it in the other. */
  predicate Uncrossed(s: State, k: Key) {
    SM.RemovedSince(s.log.touched, k) <==> SM.RemovedSince(s.log.trace, k)
  }

  lemma LatestAt(s: State, k: Key)
    requires LatestLaw(s, k) && k !in s.writers
    ensures SM.Lookup(s.latest, k) == SM.LastWrite(s.log.trace, k) <==> Uncrossed(s, k)
  {
    SM.LastWriteIs(s.log.touched, k);
    SM.LastWriteIs(s.log.trace, k);
  }

  /**
   A field with no write under way answers with its last write since its device was forgotten, in the
   order the ledger's lock was taken, if and only if no removal crossed that write.
   */
  lemma LatestExact(cap: Option<nat>, acts: seq<Action>, k: Key)
    requires IsRun(Start(cap), acts) && k !in Reached(Start(cap), acts).writers
    ensures var s := Reached(Start(cap), acts);
            SM.Lookup(s.latest, k) == SM.LastWrite(s.log.trace, k) <==> Uncrossed(s, k)
  {
    StartLaw(cap);
    RunLaw(Start(cap), acts);
    LatestAt(Reached(Start(cap), acts), k);
  }

  // ---- The whole store ----------------------------------------------------------------

  /** The three structures agree with each other, and the last reads with the order of the lock. */
  ghost predicate Sound(s: State) {
    && s.books.latestBytes == SM.Floor(s.latest)
    && Tidy(s.history)
    && (forall k :: Slots(SeriesOf(s.history, k)) == Filter(s.books.queue, SlotOfKey(k)))
    && (forall k :: SM.Lookup(s.latest, k) == SM.LastWrite(s.log.trace, k))
  }

  ghost predicate NothingOwed(s: State, acts: seq<Action>)
    requires IsRun(s, acts)
  {
    forall k :: Owed(s, acts, k, 0) == 0
  }

  ghost predicate NothingCrossed(s: State) {
    forall k :: Uncrossed(s, k)
  }

  /** Without a caller under way a series has its queue's entries exactly if nothing is owed. */
  lemma QuiescentSeries(s: State, k: Key, owed: nat)
    requires LedgerLaw(s) && Quiescent(s) && SeriesLaw(s, k, owed)
    ensures |Filter(s.log.live, OfKey(k))| == |SeriesOf(s.history, k)| + owed
    ensures owed == 0 ==> SeriesOf(s.history, k) == Filter(s.log.live, OfKey(k))
    ensures Filter(s.books.queue, SlotOfKey(k)) == Slots(Filter(s.log.live, OfKey(k)))
  {
    SlotsFilter(s.log.live, OfKey(k), SlotOfKey(k));
    QuiescentCut(Filter(s.log.pushed, OfKey(k)), Filter(s.log.dropped, OfKey(k)), SeriesOf(s.history, k),
                 Filter(s.log.claimed, OfKey(k)), Filter(s.log.live, OfKey(k)), owed);
  }

  lemma QuiescentCut(pushed: seq<Read>, dropped: seq<Read>, series: seq<Read>, claimed: seq<Read>, live: seq<Read>,
                     owed: nat)
    requires Cut(pushed, dropped, series, claimed, live, [], 0, owed)
    ensures |live| == |series| + owed
    ensures owed == 0 ==> series == live
  {
    assert claimed + live + [] == claimed + live;
    assert series == pushed[|dropped|..];
  }

  lemma QuiescentTidy(s: State)
    requires HistoryLaw(s) && Quiescent(s)
    ensures Tidy(s.history)
  {
    forall d | d in s.history
      ensures s.history[d] != map[]
    {
      assert !Vacated(s.history, d);
    }
  }

  /**
   Once every caller of a run has finished, the structures agree and the last reads are those of the
   lock's order if and only if no subtraction saturated, nothing cleared is still owed, and no removal
   crossed the last write of a field.
   */
  lemma SoundExact(cap: Option<nat>, acts: seq<Action>)
    requires IsRun(Start(cap), acts) && Quiescent(Reached(Start(cap), acts))
    ensures var s := Reached(Start(cap), acts);
            Sound(s) <==> NeverSaturates(Start(cap), acts) && NothingOwed(Start(cap), acts) && NothingCrossed(s)
  {
    var s := Reached(Start(cap), acts);
    StartLaw(cap);
    RunLaw(Start(cap), acts);
    TotalExact(cap, acts);
    QuiescentTidy(s);
    forall k
      ensures Slots(SeriesOf(s.history, k)) == Filter(s.books.queue, SlotOfKey(k))
              <==> Owed(Start(cap), acts, k, 0) == 0
      ensures SM.Lookup(s.latest, k) == SM.LastWrite(s.log.trace, k) <==> Uncrossed(s, k)
    {
      RunSeries(Start(cap), acts, k, 0);
      QuiescentSeries(s, k, Owed(Start(cap), acts, k, 0));
      SlotsFilter(s.log.live, OfKey(k), SlotOfKey(k));
      LatestAt(s, k);
    }
  }

  /** What an action does under the ledger's lock, if anything. */
  ghost function StepOf(s: State, a: Action): seq<SM.Event>
    requires Enabled(s, a)
  {
    match a
    case Settle(k, _) => [SM.Wrote(s.writers[k].read)]
    case Expire(before, _) => [SM.Pruned(before)]
    case Recap(budget, _) => [SM.Recapped(budget)]
    case Release(e) => [SM.Forgot(s.callers[e].device)]
    case Begin(_) => []
    case Insert(_) => []
    case File(_) => []
    case Pop(_) => []
    case RemoveIf(_) => []
    case Finish(_) => []
    case Detach(_, _) => []
    case Clear(_) => []
  }

  /** The ledger steps of a run, read off its actions in the order they were taken. */
  ghost function LedgerSteps(s: State, acts: seq<Action>): seq<SM.Event>
    requires IsRun(s, acts)
    decreases |acts|
  {
    if acts == [] then [] else StepOf(s, acts[0]) + LedgerSteps(Next(s, acts[0]), acts[1..])
  }

  /** What an action does to `latest`, if anything. */
  ghost function TouchOf(s: State, a: Action): seq<SM.Event>
    requires Enabled(s, a)
  {
    if a.Insert? then [SM.Wrote(s.writers[a.key].read)] else if a.Detach? then [SM.Forgot(a.device)] else []
  }

  ghost function MapSteps(s: State, acts: seq<Action>): seq<SM.Event>
    requires IsRun(s, acts)
    decreases |acts|
  {
    if acts == [] then [] else TouchOf(s, acts[0]) + MapSteps(Next(s, acts[0]), acts[1..])
  }

  lemma TraceStep(s: State, a: Action)
    requires Enabled(s, a)
    ensures Next(s, a).log.trace == s.log.trace + StepOf(s, a) && Next(s, a).log.cap == s.log.cap
    ensures Next(s, a).log.touched == s.log.touched + TouchOf(s, a)
  {
    assert s.log.trace + [] == s.log.trace && s.log.touched + [] == s.log.touched;
  }

  lemma {:induction false} TraceIsSteps(s: State, acts: seq<Action>)
    requires IsRun(s, acts)
    ensures Reached(s, acts).log.trace == s.log.trace + LedgerSteps(s, acts) && Reached(s, acts).log.cap == s.log.cap
    ensures Reached(s, acts).log.touched == s.log.touched + MapSteps(s, acts)
    decreases |acts|
  {
    if acts == [] {
      assert s.log.trace + [] == s.log.trace && s.log.touched + [] == s.log.touched;
    } else {
      var next := Next(s, acts[0]);
      TraceStep(s, acts[0]);
      TraceIsSteps(next, acts[1..]);
      Regroup(s.log.trace, StepOf(s, acts[0]), LedgerSteps(next, acts[1..]));
      Regroup(s.log.touched, TouchOf(s, acts[0]), MapSteps(next, acts[1..]));
    }
  }

  lemma Regroup(a: seq<SM.Event>, b: seq<SM.Event>, c: seq<SM.Event>)
    ensures a + b + c == a + (b + c)
  {
  }

  lemma AgreesAt(cap: Option<nat>, acts: seq<Action>, k: Key)
    requires IsRun(Start(cap), acts) && Quiescent(Reached(Start(cap), acts))
    requires var s := Reached(Start(cap), acts); Stands(s.books, Ref(s))
    ensures var s := Reached(Start(cap), acts);
            && (SeriesOf(s.history, k) == Filter(Ref(s).entries, OfKey(k)) <==> Owed(Start(cap), acts, k, 0) == 0)
            && (SM.Lookup(s.latest, k) == SM.Lookup(Ref(s).latest, k) <==> Uncrossed(s, k))
  {
    var s := Reached(Start(cap), acts);
    StartLaw(cap);
    RunLaw(Start(cap), acts);
    SameLive(s);
    RunSeries(Start(cap), acts, k, 0);
    QuiescentSeries(s, k, Owed(Start(cap), acts, k, 0));
    SlotsFilter(s.log.live, OfKey(k), SlotOfKey(k));
    LatestAt(s, k);
    SM.LatestIsLastWrite(s.log.cap, s.log.trace, k);
  }

  lemma SameLookups(a: map<Key, Read>, b: map<Key, Read>)
    requires forall k :: SM.Lookup(a, k) == SM.Lookup(b, k)
    ensures a == b
  {
    forall k
      ensures (k in a <==> k in b) && (k in a ==> a[k] == b[k])
    {
      assert SM.Lookup(a, k) == SM.Lookup(b, k);
    }
  }

  lemma SeriesAgree(cap: Option<nat>, acts: seq<Action>)
    requires IsRun(Start(cap), acts) && Quiescent(Reached(Start(cap), acts))
    requires var s := Reached(Start(cap), acts); Stands(s.books, Ref(s))
    ensures var s := Reached(Start(cap), acts);
            Projects(s.history, Ref(s).entries) <==> NothingOwed(Start(cap), acts)
  {
    var s := Reached(Start(cap), acts);
    forall k
      ensures SeriesOf(s.history, k) == Filter(Ref(s).entries, OfKey(k)) <==> Owed(Start(cap), acts, k, 0) == 0
    {
      AgreesAt(cap, acts, k);
    }
  }

  lemma LatestAgree(cap: Option<nat>, acts: seq<Action>)
    requires IsRun(Start(cap), acts) && Quiescent(Reached(Start(cap), acts))
    requires var s := Reached(Start(cap), acts); Stands(s.books, Ref(s))
    ensures var s := Reached(Start(cap), acts); s.latest == Ref(s).latest <==> NothingCrossed(s)
  {
    var s := Reached(Start(cap), acts);
    forall k
      ensures SM.Lookup(s.latest, k) == SM.Lookup(Ref(s).latest, k) <==> Uncrossed(s, k)
    {
      AgreesAt(cap, acts, k);
    }
    if NothingCrossed(s) {
      forall k
        ensures SM.Lookup(s.latest, k) == SM.Lookup(Ref(s).latest, k)
      {
        assert Uncrossed(s, k);
      }
      SameLookups(s.latest, Ref(s).latest);
    }
  }

  lemma AgreesExact(cap: Option<nat>, acts: seq<Action>)
    requires IsRun(Start(cap), acts) && Quiescent(Reached(Start(cap), acts))
    requires var s := Reached(Start(cap), acts); Stands(s.books, Ref(s))
    ensures var s := Reached(Start(cap), acts);
            MS.Agrees(s.latest, s.history, s.books, Ref(s)) <==> NothingOwed(Start(cap), acts) && NothingCrossed(s)
  {
    StartLaw(cap);
    RunLaw(Start(cap), acts);
    QuiescentTidy(Reached(Start(cap), acts));
    SeriesAgree(cap, acts);
    LatestAgree(cap, acts);
  }

  /**
   A run whose callers have all finished was throughout, and left, what one caller would have left by
   making the same writes, sweeps, re-caps and removals in the order they took the ledger's lock, if
   and only if every step handed the ledger the figures it counts, nothing cleared is still owed, and
   no removal crossed the last write of a field.
   */
  lemma Linearizable(cap: Option<nat>, acts: seq<Action>)
    requires IsRun(Start(cap), acts) && Quiescent(Reached(Start(cap), acts))
    ensures var s, sequential := Reached(Start(cap), acts), SM.Run(SM.Empty(cap), LedgerSteps(Start(cap), acts));
            AlwaysStands(Start(cap), acts) && MS.Agrees(s.latest, s.history, s.books, sequential)
            <==> AlwaysCountsRight(Start(cap), acts) && NothingOwed(Start(cap), acts) && NothingCrossed(s)
  {
    StartLaw(cap);
    StartStands(cap);
    RunStands(Start(cap), acts);
    TraceIsSteps(Start(cap), acts);
    assert Reached(Start(cap), acts).log.trace == LedgerSteps(Start(cap), acts);
    if AlwaysStands(Start(cap), acts) {
      AgreesExact(cap, acts);
    }
  }
}
