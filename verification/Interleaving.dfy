/**
 The store under concurrent writers, sweeps, re-caps and removals. Each action is one critical
 section of the code: a shard guard, the ledger's lock, or one pop. Actions of different callers
 interleave freely, and nothing keeps a removal from overlapping the writes of its device.

 A removal has three sections with nothing held between them: it takes the device's last reads,
 tells the ledger, and clears the device's history. This module proves what holds in every state of
 every run; `Overlap` says exactly when that amounts to what one caller at a time would see.
 */
module Interleaving {
  import opened Base
  import opened Reads
  import opened History
  import opened Ledger
  import SM = StoreModel
  import MS = MemoryStore
  import Text

  datatype Write =
    | Writing(read: Read)                    // next: insert into `latest`
    | Filing(read: Read, displaced: nat)     // next: push onto the series
    | Settling(read: Read, displaced: nat)   // next: admit to the books

  /** A caller between two of its critical sections. */
  datatype Caller =
    | Popping(slots: seq<Slot>, vacating: Option<DeviceId>)   // claims to apply, and a device found emptied
    | Detached(device: DeviceId, held: map<Key, Read>)        // a removal that has taken the last reads
    | Clearing(device: DeviceId, slots: seq<Slot>)            // a removal that has told the ledger

  datatype State = State(
    latest: map<Key, Read>,
    history: History,
    books: Books,
    writers: map<Key, Write>,     // one write of a series at a time
    callers: map<nat, Caller>,
    log: Log)

  /** What happened so far; no action's effect on the store depends on it. */
  datatype Log = Log(
    cap: Option<nat>,             // as the store was opened
    trace: seq<SM.Event>,         // the ledger's steps, in the order they took its lock
    touched: seq<SM.Event>,       // writes and removals, in the order they reached `latest`
    live: seq<Read>,              // the entries the ledger's queue stands for
    pushed: seq<Read>,
    claimed: seq<Read>,
    dropped: seq<Read>,
    surplus: nat)                 // bytes that saturating subtractions failed to take off

  function Start(cap: Option<nat>): State {
    State.State(map[], map[], Books(cap, [], 0, 0, 0), map[], map[], Log(cap, [], [], [], [], [], [], 0))
  }

  datatype Action =
    | Begin(read: Read)
    | Insert(key: Key)
    | File(key: Key)
    | Settle(key: Key, who: nat)
    | Expire(before: string, who: nat)
    | Recap(budget: Option<nat>, who: nat)
    | Pop(who: nat)
    | RemoveIf(who: nat)
    | Finish(who: nat)
    | Detach(device: DeviceId, who: nat)
    | Release(who: nat)
    | Clear(who: nat)

  /** The reference store after the ledger steps taken so far. */
  ghost function Ref(s: State): SM.Model {
    SM.Run(SM.Empty(s.log.cap), s.log.trace)
  }

  /** The last reads of one device. */
  function Share(latest: map<Key, Read>, d: DeviceId): map<Key, Read> {
    map k | k in SM.KeysOfDevice(latest, d) :: latest[k]
  }

  /** What subtracting `b` from `a` fails to take. */
  function Shortfall(a: nat, b: nat): nat {
    if a < b then b - a else 0
  }

  /** A write begins with a stamp not older than its series' live entries; nothing else is asked. */
  ghost predicate Enabled(s: State, a: Action) {
    match a
    case Begin(r) => KeyOf(r) !in s.writers && SM.Follows(s.log.live, r)
    case Insert(k) => k in s.writers && s.writers[k].Writing?
    case File(k) => k in s.writers && s.writers[k].Filing?
    case Settle(k, e) => k in s.writers && s.writers[k].Settling? && e !in s.callers
    case Expire(_, e) => e !in s.callers
    case Recap(_, e) => e !in s.callers
    case Pop(e) => e in s.callers && s.callers[e].Popping? && s.callers[e].vacating.None? && s.callers[e].slots != []
    case RemoveIf(e) => e in s.callers && s.callers[e].Popping? && s.callers[e].vacating.Some?
    case Finish(e) => e in s.callers && s.callers[e] == Popping([], None)
    case Detach(_, e) => e !in s.callers
    case Release(e) => e in s.callers && s.callers[e].Detached?
    case Clear(e) => e in s.callers && s.callers[e].Clearing?
  }

  /** A ledger step logged: what it claims leaves the live entries. */
  function Claimed(log: Log, e: SM.Event, taken: seq<Read>, left: seq<Read>, short: nat): Log {
    log.(trace := log.trace + [e], claimed := log.claimed + taken, live := left, surplus := log.surplus + short)
  }

  ghost function Next(s: State, a: Action): State
    requires Enabled(s, a)
  {
    match a
    case Begin(r) => s.(writers := s.writers[KeyOf(r) := Writing(r)])
    case Insert(k) =>
      var r := s.writers[k].read;
      s.(latest := s.latest[k := r], writers := s.writers[k := Filing(r, Displaced(s.latest, k))],
         log := s.log.(touched := s.log.touched + [SM.Wrote(r)]))
    case File(k) =>
      var w := s.writers[k];
      s.(history := Push(s.history, w.read), writers := s.writers[k := Settling(w.read, w.displaced)],
         log := s.log.(pushed := s.log.pushed + [w.read]))
    case Settle(k, e) =>
      var w := s.writers[k];
      var (books, taken) := s.books.Admit(LatestBytes(w.read), w.displaced, SlotOf(w.read));
      var all := s.log.live + [w.read];
      s.(books := books, writers := s.writers - {k}, callers := s.callers[e := Popping(taken, None)],
         log := Claimed(s.log, SM.Wrote(w.read), First(all, |taken|), Rest(all, |taken|),
                        Shortfall(s.books.latestBytes + LatestBytes(w.read), w.displaced)))
    case Expire(t, e) =>
      var (books, taken) := s.books.Expire(t);
      s.(books := books, callers := s.callers[e := Popping(taken, None)],
         log := Claimed(s.log, SM.Pruned(t), Filter(s.log.live, StampedBefore(t)),
                        Filter(s.log.live, Negate(StampedBefore(t))), 0))
    case Recap(b, e) =>
      var (books, taken) := s.books.Recap(b);
      s.(books := books, callers := s.callers[e := Popping(taken, None)],
         log := Claimed(s.log, SM.Recapped(b), First(s.log.live, |taken|), Rest(s.log.live, |taken|), 0))
    case Pop(e) =>
      var c := s.callers[e];
      var k := KeyOfSlot(c.slots[0]);
      var history := PopFront(s.history, k);
      s.(history := history,
         callers := s.callers[e := Popping(c.slots[1..], if Vacated(history, k.device) then Some(k.device) else None)],
         log := s.log.(dropped := s.log.dropped + First(SeriesOf(s.history, k), 1)))
    case RemoveIf(e) =>
      var c := s.callers[e];
      s.(history := RemoveIfEmpty(s.history, c.vacating.value), callers := s.callers[e := Popping(c.slots, None)])
    case Finish(e) => s.(callers := s.callers - {e})
    case Detach(d, e) =>
      s.(latest := s.latest - SM.KeysOfDevice(s.latest, d), callers := s.callers[e := Detached(d, Share(s.latest, d))],
         log := s.log.(touched := s.log.touched + [SM.Forgot(d)]))
    case Release(e) =>
      var c := s.callers[e];
      var (books, taken) := s.books.Forget(c.device, SM.Floor(c.held));
      s.(books := books, callers := s.callers[e := Clearing(c.device, taken)],
         log := Claimed(s.log, SM.Forgot(c.device), Filter(s.log.live, OfDevice(c.device)),
                        Filter(s.log.live, Negate(OfDevice(c.device))),
                        Shortfall(s.books.latestBytes, SM.Floor(c.held))))
    case Clear(e) =>
      var d := s.callers[e].device;
      s.(history := s.history - {d}, callers := s.callers - {e},
         log := s.log.(dropped := Filter(s.log.dropped, Negate(OfDevice(d))) + Filter(s.log.pushed, OfDevice(d))))
  }

  ghost predicate IsRun(s: State, acts: seq<Action>)
    decreases |acts|
  {
    acts == [] || (Enabled(s, acts[0]) && IsRun(Next(s, acts[0]), acts[1..]))
  }

  ghost function Reached(s: State, acts: seq<Action>): State
    requires IsRun(s, acts)
    decreases |acts|
  {
    if acts == [] then s else Reached(Next(s, acts[0]), acts[1..])
  }

  // ---- What is under way -------------------------------------------------------

  predicate Inserted(writers: map<Key, Write>, k: Key) {
    k in writers && !writers[k].Writing?
  }

  function ClaimsOf(c: Caller): seq<Slot> {
    match c
    case Popping(slots, _) => slots
    case Detached(_, _) => []
    case Clearing(_, slots) => slots
  }

  function OnKey(k: Key): Caller -> nat {
    (c: Caller) => ClaimsOn(ClaimsOf(c), k)
  }

  /** Claims on one series that no caller has applied yet. */
  ghost function Pending(callers: map<nat, Caller>, k: Key): nat {
    SumMap(callers, OnKey(k))
  }

  /** The entry of one series that is stored but not yet in the books. */
  function Waiting(writers: map<Key, Write>, k: Key): seq<Read> {
    if k in writers && writers[k].Settling? then [writers[k].read] else []
  }

  predicate Quiescent(s: State) {
    s.writers == map[] && s.callers == map[]
  }

  // ---- The laws of every state ---------------------------------------------------

  /** The queue lists the live entries, which are the latest of what sweeps and removals would leave; the cap holds. */
  ghost predicate LedgerLaw(s: State) {
    && Lists(s.books, s.log.live) && Capped(s.books)
    && SM.SeriesSorted(s.log.live)
    && SM.EndsWith(SM.Unevicted(s.log.trace), s.log.live)
  }

  ghost predicate WritersLaw(s: State) {
    forall k :: k in s.writers ==> KeyOf(s.writers[k].read) == k && SM.Follows(s.log.live, s.writers[k].read)
  }

  predicate Vacates(callers: map<nat, Caller>, e: nat, d: DeviceId) {
    e in callers && callers[e].Popping? && callers[e].vacating == Some(d)
  }

  /** No emptied key is left but the one a caller is about to remove. */
  ghost predicate HistoryLaw(s: State) {
    && NoEmptySeries(s.history)
    && forall d :: Vacated(s.history, d) ==> exists e :: Vacates(s.callers, e, d)
  }

  /** A removal's claims are its device's. */
  ghost predicate ClearersLaw(s: State) {
    forall e :: e in s.callers && s.callers[e].Clearing?
      ==> forall x :: x in s.callers[e].slots ==> x.device == s.callers[e].device
  }

  /** One series: everything pushed, cut twice; `owed` entries are gone that no claim has paid for. */
  ghost predicate Cut(pushed: seq<Read>, dropped: seq<Read>, series: seq<Read>,
                      claimed: seq<Read>, live: seq<Read>, waiting: seq<Read>, pending: nat, owed: nat) {
    && pushed == dropped + series
    && pushed == claimed + live + waiting
    && |claimed| + owed == |dropped| + pending
  }

  ghost predicate SeriesLaw(s: State, k: Key, owed: nat) {
    Cut(Filter(s.log.pushed, OfKey(k)), Filter(s.log.dropped, OfKey(k)), SeriesOf(s.history, k),
        Filter(s.log.claimed, OfKey(k)), Filter(s.log.live, OfKey(k)), Waiting(s.writers, k),
        Pending(s.callers, k), owed)
  }

  /**
   `latest` answers with the last write in the order the map was touched, which is the order of
   admission but for writes under way.
   */
  ghost predicate LatestLaw(s: State, k: Key) {
    && SM.Lookup(s.latest, k) == SM.LastWrite(s.log.touched, k)
    && SM.LastWritten(s.log.touched, k)
       == if Inserted(s.writers, k) then Some(s.writers[k].read) else SM.LastWritten(s.log.trace, k)
  }

  /** Bytes a write under way has put into `latest`. */
  function Added(): Write -> nat {
    (w: Write) => if w.Writing? then 0 else LatestBytes(w.read)
  }

  /** Bytes a write under way has displaced. */
  function Taken(): Write -> nat {
    (w: Write) => if w.Writing? then 0 else w.displaced
  }

  /** Bytes a removal under way holds. */
  ghost function Held(): Caller -> nat {
    (c: Caller) => if c.Detached? then SM.Floor(c.held) else 0
  }

  /** What the books count, and what is on its way to them, is what `latest` costs, and the surplus. */
  ghost predicate TotalsLaw(s: State) {
    s.books.latestBytes + SumMap(s.writers, Added())
    == SM.Floor(s.latest) + SumMap(s.writers, Taken()) + SumMap(s.callers, Held()) + s.log.surplus
  }

  ghost predicate SideLaw(s: State) {
    LedgerLaw(s) && WritersLaw(s) && HistoryLaw(s) && ClearersLaw(s)
  }

  lemma FilterPush(entries: seq<Read>, r: Read, k: Key)
    ensures Filter(entries + [r], OfKey(k)) == Filter(entries, OfKey(k)) + (if k == KeyOf(r) then [r] else [])
  {
    FilterConcat(entries, [r], OfKey(k));
  }

  // ---- The ledger's steps ----------------------------------------------------------

  lemma SplitsAt(all: seq<Read>, front: seq<Read>, back: seq<Read>)
    requires all == front + back
    ensures First(all, |front|) == front && Rest(all, |front|) == back
  {
  }

  /** Admitting a write claims a prefix of the write order, the new entry included. */
  lemma SettleEffect(s: State, key: Key, who: nat) returns (front: seq<Read>)
    requires Lists(s.books, s.log.live) && Enabled(s, Settle(key, who))
    ensures var t, r := Next(s, Settle(key, who)), s.writers[key].read;
            && s.log.live + [r] == front + t.log.live && t.log.claimed == s.log.claimed + front
            && t.callers == s.callers[who := Popping(Slots(front), None)]
            && Lists(t.books, t.log.live) && Capped(t.books) && t.books.budget == s.books.budget
            && t.books.latestBytes == SaturatingSub(s.books.latestBytes + LatestBytes(r), s.writers[key].displaced)
  {
    var w, back := s.writers[key], [];
    front, back := AdmitLists(s.books, s.log.live, LatestBytes(w.read), w.displaced, w.read);
    SplitsAt(s.log.live + [w.read], front, back);
  }

  lemma RecapEffect(s: State, budget: Option<nat>, who: nat) returns (front: seq<Read>)
    requires Lists(s.books, s.log.live) && Enabled(s, Recap(budget, who))
    ensures var t := Next(s, Recap(budget, who));
            && s.log.live == front + t.log.live && t.log.claimed == s.log.claimed + front
            && t.callers == s.callers[who := Popping(Slots(front), None)]
            && Lists(t.books, t.log.live) && Capped(t.books) && t.books.latestBytes == s.books.latestBytes
  {
    var back := [];
    front, back := EnforceLists(s.books.(budget := budget), s.log.live);
    SplitsAt(s.log.live, front, back);
  }

  lemma ExpireEffect(s: State, before: string, who: nat)
    requires Lists(s.books, s.log.live) && Enabled(s, Expire(before, who))
    ensures var t, taken := Next(s, Expire(before, who)), Filter(s.log.live, StampedBefore(before));
            && t.callers == s.callers[who := Popping(Slots(taken), None)]
            && Lists(t.books, t.log.live) && (Capped(s.books) ==> Capped(t.books))
            && t.books.latestBytes == s.books.latestBytes
  {
    TakeIfLists(s.books, s.log.live, StampedBefore(before), SlotStampedBefore(before));
  }

  lemma ReleaseEffect(s: State, who: nat)
    requires Lists(s.books, s.log.live) && Enabled(s, Release(who))
    ensures var t, d := Next(s, Release(who)), s.callers[who].device;
            && t.callers == s.callers[who := Clearing(d, Slots(Filter(s.log.live, OfDevice(d))))]
            && Lists(t.books, t.log.live) && (Capped(s.books) ==> Capped(t.books))
            && t.books.latestBytes == SaturatingSub(s.books.latestBytes, SM.Floor(s.callers[who].held))
  {
    var d, bytes := s.callers[who].device, SM.Floor(s.callers[who].held);
    TakeIfLists(s.books.RestateLatest(0, bytes), s.log.live, OfDevice(d), SlotOfDevice(d));
  }

  /** A step of the ledger that keeps the back of what is live and joins to it. */
  lemma LedgerKeepsBack(s: State, t: State, joins: seq<Read>, front: seq<Read>)
    requires LedgerLaw(s) && Lists(t.books, t.log.live) && Capped(t.books)
    requires SM.SeriesSorted(s.log.live + joins) && s.log.live + joins == front + t.log.live
    requires SM.Unevicted(t.log.trace) == SM.Unevicted(s.log.trace) + joins
    ensures LedgerLaw(t)
  {
    SM.BackSorted(s.log.live + joins, front, t.log.live);
    SM.EndsLater(SM.Unevicted(s.log.trace), s.log.live, joins, front, t.log.live);
  }

  lemma LedgerKeepsSome(s: State, t: State, p: Read -> bool)
    requires LedgerLaw(s) && Lists(t.books, t.log.live) && Capped(t.books)
    requires t.log.live == Filter(s.log.live, p)
    requires SM.Unevicted(t.log.trace) == Filter(SM.Unevicted(s.log.trace), p)
    ensures LedgerLaw(t)
  {
    SM.FilterSeriesSorted(s.log.live, p);
    SM.EndsFilter(SM.Unevicted(s.log.trace), s.log.live, p);
  }

  lemma TraceSnoc(trace: seq<SM.Event>, e: SM.Event)
    ensures (trace + [e])[..|trace + [e]| - 1] == trace
  {
  }

  lemma SettleLedger(s: State, k: Key, e: nat)
    requires LedgerLaw(s) && WritersLaw(s) && Enabled(s, Settle(k, e))
    ensures LedgerLaw(Next(s, Settle(k, e)))
  {
    var r := s.writers[k].read;
    var front := SettleEffect(s, k, e);
    TraceSnoc(s.log.trace, SM.Wrote(r));
    SM.AppendSorted(s.log.live, r);
    LedgerKeepsBack(s, Next(s, Settle(k, e)), [r], front);
  }

  lemma RecapLedger(s: State, budget: Option<nat>, e: nat)
    requires LedgerLaw(s) && Enabled(s, Recap(budget, e))
    ensures LedgerLaw(Next(s, Recap(budget, e)))
  {
    var front := RecapEffect(s, budget, e);
    TraceSnoc(s.log.trace, SM.Recapped(budget));
    assert s.log.live + [] == s.log.live && SM.Unevicted(s.log.trace) + [] == SM.Unevicted(s.log.trace);
    LedgerKeepsBack(s, Next(s, Recap(budget, e)), [], front);
  }

  lemma ExpireLedger(s: State, before: string, e: nat)
    requires LedgerLaw(s) && Enabled(s, Expire(before, e))
    ensures LedgerLaw(Next(s, Expire(before, e)))
  {
    ExpireEffect(s, before, e);
    TraceSnoc(s.log.trace, SM.Pruned(before));
    LedgerKeepsSome(s, Next(s, Expire(before, e)), Negate(StampedBefore(before)));
  }

  lemma ReleaseLedger(s: State, e: nat)
    requires LedgerLaw(s) && Enabled(s, Release(e))
    ensures LedgerLaw(Next(s, Release(e)))
  {
    var d := s.callers[e].device;
    ReleaseEffect(s, e);
    TraceSnoc(s.log.trace, SM.Forgot(d));
    LedgerKeepsSome(s, Next(s, Release(e)), Negate(OfDevice(d)));
  }

  /** The steps taken under the ledger's lock. */
  predicate Ledgers(a: Action) {
    a.Settle? || a.Expire? || a.Recap? || a.Release?
  }

  lemma NextLedger(s: State, a: Action)
    requires LedgerLaw(s) && WritersLaw(s) && Enabled(s, a)
    ensures LedgerLaw(Next(s, a))
  {
    if Ledgers(a) {
      match a
      case Settle(k, e) => SettleLedger(s, k, e);
      case Expire(before, e) => ExpireLedger(s, before, e);
      case Recap(b, e) => RecapLedger(s, b, e);
      case Release(e) => ReleaseLedger(s, e);
    }
  }

  // ---- Writes under way and emptied keys ---------------------------------------------

  lemma BackMembers(all: seq<Read>, front: seq<Read>, back: seq<Read>)
    requires all == front + back
    ensures forall r :: r in back ==> r in all
  {
  }

  lemma FilterMembers(all: seq<Read>, p: Read -> bool)
    ensures forall r :: r in Filter(all, p) ==> r in all
  {
    forall r | r in Filter(all, p)
      ensures r in all
    {
      FilterMember(all, p, r);
    }
  }

  lemma LiveJoins(s: State, a: Action)
    requires LedgerLaw(s) && Enabled(s, a) && Ledgers(a)
    ensures forall r :: r in Next(s, a).log.live ==> r in s.log.live || (a.Settle? && r == s.writers[a.key].read)
  {
    match a
    case Settle(k, e) =>
      var front := SettleEffect(s, k, e);
      BackMembers(s.log.live + [s.writers[k].read], front, Next(s, a).log.live);
    case Recap(b, e) =>
      var front := RecapEffect(s, b, e);
      BackMembers(s.log.live, front, Next(s, a).log.live);
    case Expire(before, _) => FilterMembers(s.log.live, Negate(StampedBefore(before)));
    case Release(e) => FilterMembers(s.log.live, Negate(OfDevice(s.callers[e].device)));
  }

  lemma NextWriters(s: State, a: Action)
    requires LedgerLaw(s) && WritersLaw(s) && Enabled(s, a)
    ensures WritersLaw(Next(s, a))
  {
    if Ledgers(a) {
      LiveJoins(s, a);
    } else {
      assert Next(s, a).log.live == s.log.live;
    }
  }

  /** A caller that vacates nothing may be replaced by any. */
  lemma SameVacated(s: State, t: State, who: nat)
    requires HistoryLaw(s) && t.history == s.history
    requires forall d :: !Vacates(s.callers, who, d)
    requires forall e :: e in s.callers && e != who ==> e in t.callers && t.callers[e] == s.callers[e]
    ensures HistoryLaw(t)
  {
    forall d | Vacated(t.history, d)
      ensures exists e :: Vacates(t.callers, e, d)
    {
      var e :| Vacates(s.callers, e, d);
      assert Vacates(t.callers, e, d);
    }
  }

  /** Fewer devices stand vacated, and only `who` may have dealt with one. */
  lemma FewerVacated(s: State, t: State, who: nat)
    requires HistoryLaw(s) && NoEmptySeries(t.history)
    requires forall d :: Vacated(t.history, d) ==>
               Vacates(t.callers, who, d) || (Vacated(s.history, d) && !Vacates(s.callers, who, d))
    requires forall e :: e in s.callers && e != who ==> e in t.callers && t.callers[e] == s.callers[e]
    ensures HistoryLaw(t)
  {
    forall d | Vacated(t.history, d)
      ensures exists e :: Vacates(t.callers, e, d)
    {
      if !Vacates(t.callers, who, d) {
        var e :| Vacates(s.callers, e, d);
        assert Vacates(t.callers, e, d);
      }
    }
  }

  lemma NextHistory(s: State, a: Action)
    requires HistoryLaw(s) && Enabled(s, a)
    ensures HistoryLaw(Next(s, a))
  {
    var t := Next(s, a);
    match a
    case Begin(_) =>
    case Insert(_) =>
    case File(k) => PushSeries(s.history, s.writers[k].read, k);
    case Settle(_, e) => SameVacated(s, t, e);
    case Expire(_, e) => SameVacated(s, t, e);
    case Recap(_, e) => SameVacated(s, t, e);
    case Pop(e) =>
      var at := KeyOfSlot(s.callers[e].slots[0]);
      PopSeries(s.history, at, at);
      FewerVacated(s, t, e);
    case RemoveIf(e) =>
      var gone := s.callers[e].vacating.value;
      RemoveSeries(s.history, gone, Key(gone, ""));
      FewerVacated(s, t, e);
    case Finish(e) => SameVacated(s, t, e);
    case Detach(_, e) => SameVacated(s, t, e);
    case Release(e) => SameVacated(s, t, e);
    case Clear(e) => FewerVacated(s, t, e);
  }

  lemma DeviceSlots(entries: seq<Read>, d: DeviceId)
    ensures forall x :: x in Slots(Filter(entries, OfDevice(d))) ==> x.device == d
  {
    var taken := Filter(entries, OfDevice(d));
    forall x | x in Slots(taken)
      ensures x.device == d
    {
      var i :| 0 <= i < |taken| && x == SlotOf(taken[i]);
      FilterMember(entries, OfDevice(d), taken[i]);
    }
  }

  lemma NextClearers(s: State, a: Action)
    requires LedgerLaw(s) && ClearersLaw(s) && Enabled(s, a)
    ensures ClearersLaw(Next(s, a))
  {
    if a.Release? {
      ReleaseEffect(s, a.who);
      DeviceSlots(s.log.live, s.callers[a.who].device);
    }
  }

  lemma NextSide(s: State, a: Action)
    requires SideLaw(s) && Enabled(s, a)
    ensures SideLaw(Next(s, a))
  {
    NextLedger(s, a);
    NextWriters(s, a);
    NextHistory(s, a);
    NextClearers(s, a);
  }

  // ---- One series --------------------------------------------------------------------

  /**
   What a step does to the entries of series `k` that are gone and not paid for. Clearing the history
   takes what is live, on its way, or claimed by others; a pop that finds nothing pays for one.
   */
  ghost function OwedAfter(s: State, a: Action, k: Key, owed: nat): nat
    requires Enabled(s, a)
  {
    match a
    case Pop(e) =>
      if KeyOfSlot(s.callers[e].slots[0]) == k && SeriesOf(s.history, k) == [] && owed > 0 then owed - 1 else owed
    case Clear(e) =>
      if k.device == s.callers[e].device then
        |Filter(s.log.live, OfKey(k))| + |Waiting(s.writers, k)| + Pending(s.callers - {e}, k)
      else owed
    case Begin(_) => owed
    case Insert(_) => owed
    case File(_) => owed
    case Settle(_, _) => owed
    case Expire(_, _) => owed
    case Recap(_, _) => owed
    case RemoveIf(_) => owed
    case Finish(_) => owed
    case Detach(_, _) => owed
    case Release(_) => owed
  }

  lemma CutPush(pushed: seq<Read>, dropped: seq<Read>, series: seq<Read>, claimed: seq<Read>,
                live: seq<Read>, pending: nat, owed: nat, r: Read)
    requires Cut(pushed, dropped, series, claimed, live, [], pending, owed)
    ensures Cut(pushed + [r], dropped, series + [r], claimed, live, [r], pending, owed)
  {
    assert pushed + [r] == dropped + (series + [r]);
    assert claimed + live + [] == claimed + live;
  }

  lemma FileCut(s: State, key: Key, k: Key, owed: nat)
    requires Enabled(s, File(key)) && SeriesLaw(s, k, owed) && KeyOf(s.writers[key].read) == key
    ensures SeriesLaw(Next(s, File(key)), k, owed)
  {
    var r := s.writers[key].read;
    PushSeries(s.history, r, k);
    FilterPush(s.log.pushed, r, k);
    if k == key {
      CutPush(Filter(s.log.pushed, OfKey(k)), Filter(s.log.dropped, OfKey(k)), SeriesOf(s.history, k),
              Filter(s.log.claimed, OfKey(k)), Filter(s.log.live, OfKey(k)), Pending(s.callers, k), owed, r);
    } else {
      assert SeriesOf(s.history, k) + [] == SeriesOf(s.history, k);
      assert Filter(s.log.pushed, OfKey(k)) + [] == Filter(s.log.pushed, OfKey(k));
    }
  }

  lemma CutClaim(pushed: seq<Read>, dropped: seq<Read>, series: seq<Read>, claimed: seq<Read>,
                 live: seq<Read>, waiting: seq<Read>, pending: nat, owed: nat,
                 taken: seq<Read>, live': seq<Read>, waiting': seq<Read>)
    requires Cut(pushed, dropped, series, claimed, live, waiting, pending, owed)
    requires live + waiting == taken + live' + waiting'
    ensures Cut(pushed, dropped, series, claimed + taken, live', waiting', pending + |taken|, owed)
  {
    assert pushed == claimed + (live + waiting) == claimed + (taken + live' + waiting');
  }

  /** What a claim of `taken`, leaving the live entries of `t`, does to one series. */
  lemma ClaimCut(s: State, t: State, taken: seq<Read>, who: nat, c: Caller, k: Key, owed: nat)
    requires SeriesLaw(s, k, owed) && (who in s.callers ==> ClaimsOf(s.callers[who]) == [])
    requires t.log.pushed == s.log.pushed && t.log.dropped == s.log.dropped && t.history == s.history
    requires t.log.claimed == s.log.claimed + taken
    requires t.callers == s.callers[who := c] && ClaimsOf(c) == Slots(taken)
    requires Filter(s.log.live, OfKey(k)) + Waiting(s.writers, k)
          == Filter(taken, OfKey(k)) + Filter(t.log.live, OfKey(k)) + Waiting(t.writers, k)
    ensures SeriesLaw(t, k, owed)
  {
    FilterConcat(s.log.claimed, taken, OfKey(k));
    ClaimsOnReads(taken, k);
    SumMapPut(s.callers, OnKey(k), who, c);
    CutClaim(Filter(s.log.pushed, OfKey(k)), Filter(s.log.dropped, OfKey(k)), SeriesOf(s.history, k),
             Filter(s.log.claimed, OfKey(k)), Filter(s.log.live, OfKey(k)), Waiting(s.writers, k),
             Pending(s.callers, k), owed,
             Filter(taken, OfKey(k)), Filter(t.log.live, OfKey(k)), Waiting(t.writers, k));
  }

  lemma SettleFronts(live: seq<Read>, r: Read, front: seq<Read>, back: seq<Read>, k: Key)
    requires live + [r] == front + back
    ensures Filter(live, OfKey(k)) + (if k == KeyOf(r) then [r] else [])
         == Filter(front, OfKey(k)) + Filter(back, OfKey(k))
  {
    FilterPush(live, r, k);
    FilterConcat(front, back, OfKey(k));
  }

  /** The entry on its way joins the write order. */
  lemma WaitingJoins(writers: map<Key, Write>, key: Key, k: Key)
    requires key in writers && writers[key].Settling?
    ensures Waiting(writers, k) == (if k == key then [writers[key].read] else []) + Waiting(writers - {key}, k)
  {
  }

  lemma Rebalance(live: seq<Read>, joins: seq<Read>, front: seq<Read>, back: seq<Read>, rest: seq<Read>)
    requires live + joins == front + back
    ensures live + (joins + rest) == front + back + rest
  {
    assert live + (joins + rest) == live + joins + rest;
  }

  lemma SettleClaims(s: State, t: State, key: Key, who: nat, front: seq<Read>, k: Key, owed: nat)
    requires SeriesLaw(s, k, owed) && key in s.writers && s.writers[key].Settling? && KeyOf(s.writers[key].read) == key
    requires who !in s.callers && s.log.live + [s.writers[key].read] == front + t.log.live
    requires t.log.pushed == s.log.pushed && t.log.dropped == s.log.dropped && t.history == s.history
    requires t.writers == s.writers - {key} && t.callers == s.callers[who := Popping(Slots(front), None)]
    requires t.log.claimed == s.log.claimed + front
    ensures SeriesLaw(t, k, owed)
  {
    var r, live := s.writers[key].read, s.log.live;
    SettleFronts(live, r, front, t.log.live, k);
    WaitingJoins(s.writers, key, k);
    Rebalance(Filter(live, OfKey(k)), if k == key then [r] else [],
              Filter(front, OfKey(k)), Filter(t.log.live, OfKey(k)), Waiting(t.writers, k));
    ClaimCut(s, t, front, who, Popping(Slots(front), None), k, owed);
  }

  lemma SettleCut(s: State, key: Key, who: nat, k: Key, owed: nat)
    requires LedgerLaw(s) && SeriesLaw(s, k, owed) && Enabled(s, Settle(key, who)) && KeyOf(s.writers[key].read) == key
    ensures SeriesLaw(Next(s, Settle(key, who)), k, owed)
  {
    var front := SettleEffect(s, key, who);
    SettleClaims(s, Next(s, Settle(key, who)), key, who, front, k, owed);
  }

  lemma RecapClaims(s: State, t: State, who: nat, front: seq<Read>, k: Key, owed: nat)
    requires SeriesLaw(s, k, owed) && who !in s.callers && s.log.live == front + t.log.live
    requires t.log.pushed == s.log.pushed && t.log.dropped == s.log.dropped && t.history == s.history
    requires t.writers == s.writers && t.callers == s.callers[who := Popping(Slots(front), None)]
    requires t.log.claimed == s.log.claimed + front
    ensures SeriesLaw(t, k, owed)
  {
    FilterConcat(front, t.log.live, OfKey(k));
    ClaimCut(s, t, front, who, Popping(Slots(front), None), k, owed);
  }

  lemma RecapCut(s: State, budget: Option<nat>, who: nat, k: Key, owed: nat)
    requires LedgerLaw(s) && SeriesLaw(s, k, owed) && Enabled(s, Recap(budget, who))
    ensures SeriesLaw(Next(s, Recap(budget, who)), k, owed)
  {
    var front := RecapEffect(s, budget, who);
    RecapClaims(s, Next(s, Recap(budget, who)), who, front, k, owed);
  }

  lemma ExpireCut(s: State, before: string, who: nat, k: Key, owed: nat)
    requires LedgerLaw(s) && SeriesLaw(s, k, owed) && Enabled(s, Expire(before, who))
    ensures SeriesLaw(Next(s, Expire(before, who)), k, owed)
  {
    var taken := Filter(s.log.live, StampedBefore(before));
    ExpireEffect(s, before, who);
    ExpiryTakesFronts(s.log.live, before, k);
    ClaimCut(s, Next(s, Expire(before, who)), taken, who, Popping(Slots(taken), None), k, owed);
  }

  lemma DeviceFronts(entries: seq<Read>, d: DeviceId, k: Key)
    ensures Filter(entries, OfKey(k))
         == Filter(Filter(entries, OfDevice(d)), OfKey(k)) + Filter(Filter(entries, Negate(OfDevice(d))), OfKey(k))
    ensures Filter(Filter(entries, OfDevice(d)), OfKey(k)) == if k.device == d then Filter(entries, OfKey(k)) else []
  {
    ForgettingClearsDevice(entries, d, k);
    FilterSwap(entries, OfDevice(d), OfKey(k));
    var series := Filter(entries, OfKey(k));
    forall x | x in series
      ensures OfKey(k)(x)
    {
      FilterMember(entries, OfKey(k), x);
    }
    if k.device == d {
      FilterKeepsAll(series, OfDevice(d));
    } else {
      FilterKeepsNone(series, OfDevice(d));
    }
  }

  lemma ReleaseCut(s: State, who: nat, k: Key, owed: nat)
    requires LedgerLaw(s) && SeriesLaw(s, k, owed) && Enabled(s, Release(who))
    ensures SeriesLaw(Next(s, Release(who)), k, owed)
  {
    var t, d := Next(s, Release(who)), s.callers[who].device;
    var taken := Filter(s.log.live, OfDevice(d));
    ReleaseEffect(s, who);
    DeviceFronts(s.log.live, d, k);
    ClaimCut(s, t, taken, who, Clearing(d, Slots(taken)), k, owed);
  }

  /** Pops of one series settle its claims one by one, whichever entry each removes. */
  lemma PopPending(s: State, who: nat, k: Key)
    requires Enabled(s, Pop(who))
    ensures var at := KeyOfSlot(s.callers[who].slots[0]);
            Pending(Next(s, Pop(who)).callers, k) + (if k == at then 1 else 0) == Pending(s.callers, k)
  {
    SumMapPut(s.callers, OnKey(k), who, Next(s, Pop(who)).callers[who]);
    ClaimsTail(s.callers[who].slots, k);
  }

  lemma ClaimsTail(slots: seq<Slot>, k: Key)
    requires slots != []
    ensures ClaimsOn(slots, k) == ClaimsOn(slots[1..], k) + (if KeyOfSlot(slots[0]) == k then 1 else 0)
  {
  }

  lemma CutPop(pushed: seq<Read>, dropped: seq<Read>, series: seq<Read>, claimed: seq<Read>,
               live: seq<Read>, waiting: seq<Read>, pending: nat, owed: nat)
    requires Cut(pushed, dropped, series, claimed, live, waiting, pending, owed) && pending > 0
    ensures series == [] ==> owed > 0 && Cut(pushed, dropped, series, claimed, live, waiting, pending - 1, owed - 1)
    ensures series != [] ==>
              series[0] in pushed
              && Cut(pushed, dropped + [series[0]], series[1..], claimed, live, waiting, pending - 1, owed)
  {
    if series != [] {
      assert pushed[|dropped|] == series[0];
      assert dropped + series == dropped + [series[0]] + series[1..];
    }
  }

  /** The series the evictor pops: its front leaves if there is one, and one claim on it is applied. */
  lemma PopCut(s: State, who: nat, owed: nat)
    requires Enabled(s, Pop(who)) && SeriesLaw(s, KeyOfSlot(s.callers[who].slots[0]), owed)
    ensures var at := KeyOfSlot(s.callers[who].slots[0]);
            && (SeriesOf(s.history, at) != [] ==> KeyOf(SeriesOf(s.history, at)[0]) == at)
            && SeriesLaw(Next(s, Pop(who)), at, OwedAfter(s, Pop(who), at, owed))
  {
    var at := KeyOfSlot(s.callers[who].slots[0]);
    var series := SeriesOf(s.history, at);
    PopPending(s, who, at);
    PopSeries(s.history, at, at);
    CutPop(Filter(s.log.pushed, OfKey(at)), Filter(s.log.dropped, OfKey(at)), series,
           Filter(s.log.claimed, OfKey(at)), Filter(s.log.live, OfKey(at)), Waiting(s.writers, at),
           Pending(s.callers, at), owed);
    if series == [] {
      assert s.log.dropped + [] == s.log.dropped;
    } else {
      assert First(series, 1) == [series[0]];
      FilterMember(s.log.pushed, OfKey(at), series[0]);
      FilterPush(s.log.dropped, series[0], at);
    }
  }

  /** Every other series is left as it was. */
  lemma PopElsewhere(s: State, who: nat, k: Key, owed: nat)
    requires Enabled(s, Pop(who)) && SeriesLaw(s, k, owed) && k != KeyOfSlot(s.callers[who].slots[0])
    requires var at := KeyOfSlot(s.callers[who].slots[0]);
             SeriesOf(s.history, at) != [] ==> KeyOf(SeriesOf(s.history, at)[0]) == at
    ensures SeriesLaw(Next(s, Pop(who)), k, owed)
  {
    var at := KeyOfSlot(s.callers[who].slots[0]);
    var series := SeriesOf(s.history, at);
    PopPending(s, who, k);
    PopSeries(s.history, at, k);
    assert SeriesOf(s.history, k)[0..] == SeriesOf(s.history, k);
    if series == [] {
      assert s.log.dropped + [] == s.log.dropped;
    } else {
      assert First(series, 1) == [series[0]];
      FilterPush(s.log.dropped, series[0], k);
      assert Filter(s.log.dropped, OfKey(k)) + [] == Filter(s.log.dropped, OfKey(k));
    }
  }

  /** What clearing leaves of the logs of one series. */
  lemma ClearDropped(s: State, who: nat, k: Key)
    requires Enabled(s, Clear(who))
    ensures var d := s.callers[who].device;
            Filter(Next(s, Clear(who)).log.dropped, OfKey(k))
            == Filter(if k.device == d then s.log.pushed else s.log.dropped, OfKey(k))
  {
    var d := s.callers[who].device;
    FilterConcat(Filter(s.log.dropped, Negate(OfDevice(d))), Filter(s.log.pushed, OfDevice(d)), OfKey(k));
    DeviceFronts(s.log.pushed, d, k);
    ForgettingClearsDevice(s.log.dropped, d, k);
  }

  lemma ClearOwn(s: State, who: nat, k: Key, owed: nat)
    requires Enabled(s, Clear(who)) && SeriesLaw(s, k, owed) && k.device == s.callers[who].device
    ensures SeriesLaw(Next(s, Clear(who)), k, OwedAfter(s, Clear(who), k, owed))
  {
    ClearDropped(s, who, k);
    assert SeriesOf(Next(s, Clear(who)).history, k) == [];
    assert Filter(s.log.pushed, OfKey(k)) + [] == Filter(s.log.pushed, OfKey(k));
  }

  lemma ClearElsewhere(s: State, who: nat, k: Key, owed: nat)
    requires Enabled(s, Clear(who)) && ClearersLaw(s) && SeriesLaw(s, k, owed) && k.device != s.callers[who].device
    ensures SeriesLaw(Next(s, Clear(who)), k, owed)
  {
    ClearDropped(s, who, k);
    SumMapAt(s.callers, OnKey(k), who);
    FilterKeepsNone(s.callers[who].slots, SlotOfKey(k));
    assert SeriesOf(Next(s, Clear(who)).history, k) == SeriesOf(s.history, k);
  }

  ghost predicate SomeOwed(s: State, k: Key) {
    exists owed: nat :: SeriesLaw(s, k, owed)
  }

  lemma PopOne(s: State, who: nat, k: Key, owed: nat)
    requires Enabled(s, Pop(who)) && SeriesLaw(s, k, owed) && forall j :: SomeOwed(s, j)
    ensures SeriesLaw(Next(s, Pop(who)), k, OwedAfter(s, Pop(who), k, owed))
  {
    var at := KeyOfSlot(s.callers[who].slots[0]);
    if k == at {
      PopCut(s, who, owed);
    } else {
      assert SomeOwed(s, at);
      var o: nat :| SeriesLaw(s, at, o);
      PopCut(s, who, o);
      PopElsewhere(s, who, k, owed);
    }
  }

  /** A step that moves no entry of the series and applies no claim on it. */
  lemma SameCut(s: State, t: State, k: Key, owed: nat)
    requires SeriesLaw(s, k, owed) && SeriesOf(t.history, k) == SeriesOf(s.history, k)
    requires t.log.pushed == s.log.pushed && t.log.dropped == s.log.dropped && t.log.claimed == s.log.claimed
    requires t.log.live == s.log.live
    requires Waiting(t.writers, k) == Waiting(s.writers, k) && Pending(t.callers, k) == Pending(s.callers, k)
    ensures SeriesLaw(t, k, owed)
  {
  }

  /** The steps that move no entry. */
  predicate Still(a: Action) {
    a.Begin? || a.Insert? || a.RemoveIf? || a.Finish? || a.Detach?
  }

  lemma StillCut(s: State, a: Action, k: Key, owed: nat)
    requires Enabled(s, a) && Still(a) && SeriesLaw(s, k, owed)
    ensures SeriesLaw(Next(s, a), k, owed)
  {
    match a
    case Begin(_) =>
    case Insert(_) =>
    case RemoveIf(e) =>
      RemoveSeries(s.history, s.callers[e].vacating.value, k);
      SumMapPut(s.callers, OnKey(k), e, Next(s, a).callers[e]);
    case Finish(e) => SumMapAt(s.callers, OnKey(k), e);
    case Detach(d, e) => SumMapPut(s.callers, OnKey(k), e, Next(s, a).callers[e]);
    SameCut(s, Next(s, a), k, owed);
  }

  lemma LedgerCut(s: State, a: Action, k: Key, owed: nat)
    requires LedgerLaw(s) && WritersLaw(s) && Enabled(s, a) && Ledgers(a) && SeriesLaw(s, k, owed)
    ensures SeriesLaw(Next(s, a), k, owed)
  {
    match a
    case Settle(key, e) => SettleCut(s, key, e, k, owed);
    case Expire(before, e) => ExpireCut(s, before, e, k, owed);
    case Recap(b, e) => RecapCut(s, b, e, k, owed);
    case Release(e) => ReleaseCut(s, e, k, owed);
  }

  lemma ClearCut(s: State, who: nat, k: Key, owed: nat)
    requires Enabled(s, Clear(who)) && ClearersLaw(s) && SeriesLaw(s, k, owed)
    ensures SeriesLaw(Next(s, Clear(who)), k, OwedAfter(s, Clear(who), k, owed))
  {
    if k.device == s.callers[who].device {
      ClearOwn(s, who, k, owed);
    } else {
      ClearElsewhere(s, who, k, owed);
    }
  }

  /** Every step keeps every series cut, and owes what `OwedAfter` says. */
  lemma NextSeries(s: State, a: Action, k: Key, owed: nat)
    requires SideLaw(s) && Enabled(s, a) && SeriesLaw(s, k, owed) && forall j :: SomeOwed(s, j)
    ensures SeriesLaw(Next(s, a), k, OwedAfter(s, a, k, owed))
  {
    if Still(a) {
      StillCut(s, a, k, owed);
    } else if Ledgers(a) {
      LedgerCut(s, a, k, owed);
    } else {
      match a
      case File(key) => FileCut(s, key, k, owed);
      case Pop(e) => PopOne(s, e, k, owed);
      case Clear(e) => ClearCut(s, e, k, owed);
    }
  }

  // ---- Last reads and their total -----------------------------------------------------

  /** A ledger step moves no last read; a write it admits is the last in its order too. */
  lemma LedgerKeepsLatest(s: State, t: State, e: SM.Event, k: Key)
    requires LatestLaw(s, k) && t.latest == s.latest
    requires t.log.touched == s.log.touched && t.log.trace == s.log.trace + [e]
    requires if e.Wrote? then
               var key := KeyOf(e.read);
               Inserted(s.writers, key) && s.writers[key].read == e.read && t.writers == s.writers - {key}
             else t.writers == s.writers
    ensures LatestLaw(t, k)
  {
    SM.EventSnoc(s.log.trace, e, k);
  }

  lemma LedgerLatest(s: State, a: Action, k: Key)
    requires LatestLaw(s, k) && WritersLaw(s) && Enabled(s, a) && Ledgers(a)
    ensures LatestLaw(Next(s, a), k)
  {
    match a
    case Settle(key, _) => LedgerKeepsLatest(s, Next(s, a), SM.Wrote(s.writers[key].read), k);
    case Expire(before, _) => LedgerKeepsLatest(s, Next(s, a), SM.Pruned(before), k);
    case Recap(b, _) => LedgerKeepsLatest(s, Next(s, a), SM.Recapped(b), k);
    case Release(e) => LedgerKeepsLatest(s, Next(s, a), SM.Forgot(s.callers[e].device), k);
  }

  lemma NextLatest(s: State, a: Action, k: Key)
    requires LatestLaw(s, k) && WritersLaw(s) && Enabled(s, a)
    ensures LatestLaw(Next(s, a), k)
  {
    if Ledgers(a) {
      LedgerLatest(s, a, k);
    } else if a.Insert? {
      SM.EventSnoc(s.log.touched, SM.Wrote(s.writers[a.key].read), k);
    } else if a.Detach? {
      SM.EventSnoc(s.log.touched, SM.Forgot(a.device), k);
    }
  }

  /** One write moves on, the callers staying as they count. */
  lemma WriterTotals(s: State, t: State, k: Key, w: Write)
    requires k in s.writers && t.writers == s.writers[k := w]
    ensures SumMap(t.writers, Added()) + Added()(s.writers[k]) == SumMap(s.writers, Added()) + Added()(w)
    ensures SumMap(t.writers, Taken()) + Taken()(s.writers[k]) == SumMap(s.writers, Taken()) + Taken()(w)
  {
    SumMapPut(s.writers, Added(), k, w);
    SumMapPut(s.writers, Taken(), k, w);
  }

  lemma InsertTotals(s: State, k: Key)
    requires TotalsLaw(s) && Enabled(s, Insert(k)) && KeyOf(s.writers[k].read) == k
    ensures TotalsLaw(Next(s, Insert(k)))
  {
    var r := s.writers[k].read;
    WriterTotals(s, Next(s, Insert(k)), k, Filing(r, Displaced(s.latest, k)));
    SumMapPut(s.latest, LatestBytes, k, r);
  }

  lemma SettleTotals(s: State, k: Key, who: nat)
    requires TotalsLaw(s) && Enabled(s, Settle(k, who)) && Lists(s.books, s.log.live)
    ensures TotalsLaw(Next(s, Settle(k, who)))
  {
    var front := SettleEffect(s, k, who);
    SumMapAt(s.writers, Added(), k);
    SumMapAt(s.writers, Taken(), k);
    SumMapPut(s.callers, Held(), who, Popping(Slots(front), None));
  }

  lemma ReleaseTotals(s: State, who: nat)
    requires TotalsLaw(s) && Enabled(s, Release(who)) && Lists(s.books, s.log.live)
    ensures TotalsLaw(Next(s, Release(who)))
  {
    ReleaseEffect(s, who);
    SumMapPut(s.callers, Held(), who, Next(s, Release(who)).callers[who]);
  }

  lemma DetachTotals(s: State, d: DeviceId, who: nat)
    requires TotalsLaw(s) && Enabled(s, Detach(d, who))
    ensures TotalsLaw(Next(s, Detach(d, who)))
  {
    SM.ForgetLowersFloor(s.latest, d);
    SumMapPut(s.callers, Held(), who, Detached(d, Share(s.latest, d)));
  }

  /** A caller that holds no last read, before and after. */
  lemma CallerTotals(s: State, t: State, who: nat)
    requires TotalsLaw(s) && t.books.latestBytes == s.books.latestBytes && t.latest == s.latest
    requires t.writers == s.writers && t.log.surplus == s.log.surplus
    requires who in s.callers ==> !s.callers[who].Detached?
    requires t.callers == s.callers - {who} || (who in t.callers && !t.callers[who].Detached?
            && t.callers == s.callers[who := t.callers[who]])
    ensures TotalsLaw(t)
  {
    if who in s.callers {
      SumMapAt(s.callers, Held(), who);
    } else {
      assert s.callers - {who} == s.callers;
    }
    if who in t.callers {
      SumMapPut(s.callers, Held(), who, t.callers[who]);
    }
  }

  /** In every step what the books count and what is on its way to them stay in balance with `latest`. */
  lemma NextTotals(s: State, a: Action)
    requires TotalsLaw(s) && LedgerLaw(s) && WritersLaw(s) && Enabled(s, a)
    ensures TotalsLaw(Next(s, a))
  {
    var t := Next(s, a);
    match a
    case Begin(r) =>
      SumMapPut(s.writers, Added(), KeyOf(r), Writing(r));
      SumMapPut(s.writers, Taken(), KeyOf(r), Writing(r));
    case Insert(k) => InsertTotals(s, k);
    case File(k) => WriterTotals(s, t, k, t.writers[k]);
    case Settle(k, e) => SettleTotals(s, k, e);
    case Expire(before, e) =>
      ExpireEffect(s, before, e);
      CallerTotals(s, t, e);
    case Recap(b, e) =>
      var front := RecapEffect(s, b, e);
      CallerTotals(s, t, e);
    case Pop(e) => CallerTotals(s, t, e);
    case RemoveIf(e) => CallerTotals(s, t, e);
    case Finish(e) => CallerTotals(s, t, e);
    case Detach(d, e) => DetachTotals(s, d, e);
    case Release(e) => ReleaseTotals(s, e);
    case Clear(e) => CallerTotals(s, t, e);
  }

  // ---- Every run -----------------------------------------------------------------------

  ghost predicate Law(s: State) {
    && SideLaw(s) && TotalsLaw(s)
    && (forall k :: SomeOwed(s, k))
    && (forall k :: LatestLaw(s, k))
  }

  lemma StartAt(cap: Option<nat>, k: Key)
    ensures SeriesLaw(Start(cap), k, 0) && LatestLaw(Start(cap), k)
  {
    var none: seq<Read> := [];
    assert none + none == none;
  }

  lemma StartSide(cap: Option<nat>)
    ensures SideLaw(Start(cap)) && TotalsLaw(Start(cap))
  {
    assert Slots([]) == [];
  }

  lemma StartLaw(cap: Option<nat>)
    ensures Law(Start(cap)) && forall k :: SeriesLaw(Start(cap), k, 0)
  {
    StartSide(cap);
    forall k
      ensures SeriesLaw(Start(cap), k, 0) && SomeOwed(Start(cap), k) && LatestLaw(Start(cap), k)
    {
      StartAt(cap, k);
    }
  }

  /** Every critical section of every caller keeps the laws, whatever it overlaps. */
  lemma NextLaw(s: State, a: Action)
    requires Law(s) && Enabled(s, a)
    ensures Law(Next(s, a))
  {
    NextSide(s, a);
    NextTotals(s, a);
    forall k
      ensures SomeOwed(Next(s, a), k) && LatestLaw(Next(s, a), k)
    {
      assert SomeOwed(s, k) && LatestLaw(s, k);
      var owed: nat :| SeriesLaw(s, k, owed);
      NextSeries(s, a, k, owed);
      NextLatest(s, a, k);
    }
  }

  lemma {:induction false} RunLaw(s: State, acts: seq<Action>)
    requires Law(s) && IsRun(s, acts)
    ensures Law(Reached(s, acts))
    decreases |acts|
  {
    if acts != [] {
      NextLaw(s, acts[0]);
      RunLaw(Next(s, acts[0]), acts[1..]);
    }
  }

  /** Entries of series `k` that are gone and not paid for, read off the steps of a run. */
  ghost function Owed(s: State, acts: seq<Action>, k: Key, owed: nat): nat
    requires IsRun(s, acts)
    decreases |acts|
  {
    if acts == [] then owed else Owed(Next(s, acts[0]), acts[1..], k, OwedAfter(s, acts[0], k, owed))
  }

  lemma {:induction false} RunSeries(s: State, acts: seq<Action>, k: Key, owed: nat)
    requires Law(s) && IsRun(s, acts) && SeriesLaw(s, k, owed)
    ensures SeriesLaw(Reached(s, acts), k, Owed(s, acts, k, owed))
    decreases |acts|
  {
    if acts != [] {
      NextLaw(s, acts[0]);
      NextSeries(s, acts[0], k, owed);
      RunSeries(Next(s, acts[0]), acts[1..], k, OwedAfter(s, acts[0], k, owed));
    }
  }

  // ---- What readers see ------------------------------------------------------------------

  /** Stamps do not go back inside a series: each write is as late as every entry ever filed there. */
  ghost predicate Steady(s: State, acts: seq<Action>)
    requires IsRun(s, acts)
    decreases |acts|
  {
    acts == [] || ((acts[0].Begin? ==> SM.Follows(s.log.pushed, acts[0].read)) && Steady(Next(s, acts[0]), acts[1..]))
  }

  ghost predicate PushedInOrder(s: State) {
    && SM.SeriesSorted(s.log.pushed)
    && forall k :: k in s.writers && !s.writers[k].Settling? ==> SM.Follows(s.log.pushed, s.writers[k].read)
  }

  lemma NextInOrder(s: State, a: Action)
    requires PushedInOrder(s) && WritersLaw(s) && Enabled(s, a) && (a.Begin? ==> SM.Follows(s.log.pushed, a.read))
    ensures PushedInOrder(Next(s, a))
  {
    if a.File? {
      SM.AppendSorted(s.log.pushed, s.writers[a.key].read);
    }
  }

  lemma {:induction false} RunInOrder(s: State, acts: seq<Action>)
    requires Law(s) && PushedInOrder(s) && IsRun(s, acts) && Steady(s, acts)
    ensures PushedInOrder(Reached(s, acts))
    decreases |acts|
  {
    if acts != [] {
      NextLaw(s, acts[0]);
      NextInOrder(s, acts[0]);
      RunInOrder(Next(s, acts[0]), acts[1..]);
    }
  }

  /** What `between` answers in a state: one guard on `history`, nothing else read. */
  function Answer(s: State, k: Key, span: MS.TimeSpan): seq<Read> {
    Filter(SeriesOf(s.history, k), MS.Within(span))
  }

  lemma {:induction false} SortedFilter(series: seq<Read>, p: Read -> bool)
    requires SM.Sorted(series)
    ensures SM.Sorted(Filter(series, p))
  {
    if series != [] {
      var rest := series[1..];
      forall i, j | 0 <= i < j < |rest|
        ensures !Text.Before(rest[j].at, rest[i].at)
      {
        assert rest[i] == series[i + 1] && rest[j] == series[j + 1];
      }
      SortedFilter(rest, p);
      var kept := Filter(rest, p);
      forall j | 0 <= j < |kept|
        ensures !Text.Before(kept[j].at, series[0].at)
      {
        FilterMember(rest, p, kept[j]);
        var i :| 0 <= i < |rest| && rest[i] == kept[j];
        assert rest[i] == series[i + 1];
      }
    }
  }

  /** In every state of every run whose stamps do not go back, a reader's answer is oldest first. */
  lemma ReaderInOrder(cap: Option<nat>, acts: seq<Action>, k: Key, span: MS.TimeSpan)
    requires IsRun(Start(cap), acts) && Steady(Start(cap), acts)
    ensures SM.Sorted(Answer(Reached(Start(cap), acts), k, span))
  {
    StartLaw(cap);
    RunSeries(Start(cap), acts, k, 0);
    RunInOrder(Start(cap), acts);
    var s := Reached(Start(cap), acts);
    SM.ProjectionSorted(s.log.pushed, k);
    SortedBack(Filter(s.log.pushed, OfKey(k)), Filter(s.log.dropped, OfKey(k)), SeriesOf(s.history, k));
    SortedFilter(SeriesOf(s.history, k), MS.Within(span));
  }

  lemma SortedBack(all: seq<Read>, front: seq<Read>, back: seq<Read>)
    requires SM.Sorted(all) && all == front + back
    ensures SM.Sorted(back)
  {
    forall i, j | 0 <= i < j < |back|
      ensures !Text.Before(back[j].at, back[i].at)
    {
      assert all[|front| + i] == back[i] && all[|front| + j] == back[j];
    }
  }

  // ---- Callers under way can finish ------------------------------------------------

  function WriterWork(): Write -> nat {
    (w: Write) => match w case Writing(_) => 3 case Filing(_, _) => 2 case Settling(_, _) => 1
  }

  function CallerWork(): Caller -> nat {
    (c: Caller) =>
      match c
      case Popping(slots, vacating) => 2 * |slots| + (if vacating.Some? then 2 else 1)
      case Detached(_, _) => 2
      case Clearing(_, _) => 1
  }

  /** The action a caller takes next. */
  function CallerStep(e: nat, c: Caller): Action {
    match c
    case Popping(slots, vacating) => if vacating.Some? then RemoveIf(e) else if slots != [] then Pop(e) else Finish(e)
    case Detached(_, _) => Release(e)
    case Clearing(_, _) => Clear(e)
  }

  lemma CallerSteps(s: State, e: nat)
    requires e in s.callers
    ensures var a := CallerStep(e, s.callers[e]);
            && Enabled(s, a) && !Starts(a) && Next(s, a).writers == s.writers
            && SumMap(Next(s, a).callers, CallerWork()) < SumMap(s.callers, CallerWork())
  {
    var t := Next(s, CallerStep(e, s.callers[e]));
    SumMapAt(s.callers, CallerWork(), e);
    if e in t.callers {
      SumMapPut(s.callers, CallerWork(), e, t.callers[e]);
    }
  }

  /** The action a write takes next, when no other caller is under way. */
  function WriterStep(k: Key, w: Write): Action {
    match w
    case Writing(_) => Insert(k)
    case Filing(_, _) => File(k)
    case Settling(_, _) => Settle(k, 0)
  }

  lemma WriterSteps(s: State, k: Key)
    requires k in s.writers && s.callers == map[]
    ensures var a := WriterStep(k, s.writers[k]);
            && Enabled(s, a) && !Starts(a)
            && SumMap(Next(s, a).writers, WriterWork()) < SumMap(s.writers, WriterWork())
  {
    var t := Next(s, WriterStep(k, s.writers[k]));
    SumMapAt(s.writers, WriterWork(), k);
    if k in t.writers {
      SumMapPut(s.writers, WriterWork(), k, t.writers[k]);
    }
  }

  predicate Starts(a: Action) {
    a.Begin? || a.Expire? || a.Recap? || a.Detach?
  }

  lemma PrependStep(s: State, a: Action, rest: seq<Action>)
    requires Enabled(s, a) && IsRun(Next(s, a), rest)
    ensures IsRun(s, [a] + rest) && Reached(s, [a] + rest) == Reached(Next(s, a), rest)
  {
    assert ([a] + rest)[1..] == rest;
  }

  ghost predicate NothingStarted(acts: seq<Action>) {
    forall i :: 0 <= i < |acts| ==> !Starts(acts[i])
  }

  /**
   From every state the callers under way can finish by their own next actions, with no new
   operation started.
   */
  lemma CanFinish(s: State) returns (acts: seq<Action>)
    ensures IsRun(s, acts) && Quiescent(Reached(s, acts)) && NothingStarted(acts)
    decreases SumMap(s.writers, WriterWork()), SumMap(s.callers, CallerWork())
  {
    acts := [];
    if s.callers != map[] || s.writers != map[] {
      var a: Action;
      if s.callers != map[] {
        var e :| e in s.callers;
        CallerSteps(s, e);
        a := CallerStep(e, s.callers[e]);
      } else {
        var k :| k in s.writers;
        WriterSteps(s, k);
        a := WriterStep(k, s.writers[k]);
      }
      var rest := CanFinish(Next(s, a));
      PrependStep(s, a, rest);
      acts := [a] + rest;
    }
  }
}
