/**
 Removals among other callers: a condition on the overlaps that is enough for a run to be sound, and
 runs in which an overlap does harm, or none.
 */
module Removal {
  import opened Base
  import opened Reads
  import opened History
  import opened Ledger
  import opened Interleaving
  import opened Overlap
  import SM = StoreModel
  import MS = MemoryStore

  /** A removal of `d` has taken the last reads and not told the ledger. */
  predicate Holds(callers: map<nat, Caller>, e: nat, d: DeviceId) {
    e in callers && callers[e].Detached? && callers[e].device == d
  }

  ghost predicate Detaching(callers: map<nat, Caller>, d: DeviceId) {
    exists e :: Holds(callers, e, d)
  }

  /** Nothing of series `k` is live, on its way, or claimed by a caller other than `e`. */
  ghost predicate NothingElse(s: State, e: nat, k: Key) {
    && Filter(s.log.live, OfKey(k)) == []
    && Waiting(s.writers, k) == []
    && Pending(s.callers - {e}, k) == 0
  }

  /**
   Overlaps a removal is sure to survive. No write is admitted while a removal of its device holds the
   last reads; none of the device is past its insert, and no other removal holds any, when a removal
   takes them; and it clears nothing but its own claims.
   */
  ghost predicate Clean(s: State, a: Action)
    requires Enabled(s, a)
  {
    match a
    case Settle(k, _) => !Detaching(s.callers, k.device)
    case Detach(d, _) =>
      && (forall k :: Inserted(s.writers, k) ==> k.device != d)
      && (forall e :: Holds(s.callers, e, d) ==> s.callers[e].held == map[])
    case Clear(e) => forall k: Key :: k.device == s.callers[e].device ==> NothingElse(s, e, k)
    case Begin(_) => true
    case Insert(_) => true
    case File(_) => true
    case Expire(_, _) => true
    case Recap(_, _) => true
    case Pop(_) => true
    case RemoveIf(_) => true
    case Finish(_) => true
    case Release(_) => true
  }

  ghost predicate IsClean(s: State, acts: seq<Action>)
    requires IsRun(s, acts)
    decreases |acts|
  {
    acts == [] || (Clean(s, acts[0]) && IsClean(Next(s, acts[0]), acts[1..]))
  }

  // ---- What clean steps keep ---------------------------------------------------------

  ghost predicate SameAt(a: map<Key, Read>, b: map<Key, Read>, k: Key) {
    SM.Lookup(a, k) == SM.Lookup(b, k)
  }

  /** The last read of one field, against the one the books count. */
  ghost predicate LatestRight(s: State, k: Key) {
    if Inserted(s.writers, k) then
      && k in s.latest && s.latest[k] == s.writers[k].read
      && s.writers[k].displaced == (if Detaching(s.callers, k.device) then 0 else Displaced(Ref(s).latest, k))
    else if Detaching(s.callers, k.device) then k !in s.latest
    else SameAt(s.latest, Ref(s).latest, k)
  }

  /** A removal holds exactly what the books count of its device; two hold something only if one holds nothing. */
  ghost predicate HeldRight(s: State) {
    && (forall e, d :: Holds(s.callers, e, d) ==> s.callers[e].held == Share(Ref(s).latest, d))
    && (forall e, f, d :: Holds(s.callers, e, d) && Holds(s.callers, f, d) && e != f ==> s.callers[e].held == map[])
  }

  ghost predicate Undisturbed(s: State) {
    HeldRight(s) && forall k :: LatestRight(s, k)
  }

  ghost predicate SameHolders(a: map<nat, Caller>, b: map<nat, Caller>) {
    forall e, d :: (Holds(a, e, d) <==> Holds(b, e, d)) && (Holds(a, e, d) ==> a[e] == b[e])
  }

  /** `b` is `a` without the removal `who`. */
  ghost predicate OneHolderLess(a: map<nat, Caller>, b: map<nat, Caller>, who: nat) {
    forall e, d :: (Holds(b, e, d) <==> Holds(a, e, d) && e != who) && (Holds(b, e, d) ==> b[e] == a[e])
  }

  lemma SameDetaching(a: map<nat, Caller>, b: map<nat, Caller>, d: DeviceId)
    requires SameHolders(a, b)
    ensures Detaching(a, d) <==> Detaching(b, d)
  {
  }

  /** A step that moves no last read, here or in the books. */
  lemma UndisturbedFrame(s: State, t: State)
    requires Undisturbed(s) && t.latest == s.latest && t.writers == s.writers
    requires Ref(t).latest == Ref(s).latest && SameHolders(s.callers, t.callers)
    ensures Undisturbed(t)
  {
    forall k
      ensures LatestRight(t, k)
    {
      assert LatestRight(s, k);
      SameDetaching(s.callers, t.callers, k.device);
    }
  }

  lemma StepLatest(m: SM.Model, e: SM.Event)
    ensures SM.Step(m, e).latest ==
            if e.Wrote? then m.latest[KeyOf(e.read) := e.read]
            else if e.Forgot? then m.latest - SM.KeysOfDevice(m.latest, e.device)
            else m.latest
  {
    if e.Wrote? {
      EnforceSheds(Filed(m, e.read));
    } else if e.Recapped? {
      EnforceSheds(m.(budget := e.budget));
    }
  }

  /** The reference's last reads after a step. */
  lemma RefLatest(s: State, a: Action)
    requires Enabled(s, a)
    ensures a.Settle? ==> Ref(Next(s, a)).latest == Ref(s).latest[KeyOf(s.writers[a.key].read) := s.writers[a.key].read]
    ensures a.Release? ==> Ref(Next(s, a)).latest
                           == Ref(s).latest - SM.KeysOfDevice(Ref(s).latest, s.callers[a.who].device)
    ensures !a.Settle? && !a.Release? ==> Ref(Next(s, a)).latest == Ref(s).latest
  {
    TraceStep(s, a);
    var steps := StepOf(s, a);
    if steps == [] {
      assert s.log.trace + steps == s.log.trace;
    } else {
      assert steps == [steps[0]];
      SM.RunSnoc(SM.Empty(s.log.cap), s.log.trace, steps[0]);
      StepLatest(Ref(s), steps[0]);
    }
  }

  lemma StillUndisturbed(s: State, a: Action)
    requires Undisturbed(s) && Enabled(s, a)
    requires a.Expire? || a.Recap? || a.Pop? || a.RemoveIf? || a.Finish? || a.Clear?
    ensures Undisturbed(Next(s, a))
  {
    RefLatest(s, a);
    UndisturbedFrame(s, Next(s, a));
  }

  lemma WriteUndisturbed(s: State, a: Action)
    requires Undisturbed(s) && WritersLaw(s) && Enabled(s, a) && (a.Begin? || a.Insert? || a.File?)
    ensures Undisturbed(Next(s, a))
  {
    RefLatest(s, a);
    forall k
      ensures LatestRight(Next(s, a), k)
    {
      assert LatestRight(s, k);
    }
  }

  lemma SettleLatest(s: State, t: State, key: Key, k: Key)
    requires LatestRight(s, k) && LatestRight(s, key) && Inserted(s.writers, key) && !Detaching(s.callers, key.device)
    requires t.latest == s.latest && t.writers == s.writers - {key} && SameHolders(s.callers, t.callers)
    requires Ref(t).latest == Ref(s).latest[key := s.writers[key].read]
    ensures LatestRight(t, k)
  {
    SameDetaching(s.callers, t.callers, k.device);
  }

  lemma SettleHeld(s: State, t: State, key: Key, r: Read)
    requires HeldRight(s) && SameHolders(s.callers, t.callers) && !Detaching(s.callers, key.device)
    requires Ref(t).latest == Ref(s).latest[key := r]
    ensures HeldRight(t)
  {
    forall e, d | Holds(t.callers, e, d)
      ensures Share(Ref(t).latest, d) == Share(Ref(s).latest, d)
    {
      assert Holds(s.callers, e, d);
      assert d != key.device;
    }
  }

  lemma ReplacedCaller(a: map<nat, Caller>, who: nat, c: Caller)
    requires !c.Detached?
    ensures who !in a ==> SameHolders(a, a[who := c])
    ensures OneHolderLess(a, a[who := c], who)
  {
  }

  lemma SettleUndisturbed(s: State, key: Key, who: nat)
    requires Undisturbed(s) && WritersLaw(s) && Enabled(s, Settle(key, who)) && Clean(s, Settle(key, who))
    ensures Undisturbed(Next(s, Settle(key, who)))
  {
    var t := Next(s, Settle(key, who));
    RefLatest(s, Settle(key, who));
    ReplacedCaller(s.callers, who, t.callers[who]);
    forall k
      ensures LatestRight(t, k)
    {
      assert LatestRight(s, k) && LatestRight(s, key);
      SettleLatest(s, t, key, k);
    }
    SettleHeld(s, t, key, s.writers[key].read);
  }

  /** With none of the device's writes past its insert, what is taken is what the books count. */
  lemma DetachTakesShare(s: State, d: DeviceId, who: nat)
    requires Undisturbed(s) && Enabled(s, Detach(d, who)) && Clean(s, Detach(d, who))
    ensures Share(s.latest, d) == Share(Ref(s).latest, d)
    ensures Detaching(s.callers, d) ==> Share(s.latest, d) == map[]
  {
    forall k: Key | k.device == d
      ensures if Detaching(s.callers, d) then k !in s.latest && k !in Ref(s).latest
              else SameAt(s.latest, Ref(s).latest, k)
    {
      assert LatestRight(s, k);
      if Detaching(s.callers, d) {
        var e :| Holds(s.callers, e, d);
        assert k !in Share(Ref(s).latest, d);
      }
    }
  }

  lemma DetachLatest(s: State, d: DeviceId, who: nat, k: Key)
    requires LatestRight(s, k) && Enabled(s, Detach(d, who)) && Clean(s, Detach(d, who))
    ensures LatestRight(Next(s, Detach(d, who)), k)
  {
    var t := Next(s, Detach(d, who));
    RefLatest(s, Detach(d, who));
    assert Holds(t.callers, who, d);
    if k.device != d {
      forall e
        ensures Holds(s.callers, e, k.device) <==> Holds(t.callers, e, k.device)
      {
      }
    }
  }

  lemma DetachUndisturbed(s: State, d: DeviceId, who: nat)
    requires Undisturbed(s) && Enabled(s, Detach(d, who)) && Clean(s, Detach(d, who))
    ensures Undisturbed(Next(s, Detach(d, who)))
  {
    var t := Next(s, Detach(d, who));
    RefLatest(s, Detach(d, who));
    DetachTakesShare(s, d, who);
    forall k
      ensures LatestRight(t, k)
    {
      assert LatestRight(s, k);
      DetachLatest(s, d, who, k);
    }
    forall e, x | Holds(t.callers, e, x)
      ensures t.callers[e].held == Share(Ref(t).latest, x)
    {
      assert e != who ==> Holds(s.callers, e, x);
    }
    forall e, f, x | Holds(t.callers, e, x) && Holds(t.callers, f, x) && e != f
      ensures t.callers[e].held == map[]
    {
      assert (e != who ==> Holds(s.callers, e, x)) && (f != who ==> Holds(s.callers, f, x));
    }
  }

  lemma ReleaseLatest(s: State, t: State, who: nat, d: DeviceId, k: Key)
    requires LatestRight(s, k) && HeldRight(s) && Holds(s.callers, who, d)
    requires t.latest == s.latest && t.writers == s.writers
    requires Ref(t).latest == Ref(s).latest - SM.KeysOfDevice(Ref(s).latest, d)
    requires OneHolderLess(s.callers, t.callers, who)
    ensures LatestRight(t, k)
  {
    if k.device != d {
      forall e
        ensures Holds(s.callers, e, k.device) <==> Holds(t.callers, e, k.device)
      {
      }
    }
  }

  lemma ReleaseHeld(s: State, t: State, who: nat, d: DeviceId)
    requires HeldRight(s) && Holds(s.callers, who, d) && OneHolderLess(s.callers, t.callers, who)
    requires Ref(t).latest == Ref(s).latest - SM.KeysOfDevice(Ref(s).latest, d)
    ensures HeldRight(t)
  {
    forall e, x | Holds(t.callers, e, x)
      ensures t.callers[e].held == Share(Ref(t).latest, x)
    {
      assert Holds(s.callers, e, x);
      if x != d {
        assert Share(Ref(t).latest, x) == Share(Ref(s).latest, x);
      } else {
        assert Share(Ref(t).latest, x) == map[];
      }
    }
  }

  lemma ReleaseUndisturbed(s: State, who: nat)
    requires Undisturbed(s) && Enabled(s, Release(who))
    ensures Undisturbed(Next(s, Release(who)))
  {
    var t, d := Next(s, Release(who)), s.callers[who].device;
    RefLatest(s, Release(who));
    assert Holds(s.callers, who, d);
    ReplacedCaller(s.callers, who, t.callers[who]);
    forall k
      ensures LatestRight(t, k)
    {
      assert LatestRight(s, k);
      ReleaseLatest(s, t, who, d, k);
    }
    ReleaseHeld(s, t, who, d);
  }

  lemma StepUndisturbed(s: State, a: Action)
    requires Undisturbed(s) && WritersLaw(s) && Enabled(s, a) && Clean(s, a)
    ensures Undisturbed(Next(s, a))
  {
    match a
    case Settle(k, e) => SettleUndisturbed(s, k, e);
    case Detach(d, e) => DetachUndisturbed(s, d, e);
    case Release(e) => ReleaseUndisturbed(s, e);
    case Begin(_) => WriteUndisturbed(s, a);
    case Insert(_) => WriteUndisturbed(s, a);
    case File(_) => WriteUndisturbed(s, a);
    case Expire(_, _) => StillUndisturbed(s, a);
    case Recap(_, _) => StillUndisturbed(s, a);
    case Pop(_) => StillUndisturbed(s, a);
    case RemoveIf(_) => StillUndisturbed(s, a);
    case Finish(_) => StillUndisturbed(s, a);
    case Clear(_) => StillUndisturbed(s, a);
  }

  /** A clean step hands the ledger the figures it counts, and leaves nothing owed. */
  lemma CleanCounts(s: State, a: Action)
    requires Undisturbed(s) && Enabled(s, a) && Clean(s, a)
    ensures CountsRight(s, a) && forall k :: OwedAfter(s, a, k, 0) == 0
  {
    if a.Settle? {
      assert LatestRight(s, a.key);
    } else if a.Release? {
      assert Holds(s.callers, a.who, s.callers[a.who].device);
    } else if a.Clear? {
      forall k: Key
        ensures OwedAfter(s, a, k, 0) == 0
      {
        assert k.device == s.callers[a.who].device ==> NothingElse(s, a.who, k);
      }
    }
  }

  lemma {:induction false} CleanRun(s: State, acts: seq<Action>)
    requires Law(s) && Undisturbed(s) && IsRun(s, acts) && IsClean(s, acts)
    ensures AlwaysCountsRight(s, acts) && Undisturbed(Reached(s, acts))
    ensures forall k :: Owed(s, acts, k, 0) == 0
    decreases |acts|
  {
    if acts != [] {
      NextLaw(s, acts[0]);
      StepUndisturbed(s, acts[0]);
      CleanCounts(s, acts[0]);
      CleanRun(Next(s, acts[0]), acts[1..]);
    }
  }

  /**
   A clean run counts right and owes nothing in every state. Once its callers have finished, it was
   and left what one caller would have left in the order of the ledger's lock.
   */
  lemma CleanIsEnough(cap: Option<nat>, acts: seq<Action>)
    requires IsRun(Start(cap), acts) && IsClean(Start(cap), acts)
    ensures AlwaysStands(Start(cap), acts) && NothingOwed(Start(cap), acts)
    ensures var s, sequential := Reached(Start(cap), acts), SM.Run(SM.Empty(cap), LedgerSteps(Start(cap), acts));
            Quiescent(s) ==> MS.Agrees(s.latest, s.history, s.books, sequential)
  {
    var s := Reached(Start(cap), acts);
    StartLaw(cap);
    CleanRun(Start(cap), acts);
    BooksExact(cap, acts);
    if Quiescent(s) {
      RunLaw(Start(cap), acts);
      forall k
        ensures Uncrossed(s, k)
      {
        assert LatestRight(s, k);
        SM.LatestIsLastWrite(s.log.cap, s.log.trace, k);
        LatestExact(cap, acts, k);
      }
      Linearizable(cap, acts);
    }
  }

  // ---- Which runs are clean ------------------------------------------------------------

  predicate NoRemovals(s: State) {
    forall e :: e in s.callers ==> s.callers[e].Popping?
  }

  lemma NextNoRemovals(s: State, a: Action)
    requires NoRemovals(s) && Enabled(s, a) && !a.Detach?
    ensures Clean(s, a) && NoRemovals(Next(s, a))
  {
  }

  /** Writes, sweeps and re-caps are clean, however they interleave. */
  lemma {:induction false} NoRemovalIsClean(s: State, acts: seq<Action>)
    requires NoRemovals(s) && IsRun(s, acts) && forall i :: 0 <= i < |acts| ==> !acts[i].Detach?
    ensures IsClean(s, acts)
    decreases |acts|
  {
    if acts != [] {
      NextNoRemovals(s, acts[0]);
      NoRemovalIsClean(Next(s, acts[0]), acts[1..]);
    }
  }

  lemma ReleasedIsAlone(s: State, who: nat, k: Key)
    requires Lists(s.books, s.log.live) && Enabled(s, Release(who)) && k.device == s.callers[who].device
    requires k !in s.writers && Pending(s.callers, k) == 0
    ensures NothingElse(Next(s, Release(who)), who, k)
  {
    var t := Next(s, Release(who));
    ReleaseEffect(s, who);
    ForgettingClearsDevice(s.log.live, k.device, k);
    SumMapAt(s.callers, OnKey(k), who);
    assert t.callers - {who} == s.callers - {who};
  }

  /** A removal that overlaps no write, claim or removal of its device is clean from end to end. */
  lemma AloneIsClean(s: State, d: DeviceId, who: nat)
    requires LedgerLaw(s) && who !in s.callers
    requires forall k :: k in s.writers ==> k.device != d
    requires forall e :: !Holds(s.callers, e, d)
    requires forall k: Key :: k.device == d ==> Pending(s.callers, k) == 0
    ensures var acts := [Detach(d, who)] + ([Release(who)] + ([Clear(who)] + []));
            IsRun(s, acts) && IsClean(s, acts)
  {
    var s1 := Next(s, Detach(d, who));
    var s2 := Next(s1, Release(who));
    forall k: Key | k.device == d
      ensures NothingElse(s2, who, k)
    {
      SumMapPut(s.callers, OnKey(k), who, Detached(d, Share(s.latest, d)));
      ReleasedIsAlone(s1, who, k);
    }
    CleanStep(s2, Clear(who), []);
    CleanStep(s1, Release(who), [Clear(who)] + []);
    CleanStep(s, Detach(d, who), [Release(who)] + ([Clear(who)] + []));
  }

  lemma CleanStep(s: State, a: Action, rest: seq<Action>)
    requires Enabled(s, a) && Clean(s, a) && IsRun(Next(s, a), rest) && IsClean(Next(s, a), rest)
    ensures IsRun(s, [a] + rest) && IsClean(s, [a] + rest)
  {
    assert ([a] + rest)[1..] == rest;
  }

  // ---- Runs that overlap -----------------------------------------------------------

  lemma {:induction false} AppendStep(s: State, acts: seq<Action>, a: Action)
    requires IsRun(s, acts) && Enabled(Reached(s, acts), a)
    ensures IsRun(s, acts + [a]) && Reached(s, acts + [a]) == Next(Reached(s, acts), a)
    decreases |acts|
  {
    if acts == [] {
      assert [a][1..] == [] && acts + [a] == [a];
    } else {
      AppendStep(Next(s, acts[0]), acts[1..], a);
      assert (acts + [a])[1..] == acts[1..] + [a];
    }
  }

  /** A run of the unbounded store, and the state it leads to. */
  ghost predicate Leads(acts: seq<Action>, s: State) {
    IsRun(Start(None), acts) && Reached(Start(None), acts) == s
  }

  lemma Take(acts: seq<Action>, s: State, a: Action) returns (more: seq<Action>, t: State)
    requires Leads(acts, s) && Enabled(s, a)
    ensures Leads(more, t) && t == Next(s, a) && more == acts + [a]
  {
    AppendStep(Start(None), acts, a);
    more, t := acts + [a], Next(s, a);
  }

  /** A write from insert to admission, in a store with no cap: one slot and nothing claimed. */
  lemma TakeWrite(acts: seq<Action>, s: State, r: Read, who: nat) returns (more: seq<Action>, t: State)
    requires Leads(acts, s) && s.books.budget == None && who !in s.callers
    requires KeyOf(r) in s.writers && s.writers[KeyOf(r)] == Writing(r)
    ensures Leads(more, t)
    ensures t.latest == s.latest[KeyOf(r) := r] && t.history == Push(s.history, r)
    ensures t.writers == s.writers - {KeyOf(r)} && t.callers == s.callers[who := Popping([], None)]
    ensures t.books == s.books.Admit(LatestBytes(r), Displaced(s.latest, KeyOf(r)), SlotOf(r)).0
    ensures t.log.cap == s.log.cap && t.log.trace == s.log.trace + [SM.Wrote(r)]
    ensures t.log.live == s.log.live + [r]
  {
    var k := KeyOf(r);
    var s1, s2;
    more, s1 := Take(acts, s, Insert(k));
    more, s2 := Take(more, s1, File(k));
    more, t := Take(more, s2, Settle(k, who));
    assert s2.writers - {k} == s.writers - {k};
  }

  lemma RemovedEmpty(r: Read) returns (acts: seq<Action>, s: State)
    ensures Leads(acts, s) && s.latest == map[] && s.history == map[]
    ensures s.writers == map[KeyOf(r) := Writing(r)] && s.callers == map[0 := Clearing(r.device, [])]
    ensures s.books == Books(None, [], 0, 0, 0)
  {
    acts, s := [], Start(None);
    acts, s := Take(acts, s, Begin(r));
    acts, s := Take(acts, s, Detach(r.device, 0));
    assert s.latest == map[] && s.callers == map[0 := Detached(r.device, map[])];
    acts, s := Take(acts, s, Release(0));
  }

  lemma RemovedThenWritten(r: Read) returns (acts: seq<Action>, s: State)
    ensures Leads(acts, s) && s.writers == map[] && s.books.queue == [SlotOf(r)]
    ensures s.callers == map[0 := Clearing(r.device, []), 1 := Popping([], None)]
  {
    acts, s := RemovedEmpty(r);
    acts, s := TakeWrite(acts, s, r, 1);
  }

  /**
   The history half: a write admitted after the ledger counted its device out and filed before the
   history is cleared keeps its slot and loses its entry, with every caller finished.
   */
  lemma OverlapLosesEntry(r: Read) returns (acts: seq<Action>, s: State)
    ensures Leads(acts, s) && Quiescent(s)
    ensures s.books.queue == [SlotOf(r)] && SeriesOf(s.history, KeyOf(r)) == []
  {
    acts, s := RemovedThenWritten(r);
    acts, s := Take(acts, s, Clear(0));
    acts, s := Take(acts, s, Finish(1));
  }

  lemma FloorOfOne(r: Read)
    ensures SM.Floor(map[KeyOf(r) := r]) == LatestBytes(r)
  {
    var none: map<Key, Read> := map[];
    SumMapPut(none, LatestBytes, KeyOf(r), r);
    assert none[KeyOf(r) := r] == map[KeyOf(r) := r];
  }

  /** One read recorded, every caller finished. */
  lemma OneWritten(b: Read) returns (acts: seq<Action>, s: State)
    ensures Leads(acts, s) && Quiescent(s) && s.log.cap == None && s.log.trace == [SM.Wrote(b)] && s.log.live == [b]
    ensures s.latest == map[KeyOf(b) := b] && s.history == Push(map[], b)
    ensures s.books == Books(None, [SlotOf(b)], HistoryBytes(b), LatestBytes(b), 0)
  {
    acts, s := [], Start(None);
    acts, s := Take(acts, s, Begin(b));
    acts, s := TakeWrite(acts, s, b, 0);
    acts, s := Take(acts, s, Finish(0));
  }

  lemma OneLive(s: State, b: Read)
    requires s.log.cap == None && s.log.trace == [SM.Wrote(b)]
    ensures Ref(s).entries == [b] && Ref(s).latest == map[KeyOf(b) := b]
  {
    SM.RunSnoc(SM.Empty(None), [], SM.Wrote(b));
    assert [] + [SM.Wrote(b)] == [SM.Wrote(b)];
  }

  /** The books of one write, once its device is counted out with at least what it is counted for. */
  lemma ForgetOne(b: Read, given: nat)
    requires given >= LatestBytes(b)
    ensures Books(None, [SlotOf(b)], HistoryBytes(b), LatestBytes(b), 0).Forget(b.device, given).0
            == Books(None, [], 0, 0, 0)
  {
    var q, p := [SlotOf(b)], SlotOfDevice(b.device);
    assert q[1..] == [] && p(q[0]);
    assert Filter(q[1..], p) == [] && Filter(q[1..], Negate(p)) == [];
    assert Filter(q, p) == q && Filter(q, Negate(p)) == [];
    assert q[..|q| - 1] == [] && Drain(HistoryBytes(b), []) == HistoryBytes(b);
    assert Drain(HistoryBytes(b), q) == SaturatingSub(HistoryBytes(b), q[0].bytes) == 0;
  }

  lemma InsertedOver(b: Read, r: Read) returns (acts: seq<Action>, s: State)
    requires KeyOf(b) == KeyOf(r) && SM.Follows([b], r)
    ensures Leads(acts, s) && s.latest == map[KeyOf(r) := r] && s.history == Push(map[], b) && s.callers == map[]
    ensures s.writers == map[KeyOf(r) := Filing(r, LatestBytes(b))]
    ensures s.log.live == [b]
    ensures s.books == Books(None, [SlotOf(b)], HistoryBytes(b), LatestBytes(b), 0)
  {
    acts, s := OneWritten(b);
    acts, s := Take(acts, s, Begin(r));
    acts, s := Take(acts, s, Insert(KeyOf(r)));
  }

  /** A second read of the field inserted, and its device's last reads then taken, before it is filed. */
  lemma InsertedThenHeld(b: Read, r: Read) returns (acts: seq<Action>, s: State)
    requires KeyOf(b) == KeyOf(r) && SM.Follows([b], r)
    ensures Leads(acts, s) && s.latest == map[] && s.history == Push(map[], b)
    ensures s.callers == map[0 := Detached(r.device, map[KeyOf(r) := r])]
    ensures s.writers == map[KeyOf(r) := Filing(r, LatestBytes(b))]
    ensures s.log.live == [b]
    ensures s.books == Books(None, [SlotOf(b)], HistoryBytes(b), LatestBytes(b), 0)
  {
    acts, s := InsertedOver(b, r);
    acts, s := Take(acts, s, Detach(r.device, 0));
    assert s.latest == map[] && s.callers[0].held == map[KeyOf(r) := r];
  }

  lemma InsertedThenRemoved(b: Read, r: Read) returns (acts: seq<Action>, s: State)
    requires KeyOf(b) == KeyOf(r) && SM.Follows([b], r) && LatestBytes(r) > LatestBytes(b)
    ensures Leads(acts, s) && s.latest == map[] && s.history == map[] && s.callers == map[]
    ensures s.writers == map[KeyOf(r) := Filing(r, LatestBytes(b))]
    ensures s.books == Books(None, [], 0, 0, 0)
  {
    acts, s := InsertedThenHeld(b, r);
    FloorOfOne(r);
    ForgetOne(b, LatestBytes(r));
    acts, s := Take(acts, s, Release(0));
    assert s.callers.Keys == {0} && s.history.Keys == {r.device};
    acts, s := Take(acts, s, Clear(0));
  }

  /**
   The last-read half: a write past its insert when its device is removed, of a read larger than the
   one it displaced. The subtraction saturates, and once every caller has finished the books count
   bytes of last reads although there is none.
   */
  lemma OverlapMiscounts(b: Read, r: Read) returns (acts: seq<Action>, s: State)
    requires KeyOf(b) == KeyOf(r) && SM.Follows([b], r) && LatestBytes(r) > LatestBytes(b)
    ensures Leads(acts, s) && Quiescent(s)
    ensures s.latest == map[] && s.books.latestBytes == LatestBytes(r) - LatestBytes(b) > 0
  {
    var k := KeyOf(r);
    acts, s := InsertedThenRemoved(b, r);
    acts, s := Take(acts, s, File(k));
    acts, s := Take(acts, s, Settle(k, 1));
    assert s.writers == map[];
    acts, s := Take(acts, s, Finish(1));
    assert s.callers == map[];
  }

  lemma WrittenWhileHeld(r: Read) returns (acts: seq<Action>, s: State)
    ensures Leads(acts, s) && s.log.cap == None && s.log.trace == [SM.Wrote(r)] && s.writers == map[]
    ensures s.latest == map[KeyOf(r) := r] && s.history == Push(map[], r)
    ensures s.callers == map[0 := Detached(r.device, map[]), 1 := Popping([], None)]
    ensures s.books == Books(None, [SlotOf(r)], HistoryBytes(r), LatestBytes(r), 0)
  {
    acts, s := [], Start(None);
    acts, s := Take(acts, s, Begin(r));
    acts, s := Take(acts, s, Detach(r.device, 0));
    assert s.latest == map[] && s.callers == map[0 := Detached(r.device, map[])];
    acts, s := TakeWrite(acts, s, r, 1);
  }

  /** Counting a device out takes it from the reference, whatever was held. */
  lemma ReleasedLatest(s: State, r: Read, who: nat)
    requires s.log.cap == None && s.log.trace == [SM.Wrote(r)] && Enabled(s, Release(who))
            && s.callers[who].device == r.device
    ensures Ref(Next(s, Release(who))).latest == map[]
  {
    OneLive(s, r);
    SM.RunSnoc(SM.Empty(None), s.log.trace, SM.Forgot(r.device));
  }

  /** Counting out a device whose one read was recorded while its last reads were held. */
  lemma ForgetUnheld(r: Read)
    ensures Books(None, [SlotOf(r)], HistoryBytes(r), LatestBytes(r), 0).Forget(r.device, 0).0
         == Books(None, [], 0, LatestBytes(r), 0)
  {
    ForgetOne(r, LatestBytes(r));
    var b := Books(None, [SlotOf(r)], HistoryBytes(r), LatestBytes(r), 0);
    ForgetRest(b, r.device, 0, LatestBytes(r));
  }

  /**
   The ledger half: a write inserted and admitted while a removal holds the last reads. The removal
   claims its entry and leaves its last read, so the device still answers after it was forgotten.
   */
  lemma OverlapOutlivesRemoval(r: Read) returns (acts: seq<Action>, s: State)
    ensures Leads(acts, s) && Quiescent(s)
    ensures s.latest == map[KeyOf(r) := r] && s.history == map[] && s.books.queue == []
    ensures Ref(s).latest == map[]
  {
    acts, s := WrittenWhileHeld(r);
    ReleasedLatest(s, r, 0);
    ForgetUnheld(r);
    acts, s := Take(acts, s, Release(0));
    assert s.history.Keys == {r.device};
    acts, s := Take(acts, s, Clear(0));
    assert s.callers == map[1 := Popping([], None)];
    acts, s := Take(acts, s, Finish(1));
  }

  lemma BothGone(b: Read, r: Read)
    requires b.device == r.device
    ensures Filter([b, r], Negate(OfDevice(r.device))) == []
  {
    FilterKeepsNone([b, r], Negate(OfDevice(r.device)));
  }

  lemma CaughtAndSettled(b: Read, r: Read) returns (acts: seq<Action>, s: State)
    requires KeyOf(b) == KeyOf(r) && SM.Follows([b], r)
    ensures Leads(acts, s) && s.latest == map[] && s.history.Keys == {r.device} && s.writers == map[]
    ensures s.callers == map[0 := Detached(r.device, map[KeyOf(r) := r]), 1 := Popping([], None)]
    ensures s.log.live == [b, r] && Lists(s.books, [b, r]) && s.books.latestBytes == LatestBytes(r)
  {
    acts, s := InsertedThenHeld(b, r);
    acts, s := Take(acts, s, File(KeyOf(r)));
    assert s.history.Keys == {r.device} && [b] + [r] == [b, r];
    acts, s := Take(acts, s, Settle(KeyOf(r), 1));
    StartLaw(None);
    RunLaw(Start(None), acts);
  }

  lemma CaughtAndReleased(b: Read, r: Read) returns (acts: seq<Action>, s: State)
    requires KeyOf(b) == KeyOf(r) && SM.Follows([b], r)
    ensures Leads(acts, s) && s.latest == map[] && s.history.Keys == {r.device} && s.writers == map[]
    ensures s.callers.Keys == {0, 1} && s.callers[1] == Popping([], None)
    ensures s.callers[0].Clearing? && s.callers[0].device == r.device
    ensures s.books.queue == [] && s.books.latestBytes == 0
  {
    acts, s := CaughtAndSettled(b, r);
    FloorOfOne(r);
    BothGone(b, r);
    ReleaseEffect(s, 0);
    acts, s := Take(acts, s, Release(0));
  }

  /**
   An overlap that does no harm: a write past its insert when its device is removed, and admitted
   before the ledger hears of the removal. The removal holds the very read the books then count.
   */
  lemma OverlapHarmless(b: Read, r: Read) returns (acts: seq<Action>, s: State)
    requires KeyOf(b) == KeyOf(r) && SM.Follows([b], r)
    ensures Leads(acts, s) && Quiescent(s)
    ensures s.latest == map[] && s.history == map[] && s.books.queue == [] && s.books.latestBytes == 0
  {
    acts, s := CaughtAndReleased(b, r);
    acts, s := Take(acts, s, Clear(0));
    assert s.callers == map[1 := Popping([], None)] && s.history == map[];
    acts, s := Take(acts, s, Finish(1));
  }
}
