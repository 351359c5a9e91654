/**
 The ledger: every stored history entry in write order, running totals, and the cap they are held
 under. `Books` is the ledger as a value; the class is the ledger as the store updates it.
 */
module Ledger {
  import opened Base
  import opened Reads
  import opened StoreModel

  datatype Books = Books(
    budget: Option<nat>,
    queue: seq<Slot>,
    historyBytes: nat,
    latestBytes: nat,
    evicted: nat)
  {
    function Used(): nat {
      latestBytes + historyBytes
    }

    function RestateLatest(added: nat, removed: nat): Books {
      this.(latestBytes := SaturatingSub(latestBytes + added, removed))
    }

    function Record(slot: Slot): Books {
      this.(historyBytes := historyBytes + slot.bytes, queue := queue + [slot])
    }

    /** The books once their oldest slot is evicted. */
    function EvictOldest(): Books
      requires queue != []
    {
      this.(queue := queue[1..], historyBytes := SaturatingSub(historyBytes, queue[0].bytes), evicted := evicted + 1)
    }

    function TakeOverBudget(cap: nat): (Books, seq<Slot>)
      decreases |queue|
    {
      if Used() > cap && queue != [] then
        var rest := EvictOldest().TakeOverBudget(cap);
        (rest.0, [queue[0]] + rest.1)
      else (this, [])
    }

    function Enforce(): (Books, seq<Slot>) {
      match budget
      case None => (this, [])
      case Some(cap) => TakeOverBudget(cap)
    }

    function TakeIf(p: Slot -> bool): (Books, seq<Slot>) {
      var taken := Filter(queue, p);
      (this.(queue := Filter(queue, Negate(p)), historyBytes := Drain(historyBytes, taken)), taken)
    }

    function Admit(added: nat, displaced: nat, slot: Slot): (Books, seq<Slot>) {
      RestateLatest(added, displaced).Record(slot).Enforce()
    }

    function Recap(cap: Option<nat>): (Books, seq<Slot>) {
      this.(budget := cap).Enforce()
    }

    function Expire(before: string): (Books, seq<Slot>) {
      TakeIf(SlotStampedBefore(before))
    }

    function Forget(d: DeviceId, bytes: nat): (Books, seq<Slot>) {
      RestateLatest(0, bytes).TakeIf(SlotOfDevice(d))
    }
  }

  function SaturatingSub(a: nat, b: nat): nat {
    if a < b then 0 else a - b
  }

  /** The saturating subtractions made while `taken` is claimed, one after another. */
  function Drain(bytes: nat, taken: seq<Slot>): nat {
    if taken == [] then bytes
    else SaturatingSub(Drain(bytes, taken[..|taken| - 1]), taken[|taken| - 1].bytes)
  }

  // ---- The books list the entries they stand for -------------------------

  /** The queue is one slot per entry, in order, and the history total is their true sum. */
  ghost predicate Lists(b: Books, live: seq<Read>) {
    b.queue == Slots(live) && b.historyBytes == Cost(live)
  }

  /** Exact: the queue is the live entries, and both totals are true sums. */
  ghost predicate Stands(b: Books, m: Model) {
    && b.budget == m.budget
    && Lists(b, m.entries)
    && b.latestBytes == Floor(m.latest)
    && b.evicted == m.evicted
  }

  lemma {:induction false} DrainExact(bytes: nat, taken: seq<Slot>)
    requires SumBy(taken, SlotBytes) <= bytes
    ensures Drain(bytes, taken) == bytes - SumBy(taken, SlotBytes)
  {
    if taken != [] {
      var init, last := taken[..|taken| - 1], taken[|taken| - 1];
      assert taken == init + [last];
      SumConcat(init, [last], SlotBytes);
      assert SumBy([last], SlotBytes) == SlotBytes(last) + SumBy([last][1..], SlotBytes);
      DrainExact(bytes, init);
    }
  }

  lemma EvictOldestLists(b: Books, live: seq<Read>)
    requires Lists(b, live) && b.queue != []
    ensures Lists(b.EvictOldest(), live[1..])
    ensures b.queue[0] == SlotOf(live[0])
  {
    assert Slots(live)[1..] == Slots(live[1..]);
  }

  lemma SlotsFront(entries: seq<Read>, n: nat)
    requires 0 < n <= |entries|
    ensures Slots(entries[..n]) == [SlotOf(entries[0])] + Slots(entries[1..][..n - 1])
    ensures entries[1..][n - 1..] == entries[n..]
  {
  }

  /** The loop claims the shortest sufficient prefix and never saturates, whatever is counted for last reads. */
  lemma {:induction false} TakeOverBudgetSheds(b: Books, live: seq<Read>, cap: nat)
    requires Lists(b, live)
    ensures var n, after := Excess(live, b.latestBytes, cap), b.TakeOverBudget(cap).0;
            && Lists(after, live[n..])
            && after.budget == b.budget && after.latestBytes == b.latestBytes && after.evicted == b.evicted + n
            && b.TakeOverBudget(cap).1 == Slots(live[..n])
    decreases |live|
  {
    var n := Excess(live, b.latestBytes, cap);
    if b.Used() > cap && b.queue != [] {
      EvictOldestLists(b, live);
      TakeOverBudgetSheds(b.EvictOldest(), live[1..], cap);
      assert n == 1 + Excess(live[1..], b.latestBytes, cap);
      SlotsFront(live, n);
    } else {
      assert live[0..] == live;
      assert Slots(live[..0]) == [];
    }
  }

  /** The cap, as the books see it. */
  predicate Capped(b: Books) {
    b.budget.Some? ==> b.Used() <= b.budget.value || b.queue == []
  }

  lemma EnforceLists(b: Books, live: seq<Read>) returns (front: seq<Read>, back: seq<Read>)
    requires Lists(b, live)
    ensures live == front + back && b.Enforce().1 == Slots(front)
    ensures Lists(b.Enforce().0, back) && Capped(b.Enforce().0)
    ensures b.Enforce().0.budget == b.budget && b.Enforce().0.latestBytes == b.latestBytes
  {
    match b.budget
    case None =>
      front, back := [], live;
      assert Slots(front) == [] && front + back == back;
    case Some(cap) =>
      var n := Excess(live, b.latestBytes, cap);
      TakeOverBudgetSheds(b, live, cap);
      front, back := live[..n], live[n..];
      ExcessCaps(b, live, cap);
  }

  lemma ExcessCaps(b: Books, live: seq<Read>, cap: nat)
    ensures var back := live[Excess(live, b.latestBytes, cap)..]; b.latestBytes + Cost(back) <= cap || back == []
  {
    assert Suffices(live, b.latestBytes, cap, Excess(live, b.latestBytes, cap));
  }

  lemma AdmitLists(b: Books, live: seq<Read>, added: nat, displaced: nat, r: Read)
    returns (front: seq<Read>, back: seq<Read>)
    requires Lists(b, live)
    ensures var (after, taken) := b.Admit(added, displaced, SlotOf(r));
            && live + [r] == front + back && taken == Slots(front)
            && Lists(after, back) && Capped(after) && after.budget == b.budget
            && after.latestBytes == SaturatingSub(b.latestBytes + added, displaced)
  {
    SlotsConcat(live, [r]);
    SumConcat(live, [r], HistoryBytes);
    assert Slots([r]) == [SlotOf(r)] && Cost([r]) == HistoryBytes(r);
    front, back := EnforceLists(b.RestateLatest(added, displaced).Record(SlotOf(r)), live + [r]);
  }

  lemma TakeIfLists(b: Books, live: seq<Read>, p: Read -> bool, q: Slot -> bool)
    requires Lists(b, live)
    requires forall r :: q(SlotOf(r)) == p(r)
    ensures var (after, taken) := b.TakeIf(q);
            && Lists(after, Filter(live, Negate(p))) && taken == Slots(Filter(live, p))
            && SumBy(taken, SlotBytes) == b.historyBytes - after.historyBytes
            && (Capped(b) ==> Capped(after))
  {
    SlotsFilter(live, p, q);
    SlotsFilter(live, Negate(p), Negate(q));
    SumSplits(live, HistoryBytes, p);
    SlotsCost(Filter(live, p));
    DrainExact(b.historyBytes, Filter(b.queue, q));
    assert live == [] ==> Filter(live, Negate(p)) == [];
  }

  // ---- The books stand for the reference store ---------------------------

  /** Entries a model step evicts. */
  ghost function Shed(before: Model, after: Model): seq<Read>
    requires after.evicted >= before.evicted && after.evicted - before.evicted <= |before.entries|
  {
    before.entries[..after.evicted - before.evicted]
  }

  lemma EnforceSheds(m: Model)
    ensures var after := StoreModel.Enforce(m);
            && 0 <= after.evicted - m.evicted <= |m.entries|
            && m.entries == Shed(m, after) + after.entries
            && after.latest == m.latest
  {
    assert m.entries[0..] == m.entries;
  }

  lemma EnforceStands(b: Books, m: Model)
    requires Stands(b, m)
    ensures Stands(b.Enforce().0, StoreModel.Enforce(m))
    ensures b.Enforce().1 == Slots(Shed(m, StoreModel.Enforce(m)))
  {
    if m.budget.Some? {
      TakeOverBudgetSheds(b, m.entries, m.budget.value);
    } else {
      assert Slots(m.entries[..0]) == [];
    }
  }

  ghost function Displaced(latest: map<Key, Read>, k: Key): nat {
    if k in latest then LatestBytes(latest[k]) else 0
  }

  /** The reference state a write passes through before the cap is applied. */
  function Filed(m: Model, r: Read): Model {
    m.(latest := m.latest[KeyOf(r) := r], entries := m.entries + [r])
  }

  lemma AdmitStands(b: Books, m: Model, r: Read)
    requires Stands(b, m)
    ensures var displaced := Displaced(m.latest, KeyOf(r));
            && displaced <= b.latestBytes + LatestBytes(r)
            && Stands(b.Admit(LatestBytes(r), displaced, SlotOf(r)).0, Upsert(m, r))
            && b.Admit(LatestBytes(r), displaced, SlotOf(r)).1 == Slots(Shed(Filed(m, r), Upsert(m, r)))
  {
    SumMapPut(m.latest, LatestBytes, KeyOf(r), r);
    if KeyOf(r) in m.latest {
      SumMapAt(m.latest, LatestBytes, KeyOf(r));
    }
    SlotsConcat(m.entries, [r]);
    SumConcat(m.entries, [r], HistoryBytes);
    assert Slots([r]) == [SlotOf(r)];
    var b' := b.RestateLatest(LatestBytes(r), Displaced(m.latest, KeyOf(r))).Record(SlotOf(r));
    assert Cost([r]) == HistoryBytes(r);
    EnforceStands(b', Filed(m, r));
  }

  lemma RecapStands(b: Books, m: Model, budget: Option<nat>)
    requires Stands(b, m)
    ensures Stands(b.Recap(budget).0, StoreModel.Recap(m, budget))
    ensures b.Recap(budget).1 == Slots(Shed(m.(budget := budget), StoreModel.Recap(m, budget)))
  {
    EnforceStands(b.(budget := budget), m.(budget := budget));
  }

  /** What a write evicts, the new entry included, and what it leaves. */
  lemma AdmitSheds(b: Books, m: Model, r: Read) returns (front: seq<Read>)
    requires Stands(b, m)
    ensures var after := StoreModel.Enforce(Filed(m, r));
            && after == Upsert(m, r) && after.latest == m.latest[KeyOf(r) := r]
            && 0 <= after.evicted - m.evicted <= |m.entries| + 1
            && m.entries + [r] == front + after.entries && Shed(Filed(m, r), after) == front
            && Stands(b.Admit(LatestBytes(r), Displaced(m.latest, KeyOf(r)), SlotOf(r)).0, after)
            && b.Admit(LatestBytes(r), Displaced(m.latest, KeyOf(r)), SlotOf(r)).1 == Slots(front)
  {
    AdmitStands(b, m, r);
    EnforceSheds(Filed(m, r));
    front := Shed(Filed(m, r), Upsert(m, r));
  }

  lemma RecapSheds(b: Books, m: Model, budget: Option<nat>) returns (front: seq<Read>)
    requires Stands(b, m)
    ensures var start, after := m.(budget := budget), StoreModel.Recap(m, budget);
            && after == StoreModel.Enforce(start) && after.latest == m.latest
            && 0 <= after.evicted - m.evicted <= |m.entries|
            && m.entries == front + after.entries && Shed(start, after) == front
            && Stands(b.Recap(budget).0, after) && b.Recap(budget).1 == Slots(front)
  {
    RecapStands(b, m, budget);
    EnforceSheds(m.(budget := budget));
    front := Shed(m.(budget := budget), StoreModel.Recap(m, budget));
  }

  lemma TakeIfStands(b: Books, m: Model, p: Read -> bool, q: Slot -> bool)
    requires Stands(b, m)
    requires forall r :: q(SlotOf(r)) == p(r)
    ensures Stands(b.TakeIf(q).0, m.(entries := Filter(m.entries, Negate(p))))
    ensures b.TakeIf(q).1 == Slots(Filter(m.entries, p))
    ensures SumBy(b.TakeIf(q).1, SlotBytes) == b.historyBytes - b.TakeIf(q).0.historyBytes
  {
    TakeIfLists(b, m.entries, p, q);
  }

  lemma ForgetStands(b: Books, m: Model, d: DeviceId)
    requires Stands(b, m)
    ensures var bytes := Floor(map k | k in KeysOfDevice(m.latest, d) :: m.latest[k]);
            && bytes <= b.latestBytes
            && Stands(b.Forget(d, bytes).0, StoreModel.Forget(m, d))
            && b.Forget(d, bytes).1 == Slots(Filter(m.entries, OfDevice(d)))
  {
    ForgetLowersFloor(m.latest, d);
    var gone := KeysOfDevice(m.latest, d);
    var bytes := Floor(map k | k in gone :: m.latest[k]);
    TakeIfStands(b.RestateLatest(0, bytes), m.(latest := m.latest - gone), OfDevice(d), SlotOfDevice(d));
  }

  // ---- The ledger as updated in place -------------------------------------

  class Ledger {
    var budget: Option<nat>
    var queue: seq<Slot>
    var historyBytes: nat
    var latestBytes: nat
    var evicted: nat

    function View(): Books
      reads this
    {
      Books(budget, queue, historyBytes, latestBytes, evicted)
    }

    constructor (budget: Option<nat>)
      ensures View() == Books(budget, [], 0, 0, 0)
    {
      this.budget, queue, historyBytes, latestBytes, evicted := budget, [], 0, 0, 0;
    }

    method TakeOver(cap: nat) returns (taken: seq<Slot>)
      modifies this
      ensures (View(), taken) == old(View()).TakeOverBudget(cap)
    {
      taken := [];
      while latestBytes + historyBytes > cap && queue != []
        invariant old(View()).TakeOverBudget(cap).0 == View().TakeOverBudget(cap).0
        invariant old(View()).TakeOverBudget(cap).1 == taken + View().TakeOverBudget(cap).1
        decreases |queue|
      {
        ghost var before := View();
        var slot := queue[0];
        queue := queue[1..];
        historyBytes := SaturatingSub(historyBytes, slot.bytes);
        evicted := evicted + 1;
        assert View() == before.EvictOldest();
        taken := taken + [slot];
      }
      assert View().TakeOverBudget(cap) == (View(), []);
      assert taken + [] == taken;
    }

    method EnforceCap() returns (taken: seq<Slot>)
      modifies this
      ensures (View(), taken) == old(View()).Enforce()
    {
      match budget
      case None => taken := [];
      case Some(cap) => taken := TakeOver(cap);
    }

    /** The scan shared by expiry and removal: `taken` and `kept` both stay in queue order. */
    method Take(p: Slot -> bool) returns (taken: seq<Slot>)
      modifies this
      ensures (View(), taken) == old(View()).TakeIf(p)
    {
      taken := [];
      var kept: seq<Slot> := [];
      ghost var all, bytes := queue, historyBytes;
      for i := 0 to |queue|
        invariant queue == all && budget == old(budget) && latestBytes == old(latestBytes) && evicted == old(evicted)
        invariant taken == Filter(all[..i], p) && kept == Filter(all[..i], Negate(p))
        invariant historyBytes == Drain(bytes, taken)
      {
        var slot := queue[i];
        assert all[..i + 1] == all[..i] + [slot];
        FilterConcat(all[..i], [slot], p);
        FilterConcat(all[..i], [slot], Negate(p));
        if p(slot) {
          historyBytes := SaturatingSub(historyBytes, slot.bytes);
          assert (taken + [slot])[..|taken|] == taken;
          taken := taken + [slot];
        } else {
          kept := kept + [slot];
        }
      }
      assert all[..|all|] == all;
      queue := kept;
    }

    method AdmitWrite(added: nat, displaced: nat, slot: Slot) returns (taken: seq<Slot>)
      modifies this
      ensures (View(), taken) == old(View()).Admit(added, displaced, slot)
    {
      latestBytes := SaturatingSub(latestBytes + added, displaced);
      historyBytes := historyBytes + slot.bytes;
      queue := queue + [slot];
      taken := EnforceCap();
    }

    method SetCap(cap: Option<nat>) returns (taken: seq<Slot>)
      modifies this
      ensures (View(), taken) == old(View()).Recap(cap)
    {
      budget := cap;
      taken := EnforceCap();
    }

    method ExpireBefore(before: string) returns (taken: seq<Slot>)
      modifies this
      ensures (View(), taken) == old(View()).Expire(before)
    {
      taken := Take(SlotStampedBefore(before));
    }

    method ForgetDevice(d: DeviceId, bytes: nat) returns (taken: seq<Slot>)
      modifies this
      ensures (View(), taken) == old(View()).Forget(d, bytes)
    {
      latestBytes := SaturatingSub(latestBytes + 0, bytes);
      taken := Take(SlotOfDevice(d));
    }
  }
}
