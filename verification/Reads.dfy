/** Recorded entries, what they cost, and the ledger slot that stands for one. */
module Reads {
  import opened Base
  import Text

  type DeviceId = string
  type FieldName = string

  datatype RecordingState = Stopped | Started | Paused | Unknown
  datatype Alarm = Alarm(name: string, level: string)

  datatype ReadValue =
    | Text(text: string)
    | Version(text: string)
    | Port(port: nat)
    | Number(number: nat)
    | Flag(flag: bool)
    | Mac(address: string)
    | Ack(text: string)
    | State(state: RecordingState)
    | Alarms(alarms: seq<Alarm>)

  datatype Read = Read(device: DeviceId, field: FieldName, value: ReadValue, at: string)
  datatype Key = Key(device: DeviceId, field: FieldName)
  datatype Slot = Slot(device: DeviceId, field: FieldName, at: string, bytes: nat)

  // Struct sizes on a 64-bit target. Nothing below depends on the figures.
  const SIZE_OF_READ: nat := 104
  const SIZE_OF_SLOT: nat := 80
  const SIZE_OF_ALARM: nat := 48
  const ENTRY_OVERHEAD: nat := 64

  /** Length in UTF-8 bytes, which is what `String::len` counts. */
  function ByteLen(s: string): nat {
    if s == [] then 0
    else
      (if s[0] < 0x80 as char then 1 else if s[0] < 0x800 as char then 2
       else if s[0] < 0x10000 as char then 3 else 4) + ByteLen(s[1..])
  }

  function AlarmBytes(a: Alarm): nat {
    SIZE_OF_ALARM + ByteLen(a.name) + ByteLen(a.level)
  }

  function ValueBytes(value: ReadValue): nat {
    match value
    case Text(s) => ByteLen(s)
    case Version(s) => ByteLen(s)
    case Ack(s) => ByteLen(s)
    case Mac(s) => ByteLen(s)
    case Alarms(alarms) => SumBy(alarms, AlarmBytes)
    case Port(_) => 0
    case Number(_) => 0
    case Flag(_) => 0
    case State(_) => 0
  }

  function ReadBytes(r: Read): nat {
    SIZE_OF_READ + ByteLen(r.device) + ByteLen(r.field) + ByteLen(r.at) + ValueBytes(r.value)
  }

  function LatestBytes(r: Read): nat {
    ReadBytes(r) + ByteLen(r.field) + ENTRY_OVERHEAD
  }

  function HistoryBytes(r: Read): nat {
    ReadBytes(r) + SIZE_OF_SLOT + ByteLen(r.device) + ByteLen(r.field) + ByteLen(r.at) + ENTRY_OVERHEAD
  }

  function KeyOf(r: Read): Key {
    Key(r.device, r.field)
  }

  function SlotOf(r: Read): Slot {
    Slot(r.device, r.field, r.at, HistoryBytes(r))
  }

  function Slots(entries: seq<Read>): (s: seq<Slot>)
    ensures |s| == |entries|
    ensures forall i :: 0 <= i < |s| ==> s[i] == SlotOf(entries[i])
  {
    seq(|entries|, i requires 0 <= i < |entries| => SlotOf(entries[i]))
  }

  function SlotBytes(s: Slot): nat {
    s.bytes
  }

  // Selections over entries, and the same selections over slots.

  function OfKey(k: Key): Read -> bool {
    (r: Read) => r.device == k.device && r.field == k.field
  }

  function OfDevice(d: DeviceId): Read -> bool {
    (r: Read) => r.device == d
  }

  function StampedBefore(t: string): Read -> bool {
    (r: Read) => Text.Before(r.at, t)
  }

  function SlotOfKey(k: Key): Slot -> bool {
    (s: Slot) => s.device == k.device && s.field == k.field
  }

  function SlotOfDevice(d: DeviceId): Slot -> bool {
    (s: Slot) => s.device == d
  }

  function SlotStampedBefore(t: string): Slot -> bool {
    (s: Slot) => Text.Before(s.at, t)
  }

  lemma SlotsConcat(a: seq<Read>, b: seq<Read>)
    ensures Slots(a + b) == Slots(a) + Slots(b)
  {
  }

  /** Selecting slots is selecting the entries they stand for. */
  lemma {:induction false} SlotsFilter(entries: seq<Read>, p: Read -> bool, q: Slot -> bool)
    requires forall r :: q(SlotOf(r)) == p(r)
    ensures Filter(Slots(entries), q) == Slots(Filter(entries, p))
  {
    if entries != [] {
      assert Slots(entries)[0] == SlotOf(entries[0]);
      assert Slots(entries)[1..] == Slots(entries[1..]);
      SlotsFilter(entries[1..], p, q);
      if p(entries[0]) {
        SlotsConcat([entries[0]], Filter(entries[1..], p));
        assert Slots([entries[0]]) == [SlotOf(entries[0])];
      }
    } else {
      assert Slots(entries) == [];
    }
  }

  lemma {:induction false} SlotsCost(entries: seq<Read>)
    ensures SumBy(Slots(entries), SlotBytes) == SumBy(entries, HistoryBytes)
  {
    if entries != [] {
      assert Slots(entries)[1..] == Slots(entries[1..]);
      SlotsCost(entries[1..]);
    }
  }

  // ---- What an entry costs ----------------------------------------------------

  lemma {:induction false} ByteLenConcat(s: string, t: string)
    ensures ByteLen(s + t) == ByteLen(s) + ByteLen(t)
  {
    if s == [] {
      assert s + t == t;
    } else {
      assert (s + t)[1..] == s[1..] + t;
      ByteLenConcat(s[1..], t);
    }
  }

  /** Text counts its length exactly if every character is below 0x80; any other counts for more. */
  lemma {:induction false} ByteLenAscii(s: string)
    ensures |s| <= ByteLen(s) <= 4 * |s|
    ensures ByteLen(s) == |s| <==> forall i :: 0 <= i < |s| ==> s[i] < 0x80 as char
  {
    if s != [] {
      ByteLenAscii(s[1..]);
      assert forall i :: 0 < i < |s| ==> s[i] == s[1..][i - 1];
      assert forall i :: 0 <= i < |s| - 1 ==> s[1..][i] == s[i + 1];
    }
  }

  function Power(base: nat, n: nat): nat {
    if n == 0 then 1 else base * Power(base, n - 1)
  }

  /** The code points `n` bytes of UTF-8 can carry: 7 bits in one byte, 5n + 1 in more. */
  function Capacity(n: nat): nat {
    if n <= 1 then Power(2, 7) else Power(2, 5 * n + 1)
  }

  lemma Capacities()
    ensures Capacity(1) == 0x80 && Capacity(2) == 0x800 && Capacity(3) == 0x10000 && Capacity(4) == 0x200000
  {
    PowerSum(2, 7, 4);
    PowerSum(2, 11, 5);
    PowerSum(2, 16, 5);
    assert Power(2, 4) == 16 && Power(2, 5) == 32 && Power(2, 7) == 128;
  }

  lemma {:induction false} PowerSum(base: nat, m: nat, n: nat)
    ensures Power(base, m + n) == Power(base, m) * Power(base, n)
  {
    if m > 0 {
      PowerSum(base, m - 1, n);
      var a, b := Power(base, m - 1), Power(base, n);
      assert base * (a * b) == base * a * b;
    }
  }

  /** A character takes as few bytes as can carry it. */
  lemma CharacterBytes(c: char)
    ensures var n := ByteLen([c]); 1 <= n <= 4 && c as nat < Capacity(n) && (n > 1 ==> c as nat >= Capacity(n - 1))
  {
    Capacities();
    assert [c][1..] == [];
  }

  /** Text in a value is paid for once, in both places the read is kept. */
  lemma TextGrows(r: Read, s: string, t: string)
    ensures LatestBytes(r.(value := Text(s + t))) == LatestBytes(r.(value := Text(s))) + ByteLen(t)
    ensures LatestBytes(r.(value := Version(s + t))) == LatestBytes(r.(value := Version(s))) + ByteLen(t)
    ensures LatestBytes(r.(value := Ack(s + t))) == LatestBytes(r.(value := Ack(s))) + ByteLen(t)
    ensures LatestBytes(r.(value := Mac(s + t))) == LatestBytes(r.(value := Mac(s))) + ByteLen(t)
    ensures HistoryBytes(r.(value := Text(s + t))) == HistoryBytes(r.(value := Text(s))) + ByteLen(t)
    ensures HistoryBytes(r.(value := Version(s + t))) == HistoryBytes(r.(value := Version(s))) + ByteLen(t)
    ensures HistoryBytes(r.(value := Ack(s + t))) == HistoryBytes(r.(value := Ack(s))) + ByteLen(t)
    ensures HistoryBytes(r.(value := Mac(s + t))) == HistoryBytes(r.(value := Mac(s))) + ByteLen(t)
  {
    ByteLenConcat(s, t);
  }

  /** One more alarm is paid for with its struct and its two texts. */
  lemma AlarmsGrow(r: Read, alarms: seq<Alarm>, a: Alarm)
    ensures var grown, cost := r.(value := Alarms(alarms + [a])), SIZE_OF_ALARM + ByteLen(a.name) + ByteLen(a.level);
            && LatestBytes(grown) == LatestBytes(r.(value := Alarms(alarms))) + cost
            && HistoryBytes(grown) == HistoryBytes(r.(value := Alarms(alarms))) + cost
  {
    SumConcat(alarms, [a], AlarmBytes);
    assert SumBy([a], AlarmBytes) == AlarmBytes(a) + SumBy([a][1..], AlarmBytes);
  }

  /** Text in what a read is filed under is paid for again in its slot, and the field again in its key. */
  lemma KeyGrows(r: Read, t: string)
    ensures LatestBytes(r.(device := r.device + t)) == LatestBytes(r) + ByteLen(t)
    ensures LatestBytes(r.(at := r.at + t)) == LatestBytes(r) + ByteLen(t)
    ensures LatestBytes(r.(field := r.field + t)) == LatestBytes(r) + 2 * ByteLen(t)
    ensures HistoryBytes(r.(device := r.device + t)) == HistoryBytes(r) + 2 * ByteLen(t)
    ensures HistoryBytes(r.(at := r.at + t)) == HistoryBytes(r) + 2 * ByteLen(t)
    ensures HistoryBytes(r.(field := r.field + t)) == HistoryBytes(r) + 2 * ByteLen(t)
  {
    ByteLenConcat(r.device, t);
    ByteLenConcat(r.at, t);
    ByteLenConcat(r.field, t);
  }

  /** A value with no text of its own. */
  predicate Bare(v: ReadValue) {
    match v
    case Text(s) => s == ""
    case Version(s) => s == ""
    case Ack(s) => s == ""
    case Mac(s) => s == ""
    case Alarms(alarms) => alarms == []
    case Port(_) => true
    case Number(_) => true
    case Flag(_) => true
    case State(_) => true
  }

  /** Without any text an entry costs its structs and the overhead of one container node. */
  lemma BareCost(v: ReadValue)
    requires Bare(v)
    ensures LatestBytes(Read("", "", v, "")) == SIZE_OF_READ + ENTRY_OVERHEAD
    ensures HistoryBytes(Read("", "", v, "")) == SIZE_OF_READ + SIZE_OF_SLOT + ENTRY_OVERHEAD
  {
  }
}
