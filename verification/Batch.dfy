/** Dispatching a claimed batch: every row settled once, whatever happens. */
module Batch {
  import opened Base
  import opened Reads

  type WriteId = string

  datatype Outcome = Succeeded(value: ReadValue) | Failed(reason: string)
  datatype Record<I> = Record(id: WriteId, device: DeviceId, intent: I)
  datatype Translated<I> = Instruction(instruction: I) | Untranslatable(why: string)

  /** One value per member, or the members that failed and why. */
  datatype GroupRun = AllRan(values: seq<(DeviceId, ReadValue)>) | SomeFailed(failures: seq<(DeviceId, string)>)

  /** Pairs collected into a map. */
  function ToMap<V>(pairs: seq<(DeviceId, V)>): map<DeviceId, V> {
    if pairs == [] then map[]
    else ToMap(pairs[..|pairs| - 1])[pairs[|pairs| - 1].0 := pairs[|pairs| - 1].1]
  }

  predicate Names<V>(pairs: seq<(DeviceId, V)>, d: DeviceId) {
    exists i :: 0 <= i < |pairs| && pairs[i].0 == d
  }

  /** The last pair wins. */
  lemma {:induction false} ToMapLast<V>(pairs: seq<(DeviceId, V)>, d: DeviceId)
    ensures d in ToMap(pairs) <==> Names(pairs, d)
    ensures d in ToMap(pairs) ==> exists i :: IsLast(pairs, d, i) && pairs[i].1 == ToMap(pairs)[d]
  {
    if pairs != [] {
      var n := |pairs| - 1;
      var init := pairs[..n];
      if pairs[n].0 == d {
        assert IsLast(pairs, d, n);
      } else {
        ToMapLast(init, d);
        if Names(pairs, d) {
          var i :| 0 <= i < |pairs| && pairs[i].0 == d;
          assert init[i].0 == d;
        }
        if d in ToMap(init) {
          var i :| IsLast(init, d, i) && init[i].1 == ToMap(init)[d];
          assert pairs[i] == init[i] && IsLast(pairs, d, i);
        }
      }
    }
  }

  /** `i` is the last position naming `d`. */
  predicate IsLast<V>(pairs: seq<(DeviceId, V)>, d: DeviceId, i: int) {
    0 <= i < |pairs| && pairs[i].0 == d && forall j :: i < j < |pairs| ==> pairs[j].0 != d
  }

  function Ack(batch: string, device: DeviceId): string {
    device + " accepted as part of batch " + batch
  }

  function AbsentReason(device: DeviceId): string {
    "member '" + device + "' is not in the registry"
  }

  const NO_VALUE: string := "the group returned no value for this member"

  /** The queue as the relay reports to it. It may refuse to record an outcome; the relay goes on. */
  class Drain {
    const accepts: ((WriteId, Outcome)) -> bool
    var reported: seq<(WriteId, Outcome)>
    var settled: seq<(WriteId, Outcome)>

    constructor (accepts: ((WriteId, Outcome)) -> bool)
      ensures this.accepts == accepts && reported == [] && settled == []
    {
      this.accepts, reported, settled := accepts, [], [];
    }

    /** Recorded are exactly the reports the queue accepts. */
    ghost predicate Valid()
      reads this
    {
      settled == Filter(reported, accepts)
    }

    method Settle(id: WriteId, outcome: Outcome)
      requires Valid()
      modifies this
      ensures Valid() && reported == old(reported) + [(id, outcome)]
    {
      FilterConcat(reported, [(id, outcome)], accepts);
      reported := reported + [(id, outcome)];
      if accepts((id, outcome)) {
        settled := settled + [(id, outcome)];
      }
    }

    /** Report every row, deciding each outcome from its record. */
    method SettleAll<I>(records: seq<Record<I>>, outcomeFor: Record<I> -> Outcome)
      requires Valid()
      modifies this
      ensures Valid() && SettledAs(old(reported), reported, records, outcomeFor)
    {
      for i := 0 to |records|
        invariant Valid() && |reported| == |old(reported)| + i && old(reported) <= reported
        invariant forall j :: 0 <= j < i ==> reported[|old(reported)| + j] == (records[j].id, outcomeFor(records[j]))
      {
        Settle(records[i].id, outcomeFor(records[i]));
      }
    }
  }

  /** The members in row order, or the first one the registry does not hold. */
  method Members<I>(registry: set<DeviceId>, records: seq<Record<I>>)
    returns (members: seq<DeviceId>, missing: Option<DeviceId>)
    ensures missing.None? <==> AllRegistered(registry, records)
    ensures missing.None? ==> members == Devices(records)
    ensures missing.Some? ==> exists i :: FirstMissing(registry, records, i) && records[i].device == missing.value
  {
    members, missing := [], None;
    for i := 0 to |records|
      invariant missing.None? && |members| == i
      invariant forall j :: 0 <= j < i ==> members[j] == records[j].device && records[j].device in registry
    {
      if records[i].device !in registry {
        assert FirstMissing(registry, records, i);
        return members, Some(records[i].device);
      }
      members := members + [records[i].device];
    }
  }

  /** What was reported after `before`: one outcome per record, each as `outcomeFor` decides. */
  ghost predicate SettledAs<I>(before: seq<(WriteId, Outcome)>, after: seq<(WriteId, Outcome)>,
                               records: seq<Record<I>>, outcomeFor: Record<I> -> Outcome) {
    && |after| == |before| + |records| && before <= after
    && forall i :: 0 <= i < |records| ==> after[|before| + i] == (records[i].id, outcomeFor(records[i]))
  }

  /** What was reported after `before`: every row failed, in order, for one reason. */
  ghost predicate AllFailed<I>(before: seq<(WriteId, Outcome)>, after: seq<(WriteId, Outcome)>,
                               records: seq<Record<I>>, why: string) {
    && |after| == |before| + |records| && before <= after
    && forall i :: 0 <= i < |records| ==> after[|before| + i] == (records[i].id, Failed(why))
  }

  /** What a row is told, given how the batch went. */
  function Verdict<I>(batch: string, went: Went): Record<I> -> Outcome {
    match went
    case NotRun(why) => (r: Record<I>) => Failed(why)
    case Ran(AllRan(values)) =>
      (r: Record<I>) => if r.device in ToMap(values) then Succeeded(ToMap(values)[r.device]) else Failed(NO_VALUE)
    case Ran(SomeFailed(failures)) =>
      (r: Record<I>) =>
        if r.device in ToMap(failures) then Failed(ToMap(failures)[r.device])
        else Succeeded(ReadValue.Ack(Ack(batch, r.device)))
  }

  datatype Went = NotRun(why: string) | Ran(run: GroupRun)

  predicate AllRegistered<I>(registry: set<DeviceId>, records: seq<Record<I>>) {
    forall i :: 0 <= i < |records| ==> records[i].device in registry
  }

  predicate FirstMissing<I>(registry: set<DeviceId>, records: seq<Record<I>>, i: int) {
    0 <= i < |records| && records[i].device !in registry && forall j :: 0 <= j < i ==> records[j].device in registry
  }

  function Devices<I>(records: seq<Record<I>>): (ds: seq<DeviceId>)
    ensures |ds| == |records| && forall i :: 0 <= i < |ds| ==> ds[i] == records[i].device
  {
    seq(|records|, i requires 0 <= i < |records| => records[i].device)
  }

  /**
   One group run for a whole batch. Every row is settled once, in order, and no other row is
   touched. The exchange takes place exactly if the batch translates and every member is
   registered, and then with all of them; otherwise every row fails.
   */
  method DispatchBatch<I, J>(drain: Drain, registry: set<DeviceId>, batch: string, records: seq<Record<I>>,
                             translate: I -> Translated<J>, group: (J, seq<DeviceId>) -> GroupRun)
    returns (went: Went)
    requires drain.Valid()
    modifies drain
    ensures drain.Valid() && SettledAs(old(drain.reported), drain.reported, records, Verdict(batch, went))
    ensures went.Ran? <==>
            records != [] && translate(records[0].intent).Instruction? && AllRegistered(registry, records)
    ensures went.Ran? ==> went.run == group(translate(records[0].intent).instruction, Devices(records))
    ensures records != [] && translate(records[0].intent).Untranslatable?
            ==> went == NotRun(translate(records[0].intent).why)
    ensures records != [] && translate(records[0].intent).Instruction? && !went.Ran? ==>
              exists i :: FirstMissing(registry, records, i) && went == NotRun(AbsentReason(records[i].device))
    ensures records != [] && translate(records[0].intent).Untranslatable? ==>
              AllFailed(old(drain.reported), drain.reported, records, translate(records[0].intent).why)
    ensures records != [] && translate(records[0].intent).Instruction? && !AllRegistered(registry, records) ==>
              exists i :: FirstMissing(registry, records, i) &&
                AllFailed(old(drain.reported), drain.reported, records,
                          "member '" + records[i].device + "' is not in the registry")
    ensures records == [] ==> drain.reported == old(drain.reported)
  {
    if records == [] {
      return NotRun("");
    }
    match translate(records[0].intent) {
      case Untranslatable(why) =>
        went := NotRun(why);
      case Instruction(instruction) =>
        var members, missing := Members(registry, records);
        if missing.Some? {
          went := NotRun(AbsentReason(missing.value));
        } else {
          assert members == Devices(records);
          went := Ran(group(instruction, members));
        }
    }
    drain.SettleAll(records, Verdict(batch, went));
  }

  /**
   After a partial failure exactly the members named as failed are settled failed, each with the
   last reason given for it; the others are acknowledged.
   */
  lemma FailedExactly<I>(batch: string, failures: seq<(DeviceId, string)>, r: Record<I>)
    ensures var outcome := Verdict<I>(batch, Ran(SomeFailed(failures)))(r);
            if Names(failures, r.device)
            then exists i :: IsLast(failures, r.device, i) && outcome == Failed(failures[i].1)
            else outcome == Succeeded(ReadValue.Ack(r.device + " accepted as part of batch " + batch))
  {
    ToMapLast(failures, r.device);
  }

  /** After a full run a row succeeds with the last value returned for it, and fails only if there was none. */
  lemma SucceededExactly<I>(batch: string, values: seq<(DeviceId, ReadValue)>, r: Record<I>)
    ensures var outcome := Verdict<I>(batch, Ran(AllRan(values)))(r);
            if Names(values, r.device)
            then exists i :: IsLast(values, r.device, i) && outcome == Succeeded(values[i].1)
            else outcome == Failed("the group returned no value for this member")
  {
    ToMapLast(values, r.device);
  }
}
