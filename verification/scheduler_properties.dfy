/**
 * What a whole run of the allocator guarantees. The run's three bookkeeping
 * maps are shown to be views of one ledger, the stations each worker holds
 * in input order; the per-station eligibility test then turns into
 * guarantees about that ledger: no worker holds two stations on one day,
 * no worker's total passes 72 hours, and a station taken after the previous
 * day's station leaves at least 12 hours of rest.
 */
module SchedulerProperties {
  import opened Optional
  import opened Text
  import opened Clock
  import opened Week
  import opened Scheduler

  predicate Holds(choices: seq<Option<Worker>>, i: int, id: WorkerId)
    requires 0 <= i < |choices|
  {
    choices[i].Some? && choices[i].value.id == id
  }

  /** The stations held by worker `id`, in input order. */
  function BookedBy(slots: seq<Slot>, choices: seq<Option<Worker>>, id: WorkerId): seq<Slot>
    requires |slots| == |choices|
    decreases |slots|
  {
    if |slots| == 0 then []
    else
      var n := |slots| - 1;
      BookedBy(slots[..n], choices[..n], id) + if Holds(choices, n, id) then [slots[n]] else []
  }

  function DayTexts(bs: seq<Slot>): (r: seq<string>)
    ensures |r| == |bs|
    ensures forall k :: 0 <= k < |bs| ==> r[k] == bs[k].day
  {
    seq(|bs|, k requires 0 <= k < |bs| => bs[k].day)
  }

  function SumMinutes(bs: seq<Slot>): int
  {
    if |bs| == 0 then 0 else SumMinutes(bs[..|bs| - 1]) + DurationMinutes(bs[|bs| - 1].time)
  }

  /** The record of the last station in `bs` whose key is `key`, if any. */
  function LastBy(bs: seq<Slot>, keyOf: Slot -> string, key: string): Option<ShiftRecord>
  {
    if |bs| == 0 then None
    else if keyOf(bs[|bs| - 1]) == key then Some(RecordOf(bs[|bs| - 1]))
    else LastBy(bs[..|bs| - 1], keyOf, key)
  }

  /** The record a history filed in this order keeps under `key`: the last one filed. */
  function LastKeyed(keying: DayKeying, bs: seq<Slot>, key: string): Option<ShiftRecord>
  {
    LastBy(bs, (s: Slot) => HistoryKey(keying, s.day), key)
  }

  /** The three maps of `st` are the views of the ledger of `slots` and `choices`. */
  ghost predicate Reflects(keying: DayKeying, st: RunState, slots: seq<Slot>, choices: seq<Option<Worker>>)
    requires |slots| == |choices|
  {
    && (forall id :: DaysOf(st, id) == DayTexts(BookedBy(slots, choices, id)))
    && (forall id :: TotalOf(st, id) == SumMinutes(BookedBy(slots, choices, id)))
    && (forall id, key :: HistoryAt(st, id, key) == LastKeyed(keying, BookedBy(slots, choices, id), key))
  }

  lemma BookedByAppend(slots: seq<Slot>, choices: seq<Option<Worker>>, slot: Slot, c: Option<Worker>, id: WorkerId)
    requires |slots| == |choices|
    ensures BookedBy(slots + [slot], choices + [c], id) ==
            BookedBy(slots, choices, id) + if c.Some? && c.value.id == id then [slot] else []
  {
    assert (slots + [slot])[..|slots|] == slots;
    assert (choices + [c])[..|choices|] == choices;
  }

  lemma DayTextsAppend(bs: seq<Slot>, slot: Slot)
    ensures DayTexts(bs + [slot]) == DayTexts(bs) + [slot.day]
  {
  }

  lemma SumMinutesAppend(bs: seq<Slot>, slot: Slot)
    ensures SumMinutes(bs + [slot]) == SumMinutes(bs) + DurationMinutes(slot.time)
  {
    assert (bs + [slot])[..|bs|] == bs;
  }

  lemma LastKeyedAppend(keying: DayKeying, bs: seq<Slot>, slot: Slot, key: string)
    ensures LastKeyed(keying, bs + [slot], key) ==
            if HistoryKey(keying, slot.day) == key then Some(RecordOf(slot)) else LastKeyed(keying, bs, key)
  {
    assert (bs + [slot])[..|bs|] == bs;
  }

  /** Applying one decision keeps the maps in step with the ledger. */
  lemma StepReflects(keying: DayKeying, st: RunState, slots: seq<Slot>, choices: seq<Option<Worker>>, c: Option<Worker>, slot: Slot)
    requires |slots| == |choices|
    requires Reflects(keying, st, slots, choices)
    ensures Reflects(keying, Apply(keying, st, c, slot), slots + [slot], choices + [c])
  {
    forall id
      ensures DaysOf(Apply(keying, st, c, slot), id) == DayTexts(BookedBy(slots + [slot], choices + [c], id))
    {
      StepDays(keying, st, slots, choices, c, slot, id);
    }
    forall id
      ensures TotalOf(Apply(keying, st, c, slot), id) == SumMinutes(BookedBy(slots + [slot], choices + [c], id))
    {
      StepTotal(keying, st, slots, choices, c, slot, id);
    }
    forall id, key
      ensures HistoryAt(Apply(keying, st, c, slot), id, key) == LastKeyed(keying, BookedBy(slots + [slot], choices + [c], id), key)
    {
      StepHistory(keying, st, slots, choices, c, slot, id, key);
    }
  }

  lemma StepDays(keying: DayKeying, st: RunState, slots: seq<Slot>, choices: seq<Option<Worker>>, c: Option<Worker>, slot: Slot, id: WorkerId)
    requires |slots| == |choices|
    requires DaysOf(st, id) == DayTexts(BookedBy(slots, choices, id))
    ensures DaysOf(Apply(keying, st, c, slot), id) == DayTexts(BookedBy(slots + [slot], choices + [c], id))
  {
    BookedByAppend(slots, choices, slot, c, id);
    DayTextsAppend(BookedBy(slots, choices, id), slot);
  }

  lemma StepTotal(keying: DayKeying, st: RunState, slots: seq<Slot>, choices: seq<Option<Worker>>, c: Option<Worker>, slot: Slot, id: WorkerId)
    requires |slots| == |choices|
    requires TotalOf(st, id) == SumMinutes(BookedBy(slots, choices, id))
    ensures TotalOf(Apply(keying, st, c, slot), id) == SumMinutes(BookedBy(slots + [slot], choices + [c], id))
  {
    BookedByAppend(slots, choices, slot, c, id);
    var bs := BookedBy(slots, choices, id);
    if c.Some? && c.value.id == id {
      SumMinutesAppend(bs, slot);
      assert TotalOf(Apply(keying, st, c, slot), id) == TotalOf(st, id) + DurationMinutes(slot.time);
    } else {
      assert BookedBy(slots + [slot], choices + [c], id) == bs;
      assert TotalOf(Apply(keying, st, c, slot), id) == TotalOf(st, id);
    }
  }

  lemma StepHistory(keying: DayKeying, st: RunState, slots: seq<Slot>, choices: seq<Option<Worker>>, c: Option<Worker>, slot: Slot, id: WorkerId, key: string)
    requires |slots| == |choices|
    requires HistoryAt(st, id, key) == LastKeyed(keying, BookedBy(slots, choices, id), key)
    ensures HistoryAt(Apply(keying, st, c, slot), id, key) == LastKeyed(keying, BookedBy(slots + [slot], choices + [c], id), key)
  {
    BookedByAppend(slots, choices, slot, c, id);
    var bs := BookedBy(slots, choices, id);
    if c.Some? && c.value.id == id {
      LastKeyedAppend(keying, bs, slot, key);
      assert HistoryAt(Apply(keying, st, c, slot), id, key) ==
             if key == HistoryKey(keying, slot.day) then Some(RecordOf(slot)) else HistoryAt(st, id, key);
    } else {
      assert BookedBy(slots + [slot], choices + [c], id) == bs;
      assert HistoryAt(Apply(keying, st, c, slot), id, key) == HistoryAt(st, id, key);
    }
  }

  lemma {:induction false} RunReflects(keying: DayKeying, workers: seq<Worker>, slots: seq<Slot>)
    ensures var run := RunSlots(keying, workers, slots);
            Reflects(keying, run.state, slots, run.choices)
    decreases |slots|
  {
    if |slots| > 0 {
      var n := |slots| - 1;
      var before := RunSlots(keying, workers, slots[..n]);
      RunReflects(keying, workers, slots[..n]);
      var c := Choose(workers, before.state, slots[n]);
      StepReflects(keying, before.state, slots[..n], before.choices, c, slots[n]);
      RunStep(keying, workers, slots);
      assert slots[..n] + [slots[n]] == slots;
    }
  }

  /** The decisions on a prefix are the prefix of the decisions. */
  lemma {:induction false} RunPrefix(keying: DayKeying, workers: seq<Worker>, slots: seq<Slot>, i: nat)
    requires i < |slots|
    ensures RunSlots(keying, workers, slots[..i]).choices == RunSlots(keying, workers, slots).choices[..i]
    ensures RunSlots(keying, workers, slots).choices[i] ==
            Choose(workers, RunSlots(keying, workers, slots[..i]).state, slots[i])
    decreases |slots|
  {
    var n := |slots| - 1;
    var run := RunSlots(keying, workers, slots);
    var before := RunSlots(keying, workers, slots[..n]);
    var c := Choose(workers, before.state, slots[n]);
    RunStep(keying, workers, slots);
    assert run.choices == before.choices + [c];
    if i < n {
      RunPrefix(keying, workers, slots[..n], i);
      assert slots[..n][..i] == slots[..i];
      assert slots[..n][i] == slots[i];
      assert run.choices[..i] == before.choices[..i];
      assert run.choices[i] == before.choices[i];
    } else {
      assert run.choices[..i] == before.choices;
    }
  }

  lemma {:induction false} BookedByHas(slots: seq<Slot>, choices: seq<Option<Worker>>, id: WorkerId, j: nat)
    requires |slots| == |choices| && j < |slots| && Holds(choices, j, id)
    ensures slots[j] in BookedBy(slots, choices, id)
    decreases |slots|
  {
    var n := |slots| - 1;
    if j < n {
      BookedByHas(slots[..n], choices[..n], id, j);
    }
  }

  lemma {:induction false} BookedByFrom(slots: seq<Slot>, choices: seq<Option<Worker>>, id: WorkerId, s: Slot)
    requires |slots| == |choices| && s in BookedBy(slots, choices, id)
    ensures exists j :: 0 <= j < |slots| && Holds(choices, j, id) && slots[j] == s
    decreases |slots|
  {
    var n := |slots| - 1;
    if s in BookedBy(slots[..n], choices[..n], id) {
      BookedByFrom(slots[..n], choices[..n], id, s);
      var j :| 0 <= j < n && Holds(choices[..n], j, id) && slots[..n][j] == s;
      assert Holds(choices, j, id) && slots[j] == s;
    } else {
      assert Holds(choices, n, id) && slots[n] == s;
    }
  }

  /** A key some station in `bs` carries finds a record, that of a station carrying the key. */
  lemma {:induction false} LastByFinds(bs: seq<Slot>, keyOf: Slot -> string, key: string, m: nat)
    requires m < |bs| && keyOf(bs[m]) == key
    ensures exists k :: 0 <= k < |bs| && keyOf(bs[k]) == key && LastBy(bs, keyOf, key) == Some(RecordOf(bs[k]))
    decreases |bs|
  {
    var n := |bs| - 1;
    if keyOf(bs[n]) != key {
      assert bs[..n][m] == bs[m];
      LastByFinds(bs[..n], keyOf, key, m);
      var k :| 0 <= k < n && keyOf(bs[..n][k]) == key && LastBy(bs[..n], keyOf, key) == Some(RecordOf(bs[..n][k]));
      assert bs[..n][k] == bs[k];
    }
  }

  /** The bookkeeping in force when station `i` is decided. */
  function StateBefore(keying: DayKeying, workers: seq<Worker>, slots: seq<Slot>, i: nat): RunState
    requires i <= |slots|
  {
    RunSlots(keying, workers, slots[..i]).state
  }

  /**
   * Each station's decision is the filter-and-sort choice against the
   * bookkeeping of the stations before it.
   */
  lemma EachDecision(keying: DayKeying, workers: seq<Worker>, slots: seq<Slot>, i: nat)
    requires i < |slots|
    ensures var c := RunSlots(keying, workers, slots).choices[i];
            var st := StateBefore(keying, workers, slots, i);
            && (c.None? <==> forall k :: 0 <= k < |workers| ==> !Eligible(st, workers[k], slots[i]))
            && (c.Some? ==> c.value in workers && Eligible(st, c.value, slots[i]))
  {
    RunPrefix(keying, workers, slots, i);
  }

  /**
   * Whoever is assigned a station is available that day, prefers its shift
   * type (or "any") and lists its location, all ignoring case.
   */
  lemma AssignedWorkerQualifies(keying: DayKeying, workers: seq<Worker>, slots: seq<Slot>, i: nat)
    requires i < |slots|
    requires RunSlots(keying, workers, slots).choices[i].Some?
    ensures var w := RunSlots(keying, workers, slots).choices[i].value;
            && w in workers
            && ContainsIgnoringCase(w.availability, slots[i].day)
            && (Lower(w.preferredShift) == "any" || Lower(w.preferredShift) == Lower(ShiftTypeName(ShiftTypeOf(slots[i].time))))
            && ContainsIgnoringCase(w.canWorkStations, slots[i].location)
  {
    EachDecision(keying, workers, slots, i);
    ShiftTypeKeyIsLowerName(ShiftTypeOf(slots[i].time));
  }

  /** No worker holds two stations whose day texts agree ignoring case. */
  lemma NoDoubleBooking(keying: DayKeying, workers: seq<Worker>, slots: seq<Slot>, i: nat, j: nat, id: WorkerId)
    requires i < j < |slots|
    requires Holds(RunSlots(keying, workers, slots).choices, i, id)
    requires Holds(RunSlots(keying, workers, slots).choices, j, id)
    ensures !SameIgnoringCase(slots[i].day, slots[j].day)
  {
    var choices := RunSlots(keying, workers, slots).choices;
    RunPrefix(keying, workers, slots, j);
    var pre := RunSlots(keying, workers, slots[..j]);
    EachDecision(keying, workers, slots, j);
    RunReflects(keying, workers, slots[..j]);
    assert Holds(pre.choices, i, id);
    BookedByHas(slots[..j], pre.choices, id, i);
    var bs := BookedBy(slots[..j], pre.choices, id);
    var k :| 0 <= k < |bs| && bs[k] == slots[i];
    assert DaysOf(pre.state, id)[k] == slots[i].day;
  }

  lemma {:induction false} RunTotalWithinCap(keying: DayKeying, workers: seq<Worker>, slots: seq<Slot>, id: WorkerId)
    ensures TotalOf(RunSlots(keying, workers, slots).state, id) <= WeeklyCapMinutes
    decreases |slots|
  {
    if |slots| > 0 {
      RunTotalWithinCap(keying, workers, slots[..|slots| - 1], id);
    }
  }

  /**
   * The stations any worker holds add up to at most 72 hours; since this
   * holds of every prefix of the input, the running total never passes it.
   */
  lemma WeeklyCap(keying: DayKeying, workers: seq<Worker>, slots: seq<Slot>, id: WorkerId)
    ensures SumMinutes(BookedBy(slots, RunSlots(keying, workers, slots).choices, id)) <= WeeklyCapMinutes
  {
    RunReflects(keying, workers, slots);
    RunTotalWithinCap(keying, workers, slots, id);
  }

  /** Two day texts filed under one canonical key, the first naming a weekday, agree ignoring case. */
  lemma CanonicalKeySameDay(a: string, b: string)
    requires ParseDay(a).Some?
    requires HistoryKey(Canonical, b) == HistoryKey(Canonical, a)
    ensures SameIgnoringCase(a, b)
  {
    var p := ParseDay(a).value;
    LowerName(p);
    match ParseDay(b)
    case None =>
      assert b == Name(p);
    case Some(q) =>
      NameInjective(q, p);
  }

  /**
   * On a ledger the maps reflect, the history under the key of a station
   * worker `id` holds is the record of a station the worker holds under
   * that same key.
   */
  lemma LedgerHistoryFinds(keying: DayKeying, st: RunState, slots: seq<Slot>, choices: seq<Option<Worker>>, i: nat, id: WorkerId)
    requires |slots| == |choices| && i < |slots| && Holds(choices, i, id)
    requires Reflects(keying, st, slots, choices)
    ensures exists i' :: 0 <= i' < |slots|
                         && Holds(choices, i', id)
                         && HistoryKey(keying, slots[i'].day) == HistoryKey(keying, slots[i].day)
                         && HistoryAt(st, id, HistoryKey(keying, slots[i].day)) == Some(RecordOf(slots[i']))
  {
    var key := HistoryKey(keying, slots[i].day);
    BookedByHas(slots, choices, id, i);
    var bs := BookedBy(slots, choices, id);
    var m :| 0 <= m < |bs| && bs[m] == slots[i];
    var keyOf := (s: Slot) => HistoryKey(keying, s.day);
    LastByFinds(bs, keyOf, key, m);
    var k :| 0 <= k < |bs| && keyOf(bs[k]) == key && LastBy(bs, keyOf, key) == Some(RecordOf(bs[k]));
    BookedByFrom(slots, choices, id, bs[k]);
    var i' :| 0 <= i' < |slots| && Holds(choices, i', id) && slots[i'] == bs[k];
    assert HistoryAt(st, id, key) == LastKeyed(keying, bs, key);
  }

  /**
   * When worker `id` holds station `i` and a later station `j` is being
   * decided, the history under station `i`'s key holds a station the worker
   * took earlier on the same day text, ignoring case.
   */
  lemma HistoryHoldsEarlierStation(keying: DayKeying, workers: seq<Worker>, slots: seq<Slot>, i: nat, j: nat, id: WorkerId)
    requires i < j < |slots|
    requires Holds(RunSlots(keying, workers, slots).choices, i, id)
    ensures exists i' :: 0 <= i' < j
                         && Holds(RunSlots(keying, workers, slots).choices, i', id)
                         && HistoryKey(keying, slots[i'].day) == HistoryKey(keying, slots[i].day)
                         && HistoryAt(StateBefore(keying, workers, slots, j), id, HistoryKey(keying, slots[i].day)) == Some(RecordOf(slots[i']))
  {
    var choices := RunSlots(keying, workers, slots).choices;
    RunPrefix(keying, workers, slots, j);
    var pre := RunSlots(keying, workers, slots[..j]);
    RunReflects(keying, workers, slots[..j]);
    var key := HistoryKey(keying, slots[i].day);
    assert slots[..j][i] == slots[i] && pre.choices[i] == choices[i];
    LedgerHistoryFinds(keying, pre.state, slots[..j], pre.choices, i, id);
    var i' :| 0 <= i' < j
              && Holds(pre.choices, i', id)
              && HistoryKey(keying, slots[..j][i'].day) == key
              && HistoryAt(pre.state, id, key) == Some(RecordOf(slots[..j][i']));
    assert slots[..j][i'] == slots[i'] && pre.choices[i'] == choices[i'];
  }

  /** The run over a non-empty list is the run over all but the last station, then its decision. */
  lemma RunStep(keying: DayKeying, workers: seq<Worker>, slots: seq<Slot>)
    requires |slots| > 0
    ensures var before := RunSlots(keying, workers, slots[..|slots| - 1]);
            var c := Choose(workers, before.state, slots[|slots| - 1]);
            RunSlots(keying, workers, slots) == Run(before.choices + [c], Apply(keying, before.state, c, slots[|slots| - 1]))
  {
  }

  /** A station whose day text is already its canonical key is filed alike under both keyings. */
  lemma ApplyAgrees(st: RunState, c: Option<Worker>, slot: Slot)
    requires HistoryKey(Canonical, slot.day) == slot.day
    ensures Apply(RawText, st, c, slot) == Apply(Canonical, st, c, slot)
  {
    assert HistoryKey(RawText, slot.day) == HistoryKey(Canonical, slot.day);
  }

  /** Runs that agree before a station filed alike under both keyings agree after it. */
  lemma StepAgrees(workers: seq<Worker>, slots: seq<Slot>)
    requires |slots| > 0
    requires RunSlots(RawText, workers, slots[..|slots| - 1]) == RunSlots(Canonical, workers, slots[..|slots| - 1])
    requires HistoryKey(Canonical, slots[|slots| - 1].day) == slots[|slots| - 1].day
    ensures RunSlots(RawText, workers, slots) == RunSlots(Canonical, workers, slots)
  {
    var before := RunSlots(Canonical, workers, slots[..|slots| - 1]);
    var c := Choose(workers, before.state, slots[|slots| - 1]);
    ApplyAgrees(before.state, c, slots[|slots| - 1]);
    RunStep(RawText, workers, slots);
    RunStep(Canonical, workers, slots);
  }

  /** Every station's day text is the key canonical filing gives it, checked from the last one back. */
  predicate FiledAsSpelled(slots: seq<Slot>)
    decreases |slots|
  {
    |slots| == 0
    || (FiledAsSpelled(slots[..|slots| - 1])
        && HistoryKey(Canonical, slots[|slots| - 1].day) == slots[|slots| - 1].day)
  }

  lemma {:induction false} FiledAsSpelledWhenEach(slots: seq<Slot>)
    requires forall k :: 0 <= k < |slots| ==> HistoryKey(Canonical, slots[k].day) == slots[k].day
    ensures FiledAsSpelled(slots)
    decreases |slots|
  {
    if |slots| > 0 {
      var n := |slots| - 1;
      forall k | 0 <= k < n
        ensures HistoryKey(Canonical, slots[..n][k].day) == slots[..n][k].day
      {
        assert slots[..n][k] == slots[k];
      }
      FiledAsSpelledWhenEach(slots[..n]);
    }
  }

  lemma {:induction false} AgreesWhenFiledAsSpelled(workers: seq<Worker>, slots: seq<Slot>)
    requires FiledAsSpelled(slots)
    ensures RunSlots(RawText, workers, slots) == RunSlots(Canonical, workers, slots)
    decreases |slots|
  {
    if |slots| > 0 {
      AgreesWhenFiledAsSpelled(workers, slots[..|slots| - 1]);
      StepAgrees(workers, slots);
    }
  }

  /**
   * On input whose day texts are spelled as the weekday names (or name no
   * weekday) the allocator as written and the corrected one take the same
   * decisions and keep the same bookkeeping; there, every property proved of
   * the corrected run holds of the program as written.
   */
  lemma {:induction false} AsWrittenAgrees(workers: seq<Worker>, slots: seq<Slot>)
    requires forall k :: 0 <= k < |slots| ==> HistoryKey(Canonical, slots[k].day) == slots[k].day
    ensures RunSlots(RawText, workers, slots) == RunSlots(Canonical, workers, slots)
  {
    FiledAsSpelledWhenEach(slots);
    AgreesWhenFiledAsSpelled(workers, slots);
  }

  /**
   * With the history filed under canonical day names, a worker who holds a
   * station on one weekday and later in the input is given a station on the
   * next weekday has at least 12 hours between the first one's end and the
   * second one's start.
   */
  lemma RestBetweenConsecutiveDays(workers: seq<Worker>, slots: seq<Slot>, i: nat, j: nat, id: WorkerId)
    requires i < j < |slots|
    requires Holds(RunSlots(Canonical, workers, slots).choices, i, id)
    requires Holds(RunSlots(Canonical, workers, slots).choices, j, id)
    requires ParseDay(slots[i].day).Some? && ParseDay(slots[j].day).Some?
    requires Index(ParseDay(slots[i].day).value) + 1 == Index(ParseDay(slots[j].day).value)
    ensures RestMinutes(slots[i].time, slots[j].time) >= MinRestMinutes
  {
    var p := ParseDay(slots[i].day).value;
    assert Previous(ParseDay(slots[j].day).value) == Some(p);
    HistoryHoldsEarlierStation(Canonical, workers, slots, i, j, id);
    var i' :| 0 <= i' < j
              && Holds(RunSlots(Canonical, workers, slots).choices, i', id)
              && HistoryKey(Canonical, slots[i'].day) == HistoryKey(Canonical, slots[i].day)
              && HistoryAt(StateBefore(Canonical, workers, slots, j), id, HistoryKey(Canonical, slots[i].day)) == Some(RecordOf(slots[i']));
    if i' != i {
      CanonicalKeySameDay(slots[i].day, slots[i'].day);
      if i' < i {
        NoDoubleBooking(Canonical, workers, slots, i', i, id);
      } else {
        NoDoubleBooking(Canonical, workers, slots, i, i', id);
      }
    }
    EachDecision(Canonical, workers, slots, j);
    assert PreviousDayShift(StateBefore(Canonical, workers, slots, j), id, slots[j]) == Some(RecordOf(slots[i]));
  }

  /**
   * The allocator as written keeps the rest gap on input whose day texts are
   * spelled as the weekday names (or name no weekday).
   */
  lemma RestAsWrittenWhenSpelled(workers: seq<Worker>, slots: seq<Slot>, i: nat, j: nat, id: WorkerId)
    requires forall k :: 0 <= k < |slots| ==> HistoryKey(Canonical, slots[k].day) == slots[k].day
    requires i < j < |slots|
    requires Holds(RunSlots(RawText, workers, slots).choices, i, id)
    requires Holds(RunSlots(RawText, workers, slots).choices, j, id)
    requires ParseDay(slots[i].day).Some? && ParseDay(slots[j].day).Some?
    requires Index(ParseDay(slots[i].day).value) + 1 == Index(ParseDay(slots[j].day).value)
    ensures RestMinutes(slots[i].time, slots[j].time) >= MinRestMinutes
  {
    AsWrittenAgrees(workers, slots);
    RestBetweenConsecutiveDays(workers, slots, i, j, id);
  }
}
