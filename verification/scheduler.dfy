/**
 * The allocation engine, `allocateWorkers` in src/services/scheduler.js: one
 * greedy pass over the week's stations in input order. For each station the
 * workers are filtered on availability, shift preference, location,
 * one-station-per-day, a 12-hour rest after the previous day's shift and a
 * 72-hour weekly cap; the survivors are stably sorted by the position of the
 * station's location in their own location list, and the first one is
 * committed, or the station is marked "Unassigned".
 *
 * The worker and station lists, which the source reads from local storage,
 * are parameters; the three bookkeeping objects of the run are `RunState`.
 */
module Scheduler {
  import opened Optional
  import opened Text
  import opened Clock
  import opened Week
  import Ranking

  type WorkerId = nat

  /**
   * A worker as the allocator reads it: the day names it is available on,
   * one preferred shift ("Early", "Late", "Night" or "any", in any case), and
   * the locations it can work, in its own order of preference.
   */
  datatype Worker = Worker(
    id: WorkerId,
    name: string,
    availability: seq<string>,
    preferredShift: string,
    canWorkStations: seq<string>)

  /** A station: its day text as uploaded, its location and its time range. */
  datatype Slot = Slot(day: string, location: string, time: TimeRange)

  /** What `workerShiftHistory` keeps per worker and day. */
  datatype ShiftRecord = ShiftRecord(shiftType: ShiftType, time: TimeRange)

  function RecordOf(slot: Slot): ShiftRecord
  {
    ShiftRecord(ShiftTypeOf(slot.time), slot.time)
  }

  /**
   * The run's bookkeeping: `workerAllocations` (day texts committed, in
   * order), `workerShiftHistory` (day key to shift) and `workerTotalHours`
   * (kept here in minutes), each keyed by worker id.
   */
  datatype RunState = RunState(
    allocations: map<WorkerId, seq<string>>,
    history: map<WorkerId, map<string, ShiftRecord>>,
    totalMinutes: map<WorkerId, int>)

  const Fresh: RunState := RunState(map[], map[], map[])

  const WeeklyCapMinutes: int := 72 * 60
  const MinRestMinutes: int := 12 * 60
  const UnassignedLabel: string := "Unassigned"

  /**
   * How a committed shift is filed in the history. The source files it under
   * the station's day text as uploaded (`RawText`) but looks the previous
   * day up under its `daysOfWeek` spelling; `Canonical` files it under that
   * spelling whenever the text names a weekday.
   */
  datatype DayKeying = RawText | Canonical

  function HistoryKey(keying: DayKeying, dayText: string): string
  {
    match keying
    case RawText => dayText
    case Canonical =>
      match ParseDay(dayText)
      case Some(d) => Name(d)
      case None => dayText
  }

  function DaysOf(st: RunState, id: WorkerId): seq<string>
  {
    if id in st.allocations then st.allocations[id] else []
  }

  function HistoryOf(st: RunState, id: WorkerId): map<string, ShiftRecord>
  {
    if id in st.history then st.history[id] else map[]
  }

  function HistoryAt(st: RunState, id: WorkerId, key: string): Option<ShiftRecord>
  {
    var h := HistoryOf(st, id);
    if key in h then Some(h[key]) else None
  }

  /** `workerTotalHours[id] || 0`, in minutes. */
  function TotalOf(st: RunState, id: WorkerId): int
  {
    if id in st.totalMinutes then st.totalMinutes[id] else 0
  }

  // The six conditions of the eligibility filter (lines 68-112).

  predicate AvailableOn(w: Worker, slot: Slot)
  {
    ContainsIgnoringCase(w.availability, slot.day)
  }

  predicate PrefersShift(w: Worker, t: ShiftType)
  {
    Lower(w.preferredShift) == "any" || Lower(w.preferredShift) == ShiftTypeKey(t)
  }

  /** The key compared against is `shiftType.toLowerCase()` (line 73). */
  lemma ShiftTypeKeyIsLowerName(t: ShiftType)
    ensures Lower(ShiftTypeName(t)) == ShiftTypeKey(t)
  {
  }

  predicate QualifiedFor(w: Worker, slot: Slot)
  {
    ContainsIgnoringCase(w.canWorkStations, slot.location)
  }

  predicate FreeOnDay(st: RunState, w: Worker, slot: Slot)
  {
    !ContainsIgnoringCase(DaysOf(st, w.id), slot.day)
  }

  /** The history entry for the day before the station's day, if any (lines 83-89). */
  function PreviousDayShift(st: RunState, id: WorkerId, slot: Slot): Option<ShiftRecord>
  {
    match ParseDay(slot.day)
    case None => None
    case Some(d) =>
      match Previous(d)
      case None => None
      case Some(p) => HistoryAt(st, id, Name(p))
  }

  predicate Rested(st: RunState, w: Worker, slot: Slot)
  {
    match PreviousDayShift(st, w.id, slot)
    case None => true
    case Some(prev) => RestMinutes(prev.time, slot.time) >= MinRestMinutes
  }

  predicate WithinCap(st: RunState, w: Worker, slot: Slot)
  {
    !(TotalOf(st, w.id) + DurationMinutes(slot.time) > WeeklyCapMinutes)
  }

  predicate Eligible(st: RunState, w: Worker, slot: Slot)
  {
    && AvailableOn(w, slot)
    && PrefersShift(w, ShiftTypeOf(slot.time))
    && QualifiedFor(w, slot)
    && FreeOnDay(st, w, slot)
    && Rested(st, w, slot)
    && WithinCap(st, w, slot)
  }

  /** `workers.filter(...)`: the eligible workers, in their input order. */
  function EligibleWorkers(workers: seq<Worker>, st: RunState, slot: Slot): (r: seq<Worker>)
    ensures |r| <= |workers|
    ensures forall w :: w in r <==> w in workers && Eligible(st, w, slot)
  {
    if |workers| == 0 then []
    else
      assert workers == [workers[0]] + workers[1..];
      (if Eligible(st, workers[0], slot) then [workers[0]] else [])
        + EligibleWorkers(workers[1..], st, slot)
  }

  /**
   * The filter keeps input order: filtering two lists one after the other
   * gives the two filtered lists one after the other.
   */
  lemma {:induction false} EligibleWorkersAppend(a: seq<Worker>, b: seq<Worker>, st: RunState, slot: Slot)
    ensures EligibleWorkers(a + b, st, slot) == EligibleWorkers(a, st, slot) + EligibleWorkers(b, st, slot)
    decreases |a|
  {
    if |a| > 0 {
      assert (a + b)[0] == a[0] && (a + b)[1..] == a[1..] + b;
      EligibleWorkersAppend(a[1..], b, st, slot);
    } else {
      assert a + b == b;
    }
  }

  /** The sort key of line 116: case-sensitive position of the location, -1 if absent. */
  function Rank(w: Worker, slot: Slot): int
  {
    IndexOf(w.canWorkStations, slot.location)
  }

  /**
   * `k` is the position of the worker lines 115-119 pick: eligible, of the
   * smallest rank among the eligible, and the first such in input order.
   */
  predicate IsFirstBest(workers: seq<Worker>, st: RunState, slot: Slot, k: int)
  {
    && 0 <= k < |workers|
    && Eligible(st, workers[k], slot)
    && (forall j :: 0 <= j < |workers| && Eligible(st, workers[j], slot) ==> Rank(workers[k], slot) <= Rank(workers[j], slot))
    && (forall j :: 0 <= j < k && Eligible(st, workers[j], slot) ==> Rank(workers[j], slot) > Rank(workers[k], slot))
  }

  lemma HeadIsFirstBest(workers: seq<Worker>, st: RunState, slot: Slot, rest: Option<Worker>)
    requires |workers| > 0 && Eligible(st, workers[0], slot)
    requires rest.None? ==> forall k :: 0 <= k < |workers| - 1 ==> !Eligible(st, workers[1..][k], slot)
    requires rest.Some? ==> Rank(workers[0], slot) <= Rank(rest.value, slot)
    requires rest.Some? ==> exists k :: IsFirstBest(workers[1..], st, slot, k) && workers[1..][k] == rest.value
    ensures IsFirstBest(workers, st, slot, 0)
  {
    forall j | 0 < j < |workers| && Eligible(st, workers[j], slot)
      ensures Rank(workers[0], slot) <= Rank(workers[j], slot)
    {
      assert workers[j] == workers[1..][j - 1];
    }
  }

  lemma FirstBestShifts(workers: seq<Worker>, st: RunState, slot: Slot, k: int)
    requires |workers| > 0 && IsFirstBest(workers[1..], st, slot, k)
    requires !Eligible(st, workers[0], slot) || Rank(workers[0], slot) > Rank(workers[k + 1], slot)
    ensures IsFirstBest(workers, st, slot, k + 1)
  {
    forall j | 0 < j < |workers|
      ensures workers[j] == workers[1..][j - 1]
    {
    }
  }

  /**
   * The worker chosen for a station: scanning the workers in order, the
   * first eligible one of smallest rank. Nobody is chosen exactly when
   * nobody is eligible.
   */
  function Choose(workers: seq<Worker>, st: RunState, slot: Slot): (c: Option<Worker>)
    ensures c.None? <==> forall k :: 0 <= k < |workers| ==> !Eligible(st, workers[k], slot)
    ensures c.Some? ==> exists k :: IsFirstBest(workers, st, slot, k) && workers[k] == c.value
    ensures c.Some? ==> c.value in workers && Eligible(st, c.value, slot)
    decreases |workers|
  {
    if |workers| == 0 then None
    else
      var rest := Choose(workers[1..], st, slot);
      var w := workers[0];
      if Eligible(st, w, slot) && (rest.None? || Rank(w, slot) <= Rank(rest.value, slot)) then
        HeadIsFirstBest(workers, st, slot, rest);
        Some(w)
      else if rest.Some? then
        var k :| IsFirstBest(workers[1..], st, slot, k) && workers[1..][k] == rest.value;
        FirstBestShifts(workers, st, slot, k);
        rest
      else
        assert forall k :: 1 <= k < |workers| ==> workers[k] == workers[1..][k - 1];
        None
  }


  /**
   * Lines 68-119 as the source writes them: filter the workers, sort the
   * survivors stably by `Rank`, take the first.
   */
  function ChooseBySort(workers: seq<Worker>, st: RunState, slot: Slot): Option<Worker>
  {
    var ranked := Ranking.SortBy(EligibleWorkers(workers, st, slot), w => Rank(w, slot));
    if |ranked| == 0 then None else Some(ranked[0])
  }

  /** One step of the scan: the head wins unless a later worker ranks strictly better. */
  lemma ChooseStep(workers: seq<Worker>, st: RunState, slot: Slot)
    requires |workers| > 0
    ensures Choose(workers, st, slot)
      == if Eligible(st, workers[0], slot)
           && (Choose(workers[1..], st, slot).None? || Rank(workers[0], slot) <= Rank(Choose(workers[1..], st, slot).value, slot))
         then Some(workers[0]) else Choose(workers[1..], st, slot)
  {
  }

  /** One step of filter-then-sort: the head, if eligible, is inserted into the sorted rest. */
  lemma ChooseBySortStep(workers: seq<Worker>, st: RunState, slot: Slot)
    requires |workers| > 0
    ensures ChooseBySort(workers, st, slot)
      == if Eligible(st, workers[0], slot)
           && (ChooseBySort(workers[1..], st, slot).None? || Rank(workers[0], slot) <= Rank(ChooseBySort(workers[1..], st, slot).value, slot))
         then Some(workers[0]) else ChooseBySort(workers[1..], st, slot)
  {
    var key := w => Rank(w, slot);
    var tail := EligibleWorkers(workers[1..], st, slot);
    var sortedTail := Ranking.SortBy(tail, key);
    assert ChooseBySort(workers[1..], st, slot) == if |sortedTail| == 0 then None else Some(sortedTail[0]);
    if Eligible(st, workers[0], slot) {
      var all := [workers[0]] + tail;
      assert EligibleWorkers(workers, st, slot) == all;
      assert all[0] == workers[0] && all[1..] == tail;
      var ranked := Ranking.InsertBy(workers[0], sortedTail, key);
      assert Ranking.SortBy(all, key) == ranked;
      assert ranked[0] == if |sortedTail| == 0 || key(workers[0]) <= key(sortedTail[0]) then workers[0] else sortedTail[0];
    } else {
      assert EligibleWorkers(workers, st, slot) == tail;
    }
  }

  /** Filtering and stably sorting, then taking the head, is the first-best scan. */
  lemma {:induction false} SortedChoiceIsScan(workers: seq<Worker>, st: RunState, slot: Slot)
    ensures ChooseBySort(workers, st, slot) == Choose(workers, st, slot)
    decreases |workers|
  {
    if |workers| > 0 {
      SortedChoiceIsScan(workers[1..], st, slot);
      ChooseStep(workers, st, slot);
      ChooseBySortStep(workers, st, slot);
    }
  }

  /**
   * Lines 122-128: the chosen worker's day list gains the station's day text,
   * its history gains the shift under the day's key, and its total grows by
   * the duration; every other worker's bookkeeping is untouched.
   */
  function Commit(keying: DayKeying, st: RunState, w: Worker, slot: Slot): (r: RunState)
    ensures forall id :: DaysOf(r, id) == if id == w.id then DaysOf(st, id) + [slot.day] else DaysOf(st, id)
    ensures forall id :: TotalOf(r, id) == if id == w.id then TotalOf(st, id) + DurationMinutes(slot.time) else TotalOf(st, id)
    ensures forall id, key :: HistoryAt(r, id, key) ==
              if id == w.id && key == HistoryKey(keying, slot.day) then Some(RecordOf(slot)) else HistoryAt(st, id, key)
  {
    var id := w.id;
    RunState(
      st.allocations[id := DaysOf(st, id) + [slot.day]],
      st.history[id := HistoryOf(st, id)[HistoryKey(keying, slot.day) := RecordOf(slot)]],
      st.totalMinutes[id := TotalOf(st, id) + DurationMinutes(slot.time)])
  }

  /** The bookkeeping after a station's decision: a commit, or nothing for "Unassigned". */
  function Apply(keying: DayKeying, st: RunState, c: Option<Worker>, slot: Slot): RunState
  {
    if c.Some? then Commit(keying, st, c.value, slot) else st
  }

  /** The decisions taken so far, one per station, and the bookkeeping after them. */
  datatype Run = Run(choices: seq<Option<Worker>>, state: RunState)

  /** The pass of `stationsData.map(...)`, as a fold over the stations in order. */
  function RunSlots(keying: DayKeying, workers: seq<Worker>, slots: seq<Slot>): (r: Run)
    ensures |r.choices| == |slots|
    decreases |slots|
  {
    if |slots| == 0 then Run([], Fresh)
    else
      var before := RunSlots(keying, workers, slots[..|slots| - 1]);
      var slot := slots[|slots| - 1];
      var c := Choose(workers, before.state, slot);
      Run(before.choices + [c], Apply(keying, before.state, c, slot))
  }

  /** A station of the output: the input station plus `allocatedTo`. */
  datatype AllocatedSlot = AllocatedSlot(slot: Slot, allocatedTo: string)

  function Label(c: Option<Worker>): string
  {
    match c
    case Some(w) => w.name
    case None => UnassignedLabel
  }

  function Annotate(slots: seq<Slot>, choices: seq<Option<Worker>>): (out: seq<AllocatedSlot>)
    requires |choices| == |slots|
    ensures |out| == |slots|
    ensures forall i :: 0 <= i < |slots| ==> out[i].slot == slots[i] && out[i].allocatedTo == Label(choices[i])
  {
    seq(|slots|, i requires 0 <= i < |slots| => AllocatedSlot(slots[i], Label(choices[i])))
  }

  /**
   * allocateWorkers with the history filed as `keying` says. The output lists
   * the input stations in their order, each unchanged but for the worker
   * name chosen for it or "Unassigned".
   */
  function AllocateWith(keying: DayKeying, workers: seq<Worker>, slots: seq<Slot>): (out: seq<AllocatedSlot>)
    ensures |out| == |slots|
    ensures forall i :: 0 <= i < |slots| ==> out[i].slot == slots[i]
    ensures forall i :: 0 <= i < |slots| ==>
      out[i].allocatedTo == Label(RunSlots(keying, workers, slots).choices[i])
  {
    Annotate(slots, RunSlots(keying, workers, slots).choices)
  }

  /** allocateWorkers with the history filed under canonical day names. */
  function Allocate(workers: seq<Worker>, slots: seq<Slot>): (out: seq<AllocatedSlot>)
    ensures |out| == |slots|
    ensures forall i :: 0 <= i < |slots| ==> out[i].slot == slots[i]
    ensures forall i :: 0 <= i < |slots| ==>
      out[i].allocatedTo == Label(RunSlots(Canonical, workers, slots).choices[i])
  {
    AllocateWith(Canonical, workers, slots)
  }

  /** allocateWorkers as written: history filed under the raw day text. */
  function AllocateAsWritten(workers: seq<Worker>, slots: seq<Slot>): (out: seq<AllocatedSlot>)
    ensures |out| == |slots|
    ensures forall i :: 0 <= i < |slots| ==> out[i].slot == slots[i]
    ensures forall i :: 0 <= i < |slots| ==>
      out[i].allocatedTo == Label(RunSlots(RawText, workers, slots).choices[i])
  {
    AllocateWith(RawText, workers, slots)
  }
}
