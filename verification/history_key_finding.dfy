/**
 * The history of committed shifts is filed under the station's day text as
 * uploaded (scheduler.js line 127) but the rest check looks the previous day
 * up under its `daysOfWeek` spelling (line 88). A shift filed under a day
 * text not spelled exactly "Monday", "Tuesday", ... is never found by the
 * next day's rest check, so the 12-hour rule is skipped for that pair of
 * stations; the spelling of the later station does not matter. This module
 * gives an input on which that happens, and the same input under canonical
 * filing, where the rule holds.
 */
module HistoryKeyFinding {
  import opened Optional
  import opened Text
  import opened Clock
  import opened Week
  import opened Scheduler

  /** A worker free on Monday and Tuesday (lower-case), any shift, one station. */
  const Sample: Worker := Worker(0, "Ana", ["monday", "tuesday"], "any", ["Depot"])

  /** A late shift on Monday, then an early shift on Tuesday: 8 hours apart. */
  const MondayLate: Slot := Slot("monday", "Depot", TimeRange(1400, 2200))
  const TuesdayEarly: Slot := Slot("tuesday", "Depot", TimeRange(600, 1400))

  lemma SampleDays()
    ensures ParseDay("monday") == Some(Monday) && ParseDay("tuesday") == Some(Tuesday)
    ensures !SameIgnoringCase("monday", "tuesday")
  {
    LowerOfLowercase("monday");
    LowerOfLowercase("tuesday");
    assert Key(Monday) == "monday";
    assert Key(Tuesday) == "tuesday";
  }

  lemma SampleEligibleFresh()
    ensures Eligible(Fresh, Sample, MondayLate)
  {
    SampleQualifies(MondayLate, 0);
    EligibleWhenFresh(Sample, MondayLate);
  }

  /**
   * Before the first commit nothing is booked or filed, so a worker who is
   * available, prefers the shift and lists the station is eligible for any
   * station within the cap.
   */
  lemma EligibleWhenFresh(w: Worker, slot: Slot)
    requires AvailableOn(w, slot) && PrefersShift(w, ShiftTypeOf(slot.time)) && QualifiedFor(w, slot)
    requires DurationMinutes(slot.time) <= WeeklyCapMinutes
    ensures Eligible(Fresh, w, slot)
  {
    assert DaysOf(Fresh, w.id) == [];
    assert forall key :: HistoryAt(Fresh, w.id, key) == None;
  }

  lemma SampleRest()
    ensures RestMinutes(MondayLate.time, TuesdayEarly.time) == 480
  {
  }

  /** A run over two stations, one decision after the other. */
  lemma RunOfTwo(keying: DayKeying, workers: seq<Worker>, a: Slot, b: Slot)
    ensures var first := Choose(workers, Fresh, a);
            var st := Apply(keying, Fresh, first, a);
            RunSlots(keying, workers, [a, b]).choices == [first, Choose(workers, st, b)]
  {
    var first := Choose(workers, Fresh, a);
    assert RunSlots(keying, workers, []) == Run([], Fresh);
    assert [a][..0] == [];
    var one := RunSlots(keying, workers, [a]);
    assert one == Run([first], Apply(keying, Fresh, first, a));
    assert [a, b][..1] == [a];
    assert RunSlots(keying, workers, [a, b]).choices == one.choices + [Choose(workers, one.state, b)];
  }

  /** With one worker, the choice is that worker exactly when it is eligible. */
  lemma ChooseAlone(w: Worker, st: RunState, slot: Slot)
    ensures Choose([w], st, slot) == if Eligible(st, w, slot) then Some(w) else None
  {
  }

  /** Under raw filing, Monday's shift is not found when Tuesday is checked. */
  lemma RawTuesdayEligible()
    ensures Eligible(Commit(RawText, Fresh, Sample, MondayLate), Sample, TuesdayEarly)
  {
    var st := Commit(RawText, Fresh, Sample, MondayLate);
    RawTuesdayFree();
    RawTuesdayRested();
    assert WithinCap(st, Sample, TuesdayEarly);
    SampleQualifies(TuesdayEarly, 1);
  }

  lemma RawTuesdayFree()
    ensures FreeOnDay(Commit(RawText, Fresh, Sample, MondayLate), Sample, TuesdayEarly)
  {
    SampleDays();
    assert DaysOf(Commit(RawText, Fresh, Sample, MondayLate), 0) == ["monday"];
  }

  /** Monday's shift sits under "monday"; the rest check asks for "Monday". */
  lemma RawTuesdayRested()
    ensures Rested(Commit(RawText, Fresh, Sample, MondayLate), Sample, TuesdayEarly)
  {
    SampleDays();
    assert HistoryAt(Commit(RawText, Fresh, Sample, MondayLate), 0, "Monday") == None;
  }

  /** The parts of eligibility that do not depend on the bookkeeping. */
  lemma SampleQualifies(slot: Slot, k: nat)
    requires k < |Sample.availability| && slot.day == Sample.availability[k]
    requires slot.location == "Depot"
    ensures AvailableOn(Sample, slot) && QualifiedFor(Sample, slot)
    ensures PrefersShift(Sample, ShiftTypeOf(slot.time))
  {
    LowerOfLowercase("any");
    assert SameIgnoringCase(Sample.availability[k], slot.day);
    assert SameIgnoringCase(Sample.canWorkStations[0], slot.location);
  }

  /** Under canonical filing, Monday's late shift sits under "Monday". */
  lemma CanonicalMondayFiled()
    ensures HistoryAt(Commit(Canonical, Fresh, Sample, MondayLate), 0, "Monday") == Some(RecordOf(MondayLate))
  {
    SampleDays();
    assert HistoryKey(Canonical, MondayLate.day) == "Monday";
  }

  /** Tuesday's rest check looks Monday up under "Monday". */
  lemma TuesdayLooksUpMonday(st: RunState)
    ensures PreviousDayShift(st, 0, TuesdayEarly) == HistoryAt(st, 0, "Monday")
  {
    SampleDays();
    PreviousDayLookup(st, 0, TuesdayEarly, Tuesday, Monday);
  }

  /** A station on day `d` looks the history up under the name of the day before. */
  lemma PreviousDayLookup(st: RunState, id: WorkerId, slot: Slot, d: Day, p: Day)
    requires ParseDay(slot.day) == Some(d) && Index(p) + 1 == Index(d)
    ensures PreviousDayShift(st, id, slot) == HistoryAt(st, id, Name(p))
  {
    assert Previous(d) == Some(p);
  }

  /** Under canonical filing, Monday's late shift is found and is too close. */
  lemma CanonicalTuesdayRejected()
    ensures !Eligible(Commit(Canonical, Fresh, Sample, MondayLate), Sample, TuesdayEarly)
  {
    var st := Commit(Canonical, Fresh, Sample, MondayLate);
    CanonicalMondayFiled();
    TuesdayLooksUpMonday(st);
    SampleRest();
    assert !Rested(st, Sample, TuesdayEarly);
  }

  /**
   * Filed under the raw day text, the worker gets both stations although
   * only 8 hours separate them.
   */
  lemma RawKeyingSkipsRestCheck()
    ensures RunSlots(RawText, [Sample], [MondayLate, TuesdayEarly]).choices == [Some(Sample), Some(Sample)]
    ensures RestMinutes(MondayLate.time, TuesdayEarly.time) < MinRestMinutes
  {
    RunOfTwo(RawText, [Sample], MondayLate, TuesdayEarly);
    SampleEligibleFresh();
    ChooseAlone(Sample, Fresh, MondayLate);
    RawTuesdayEligible();
    ChooseAlone(Sample, Commit(RawText, Fresh, Sample, MondayLate), TuesdayEarly);
    SampleRest();
  }

  /** Filed under the canonical name, the same input leaves Tuesday unassigned. */
  lemma CanonicalKeyingKeepsRest()
    ensures RunSlots(Canonical, [Sample], [MondayLate, TuesdayEarly]).choices == [Some(Sample), None]
  {
    RunOfTwo(Canonical, [Sample], MondayLate, TuesdayEarly);
    SampleEligibleFresh();
    ChooseAlone(Sample, Fresh, MondayLate);
    CanonicalTuesdayRejected();
    ChooseAlone(Sample, Commit(Canonical, Fresh, Sample, MondayLate), TuesdayEarly);
  }

  /** The same worker and shifts, with Monday spelled as in `daysOfWeek`. */
  const ExactSample: Worker := Worker(0, "Ana", ["Monday", "tuesday"], "any", ["Depot"])
  const ExactMondayLate: Slot := Slot("Monday", "Depot", TimeRange(1400, 2200))

  lemma ExactSampleQualifies(slot: Slot, k: nat)
    requires k < |ExactSample.availability| && slot.day == ExactSample.availability[k]
    requires slot.location == "Depot"
    ensures AvailableOn(ExactSample, slot) && QualifiedFor(ExactSample, slot)
    ensures PrefersShift(ExactSample, ShiftTypeOf(slot.time))
  {
    LowerOfLowercase("any");
    assert SameIgnoringCase(ExactSample.availability[k], slot.day);
    assert SameIgnoringCase(ExactSample.canWorkStations[0], slot.location);
  }

  /** Filed under its exact spelling, Monday's late shift is found on Tuesday and is too close. */
  lemma ExactTuesdayRejected()
    ensures !Eligible(Commit(RawText, Fresh, ExactSample, ExactMondayLate), ExactSample, TuesdayEarly)
  {
    var st := Commit(RawText, Fresh, ExactSample, ExactMondayLate);
    assert HistoryAt(st, 0, "Monday") == Some(RecordOf(ExactMondayLate));
    TuesdayLooksUpMonday(st);
    SampleRest();
    assert !Rested(st, ExactSample, TuesdayEarly);
  }

  /**
   * The skip needs the earlier station's day text to be misspelled: when
   * Monday is spelled as in `daysOfWeek`, the allocator as written finds it
   * and leaves the lower-case Tuesday station unassigned.
   */
  lemma ExactEarlierSpellingKeepsRest()
    ensures RunSlots(RawText, [ExactSample], [ExactMondayLate, TuesdayEarly]).choices == [Some(ExactSample), None]
  {
    RunOfTwo(RawText, [ExactSample], ExactMondayLate, TuesdayEarly);
    ExactSampleQualifies(ExactMondayLate, 0);
    EligibleWhenFresh(ExactSample, ExactMondayLate);
    ChooseAlone(ExactSample, Fresh, ExactMondayLate);
    ExactTuesdayRejected();
    ChooseAlone(ExactSample, Commit(RawText, Fresh, ExactSample, ExactMondayLate), TuesdayEarly);
  }
}
