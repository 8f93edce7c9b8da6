/**
 * What the dashboard shows of a run of the allocator: every row belongs to
 * a worker of the input, every station a worker is given appears in that
 * worker's row when names identify workers, and up to twelve stations get
 * twelve different colours. The first two hold whichever way the history
 * is filed, so of allocateWorkers as written too.
 */
module DashboardProperties {
  import opened Optional
  import opened Text
  import opened Scheduler
  import opened SchedulerProperties
  import opened Dashboard

  /** Every row of the formatted schedule carries the name of an input worker. */
  lemma FormattedRowsAreWorkers(keying: DayKeying, workers: seq<Worker>, slots: seq<Slot>, name: string)
    requires name in FormatSchedule(AllocateWith(keying, workers, slots)).rows
    ensures exists w :: w in workers && w.name == name
  {
    var out := AllocateWith(keying, workers, slots);
    var i :| 0 <= i < |out| && Counted(out[i].allocatedTo) && out[i].allocatedTo == name;
    EachDecision(keying, workers, slots, i);
    assert RunSlots(keying, workers, slots).choices[i].Some?;
  }

  /**
   * When no two workers with different ids share a name, each station given
   * to a worker with a shown name sits in that worker's row under its day
   * text: the allocator never gives one worker two stations on one day
   * text, so nothing overwrites it.
   */
  lemma AssignmentShown(keying: DayKeying, workers: seq<Worker>, slots: seq<Slot>, i: nat)
    requires i < |slots|
    requires forall a, b :: a in workers && b in workers && a.name == b.name ==> a.id == b.id
    requires RunSlots(keying, workers, slots).choices[i].Some?
    requires Counted(RunSlots(keying, workers, slots).choices[i].value.name)
    ensures var name := RunSlots(keying, workers, slots).choices[i].value.name;
            var s := FormatSchedule(AllocateWith(keying, workers, slots));
            && name in s.rows && slots[i].day in s.rows[name]
            && s.rows[name][slots[i].day] == Cell(slots[i].location, Some(slots[i].time))
  {
    var choices := RunSlots(keying, workers, slots).choices;
    var w := choices[i].value;
    var out := AllocateWith(keying, workers, slots);
    EachDecision(keying, workers, slots, i);
    forall j | i < j < |out| && Counted(out[j].allocatedTo) && out[j].allocatedTo == w.name
      ensures out[j].slot.day != slots[i].day
    {
      EachDecision(keying, workers, slots, j);
      assert choices[j].Some?;
      NoDoubleBooking(keying, workers, slots, i, j, w.id);
    }
    assert LastFor(out, i, w.name, slots[i].day);
    FormattedCell(out, w.name, slots[i].day);
  }

  /** With at most twelve stations in the grid, no two stations share a colour. */
  lemma StationColorsDistinct(s: Schedule, x: string, y: string)
    requires WellFormed(s)
    requires |UniqueStations(s)| <= |BaseColors|
    requires x in UniqueStations(s) && y in UniqueStations(s) && x != y
    ensures x in AssignStationColors(s) && y in AssignStationColors(s)
    ensures AssignStationColors(s)[x] != AssignStationColors(s)[y]
  {
    ColorsDistinctWithinPalette(UniqueStations(s), x, y);
  }
}
