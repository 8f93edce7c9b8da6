/**
 * The pure parts of the dashboard: turning the allocator's output into the
 * per-worker weekly grid (formatSchedule) and giving every station shown in
 * the grid a colour (generateUniqueColors, assignStationColors).
 *
 * A JavaScript object is modelled as a `map` plus, where the order of its
 * keys is observable, the `seq` of keys in insertion order.
 */
module Dashboard {
  import opened Optional
  import opened Text
  import opened Clock
  import opened Scheduler

  /** One grid cell: `{ location, time }`; the filler cell's time is `''`. */
  datatype Cell = Cell(location: string, time: Option<TimeRange>)

  const UnassignedCell: Cell := Cell(UnassignedLabel, None)

  /** The dashboard's `daysOfWeek`, which starts on Sunday. */
  const GridDays: seq<string> := ["Sunday", "Monday", "Tuesday", "Wednesday", "Thursday", "Friday", "Saturday"]

  /** The formatted schedule: rows by worker name, and the names in insertion order. */
  datatype Schedule = Schedule(workers: seq<string>, rows: map<string, map<string, Cell>>)

  /**
   * A name or location the dashboard shows: truthy (non-empty) and not
   * "Unassigned" (lines 37 and 71).
   */
  predicate Counted(text: string)
  {
    text != "" && text != UnassignedLabel
  }

  predicate Distinct(xs: seq<string>)
  {
    forall i, j :: 0 <= i < j < |xs| ==> xs[i] != xs[j]
  }

  /**
   * The elements of `xs` in order of first appearance: what a JavaScript
   * `Set`, or an object's keys, hold after adding `xs` one by one.
   */
  function Dedupe(xs: seq<string>): (r: seq<string>)
    ensures Distinct(r)
    ensures forall x :: x in r <==> x in xs
    decreases |xs|
  {
    if |xs| == 0 then []
    else
      var n := |xs| - 1;
      var d := Dedupe(xs[..n]);
      assert forall x :: x in xs <==> x in xs[..n] || x == xs[n] by {
        assert xs == xs[..n] + [xs[n]];
      }
      if xs[n] in d then d else d + [xs[n]]
  }

  /** Dedupe lists each element at the place of its first occurrence, in that order. */
  lemma {:induction false} DedupeFirstSeenOrder(xs: seq<string>)
    ensures forall i, j :: 0 <= i < j < |Dedupe(xs)| ==> IndexOf(xs, Dedupe(xs)[i]) < IndexOf(xs, Dedupe(xs)[j])
    decreases |xs|
  {
    if |xs| > 0 {
      var n := |xs| - 1;
      var d := Dedupe(xs[..n]);
      DedupeFirstSeenOrder(xs[..n]);
      assert forall y :: y in d <==> y in xs[..n];
      FirstSeenExtends(xs[..n], xs[n], d);
      assert xs[..n] + [xs[n]] == xs;
    }
  }

  /** Appending to the list keeps a first-seen ordering, and a new element goes last. */
  /** Appending to the input keeps the first-seen order of what was already seen. */
  lemma FirstSeenKept(xs: seq<string>, x: string, d: seq<string>)
    requires forall i, j :: 0 <= i < j < |d| ==> IndexOf(xs, d[i]) < IndexOf(xs, d[j])
    requires forall y :: y in d <==> y in xs
    ensures forall i, j :: 0 <= i < j < |d| ==> IndexOf(xs + [x], d[i]) < IndexOf(xs + [x], d[j])
  {
    forall i, j | 0 <= i < j < |d|
      ensures IndexOf(xs + [x], d[i]) < IndexOf(xs + [x], d[j])
    {
      assert d[i] in d && d[j] in d;
      IndexOfExtend(xs, x, d[i]);
      IndexOfExtend(xs, x, d[j]);
    }
  }

  lemma FirstSeenExtends(xs: seq<string>, x: string, d: seq<string>)
    requires forall i, j :: 0 <= i < j < |d| ==> IndexOf(xs, d[i]) < IndexOf(xs, d[j])
    requires forall y :: y in d <==> y in xs
    ensures forall i, j :: 0 <= i < j < |d| ==> IndexOf(xs + [x], d[i]) < IndexOf(xs + [x], d[j])
    ensures x !in d ==>
      var r := d + [x];
      forall i, j :: 0 <= i < j < |r| ==> IndexOf(xs + [x], r[i]) < IndexOf(xs + [x], r[j])
  {
    FirstSeenKept(xs, x, d);
    if x !in d {
      IndexOfExtend(xs, x, x);
      var r := d + [x];
      forall i, j | 0 <= i < j < |r|
        ensures IndexOf(xs + [x], r[i]) < IndexOf(xs + [x], r[j])
      {
        assert r[i] == d[i] && d[i] in d;
        IndexOfExtend(xs, x, d[i]);
        if j < |d| {
          assert r[j] == d[j];
        } else {
          assert r[j] == x;
        }
      }
    }
  }

  /** The first position holding `y` is the one position before which `y` does not occur. */
  lemma IndexOfIsFirst(xs: seq<string>, y: string, k: nat)
    requires k < |xs| && xs[k] == y && y !in xs[..k]
    ensures IndexOf(xs, y) == k
  {
    assert xs[k] in xs;
    var r := IndexOf(xs, y);
    assert forall t :: 0 <= t < k ==> xs[..k][t] == xs[t];
    assert forall t :: 0 <= t < r ==> xs[..r][t] == xs[t];
  }

  /** Appending to a list leaves the first position of what it already held. */
  lemma IndexOfExtend(xs: seq<string>, x: string, y: string)
    ensures y in xs ==> IndexOf(xs + [x], y) == IndexOf(xs, y)
    ensures y !in xs && y == x ==> IndexOf(xs + [x], y) == |xs|
  {
    if y in xs {
      var m := IndexOf(xs, y);
      assert (xs + [x])[..m] == xs[..m];
      IndexOfIsFirst(xs + [x], y, m);
    } else if y == x {
      assert (xs + [x])[..|xs|] == xs;
      IndexOfIsFirst(xs + [x], y, |xs|);
    }
  }

  /** The names `formatSchedule` gives rows to, in input order, repeats kept. */
  function CountedNames(out: seq<AllocatedSlot>): (r: seq<string>)
    ensures forall x :: x in r <==> exists i :: 0 <= i < |out| && Counted(out[i].allocatedTo) && out[i].allocatedTo == x
    decreases |out|
  {
    if |out| == 0 then []
    else
      var n := |out| - 1;
      var earlier := CountedNames(out[..n]);
      assert forall i :: 0 <= i < n ==> out[..n][i] == out[i];
      if Counted(out[n].allocatedTo) then earlier + [out[n].allocatedTo] else earlier
  }

  /** Names are collected in input order: a concatenation yields the two lists of names in turn. */
  lemma {:induction false} CountedNamesAppend(a: seq<AllocatedSlot>, b: seq<AllocatedSlot>)
    ensures CountedNames(a + b) == CountedNames(a) + CountedNames(b)
    decreases |b|
  {
    if |b| > 0 {
      var n := |b| - 1;
      assert (a + b)[..|a| + n] == a + b[..n];
      assert (a + b)[|a| + n] == b[n];
      CountedNamesAppend(a, b[..n]);
    } else {
      assert a + b == a;
    }
  }

  function CellOf(a: AllocatedSlot): Cell
  {
    Cell(a.slot.location, Some(a.slot.time))
  }

  /** Output station `i` is the last one putting worker `w` on day text `day`. */
  predicate LastFor(out: seq<AllocatedSlot>, i: int, w: string, day: string)
  {
    && 0 <= i < |out|
    && Counted(out[i].allocatedTo) && out[i].allocatedTo == w && out[i].slot.day == day
    && forall j :: i < j < |out| ==> !(Counted(out[j].allocatedTo) && out[j].allocatedTo == w && out[j].slot.day == day)
  }

  /**
   * The first loop of formatSchedule (lines 36-49): each counted station
   * writes its cell into its worker's row under its day text as uploaded,
   * so a later station on the same day text overwrites an earlier one.
   */
  function PlaceSlots(out: seq<AllocatedSlot>): Schedule
    decreases |out|
  {
    if |out| == 0 then Schedule([], map[])
    else
      var n := |out| - 1;
      var s := PlaceSlots(out[..n]);
      var a := out[n];
      if Counted(a.allocatedTo) then
        var w := a.allocatedTo;
        var row := if w in s.rows then s.rows[w] else map[];
        Schedule(if w in s.rows then s.workers else s.workers + [w], s.rows[w := row[a.slot.day := CellOf(a)]])
      else s
  }

  /** The rows are the counted names, listed in order of first appearance. */
  lemma {:induction false} PlacedWorkers(out: seq<AllocatedSlot>)
    ensures PlaceSlots(out).workers == Dedupe(CountedNames(out))
    ensures forall w :: w in PlaceSlots(out).rows <==> w in PlaceSlots(out).workers
    decreases |out|
  {
    if |out| > 0 {
      PlacedWorkers(out[..|out| - 1]);
    }
  }

  /** Station `i` is the last one putting worker `w` on day text `day` exactly when the row holds its cell there. */
  lemma {:induction false} PlacedCell(out: seq<AllocatedSlot>, w: string, day: string)
    ensures var s := PlaceSlots(out);
            (w in s.rows && day in s.rows[w]) <==> exists i :: LastFor(out, i, w, day)
    ensures forall i :: LastFor(out, i, w, day) ==> PlaceSlots(out).rows[w][day] == CellOf(out[i])
    decreases |out|
  {
    if |out| > 0 {
      var n := |out| - 1;
      PlacedCell(out[..n], w, day);
      PlaceStep(out, w, day);
      var a := out[n];
      if Counted(a.allocatedTo) && a.allocatedTo == w && a.slot.day == day {
        assert LastFor(out, n, w, day);
      } else {
        LastForPrefix(out, w, day);
        if exists i :: LastFor(out[..n], i, w, day) {
          var i :| LastFor(out[..n], i, w, day);
          assert LastFor(out, i, w, day);
        }
      }
    }
  }

  /** One station of the first loop: it writes its own cell and no other. */
  lemma PlaceStep(out: seq<AllocatedSlot>, w: string, day: string)
    requires |out| > 0
    ensures var n := |out| - 1;
            var s := PlaceSlots(out[..n]);
            var t := PlaceSlots(out);
            var a := out[n];
            if Counted(a.allocatedTo) && a.allocatedTo == w && a.slot.day == day then
              w in t.rows && day in t.rows[w] && t.rows[w][day] == CellOf(a)
            else
              && ((w in t.rows && day in t.rows[w]) <==> (w in s.rows && day in s.rows[w]))
              && (w in s.rows && day in s.rows[w] ==> t.rows[w][day] == s.rows[w][day])
  {
  }

  /** When the last station does not write (w, day), the last writer is the prefix's. */
  lemma LastForPrefix(out: seq<AllocatedSlot>, w: string, day: string)
    requires |out| > 0
    requires var a := out[|out| - 1]; !(Counted(a.allocatedTo) && a.allocatedTo == w && a.slot.day == day)
    ensures forall i :: LastFor(out, i, w, day) <==> LastFor(out[..|out| - 1], i, w, day)
  {
    var n := |out| - 1;
    assert forall j :: 0 <= j < n ==> out[..n][j] == out[j];
  }

  /** formatSchedule's second loop: fill every missing weekday with the "Unassigned" cell. */
  function FillRow(row: map<string, Cell>): (r: map<string, Cell>)
    ensures forall d :: d in r <==> d in row || d in GridDays
  {
    map d | d in row.Keys + (set x | x in GridDays) :: if d in row then row[d] else UnassignedCell
  }

  predicate CoversDays(row: map<string, Cell>, days: seq<string>)
  {
    forall d :: d in days ==> d in row
  }

  /**
   * Every row has a cell for each day of the grid, and the names of the rows
   * are listed once each.
   */
  ghost predicate WellFormed(s: Schedule)
  {
    && Distinct(s.workers)
    && (forall w :: w in s.rows <==> w in s.workers)
    && (forall w :: w in s.rows ==> CoversDays(s.rows[w], GridDays))
  }

  /**
   * formatSchedule (lines 33-63): one row per worker named by a station,
   * rows in order of first appearance.
   */
  function FormatSchedule(out: seq<AllocatedSlot>): (s: Schedule)
    ensures WellFormed(s)
    ensures s.workers == Dedupe(CountedNames(out))
    ensures forall w :: w in s.rows <==>
      exists i :: 0 <= i < |out| && Counted(out[i].allocatedTo) && out[i].allocatedTo == w
  {
    var placed := PlaceSlots(out);
    PlacedWorkers(out);
    Schedule(placed.workers, map w | w in placed.rows :: FillRow(placed.rows[w]))
  }

  /**
   * A worker's row holds, under each day text, the cell of the last station
   * putting the worker on that day text, and the "Unassigned" cell on every
   * grid day no station fills.
   */
  lemma FormattedCell(out: seq<AllocatedSlot>, w: string, day: string)
    requires w in FormatSchedule(out).rows
    ensures var row := FormatSchedule(out).rows[w];
            && (day in row <==> day in GridDays || exists i :: LastFor(out, i, w, day))
            && (forall i :: LastFor(out, i, w, day) ==> row[day] == CellOf(out[i]))
            && (day in GridDays && (forall i :: !LastFor(out, i, w, day)) ==> row[day] == UnassignedCell)
  {
    PlacedCell(out, w, day);
  }

  /** The twelve colours of generateUniqueColors (lines 91-94). */
  const BaseColors: seq<string> := [
    "#f44336", "#4caf50", "#2196f3", "#ff9800", "#9c27b0", "#00bcd4",
    "#8bc34a", "#ff5722", "#3f51b5", "#673ab7", "#ffeb3b", "#cddc39"
  ]

  lemma PaletteDistinct()
    ensures Distinct(BaseColors)
  {
  }

  /** generateUniqueColors (lines 89-101): the palette repeated, cut to `n`. */
  function UniqueColors(n: nat): (r: seq<string>)
    ensures |r| == n
    ensures forall i :: 0 <= i < n ==> r[i] == BaseColors[i % |BaseColors|]
  {
    if n == 0 then [] else UniqueColors(n - 1) + [BaseColors[(n - 1) % |BaseColors|]]
  }

  /** Within the first twelve positions the palette is used as is. */
  lemma ColorAt(n: nat, i: nat)
    requires i < n && i < |BaseColors|
    ensures UniqueColors(n)[i] == BaseColors[i]
  {
    assert i % |BaseColors| == i;
  }

  /** The first twelve colours are all different. */
  lemma FirstColorsDistinct(n: nat, i: nat, j: nat)
    requires i < n <= |BaseColors| && j < n && i != j
    ensures UniqueColors(n)[i] != UniqueColors(n)[j]
  {
    ColorAt(n, i);
    ColorAt(n, j);
    PaletteDistinct();
  }

  /** Two positions get one colour exactly when they are a multiple of twelve apart. */
  lemma SharedColor(n: nat, i: nat, j: nat)
    requires i < n && j < n
    ensures UniqueColors(n)[i] == UniqueColors(n)[j] <==> i % 12 == j % 12
  {
    PaletteDistinct();
  }

  /** The locations of one row on the given days, skipping the empty and "Unassigned" ones. */
  function RowStations(row: map<string, Cell>, days: seq<string>): (r: seq<string>)
    requires CoversDays(row, days)
    ensures forall x :: x in r <==> Counted(x) && exists k :: 0 <= k < |days| && row[days[k]].location == x
    decreases |days|
  {
    if |days| == 0 then []
    else
      var n := |days| - 1;
      var earlier := RowStations(row, days[..n]);
      assert forall k :: 0 <= k < n ==> days[..n][k] == days[k];
      var x := row[days[n]].location;
      if Counted(x) then earlier + [x] else earlier
  }

  /** Location `x` appears, non-empty and not "Unassigned", in some row on a grid day. */
  ghost predicate Shows(s: Schedule, x: string)
  {
    Counted(x) && exists w, d :: w in s.rows && d in GridDays && d in s.rows[w] && s.rows[w][d].location == x
  }

  /** The locations met walking rows `ws` in order and each row over `days`. */
  function Visits(s: Schedule, ws: seq<string>, days: seq<string>): (r: seq<string>)
    requires forall k :: 0 <= k < |ws| ==> ws[k] in s.rows && CoversDays(s.rows[ws[k]], days)
    ensures forall x :: x in r <==> exists k :: 0 <= k < |ws| && x in RowStations(s.rows[ws[k]], days)
    decreases |ws|
  {
    if |ws| == 0 then []
    else
      var n := |ws| - 1;
      var earlier := Visits(s, ws[..n], days);
      assert forall k :: 0 <= k < n ==> ws[..n][k] == ws[k];
      earlier + RowStations(s.rows[ws[n]], days)
  }

  /** Walking every row meets exactly the locations the rows show on those days. */
  lemma VisitsShows(s: Schedule, days: seq<string>, x: string)
    requires forall w :: w in s.rows <==> w in s.workers
    requires forall w :: w in s.rows ==> CoversDays(s.rows[w], days)
    ensures x in Visits(s, s.workers, days) <==>
            Counted(x) && exists w, d :: w in s.rows && d in days && d in s.rows[w] && s.rows[w][d].location == x
  {
    if x in Visits(s, s.workers, days) {
      VisitedIsShown(s, days, x);
    }
    if Counted(x) && exists w, d :: w in s.rows && d in days && d in s.rows[w] && s.rows[w][d].location == x {
      var w, d :| w in s.rows && d in days && d in s.rows[w] && s.rows[w][d].location == x;
      ShownIsVisited(s, days, w, d);
    }
  }

  lemma VisitedIsShown(s: Schedule, days: seq<string>, x: string)
    requires forall w :: w in s.rows <==> w in s.workers
    requires forall w :: w in s.rows ==> CoversDays(s.rows[w], days)
    requires x in Visits(s, s.workers, days)
    ensures Counted(x) && exists w, d :: w in s.rows && d in days && d in s.rows[w] && s.rows[w][d].location == x
  {
    var k :| 0 <= k < |s.workers| && x in RowStations(s.rows[s.workers[k]], days);
    var row := s.rows[s.workers[k]];
    var m :| 0 <= m < |days| && row[days[m]].location == x;
    assert days[m] in days;
  }

  lemma ShownIsVisited(s: Schedule, days: seq<string>, w: string, d: string)
    requires forall w :: w in s.rows <==> w in s.workers
    requires forall w :: w in s.rows ==> CoversDays(s.rows[w], days)
    requires w in s.rows && d in days && d in s.rows[w] && Counted(s.rows[w][d].location)
    ensures s.rows[w][d].location in Visits(s, s.workers, days)
  {
    var k :| 0 <= k < |s.workers| && s.workers[k] == w;
    var m :| 0 <= m < |days| && days[m] == d;
    assert s.rows[w][d].location in RowStations(s.rows[w], days);
  }

  /** `uniqueStations`: the Set filled by lines 66-75, in insertion order. */
  function UniqueStations(s: Schedule): (r: seq<string>)
    requires WellFormed(s)
    ensures Distinct(r)
    ensures forall x :: x in r <==> Shows(s, x)
    ensures var v := Visits(s, s.workers, GridDays);
            forall i, j :: 0 <= i < j < |r| ==> IndexOf(v, r[i]) < IndexOf(v, r[j])
  {
    DedupeFirstSeenOrder(Visits(s, s.workers, GridDays));
    assert forall x :: x in Visits(s, s.workers, GridDays) <==> Shows(s, x) by {
      forall x
        ensures x in Visits(s, s.workers, GridDays) <==> Shows(s, x)
      {
        VisitsShows(s, GridDays, x);
      }
    }
    Dedupe(Visits(s, s.workers, GridDays))
  }

  /** In a list without repeats, the first position of an element is its position. */
  lemma IndexOfDistinct(xs: seq<string>, k: nat)
    requires Distinct(xs) && k < |xs|
    ensures IndexOf(xs, xs[k]) == k
  {
    assert forall t :: 0 <= t < k ==> xs[..k][t] == xs[t];
    IndexOfIsFirst(xs, xs[k], k);
  }

  /**
   * Lines 77-84: the `k`-th station gets the `k`-th generated colour. With
   * at most twelve stations, no two stations share a colour.
   */
  function ColorsFor(stations: seq<string>): (r: map<string, string>)
    requires Distinct(stations)
    ensures forall x :: x in r <==> x in stations
    ensures forall k :: 0 <= k < |stations| ==> r[stations[k]] == BaseColors[k % |BaseColors|]
  {
    var colors := UniqueColors(|stations|);
    assert forall k :: 0 <= k < |stations| ==> IndexOf(stations, stations[k]) == k by {
      forall k | 0 <= k < |stations|
        ensures IndexOf(stations, stations[k]) == k
      {
        IndexOfDistinct(stations, k);
      }
    }
    map x | x in stations :: colors[IndexOf(stations, x)]
  }

  /** Up to twelve stations, every station has its own colour. */
  lemma ColorsDistinctWithinPalette(stations: seq<string>, x: string, y: string)
    requires Distinct(stations)
    requires |stations| <= |BaseColors|
    requires x in stations && y in stations && x != y
    ensures x in ColorsFor(stations) && y in ColorsFor(stations)
    ensures ColorsFor(stations)[x] != ColorsFor(stations)[y]
  {
    var r := ColorsFor(stations);
    var colors := UniqueColors(|stations|);
    var i :| 0 <= i < |stations| && stations[i] == x;
    var j :| 0 <= j < |stations| && stations[j] == y;
    assert r[x] == colors[i] && r[y] == colors[j];
    FirstColorsDistinct(|stations|, i, j);
  }

  /**
   * assignStationColors (lines 65-87): each station shown in the grid gets
   * the palette colour of its position among the stations in order of first
   * appearance.
   */
  function AssignStationColors(s: Schedule): (r: map<string, string>)
    requires WellFormed(s)
    ensures forall x :: x in r <==> Shows(s, x)
    ensures var stations := UniqueStations(s);
            forall k :: 0 <= k < |stations| ==> r[stations[k]] == BaseColors[k % |BaseColors|]
  {
    ColorsFor(UniqueStations(s))
  }
}
