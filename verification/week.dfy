/**
 * The week as the allocator sees it: `daysOfWeek` (scheduler.js line 47),
 * Monday first, and the case-insensitive `findIndex` that turns a station's
 * day text into a position in it.
 */
module Week {
  import opened Optional
  import opened Text

  datatype Day = Monday | Tuesday | Wednesday | Thursday | Friday | Saturday | Sunday

  const DaysOfWeek: seq<Day> := [Monday, Tuesday, Wednesday, Thursday, Friday, Saturday, Sunday]

  /** The spelling of each day in `daysOfWeek`. */
  function Name(d: Day): string
  {
    match d
    case Monday => "Monday"
    case Tuesday => "Tuesday"
    case Wednesday => "Wednesday"
    case Thursday => "Thursday"
    case Friday => "Friday"
    case Saturday => "Saturday"
    case Sunday => "Sunday"
  }

  /**
   * The lower-case spelling, the form every day comparison reduces to. This
   * is `Lower(Name(d))` written out (`LowerName` proves the two agree); it is
   * spelled out so that proofs compare short literals instead of lower-casing
   * the names each time.
   */
  function Key(d: Day): string
  {
    match d
    case Monday => "monday"
    case Tuesday => "tuesday"
    case Wednesday => "wednesday"
    case Thursday => "thursday"
    case Friday => "friday"
    case Saturday => "saturday"
    case Sunday => "sunday"
  }

  function Index(d: Day): (i: nat)
    ensures i < |DaysOfWeek| && DaysOfWeek[i] == d
  {
    match d
    case Monday => 0
    case Tuesday => 1
    case Wednesday => 2
    case Thursday => 3
    case Friday => 4
    case Saturday => 5
    case Sunday => 6
  }

  /** Each day's name lower-cases to its key. */
  lemma LowerName(d: Day)
    ensures Lower(Name(d)) == Key(d)
  {
    match d
    case Monday => LowerMonday();
    case Tuesday => LowerTuesday();
    case Wednesday => LowerWednesday();
    case Thursday => LowerThursday();
    case Friday => LowerFriday();
    case Saturday => LowerSaturday();
    case Sunday => LowerSunday();
  }

  // One lemma per spelling keeps each literal's lower-casing a proof of its own.
  lemma LowerMonday() ensures Lower("Monday") == "monday" {}
  lemma LowerTuesday() ensures Lower("Tuesday") == "tuesday" {}
  lemma LowerWednesday() ensures Lower("Wednesday") == "wednesday" {}
  lemma LowerThursday() ensures Lower("Thursday") == "thursday" {}
  lemma LowerFriday() ensures Lower("Friday") == "friday" {}
  lemma LowerSaturday() ensures Lower("Saturday") == "saturday" {}
  lemma LowerSunday() ensures Lower("Sunday") == "sunday" {}

  lemma KeyInjective(d: Day, e: Day)
    ensures Key(d) == Key(e) ==> d == e
  {
  }

  lemma NameInjective(d: Day, e: Day)
    ensures Name(d) == Name(e) ==> d == e
    ensures Lower(Name(d)) == Lower(Name(e)) ==> d == e
  {
    LowerName(d);
    LowerName(e);
  }

  /**
   * `daysOfWeek.findIndex(d => d.toLowerCase() === day.toLowerCase())`, with
   * -1 read as `None`: the lower-cased text is compared with each day's
   * lower-case spelling in `daysOfWeek` order. The day found is the one
   * whose name equals the text ignoring case, and no other day's name does.
   */
  function ParseDay(text: string): (r: Option<Day>)
    ensures forall d :: Lower(text) == Key(d) <==> r == Some(d)
  {
    var t := Lower(text);
    assert forall d, e :: Key(d) == Key(e) ==> d == e by {
      forall d, e
        ensures Key(d) == Key(e) ==> d == e
      {
        KeyInjective(d, e);
      }
    }
    if t == Key(Monday) then Some(Monday)
    else if t == Key(Tuesday) then Some(Tuesday)
    else if t == Key(Wednesday) then Some(Wednesday)
    else if t == Key(Thursday) then Some(Thursday)
    else if t == Key(Friday) then Some(Friday)
    else if t == Key(Saturday) then Some(Saturday)
    else if t == Key(Sunday) then Some(Sunday)
    else None
  }

  /** ParseDay finds exactly the day whose `daysOfWeek` name matches ignoring case. */
  lemma ParseDayMatchesName(text: string, d: Day)
    ensures ParseDay(text) == Some(d) <==> SameIgnoringCase(Name(d), text)
  {
    LowerName(d);
  }

  /** `prevDay`: the entry before this day in `daysOfWeek`, none for Monday. */
  function Previous(d: Day): (p: Option<Day>)
    ensures p.None? <==> d == Monday
    ensures forall e :: p == Some(e) <==> Index(e) + 1 == Index(d)
  {
    if Index(d) == 0 then None else Some(DaysOfWeek[Index(d) - 1])
  }
}
