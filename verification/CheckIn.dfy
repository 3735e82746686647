/** The check-in calendar: dates as day numbers, day 0 being 1970-01-01 (internal/api/checkin.go). */
module CheckIn {
  import opened Prelude

  const WINDOW := 180

  /** The day a request counts for: the claimed one if it is today or yesterday, else today. */
  function ClientDay(today: int, claimed: Option<int>): (day: int)
    ensures today - 1 <= day <= today
    ensures day == today - 1 <==> claimed == Some(today - 1)
  {
    match claimed
    case Some(d) => if d == today || d == today - 1 then d else today
    case None => today
  }

  /** Length of the run of checked days that ends on `day`. */
  function RunEndingOn(days: set<int>, day: int): nat
    decreases days
  {
    if day in days then 1 + RunEndingOn(days - {day}, day - 1) else 0
  }

  lemma {:induction false} RunDoesNotLookAhead(days: set<int>, day: int, later: int)
    requires day < later
    ensures RunEndingOn(days - {later}, day) == RunEndingOn(days, day)
    decreases days
  {
    if day in days {
      assert days - {later} - {day} == days - {day} - {later};
      RunDoesNotLookAhead(days - {day}, day - 1, later);
    }
  }

  /** It is the longest run ending there: every day of it is checked, the one before it is not. */
  lemma {:induction false} RunIsMaximal(days: set<int>, day: int)
    ensures var n := RunEndingOn(days, day);
      && (forall i :: day - n < i <= day ==> i in days)
      && day - n !in days
    decreases days
  {
    if day in days {
      RunDoesNotLookAhead(days, day - 1, day);
      RunIsMaximal(days - {day}, day - 1);
    }
  }

  function Min(a: int, b: int): int {
    if a < b then a else b
  }

  /** Days on or after `since`. */
  function Since(days: set<int>, since: int): set<int> {
    set d | d in days && d >= since
  }

  /** Cutting the calendar off at `since` only cuts the run off there. */
  lemma {:induction false} WindowedRun(days: set<int>, since: int, day: int)
    requires day >= since - 1
    ensures RunEndingOn(Since(days, since), day) == Min(RunEndingOn(days, day), day - since + 1)
    decreases days
  {
    if day in days && day >= since {
      WindowedRun(days - {day}, since, day - 1);
      assert Since(days - {day}, since) == Since(days, since) - {day};
    }
  }

  /** The day the current streak ends: today, or yesterday while today is unchecked. */
  function StreakEnd(days: set<int>, now: int): int {
    if now in days then now else now - 1
  }

  /** Sunday is 0; day 0 was a Thursday. */
  function Weekday(day: int): int {
    (day + 4) % 7
  }

  function MondayOf(day: int): int {
    day - (Weekday(day) + 6) % 7
  }

  /** The two days lie in the same Monday-to-Sunday week; day 4 was the first Monday. */
  predicate InWeekOf(d: int, now: int) {
    (d - 4) / 7 == (now - 4) / 7
  }

  lemma SameWeek(d: int, now: int)
    ensures InWeekOf(d, now) <==> MondayOf(now) <= d < MondayOf(now) + 7
  {
  }

  lemma MondayStartsTheWeek(day: int)
    ensures Weekday(MondayOf(day)) == 1 && MondayOf(day) <= day < MondayOf(day) + 7
  {
  }

  /** Steps back from a day as long as the days are checked. */
  method CountBack(checked: set<int>, end: int) returns (streak: nat)
    ensures streak == RunEndingOn(checked, end)
  {
    streak := 0;
    var cursor := end;
    ghost var left := checked;
    while cursor in checked
      invariant cursor == end - streak
      invariant streak + RunEndingOn(left, cursor) == RunEndingOn(checked, end)
      invariant left <= checked && forall d :: d in checked && d <= cursor ==> d in left
      decreases left
    {
      streak := streak + 1;
      left := left - {cursor};
      cursor := cursor - 1;
    }
    assert cursor !in left;
  }

  /** Counts the checked days of the week from a Monday on. */
  method CountWeek(checked: set<int>, monday: int) returns (weekCount: nat)
    ensures weekCount == |set d | d in checked && monday <= d < monday + 7|
  {
    weekCount := 0;
    ghost var counted: set<int> := {};
    for i := 0 to 7
      invariant counted == set d | d in checked && monday <= d < monday + i
      invariant weekCount == |counted|
    {
      ghost var before := counted;
      counted := set d | d in checked && monday <= d < monday + i + 1;
      if monday + i in checked {
        assert counted == before + {monday + i};
        weekCount := weekCount + 1;
      } else {
        assert counted == before;
      }
    }
  }

  /** The streak and the week count from the check-ins of the last 180 days before today. */
  method BuildCheckinState(days: set<int>, now: int) returns (streak: nat, checkedInToday: bool, weekCount: nat)
    ensures checkedInToday <==> now in days
    ensures streak == Min(RunEndingOn(days, StreakEnd(days, now)), StreakEnd(days, now) - (now - WINDOW) + 1)
    ensures now in days ==>
      && (forall d :: now - streak < d <= now ==> d in days)
      && streak <= 181 && (now - streak !in days || streak == 181)
    ensures now !in days ==>
      && (forall d :: now - 1 - streak < d <= now - 1 ==> d in days)
      && streak <= 180 && (now - 1 - streak !in days || streak == 180)
    ensures weekCount == |set d | d in days && MondayOf(now) <= d < MondayOf(now) + 7|
    ensures weekCount == |set d | d in days && InWeekOf(d, now)|
  {
    var since := now - WINDOW;
    var checked := Since(days, since);
    var cursor := now;
    if now !in checked {
      cursor := cursor - 1;
    }
    streak := CountBack(checked, cursor);
    WindowedRun(days, since, cursor);
    RunIsMaximal(days, cursor);
    var monday := now - (Weekday(now) + 6) % 7;
    MondayStartsTheWeek(now);
    weekCount := CountWeek(checked, monday);
    assert (set d | d in checked && monday <= d < monday + 7) == set d | d in days && monday <= d < monday + 7;
    forall d ensures InWeekOf(d, now) <==> monday <= d < monday + 7 {
      SameWeek(d, now);
    }
    assert (set d | d in days && InWeekOf(d, now)) == set d | d in days && monday <= d < monday + 7;
    return streak, now in checked, weekCount;
  }

  // ----- How often one can check in --------------------------------------------------------

  /** A request, on the day the server clock shows. */
  datatype Request = Request(today: int, claimed: Option<int>)

  /** The days recorded for a user after a run of requests. */
  function Recorded(rs: seq<Request>): set<int> {
    if rs == [] then {} else Recorded(Init(rs)) + {ClientDay(Last(rs).today, Last(rs).claimed)}
  }

  lemma {:induction false} RecordedWithin(rs: seq<Request>, a: int, b: int)
    requires forall i :: 0 <= i < |rs| ==> a <= rs[i].today <= b
    ensures forall d :: d in Recorded(rs) ==> a - 1 <= d <= b
  {
    if rs != [] { RecordedWithin(Init(rs), a, b); }
  }

  /** Whatever dates are claimed, a run over the days a..b checks in on at most one day more than it has. */
  lemma CheckInsBounded(rs: seq<Request>, a: int, b: int)
    requires a <= b && forall i :: 0 <= i < |rs| ==> a <= rs[i].today <= b
    ensures |Recorded(rs)| <= b - a + 2
  {
    RecordedWithin(rs, a, b);
    RangeCardinality(a - 1, b + 1);
    SubsetCardinality(Recorded(rs), Range(a - 1, b + 1));
  }

  /** Yesterday and today on the first day, then every day of the run. */
  function EveryDay(a: int, b: int): seq<Request>
    requires a <= b
    decreases b - a
  {
    if a == b then [Request(a, Some(a - 1)), Request(a, None)] else EveryDay(a, b - 1) + [Request(b, None)]
  }

  lemma {:induction false} EveryDayWithin(a: int, b: int)
    requires a <= b
    ensures forall r :: r in EveryDay(a, b) ==> a <= r.today <= b
    decreases b - a
  {
    if a < b { EveryDayWithin(a, b - 1); }
  }

  lemma FirstDay(a: int)
    ensures Recorded(EveryDay(a, a)) == Range(a - 1, a + 1)
  {
    var first := [Request(a, Some(a - 1))];
    assert Init(first) == [] && Recorded(first) == {a - 1};
    assert Init(EveryDay(a, a)) == first;
    assert Range(a - 1, a + 1) == {a - 1, a};
  }

  /** The bound is met. */
  lemma {:induction false} CheckInsBoundMet(a: int, b: int)
    requires a <= b
    ensures Recorded(EveryDay(a, b)) == Range(a - 1, b + 1)
    ensures |Recorded(EveryDay(a, b))| == b - a + 2
    decreases b - a
  {
    RangeCardinality(a - 1, b + 1);
    if a == b {
      FirstDay(a);
    } else {
      CheckInsBoundMet(a, b - 1);
      RecordedAppend(EveryDay(a, b - 1), Request(b, None));
      assert Range(a - 1, b + 1) == Range(a - 1, b) + {b};
    }
  }

  lemma RecordedAppend(rs: seq<Request>, r: Request)
    ensures Recorded(rs + [r]) == Recorded(rs) + {ClientDay(r.today, r.claimed)}
  {
    assert Init(rs + [r]) == rs;
  }
}
