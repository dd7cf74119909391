/** The booking calendar shown on the site: thirty days from today, Sundays left out, each open
    day carrying the half-hour slots from 09:00 to 19:30 with a simulated availability flag. */
module CalendarView {
  import opened Wrappers
  import opened Clock
  import GoogleCalendar

  datatype TimeSlot = TimeSlot(time: string, available: bool)

  /** A day of the calendar, `offset` days after today, falling on `weekday` (0 is Sunday). */
  datatype DaySchedule = DaySchedule(offset: nat, weekday: nat, slots: seq<TimeSlot>)

  /** How many days the calendar spans. */
  const Horizon: nat := 30

  /** The slots of one day: grid mark k, available when the draw for k says so. The random
      draw `Math.random() > 0.3` is the parameter `available`. */
  function DaySlots(available: nat -> bool): (slots: seq<TimeSlot>)
    ensures |slots| == GridSize
  {
    seq(GridSize, k requires 0 <= k < GridSize => TimeSlot(HalfHourGrid()[k], available(k)))
  }

  /** `generateTimeSlots`: for each hour from 9 to 19, the marks hh:00 and hh:30. */
  method GenerateTimeSlots(available: nat -> bool) returns (slots: seq<TimeSlot>)
    ensures slots == DaySlots(available)
  {
    slots := [];
    var hour := 9;
    while hour < 20
      invariant 9 <= hour <= 20
      invariant slots == DaySlots(available)[..2 * (hour - 9)]
    {
      var minutes := [0, 30];
      var j := 0;
      while j < 2
        invariant 0 <= j <= 2
        invariant slots == DaySlots(available)[..2 * (hour - 9) + j]
      {
        var minute := minutes[j];
        NextSlot(available, hour, minute, slots);
        var time := TwoDigits(hour) + ":" + TwoDigits(minute);
        slots := slots + [TimeSlot(time, available(|slots|))];
        j := j + 1;
      }
      hour := hour + 1;
    }
    assert DaySlots(available)[..GridSize] == DaySlots(available);
  }

  /** The slot the loop writes for `hour:minute` is the next slot of the day. */
  lemma NextSlot(available: nat -> bool, hour: nat, minute: nat, slots: seq<TimeSlot>)
    requires 9 <= hour < 20 && (minute == 0 || minute == 30)
    requires slots == DaySlots(available)[..2 * (hour - 9) + minute / 30]
    ensures |slots| < GridSize
    ensures slots + [TimeSlot(TwoDigits(hour) + ":" + TwoDigits(minute), available(|slots|))] ==
      DaySlots(available)[..|slots| + 1]
  {
    SlotMark(hour, minute);
    AppendNext(DaySlots(available), |slots|);
  }

  lemma AppendNext<T>(g: seq<T>, n: nat)
    requires n < |g|
    ensures g[..n] + [g[n]] == g[..n + 1]
  {
  }

  /** The times of a day's slots are the grid marks, in order. */
  lemma DayTimes(available: nat -> bool)
    ensures forall k :: 0 <= k < GridSize ==> DaySlots(available)[k].time == HalfHourGrid()[k]
  {
  }

  /** The times a day offers are exactly the free slots the calendar service reports for a day
      with no appointments. */
  lemma DayTimesAreServiceGrid(available: nat -> bool)
    ensures |GoogleCalendar.FreeSlots([])| == |DaySlots(available)|
    ensures forall k :: 0 <= k < GridSize ==> DaySlots(available)[k].time == GoogleCalendar.FreeSlots([])[k]
  {
    GoogleCalendar.NoStartsFullGrid([]);
    DayTimes(available);
  }

  /** Every slot time is a label on the half-hour grid from 09:00 to 19:30, distinct from the others. */
  lemma DayTimesOnGrid(available: nat -> bool, k: nat)
    requires k < GridSize
    ensures ParseHHMM(DaySlots(available)[k].time) == Some(540 + 30 * k)
    ensures forall j :: 0 <= j < GridSize && j != k ==> DaySlots(available)[j].time != DaySlots(available)[k].time
  {
    GridTimes(k);
    forall j | 0 <= j < GridSize && j != k
      ensures DaySlots(available)[j].time != DaySlots(available)[k].time
    {
      if j < k { GridDistinct(j, k); } else { GridDistinct(k, j); }
    }
  }

  /** The weekday `offset` days after a day falling on `today`. */
  function WeekdayAfter(today: nat, offset: nat): (w: nat)
    ensures w < 7
  {
    (today + offset) % 7
  }

  /** The calendar over the first n days: each day that is not a Sunday, in order. */
  function Schedule(today: nat, available: (nat, nat) -> bool, n: nat): (days: seq<DaySchedule>)
    ensures |days| <= n
  {
    if n == 0 then []
    else
      var rest := Schedule(today, available, n - 1);
      var w := WeekdayAfter(today, n - 1);
      if w != 0 then rest + [DaySchedule(n - 1, w, DaySlots((k: nat) => available(n - 1, k)))] else rest
  }

  /** `generateCalendar`: thirty days from today, skipping Sundays. */
  method GenerateCalendar(today: nat, available: (nat, nat) -> bool) returns (calendar: seq<DaySchedule>)
    requires today < 7
    ensures calendar == Schedule(today, available, Horizon)
  {
    calendar := [];
    var i := 0;
    while i < Horizon
      invariant 0 <= i <= Horizon
      invariant calendar == Schedule(today, available, i)
    {
      var weekday := (today + i) % 7;
      if weekday != 0 {
        var slots := GenerateTimeSlots((k: nat) => available(i, k));
        calendar := calendar + [DaySchedule(i, weekday, slots)];
      }
      i := i + 1;
    }
  }

  /** Each day of the calendar lies within the span, is not a Sunday, carries its true weekday and
      that day's slots. */
  lemma {:induction false} ScheduleDays(today: nat, available: (nat, nat) -> bool, n: nat)
    ensures forall d :: d in Schedule(today, available, n) ==>
      d.offset < n && d.weekday == WeekdayAfter(today, d.offset) && d.weekday != 0 &&
      d.slots == DaySlots((k: nat) => available(d.offset, k))
  {
    if n > 0 {
      ScheduleDays(today, available, n - 1);
    }
  }

  /** Days appear in strictly increasing order of offset. */
  lemma {:induction false} ScheduleAscending(today: nat, available: (nat, nat) -> bool, n: nat)
    ensures forall i, j :: 0 <= i < j < |Schedule(today, available, n)| ==>
      Schedule(today, available, n)[i].offset < Schedule(today, available, n)[j].offset
  {
    if n > 0 {
      ScheduleAscending(today, available, n - 1);
      ScheduleDays(today, available, n - 1);
      var rest := Schedule(today, available, n - 1);
      assert forall i :: 0 <= i < |rest| ==> rest[i] in rest;
    }
  }

  /** Every day of the span that is not a Sunday is in the calendar. */
  lemma {:induction false} ScheduleComplete(today: nat, available: (nat, nat) -> bool, n: nat, i: nat)
    requires i < n && WeekdayAfter(today, i) != 0
    ensures exists d :: d in Schedule(today, available, n) && d.offset == i
  {
    if i == n - 1 {
      var d := DaySchedule(i, WeekdayAfter(today, i), DaySlots((k: nat) => available(i, k)));
      assert d in Schedule(today, available, n);
    } else {
      ScheduleComplete(today, available, n - 1, i);
      var d :| d in Schedule(today, available, n - 1) && d.offset == i;
      assert d in Schedule(today, available, n);
    }
  }

  /** One more day adds a calendar day unless it is a Sunday. */
  lemma ScheduleStep(today: nat, available: (nat, nat) -> bool, n: nat)
    requires n > 0
    ensures |Schedule(today, available, n)| ==
      |Schedule(today, available, n - 1)| + (if WeekdayAfter(today, n - 1) != 0 then 1 else 0)
  {
  }

  /** The weekday m days after day n, from the weekday of day n. */
  lemma WeekdayShift(today: nat, n: nat, m: nat)
    ensures WeekdayAfter(today, n + m) == ((today + n) % 7 + m) % 7
  {
    var r := (today + n) % 7;
    var q := (today + n) / 7;
    assert today + (n + m) == 7 * q + (r + m);
  }

  /** Extending the span by m days adds one calendar day per day among them that is not a Sunday. */
  lemma {:induction false} ScheduleGrowth(today: nat, available: (nat, nat) -> bool, n: nat, m: nat)
    ensures |Schedule(today, available, n + m)| == |Schedule(today, available, n)| + CountOpen((today + n) % 7, m)
  {
    if m > 0 {
      var r := (today + n) % 7;
      ScheduleGrowth(today, available, n, m - 1);
      assert n + (m - 1) == n + m - 1;
      ScheduleStep(today, available, n + m);
      WeekdayShift(today, n, m - 1);
      assert WeekdayAfter(today, n + m - 1) == (r + m - 1) % 7;
      assert CountOpen(r, m) == CountOpen(r, m - 1) + (if (r + m - 1) % 7 != 0 then 1 else 0);
    }
  }

  /** Seven consecutive days add six days to the calendar: exactly one of them is a Sunday. */
  lemma WeekAddsSix(today: nat, available: (nat, nat) -> bool, n: nat)
    ensures |Schedule(today, available, n + 7)| == |Schedule(today, available, n)| + 6
  {
    ScheduleGrowth(today, available, n, 7);
    OpenInAWeek((today + n) % 7);
  }

  /** How many of the residues r, r + 1, ..., r + m - 1 are not multiples of seven. */
  function CountOpen(r: nat, m: nat): nat {
    if m == 0 then 0 else CountOpen(r, m - 1) + (if (r + m - 1) % 7 != 0 then 1 else 0)
  }

  lemma OpenInAWeek(r: nat)
    requires r < 7
    ensures CountOpen(r, 7) == 6
  {
    assert CountOpen(r, 1) == if r != 0 then 1 else 0;
    assert CountOpen(r, 2) == CountOpen(r, 1) + if r + 1 != 7 then 1 else 0;
    assert CountOpen(r, 3) == CountOpen(r, 2) + if r + 2 != 7 then 1 else 0;
    assert CountOpen(r, 4) == CountOpen(r, 3) + if r + 3 != 7 then 1 else 0;
    assert CountOpen(r, 5) == CountOpen(r, 4) + if r + 4 != 7 then 1 else 0;
    assert CountOpen(r, 6) == CountOpen(r, 5) + if r + 5 != 7 then 1 else 0;
  }

  lemma OpenInTwoDays(r: nat)
    requires r < 7
    ensures 1 <= CountOpen(r, 2) <= 2
  {
    assert CountOpen(r, 1) == if r % 7 != 0 then 1 else 0;
    assert CountOpen(r, 2) == CountOpen(r, 1) + if (r + 1) % 7 != 0 then 1 else 0;
  }

  /** Thirty days hold four or five Sundays, so the calendar has 25 or 26 days. */
  lemma CalendarLength(today: nat, available: (nat, nat) -> bool)
    requires today < 7
    ensures 25 <= |Schedule(today, available, Horizon)| <= 26
  {
    assert |Schedule(today, available, 0)| == 0;
    WeekAddsSix(today, available, 0);
    WeekAddsSix(today, available, 7);
    WeekAddsSix(today, available, 14);
    WeekAddsSix(today, available, 21);
    assert |Schedule(today, available, 28)| == 24;
    ScheduleGrowth(today, available, 28, 2);
    OpenInTwoDays((today + 28) % 7);
    assert |Schedule(today, available, 30)| == 24 + CountOpen((today + 28) % 7, 2);
  }
}
