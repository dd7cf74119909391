/** Clock-time strings as the site renders them: `h.toString().padStart(2, '0')`,
    `HH:MM` labels, and the half-hour grid of bookable start times (09:00 to 19:30). */
module Clock {
  import opened Wrappers

  /** A wall-clock time of day, in minutes since midnight. */
  type MinuteOfDay = m: int | 0 <= m < 1440

  predicate IsDigit(c: char) {
    '0' <= c <= '9'
  }

  function DigitValue(c: char): (d: int)
    requires IsDigit(c)
    ensures 0 <= d < 10
  {
    c as int - '0' as int
  }

  function DigitChar(d: int): (c: char)
    requires 0 <= d < 10
    ensures IsDigit(c) && DigitValue(c) == d
  {
    ('0' as int + d) as char
  }

  /** `n.toString()` for a non-negative integer: its decimal digits, most significant first. */
  function Decimal(n: nat): (s: string)
    ensures 1 <= |s|
    ensures forall i :: 0 <= i < |s| ==> IsDigit(s[i])
    decreases n
  {
    if n < 10 then [DigitChar(n)] else Decimal(n / 10) + [DigitChar(n % 10)]
  }

  /** The number a string of decimal digits denotes, most significant digit first. */
  function DecimalValue(s: string): nat
    requires forall i :: 0 <= i < |s| ==> IsDigit(s[i])
  {
    if s == [] then 0 else 10 * DecimalValue(s[..|s| - 1]) + DigitValue(s[|s| - 1])
  }

  /** `toString()` spells the number: its digits denote `n`, with no leading zero. */
  lemma {:induction false} DecimalReadsBack(n: nat)
    ensures DecimalValue(Decimal(n)) == n
    ensures n > 0 ==> Decimal(n)[0] != '0'
    ensures n == 0 ==> Decimal(n) == "0"
    decreases n
  {
    var s := Decimal(n);
    if n < 10 {
      assert s[..|s| - 1] == [];
    } else {
      DecimalReadsBack(n / 10);
      assert s[..|s| - 1] == Decimal(n / 10);
      assert s[0] == Decimal(n / 10)[0];
    }
  }

  /** `s.padStart(width, '0')`: `s` preceded by as many zeros as it lacks to reach `width`. */
  function PadStart(s: string, width: nat): (r: string)
    ensures |r| == if |s| < width then width else |s|
    ensures r[|r| - |s|..] == s
    ensures forall i :: 0 <= i < |r| - |s| ==> r[i] == '0'
  {
    if |s| >= width then s else seq(width - |s|, _ => '0') + s
  }

  /** `n.toString().padStart(2, '0')`. */
  function TwoDigits(n: nat): string {
    PadStart(Decimal(n), 2)
  }

  /** Below 100, the two-digit rendering is the tens digit followed by the units digit. */
  lemma TwoDigitsOf(n: nat)
    requires n < 100
    ensures TwoDigits(n) == [DigitChar(n / 10), DigitChar(n % 10)]
  {
    if n < 10 {
      var d := [DigitChar(n)];
      assert Decimal(n) == d;
      assert PadStart(d, 2) == PadStart("0" + d, 2) == "0" + d;
      assert DigitChar(0) == '0';
    } else {
      var q, r := n / 10, n % 10;
      assert Decimal(n) == Decimal(q) + [DigitChar(r)];
      assert Decimal(q) == [DigitChar(q)];
    }
  }

  /** The `HH:MM` label of a time of day: hour tens and units, ':', minute tens and units. */
  function Label(m: MinuteOfDay): (s: string)
    ensures |s| == 5
  {
    var h, mm := m / 60, m % 60;
    [DigitChar(h / 10), DigitChar(h % 10), ':', DigitChar(mm / 10), DigitChar(mm % 10)]
  }

  /** How the site renders a time: `h.toString().padStart(2, '0') + ':' + mm.toString().padStart(2, '0')`. */
  function FormatHHMM(m: MinuteOfDay): (s: string)
    ensures |s| == 5 && s[2] == ':'
    ensures forall i :: 0 <= i < 5 && i != 2 ==> IsDigit(s[i])
  {
    TwoDigitsOf(m / 60);
    TwoDigitsOf(m % 60);
    TwoDigits(m / 60) + ":" + TwoDigits(m % 60)
  }

  /** The rendering produces exactly the label. */
  lemma FormatIsLabel(m: MinuteOfDay)
    ensures FormatHHMM(m) == Label(m)
  {
    TwoDigitsOf(m / 60);
    TwoDigitsOf(m % 60);
  }

  /** Reads an `HH:MM` label back; `None` for anything that is not a time of day in that form. */
  function ParseHHMM(s: string): (r: Option<MinuteOfDay>)
    ensures r.Some? ==> |s| == 5 && s[2] == ':'
  {
    if |s| == 5 && IsDigit(s[0]) && IsDigit(s[1]) && s[2] == ':' && IsDigit(s[3]) && IsDigit(s[4]) then
      var h := 10 * DigitValue(s[0]) + DigitValue(s[1]);
      var mm := 10 * DigitValue(s[3]) + DigitValue(s[4]);
      if h < 24 && mm < 60 then Some(h * 60 + mm) else None
    else
      None
  }

  /** The two digits of a number below 100 read back as that number. */
  lemma TwoDigitValue(n: nat)
    requires n < 100
    ensures 10 * DigitValue(DigitChar(n / 10)) + DigitValue(DigitChar(n % 10)) == n
  {
  }

  /** Formatting then parsing gives back the time: the label loses nothing. */
  lemma ParseLabel(m: MinuteOfDay)
    ensures ParseHHMM(Label(m)) == Some(m)
  {
    var h, mm := m / 60, m % 60;
    assert m == h * 60 + mm;
    TwoDigitValue(h);
    TwoDigitValue(mm);
    var s := Label(m);
    assert s[0] == DigitChar(h / 10) && s[1] == DigitChar(h % 10);
    assert s[3] == DigitChar(mm / 10) && s[4] == DigitChar(mm % 10);
  }

  /** Two times share a label only if they are the same time. */
  lemma LabelInjective(a: MinuteOfDay, b: MinuteOfDay)
    ensures Label(a) == Label(b) <==> a == b
  {
    ParseLabel(a);
    ParseLabel(b);
  }

  /** A rendered time equals a label only when the two times agree. */
  lemma FormatMatchesLabel(m: MinuteOfDay, v: MinuteOfDay)
    ensures Label(m) == FormatHHMM(v) <==> m == v
  {
    FormatIsLabel(v);
    LabelInjective(m, v);
  }

  /** Number of half-hour marks from 09:00 up to (excluding) 20:00. */
  const GridSize: nat := 22

  /** The time of the k-th grid mark: 09:00 plus k half hours. */
  function GridMinute(k: nat): (m: MinuteOfDay)
    requires k < GridSize
    ensures 540 <= m < 1200 && m % 30 == 0
  {
    540 + 30 * k
  }

  /** The position in the grid of a half-hour mark between 09:00 and 19:30. */
  function GridIndex(m: MinuteOfDay): (k: nat)
    requires 540 <= m < 1200 && m % 30 == 0
    ensures k < GridSize && GridMinute(k) == m
  {
    var k := (m - 540) / 30;
    assert m - 540 == 30 * k + (m - 540) % 30;
    k
  }

  /** The labels of the grid marks, in order. */
  function HalfHourGrid(): (g: seq<string>)
    ensures |g| == GridSize
  {
    seq(GridSize, k requires 0 <= k < GridSize => Label(GridMinute(k)))
  }

  /** The k-th label reads back as 09:00 plus k half hours, so the grid runs 09:00, 09:30, ..., 19:30
      in strictly ascending order. */
  lemma GridTimes(k: nat)
    requires k < GridSize
    ensures ParseHHMM(HalfHourGrid()[k]) == Some(540 + 30 * k)
  {
    ParseLabel(GridMinute(k));
  }

  /** No label occurs twice in the grid. */
  lemma GridDistinct(i: nat, j: nat)
    requires i < j < GridSize
    ensures HalfHourGrid()[i] != HalfHourGrid()[j]
  {
    GridTimes(i);
    GridTimes(j);
  }

  /** The label of a time is in the grid exactly when the time is a half-hour mark in [09:00, 20:00). */
  lemma GridMembership(m: MinuteOfDay)
    ensures Label(m) in HalfHourGrid() <==> 540 <= m < 1200 && m % 30 == 0
  {
    var g := HalfHourGrid();
    if Label(m) in g {
      var k :| 0 <= k < |g| && g[k] == Label(m);
      assert g[k] == Label(GridMinute(k));
      LabelInjective(m, GridMinute(k));
    }
    if 540 <= m < 1200 && m % 30 == 0 {
      var k := GridIndex(m);
      assert g[k] == Label(m);
    }
  }

  /** The first and last marks. */
  lemma GridEnds()
    ensures HalfHourGrid()[0] == "09:00"
    ensures HalfHourGrid()[GridSize - 1] == "19:30"
  {
    assert HalfHourGrid()[0] == Label(540);
    assert HalfHourGrid()[GridSize - 1] == Label(1170);
  }

  /** The label of h:mm spelled out digit by digit. */
  lemma LabelAt(h: nat, mm: nat)
    requires h < 24 && mm < 60
    ensures Label(60 * h + mm) == [DigitChar(h / 10), DigitChar(h % 10), ':', DigitChar(mm / 10), DigitChar(mm % 10)]
  {
    var m := 60 * h + mm;
    assert m / 60 == h && m % 60 == mm;
  }

  /** Mark 2 * (h - 9) + mm / 30 of the grid is h:mm. */
  lemma GridAt(h: nat, mm: nat)
    requires 9 <= h < 20 && (mm == 0 || mm == 30)
    ensures 2 * (h - 9) + mm / 30 < GridSize
    ensures HalfHourGrid()[2 * (h - 9) + mm / 30] == Label(60 * h + mm)
  {
    assert GridMinute(2 * (h - 9) + mm / 30) == 60 * h + mm;
  }

  /** The grid loop of the calendar service writes `TwoDigits(h) + ":00"` and
      `TwoDigits(h) + ":30"`: grid marks 2 * (h - 9) and 2 * (h - 9) + 1. */
  lemma HourMarks(h: nat)
    requires 9 <= h < 20
    ensures TwoDigits(h) + ":00" == HalfHourGrid()[2 * (h - 9)]
    ensures TwoDigits(h) + ":30" == HalfHourGrid()[2 * (h - 9) + 1]
  {
    var g, t := HalfHourGrid(), TwoDigits(h);
    assert t + ":00" == g[2 * (h - 9)] by {
      SlotMark(h, 0);
      assert 0 / 30 == 0;
      TwoDigitsZero();
      Glue(t, TwoDigits(0), ":00");
    }
    assert t + ":30" == g[2 * (h - 9) + 1] by {
      SlotMark(h, 30);
      assert 30 / 30 == 1;
      TwoDigitsThirty();
      Glue(t, TwoDigits(30), ":30");
    }
  }

  lemma Glue(t: string, mm: string, suffix: string)
    requires suffix == ":" + mm
    ensures t + ":" + mm == t + suffix
  {
  }

  lemma TwoDigitsZero()
    ensures TwoDigits(0) == "00"
  {
    TwoDigitsOf(0);
    assert DigitChar(0) == '0';
  }

  lemma TwoDigitsThirty()
    ensures TwoDigits(30) == "30"
  {
    TwoDigitsOf(30);
    assert DigitChar(3) == '3' && DigitChar(0) == '0';
  }

  /** The slot loop of the booking calendar writes `TwoDigits(h) + ":" + TwoDigits(mm)` for
      mm in {0, 30}: grid mark 2 * (h - 9) + mm / 30. */
  lemma SlotMark(h: nat, mm: nat)
    requires 9 <= h < 20 && (mm == 0 || mm == 30)
    ensures 2 * (h - 9) + mm / 30 < GridSize
    ensures TwoDigits(h) + ":" + TwoDigits(mm) == HalfHourGrid()[2 * (h - 9) + mm / 30]
  {
    var k := 2 * (h - 9) + mm / 30;
    var a, b, c, d := DigitChar(h / 10), DigitChar(h % 10), DigitChar(mm / 10), DigitChar(mm % 10);
    assert HalfHourGrid()[k] == [a, b, ':', c, d] by {
      GridAt(h, mm);
      LabelAt(h, mm);
    }
    assert TwoDigits(h) + ":" + TwoDigits(mm) == [a, b, ':', c, d] by {
      TwoDigitsOf(h);
      TwoDigitsOf(mm);
      ClockFace(a, b, c, d);
    }
  }

  lemma ClockFace(a: char, b: char, c: char, d: char)
    ensures [a, b] + ":" + [c, d] == [a, b, ':', c, d]
  {
  }

  /** Appending the two marks of hour h to the marks before it gives the marks up to h:30. */
  lemma AppendHourMarks(hour: nat, done: seq<string>, onHour: string, halfPast: string)
    requires 9 <= hour < 20
    requires done == HalfHourGrid()[..2 * (hour - 9)]
    requires onHour == TwoDigits(hour) + ":00" && halfPast == TwoDigits(hour) + ":30"
    ensures done + [onHour] + [halfPast] == HalfHourGrid()[..2 * (hour - 9) + 2]
  {
    HourMarks(hour);
    AppendNextTwo(HalfHourGrid(), 2 * (hour - 9));
  }

  lemma AppendNextTwo<T>(g: seq<T>, n: nat)
    requires n + 2 <= |g|
    ensures g[..n] + [g[n]] + [g[n + 1]] == g[..n + 2]
  {
  }
}
