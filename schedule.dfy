/**
 * Wall-clock times and schedule totals: the conversion of "HH:MM" strings to
 * minutes since midnight and the sum of declared minutes over a schedule.
 */
module Schedule {
  import opened UserModel

  /** The seven weekday names the overlap calculation buckets slots by, compared as exact strings. */
  const Weekdays: seq<string> := ["Monday", "Tuesday", "Wednesday", "Thursday", "Friday", "Saturday", "Sunday"]

  predicate IsDigit(c: char)
  {
    '0' <= c <= '9'
  }

  function DigitValue(c: char): nat
    requires IsDigit(c)
  {
    (c as int) - ('0' as int)
  }

  /** A time written as two digits, a colon and two digits. */
  predicate WellFormedTime(t: string)
  {
    |t| == 5 && IsDigit(t[0]) && IsDigit(t[1]) && t[2] == ':' && IsDigit(t[3]) && IsDigit(t[4])
  }

  /** Both times of the slot are well formed. */
  predicate WellFormedSlot(s: Slot)
  {
    WellFormedTime(s.startTime) && WellFormedTime(s.endTime)
  }

  /** Both times of every slot are well formed. */
  predicate WellFormedSchedule(av: seq<Slot>)
  {
    forall s :: s in av ==> WellFormedSlot(s)
  }

  /** The hour and minute fields read as decimal numbers. */
  function HourField(t: string): nat
    requires WellFormedTime(t)
  {
    10 * DigitValue(t[0]) + DigitValue(t[1])
  }

  function MinuteField(t: string): nat
    requires WellFormedTime(t)
  {
    10 * DigitValue(t[3]) + DigitValue(t[4])
  }

  /** Minutes since midnight of an "HH:MM" time. */
  function TimeToMinutes(t: string): (m: nat)
    requires WellFormedTime(t)
    ensures m <= 99 * 60 + 99
  {
    HourField(t) * 60 + MinuteField(t)
  }

  /** The three clock times the worked examples use. */
  lemma SampleTimes()
    ensures WellFormedTime("09:00") && TimeToMinutes("09:00") == 540
    ensures WellFormedTime("10:00") && TimeToMinutes("10:00") == 600
    ensures WellFormedTime("17:00") && TimeToMinutes("17:00") == 1020
  {
  }

  function DigitChar(n: nat): char
    requires n < 10
  {
    ('0' as int + n) as char
  }

  /** The two-digit "HH:MM" spelling of an hour and a minute field (the inverse of reading one). */
  function FormatTime(h: nat, m: nat): (t: string)
    requires h < 100 && m < 100
    ensures WellFormedTime(t)
  {
    [DigitChar(h / 10), DigitChar(h % 10), ':', DigitChar(m / 10), DigitChar(m % 10)]
  }

  /** Reading a formatted time gives back `hours * 60 + minutes`. */
  lemma TimeToMinutesOfFormat(h: nat, m: nat)
    requires h < 100 && m < 100
    ensures HourField(FormatTime(h, m)) == h && MinuteField(FormatTime(h, m)) == m
    ensures TimeToMinutes(FormatTime(h, m)) == h * 60 + m
  {
  }

  /** Formatting a read time gives back the string, so the spelling of a time is determined by its fields. */
  lemma FormatOfTimeFields(t: string)
    requires WellFormedTime(t)
    ensures FormatTime(HourField(t), MinuteField(t)) == t
  {
    var f := FormatTime(HourField(t), MinuteField(t));
    assert f[0] == t[0] && f[1] == t[1] && f[3] == t[3] && f[4] == t[4];
  }

  /** On clock times (minute field below 60), distinct strings give distinct minute counts. */
  lemma TimeToMinutesInjective(t: string, u: string)
    requires WellFormedTime(t) && WellFormedTime(u)
    requires MinuteField(t) < 60 && MinuteField(u) < 60
    requires TimeToMinutes(t) == TimeToMinutes(u)
    ensures t == u
  {
    assert HourField(t) == HourField(u);
    FormatOfTimeFields(t);
    FormatOfTimeFields(u);
  }

  function StartMinutes(s: Slot): nat
    requires WellFormedSlot(s)
  {
    TimeToMinutes(s.startTime)
  }

  function EndMinutes(s: Slot): nat
    requires WellFormedSlot(s)
  {
    TimeToMinutes(s.endTime)
  }

  /** Declared length of a slot; negative when the slot ends before it starts, since nothing guards against it. */
  function Duration(s: Slot): int
    requires WellFormedSlot(s)
  {
    EndMinutes(s) - StartMinutes(s)
  }

  /** Every slot ends no earlier than it starts. */
  predicate Ordered(av: seq<Slot>)
    requires WellFormedSchedule(av)
  {
    forall s :: s in av ==> StartMinutes(s) <= EndMinutes(s)
  }

  /** Sum of `end - start` over all slots, whatever their day names. */
  function TotalAvailableMinutes(av: seq<Slot>): (r: int)
    requires WellFormedSchedule(av)
    ensures -6039 * |av| <= r <= 6039 * |av|
  {
    if av == [] then 0 else Duration(av[0]) + TotalAvailableMinutes(av[1..])
  }

  /** The total over two schedules laid end to end is the sum of their totals. */
  lemma {:induction false} TotalAppend(a: seq<Slot>, b: seq<Slot>)
    requires WellFormedSchedule(a) && WellFormedSchedule(b)
    ensures WellFormedSchedule(a + b)
    ensures TotalAvailableMinutes(a + b) == TotalAvailableMinutes(a) + TotalAvailableMinutes(b)
  {
    if a != [] {
      assert (a + b)[1..] == a[1..] + b;
      TotalAppend(a[1..], b);
    } else {
      assert a + b == b;
    }
  }

  /** The total does not depend on day names: schedules with the same times slot by slot have the same total. */
  lemma {:induction false} TotalIgnoresDays(a: seq<Slot>, b: seq<Slot>)
    requires WellFormedSchedule(a) && |a| == |b|
    requires forall i :: 0 <= i < |a| ==> a[i].startTime == b[i].startTime && a[i].endTime == b[i].endTime
    ensures WellFormedSchedule(b)
    ensures TotalAvailableMinutes(a) == TotalAvailableMinutes(b)
  {
    forall s | s in b ensures WellFormedSlot(s) {
      var i :| 0 <= i < |b| && b[i] == s;
      assert a[i] in a;
    }
    if a != [] {
      TotalIgnoresDays(a[1..], b[1..]);
    }
  }

  /** When every slot is ordered the total is not negative, and it is at least the length of any one slot. */
  lemma {:induction false} TotalOfOrdered(av: seq<Slot>)
    requires WellFormedSchedule(av) && Ordered(av)
    ensures TotalAvailableMinutes(av) >= 0
    ensures forall s :: s in av ==> Duration(s) <= TotalAvailableMinutes(av)
  {
    if av != [] {
      TotalOfOrdered(av[1..]);
      assert forall s :: s in av ==> s == av[0] || s in av[1..];
    }
  }

  /** A slot that ends before it starts makes the total negative: Monday 17:00 to 09:00 counts as -480 minutes. */
  lemma BackwardSlotGivesNegativeTotal()
    ensures WellFormedSchedule([Slot("Monday", "17:00", "09:00")])
    ensures TotalAvailableMinutes([Slot("Monday", "17:00", "09:00")]) == -480
  {
    var av := [Slot("Monday", "17:00", "09:00")];
    assert av[1..] == [];
  }
}
