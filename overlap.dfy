/**
 * The availability-overlap calculation: for two weekly schedules, the minutes
 * they share on equal weekday names, as a percentage of the smaller of their
 * two declared totals.
 *
 * `OverlapMinutes` is the reference definition (every pair of slots, gated on
 * the day); `CalculateAvailabilityOverlap` is the day-by-day loop of the
 * application, proved to compute `OverlapPercent`.
 */
module AvailabilityOverlap {
  import opened UserModel
  import opened Schedule
  import opened SeqUtil
  import opened Arith

  /** Minutes shared by the time ranges of two slots, days aside: min(ends) - max(starts) when positive. */
  function Intersection(x: Slot, y: Slot): (r: nat)
    requires WellFormedSlot(x) && WellFormedSlot(y)
    ensures r > 0 <==>
      StartMinutes(x) < EndMinutes(x) && StartMinutes(y) < EndMinutes(y)
      && StartMinutes(x) < EndMinutes(y) && StartMinutes(y) < EndMinutes(x)
    ensures r <= Max(0, EndMinutes(x) - StartMinutes(x)) && r <= Max(0, EndMinutes(y) - StartMinutes(y))
  {
    var lo := Max(StartMinutes(x), StartMinutes(y));
    var hi := Min(EndMinutes(x), EndMinutes(y));
    if hi > lo then hi - lo else 0
  }

  /** What one pair of slots adds to the overlap: their intersection, when both carry the same listed weekday name. */
  function PairOverlap(x: Slot, y: Slot): (r: nat)
    requires WellFormedSlot(x) && WellFormedSlot(y)
    ensures r <= Intersection(x, y)
    ensures r > 0 ==> x.day == y.day && x.day in Weekdays
  {
    if x.day == y.day && x.day in Weekdays then Intersection(x, y) else 0
  }

  /** Sum of `PairOverlap(x, y)` over the slots `y` of `ys`. */
  function RowOverlap(x: Slot, ys: seq<Slot>): nat
    requires WellFormedSlot(x) && WellFormedSchedule(ys)
  {
    if ys == [] then 0 else RowOverlap(x, ys[..|ys| - 1]) + PairOverlap(x, ys[|ys| - 1])
  }

  /** Overlapping minutes of two schedules: the sum of `PairOverlap` over every pair of slots. */
  function OverlapMinutes(xs: seq<Slot>, ys: seq<Slot>): (r: nat)
    requires WellFormedSchedule(xs) && WellFormedSchedule(ys)
    ensures xs == [] || ys == [] ==> r == 0
  {
    if xs == [] then 0 else OverlapMinutes(xs[..|xs| - 1], ys) + RowOverlap(xs[|xs| - 1], ys)
  }

  /** The slots of `av` whose day name is exactly `d`, in their order. */
  function SlotsOn(av: seq<Slot>, d: string): (r: seq<Slot>)
    ensures forall s :: s in r ==> s in av && s.day == d
  {
    if av == [] then []
    else SlotsOn(av[..|av| - 1], d) + (if av[|av| - 1].day == d then [av[|av| - 1]] else [])
  }

  lemma SlotsOnWellFormed(av: seq<Slot>, d: string)
    requires WellFormedSchedule(av)
    ensures WellFormedSchedule(SlotsOn(av, d))
  {
  }

  /** Each slot named `d` is kept as often as it occurs in `av`; no other slot is kept. */
  lemma {:induction false} SlotsOnCount(av: seq<Slot>, d: string, s: Slot)
    ensures Count(SlotsOn(av, d), s) == if s.day == d then Count(av, s) else 0
  {
    if av != [] {
      var init := av[..|av| - 1];
      var last := av[|av| - 1];
      SlotsOnCount(init, d, s);
      var tail := if last.day == d then [last] else [];
      CountAppend(SlotsOn(init, d), tail, s);
      assert av == init + [last];
      CountAppend(init, [last], s);
      assert [last][1..] == [];
    }
  }

  /** The kept slots keep their order in `av`. */
  lemma {:induction false} SlotsOnSubsequence(av: seq<Slot>, d: string)
    ensures Subsequence(SlotsOn(av, d), av)
  {
    if av != [] {
      var init := av[..|av| - 1];
      var last := av[|av| - 1];
      SlotsOnSubsequence(init, d);
      SubsequenceSnoc(SlotsOn(init, d), init, last);
      assert av == init + [last];
      if last.day == d {
        assert SlotsOn(av, d) == SlotsOn(init, d) + [last];
      } else {
        assert SlotsOn(av, d) == SlotsOn(init, d) + [];
        assert SlotsOn(init, d) + [] == SlotsOn(init, d);
      }
    }
  }

  /** Sum of the intersections of `x` with every slot of `ys`, whatever its day. */
  function RowIntersect(x: Slot, ys: seq<Slot>): nat
    requires WellFormedSlot(x) && WellFormedSchedule(ys)
  {
    if ys == [] then 0 else RowIntersect(x, ys[..|ys| - 1]) + Intersection(x, ys[|ys| - 1])
  }

  /** Sum of the intersections of every pair of slots, whatever their days. */
  function CrossIntersect(xs: seq<Slot>, ys: seq<Slot>): nat
    requires WellFormedSchedule(xs) && WellFormedSchedule(ys)
  {
    if xs == [] then 0 else CrossIntersect(xs[..|xs| - 1], ys) + RowIntersect(xs[|xs| - 1], ys)
  }

  /** What the day-by-day loop has added up after the days `ds`. */
  function DayTotal(a: seq<Slot>, b: seq<Slot>, ds: seq<string>): nat
    requires WellFormedSchedule(a) && WellFormedSchedule(b)
  {
    if ds == [] then 0
    else DayTotal(a, b, ds[..|ds| - 1]) + CrossIntersect(SlotsOn(a, ds[|ds| - 1]), SlotsOn(b, ds[|ds| - 1]))
  }

  /** The overlap percentage: 0 for an empty schedule or a non-positive smaller total, else overlap / smaller total * 100. */
  function OverlapPercent(a: seq<Slot>, b: seq<Slot>): (r: real)
    requires WellFormedSchedule(a) && WellFormedSchedule(b)
    ensures r >= 0.0
  {
    if |a| == 0 || |b| == 0 then 0.0
    else
      var maxPossibleOverlap := Min(TotalAvailableMinutes(a), TotalAvailableMinutes(b));
      if maxPossibleOverlap > 0 then
        PercentageSign(OverlapMinutes(a, b), maxPossibleOverlap);
        Percentage(OverlapMinutes(a, b), maxPossibleOverlap)
      else 0.0
  }

  /** The weekday overlap of the application: buckets by the seven day names and sums pairwise intersections. */
  method CalculateAvailabilityOverlap(a: seq<Slot>, b: seq<Slot>) returns (pct: real)
    requires WellFormedSchedule(a) && WellFormedSchedule(b)
    ensures pct == OverlapPercent(a, b)
  {
    if |a| == 0 || |b| == 0 {
      return 0.0;
    }
    var totalOverlapMinutes: nat := 0;
    var k := 0;
    while k < |Weekdays|
      invariant 0 <= k <= |Weekdays|
      invariant totalOverlapMinutes == DayTotal(a, b, Weekdays[..k])
    {
      var day := Weekdays[k];
      var user1Slots := SlotsOn(a, day);
      var user2Slots := SlotsOn(b, day);
      SlotsOnWellFormed(a, day);
      SlotsOnWellFormed(b, day);
      totalOverlapMinutes := AddDayOverlap(totalOverlapMinutes, user1Slots, user2Slots);
      DayTotalStep(a, b, Weekdays, k);
      k := k + 1;
    }
    AllDays(a, b);
    var totalMinutes1 := TotalAvailableMinutes(a);
    var totalMinutes2 := TotalAvailableMinutes(b);
    var maxPossibleOverlap := Min(totalMinutes1, totalMinutes2);
    pct := if maxPossibleOverlap > 0 then (totalOverlapMinutes as real / maxPossibleOverlap as real) * 100.0 else 0.0;
    OverlapPercentOfTotal(a, b, totalOverlapMinutes);
  }

  /** After the seven days the running total is the pairwise overlap. */
  lemma AllDays(a: seq<Slot>, b: seq<Slot>)
    requires WellFormedSchedule(a) && WellFormedSchedule(b)
    ensures DayTotal(a, b, Weekdays[..|Weekdays|]) == OverlapMinutes(a, b)
  {
    assert Weekdays[..|Weekdays|] == Weekdays;
    DayBucketing(a, b);
  }

  /** The closing step of the loop: the summed minutes over the smaller total, as a percentage. */
  lemma OverlapPercentOfTotal(a: seq<Slot>, b: seq<Slot>, t: nat)
    requires WellFormedSchedule(a) && WellFormedSchedule(b) && |a| > 0 && |b| > 0
    requires t == OverlapMinutes(a, b)
    ensures var m := Min(TotalAvailableMinutes(a), TotalAvailableMinutes(b));
      OverlapPercent(a, b) == if m > 0 then (t as real / m as real) * 100.0 else 0.0
  {
  }

  /** The `user1Slots.forEach` callback of one day: adds the overlaps of every pair of that day's slots. */
  method AddDayOverlap(total: nat, slots1: seq<Slot>, slots2: seq<Slot>) returns (totalOverlapMinutes: nat)
    requires WellFormedSchedule(slots1) && WellFormedSchedule(slots2)
    ensures totalOverlapMinutes == total + CrossIntersect(slots1, slots2)
  {
    totalOverlapMinutes := total;
    var i := 0;
    while i < |slots1|
      invariant 0 <= i <= |slots1|
      invariant totalOverlapMinutes == total + CrossIntersect(slots1[..i], slots2)
    {
      var slot1 := slots1[i];
      assert slot1 in slots1;
      totalOverlapMinutes := AddRowOverlap(totalOverlapMinutes, slot1, slots2);
      CrossIntersectStep(slots1, slots2, i);
      i := i + 1;
    }
    assert slots1[..i] == slots1;
  }

  /** The `user2Slots.forEach` callback for one slot: adds each positive intersection with the other user's slots. */
  method AddRowOverlap(total: nat, slot1: Slot, slots2: seq<Slot>) returns (totalOverlapMinutes: nat)
    requires WellFormedSlot(slot1) && WellFormedSchedule(slots2)
    ensures totalOverlapMinutes == total + RowIntersect(slot1, slots2)
  {
    totalOverlapMinutes := total;
    var j := 0;
    while j < |slots2|
      invariant 0 <= j <= |slots2|
      invariant totalOverlapMinutes == total + RowIntersect(slot1, slots2[..j])
    {
      var slot2 := slots2[j];
      assert slot2 in slots2;
      var slot1Start := TimeToMinutes(slot1.startTime);
      var slot1End := TimeToMinutes(slot1.endTime);
      var slot2Start := TimeToMinutes(slot2.startTime);
      var slot2End := TimeToMinutes(slot2.endTime);
      var overlapStart := Max(slot1Start, slot2Start);
      var overlapEnd := Min(slot1End, slot2End);
      if overlapEnd > overlapStart {
        totalOverlapMinutes := totalOverlapMinutes + (overlapEnd - overlapStart);
      }
      RowIntersectStep(slot1, slots2, j);
      j := j + 1;
    }
    assert slots2[..j] == slots2;
  }

  lemma RowIntersectStep(x: Slot, ys: seq<Slot>, j: nat)
    requires WellFormedSlot(x) && WellFormedSchedule(ys) && j < |ys|
    ensures WellFormedSchedule(ys[..j]) && WellFormedSchedule(ys[..j + 1])
    ensures RowIntersect(x, ys[..j + 1]) == RowIntersect(x, ys[..j]) + Intersection(x, ys[j])
  {
    assert ys[..j + 1][..j] == ys[..j];
  }

  lemma CrossIntersectStep(xs: seq<Slot>, ys: seq<Slot>, i: nat)
    requires WellFormedSchedule(xs) && WellFormedSchedule(ys) && i < |xs|
    ensures WellFormedSchedule(xs[..i]) && WellFormedSchedule(xs[..i + 1])
    ensures CrossIntersect(xs[..i + 1], ys) == CrossIntersect(xs[..i], ys) + RowIntersect(xs[i], ys)
  {
    assert xs[..i + 1][..i] == xs[..i];
  }

  lemma DayTotalStep(a: seq<Slot>, b: seq<Slot>, ds: seq<string>, k: nat)
    requires WellFormedSchedule(a) && WellFormedSchedule(b) && k < |ds|
    ensures DayTotal(a, b, ds[..k + 1]) == DayTotal(a, b, ds[..k]) + CrossIntersect(SlotsOn(a, ds[k]), SlotsOn(b, ds[k]))
  {
    assert ds[..k + 1][..k] == ds[..k];
  }

  // ---------------------------------------------------------------------------
  // Bucketing by day computes the pairwise reference sum.

  lemma WeekdaysDistinct()
    ensures Distinct(Weekdays)
  {
    var w := Weekdays;
    assert w[0][0] == 'M' && w[1][..2] == "Tu" && w[2][0] == 'W' && w[3][..2] == "Th";
    assert w[4][0] == 'F' && w[5][..2] == "Sa" && w[6][..2] == "Su";
    forall i, j | 0 <= i < j < |w| ensures w[i] != w[j] {
      assert w[i][..2] != w[j][..2];
    }
  }

  /** Contribution of one slot `x` of the first schedule to the days `ds`. */
  function DayRow(x: Slot, b: seq<Slot>, ds: seq<string>): nat
    requires WellFormedSlot(x) && WellFormedSchedule(b)
  {
    if ds == [] then 0
    else DayRow(x, b, ds[..|ds| - 1]) + (if x.day == ds[|ds| - 1] then RowIntersect(x, SlotsOn(b, ds[|ds| - 1])) else 0)
  }

  lemma {:induction false} DayTotalOfEmpty(b: seq<Slot>, ds: seq<string>)
    requires WellFormedSchedule(b)
    ensures DayTotal([], b, ds) == 0
  {
    if ds != [] {
      DayTotalOfEmpty(b, ds[..|ds| - 1]);
    }
  }

  lemma {:induction false} DayTotalSnoc(a: seq<Slot>, x: Slot, b: seq<Slot>, ds: seq<string>)
    requires WellFormedSchedule(a) && WellFormedSlot(x) && WellFormedSchedule(b)
    ensures WellFormedSchedule(a + [x])
    ensures DayTotal(a + [x], b, ds) == DayTotal(a, b, ds) + DayRow(x, b, ds)
  {
    if ds != [] {
      var d := ds[|ds| - 1];
      DayTotalSnoc(a, x, b, ds[..|ds| - 1]);
      assert (a + [x])[..|a|] == a;
      var s := SlotsOn(a, d);
      if x.day == d {
        assert SlotsOn(a + [x], d) == s + [x];
        assert (s + [x])[..|s|] == s;
      } else {
        assert SlotsOn(a + [x], d) == s;
      }
    }
  }

  lemma {:induction false} DayRowPick(x: Slot, b: seq<Slot>, ds: seq<string>)
    requires WellFormedSlot(x) && WellFormedSchedule(b) && Distinct(ds)
    ensures DayRow(x, b, ds) == if x.day in ds then RowIntersect(x, SlotsOn(b, x.day)) else 0
  {
    if ds != [] {
      var init := ds[..|ds| - 1];
      assert Distinct(init);
      DayRowPick(x, b, init);
      assert ds == init + [ds[|ds| - 1]];
      if x.day == ds[|ds| - 1] {
        assert x.day !in init;
      }
    }
  }

  lemma {:induction false} RowOnDay(x: Slot, b: seq<Slot>)
    requires WellFormedSlot(x) && WellFormedSchedule(b) && x.day in Weekdays
    ensures RowIntersect(x, SlotsOn(b, x.day)) == RowOverlap(x, b)
  {
    if b != [] {
      var init := b[..|b| - 1];
      var y := b[|b| - 1];
      assert WellFormedSlot(y);
      RowOnDay(x, init);
      var s := SlotsOn(init, x.day);
      assert RowOverlap(x, b) == RowOverlap(x, init) + PairOverlap(x, y);
      if y.day == x.day {
        assert SlotsOn(b, x.day) == s + [y];
        assert (s + [y])[..|s|] == s;
        assert RowIntersect(x, s + [y]) == RowIntersect(x, s) + Intersection(x, y);
      } else {
        assert SlotsOn(b, x.day) == s;
      }
    }
  }

  lemma {:induction false} RowOffDays(x: Slot, b: seq<Slot>)
    requires WellFormedSlot(x) && WellFormedSchedule(b) && x.day !in Weekdays
    ensures RowOverlap(x, b) == 0
  {
    if b != [] {
      RowOffDays(x, b[..|b| - 1]);
    }
  }

  /** Summing day by day over the seven weekdays gives exactly the pairwise overlap. */
  lemma {:induction false} DayBucketing(a: seq<Slot>, b: seq<Slot>)
    requires WellFormedSchedule(a) && WellFormedSchedule(b)
    ensures DayTotal(a, b, Weekdays) == OverlapMinutes(a, b)
  {
    if a == [] {
      DayTotalOfEmpty(b, Weekdays);
    } else {
      var init := a[..|a| - 1];
      var x := a[|a| - 1];
      assert a == init + [x];
      DayBucketing(init, b);
      DayTotalSnoc(init, x, b, Weekdays);
      WeekdaysDistinct();
      DayRowPick(x, b, Weekdays);
      if x.day in Weekdays {
        RowOnDay(x, b);
      } else {
        RowOffDays(x, b);
      }
    }
  }

  // ---------------------------------------------------------------------------
  // Symmetry.

  lemma PairOverlapSymmetric(x: Slot, y: Slot)
    requires WellFormedSlot(x) && WellFormedSlot(y)
    ensures PairOverlap(x, y) == PairOverlap(y, x)
  {
  }

  lemma {:induction false} OverlapMinutesSnocRight(b: seq<Slot>, a: seq<Slot>, x: Slot)
    requires WellFormedSchedule(b) && WellFormedSchedule(a) && WellFormedSlot(x)
    ensures WellFormedSchedule(a + [x])
    ensures OverlapMinutes(b, a + [x]) == OverlapMinutes(b, a) + RowOverlap(x, b)
  {
    assert (a + [x])[..|a|] == a;
    if b != [] {
      var init := b[..|b| - 1];
      var y := b[|b| - 1];
      OverlapMinutesSnocRight(init, a, x);
      PairOverlapSymmetric(x, y);
    }
  }

  /** Overlapping minutes do not depend on which schedule comes first. */
  lemma {:induction false} OverlapMinutesSymmetric(a: seq<Slot>, b: seq<Slot>)
    requires WellFormedSchedule(a) && WellFormedSchedule(b)
    ensures OverlapMinutes(a, b) == OverlapMinutes(b, a)
  {
    if a != [] {
      var init := a[..|a| - 1];
      var x := a[|a| - 1];
      assert a == init + [x];
      OverlapMinutesSymmetric(init, b);
      OverlapMinutesSnocRight(b, init, x);
    }
  }

  /** The overlap percentage is symmetric in its two schedules. */
  lemma OverlapPercentSymmetric(a: seq<Slot>, b: seq<Slot>)
    requires WellFormedSchedule(a) && WellFormedSchedule(b)
    ensures OverlapPercent(a, b) == OverlapPercent(b, a)
  {
    OverlapMinutesSymmetric(a, b);
  }

  // ---------------------------------------------------------------------------
  // When the percentage is zero, and when it is positive.

  /** The percentage is 0 when either schedule is empty or the smaller declared total is not positive. */
  lemma OverlapPercentZero(a: seq<Slot>, b: seq<Slot>)
    requires WellFormedSchedule(a) && WellFormedSchedule(b)
    requires a == [] || b == [] || Min(TotalAvailableMinutes(a), TotalAvailableMinutes(b)) <= 0
    ensures OverlapPercent(a, b) == 0.0
  {
  }

  lemma {:induction false} RowOverlapPositive(x: Slot, ys: seq<Slot>)
    requires WellFormedSlot(x) && WellFormedSchedule(ys)
    ensures RowOverlap(x, ys) > 0 <==> exists y :: y in ys && PairOverlap(x, y) > 0
  {
    if ys != [] {
      var init := ys[..|ys| - 1];
      var last := ys[|ys| - 1];
      RowOverlapPositive(x, init);
      assert ys == init + [last];
      assert forall y :: y in ys <==> y in init || y == last;
    }
  }

  /** Overlapping minutes are positive exactly when some pair of slots shares a minute on the same listed weekday. */
  lemma {:induction false} OverlapMinutesPositive(xs: seq<Slot>, ys: seq<Slot>)
    requires WellFormedSchedule(xs) && WellFormedSchedule(ys)
    ensures OverlapMinutes(xs, ys) > 0 <==> exists x, y :: x in xs && y in ys && PairOverlap(x, y) > 0
  {
    if xs != [] {
      var init := xs[..|xs| - 1];
      var last := xs[|xs| - 1];
      OverlapMinutesPositive(init, ys);
      RowOverlapPositive(last, ys);
      assert xs == init + [last];
      assert forall x :: x in xs <==> x in init || x == last;
    }
  }

  /**
   * The percentage is positive exactly when the smaller total is positive and
   * the schedules overlap, that is (by OverlapMinutesPositive) some same-day pair
   * of slots shares a minute.
   */
  lemma OverlapPercentPositive(a: seq<Slot>, b: seq<Slot>)
    requires WellFormedSchedule(a) && WellFormedSchedule(b)
    ensures OverlapPercent(a, b) > 0.0 <==>
      Min(TotalAvailableMinutes(a), TotalAvailableMinutes(b)) > 0 && OverlapMinutes(a, b) > 0
  {
    var m := Min(TotalAvailableMinutes(a), TotalAvailableMinutes(b));
    if m > 0 {
      PercentageSign(OverlapMinutes(a, b), m);
    }
  }
}
