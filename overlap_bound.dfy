/**
 * When the overlap percentage stays within [0, 100]: a slot covers the whole
 * minutes from its start up to its end, so the overlap of a slot with a day of
 * mutually disjoint slots is at most the slot's own length. The two examples at
 * the end show that each hypothesis is needed.
 */
module OverlapBound {
  import opened UserModel
  import opened Schedule
  import opened AvailabilityOverlap
  import opened Arith
  import SeqUtil

  /** Minute `m` lies in `[lo, hi)`; `Minutes` is written over it so that its comprehension has a term to match on. */
  predicate Covers(lo: int, hi: int, m: int)
  {
    lo <= m < hi
  }

  /** The whole minutes `m` with `lo <= m < hi`. */
  function Minutes(lo: int, hi: int): set<int>
  {
    set m: int | lo <= m < hi && Covers(lo, hi, m)
  }

  lemma {:induction false} MinutesCard(lo: int, hi: int)
    ensures |Minutes(lo, hi)| == if lo <= hi then hi - lo else 0
    decreases if lo <= hi then hi - lo else 0
  {
    if lo < hi {
      assert Minutes(lo, hi) == Minutes(lo, hi - 1) + {hi - 1};
      MinutesCard(lo, hi - 1);
    } else {
      assert Minutes(lo, hi) == {};
    }
  }

  /** The minutes a slot covers. */
  function SlotMinutes(s: Slot): set<int>
    requires WellFormedSlot(s)
  {
    Minutes(StartMinutes(s), EndMinutes(s))
  }

  /** The intersection of two slots counts exactly the minutes both cover. */
  lemma IntersectionCountsSharedMinutes(x: Slot, y: Slot)
    requires WellFormedSlot(x) && WellFormedSlot(y)
    ensures Intersection(x, y) == |SlotMinutes(x) * SlotMinutes(y)|
  {
    var lo := Max(StartMinutes(x), StartMinutes(y));
    var hi := Min(EndMinutes(x), EndMinutes(y));
    assert SlotMinutes(x) * SlotMinutes(y) == Minutes(lo, hi);
    MinutesCard(lo, hi);
  }

  /** No two slots of the schedule that carry the same day name share a minute. */
  predicate NoSelfOverlap(av: seq<Slot>)
    requires WellFormedSchedule(av)
  {
    forall i, j :: 0 <= i < j < |av| && av[i].day == av[j].day ==> Intersection(av[i], av[j]) == 0
  }

  /** The minutes covered by the slots of `ys` named `d`. */
  function DayMinutes(ys: seq<Slot>, d: string): set<int>
    requires WellFormedSchedule(ys)
  {
    if ys == [] then {}
    else DayMinutes(ys[..|ys| - 1], d) + (if ys[|ys| - 1].day == d then SlotMinutes(ys[|ys| - 1]) else {})
  }

  lemma {:induction false} DayMinutesDisjoint(ys: seq<Slot>, d: string, y: Slot)
    requires WellFormedSchedule(ys) && WellFormedSlot(y)
    requires forall z :: z in ys && z.day == d ==> Intersection(z, y) == 0
    ensures DayMinutes(ys, d) * SlotMinutes(y) == {}
  {
    if ys != [] {
      var init := ys[..|ys| - 1];
      var last := ys[|ys| - 1];
      assert forall z :: z in init ==> z in ys;
      DayMinutesDisjoint(init, d, y);
      if last.day == d {
        assert last in ys;
        IntersectionCountsSharedMinutes(last, y);
      }
    }
  }

  /** With no self-overlap, the overlap of `x` with `ys` counts the minutes of `x` covered by `ys` on its day. */
  lemma {:induction false} RowOverlapCountsMinutes(x: Slot, ys: seq<Slot>)
    requires WellFormedSlot(x) && WellFormedSchedule(ys) && NoSelfOverlap(ys)
    ensures RowOverlap(x, ys) == if x.day in Weekdays then |SlotMinutes(x) * DayMinutes(ys, x.day)| else 0
  {
    if x.day !in Weekdays {
      RowOffDays(x, ys);
    } else if ys != [] {
      var d := x.day;
      var init := ys[..|ys| - 1];
      var y := ys[|ys| - 1];
      assert y in ys;
      NoSelfOverlapInit(ys);
      RowOverlapCountsMinutes(x, init);
      if y.day == d {
        DayMinutesDisjoint(init, d, y);
        SharedMinutesSplit(SlotMinutes(x), DayMinutes(init, d), SlotMinutes(y));
        IntersectionCountsSharedMinutes(x, y);
      }
    } else {
      assert SlotMinutes(x) * DayMinutes(ys, x.day) == {};
    }
  }

  /** Dropping the last slot keeps the schedule free of self-overlap, and the last slot shares no minute with a same-day earlier one. */
  lemma NoSelfOverlapInit(ys: seq<Slot>)
    requires WellFormedSchedule(ys) && ys != [] && NoSelfOverlap(ys)
    ensures WellFormedSchedule(ys[..|ys| - 1]) && NoSelfOverlap(ys[..|ys| - 1])
    ensures forall z :: z in ys[..|ys| - 1] && z.day == ys[|ys| - 1].day ==> Intersection(z, ys[|ys| - 1]) == 0
  {
    var init := ys[..|ys| - 1];
    var y := ys[|ys| - 1];
    assert y in ys;
    assert forall z :: z in init ==> z in ys;
    forall i, j | 0 <= i < j < |init| && init[i].day == init[j].day
      ensures Intersection(init[i], init[j]) == 0
    {
      assert init[i] == ys[i] && init[j] == ys[j];
    }
    forall z | z in init && z.day == y.day ensures Intersection(z, y) == 0 {
      var i :| 0 <= i < |init| && init[i] == z;
      assert ys[i] == z;
    }
  }

  lemma SharedMinutesSplit(m: set<int>, u: set<int>, v: set<int>)
    requires u * v == {}
    ensures |m * (u + v)| == |m * u| + |m * v|
  {
    assert m * (u + v) == m * u + m * v;
    assert (m * u) * (m * v) == {};
  }

  /** An ordered slot overlaps a schedule without self-overlap by at most its own length. */
  lemma RowOverlapAtMostDuration(x: Slot, ys: seq<Slot>)
    requires WellFormedSlot(x) && WellFormedSchedule(ys) && NoSelfOverlap(ys)
    requires StartMinutes(x) <= EndMinutes(x)
    ensures RowOverlap(x, ys) <= Duration(x)
  {
    RowOverlapCountsMinutes(x, ys);
    MinutesCard(StartMinutes(x), EndMinutes(x));
    if x.day in Weekdays {
      SeqUtil.SubsetCard(SlotMinutes(x) * DayMinutes(ys, x.day), SlotMinutes(x));
    }
  }

  /** The overlapping minutes never exceed the total of an ordered schedule, against one without self-overlap. */
  lemma {:induction false} OverlapMinutesAtMostTotal(xs: seq<Slot>, ys: seq<Slot>)
    requires WellFormedSchedule(xs) && WellFormedSchedule(ys)
    requires Ordered(xs) && NoSelfOverlap(ys)
    ensures OverlapMinutes(xs, ys) <= TotalAvailableMinutes(xs)
  {
    if xs != [] {
      var init := xs[..|xs| - 1];
      var x := xs[|xs| - 1];
      assert x in xs;
      assert forall s :: s in init ==> s in xs;
      OverlapMinutesAtMostTotal(init, ys);
      RowOverlapAtMostDuration(x, ys);
      assert xs == init + [x];
      TotalAppend(init, [x]);
      assert [x][1..] == [];
    }
  }

  /**
   * The overlap percentage lies in [0, 100] when both schedules are ordered
   * (no slot ends before it starts) and neither has two same-day slots sharing a minute.
   */
  lemma OverlapPercentAtMostHundred(a: seq<Slot>, b: seq<Slot>)
    requires WellFormedSchedule(a) && WellFormedSchedule(b)
    requires Ordered(a) && Ordered(b) && NoSelfOverlap(a) && NoSelfOverlap(b)
    ensures 0.0 <= OverlapPercent(a, b) <= 100.0
  {
    OverlapMinutesAtMostTotal(a, b);
    OverlapMinutesAtMostTotal(b, a);
    OverlapMinutesSymmetric(a, b);
    var m := Min(TotalAvailableMinutes(a), TotalAvailableMinutes(b));
    if m > 0 {
      PercentageAtMostHundred(OverlapMinutes(a, b), m);
    }
  }

  /** Two identical Monday slots against one: the shared hour is counted twice and the percentage reaches 200. */
  lemma DoubleBookedSlotGives200()
    ensures var a := [Slot("Monday", "09:00", "10:00"), Slot("Monday", "09:00", "10:00")];
      var b := [Slot("Monday", "09:00", "10:00")];
      WellFormedSchedule(a) && WellFormedSchedule(b) && OverlapPercent(a, b) == 200.0
  {
    var s := Slot("Monday", "09:00", "10:00");
    var a := [s, s];
    var b := [s];
    SampleTimes();
    assert StartMinutes(s) == 540 && EndMinutes(s) == 600;
    assert Intersection(s, s) == 60;
    assert PairOverlap(s, s) == 60;
    assert b[..0] == [] && a[..1] == [s];
    assert RowOverlap(s, b) == 60;
    assert [s][..0] == [];
    assert OverlapMinutes([s], b) == 60;
    assert OverlapMinutes(a, b) == 120;
    assert a[1..] == [s] && [s][1..] == [];
    assert TotalAvailableMinutes(a) == 120 && TotalAvailableMinutes(b) == 60;
  }

  /**
   * A Tuesday slot from 17:00 back to 10:00 declares -420 minutes, shrinking the
   * first schedule's total to 60 while its Monday slot still overlaps 480 minutes.
   */
  lemma BackwardSlotGives800()
    ensures var a := [Slot("Monday", "09:00", "17:00"), Slot("Tuesday", "17:00", "10:00")];
      var b := [Slot("Monday", "09:00", "17:00")];
      WellFormedSchedule(a) && WellFormedSchedule(b) && OverlapPercent(a, b) == 800.0
  {
    var mon := Slot("Monday", "09:00", "17:00");
    var tue := Slot("Tuesday", "17:00", "10:00");
    var a := [mon, tue];
    var b := [mon];
    SampleTimes();
    assert StartMinutes(mon) == 540 && EndMinutes(mon) == 1020;
    assert StartMinutes(tue) == 1020 && EndMinutes(tue) == 600;
    assert "Monday" in Weekdays;
    assert PairOverlap(mon, mon) == 480;
    assert "Tuesday" != "Monday";
    assert PairOverlap(tue, mon) == 0;
    assert b[..0] == [] && a[..1] == [mon];
    assert RowOverlap(mon, b) == RowOverlap(mon, b[..0]) + PairOverlap(mon, mon);
    assert RowOverlap(tue, b) == RowOverlap(tue, b[..0]) + PairOverlap(tue, mon);
    assert [mon][..0] == [];
    assert OverlapMinutes([mon], b) == 480;
    assert OverlapMinutes(a, b) == 480;
    assert Duration(mon) == 480 && Duration(tue) == -420;
    assert [tue][1..] == [] && b[1..] == [];
    assert TotalAvailableMinutes([tue]) == -420;
    assert a[1..] == [tue];
    assert TotalAvailableMinutes(a) == 480 + TotalAvailableMinutes([tue]);
    assert TotalAvailableMinutes(b) == 480;
  }
}
