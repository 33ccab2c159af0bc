/**
  * The attendance report page: one summary per calendar month that has
  * records, the overall figures, the colour and badge for a percentage, and
  * the best month.
  */
module AttendanceReport {
  import opened Seqs
  import MyAttendance

  type AttendanceRecord = MyAttendance.AttendanceRecord

  const MonthNames: seq<string> := [
    "January", "February", "March", "April", "May", "June",
    "July", "August", "September", "October", "November", "December"]

  /** One month of the report; `monthNumber` is the month index plus one. */
  datatype MonthStats = MonthStats(
    month: string,
    monthNumber: nat,
    total: nat,
    present: nat,
    absent: nat,
    late: nat,
    percentage: real)

  /** `new Date(record.date).getMonth() === index`. */
  function InMonth(index: int): AttendanceRecord -> bool {
    (r: AttendanceRecord) => r.month == index
  }

  /** The record falls in month `from` or a later month of the year. */
  function InMonthsFrom(from: int): AttendanceRecord -> bool {
    (r: AttendanceRecord) => from <= r.month < 12
  }

  /**
    * `parseFloat(x.toFixed(1))` for a non-negative x: rounded to one decimal
    * place, halves upward.
    */
  function ToFixed1(x: real): (r: real)
    requires x >= 0.0
    ensures 0.0 <= r
    ensures x - 0.05 < r <= x + 0.05
    ensures x <= 100.0 ==> r <= 100.0
  {
    ((x * 10.0 + 0.5).Floor as real) / 10.0
  }

  /** A rounding that never reverses the order of two percentages. */
  lemma ToFixed1Monotone(x: real, y: real)
    requires 0.0 <= x <= y
    ensures ToFixed1(x) <= ToFixed1(y)
  {
    var a, b := x * 10.0 + 0.5, y * 10.0 + 0.5;
    assert a <= b;
    assert a.Floor as real <= a && b < b.Floor as real + 1.0;
    assert a.Floor <= b.Floor;
  }

  /** The summary of the month with index `index` (0 for January). */
  function MonthOf(data: seq<AttendanceRecord>, index: nat): (m: MonthStats)
    requires index < 12
    ensures m.month == MonthNames[index] && m.monthNumber == index + 1
    ensures m.total == Count(data, InMonth(index))
    ensures m.present == Count(data, Both(InMonth(index), MyAttendance.StatusIs("present")))
    ensures m.absent == Count(data, Both(InMonth(index), MyAttendance.StatusIs("absent")))
    ensures m.late == Count(data, Both(InMonth(index), MyAttendance.StatusIs("late")))
    ensures m.percentage == ToFixed1(PercentOf(m.present + m.late, m.total))
  {
    var total := Count(data, InMonth(index));
    var present := Count(data, Both(InMonth(index), MyAttendance.StatusIs("present")));
    var absent := Count(data, Both(InMonth(index), MyAttendance.StatusIs("absent")));
    var late := Count(data, Both(InMonth(index), MyAttendance.StatusIs("late")));
    MonthStats(MonthNames[index], index + 1, total, present, absent, late, ToFixed1(PercentOf(present + late, total)))
  }

  /** A month's status counts stay within its total, so its percentage lies between 0 and 100. */
  lemma MonthOfBounds(data: seq<AttendanceRecord>, index: nat)
    requires index < 12
    ensures var m := MonthOf(data, index);
      m.present + m.absent + m.late <= m.total && 0.0 <= m.percentage <= 100.0
  {
    var monthData := Filter(data, InMonth(index));
    CountFiltered(data, InMonth(index), MyAttendance.StatusIs("present"));
    CountFiltered(data, InMonth(index), MyAttendance.StatusIs("absent"));
    CountFiltered(data, InMonth(index), MyAttendance.StatusIs("late"));
    MyAttendance.StatusCountsWithinTotal(monthData);
  }

  /** `m` is the summary of the month it names. */
  predicate Summarises(data: seq<AttendanceRecord>, m: MonthStats) {
    1 <= m.monthNumber <= 12 && m == MonthOf(data, m.monthNumber - 1)
  }

  /**
    * The indices from `from` on of the months that have records, in calendar
    * order: the months that `.filter((stat) => stat.total > 0)` keeps.
    */
  function ActiveMonths(data: seq<AttendanceRecord>, from: nat): (ks: seq<nat>)
    requires from <= 12
    ensures forall i :: 0 <= i < |ks| ==> from <= ks[i] < 12 && Count(data, InMonth(ks[i])) > 0
    ensures forall i, j :: 0 <= i < j < |ks| ==> ks[i] < ks[j]
    ensures |ks| <= 12 - from
    decreases 12 - from
  {
    if from == 12 then []
    else if Count(data, InMonth(from)) > 0 then [from] + ActiveMonths(data, from + 1)
    else ActiveMonths(data, from + 1)
  }

  /** Every month from `from` on that has records is among the active months. */
  lemma {:induction false} ActiveMonthsCover(data: seq<AttendanceRecord>, from: nat, index: nat)
    requires from <= index < 12 && Count(data, InMonth(index)) > 0
    ensures index in ActiveMonths(data, from)
    decreases 12 - from
  {
    if index != from {
      ActiveMonthsCover(data, from + 1, index);
    }
  }

  /** `ks.map(index => ...)`: the summary of each listed month. */
  function MonthsOf(data: seq<AttendanceRecord>, ks: seq<nat>): (r: seq<MonthStats>)
    requires forall i :: 0 <= i < |ks| ==> ks[i] < 12
    ensures |r| == |ks|
    ensures forall i :: 0 <= i < |ks| ==> r[i] == MonthOf(data, ks[i])
  {
    if ks == [] then [] else [MonthOf(data, ks[0])] + MonthsOf(data, ks[1..])
  }

  /**
    * `calculateMonthlyStats`: a summary for every month that has records and
    * for no other, in calendar order.
    */
  function CalculateMonthlyStats(data: seq<AttendanceRecord>): (r: seq<MonthStats>)
    ensures forall i :: 0 <= i < |r| ==>
      && r[i].total > 0
      && Summarises(data, r[i])
    ensures forall i, j :: 0 <= i < j < |r| ==> r[i].monthNumber < r[j].monthNumber
    ensures forall index :: 0 <= index < 12 && Count(data, InMonth(index)) > 0 ==>
      exists i :: 0 <= i < |r| && r[i].monthNumber == index + 1
    ensures |r| <= 12
  {
    var ks := ActiveMonths(data, 0);
    var r := MonthsOf(data, ks);
    MonthsOfSummarise(data, ks);
    forall index | 0 <= index < 12 && Count(data, InMonth(index)) > 0
      ensures exists i :: 0 <= i < |r| && r[i].monthNumber == index + 1
    {
      var i := MonthListed(data, index);
    }
    r
  }

  /** A month with records has its summary among those of the active months, at position `i`. */
  lemma MonthListed(data: seq<AttendanceRecord>, index: nat) returns (i: nat)
    requires index < 12 && Count(data, InMonth(index)) > 0
    ensures i < |MonthsOf(data, ActiveMonths(data, 0))|
    ensures MonthsOf(data, ActiveMonths(data, 0))[i].monthNumber == index + 1
  {
    var ks := ActiveMonths(data, 0);
    ActiveMonthsCover(data, 0, index);
    i :| 0 <= i < |ks| && ks[i] == index;
    assert MonthsOf(data, ks)[i] == MonthOf(data, ks[i]);
  }

  /** Summaries of increasing active months are non-empty, faithful and in calendar order. */
  lemma MonthsOfSummarise(data: seq<AttendanceRecord>, ks: seq<nat>)
    requires forall i :: 0 <= i < |ks| ==> ks[i] < 12 && Count(data, InMonth(ks[i])) > 0
    requires forall i, j :: 0 <= i < j < |ks| ==> ks[i] < ks[j]
    ensures var r := MonthsOf(data, ks);
      && (forall i :: 0 <= i < |r| ==> r[i].total > 0 && Summarises(data, r[i]))
      && (forall i, j :: 0 <= i < j < |r| ==> r[i].monthNumber < r[j].monthNumber)
  {
    var r := MonthsOf(data, ks);
    forall i | 0 <= i < |r|
      ensures r[i].total > 0 && Summarises(data, r[i])
    {
      assert r[i] == MonthOf(data, ks[i]);
    }
    forall i, j | 0 <= i < j < |r|
      ensures r[i].monthNumber < r[j].monthNumber
    {
      assert r[i] == MonthOf(data, ks[i]) && r[j] == MonthOf(data, ks[j]);
    }
  }

  // ---------------------------------------------------------------------------
  // Monthly totals against the overall figures

  function TotalOf(months: seq<MonthStats>): nat {
    if months == [] then 0 else months[0].total + TotalOf(months[1..])
  }

  function PresentOf(months: seq<MonthStats>): nat {
    if months == [] then 0 else months[0].present + PresentOf(months[1..])
  }

  /** Adding month `from` in front of the later months' summaries when it has records. */
  lemma MonthsOfStep(data: seq<AttendanceRecord>, from: nat)
    requires from < 12
    ensures var m, rest := MonthOf(data, from), MonthsOf(data, ActiveMonths(data, from + 1));
      MonthsOf(data, ActiveMonths(data, from)) == if m.total > 0 then [m] + rest else rest
  {
    var ks := [from] + ActiveMonths(data, from + 1);
    assert ks[1..] == ActiveMonths(data, from + 1);
  }

  /** Every record of month `from` or later is counted in exactly one of those months. */
  lemma {:induction false} MonthlyTotalsFrom(data: seq<AttendanceRecord>, from: nat)
    requires from <= 12
    ensures TotalOf(MonthsOf(data, ActiveMonths(data, from))) == Count(data, InMonthsFrom(from))
    decreases 12 - from
  {
    if from == 12 {
      CountNone(data, InMonthsFrom(from));
    } else {
      MonthlyTotalsFrom(data, from + 1);
      CountSplit(data, InMonthsFrom(from), InMonth(from), InMonthsFrom(from + 1));
      MonthsOfStep(data, from);
    }
  }

  /** Every present record of month `from` or later is counted as present in exactly one of those months. */
  lemma {:induction false} MonthlyPresentFrom(data: seq<AttendanceRecord>, from: nat)
    requires from <= 12
    ensures PresentOf(MonthsOf(data, ActiveMonths(data, from))) == Count(data, Both(InMonthsFrom(from), MyAttendance.StatusIs("present")))
    decreases 12 - from
  {
    var present := MyAttendance.StatusIs("present");
    if from == 12 {
      CountNone(data, Both(InMonthsFrom(from), present));
    } else {
      MonthlyPresentFrom(data, from + 1);
      CountSplit(data, Both(InMonthsFrom(from), present), Both(InMonth(from), present), Both(InMonthsFrom(from + 1), present));
      MonthsOfStep(data, from);
    }
  }

  /**
    * When every record has a month index 0..11, the monthly totals add up to
    * the overall total and the monthly present counts to the overall present
    * count.
    */
  lemma MonthlyTotalsMatchOverall(data: seq<AttendanceRecord>)
    requires forall i :: 0 <= i < |data| ==> 0 <= data[i].month < 12
    ensures TotalOf(CalculateMonthlyStats(data)) == MyAttendance.CalculateStats(data).total
    ensures PresentOf(CalculateMonthlyStats(data)) == MyAttendance.CalculateStats(data).present
  {
    MonthlyTotalsFrom(data, 0);
    MonthlyPresentFrom(data, 0);
    FilterAll(data, InMonthsFrom(0));
    CountAgree(data, Both(InMonthsFrom(0), MyAttendance.StatusIs("present")), MyAttendance.StatusIs("present"));
  }

  // ---------------------------------------------------------------------------
  // getPercentageColor, getPercentageBadge

  datatype Variant = Success | Info | Warning | Error

  function VariantName(v: Variant): string {
    match v
    case Success => "success"
    case Info => "info"
    case Warning => "warning"
    case Error => "error"
  }

  /** `getPercentageBadge`: at least 90, 75 and 60, else error. */
  function PercentageBadge(p: real): (v: Variant)
    ensures v == Success <==> p >= 90.0
    ensures v == Info <==> 75.0 <= p < 90.0
    ensures v == Warning <==> 60.0 <= p < 75.0
    ensures v == Error <==> p < 60.0
  {
    if p >= 90.0 then Success
    else if p >= 75.0 then Info
    else if p >= 60.0 then Warning
    else Error
  }

  /** `getPercentageColor`: the text colour for the same four bands. */
  function PercentageColor(p: real): (c: string)
    ensures c == "text-success-600" <==> p >= 90.0
    ensures c == "text-info-600" <==> 75.0 <= p < 90.0
    ensures c == "text-warning-600" <==> 60.0 <= p < 75.0
    ensures c == "text-error-600" <==> p < 60.0
  {
    if p >= 90.0 then "text-success-600"
    else if p >= 75.0 then "text-info-600"
    else if p >= 60.0 then "text-warning-600"
    else "text-error-600"
  }

  /** The colour and the badge of a percentage always name the same band. */
  lemma ColorFollowsBadge(p: real)
    ensures PercentageColor(p) == "text-" + VariantName(PercentageBadge(p)) + "-600"
  {
  }

  // ---------------------------------------------------------------------------
  // The best month

  /**
    * `monthlyStats.reduce((best, current) => current.percentage > best.percentage ? current : best)`:
    * the index of a month with the highest percentage, the first such month
    * when several tie.
    */
  function BestIndex(months: seq<MonthStats>): (k: nat)
    requires |months| > 0
    ensures k < |months|
    ensures forall j :: 0 <= j < |months| ==> months[j].percentage <= months[k].percentage
    ensures forall j :: 0 <= j < k ==> months[j].percentage < months[k].percentage
  {
    if |months| == 1 then 0
    else
      var best := BestIndex(months[..|months| - 1]);
      if months[|months| - 1].percentage > months[best].percentage then |months| - 1 else best
  }
}
