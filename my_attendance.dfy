/**
  * The student's attendance page: counts by status, the attendance
  * percentage, and the status badge. The attendance record defined here is
  * shared by the monthly report.
  */
module MyAttendance {
  import opened Wrappers
  import opened Text
  import opened Seqs

  /**
    * An attendance record as the pages read it: its status (which may be
    * missing) and the month index `new Date(record.date).getMonth()` gives,
    * taken as an input.
    */
  datatype AttendanceRecord = AttendanceRecord(status: Option<string>, month: int)

  /** `a.status === name`: an exact, case-sensitive match. */
  function StatusIs(name: string): AttendanceRecord -> bool {
    (r: AttendanceRecord) => r.status == Some(name)
  }

  datatype AttendanceStats = AttendanceStats(total: nat, present: nat, absent: nat, late: nat, percentage: real)

  /** The three exact-spelling counts never exceed the number of records. */
  lemma {:induction false} StatusCountsWithinTotal(data: seq<AttendanceRecord>)
    ensures Count(data, StatusIs("present")) + Count(data, StatusIs("absent")) + Count(data, StatusIs("late")) <= |data|
  {
    if data != [] {
      StatusCountsWithinTotal(data[1..]);
    }
  }

  /**
    * `calculateStats`: the number of records, the numbers whose status is
    * exactly "present", "absent" and "late", and the share of present or
    * late records in percent (0 without records).
    */
  function CalculateStats(data: seq<AttendanceRecord>): (s: AttendanceStats)
    ensures s.total == |data|
    ensures s.present == Count(data, StatusIs("present"))
    ensures s.absent == Count(data, StatusIs("absent"))
    ensures s.late == Count(data, StatusIs("late"))
    ensures s.present + s.absent + s.late <= s.total
    ensures s.percentage == PercentOf(s.present + s.late, s.total)
    ensures 0.0 <= s.percentage <= 100.0
    ensures s.total == 0 ==> s.percentage == 0.0
  {
    var present := Count(data, StatusIs("present"));
    var absent := Count(data, StatusIs("absent"));
    var late := Count(data, StatusIs("late"));
    StatusCountsWithinTotal(data);
    AttendanceStats(|data|, present, absent, late, PercentOf(present + late, |data|))
  }

  /**
    * Statuses spelt another way (the schema stores "Present") count only
    * toward the total: such a record is shown as present but not counted.
    */
  lemma CapitalisedStatusNotCounted()
    ensures
      var data := [AttendanceRecord(Some("Present"), 0)];
      var s := CalculateStats(data);
      s.total == 1 && s.present == 0 && s.percentage == 0.0
      && StatusBadge(data[0].status) == Badge(Success, "Present")
  {
    var data := [AttendanceRecord(Some("Present"), 0)];
    assert Filter(data, StatusIs("present")) == [];
    assert Filter(data, StatusIs("late")) == [];
    assert ToLower("Present") == "present";
  }

  // ---------------------------------------------------------------------------
  // getStatusBadge

  datatype Variant = Success | Error | Warning | Secondary

  datatype Badge = Badge(variant: Variant, text: string)

  /** `switch (status?.toLowerCase())`: present, absent or late in any case; anything else, or nothing, is "Unknown". */
  function StatusBadge(status: Option<string>): (b: Badge)
    ensures b == Badge(Success, "Present") <==> status.Some? && ToLower(status.value) == "present"
    ensures b == Badge(Error, "Absent") <==> status.Some? && ToLower(status.value) == "absent"
    ensures b == Badge(Warning, "Late") <==> status.Some? && ToLower(status.value) == "late"
    ensures b == Badge(Secondary, "Unknown") <==>
      status.None? || ToLower(status.value) !in {"present", "absent", "late"}
  {
    if status.None? then Badge(Secondary, "Unknown")
    else
      var s := ToLower(status.value);
      if s == "present" then Badge(Success, "Present")
      else if s == "absent" then Badge(Error, "Absent")
      else if s == "late" then Badge(Warning, "Late")
      else Badge(Secondary, "Unknown")
  }

  /** Statuses that differ only in case get the same badge. */
  lemma StatusBadgeIgnoresCase(a: string, b: string)
    requires EqualsIgnoreCase(a, b)
    ensures StatusBadge(Some(a)) == StatusBadge(Some(b))
  {
  }

  /** Every record the counts call present is shown with the "Present" badge. */
  lemma CountedPresentShowsPresent(r: AttendanceRecord)
    requires StatusIs("present")(r)
    ensures StatusBadge(r.status) == Badge(Success, "Present")
  {
    assert ToLower("present") == "present";
  }
}
