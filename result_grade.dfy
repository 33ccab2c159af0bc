/**
  * The exam result document: the pre-save hook that derives the percentage
  * and the letter grade from the marks, the grade enum, and the rule that a
  * student has at most one result per exam.
  */
module ResultGrade {
  import opened Wrappers

  datatype Grade = APlus | A | AMinus | BPlus | B | C | D | F

  /** The enum strings of the schema's `grade` field. */
  function GradeName(g: Grade): string {
    match g
    case APlus => "A+"
    case A => "A"
    case AMinus => "A-"
    case BPlus => "B+"
    case B => "B"
    case C => "C"
    case D => "D"
    case F => "F"
  }

  /** The enum validator: exactly the eight grade names are accepted. */
  function ParseGrade(s: string): (r: Option<Grade>)
    ensures r.Some? ==> GradeName(r.value) == s
    ensures r.None? ==> forall g: Grade :: GradeName(g) != s
  {
    if s == "A+" then Some(APlus)
    else if s == "A" then Some(A)
    else if s == "A-" then Some(AMinus)
    else if s == "B+" then Some(BPlus)
    else if s == "B" then Some(B)
    else if s == "C" then Some(C)
    else if s == "D" then Some(D)
    else if s == "F" then Some(F)
    else None
  }

  /** Position of a grade, from F (0) up to A+ (7). */
  function Rank(g: Grade): nat {
    match g
    case F => 0
    case D => 1
    case C => 2
    case B => 3
    case BPlus => 4
    case AMinus => 5
    case A => 6
    case APlus => 7
  }

  /** The lowest percentage that earns each grade (F has no floor). */
  function Floor(g: Grade): real
    requires g != F
  {
    match g
    case APlus => 90.0
    case A => 85.0
    case AMinus => 80.0
    case BPlus => 75.0
    case B => 70.0
    case C => 60.0
    case D => 50.0
  }

  /** The next grade up. */
  function Above(g: Grade): Grade
    requires g != APlus
  {
    match g
    case A => APlus
    case AMinus => A
    case BPlus => AMinus
    case B => BPlus
    case C => B
    case D => C
    case F => D
  }

  /**
    * The grading ladder of the pre-save hook. The grade is the one whose band
    * holds the percentage: at or above its floor and below the floor of the
    * grade above it.
    */
  function GradeFor(percentage: real): (g: Grade)
    ensures g != F ==> Floor(g) <= percentage
    ensures g != APlus ==> percentage < Floor(Above(g))
  {
    if percentage >= 90.0 then APlus
    else if percentage >= 85.0 then A
    else if percentage >= 80.0 then AMinus
    else if percentage >= 75.0 then BPlus
    else if percentage >= 70.0 then B
    else if percentage >= 60.0 then C
    else if percentage >= 50.0 then D
    else F
  }

  lemma AboveRaisesFloor(g: Grade)
    requires g != APlus && g != F
    ensures Floor(g) < Floor(Above(g)) && Rank(Above(g)) == Rank(g) + 1
  {
  }

  /** A higher percentage never earns a lower grade. */
  lemma GradeMonotone(p: real, q: real)
    requires p <= q
    ensures Rank(GradeFor(p)) <= Rank(GradeFor(q))
  {
  }

  /** Every computed grade is one the schema's enum accepts. */
  lemma GradeInEnum(p: real)
    ensures ParseGrade(GradeName(GradeFor(p))) == Some(GradeFor(p))
  {
  }

  /**
    * A JavaScript number as the division can produce it: a finite value, an
    * infinity (a positive or negative numerator over a zero total), or NaN
    * (zero over zero).
    */
  datatype Ratio = Finite(value: real) | PlusInfinity | MinusInfinity | NotANumber

  /** `(marksObtained / totalMarks) * 100`; the source does not guard a zero total. */
  function Percentage(marksObtained: real, totalMarks: real): (p: Ratio)
    ensures p.Finite? <==> totalMarks != 0.0
    ensures p.Finite? ==> p.value * totalMarks == marksObtained * 100.0
    ensures p == PlusInfinity <==> totalMarks == 0.0 && marksObtained > 0.0
    ensures p == MinusInfinity <==> totalMarks == 0.0 && marksObtained < 0.0
    ensures p == NotANumber <==> totalMarks == 0.0 && marksObtained == 0.0
  {
    if totalMarks != 0.0 then Finite(marksObtained / totalMarks * 100.0)
    else if marksObtained > 0.0 then PlusInfinity
    else if marksObtained < 0.0 then MinusInfinity
    else NotANumber
  }

  /** `p >= bound` in JavaScript: infinity passes every bound; minus infinity and NaN pass none. */
  predicate AtLeast(p: Ratio, bound: real) {
    match p
    case Finite(v) => v >= bound
    case PlusInfinity => true
    case MinusInfinity => false
    case NotANumber => false
  }

  /** The grade of a computed percentage: a finite one by its band, infinity "A+", anything else "F". */
  function GradeOfRatio(p: Ratio): (g: Grade)
    ensures p.Finite? ==> g == GradeFor(p.value)
    ensures p == PlusInfinity ==> g == APlus
    ensures !p.Finite? && p != PlusInfinity ==> g == F
  {
    match p
    case Finite(v) => GradeFor(v)
    case PlusInfinity => APlus
    case _ => F
  }

  /** A zero total grades positive marks "A+" and zero marks "F". */
  lemma ZeroTotalGrade(marksObtained: real)
    requires marksObtained >= 0.0
    ensures GradeOfRatio(Percentage(marksObtained, 0.0)) == if marksObtained > 0.0 then APlus else F
  {
  }

  /** Marks within the total give a percentage in 0..100. */
  lemma PercentageBounds(marksObtained: real, totalMarks: real)
    requires 0.0 <= marksObtained <= totalMarks && totalMarks > 0.0
    ensures Percentage(marksObtained, totalMarks).Finite?
    ensures 0.0 <= Percentage(marksObtained, totalMarks).value <= 100.0
  {
    var q := marksObtained / totalMarks;
    assert q * totalMarks == marksObtained;
    assert (1.0 - q) * totalMarks == totalMarks - marksObtained;
  }

  /** A stored result, as the collection holds it. */
  datatype ResultRecord = ResultRecord(
    student: string,
    exam: string,
    marksObtained: real,
    totalMarks: real,
    percentage: Option<Ratio>,
    grade: Option<Grade>,
    remarks: Option<string>)

  /** A result document being saved; the pre-save hook updates it in place. */
  class ResultDoc {
    var student: string
    var exam: string
    var marksObtained: real
    var totalMarks: real
    var percentage: Option<Ratio>
    var grade: Option<Grade>
    var remarks: Option<string>

    function Record(): ResultRecord
      reads this
    {
      ResultRecord(student, exam, marksObtained, totalMarks, percentage, grade, remarks)
    }

    constructor (student: string, exam: string, marksObtained: real, totalMarks: real,
                 percentage: Option<Ratio>, grade: Option<Grade>, remarks: Option<string>)
      ensures Record() == ResultRecord(student, exam, marksObtained, totalMarks, percentage, grade, remarks)
    {
      this.student := student;
      this.exam := exam;
      this.marksObtained := marksObtained;
      this.totalMarks := totalMarks;
      this.percentage := percentage;
      this.grade := grade;
      this.remarks := remarks;
    }

    /**
      * The pre-save hook: whatever percentage and grade the caller supplied
      * are replaced by the ones derived from the marks; nothing else changes.
      */
    method PreSave()
      modifies this
      ensures Record() == old(Record()).(percentage := percentage, grade := grade)
      ensures percentage == Some(Percentage(marksObtained, totalMarks))
      ensures grade == Some(GradeOfRatio(percentage.value))
    {
      var p: Ratio;
      if totalMarks != 0.0 {
        p := Finite(marksObtained / totalMarks * 100.0);
      } else if marksObtained > 0.0 {
        p := PlusInfinity;
      } else if marksObtained < 0.0 {
        p := MinusInfinity;
      } else {
        p := NotANumber;
      }
      percentage := Some(p);
      if AtLeast(p, 90.0) { grade := Some(APlus); }
      else if AtLeast(p, 85.0) { grade := Some(A); }
      else if AtLeast(p, 80.0) { grade := Some(AMinus); }
      else if AtLeast(p, 75.0) { grade := Some(BPlus); }
      else if AtLeast(p, 70.0) { grade := Some(B); }
      else if AtLeast(p, 60.0) { grade := Some(C); }
      else if AtLeast(p, 50.0) { grade := Some(D); }
      else { grade := Some(F); }
    }
  }

  // ---------------------------------------------------------------------------
  // The unique (student, exam) index

  predicate UniqueStudentExam(results: seq<ResultRecord>) {
    forall i, j :: 0 <= i < j < |results| ==>
      (results[i].student, results[i].exam) != (results[j].student, results[j].exam)
  }

  /** An insert that the unique index refuses (`None`) when the pair is already taken. */
  function Insert(results: seq<ResultRecord>, r: ResultRecord): (out: Option<seq<ResultRecord>>)
    ensures out.None? <==> exists i :: 0 <= i < |results| && results[i].student == r.student && results[i].exam == r.exam
    ensures out.Some? ==> out.value == results + [r]
  {
    if exists i :: 0 <= i < |results| && results[i].student == r.student && results[i].exam == r.exam then None
    else Some(results + [r])
  }

  /** Inserts keep at most one result per student and exam. */
  lemma InsertKeepsUnique(results: seq<ResultRecord>, r: ResultRecord)
    requires UniqueStudentExam(results)
    ensures Insert(results, r).Some? ==> UniqueStudentExam(Insert(results, r).value)
  {
  }
}
