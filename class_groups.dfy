/**
  * Class groups (a grade and a section of one school) as the class-group
  * controller and schema manage them: creation with its validation and
  * uniqueness check, the sorted listing, the seat count, and the two deletes
  * with their cascades over students, teachers and courses.
  *
  * The collections form a `Registry`; each request is a function from the
  * registry before to the reply and the registry after, and `ClassDesk`
  * performs the same requests on its fields and is proved to agree with them.
  */
module ClassGroups {
  import opened Wrappers
  import opened Http
  import opened Text
  import opened Seqs

  type DocId = string

  /** The sections the schema's enum allows. */
  const Sections: set<string> := {"A", "B", "C", "D", "E"}

  /** The default and the value the controller sets explicitly. */
  const MaxStudents: int := 30

  datatype ClassGroup = ClassGroup(
    id: DocId,
    name: string,
    grade: int,
    section: string,
    school: DocId,
    classTeacher: Option<DocId>,
    maxStudents: int)

  /** The fields of a student, teacher and course the cascades look at. */
  datatype Student = Student(id: DocId, school: Option<DocId>, classGroup: Option<DocId>)
  datatype Teacher = Teacher(id: DocId, school: Option<DocId>, teachSclass: Option<DocId>)
  datatype Course = Course(id: DocId, school: Option<DocId>)

  datatype Registry = Registry(
    groups: seq<ClassGroup>,
    students: seq<Student>,
    teachers: seq<Teacher>,
    courses: seq<Course>)

  /** A reply, the validation messages (empty unless validation failed), and the registry after. */
  datatype Response = Response(reply: Reply, errors: seq<string>, registry: Registry)

  // ---------------------------------------------------------------------------
  // The schema

  /** Grade within 1..14 and a section from the enum. */
  predicate InDomain(g: ClassGroup) {
    1 <= g.grade <= 14 && g.section in Sections
  }

  predicate SameKey(g: ClassGroup, grade: int, section: string, school: DocId) {
    g.grade == grade && g.section == section && g.school == school
  }

  /** The unique compound index on (school, grade, section), and unique document ids. */
  predicate UniqueKeys(groups: seq<ClassGroup>) {
    forall i, j :: 0 <= i < j < |groups| ==>
      groups[i].id != groups[j].id && !SameKey(groups[i], groups[j].grade, groups[j].section, groups[j].school)
  }

  predicate Valid(r: Registry) {
    UniqueKeys(r.groups) && forall i :: 0 <= i < |r.groups| ==> InDomain(r.groups[i])
  }

  predicate FreshId(r: Registry, id: DocId) {
    forall i :: 0 <= i < |r.groups| ==> r.groups[i].id != id
  }

  // ---------------------------------------------------------------------------
  // createClassGroup

  datatype CreateRequest = CreateRequest(grade: Option<int>, section: Option<string>, school: string, classTeacher: Option<DocId>)

  predicate GradeOk(req: CreateRequest) {
    req.grade.Some? && 1 <= req.grade.value <= 14
  }

  predicate SectionOk(req: CreateRequest) {
    req.section.Some? && req.section.value in Sections
  }

  predicate SchoolOk(req: CreateRequest) {
    req.school != ""
  }

  /** The messages of the three body validators, in chain order. */
  const GradeMessage := "Grade must be between 1 and 14"
  const SectionMessage := "Section must be A, B, C, D, or E"
  const SchoolMessage := "School ID is required"
  const CreateMessages: seq<string> := [GradeMessage, SectionMessage, SchoolMessage]

  /**
    * The three body validators run independently; every failing one
    * contributes its message, once, in chain order.
    */
  function ValidationErrors(req: CreateRequest): (errs: seq<string>)
    ensures errs == [] <==> GradeOk(req) && SectionOk(req) && SchoolOk(req)
    ensures !GradeOk(req) <==> GradeMessage in errs
    ensures !SectionOk(req) <==> SectionMessage in errs
    ensures !SchoolOk(req) <==> SchoolMessage in errs
    ensures IsSubsequence(errs, CreateMessages)
    ensures |errs| <= 3
  {
    var oks := [GradeOk(req), SectionOk(req), SchoolOk(req)];
    var errs := Flags(oks, CreateMessages);
    FlagsInOrder(oks, CreateMessages);
    assert GradeMessage[0] != SectionMessage[0] && GradeMessage[0] != SchoolMessage[0] && SectionMessage[1] != SchoolMessage[1];
    FlagsMembers(oks, CreateMessages);
    assert GradeMessage in errs <==> !oks[0] by { assert CreateMessages[0] == GradeMessage; }
    assert SectionMessage in errs <==> !oks[1] by { assert CreateMessages[1] == SectionMessage; }
    assert SchoolMessage in errs <==> !oks[2] by { assert CreateMessages[2] == SchoolMessage; }
    errs
  }

  /** `${grade}${section}`, e.g. "10A". */
  function GroupName(grade: nat, section: string): (name: string)
    ensures |name| > |section| && name[|name| - |section|..] == section
    ensures AllDigits(name[..|name| - |section|]) && DigitsValue(name[..|name| - |section|]) == grade
  {
    var digits := NatToString(grade);
    assert (digits + section)[..|digits|] == digits;
    assert (digits + section)[|digits|..] == section;
    digits + section
  }

  predicate Exists(groups: seq<ClassGroup>, grade: int, section: string, school: DocId) {
    exists i :: 0 <= i < |groups| && SameKey(groups[i], grade, section, school)
  }

  /**
    * `createClassGroup` with `newId` the id the database assigns. Invalid
    * input: 400 with the messages; an existing (grade, section, school): 400;
    * otherwise the group is appended with its derived name and 30 seats.
    */
  function Create(r: Registry, req: CreateRequest, newId: DocId): (out: Response)
    ensures out.reply.status in {BadRequest, Created}
    ensures out.errors != [] <==> ValidationErrors(req) != []
    ensures out.reply.status == Created <==>
      ValidationErrors(req) == [] && !Exists(r.groups, req.grade.value, req.section.value, req.school)
    ensures out.reply.status != Created ==> out.registry == r
    ensures out.reply.status == Created ==>
      && out.registry == r.(groups := out.registry.groups)
      && out.registry.groups == r.groups + [ClassGroup(newId, GroupName(req.grade.value, req.section.value),
        req.grade.value, req.section.value, req.school, req.classTeacher, MaxStudents)]
  {
    var errs := ValidationErrors(req);
    if errs != [] then Response(Reply(BadRequest, ""), errs, r)
    else if Exists(r.groups, req.grade.value, req.section.value, req.school) then
      Response(Reply(BadRequest, "This class group already exists"), [], r)
    else
      var g := ClassGroup(newId, GroupName(req.grade.value, req.section.value),
        req.grade.value, req.section.value, req.school, req.classTeacher, MaxStudents);
      Response(Reply(Created, "Class group created successfully"), [], r.(groups := r.groups + [g]))
  }

  /** Creation keeps the schema's domains and the unique index. */
  lemma CreateKeepsValid(r: Registry, req: CreateRequest, newId: DocId)
    requires Valid(r) && FreshId(r, newId)
    ensures Valid(Create(r, req, newId).registry)
  {
  }

  /** Creating the same group again is refused and changes nothing. */
  lemma CreateTwiceRefused(r: Registry, req: CreateRequest, id1: DocId, id2: DocId)
    requires Create(r, req, id1).reply.status == Created
    ensures
      var r1 := Create(r, req, id1).registry;
      Create(r1, req, id2) == Response(Reply(BadRequest, "This class group already exists"), [], r1)
  {
    var r1 := Create(r, req, id1).registry;
    assert SameKey(r1.groups[|r.groups|], req.grade.value, req.section.value, req.school);
  }

  // ---------------------------------------------------------------------------
  // getClassGroups

  /** Position of a section in the enum; sorting by section string is sorting by this rank. */
  function SectionRank(section: string): nat {
    if section == "A" then 0
    else if section == "B" then 1
    else if section == "C" then 2
    else if section == "D" then 3
    else if section == "E" then 4
    else 5
  }

  /** The sort key `{ grade: 1, section: 1 }` as one number. */
  function GroupKey(g: ClassGroup): real {
    (g.grade * 10 + SectionRank(g.section)) as real
  }

  /** Keys in order mean grade first, then section. */
  lemma GroupKeyOrder(a: ClassGroup, b: ClassGroup)
    requires GroupKey(a) <= GroupKey(b)
    ensures a.grade < b.grade || (a.grade == b.grade && SectionRank(a.section) <= SectionRank(b.section))
  {
  }

  /** The school's groups, and only those of one grade when a grade is given. */
  function Listed(school: DocId, grade: Option<int>): ClassGroup -> bool {
    (g: ClassGroup) => g.school == school && (grade.None? || g.grade == grade.value)
  }

  /**
    * `getClassGroups`: the matching groups ordered by grade and then section;
    * 404 when there are none.
    */
  function ListGroups(r: Registry, school: DocId, grade: Option<int>): (out: (Reply, seq<ClassGroup>))
    ensures out.0.status == NotFound <==> out.1 == []
    ensures out.0.status in {Ok, NotFound}
    ensures multiset(out.1) == multiset(Filter(r.groups, Listed(school, grade)))
    ensures |out.1| == Count(r.groups, Listed(school, grade))
    ensures forall i :: 0 <= i < |out.1| ==> out.1[i] in r.groups && Listed(school, grade)(out.1[i])
    ensures forall i :: 0 <= i < |r.groups| && Listed(school, grade)(r.groups[i]) ==> r.groups[i] in out.1
    ensures forall i, j :: 0 <= i < j < |out.1| ==>
      out.1[i].grade < out.1[j].grade
      || (out.1[i].grade == out.1[j].grade && SectionRank(out.1[i].section) <= SectionRank(out.1[j].section))
  {
    var matching := Filter(r.groups, Listed(school, grade));
    var sorted := SortBy(matching, GroupKey);
    forall i, j | 0 <= i < j < |sorted|
      ensures sorted[i].grade < sorted[j].grade
        || (sorted[i].grade == sorted[j].grade && SectionRank(sorted[i].section) <= SectionRank(sorted[j].section))
    {
      GroupKeyOrder(sorted[i], sorted[j]);
    }
    forall i | 0 <= i < |sorted|
      ensures sorted[i] in r.groups && Listed(school, grade)(sorted[i])
    {
      FilterMember(r.groups, Listed(school, grade), sorted[i]);
    }
    if sorted == [] then (Reply(NotFound, "No class groups found"), sorted)
    else (Reply(Ok, ""), sorted)
  }

  // ---------------------------------------------------------------------------
  // getClassGroupDetail

  datatype Detail = Detail(group: ClassGroup, studentCount: nat, availableSeats: int)

  predicate HasId(g: ClassGroup, id: DocId) {
    g.id == id
  }

  function InClass(id: DocId): Student -> bool {
    (s: Student) => s.classGroup == Some(id)
  }

  /** The position of the group with id `id`, if any. */
  function FindGroup(groups: seq<ClassGroup>, id: DocId): (k: Option<nat>)
    ensures k.Some? ==> k.value < |groups| && groups[k.value].id == id
    ensures k.None? <==> forall i :: 0 <= i < |groups| ==> groups[i].id != id
  {
    FindBy(groups, GroupIdOf, id)
  }

  function GroupIdOf(g: ClassGroup): DocId {
    g.id
  }

  /**
    * `getClassGroupDetail`: the group with its number of students and its free
    * seats, `maxStudents - studentCount`, not clamped at zero; 404 for an
    * unknown id.
    */
  function GroupDetail(r: Registry, id: DocId): (out: (Reply, Option<Detail>))
    ensures out.0.status == NotFound <==> FindGroup(r.groups, id).None?
    ensures out.1.Some? <==> out.0.status == Ok
    ensures out.1.Some? ==>
      && out.1.value.group.id == id && out.1.value.group in r.groups
      && out.1.value.studentCount == Count(r.students, InClass(id))
      && out.1.value.availableSeats + out.1.value.studentCount == out.1.value.group.maxStudents
  {
    var k := FindGroup(r.groups, id);
    if k.None? then (Reply(NotFound, "No class group found"), None)
    else
      var g := r.groups[k.value];
      var count := Count(r.students, InClass(id));
      (Reply(Ok, ""), Some(Detail(g, count, g.maxStudents - count)))
  }

  /** A class holding more students than seats reports a negative number of free seats. */
  lemma OverfullClassHasNegativeSeats(r: Registry, id: DocId)
    requires FindGroup(r.groups, id).Some?
    requires Count(r.students, InClass(id)) > r.groups[FindGroup(r.groups, id).value].maxStudents
    ensures GroupDetail(r, id).1.value.availableSeats < 0
  {
  }

  // ---------------------------------------------------------------------------
  // deleteClassGroup

  function NotId(id: DocId): ClassGroup -> bool {
    (g: ClassGroup) => g.id != id
  }

  function NotInClass(id: DocId): Student -> bool {
    (s: Student) => s.classGroup != Some(id)
  }

  /** `$unset: { teachSclass: 1 }` on a teacher assigned to class `id`. */
  function UnassignFrom(id: DocId): Teacher -> Teacher {
    (t: Teacher) => if t.teachSclass == Some(id) then t.(teachSclass := None) else t
  }

  /**
    * `deleteClassGroup`: 404 for an unknown id; otherwise the group goes, with
    * every student of that class, and its teachers lose their class. Courses
    * and everything belonging to other classes stay.
    */
  function Delete(r: Registry, id: DocId): (out: Response)
    ensures out.errors == []
    ensures out.reply.status == NotFound <==> FindGroup(r.groups, id).None?
    ensures out.reply.status in {NotFound, Ok}
    ensures out.reply.status == NotFound ==> out.registry == r
    ensures out.reply.status == Ok ==>
      && out.registry.courses == r.courses
      && out.registry.groups == Filter(r.groups, NotId(id))
      && out.registry.students == Filter(r.students, NotInClass(id))
      && out.registry.teachers == Map(r.teachers, UnassignFrom(id))
  {
    if FindGroup(r.groups, id).None? then Response(Reply(NotFound, "Class group not found"), [], r)
    else
      var groups := Filter(r.groups, NotId(id));
      var students := Filter(r.students, NotInClass(id));
      var teachers := Map(r.teachers, UnassignFrom(id));
      Response(Reply(Ok, "Class group deleted successfully"), [], Registry(groups, students, teachers, r.courses))
  }

  /**
    * After a delete no group has the id, no student is in the class, and no
    * teacher is assigned to it; every other group and every student of
    * another class is still there.
    */
  lemma DeleteCascades(r: Registry, id: DocId)
    requires Delete(r, id).reply.status == Ok
    ensures var after := Delete(r, id).registry;
      && (forall i :: 0 <= i < |after.groups| ==> after.groups[i].id != id)
      && (forall i :: 0 <= i < |after.students| ==> after.students[i].classGroup != Some(id))
      && (forall i :: 0 <= i < |after.teachers| ==> after.teachers[i].teachSclass != Some(id))
      && (forall i :: 0 <= i < |r.groups| && r.groups[i].id != id ==> r.groups[i] in after.groups)
      && (forall i :: 0 <= i < |r.students| && r.students[i].classGroup != Some(id) ==> r.students[i] in after.students)
  {
  }

  /** Deleting a group keeps the schema's domains and the unique index. */
  lemma {:induction false} FilterKeepsUnique(groups: seq<ClassGroup>, p: ClassGroup -> bool)
    requires UniqueKeys(groups)
    ensures UniqueKeys(Filter(groups, p))
  {
    if groups != [] {
      FilterKeepsUnique(groups[1..], p);
      var rest := Filter(groups[1..], p);
      if p(groups[0]) {
        var f := Filter(groups, p);
        assert f == [groups[0]] + rest;
        forall i, j | 0 <= i < j < |f|
          ensures f[i].id != f[j].id && !SameKey(f[i], f[j].grade, f[j].section, f[j].school)
        {
          if i == 0 {
            FilterMember(groups[1..], p, f[j]);
            var k :| 0 <= k < |groups[1..]| && groups[1..][k] == f[j];
            assert groups[k + 1] == f[j];
          } else {
            assert f[i] == rest[i - 1] && f[j] == rest[j - 1];
          }
        }
      }
    }
  }

  lemma DeleteKeepsValid(r: Registry, id: DocId)
    requires Valid(r)
    ensures Valid(Delete(r, id).registry)
  {
    FilterKeepsUnique(r.groups, NotId(id));
  }

  // ---------------------------------------------------------------------------
  // deleteClassGroups

  function NotOfSchool(school: DocId): ClassGroup -> bool {
    (g: ClassGroup) => g.school != school
  }

  function OfSchool(school: DocId): ClassGroup -> bool {
    (g: ClassGroup) => g.school == school
  }

  function StudentNotOfSchool(school: DocId): Student -> bool {
    (s: Student) => s.school != Some(school)
  }

  function CourseNotOfSchool(school: DocId): Course -> bool {
    (c: Course) => c.school != Some(school)
  }

  /** `$unset: { teachSclass: 1 }` on every teacher of the school. */
  function UnassignSchool(school: DocId): Teacher -> Teacher {
    (t: Teacher) => if t.school == Some(school) then t.(teachSclass := None) else t
  }

  /**
    * `deleteClassGroups`: every group of the school goes; when there were
    * none the answer is 404 and nothing else happens. Otherwise the school's
    * students and courses go as well and its teachers lose their class.
    */
  function DeleteAll(r: Registry, school: DocId): (out: Response)
    ensures out.errors == []
    ensures out.reply.status == NotFound <==> Count(r.groups, OfSchool(school)) == 0
    ensures out.reply.status in {NotFound, Ok}
    ensures out.reply.status == NotFound ==> out.registry == r
    ensures out.reply.status == Ok ==>
      && out.reply.message == NatToString(Count(r.groups, OfSchool(school))) + " class groups deleted successfully"
      && out.registry.groups == Filter(r.groups, NotOfSchool(school))
      && out.registry.students == Filter(r.students, StudentNotOfSchool(school))
      && out.registry.teachers == Map(r.teachers, UnassignSchool(school))
      && out.registry.courses == Filter(r.courses, CourseNotOfSchool(school))
  {
    var deleted := Count(r.groups, OfSchool(school));
    if deleted == 0 then Response(Reply(NotFound, "No class groups found to delete"), [], r)
    else
      Response(
        Reply(Ok, NatToString(deleted) + " class groups deleted successfully"), [],
        Registry(
          Filter(r.groups, NotOfSchool(school)),
          Filter(r.students, StudentNotOfSchool(school)),
          Map(r.teachers, UnassignSchool(school)),
          Filter(r.courses, CourseNotOfSchool(school))))
  }

  /** The groups removed and the groups kept add up to the groups there were. */
  lemma DeleteAllCount(r: Registry, school: DocId)
    ensures |DeleteAll(r, school).registry.groups| + Count(r.groups, OfSchool(school)) == |r.groups|
  {
    CountSplit(r.groups, (g: ClassGroup) => true, OfSchool(school), NotOfSchool(school));
    FilterAll(r.groups, (g: ClassGroup) => true);
  }

  // ---------------------------------------------------------------------------
  // The controller acting on its collections

  class ClassDesk {
    var groups: seq<ClassGroup>
    var students: seq<Student>
    var teachers: seq<Teacher>
    var courses: seq<Course>

    function State(): Registry
      reads this
    {
      Registry(groups, students, teachers, courses)
    }

    constructor (r: Registry)
      ensures State() == r
    {
      groups := r.groups;
      students := r.students;
      teachers := r.teachers;
      courses := r.courses;
    }

    /** `createClassGroup`: validate, look for the same group (`findOne`), then save a new one. */
    method CreateClassGroup(req: CreateRequest, newId: DocId) returns (reply: Reply, errors: seq<string>)
      modifies this
      ensures Response(reply, errors, State()) == Create(old(State()), req, newId)
    {
      errors := ValidationErrors(req);
      if errors != [] {
        return Reply(BadRequest, ""), errors;
      }
      var grade, section := req.grade.value, req.section.value;
      var i := 0;
      while i < |groups| && !SameKey(groups[i], grade, section, req.school)
        invariant 0 <= i <= |groups|
        invariant forall j :: 0 <= j < i ==> !SameKey(groups[j], grade, section, req.school)
      {
        i := i + 1;
      }
      if i < |groups| {
        return Reply(BadRequest, "This class group already exists"), [];
      }
      var name := NatToString(grade) + section;
      groups := groups + [ClassGroup(newId, name, grade, section, req.school, req.classTeacher, MaxStudents)];
      reply := Reply(Created, "Class group created successfully");
    }

    /** `getClassGroupDetail`: read-only. */
    method GetClassGroupDetail(id: DocId) returns (reply: Reply, detail: Option<Detail>)
      ensures (reply, detail) == GroupDetail(State(), id)
    {
      var k := FindGroup(groups, id);
      if k.None? {
        return Reply(NotFound, "No class group found"), None;
      }
      var g := groups[k.value];
      var count := 0;
      var i := 0;
      while i < |students|
        invariant 0 <= i <= |students|
        invariant count == Count(students[..i], InClass(id))
      {
        FilterPrefixStep(students, i, InClass(id));
        if students[i].classGroup == Some(id) {
          count := count + 1;
        }
        i := i + 1;
      }
      assert students[..i] == students;
      reply := Reply(Ok, "");
      detail := Some(Detail(g, count, g.maxStudents - count));
    }

    /** `deleteClassGroup`: delete the group, then cascade to students and teachers. */
    method DeleteClassGroup(id: DocId) returns (reply: Reply)
      modifies this
      ensures Response(reply, [], State()) == Delete(old(State()), id)
    {
      if FindGroup(groups, id).None? {
        return Reply(NotFound, "Class group not found");
      }
      groups := Filter(groups, NotId(id));
      students := Filter(students, NotInClass(id));
      teachers := Map(teachers, UnassignFrom(id));
      reply := Reply(Ok, "Class group deleted successfully");
    }

    /** `deleteClassGroups`: delete the school's groups; cascade only when some were deleted. */
    method DeleteClassGroups(school: DocId) returns (reply: Reply)
      modifies this
      ensures Response(reply, [], State()) == DeleteAll(old(State()), school)
    {
      var before := |groups|;
      groups := Filter(groups, NotOfSchool(school));
      var deleted := before - |groups|;
      CountSplit(old(groups), (g: ClassGroup) => true, OfSchool(school), NotOfSchool(school));
      FilterAll(old(groups), (g: ClassGroup) => true);
      if deleted == 0 {
        FilterAll(old(groups), NotOfSchool(school));
        return Reply(NotFound, "No class groups found to delete");
      }
      students := Filter(students, StudentNotOfSchool(school));
      teachers := Map(teachers, UnassignSchool(school));
      courses := Filter(courses, CourseNotOfSchool(school));
      reply := Reply(Ok, NatToString(deleted) + " class groups deleted successfully");
    }
  }
}
