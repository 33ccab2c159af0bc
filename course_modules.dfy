/**
  * Modules and the courses that list them, as the module controller and the
  * Module and Course schemas manage them: creation with its validation,
  * uniqueness check and `$push` onto the course, the filtered listing, the
  * unvalidated update, deletion with `$pull`, and reassignment with
  * `$addToSet`.
  *
  * The two collections form a `Store`; each request is a function from the
  * store before to the reply and the store after, and `ModuleDesk` performs
  * the same requests on its fields and is proved to agree with them.
  */
module CourseModules {
  import opened Wrappers
  import opened Http
  import opened Seqs
  import opened Patterns

  type DocId = string

  datatype ModuleDoc = ModuleDoc(
    id: DocId,
    moduleID: string,
    moduleName: string,
    description: string,
    credits: real,
    grade: Option<int>,
    course: DocId,
    instructor: DocId)

  datatype CourseDoc = CourseDoc(
    id: DocId,
    courseID: string,
    courseName: string,
    description: string,
    duration: Option<real>,
    modules: seq<DocId>)

  /** The module collection, and the course collection keyed by document id. */
  datatype Store = Store(modules: seq<ModuleDoc>, courses: map<DocId, CourseDoc>)

  /** A reply, the validation messages (empty unless validation failed), and the store after. */
  datatype Response = Response(reply: Reply, errors: seq<string>, store: Store)

  // ---------------------------------------------------------------------------
  // The Module and Course schemas

  predicate GradeInRange(grade: Option<int>) {
    grade.None? || 1 <= grade.value <= 14
  }

  /** Every constraint of the Module schema: pattern, required fields, `min` and the optional grade range. */
  predicate ModuleSchemaOk(m: ModuleDoc) {
    && ModuleIdOk(m.moduleID)
    && m.moduleName != ""
    && m.description != ""
    && m.credits >= 0.0
    && GradeInRange(m.grade)
    && m.course != ""
    && m.instructor != ""
  }

  /** The fields of a module document, as named in a validation error. */
  datatype ModulePath = ModuleIDPath | ModuleNamePath | DescriptionPath | CreditsPath | GradePath | CoursePath | InstructorPath

  /** The Module schema's fields in declaration order. */
  const SchemaOrder := [ModuleIDPath, ModuleNamePath, DescriptionPath, CreditsPath, GradePath, CoursePath, InstructorPath]

  /** `m` breaks the constraint the schema places on the field `p`. */
  predicate Violates(m: ModuleDoc, p: ModulePath) {
    match p
    case ModuleIDPath => !ModuleIdOk(m.moduleID)
    case ModuleNamePath => m.moduleName == ""
    case DescriptionPath => m.description == ""
    case CreditsPath => m.credits < 0.0
    case GradePath => !GradeInRange(m.grade)
    case CoursePath => m.course == ""
    case InstructorPath => m.instructor == ""
  }

  /** The fields among `fields` that `m` violates, in the order given. */
  function Rejected(m: ModuleDoc, fields: seq<ModulePath>): (paths: seq<ModulePath>)
    ensures forall p :: p in paths <==> p in fields && Violates(m, p)
  {
    if fields == [] then []
    else
      assert fields == [fields[0]] + fields[1..];
      (if Violates(m, fields[0]) then [fields[0]] else []) + Rejected(m, fields[1..])
  }

  lemma EveryFieldInSchema(p: ModulePath)
    ensures p in SchemaOrder
  {
    match p
    case ModuleIDPath => assert SchemaOrder[0] == p;
    case ModuleNamePath => assert SchemaOrder[1] == p;
    case DescriptionPath => assert SchemaOrder[2] == p;
    case CreditsPath => assert SchemaOrder[3] == p;
    case GradePath => assert SchemaOrder[4] == p;
    case CoursePath => assert SchemaOrder[5] == p;
    case InstructorPath => assert SchemaOrder[6] == p;
  }

  /** The schema holds exactly when no field is violated. */
  lemma SchemaOkIffNothingViolated(m: ModuleDoc)
    ensures ModuleSchemaOk(m) <==> forall p :: !Violates(m, p)
  {
    if forall p :: !Violates(m, p) {
      assert !Violates(m, ModuleIDPath) && !Violates(m, ModuleNamePath) && !Violates(m, DescriptionPath);
      assert !Violates(m, CreditsPath) && !Violates(m, GradePath);
      assert !Violates(m, CoursePath) && !Violates(m, InstructorPath);
    }
  }

  /** The paths a save rejects, in schema order: empty exactly when the schema holds. */
  function ModuleInvalidPaths(m: ModuleDoc): (paths: seq<ModulePath>)
    ensures paths == [] <==> ModuleSchemaOk(m)
    ensures forall p :: p in paths <==> Violates(m, p)
  {
    var paths := Rejected(m, SchemaOrder);
    forall p
      ensures p in paths <==> Violates(m, p)
    {
      EveryFieldInSchema(p);
    }
    SchemaOkIffNothingViolated(m);
    assert paths != [] ==> paths[0] in paths;
    paths
  }

  /** The messages of the `createModule` validation chain, in chain order. */
  const ModuleIdRequired := "Module ID is required"
  const ModuleNameRequired := "Module name is required"
  const DescriptionRequired := "Description is required"
  const CreditsNotPositive := "Credits must be a positive number"
  const CourseRequired := "Course ID is required"
  const InstructorRequired := "Instructor ID is required"
  const CreateMessages: seq<string> := [
    ModuleIdRequired, ModuleNameRequired, DescriptionRequired,
    CreditsNotPositive, CourseRequired, InstructorRequired]

  /** The six messages are pairwise different. */
  lemma MessagesDistinct()
    ensures forall i, j :: 0 <= i < j < |CreateMessages| ==> CreateMessages[i] != CreateMessages[j]
  {
    var m := CreateMessages;
    assert m[0][7] != m[1][7];
    assert m[0][0] != m[2][0] && m[0][0] != m[3][0] && m[0][0] != m[4][0] && m[0][0] != m[5][0];
    assert m[1][0] != m[2][0] && m[1][0] != m[3][0] && m[1][0] != m[4][0] && m[1][0] != m[5][0];
    assert m[2][0] != m[3][0] && m[2][0] != m[4][0] && m[2][0] != m[5][0];
    assert m[3][1] != m[4][1] && m[3][0] != m[5][0];
    assert m[4][0] != m[5][0];
  }

  /** Every constraint of the Course schema. */
  predicate CourseSchemaOk(c: CourseDoc) {
    CourseIdOk(c.courseID) && c.courseName != "" && c.description != "" && c.duration.Some?
  }

  /**
    * A new course document: `None` when the schema rejects it, and otherwise
    * the course with an empty module list, the schema's default.
    */
  function NewCourse(id: DocId, courseID: string, courseName: string, description: string, duration: Option<real>): (c: Option<CourseDoc>)
    ensures c.Some? <==> CourseIdOk(courseID) && courseName != "" && description != "" && duration.Some?
    ensures c.Some? ==> CourseSchemaOk(c.value) && c.value.modules == [] && c.value.courseID == courseID
  {
    var c := CourseDoc(id, courseID, courseName, description, duration, []);
    if CourseSchemaOk(c) then Some(c) else None
  }

  predicate ModuleIdTaken(modules: seq<ModuleDoc>, moduleID: string) {
    exists i :: 0 <= i < |modules| && modules[i].moduleID == moduleID
  }

  predicate FreshId(s: Store, id: DocId) {
    forall i :: 0 <= i < |s.modules| ==> s.modules[i].id != id
  }

  /** Every course within its schema, and the unique index on `courseID`. */
  predicate CoursesValid(courses: map<DocId, CourseDoc>) {
    && (forall c :: c in courses ==> CourseSchemaOk(courses[c]))
    && (forall c, d :: c in courses && d in courses && c != d ==> courses[c].courseID != courses[d].courseID)
  }

  /** `b` is `a` with at most the module lists changed. */
  predicate OnlyModuleLists(a: map<DocId, CourseDoc>, b: map<DocId, CourseDoc>) {
    a.Keys == b.Keys && forall c :: c in a ==> b[c] == a[c].(modules := b[c].modules)
  }

  /** Changing module lists keeps the course schema and the `courseID` index. */
  lemma OnlyModuleListsKeepValid(a: map<DocId, CourseDoc>, b: map<DocId, CourseDoc>)
    requires CoursesValid(a) && OnlyModuleLists(a, b)
    ensures CoursesValid(b)
  {
    forall c | c in b
      ensures CourseSchemaOk(b[c]) && b[c].courseID == a[c].courseID
    {
      assert b[c] == a[c].(modules := b[c].modules);
    }
  }

  /**
    * Unique document ids, the unique index on `moduleID`, every module within
    * its schema, and the course collection valid.
    */
  predicate Valid(s: Store) {
    && (forall i, j :: 0 <= i < j < |s.modules| ==>
          s.modules[i].id != s.modules[j].id && s.modules[i].moduleID != s.modules[j].moduleID)
    && (forall i :: 0 <= i < |s.modules| ==> ModuleSchemaOk(s.modules[i]))
    && CoursesValid(s.courses)
  }

  // ---------------------------------------------------------------------------
  // The three array updates on a course's module list

  /** `$push`: append `id` to course `c`'s list, if the course exists. */
  function PushModule(courses: map<DocId, CourseDoc>, c: DocId, id: DocId): (r: map<DocId, CourseDoc>)
    ensures OnlyModuleLists(courses, r)
    ensures r.Keys == courses.Keys
    ensures c in courses ==> r[c] == courses[c].(modules := courses[c].modules + [id])
    ensures forall d :: d in courses && d != c ==> r[d] == courses[d]
  {
    if c in courses then courses[c := courses[c].(modules := courses[c].modules + [id])] else courses
  }

  function NotModule(id: DocId): DocId -> bool {
    (x: DocId) => x != id
  }

  /** `$pull`: remove every occurrence of `id` from course `c`'s list, if the course exists. */
  function PullModule(courses: map<DocId, CourseDoc>, c: DocId, id: DocId): (r: map<DocId, CourseDoc>)
    ensures OnlyModuleLists(courses, r)
    ensures r.Keys == courses.Keys
    ensures c in courses ==> id !in r[c].modules
    ensures c in courses ==> forall x :: x != id ==> (x in r[c].modules <==> x in courses[c].modules)
    ensures c in courses ==> IsSubsequence(r[c].modules, courses[c].modules)
    ensures c in courses ==> r[c] == courses[c].(modules := r[c].modules)
    ensures forall d :: d in courses && d != c ==> r[d] == courses[d]
  {
    if c in courses then
      var kept := Filter(courses[c].modules, NotModule(id));
      assert forall x :: x != id && x in courses[c].modules ==> x in kept by {
        forall x | x != id && x in courses[c].modules
          ensures x in kept
        {
          FilterMember(courses[c].modules, NotModule(id), x);
        }
      }
      courses[c := courses[c].(modules := kept)]
    else courses
  }

  /** `$addToSet`: append `id` to course `c`'s list unless it is already there. */
  function AddModule(courses: map<DocId, CourseDoc>, c: DocId, id: DocId): (r: map<DocId, CourseDoc>)
    ensures OnlyModuleLists(courses, r)
    ensures r.Keys == courses.Keys
    ensures c in courses ==> id in r[c].modules
    ensures c in courses && id in courses[c].modules ==> r == courses
    ensures c in courses && id !in courses[c].modules ==> r == PushModule(courses, c, id)
    ensures forall d :: d in courses && d != c ==> r[d] == courses[d]
  {
    if c in courses && id !in courses[c].modules then PushModule(courses, c, id) else courses
  }

  /** Adding to a set twice adds once. */
  lemma AddModuleIdempotent(courses: map<DocId, CourseDoc>, c: DocId, id: DocId)
    ensures AddModule(AddModule(courses, c, id), c, id) == AddModule(courses, c, id)
  {
  }

  // ---------------------------------------------------------------------------
  // createModule

  datatype CreateRequest = CreateRequest(
    moduleID: Option<string>,
    moduleName: Option<string>,
    description: Option<string>,
    credits: Option<real>,
    grade: Option<int>,
    course: Option<string>,
    instructor: Option<string>)

  /** `notEmpty()`: present and not the empty string. */
  predicate NotEmpty(v: Option<string>) {
    v.Some? && v.value != ""
  }

  /** `isInt({ min: 0 })`: a whole number that is not negative. */
  predicate CreditsOk(credits: Option<real>) {
    credits.Some? && credits.value.Floor as real == credits.value && credits.value >= 0.0
  }

  /** The six body validators run independently; every failing one contributes its message, in order. */
  function ValidationErrors(req: CreateRequest): (errs: seq<string>)
    ensures errs == [] <==>
      NotEmpty(req.moduleID) && NotEmpty(req.moduleName) && NotEmpty(req.description)
      && CreditsOk(req.credits) && NotEmpty(req.course) && NotEmpty(req.instructor)
    ensures !NotEmpty(req.moduleID) <==> ModuleIdRequired in errs
    ensures !NotEmpty(req.moduleName) <==> ModuleNameRequired in errs
    ensures !NotEmpty(req.description) <==> DescriptionRequired in errs
    ensures !CreditsOk(req.credits) <==> CreditsNotPositive in errs
    ensures !NotEmpty(req.course) <==> CourseRequired in errs
    ensures !NotEmpty(req.instructor) <==> InstructorRequired in errs
    ensures IsSubsequence(errs, CreateMessages)
  {
    var oks := [NotEmpty(req.moduleID), NotEmpty(req.moduleName), NotEmpty(req.description),
      CreditsOk(req.credits), NotEmpty(req.course), NotEmpty(req.instructor)];
    var errs := Flags(oks, CreateMessages);
    FlagsInOrder(oks, CreateMessages);
    MessagesDistinct();
    FlagsMembers(oks, CreateMessages);
    assert ModuleIdRequired in errs <==> !oks[0] by { assert CreateMessages[0] == ModuleIdRequired; }
    assert ModuleNameRequired in errs <==> !oks[1] by { assert CreateMessages[1] == ModuleNameRequired; }
    assert DescriptionRequired in errs <==> !oks[2] by { assert CreateMessages[2] == DescriptionRequired; }
    assert CreditsNotPositive in errs <==> !oks[3] by { assert CreateMessages[3] == CreditsNotPositive; }
    assert CourseRequired in errs <==> !oks[4] by { assert CreateMessages[4] == CourseRequired; }
    assert InstructorRequired in errs <==> !oks[5] by { assert CreateMessages[5] == InstructorRequired; }
    assert errs == [] <==> oks[0] && oks[1] && oks[2] && oks[3] && oks[4] && oks[5];
    errs
  }

  /** The document `new Modules({...})` builds from a request that passed validation. */
  function NewModule(req: CreateRequest, id: DocId): (m: ModuleDoc)
    requires ValidationErrors(req) == []
    ensures m.id == id && m.moduleID == req.moduleID.value && m.course == req.course.value
    ensures ModuleSchemaOk(m) <==> ModuleIdOk(req.moduleID.value) && GradeInRange(req.grade)
  {
    ModuleDoc(id, req.moduleID.value, req.moduleName.value, req.description.value,
      req.credits.value, req.grade, req.course.value, req.instructor.value)
  }

  /**
    * `createModule`, with `newId` the id the database assigns. Invalid input
    * gives 400 with the messages; a taken `moduleID` gives 400; a document the
    * schema rejects on save (a bad `moduleID` pattern or a grade outside
    * 1..14) gives 500; otherwise the module is stored, its id is pushed onto
    * its course's list when that course exists, and the reply is 201.
    */
  function Create(s: Store, req: CreateRequest, newId: DocId): (r: Response)
    ensures r.reply.status == Created <==>
      ValidationErrors(req) == [] && !ModuleIdTaken(s.modules, req.moduleID.value)
      && ModuleSchemaOk(NewModule(req, newId))
    ensures r.reply.status != Created ==> r.store == s
    ensures r.errors != [] <==> ValidationErrors(req) != []
    ensures r.errors != [] ==> r.reply.status == BadRequest && r.errors == ValidationErrors(req)
    ensures ValidationErrors(req) == [] && ModuleIdTaken(s.modules, req.moduleID.value) ==>
      r.reply == Reply(BadRequest, "Module ID already exists")
    ensures ValidationErrors(req) == [] && !ModuleIdTaken(s.modules, req.moduleID.value) && !ModuleSchemaOk(NewModule(req, newId)) ==>
      r.reply == Reply(ServerError, "Internal server error")
    ensures r.reply.status == Created ==>
      r.store == Store(s.modules + [NewModule(req, newId)], PushModule(s.courses, req.course.value, newId))
  {
    var errs := ValidationErrors(req);
    if errs != [] then Response(Reply(BadRequest, ""), errs, s)
    else if ModuleIdTaken(s.modules, req.moduleID.value) then Response(Reply(BadRequest, "Module ID already exists"), [], s)
    else
      var m := NewModule(req, newId);
      if !ModuleSchemaOk(m) then Response(Reply(ServerError, "Internal server error"), [], s)
      else Response(Reply(Created, "Module created successfully"), [], Store(s.modules + [m], PushModule(s.courses, m.course, newId)))
  }

  /** A created module keeps the store valid, given a fresh document id. */
  lemma CreateKeepsValid(s: Store, req: CreateRequest, newId: DocId)
    requires Valid(s) && FreshId(s, newId)
    ensures Valid(Create(s, req, newId).store)
  {
    var r := Create(s, req, newId);
    if r.reply.status == Created {
      OnlyModuleListsKeepValid(s.courses, r.store.courses);
    }
  }

  /** Creating the same `moduleID` twice: the second request is refused and changes nothing. */
  lemma CreateTwiceRefused(s: Store, req: CreateRequest, id1: DocId, id2: DocId)
    requires Create(s, req, id1).reply.status == Created
    ensures
      var s1 := Create(s, req, id1).store;
      Create(s1, req, id2) == Response(Reply(BadRequest, "Module ID already exists"), [], s1)
  {
    var s1 := Create(s, req, id1).store;
    assert s1.modules[|s.modules|].moduleID == req.moduleID.value;
  }

  /** The course's list grows by exactly the new id, at the end, without any check for duplicates. */
  lemma CreateAppendsToCourse(s: Store, req: CreateRequest, newId: DocId)
    requires Create(s, req, newId).reply.status == Created
    requires req.course.value in s.courses
    ensures
      var after := Create(s, req, newId).store.courses[req.course.value].modules;
      after == s.courses[req.course.value].modules + [newId]
      && Count(after, (x: DocId) => x == newId) == Count(s.courses[req.course.value].modules, (x: DocId) => x == newId) + 1
  {
    var before := s.courses[req.course.value].modules;
    CountAppend(before, [newId], (x: DocId) => x == newId);
    assert Filter([newId], (x: DocId) => x == newId) == [newId];
  }

  // ---------------------------------------------------------------------------
  // getModules and the lookup by id

  /** Some and not empty: how a query parameter tests in `if (course)`. */
  predicate Truthy(v: Option<string>) {
    v.Some? && v.value != ""
  }

  /**
    * The `find` filter: the course when one is given, the grade when one is
    * given (the query string already parsed).
    */
  function Matches(course: Option<string>, grade: Option<int>): ModuleDoc -> bool {
    (m: ModuleDoc) => (!Truthy(course) || m.course == course.value) && (grade.None? || m.grade == grade)
  }

  /** `getModules`: the matching modules in stored order, or 404 when there are none. */
  function GetModules(s: Store, course: Option<string>, grade: Option<int>): (out: (Reply, seq<ModuleDoc>))
    ensures out.0.status == NotFound <==> out.1 == []
    ensures out.0.status == NotFound ==> out.0.message == "No modules found"
    ensures out.0.status == Ok || out.0.status == NotFound
    ensures IsSubsequence(out.1, s.modules)
    ensures forall i :: 0 <= i < |out.1| ==>
      (!Truthy(course) || out.1[i].course == course.value) && (grade.None? || out.1[i].grade == grade)
    ensures forall i :: 0 <= i < |s.modules| ==>
      ((!Truthy(course) || s.modules[i].course == course.value) && (grade.None? || s.modules[i].grade == grade) ==> s.modules[i] in out.1)
  {
    var found := Filter(s.modules, Matches(course, grade));
    if found == [] then (Reply(NotFound, "No modules found"), []) else (Reply(Ok, ""), found)
  }

  /** With neither query parameter every module is listed, in stored order. */
  lemma GetModulesUnfiltered(s: Store)
    requires s.modules != []
    ensures GetModules(s, None, None) == (Reply(Ok, ""), s.modules)
  {
    FilterAll(s.modules, Matches(None, None));
  }

  function ModuleIdOf(m: ModuleDoc): DocId {
    m.id
  }

  /** `findById`: the position of the module with this id, the first one if several share it. */
  function FindModule(modules: seq<ModuleDoc>, id: DocId): (k: Option<nat>)
    ensures k.Some? ==> k.value < |modules| && modules[k.value].id == id
    ensures k.Some? ==> forall j :: 0 <= j < k.value ==> modules[j].id != id
    ensures k.None? <==> forall i :: 0 <= i < |modules| ==> modules[i].id != id
  {
    FindBy(modules, ModuleIdOf, id)
  }

  // ---------------------------------------------------------------------------
  // updateModule

  /** The four fields the update takes from the body; a missing one is left as it was. */
  datatype ModuleUpdate = ModuleUpdate(
    moduleName: Option<string>,
    description: Option<string>,
    credits: Option<real>,
    instructor: Option<string>)

  function ApplyUpdate(m: ModuleDoc, u: ModuleUpdate): (r: ModuleDoc)
    ensures r.id == m.id && r.moduleID == m.moduleID && r.course == m.course && r.grade == m.grade
    ensures r.moduleName == u.moduleName.GetOr(m.moduleName) && r.description == u.description.GetOr(m.description)
    ensures r.credits == u.credits.GetOr(m.credits) && r.instructor == u.instructor.GetOr(m.instructor)
  {
    m.(moduleName := u.moduleName.GetOr(m.moduleName),
       description := u.description.GetOr(m.description),
       credits := u.credits.GetOr(m.credits),
       instructor := u.instructor.GetOr(m.instructor))
  }

  /**
    * `updateModule`: 404 for an unknown id; otherwise the given fields are
    * overwritten, with no validator run, and every other module and every
    * course is unchanged.
    */
  function Update(s: Store, id: DocId, u: ModuleUpdate): (r: Response)
    ensures r.reply.status == NotFound <==> FindModule(s.modules, id).None?
    ensures r.reply.status == NotFound ==> r == Response(Reply(NotFound, "Module not found"), [], s)
    ensures r.reply.status != NotFound ==>
      var k := FindModule(s.modules, id).value;
      r == Response(Reply(Ok, "Module updated successfully"), [], s.(modules := s.modules[k := ApplyUpdate(s.modules[k], u)]))
  {
    var k := FindModule(s.modules, id);
    if k.None? then Response(Reply(NotFound, "Module not found"), [], s)
    else Response(Reply(Ok, "Module updated successfully"), [], s.(modules := s.modules[k.value := ApplyUpdate(s.modules[k.value], u)]))
  }

  /** An update whose provided fields are acceptable keeps the store valid. */
  lemma UpdateKeepsValid(s: Store, id: DocId, u: ModuleUpdate)
    requires Valid(s)
    requires u.moduleName != Some("") && u.description != Some("") && u.instructor != Some("")
    requires u.credits.Some? ==> u.credits.value >= 0.0
    ensures Valid(Update(s, id, u).store)
  {
  }

  /** The update runs no validator: negative credits are stored as given. */
  lemma UpdateSkipsValidation()
    ensures
      var m := ModuleDoc("m1", "MOD101", "Algebra", "Basics", 3.0, None, "c1", "t1");
      var s := Store([m], map[]);
      var after := Update(s, "m1", ModuleUpdate(None, None, Some(-1.0), None)).store;
      Valid(s) && after.modules[0].credits == -1.0 && !Valid(after)
  {
    var m := ModuleDoc("m1", "MOD101", "Algebra", "Basics", 3.0, None, "c1", "t1");
    assert AllOf("MOD101"[..3], Text.IsUpper) && AllOf("MOD101"[3..], Text.IsDigit);
    assert ModuleSchemaOk(m);
  }

  // ---------------------------------------------------------------------------
  // deleteModule

  /**
    * `deleteModule`: 404 for an unknown id; otherwise the module is removed
    * and every occurrence of its id is pulled from the list of the course it
    * names.
    */
  function Delete(s: Store, id: DocId): (r: Response)
    ensures r.reply.status == NotFound <==> FindModule(s.modules, id).None?
    ensures r.reply.status == NotFound ==> r == Response(Reply(NotFound, "Module not found"), [], s)
    ensures r.reply.status != NotFound ==>
      var k := FindModule(s.modules, id).value;
      r == Response(Reply(Ok, "Module deleted successfully"), [],
        Store(RemoveAt(s.modules, k), PullModule(s.courses, s.modules[k].course, id)))
  {
    var k := FindModule(s.modules, id);
    if k.None? then Response(Reply(NotFound, "Module not found"), [], s)
    else
      var m := s.modules[k.value];
      Response(Reply(Ok, "Module deleted successfully"), [], Store(RemoveAt(s.modules, k.value), PullModule(s.courses, m.course, id)))
  }

  /** With unique ids, a deleted module is gone and its own course no longer lists it. */
  lemma DeleteRemoves(s: Store, id: DocId)
    requires Valid(s)
    requires FindModule(s.modules, id).Some?
    ensures
      var r := Delete(s, id).store;
      var c := s.modules[FindModule(s.modules, id).value].course;
      FindModule(r.modules, id).None? && (c in s.courses ==> id !in r.courses[c].modules)
  {
  }

  lemma DeleteKeepsValid(s: Store, id: DocId)
    requires Valid(s)
    ensures Valid(Delete(s, id).store)
  {
    var r := Delete(s, id);
    if r.reply.status == Ok {
      OnlyModuleListsKeepValid(s.courses, r.store.courses);
    }
  }

  // ---------------------------------------------------------------------------
  // assignModuleToCourse

  /**
    * `assignModuleToCourse`: 400 without a course id, 404 for an unknown
    * module; otherwise the module's course is replaced and the document saved
    * (a document the schema rejects gives 500 and changes nothing), and the
    * id is added to the new course's list unless already there. The old
    * course's list is not touched.
    */
  function Assign(s: Store, id: DocId, courseId: Option<string>): (r: Response)
    ensures r.reply.status == BadRequest <==> !Truthy(courseId)
    ensures r.reply.status == BadRequest ==> r == Response(Reply(BadRequest, "Course ID is required"), [], s)
    ensures r.reply.status == NotFound <==> Truthy(courseId) && FindModule(s.modules, id).None?
    ensures r.reply.status in {BadRequest, NotFound, ServerError, Ok}
    ensures r.reply.status == Ok <==>
      Truthy(courseId) && FindModule(s.modules, id).Some?
      && ModuleSchemaOk(s.modules[FindModule(s.modules, id).value].(course := courseId.value))
    ensures r.reply.status == ServerError ==> r.reply == Reply(ServerError, "Internal server error")
    ensures r.reply.status != Ok ==> r.store == s
    ensures r.reply.status == Ok ==>
      var k := FindModule(s.modules, id).value;
      r.store == Store(s.modules[k := s.modules[k].(course := courseId.value)], AddModule(s.courses, courseId.value, id))
  {
    if !Truthy(courseId) then Response(Reply(BadRequest, "Course ID is required"), [], s)
    else
      var k := FindModule(s.modules, id);
      if k.None? then Response(Reply(NotFound, "Module not found"), [], s)
      else
        var m := s.modules[k.value].(course := courseId.value);
        if !ModuleSchemaOk(m) then Response(Reply(ServerError, "Internal server error"), [], s)
        else Response(Reply(Ok, "Module assigned to course successfully"), [], Store(s.modules[k.value := m], AddModule(s.courses, courseId.value, id)))
  }

  lemma AssignKeepsValid(s: Store, id: DocId, courseId: Option<string>)
    requires Valid(s)
    ensures Valid(Assign(s, id, courseId).store)
  {
    var r := Assign(s, id, courseId);
    if r.reply.status == Ok {
      OnlyModuleListsKeepValid(s.courses, r.store.courses);
    }
  }

  /** Assigning a module to the course it was just assigned to changes nothing more. */
  lemma AssignIdempotent(s: Store, id: DocId, courseId: Option<string>)
    ensures
      var s1 := Assign(s, id, courseId).store;
      Assign(s1, id, courseId).store == s1
  {
    var r := Assign(s, id, courseId);
    if r.reply.status == Ok {
      var k := FindModule(s.modules, id).value;
      var s1 := r.store;
      assert s1.modules[k].id == id;
      assert FindModule(s1.modules, id) == Some(k);
    }
  }

  /** The course the module leaves keeps its list exactly as it was. */
  lemma AssignLeavesOldCourse(s: Store, id: DocId, courseId: Option<string>)
    requires FindModule(s.modules, id).Some?
    requires
      var from := s.modules[FindModule(s.modules, id).value].course;
      from in s.courses && Truthy(courseId) && courseId.value != from
    ensures
      var from := s.modules[FindModule(s.modules, id).value].course;
      Assign(s, id, courseId).store.courses[from] == s.courses[from]
  {
  }

  /**
    * Moving a module and then deleting it leaves its id in the list of the
    * course it was moved away from: the delete pulls only from the course the
    * module names.
    */
  lemma MoveThenDeleteLeavesStaleId(s: Store, id: DocId, courseId: Option<string>)
    requires Valid(s)
    requires FindModule(s.modules, id).Some?
    requires
      var from := s.modules[FindModule(s.modules, id).value].course;
      from in s.courses && id in s.courses[from].modules && Truthy(courseId) && courseId.value != from
    ensures
      var from := s.modules[FindModule(s.modules, id).value].course;
      var s2 := Delete(Assign(s, id, courseId).store, id).store;
      FindModule(s2.modules, id).None? && id in s2.courses[from].modules
  {
    var k := FindModule(s.modules, id).value;
    var r := Assign(s, id, courseId);
    assert r.reply.status == Ok by {
      assert ModuleSchemaOk(s.modules[k]);
    }
    var s1 := r.store;
    assert s1.modules[k].id == id;
    assert FindModule(s1.modules, id) == Some(k);
  }

  // ---------------------------------------------------------------------------
  // The controller as a class over the two collections

  class ModuleDesk {
    var modules: seq<ModuleDoc>
    var courses: map<DocId, CourseDoc>

    function State(): Store
      reads this
    {
      Store(modules, courses)
    }

    constructor (s: Store)
      ensures State() == s
    {
      modules := s.modules;
      courses := s.courses;
    }

    /** `findById`: a scan for the first module with this id. */
    method Locate(id: DocId) returns (k: Option<nat>)
      ensures k == FindModule(modules, id)
    {
      var i := 0;
      while i < |modules| && modules[i].id != id
        invariant 0 <= i <= |modules|
        invariant forall j :: 0 <= j < i ==> modules[j].id != id
      {
        i := i + 1;
      }
      k := if i == |modules| then None else Some(i);
    }

    method CreateModule(req: CreateRequest, newId: DocId) returns (reply: Reply, errors: seq<string>)
      modifies this
      ensures Response(reply, errors, State()) == Create(old(State()), req, newId)
    {
      errors := ValidationErrors(req);
      if errors != [] {
        return Reply(BadRequest, ""), errors;
      }
      var moduleID := req.moduleID.value;
      var i := 0;
      while i < |modules| && modules[i].moduleID != moduleID
        invariant 0 <= i <= |modules|
        invariant forall j :: 0 <= j < i ==> modules[j].moduleID != moduleID
      {
        i := i + 1;
      }
      if i < |modules| {
        return Reply(BadRequest, "Module ID already exists"), [];
      }
      var m := NewModule(req, newId);
      if !ModuleSchemaOk(m) {
        return Reply(ServerError, "Internal server error"), [];
      }
      modules := modules + [m];
      if m.course in courses {
        var c := courses[m.course];
        courses := courses[m.course := c.(modules := c.modules + [newId])];
      }
      reply := Reply(Created, "Module created successfully");
    }

    /** `getModules`: read-only; keeps each matching module in a scan. */
    method ListModules(course: Option<string>, grade: Option<int>) returns (reply: Reply, found: seq<ModuleDoc>)
      ensures (reply, found) == GetModules(State(), course, grade)
    {
      var keep := Matches(course, grade);
      found := [];
      var i := 0;
      while i < |modules|
        invariant 0 <= i <= |modules|
        invariant found == Filter(modules[..i], keep)
      {
        FilterPrefixStep(modules, i, keep);
        if keep(modules[i]) {
          found := found + [modules[i]];
        }
        i := i + 1;
      }
      assert modules[..i] == modules;
      assert found == Filter(State().modules, keep);
      reply := if found == [] then Reply(NotFound, "No modules found") else Reply(Ok, "");
    }

    method UpdateModule(id: DocId, u: ModuleUpdate) returns (reply: Reply)
      modifies this
      ensures Response(reply, [], State()) == Update(old(State()), id, u)
    {
      var k := Locate(id);
      if k.None? {
        return Reply(NotFound, "Module not found");
      }
      modules := modules[k.value := ApplyUpdate(modules[k.value], u)];
      reply := Reply(Ok, "Module updated successfully");
    }

    method DeleteModule(id: DocId) returns (reply: Reply)
      modifies this
      ensures Response(reply, [], State()) == Delete(old(State()), id)
    {
      var k := Locate(id);
      if k.None? {
        return Reply(NotFound, "Module not found");
      }
      var deleted := modules[k.value];
      modules := modules[..k.value] + modules[k.value + 1..];
      courses := PullModule(courses, deleted.course, id);
      reply := Reply(Ok, "Module deleted successfully");
    }

    method AssignModuleToCourse(id: DocId, courseId: Option<string>) returns (reply: Reply)
      modifies this
      ensures Response(reply, [], State()) == Assign(old(State()), id, courseId)
    {
      if !Truthy(courseId) {
        return Reply(BadRequest, "Course ID is required");
      }
      var k := Locate(id);
      if k.None? {
        return Reply(NotFound, "Module not found");
      }
      var m := modules[k.value].(course := courseId.value);
      if !ModuleSchemaOk(m) {
        return Reply(ServerError, "Internal server error");
      }
      modules := modules[k.value := m];
      if courseId.value in courses && id !in courses[courseId.value].modules {
        var c := courses[courseId.value];
        courses := courses[courseId.value := c.(modules := c.modules + [id])];
      }
      reply := Reply(Ok, "Module assigned to course successfully");
    }
  }
}
