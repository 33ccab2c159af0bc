/**
  * Complaints as the complaint controller handles them: submission with its
  * two required fields, the per-school listing newest first, reading one
  * complaint (its author or an administrator only), the status update with
  * its whitelist, and deletion.
  *
  * Each request is a function from the collection before to the reply and
  * the collection after; `ComplaintDesk` performs the same requests on its
  * field and is proved to agree with them.
  */
module Complaints {
  import opened Wrappers
  import opened Http
  import opened Seqs

  type DocId = string

  datatype Status = Pending | InReview | Resolved

  /**
    * A stored complaint. `date` is the submission time in milliseconds;
    * `status` is absent until an administrator sets one.
    */
  datatype Complaint = Complaint(
    id: DocId,
    user: DocId,
    date: int,
    complaint: string,
    school: DocId,
    status: Option<Status>)

  datatype Response = Response(reply: Reply, errors: seq<string>, store: seq<Complaint>)

  /** Every stored complaint has its own id and both required fields. */
  predicate Valid(cs: seq<Complaint>) {
    && (forall i, j :: 0 <= i < j < |cs| ==> cs[i].id != cs[j].id)
    && (forall i :: 0 <= i < |cs| ==> cs[i].complaint != "" && cs[i].school != "")
  }

  /** The first complaint with this id. */
  function Find(cs: seq<Complaint>, id: DocId): (k: Option<nat>)
    ensures k.Some? ==> k.value < |cs| && cs[k.value].id == id
    ensures k.Some? ==> forall j :: 0 <= j < k.value ==> cs[j].id != id
    ensures k.None? <==> forall i :: 0 <= i < |cs| ==> cs[i].id != id
  {
    FindBy(cs, ComplaintIdOf, id)
  }

  function ComplaintIdOf(c: Complaint): DocId {
    c.id
  }

  /** With unique ids, the complaint at any position is the one found by its id. */
  lemma FindUnique(cs: seq<Complaint>, i: nat)
    requires Valid(cs) && i < |cs|
    ensures Find(cs, cs[i].id) == Some(i)
  {
  }

  // ---------------------------------------------------------------------------
  // createComplaint

  /** The two fields the submission takes from the body; a missing one is `None`. */
  datatype ComplaintInput = ComplaintInput(complaint: Option<string>, school: Option<string>)

  /** `notEmpty()`: present and not the empty string. */
  predicate NotEmpty(v: Option<string>) {
    v.Some? && v.value != ""
  }

  /** The messages of the two body validators, in chain order. */
  const ComplaintMessage := "Complaint details are required"
  const SchoolMessage := "School ID is required"
  const CreateMessages: seq<string> := [ComplaintMessage, SchoolMessage]

  /** The validation messages: each failing check's, once, in the order the checks are declared. */
  function ValidationErrors(input: ComplaintInput): (errors: seq<string>)
    ensures errors == [] <==> NotEmpty(input.complaint) && NotEmpty(input.school)
    ensures ComplaintMessage in errors <==> !NotEmpty(input.complaint)
    ensures SchoolMessage in errors <==> !NotEmpty(input.school)
    ensures IsSubsequence(errors, CreateMessages)
    ensures |errors| <= 2
  {
    var oks := [NotEmpty(input.complaint), NotEmpty(input.school)];
    var errors := Flags(oks, CreateMessages);
    FlagsInOrder(oks, CreateMessages);
    assert ComplaintMessage[0] != SchoolMessage[0];
    FlagsMembers(oks, CreateMessages);
    assert ComplaintMessage in errors <==> !oks[0] by { assert CreateMessages[0] == ComplaintMessage; }
    assert SchoolMessage in errors <==> !oks[1] by { assert CreateMessages[1] == SchoolMessage; }
    errors
  }

  /**
    * `createComplaint`: 400 with the validation messages and nothing stored;
    * otherwise 201 and a new complaint from the authenticated `user`, dated
    * `now`, with no status, appended to the collection.
    */
  function Create(cs: seq<Complaint>, input: ComplaintInput, user: DocId, now: int, newId: DocId): (r: Response)
    ensures r.reply.status == BadRequest <==> ValidationErrors(input) != []
    ensures r.reply.status == BadRequest ==> r == Response(Reply(BadRequest, ""), ValidationErrors(input), cs)
    ensures r.reply.status != BadRequest ==>
      r == Response(Reply(Created, "Complaint submitted successfully"), [],
        cs + [Complaint(newId, user, now, input.complaint.value, input.school.value, None)])
  {
    var errors := ValidationErrors(input);
    if errors != [] then Response(Reply(BadRequest, ""), errors, cs)
    else
      var c := Complaint(newId, user, now, input.complaint.value, input.school.value, None);
      Response(Reply(Created, "Complaint submitted successfully"), [], cs + [c])
  }

  lemma CreateKeepsValid(cs: seq<Complaint>, input: ComplaintInput, user: DocId, now: int, newId: DocId)
    requires Valid(cs) && Find(cs, newId).None?
    ensures Valid(Create(cs, input, user, now, newId).store)
  {
  }

  // ---------------------------------------------------------------------------
  // getComplaints

  /** The sort key that puts later dates first. */
  function Newest(c: Complaint): real {
    -(c.date as real)
  }

  predicate OfSchool(school: DocId, c: Complaint) {
    c.school == school
  }

  function FromSchool(school: DocId): Complaint -> bool {
    c => OfSchool(school, c)
  }

  /**
    * `getComplaints`: the school's complaints, most recent first; 404 when
    * the school has none.
    */
  function ListBySchool(cs: seq<Complaint>, school: DocId): (r: (Reply, seq<Complaint>))
    ensures r.0.status == NotFound <==> r.1 == []
    ensures r.0.status == NotFound <==> forall i :: 0 <= i < |cs| ==> cs[i].school != school
    ensures r.0.status != NotFound ==> r.0.status == Ok
    ensures forall i :: 0 <= i < |r.1| ==> r.1[i] in cs && r.1[i].school == school
    ensures forall i :: 0 <= i < |cs| && cs[i].school == school ==> cs[i] in r.1
    ensures forall i, j :: 0 <= i < j < |r.1| ==> r.1[i].date >= r.1[j].date
    ensures multiset(r.1) == multiset(Filter(cs, FromSchool(school)))
  {
    var p := FromSchool(school);
    var mine := Filter(cs, p);
    var sorted := SortBy(mine, Newest);
    forall i | 0 <= i < |sorted|
      ensures sorted[i] in cs && sorted[i].school == school
    {
      assert sorted[i] in multiset(mine);
      FilterMember(cs, p, sorted[i]);
    }
    forall i | 0 <= i < |cs| && cs[i].school == school
      ensures cs[i] in sorted
    {
      assert p(cs[i]);
      assert cs[i] in multiset(sorted);
    }
    forall i, j | 0 <= i < j < |sorted|
      ensures sorted[i].date >= sorted[j].date
    {
      assert Newest(sorted[i]) <= Newest(sorted[j]);
    }
    if sorted == [] then (Reply(NotFound, "No complaints found"), sorted)
    else (Reply(Ok, ""), sorted)
  }

  /** The listing holds as many complaints as the school has. */
  lemma ListCountsSchool(cs: seq<Complaint>, school: DocId)
    ensures |ListBySchool(cs, school).1| == Count(cs, FromSchool(school))
  {
    var p := FromSchool(school);
    var r := ListBySchool(cs, school).1;
    assert |r| == |multiset(r)| == |multiset(Filter(cs, p))| == |Filter(cs, p)|;
    FilterCount(cs, p);
  }

  lemma {:induction false} FilterCount<T>(s: seq<T>, p: T -> bool)
    ensures |Filter(s, p)| == Count(s, p)
  {
    if s != [] {
      FilterCount(s[1..], p);
    }
  }

  // ---------------------------------------------------------------------------
  // getComplaintById

  /** The requester may read a complaint they wrote; an administrator may read any. */
  predicate MayRead(c: Complaint, requester: DocId, role: string) {
    c.user == requester || role == "admin"
  }

  /**
    * `getComplaintById`, with `students` the ids of the Students documents
    * that exist: 404 for an unknown id. When the author's document is gone,
    * `populate` leaves `user` null and reading its `_id` throws, which the
    * handler answers with 500, whoever asks. Otherwise 403 when the requester
    * is neither the author nor an administrator, and 200 with the complaint.
    */
  function GetById(cs: seq<Complaint>, students: set<DocId>, id: DocId, requester: DocId, role: string): (r: (Reply, Option<Complaint>))
    ensures r.0.status == NotFound <==> Find(cs, id).None?
    ensures r.0.status == ServerError <==> Find(cs, id).Some? && cs[Find(cs, id).value].user !in students
    ensures r.0.status == Forbidden <==>
      Find(cs, id).Some? && cs[Find(cs, id).value].user in students && !MayRead(cs[Find(cs, id).value], requester, role)
    ensures r.1.Some? <==> r.0.status == Ok
    ensures r.0.status == Ok ==>
      (r.1 == Some(cs[Find(cs, id).value]) && r.1.value.id == id && MayRead(r.1.value, requester, role))
    ensures r.0.status in {Ok, Forbidden, NotFound, ServerError}
  {
    var k := Find(cs, id);
    if k.None? then (Reply(NotFound, "Complaint not found"), None)
    else if cs[k.value].user !in students then (Reply(ServerError, "Internal server error"), None)
    else if !MayRead(cs[k.value], requester, role) then (Reply(Forbidden, "Not authorized to view this complaint"), None)
    else (Reply(Ok, ""), Some(cs[k.value]))
  }

  /** A submitted complaint can be read back by its author, exactly as stored. */
  lemma CreateThenAuthorReads(cs: seq<Complaint>, students: set<DocId>, input: ComplaintInput, user: DocId, now: int, newId: DocId, role: string)
    requires Find(cs, newId).None? && user in students
    requires ValidationErrors(input) == []
    ensures
      var after := Create(cs, input, user, now, newId).store;
      GetById(after, students, newId, user, role) ==
        (Reply(Ok, ""), Some(Complaint(newId, user, now, input.complaint.value, input.school.value, None)))
  {
    var after := Create(cs, input, user, now, newId).store;
    assert after[|cs|].id == newId;
  }

  // ---------------------------------------------------------------------------
  // updateComplaintStatus

  /** The whitelist: a missing or unlisted value is refused. */
  function ParseStatus(s: Option<string>): (r: Option<Status>)
    ensures r.Some? <==> s.Some? && s.value in {"pending", "in-review", "resolved"}
    ensures r == Some(Pending) <==> s == Some("pending")
    ensures r == Some(InReview) <==> s == Some("in-review")
    ensures r == Some(Resolved) <==> s == Some("resolved")
  {
    if s == Some("pending") then Some(Pending)
    else if s == Some("in-review") then Some(InReview)
    else if s == Some("resolved") then Some(Resolved)
    else None
  }

  const InvalidStatus := "Invalid status. Must be: pending, in-review, or resolved"

  /**
    * `updateComplaintStatus`: 400 for a status outside the whitelist, before
    * any lookup; 404 for an unknown id; otherwise 200 and only that
    * complaint's status changes.
    */
  function UpdateStatus(cs: seq<Complaint>, id: DocId, status: Option<string>): (r: Response)
    ensures r.reply.status == BadRequest <==> ParseStatus(status).None?
    ensures r.reply.status == NotFound <==> ParseStatus(status).Some? && Find(cs, id).None?
    ensures r.reply.status != Ok ==> r.store == cs
    ensures r.reply.status == Ok ==>
      var k := Find(cs, id).value;
      && |r.store| == |cs|
      && r.store[k] == cs[k].(status := ParseStatus(status))
      && forall i :: 0 <= i < |cs| && i != k ==> r.store[i] == cs[i]
    ensures r.errors == []
  {
    var st := ParseStatus(status);
    if st.None? then Response(Reply(BadRequest, InvalidStatus), [], cs)
    else
      var k := Find(cs, id);
      if k.None? then Response(Reply(NotFound, "Complaint not found"), [], cs)
      else Response(Reply(Ok, "Complaint status updated successfully"), [], cs[k.value := cs[k.value].(status := st)])
  }

  lemma UpdateStatusKeepsValid(cs: seq<Complaint>, id: DocId, status: Option<string>)
    requires Valid(cs)
    ensures Valid(UpdateStatus(cs, id, status).store)
  {
  }

  /** After an accepted update an administrator reads the new status back. */
  lemma UpdateThenAdminReads(cs: seq<Complaint>, students: set<DocId>, id: DocId, status: Option<string>, admin: DocId)
    requires Valid(cs)
    requires UpdateStatus(cs, id, status).reply.status == Ok
    requires cs[Find(cs, id).value].user in students
    ensures
      var r := GetById(UpdateStatus(cs, id, status).store, students, id, admin, "admin");
      r.0.status == Ok && r.1.value.status == ParseStatus(status)
  {
    var k := Find(cs, id).value;
    var after := UpdateStatus(cs, id, status).store;
    assert after[k].id == id;
    assert forall i :: 0 <= i < k ==> after[i].id != id;
  }

  // ---------------------------------------------------------------------------
  // deleteComplaint

  /** `deleteComplaint`: 404 for an unknown id; otherwise 200 and the complaint is removed. */
  function Delete(cs: seq<Complaint>, id: DocId): (r: Response)
    ensures r.reply.status == NotFound <==> Find(cs, id).None?
    ensures r.reply.status == NotFound ==> r == Response(Reply(NotFound, "Complaint not found"), [], cs)
    ensures r.reply.status != NotFound ==>
      r == Response(Reply(Ok, "Complaint deleted successfully"), [], RemoveAt(cs, Find(cs, id).value))
  {
    var k := Find(cs, id);
    if k.None? then Response(Reply(NotFound, "Complaint not found"), [], cs)
    else Response(Reply(Ok, "Complaint deleted successfully"), [], RemoveAt(cs, k.value))
  }

  lemma DeleteKeepsValid(cs: seq<Complaint>, id: DocId)
    requires Valid(cs)
    ensures Valid(Delete(cs, id).store)
  {
  }

  /** With unique ids, a deleted complaint can no longer be read, updated or deleted. */
  lemma DeleteThenGone(cs: seq<Complaint>, students: set<DocId>, id: DocId, requester: DocId, role: string, status: Option<string>)
    requires Valid(cs)
    ensures
      var after := Delete(cs, id).store;
      && GetById(after, students, id, requester, role).0.status == NotFound
      && (ParseStatus(status).Some? ==> UpdateStatus(after, id, status).reply.status == NotFound)
      && Delete(after, id).reply.status == NotFound
  {
    var after := Delete(cs, id).store;
    if Find(cs, id).Some? {
      var k := Find(cs, id).value;
      forall i | 0 <= i < |after|
        ensures after[i].id != id
      {
        if i >= k {
          assert after[i] == cs[i + 1];
        }
      }
    }
  }

  // ---------------------------------------------------------------------------
  // The controller over a mutable collection

  class ComplaintDesk {
    var complaints: seq<Complaint>

    constructor (cs: seq<Complaint>)
      ensures complaints == cs
    {
      complaints := cs;
    }

    /** `findById`: a scan for the first complaint with this id. */
    method Locate(id: DocId) returns (k: Option<nat>)
      ensures k == Find(complaints, id)
    {
      var i := 0;
      while i < |complaints| && complaints[i].id != id
        invariant 0 <= i <= |complaints|
        invariant forall j :: 0 <= j < i ==> complaints[j].id != id
      {
        i := i + 1;
      }
      k := if i == |complaints| then None else Some(i);
    }

    method Submit(input: ComplaintInput, user: DocId, now: int, newId: DocId) returns (reply: Reply, errors: seq<string>)
      modifies this
      ensures Response(reply, errors, complaints) == Create(old(complaints), input, user, now, newId)
    {
      errors := ValidationErrors(input);
      if errors != [] {
        return Reply(BadRequest, ""), errors;
      }
      complaints := complaints + [Complaint(newId, user, now, input.complaint.value, input.school.value, None)];
      reply := Reply(Created, "Complaint submitted successfully");
    }

    /** `getComplaints`: read-only; collects the school's complaints in a scan, then sorts them. */
    method ListForSchool(school: DocId) returns (reply: Reply, found: seq<Complaint>)
      ensures (reply, found) == ListBySchool(complaints, school)
    {
      var mine := Collect(school);
      found := SortBy(mine, Newest);
      reply := if found == [] then Reply(NotFound, "No complaints found") else Reply(Ok, "");
    }

    /** `find({ school })`: the school's complaints in stored order. */
    method Collect(school: DocId) returns (mine: seq<Complaint>)
      ensures mine == Filter(complaints, FromSchool(school))
    {
      mine := [];
      var i := 0;
      while i < |complaints|
        invariant 0 <= i <= |complaints|
        invariant mine == Filter(complaints[..i], FromSchool(school))
      {
        var c := complaints[i];
        FilterPrefixStep(complaints, i, FromSchool(school));
        if FromSchool(school)(c) {
          mine := mine + [c];
        }
        i := i + 1;
      }
      assert complaints[..i] == complaints;
    }

    /** `getComplaintById`: read-only. */
    method View(students: set<DocId>, id: DocId, requester: DocId, role: string) returns (reply: Reply, found: Option<Complaint>)
      ensures (reply, found) == GetById(complaints, students, id, requester, role)
    {
      var k := Locate(id);
      if k.None? {
        return Reply(NotFound, "Complaint not found"), None;
      }
      var c := complaints[k.value];
      if c.user !in students {
        return Reply(ServerError, "Internal server error"), None;
      }
      if c.user != requester && role != "admin" {
        return Reply(Forbidden, "Not authorized to view this complaint"), None;
      }
      reply, found := Reply(Ok, ""), Some(c);
    }

    method SetStatus(id: DocId, status: Option<string>) returns (reply: Reply)
      modifies this
      ensures Response(reply, [], complaints) == UpdateStatus(old(complaints), id, status)
    {
      if status.None? || status.value !in {"pending", "in-review", "resolved"} {
        return Reply(BadRequest, InvalidStatus);
      }
      var k := Locate(id);
      if k.None? {
        return Reply(NotFound, "Complaint not found");
      }
      complaints := complaints[k.value := complaints[k.value].(status := ParseStatus(status))];
      reply := Reply(Ok, "Complaint status updated successfully");
    }

    method Remove(id: DocId) returns (reply: Reply)
      modifies this
      ensures Response(reply, [], complaints) == Delete(old(complaints), id)
    {
      var k := Locate(id);
      if k.None? {
        return Reply(NotFound, "Complaint not found");
      }
      complaints := complaints[..k.value] + complaints[k.value + 1..];
      reply := Reply(Ok, "Complaint deleted successfully");
    }
  }
}
