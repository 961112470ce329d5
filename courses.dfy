/**
  The course handlers (controllers/courses.js): the listing of one bootcamp's courses,
  the single-course read, and the three mutations, each guarded first by an existence
  check and then by the owner-or-admin rule.
*/
module Courses {
  import opened Wrappers
  import opened Store
  import AdvancedResults

  const Admin: string := "admin"

  /** The requester owns the document or is an administrator. */
  predicate MayModify(owner: Id, user: User) {
    owner == user.id || user.role == Admin
  }

  /** The guard in front of a course mutation, in the handlers' order: is there a
      document, and may the requester change it? `None` lets the mutation go ahead. */
  function Check(found: Option<Doc>, user: User, notFound: string, action: string): Option<ErrorResponse>
    requires found.Some? ==> HasOwner(found.value)
  {
    if found.None? then Some(ErrorResponse(notFound, 404))
    else if Owner(found.value) != user.id && user.role != Admin then Some(Denied(user, action, found.value.id))
    else None
  }

  /** The refusal of a requester who neither owns the document nor is an administrator. */
  function Denied(user: User, action: string, id: Id): ErrorResponse {
    ErrorResponse("User " + user.id + " is not authorized to " + action + " " + id, 404)
  }

  /** The body of a new course: the request body with its bootcamp and its owner set. */
  lemma Stamped(body: map<string, string>, bootcampId: Id, userId: Id, newId: Id)
    ensures var c := Doc(newId, body["bootcamp" := bootcampId]["user" := userId]);
      BelongsTo(c, bootcampId) && HasOwner(c) && Owner(c) == userId
  {
    assert "bootcamp" != "user" by { assert "bootcamp"[0] != "user"[0]; }
  }

  /** The guard lets a mutation through exactly when the document exists and the requester
      owns it or is an administrator. A missing document is reported as not found
      whoever asks; a refusal is reported with status 404, not 403, and names the
      requester and the document. */
  lemma CheckDecision(found: Option<Doc>, user: User, notFound: string, action: string)
    requires found.Some? ==> HasOwner(found.value)
    ensures Check(found, user, notFound, action).None? <==> found.Some? && MayModify(Owner(found.value), user)
    ensures found.None? ==> Check(found, user, notFound, action) == Some(ErrorResponse(notFound, 404))
    ensures found.Some? && !MayModify(Owner(found.value), user) ==>
      Check(found, user, notFound, action) == Some(Denied(user, action, found.value.id))
    ensures Check(found, user, notFound, action).Some? ==> Check(found, user, notFound, action).value.statusCode == 404
  {
  }

  /** A course of the given bootcamp. */
  predicate BelongsTo(c: Doc, bootcampId: Id) {
    "bootcamp" in c.fields && c.fields["bootcamp"] == bootcampId
  }

  /** `Course.find({bootcamp: id})`: the courses of one bootcamp, in store order. */
  function CoursesOf(courses: seq<Doc>, bootcampId: Id): (r: seq<Doc>)
    ensures |r| <= |courses|
    ensures forall i :: 0 <= i < |r| ==> BelongsTo(r[i], bootcampId) && r[i] in courses
    ensures forall i :: 0 <= i < |courses| && BelongsTo(courses[i], bootcampId) ==> courses[i] in r
  {
    if courses == [] then []
    else
      var rest := CoursesOf(courses[1..], bootcampId);
      if BelongsTo(courses[0], bootcampId) then [courses[0]] + rest else rest
  }

  /** A course added at the end of the collection is listed last among its bootcamp's
      courses, and the listing of every other bootcamp is unchanged. */
  lemma {:induction false} ListedAfterCreate(courses: seq<Doc>, c: Doc, bootcampId: Id)
    ensures CoursesOf(courses + [c], bootcampId)
            == CoursesOf(courses, bootcampId) + (if BelongsTo(c, bootcampId) then [c] else [])
  {
    if courses == [] {
      assert ([] + [c])[1..] == [];
    } else {
      assert (courses + [c])[1..] == courses[1..] + [c];
      ListedAfterCreate(courses[1..], c, bootcampId);
    }
  }

  /** A removed course is no longer listed for any bootcamp. */
  lemma UnlistedAfterDelete(courses: seq<Doc>, i: nat, bootcampId: Id)
    requires UniqueIds(courses) && i < |courses|
    ensures courses[i] !in CoursesOf(RemoveAt(courses, i), bootcampId)
  {
    var after := RemoveAt(courses, i);
    var listed := CoursesOf(after, bootcampId);
    forall k | 0 <= k < |listed|
      ensures listed[k] != courses[i]
    {
      var j :| 0 <= j < |after| && after[j] == listed[k];
      if j < i {
        assert after[j].id == courses[j].id;
      } else {
        assert after[j].id == courses[j + 1].id;
      }
    }
  }

  /** GET /api/v1/bootcamps/:bootcampId/courses lists that bootcamp's courses with their
      number; GET /api/v1/courses sends the middleware's envelope as it is. */
  method GetCourses(db: Database, bootcampId: Option<Id>, advancedResults: AdvancedResults.Envelope<Doc>)
    returns (res: Response)
    ensures AdvancedResults.Truthy(bootcampId) ==>
      res == Sent(200, ListBody(|CoursesOf(db.courses, bootcampId.value)|, CoursesOf(db.courses, bootcampId.value)))
    ensures !AdvancedResults.Truthy(bootcampId) ==> res == Sent(200, EnvelopeBody(advancedResults))
  {
    if AdvancedResults.Truthy(bootcampId) {
      var courses := CoursesOf(db.courses, bootcampId.value);
      return Sent(200, ListBody(|courses|, courses));
    } else {
      res := Sent(200, EnvelopeBody(advancedResults));
    }
  }

  /** GET /api/v1/courses/:id: the course, or 404 when there is none with that id. */
  method GetCourse(db: Database, id: Id) returns (res: Response)
    ensures Find(db.courses, id).None? ==> res == Failed(ErrorResponse("No course with the id of " + id, 404))
    ensures Find(db.courses, id).Some? ==> res == Sent(200, DocBody(Find(db.courses, id).value))
  {
    var course := Find(db.courses, id);
    if course.None? {
      return Failed(ErrorResponse("No course with the id of " + id, 404));
    }
    res := Sent(200, DocBody(course.value));
  }

  /** POST /api/v1/bootcamps/:bootcampId/courses: stamp the body with the bootcamp and the
      requester, then add the course if the bootcamp exists and the requester may add to
      it. The body is stamped whatever the outcome; the store changes only on success.
      `newId` is the fresh id the store assigns to the new course. */
  method CreateCourse(db: Database, req: Request, bootcampId: Id, user: User, newId: Id)
    returns (res: Response)
    requires db.Valid() && Find(db.courses, newId).None?
    modifies db, req
    ensures db.Valid() && db.bootcamps == old(db.bootcamps)
    ensures req.body == old(req.body)["bootcamp" := bootcampId]["user" := user.id]
    ensures var check := Check(Find(old(db.bootcamps), bootcampId), user,
                               "No bootcamp with the id of " + bootcampId, "add a course to bootcamp");
      && (check.Some? ==> res == Failed(check.value) && db.courses == old(db.courses))
      && (check.None? ==> res == Sent(200, DocBody(Doc(newId, req.body)))
                          && db.courses == old(db.courses) + [Doc(newId, req.body)])
    ensures BelongsTo(Doc(newId, req.body), bootcampId) && Owner(Doc(newId, req.body)) == user.id
  {
    Stamped(req.body, bootcampId, user.id, newId);
    req.body := req.body["bootcamp" := bootcampId];
    req.body := req.body["user" := user.id];
    var bootcamp := Find(db.bootcamps, bootcampId);
    if bootcamp.None? {
      return Failed(ErrorResponse("No bootcamp with the id of " + bootcampId, 404));
    }
    if Owner(bootcamp.value) != user.id && user.role != Admin {
      return Failed(Denied(user, "add a course to bootcamp", bootcamp.value.id));
    }
    var course := Doc(newId, req.body);
    AppendKeepsUnique(db.courses, course);
    db.courses := db.courses + [course];
    res := Sent(200, DocBody(course));
  }

  /** PUT /api/v1/courses/:id: the body's fields overwrite the course's if the course
      exists and the requester may change it; otherwise nothing changes. */
  method UpdateCourse(db: Database, id: Id, body: map<string, string>, user: User)
    returns (res: Response)
    requires db.Valid()
    modifies db
    ensures db.Valid() && db.bootcamps == old(db.bootcamps)
    ensures var check := Check(Find(old(db.courses), id), user, "No course with the id of " + id, "update course");
      var i := IndexOf(old(db.courses), id);
      && (check.Some? ==> res == Failed(check.value) && db.courses == old(db.courses))
      && (check.None? ==> i.Some?
                          && db.courses == old(db.courses)[i.value := Updated(old(db.courses)[i.value], body)]
                          && res == Sent(200, DocBody(db.courses[i.value])))
  {
    var i := IndexOf(db.courses, id);
    if i.None? {
      return Failed(ErrorResponse("No course with the id of " + id, 404));
    }
    var course := db.courses[i.value];
    if Owner(course) != user.id && user.role != Admin {
      return Failed(Denied(user, "update course", course.id));
    }
    course := Updated(course, body);
    UpdateKeepsUnique(db.courses, i.value, course);
    db.courses := db.courses[i.value := course];
    res := Sent(200, DocBody(course));
  }

  /** DELETE /api/v1/courses/:id: the course is removed if it exists and the requester may
      remove it; otherwise nothing changes. */
  method DeleteCourse(db: Database, id: Id, user: User) returns (res: Response)
    requires db.Valid()
    modifies db
    ensures db.Valid() && db.bootcamps == old(db.bootcamps)
    ensures var check := Check(Find(old(db.courses), id), user, "No course with the id of " + id, "delete course");
      var i := IndexOf(old(db.courses), id);
      && (check.Some? ==> res == Failed(check.value) && db.courses == old(db.courses))
      && (check.None? ==> i.Some? && res == Sent(200, EmptyBody) && db.courses == RemoveAt(old(db.courses), i.value)
                          && Find(db.courses, id).None?)
  {
    var i := IndexOf(db.courses, id);
    if i.None? {
      return Failed(ErrorResponse("No course with the id of " + id, 404));
    }
    var course := db.courses[i.value];
    if Owner(course) != user.id && user.role != Admin {
      return Failed(Denied(user, "delete course", course.id));
    }
    RemoveKeepsUnique(db.courses, i.value);
    RemoveForgets(db.courses, i.value);
    db.courses := RemoveAt(db.courses, i.value);
    res := Sent(200, EmptyBody);
  }
}
