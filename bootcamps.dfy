/**
  The bootcamp handlers (controllers/bootcamps.js): the listing, which repeats the
  list-query translation of the middleware inline and always populates the bootcamp's
  courses, and the single-bootcamp read, update and delete with their not-found answer.
*/
module Bootcamps {
  import opened Wrappers
  import opened Store
  import AdvancedResults

  /** The error for a bootcamp id that is not in the store. */
  function NotFound(id: Id): ErrorResponse {
    ErrorResponse("Bootcamp not found with id of " + id, 404)
  }

  /** GET /api/v1/bootcamps: the listing with the bootcamps' courses populated, sent with
      status 200; a store rejection goes to the error layer. */
  method GetBootcamps(db: Database, query: map<string, string>,
                      serialize: map<string, string> -> string, matched: seq<Doc>)
    returns (q: AdvancedResults.Query, res: Response)
    ensures q == AdvancedResults.Plan(query, Some("courses"), serialize)
    ensures match AdvancedResults.Listing(AdvancedResults.PageNumber(query), AdvancedResults.PageSize(query), |db.bootcamps|, matched)
      case Ok(e) => res == Sent(200, EnvelopeBody(e))
      case Err(cause) => res == Rejected(cause)
  {
    q := AdvancedResults.BuildQuery(query, Some("courses"), serialize);
    var page, limit := AdvancedResults.PageNumber(query), AdvancedResults.PageSize(query);
    var startIndex, endIndex := (page - 1) * limit, page * limit;
    var total := |db.bootcamps|;
    if startIndex < 0 {
      res := Rejected(AdvancedResults.NegativeSkip(startIndex));
      return;
    }
    var bootcamps := AdvancedResults.Window(matched, startIndex, limit);
    var pagination := AdvancedResults.BuildPagination(page, limit, startIndex, endIndex, total);
    res := Sent(200, EnvelopeBody(AdvancedResults.Envelope(true, |bootcamps|, pagination, bootcamps)));
  }

  /** GET /api/v1/bootcamps/:id: the bootcamp, or 404 when there is none with that id. */
  method GetBootcamp(db: Database, id: Id) returns (res: Response)
    ensures Find(db.bootcamps, id).None? ==> res == Failed(NotFound(id))
    ensures Find(db.bootcamps, id).Some? ==> res == Sent(200, DocBody(Find(db.bootcamps, id).value))
    ensures res.Failed? ==> res.error.statusCode == 404
  {
    var bootcamp := Find(db.bootcamps, id);
    if bootcamp.None? {
      return Failed(NotFound(id));
    }
    res := Sent(200, DocBody(bootcamp.value));
  }

  /** PUT /api/v1/bootcamps/:id: the body's fields overwrite the bootcamp's; 404 and no
      change when there is no bootcamp with that id. */
  method UpdateBootcamp(db: Database, id: Id, body: map<string, string>) returns (res: Response)
    requires db.Valid()
    modifies db
    ensures db.Valid() && db.courses == old(db.courses)
    ensures var i := IndexOf(old(db.bootcamps), id);
      && (i.None? ==> res == Failed(NotFound(id)) && db.bootcamps == old(db.bootcamps))
      && (i.Some? ==> res == Sent(200, MessageBody("Updated bootcamp"))
                      && db.bootcamps == old(db.bootcamps)[i.value := Updated(old(db.bootcamps)[i.value], body)]
                      && Find(db.bootcamps, id) == Some(Updated(old(db.bootcamps)[i.value], body)))
  {
    var i := IndexOf(db.bootcamps, id);
    if i.None? {
      return Failed(NotFound(id));
    }
    UpdateKeepsUnique(db.bootcamps, i.value, Updated(db.bootcamps[i.value], body));
    FindAfterUpdate(db.bootcamps, id, body, id);
    db.bootcamps := db.bootcamps[i.value := Updated(db.bootcamps[i.value], body)];
    res := Sent(200, MessageBody("Updated bootcamp"));
  }

  /** DELETE /api/v1/bootcamps/:id: the bootcamp is removed; 404 and no change when there
      is no bootcamp with that id. */
  method DeleteBootcamp(db: Database, id: Id) returns (res: Response)
    requires db.Valid()
    modifies db
    ensures db.Valid() && db.courses == old(db.courses)
    ensures var i := IndexOf(old(db.bootcamps), id);
      && (i.None? ==> res == Failed(NotFound(id)) && db.bootcamps == old(db.bootcamps))
      && (i.Some? ==> res == Sent(200, EmptyBody) && db.bootcamps == RemoveAt(old(db.bootcamps), i.value)
                      && Find(db.bootcamps, id).None?)
  {
    var i := IndexOf(db.bootcamps, id);
    if i.None? {
      return Failed(NotFound(id));
    }
    RemoveKeepsUnique(db.bootcamps, i.value);
    RemoveForgets(db.bootcamps, i.value);
    db.bootcamps := RemoveAt(db.bootcamps, i.value);
    res := Sent(200, EmptyBody);
  }

  /** A missing id gets the same 404 from the read, the update and the delete. */
  lemma NotFoundIs404(id: Id)
    ensures NotFound(id).statusCode == 404
    ensures NotFound(id).message == "Bootcamp not found with id of " + id
  {
  }
}
