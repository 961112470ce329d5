/**
  What the route handlers see of the document store and of the request: documents as
  an id with string fields, the bootcamp and course collections in their natural order,
  the error value of utils/errorResponse.js, and the responses a handler sends.
*/
module Store {
  import opened Wrappers
  import AdvancedResults

  type Id = string

  /** A stored document: its `_id` and its other fields. */
  datatype Doc = Doc(id: Id, fields: map<string, string>)

  /** The authenticated requester that the authentication layer puts on the request. */
  datatype User = User(id: Id, role: string)

  /** An error carrying the HTTP status that the error layer will send. */
  datatype ErrorResponse = ErrorResponse(message: string, statusCode: int)

  /** The JSON body of a successful response; `success: true` is implied. */
  datatype Body =
    | DocBody(doc: Doc)
    | ListBody(count: int, data: seq<Doc>)
    | EnvelopeBody(envelope: AdvancedResults.Envelope<Doc>)
    | MessageBody(msg: string)
    | EmptyBody

  /** What a handler does with the request: send a body with a status, pass an
      ErrorResponse to the error layer, or fail on a store rejection. */
  datatype Response =
    | Sent(status: int, body: Body)
    | Failed(error: ErrorResponse)
    | Rejected(cause: AdvancedResults.StoreError)

  /** A document has its owning user (required by the schemas of both collections). */
  predicate HasOwner(d: Doc) {
    "user" in d.fields
  }

  function Owner(d: Doc): Id
    requires HasOwner(d)
  {
    d.fields["user"]
  }

  /** `findById`: the position of the first document with the given id. */
  function IndexOf(docs: seq<Doc>, id: Id): (r: Option<nat>)
    ensures r.Some? ==> r.value < |docs| && docs[r.value].id == id
    ensures r.Some? ==> forall j :: 0 <= j < r.value ==> docs[j].id != id
    ensures r.None? ==> forall j :: 0 <= j < |docs| ==> docs[j].id != id
  {
    if docs == [] then None
    else if docs[0].id == id then Some(0)
    else
      var r := IndexOf(docs[1..], id);
      if r.Some? then Some(r.value + 1) else None
  }

  function Find(docs: seq<Doc>, id: Id): (r: Option<Doc>)
    ensures r.Some? <==> exists j :: 0 <= j < |docs| && docs[j].id == id
    ensures r.Some? ==> r.value in docs && r.value.id == id
  {
    var i := IndexOf(docs, id);
    if i.Some? then Some(docs[i.value]) else None
  }

  /** The collection without the document at position i; the others keep their order. */
  function RemoveAt(docs: seq<Doc>, i: nat): (r: seq<Doc>)
    requires i < |docs|
    ensures |r| == |docs| - 1
    ensures forall j :: 0 <= j < i ==> r[j] == docs[j]
    ensures forall j :: i <= j < |r| ==> r[j] == docs[j + 1]
  {
    docs[..i] + docs[i + 1..]
  }

  /** `findByIdAndUpdate`: the body's fields overwrite the document's. */
  function Updated(d: Doc, body: map<string, string>): (r: Doc)
    ensures r.id == d.id && r.fields.Keys == d.fields.Keys + body.Keys
    ensures forall k :: k in body ==> r.fields[k] == body[k]
    ensures forall k :: k in d.fields && k !in body ==> r.fields[k] == d.fields[k]
  {
    Doc(d.id, d.fields + body)
  }

  /** Every id occurs at most once, as the store's primary key guarantees. */
  predicate UniqueIds(docs: seq<Doc>) {
    forall i, j :: 0 <= i < j < |docs| ==> docs[i].id != docs[j].id
  }

  /** Overwriting the fields of the document found by id keeps every lookup in place, and
      a later lookup of that id sees the new fields. */
  lemma FindAfterUpdate(docs: seq<Doc>, id: Id, body: map<string, string>, other: Id)
    requires IndexOf(docs, id).Some?
    ensures var i := IndexOf(docs, id).value;
      var after := docs[i := Updated(docs[i], body)];
      && IndexOf(after, other) == IndexOf(docs, other)
      && Find(after, id) == Some(Updated(docs[i], body))
      && (other != id ==> Find(after, other) == Find(docs, other))
  {
    var i := IndexOf(docs, id).value;
    var after := docs[i := Updated(docs[i], body)];
    SameIdsSameIndex(docs, after, other);
    SameIdsSameIndex(docs, after, id);
  }

  lemma {:induction false} SameIdsSameIndex(a: seq<Doc>, b: seq<Doc>, x: Id)
    requires |a| == |b| && forall j :: 0 <= j < |a| ==> a[j].id == b[j].id
    ensures IndexOf(a, x) == IndexOf(b, x)
  {
    if a != [] && a[0].id != x {
      SameIdsSameIndex(a[1..], b[1..], x);
    }
  }

  /** Once the document found by id is removed, that id is no longer found, and every
      other id is found as before. */
  lemma FindAfterRemove(docs: seq<Doc>, id: Id, other: Id)
    requires UniqueIds(docs) && IndexOf(docs, id).Some?
    ensures var after := RemoveAt(docs, IndexOf(docs, id).value);
      && Find(after, id).None?
      && (other != id ==> Find(after, other) == Find(docs, other))
      && UniqueIds(after)
  {
    var i := IndexOf(docs, id).value;
    RemoveKeepsUnique(docs, i);
    RemoveForgets(docs, i);
    if other != id {
      RemoveKeepsOthers(docs, i, other);
    }
  }

  /** Position j of the collection without position i comes from this position. */
  function Origin(i: nat, j: nat): nat {
    if j < i then j else j + 1
  }

  lemma RemoveKeepsUnique(docs: seq<Doc>, i: nat)
    requires UniqueIds(docs) && i < |docs|
    ensures UniqueIds(RemoveAt(docs, i))
  {
    var after := RemoveAt(docs, i);
    forall a, b | 0 <= a < b < |after|
      ensures after[a].id != after[b].id
    {
      assert after[a] == docs[Origin(i, a)] && after[b] == docs[Origin(i, b)];
    }
  }

  lemma RemoveForgets(docs: seq<Doc>, i: nat)
    requires UniqueIds(docs) && i < |docs|
    ensures Find(RemoveAt(docs, i), docs[i].id).None?
  {
    var after := RemoveAt(docs, i);
    forall j | 0 <= j < |after|
      ensures after[j].id != docs[i].id
    {
      assert after[j] == docs[Origin(i, j)];
    }
  }

  lemma RemoveKeepsOthers(docs: seq<Doc>, i: nat, other: Id)
    requires i < |docs| && other != docs[i].id
    ensures Find(RemoveAt(docs, i), other) == Find(docs, other)
  {
    if IndexOf(docs, other).None? {
      RemoveKeepsAbsent(docs, i, other);
    } else {
      var k := IndexOf(docs, other).value;
      RemoveKeepsIndex(docs, i, other, k);
      assert RemoveAt(docs, i)[if k < i then k else k - 1] == docs[k];
    }
  }

  lemma RemoveKeepsAbsent(docs: seq<Doc>, i: nat, other: Id)
    requires i < |docs| && IndexOf(docs, other).None?
    ensures IndexOf(RemoveAt(docs, i), other).None?
  {
    var after := RemoveAt(docs, i);
    forall j | 0 <= j < |after|
      ensures after[j].id != other
    {
      assert after[j] == docs[Origin(i, j)];
    }
  }

  lemma RemoveKeepsIndex(docs: seq<Doc>, i: nat, other: Id, k: nat)
    requires i < |docs| && other != docs[i].id && IndexOf(docs, other) == Some(k)
    ensures IndexOf(RemoveAt(docs, i), other) == Some(if k < i then k else k - 1)
  {
    var after := RemoveAt(docs, i);
    var k' := if k < i then k else k - 1;
    assert after[k'] == docs[k];
    forall j | 0 <= j < k'
      ensures after[j].id != other
    {
      assert after[j] == docs[Origin(i, j)] && Origin(i, j) < k;
    }
    FirstIndex(after, other, k');
  }

  /** The first position holding an id is the one IndexOf reports. */
  lemma {:induction false} FirstIndex(docs: seq<Doc>, x: Id, k: nat)
    requires k < |docs| && docs[k].id == x
    requires forall j :: 0 <= j < k ==> docs[j].id != x
    ensures IndexOf(docs, x) == Some(k)
  {
    if k > 0 {
      FirstIndex(docs[1..], x, k - 1);
    }
  }

  /** Replacing a record by one with the same id keeps the ids unique. */
  lemma UpdateKeepsUnique(docs: seq<Doc>, i: nat, d: Doc)
    requires UniqueIds(docs) && i < |docs| && d.id == docs[i].id
    ensures UniqueIds(docs[i := d])
  {
    var after := docs[i := d];
    assert forall j :: 0 <= j < |after| ==> after[j].id == docs[j].id;
  }

  /** Adding a record whose id is not in the collection yet keeps the ids unique. */
  lemma AppendKeepsUnique(docs: seq<Doc>, d: Doc)
    requires UniqueIds(docs) && Find(docs, d.id).None?
    ensures UniqueIds(docs + [d])
  {
    var after := docs + [d];
    forall a, b | 0 <= a < b < |after|
      ensures after[a].id != after[b].id
    {
      if b == |docs| {
        assert after[a] == docs[a] && after[b] == d;
      } else {
        assert after[a] == docs[a] && after[b] == docs[b];
      }
    }
  }

  /** The request body, which a handler may change in place. */
  class Request {
    var body: map<string, string>

    constructor (body: map<string, string>)
      ensures this.body == body
    {
      this.body := body;
    }
  }

  /** Ids are unique in each collection, as the primary key guarantees; every bootcamp
      and course has its owner, and every course its bootcamp. */
  ghost predicate Consistent(bootcamps: seq<Doc>, courses: seq<Doc>) {
    && UniqueIds(bootcamps) && UniqueIds(courses)
    && (forall i :: 0 <= i < |bootcamps| ==> HasOwner(bootcamps[i]))
    && (forall i :: 0 <= i < |courses| ==> HasOwner(courses[i]) && "bootcamp" in courses[i].fields)
  }

  /** The two collections the handlers use. */
  class Database {
    var bootcamps: seq<Doc>
    var courses: seq<Doc>

    ghost predicate Valid()
      reads this
    {
      Consistent(bootcamps, courses)
    }

    constructor (bootcamps: seq<Doc>, courses: seq<Doc>)
      requires Consistent(bootcamps, courses)
      ensures this.bootcamps == bootcamps && this.courses == courses
      ensures Valid()
    {
      this.bootcamps := bootcamps;
      this.courses := courses;
    }
  }
}
