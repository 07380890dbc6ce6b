/** The record routes mounted under /metaphores: which middleware guards
    each route, and what each handler does to the collection and answers.
    The collection is an in-memory map from id to record; the search regex
    and the two middleware checks are supplied by the caller. */
module MetaphoreRoutes {
  import opened Http
  import opened Mongoose
  import opened MetaphoreModel

  const RegexMustBeString := "$regex has to be a string"
  const EmptyOrInvalidList := "La liste des métaphores est vide ou invalide."
  const NoValidRecord := "Aucune métaphore valide à insérer."
  const TaskNotFound := "Task not found."
  const TaskDeleted := "Task deleted successfully."

  /** The JSON bodies the handlers send. */
  datatype Payload =
    | Created(doc: Document)             // the saved document
    | Found(found: Option<Document>)     // a document or null
    | Listing(all: map<Id, Record>)      // an array of documents, in the store's order
    | Inserted(inserted: seq<Document>)  // the inserted documents, in input order
    | Message(message: string)           // { message }
    | Error(error: string)               // { error } with a message of the handler's own
    | Thrown                             // { error: err.message } from mongoose or the runtime
    | DeleteFailed                       // { message: 'Error deleting task.', error: err.message }

  // ---------------------------------------------------------------------
  // Route guards

  /** `authMiddleware` and `adminMiddleware`, whose bodies are not part of
      this model: each either passes or answers on its own. */
  datatype Guard = Authenticated | AdminOnly

  datatype Route =
    | CreateRoute | SearchRoute | GetByIdRoute | VisibilityRoute | DownloadableRoute
    | BulkRoute | ListRoute | PutRoute | DeleteRoute

  /** The middleware each route lists before its handler, in order. */
  function Guards(r: Route): (gs: seq<Guard>)
    // only delete checks the admin role
    ensures AdminOnly in gs <==> r == DeleteRoute
    // only search and get-by-id are public
    ensures gs == [] <==> r == SearchRoute || r == GetByIdRoute
    // authentication always runs first
    ensures gs != [] ==> gs[0] == Authenticated
  {
    match r
    case SearchRoute => []
    case GetByIdRoute => []
    case DeleteRoute => [Authenticated, AdminOnly]
    case _ => [Authenticated]
  }

  /** The first guard of a chain that refuses, if any: Express runs the
      chain in order and stops at the first middleware that does not pass. */
  function Refusal(gs: seq<Guard>, passes: Guard -> bool): (r: Option<Guard>)
    ensures r.None? <==> forall i :: 0 <= i < |gs| ==> passes(gs[i])
    ensures r.Some? ==> exists k :: 0 <= k < |gs| && gs[k] == r.value && !passes(r.value)
                                    && forall j :: 0 <= j < k ==> passes(gs[j])
  {
    if gs == [] then None
    else if !passes(gs[0]) then Some(gs[0])
    else
      var r := Refusal(gs[1..], passes);
      if r.Some? then
        ghost var k :| 0 <= k < |gs[1..]| && gs[1..][k] == r.value && !passes(r.value)
                       && forall j :: 0 <= j < k ==> passes(gs[1..][j]);
        assert gs[k + 1] == r.value && forall j :: 0 <= j < k + 1 ==> passes(gs[j]);
        r
      else r
  }

  /** The guard table: search and get-by-id are public; delete runs only when
      authentication and then the admin check pass (an unauthenticated
      request is refused by the first, before the admin check runs); every
      other route needs authentication alone. */
  lemma GuardTable(r: Route, passes: Guard -> bool)
    ensures r == SearchRoute || r == GetByIdRoute ==> Refusal(Guards(r), passes) == None
    ensures r == DeleteRoute ==> (Refusal(Guards(r), passes).None? <==> passes(Authenticated) && passes(AdminOnly))
    ensures r == DeleteRoute && !passes(Authenticated) ==> Refusal(Guards(r), passes) == Some(Authenticated)
    ensures r !in {SearchRoute, GetByIdRoute, DeleteRoute} ==>
              Refusal(Guards(r), passes) == (if passes(Authenticated) then None else Some(Authenticated))
  {
  }

  // ---------------------------------------------------------------------
  // Bulk insertion, the pure part

  /** The filter callback `m => m.title && m.content`, for an element it can
      read (a null element makes it throw). */
  predicate Keep(m: Json): (k: bool)
    // only an object has a truthy title, so only objects are kept
    ensures k ==> m.Obj? && "title" in m.fields && "content" in m.fields
  {
    !m.Nullish() && m.Prop("title").Truthy() && m.Prop("content").Truthy()
  }

  /** `metaphores.filter(m => m.title && m.content)`: None when the callback
      throws a TypeError on a null element. */
  function BulkFilter(items: seq<Json>): (r: Option<seq<Json>>)
    ensures r.Some? ==> |r.value| <= |items|
    ensures r.Some? ==> forall j :: 0 <= j < |r.value| ==> Keep(r.value[j])
  {
    if items == [] then Some([])
    else if items[0].Nullish() then None
    else match BulkFilter(items[1..])
      case None => None
      case Some(rest) => Some(if Keep(items[0]) then [items[0]] + rest else rest)
  }

  /** a is b with some elements left out, the rest in the same order. */
  predicate Subsequence<T(==)>(a: seq<T>, b: seq<T>)
    decreases |b|
  {
    a == [] || (b != [] && ((a[0] == b[0] && Subsequence(a[1..], b[1..])) || Subsequence(a, b[1..])))
  }

  /** The filter throws exactly when some element is null. */
  lemma {:induction false} BulkFilterThrows(items: seq<Json>)
    ensures BulkFilter(items).None? <==> exists i :: 0 <= i < |items| && items[i].Nullish()
  {
    if items != [] && !items[0].Nullish() {
      BulkFilterThrows(items[1..]);
      if exists i :: 0 <= i < |items[1..]| && items[1..][i].Nullish() {
        var i :| 0 <= i < |items[1..]| && items[1..][i].Nullish();
        assert items[i + 1].Nullish();
      }
      if exists i :: 0 <= i < |items| && items[i].Nullish() {
        var i :| 0 <= i < |items| && items[i].Nullish();
        assert items[1..][i - 1].Nullish();
      }
    }
  }

  /** The filter keeps exactly the elements with a truthy title and a truthy
      content: each kept one passes, each passing one is kept as often as it
      occurs, and the input order is preserved. */
  lemma {:induction false} BulkFilterKeepsExactly(items: seq<Json>)
    requires BulkFilter(items).Some?
    ensures var kept := BulkFilter(items).value;
      && Subsequence(kept, items)
      && (forall j :: 0 <= j < |kept| ==> Keep(kept[j]))
      && (forall x :: Keep(x) ==> multiset(kept)[x] == multiset(items)[x])
  {
    if items != [] {
      var rest := BulkFilter(items[1..]).value;
      BulkFilterKeepsExactly(items[1..]);
      assert items == [items[0]] + items[1..];
      assert multiset(items) == multiset{items[0]} + multiset(items[1..]);
      if Keep(items[0]) {
        var kept := [items[0]] + rest;
        assert kept[1..] == rest;
        assert multiset(kept) == multiset{items[0]} + multiset(rest);
      }
    }
  }

  /** `insertMany` validating every element: the records it would insert, in
      order, or Err when any element fails to cast or validate. */
  function CastAll(items: seq<Json>): (r: Result<seq<Record>>)
    requires forall i :: 0 <= i < |items| ==> !items[i].Nullish()
    ensures r.Ok? ==> |r.value| == |items| && forall j :: 0 <= j < |r.value| ==> HasTitle(r.value[j])
  {
    if items == [] then Ok([])
    else match (RecordFrom(items[0]), CastAll(items[1..]))
      case (Ok(r), Ok(rs)) => Ok([r] + rs)
      case _ => Err
  }

  /** CastAll succeeds exactly when every element makes a record, and then
      gives those records in input order. */
  lemma {:induction false} CastAllRecords(items: seq<Json>)
    requires forall i :: 0 <= i < |items| ==> !items[i].Nullish()
    ensures CastAll(items).Ok? <==> forall i :: 0 <= i < |items| ==> RecordFrom(items[i]).Ok?
    ensures CastAll(items).Ok? ==>
              (|CastAll(items).value| == |items|
               && forall i :: 0 <= i < |items| ==> CastAll(items).value[i] == RecordFrom(items[i]).value)
  {
    if items != [] {
      CastAllRecords(items[1..]);
      if forall i :: 0 <= i < |items| ==> RecordFrom(items[i]).Ok? {
        assert forall i :: 0 <= i < |items[1..]| ==> RecordFrom(items[1..][i]).Ok? by {
          forall i | 0 <= i < |items[1..]| ensures RecordFrom(items[1..][i]).Ok? {
            assert items[1..][i] == items[i + 1];
          }
        }
      }
      if CastAll(items).Ok? {
        var rs := CastAll(items[1..]).value;
        forall i | 0 <= i < |items| ensures RecordFrom(items[i]).Ok? && CastAll(items).value[i] == RecordFrom(items[i]).value {
          if i > 0 { assert items[1..][i - 1] == items[i]; }
        }
      }
    }
  }

  /** What the bulk handler decides before touching the store. */
  datatype BulkPlan = Refuse(status: int, reply: Payload) | InsertAll(records: seq<Record>)

  /** The checks of the bulk handler in their order: the body must be a
      non-empty array; the filter may throw (500); at least one element must
      pass it (400); `insertMany` then validates every kept element and fails
      as a whole (500) if one does not validate. */
  function PlanBulk(body: Json): (p: BulkPlan)
    ensures !body.Arr? || body.items == [] ==> p == Refuse(400, Error(EmptyOrInvalidList))
    ensures p.InsertAll? ==> body.Arr? && BulkFilter(body.items).Some? && |p.records| > 0
    ensures p.Refuse? ==> p.status in {400, 500}
    // a null element makes the filter callback throw, caught as a 500
    ensures body.Arr? && body.items != [] && BulkFilter(body.items).None? ==> p == Refuse(500, Thrown)
    // a non-empty kept list is inserted exactly when every kept element validates
    ensures body.Arr? && body.items != [] && BulkFilter(body.items).Some? && BulkFilter(body.items).value != [] ==>
              (p.InsertAll? <==> CastAll(BulkFilter(body.items).value).Ok?)
  {
    if !body.Arr? || |body.items| == 0 then Refuse(400, Error(EmptyOrInvalidList))
    else match BulkFilter(body.items)
      case None => Refuse(500, Thrown)
      case Some(valid) =>
        if |valid| == 0 then Refuse(400, Error(NoValidRecord))
        else
          BulkFilterKeepsExactly(body.items);
          match CastAll(valid)
          case Err => Refuse(500, Thrown)
          case Ok(recs) =>
            CastAllRecords(valid);
            InsertAll(recs)
  }

  /** The bulk decision end to end: when records are inserted, they are the
      records of exactly the input elements with a truthy title and content,
      one per such element, in input order; when no element passes the filter
      the answer is 400 with nothing inserted; when some element passes, the
      insertion happens exactly when every kept element validates, and
      otherwise `insertMany` fails as a whole with 500. */
  lemma {:induction false} PlanBulkInsertsKeptElements(body: Json)
    requires body.Arr? && body.items != [] && BulkFilter(body.items).Some?
    ensures var kept := BulkFilter(body.items).value;
      && (kept == [] ==> PlanBulk(body) == Refuse(400, Error(NoValidRecord)))
      && (kept != [] ==>
            (PlanBulk(body).InsertAll? <==> forall j :: 0 <= j < |kept| ==> Keep(kept[j]) && RecordFrom(kept[j]).Ok?))
      && (kept != [] && !PlanBulk(body).InsertAll? ==> PlanBulk(body) == Refuse(500, Thrown))
      && (PlanBulk(body).InsertAll? ==>
            && Subsequence(kept, body.items)
            && (forall x :: Keep(x) ==> multiset(kept)[x] == multiset(body.items)[x])
            && |PlanBulk(body).records| == |kept|
            && forall j :: 0 <= j < |kept| ==> Keep(kept[j]) && Ok(PlanBulk(body).records[j]) == RecordFrom(kept[j]))
  {
    var kept := BulkFilter(body.items).value;
    BulkFilterKeepsExactly(body.items);
    if kept != [] {
      CastAllRecords(kept);
    }
  }

  /** The documents `insertMany` returns: fresh ids from `start` on, in order. */
  function Numbered(recs: seq<Record>, start: Id): (ds: seq<Document>)
    ensures |ds| == |recs|
    ensures forall j :: 0 <= j < |recs| ==> ds[j] == Document(start + j, recs[j])
  {
    seq(|recs|, j requires 0 <= j < |recs| => Document(start + j, recs[j]))
  }

  /** The same documents as entries of the collection. */
  function Placed(recs: seq<Record>, start: Id): (m: map<Id, Record>)
    ensures forall id :: id in m <==> start <= id < start + |recs|
    ensures forall j :: 0 <= j < |recs| ==> start + j in m && m[start + j] == recs[j]
    decreases |recs|
  {
    if recs == [] then map[]
    else
      var m := Placed(recs[1..], start + 1)[start := recs[0]];
      assert forall j :: 1 <= j < |recs| ==> recs[j] == recs[1..][j - 1];
      m
  }

  /** The bulk example: of an element with title and content, one with an
      empty title and one with no title, only the first is inserted. */
  lemma BulkExample()
    ensures PlanBulk(Arr([Obj(map["title" := Str("A"), "content" := Str("x")]),
                          Obj(map["title" := Str("")]),
                          Obj(map["content" := Str("y")])]))
            == InsertAll([Record(Some("A"), Some("x"), Some(true), Some(false))])
  {
    var a := Obj(map["title" := Str("A"), "content" := Str("x")]);
    var b := Obj(map["title" := Str("")]);
    var c := Obj(map["content" := Str("y")]);
    var items := [a, b, c];
    assert !Keep(b) && !Keep(c) && Keep(a);
    assert items[1..] == [b, c] && items[1..][1..] == [c] && items[1..][1..][1..] == [];
    assert BulkFilter([c]) == Some([]);
    assert BulkFilter([b, c]) == Some([]);
    assert BulkFilter(items[1..]) == Some([]);
    assert [a] + [] == [a];
    assert BulkFilter(items) == Some([a]);
    assert a.Prop("visible") == Undefined && a.Prop("downloadable") == Undefined;
    assert RecordFrom(a) == Ok(Record(Some("A"), Some("x"), Some(true), Some(false)));
    assert [a][1..] == [];
  }

  // ---------------------------------------------------------------------
  // Requests and the collection

  /** A request as routed by Express (GET /search is matched before GET /:id). */
  datatype Request =
    | CreateReq(body: Json)                           // POST /
    | SearchReq(q: Json)                              // GET /search?q=
    | GetByIdReq(id: IdParam)                         // GET /:id
    | VisibilityReq(id: IdParam, body: Json)          // PATCH /:id/visibility
    | DownloadableReq(id: IdParam, body: Json)        // PATCH /:id/downloadable
    | BulkReq(body: Json)                             // POST /bulk
    | ListReq                                         // GET /
    | PutReq(id: IdParam, fields: map<string, Json>)  // PUT /:id
    | DeleteReq(id: IdParam)                          // DELETE /:id

  function RouteOf(req: Request): Route {
    match req
    case CreateReq(_) => CreateRoute
    case SearchReq(_) => SearchRoute
    case GetByIdReq(_) => GetByIdRoute
    case VisibilityReq(_, _) => VisibilityRoute
    case DownloadableReq(_, _) => DownloadableRoute
    case BulkReq(_) => BulkRoute
    case ListReq => ListRoute
    case PutReq(_, _) => PutRoute
    case DeleteReq(_) => DeleteRoute
  }

  /** `express.json()` hands every handler a parsed object or array, never null. */
  predicate BodyParsed(req: Request) {
    (req.CreateReq? || req.VisibilityReq? || req.DownloadableReq? || req.BulkReq?) ==> !req.body.Nullish()
  }

  /** The outcome of a request: refused by a guard (whose answer is the
      middleware's own), or answered by the handler. */
  datatype Outcome = Blocked(guard: Guard) | Handled(response: Response<Payload>)

  /** The documents whose title the search regex matches. Only string titles
      can match. */
  function Matching(docs: map<Id, Record>, matches: string -> bool): (m: map<Id, Record>)
    // every entry is a stored record, unchanged, whose title matches
    ensures forall id :: id in m ==> id in docs && m[id] == docs[id]
                                     && docs[id].title.Some? && matches(docs[id].title.value)
    // and every stored record whose title matches is an entry
    ensures forall id :: id in docs && docs[id].title.Some? && matches(docs[id].title.value) ==> id in m
  {
    map id | id in docs && docs[id].title.Some? && matches(docs[id].title.value) :: docs[id]
  }

  /** The Metaphore collection and the handlers that read and change it. */
  class Metaphores {
    var docs: map<Id, Record>
    var nextId: Id

    /** Every stored id was handed out before nextId, so nextId is fresh. */
    ghost predicate Valid()
      reads this
    {
      forall id :: id in docs ==> id < nextId
    }

    constructor ()
      ensures Valid() && docs == map[]
    {
      docs, nextId := map[], 0;
    }

    /** POST /: save a record built from the body's four fields and answer
        201 with it; a cast or validation failure (a missing title) answers
        400 and stores nothing. */
    method Create(body: Json) returns (resp: Response<Payload>)
      requires Valid() && !body.Nullish()
      modifies this
      ensures Valid()
      ensures RecordFrom(body).Ok? ==>
                && old(nextId) !in old(docs)
                && docs == old(docs)[old(nextId) := RecordFrom(body).value]
                && resp == Response(201, Created(Document(old(nextId), RecordFrom(body).value)))
      ensures RecordFrom(body).Err? ==> docs == old(docs) && resp == Response(400, Thrown)
    {
      var r := RecordFrom(body);
      if r.Err? {
        return Response(400, Thrown);
      }
      var id := nextId;
      docs := docs[id := r.value];
      nextId := nextId + 1;
      resp := Response(201, Created(Document(id, r.value)));
    }

    /** GET /search: a `q` that is not a string (missing, repeated, nested)
        is refused before any query; otherwise the answer is the documents
        whose title matches `q` as a case-insensitive regex. `regex(q)` is
        that regex, or None when MongoDB refuses the pattern. */
    method Search(q: Json, regex: string -> Option<string -> bool>) returns (resp: Response<Payload>)
      ensures !q.Str? ==> resp == Response(400, Error(RegexMustBeString))
      ensures q.Str? && regex(q.s).None? ==> resp == Response(400, Thrown)
      ensures q.Str? && regex(q.s).Some? ==>
                && resp.status == 200 && resp.body.Listing?
                && (forall id :: id in resp.body.all <==>
                      id in docs && docs[id].title.Some? && regex(q.s).value(docs[id].title.value))
                && (forall id :: id in resp.body.all ==> resp.body.all[id] == docs[id])
    {
      if !q.Str? {
        return Response(400, Error(RegexMustBeString));
      }
      var compiled := regex(q.s);
      if compiled.None? {
        return Response(400, Thrown);
      }
      resp := Response(200, Listing(Matching(docs, compiled.value)));
    }

    /** GET /:id: the document with that id, or null when there is none. */
    method GetById(p: IdParam) returns (resp: Response<Payload>)
      ensures p.NotObjectId? ==> resp == Response(400, Thrown)
      ensures p.ObjectId? && p.id in docs ==> resp == Response(200, Found(Some(Document(p.id, docs[p.id]))))
      ensures p.ObjectId? && p.id !in docs ==> resp == Response(200, Found(None))
    {
      if p.NotObjectId? {
        return Response(400, Thrown);
      }
      if p.id in docs {
        resp := Response(200, Found(Some(Document(p.id, docs[p.id]))));
      } else {
        resp := Response(200, Found(None));
      }
    }

    /** GET /: every document. */
    method List() returns (resp: Response<Payload>)
      ensures resp == Response(200, Listing(docs))
    {
      resp := Response(200, Listing(docs));
    }

    /** `findOneAndUpdate({_id}, update, {new: true})` answered with `res.json`:
        the filter and the update are cast first (a failure answers 400 and
        changes nothing); then the record with that id, if any, gets the
        update and is sent back as it is after it; with no such record the
        answer is null and nothing changes. */
    method FindOneAndUpdate(p: IdParam, update: map<string, Json>) returns (resp: Response<Payload>)
      requires Valid()
      modifies this
      ensures Valid() && nextId == old(nextId) && docs.Keys == old(docs).Keys
      ensures p.NotObjectId? || CastUpdate(update).Err? ==> docs == old(docs) && resp == Response(400, Thrown)
      ensures p.ObjectId? && CastUpdate(update).Ok? && p.id in old(docs) ==>
                && docs == old(docs)[p.id := Apply(old(docs)[p.id], CastUpdate(update).value)]
                && resp == Response(200, Found(Some(Document(p.id, docs[p.id]))))
      ensures p.ObjectId? && CastUpdate(update).Ok? && p.id !in old(docs) ==>
                docs == old(docs) && resp == Response(200, Found(None))
    {
      var u := CastUpdate(update);
      if p.NotObjectId? || u.Err? {
        return Response(400, Thrown);
      }
      if p.id !in docs {
        return Response(200, Found(None));
      }
      docs := docs[p.id := Apply(docs[p.id], u.value)];
      resp := Response(200, Found(Some(Document(p.id, docs[p.id]))));
    }

    /** PATCH /:id/visibility: set only `visible`, to the body's value, on the
        record with that id and answer with the record after the change;
        an absent value changes nothing, one that does not cast answers 400. */
    method PatchVisibility(p: IdParam, body: Json) returns (resp: Response<Payload>)
      requires Valid() && !body.Nullish()
      modifies this
      ensures Valid() && nextId == old(nextId)
      ensures var v := body.Prop("visible");
        && (p.NotObjectId? || (!v.Undefined? && CastBoolean(v).Err?) ==>
              docs == old(docs) && resp == Response(400, Thrown))
        && (p.ObjectId? && (v.Undefined? || CastBoolean(v).Ok?) && p.id in old(docs) ==>
              && docs == old(docs)[p.id := if v.Undefined? then old(docs)[p.id]
                                           else old(docs)[p.id].(visible := CastBoolean(v).value)]
              && resp == Response(200, Found(Some(Document(p.id, docs[p.id])))))
        && (p.ObjectId? && (v.Undefined? || CastBoolean(v).Ok?) && p.id !in old(docs) ==>
              docs == old(docs) && resp == Response(200, Found(None)))
    {
      var v := body.Prop("visible");
      if p.ObjectId? && p.id in docs {
        VisibleUpdate(docs[p.id], v);
      } else {
        VisibleUpdate(Record(None, None, None, None), v);
      }
      resp := FindOneAndUpdate(p, map["visible" := v]);
    }

    /** PATCH /:id/downloadable: the same for `downloadable`. */
    method PatchDownloadable(p: IdParam, body: Json) returns (resp: Response<Payload>)
      requires Valid() && !body.Nullish()
      modifies this
      ensures Valid() && nextId == old(nextId)
      ensures var v := body.Prop("downloadable");
        && (p.NotObjectId? || (!v.Undefined? && CastBoolean(v).Err?) ==>
              docs == old(docs) && resp == Response(400, Thrown))
        && (p.ObjectId? && (v.Undefined? || CastBoolean(v).Ok?) && p.id in old(docs) ==>
              && docs == old(docs)[p.id := if v.Undefined? then old(docs)[p.id]
                                           else old(docs)[p.id].(downloadable := CastBoolean(v).value)]
              && resp == Response(200, Found(Some(Document(p.id, docs[p.id])))))
        && (p.ObjectId? && (v.Undefined? || CastBoolean(v).Ok?) && p.id !in old(docs) ==>
              docs == old(docs) && resp == Response(200, Found(None)))
    {
      var v := body.Prop("downloadable");
      if p.ObjectId? && p.id in docs {
        DownloadableUpdate(docs[p.id], v);
      } else {
        DownloadableUpdate(Record(None, None, None, None), v);
      }
      resp := FindOneAndUpdate(p, map["downloadable" := v]);
    }

    /** PUT /:id: apply the body as an update of the record with that id. */
    method Put(p: IdParam, fields: map<string, Json>) returns (resp: Response<Payload>)
      requires Valid()
      modifies this
      ensures Valid() && nextId == old(nextId)
      ensures p.NotObjectId? || CastUpdate(fields).Err? ==> docs == old(docs) && resp == Response(400, Thrown)
      ensures p.ObjectId? && CastUpdate(fields).Ok? && p.id in old(docs) ==>
                && docs == old(docs)[p.id := Apply(old(docs)[p.id], CastUpdate(fields).value)]
                && resp == Response(200, Found(Some(Document(p.id, docs[p.id]))))
      ensures p.ObjectId? && CastUpdate(fields).Ok? && p.id !in old(docs) ==>
                docs == old(docs) && resp == Response(200, Found(None))
    {
      resp := FindOneAndUpdate(p, fields);
    }

    /** POST /bulk: insert every element with a truthy title and content,
        under fresh ids and in input order, and answer 201 with them; every
        refusal of PlanBulk answers as planned and inserts nothing. */
    method Bulk(body: Json) returns (resp: Response<Payload>)
      requires Valid()
      modifies this
      ensures Valid()
      ensures PlanBulk(body).Refuse? ==>
                docs == old(docs) && resp == Response(PlanBulk(body).status, PlanBulk(body).reply)
      ensures PlanBulk(body).InsertAll? ==>
                var recs := PlanBulk(body).records;
                && old(docs).Keys !! Placed(recs, old(nextId)).Keys
                && docs == old(docs) + Placed(recs, old(nextId))
                && resp == Response(201, Inserted(Numbered(recs, old(nextId))))
    {
      var plan := PlanBulk(body);
      if plan.Refuse? {
        return Response(plan.status, plan.reply);
      }
      var start := nextId;
      docs := docs + Placed(plan.records, start);
      nextId := nextId + |plan.records|;
      resp := Response(201, Inserted(Numbered(plan.records, start)));
    }

    /** DELETE /:id: 404 when no record has that id; otherwise remove exactly
        that record. An id that is not an ObjectId makes `findById` throw,
        which this handler answers with 500. */
    method Delete(p: IdParam) returns (resp: Response<Payload>)
      requires Valid()
      modifies this
      ensures Valid() && nextId == old(nextId)
      ensures p.NotObjectId? ==> docs == old(docs) && resp == Response(500, DeleteFailed)
      ensures p.ObjectId? && p.id !in old(docs) ==> docs == old(docs) && resp == Response(404, Message(TaskNotFound))
      ensures p.ObjectId? && p.id in old(docs) ==> docs == old(docs) - {p.id} && resp == Response(200, Message(TaskDeleted))
    {
      if p.NotObjectId? {
        return Response(500, DeleteFailed);
      }
      if p.id !in docs {
        return Response(404, Message(TaskNotFound));
      }
      docs := docs - {p.id};
      resp := Response(200, Message(TaskDeleted));
    }

    /** A request through its route: the guards run first, and a refusal
        leaves the collection untouched; only when every guard passes does the
        handler run. */
    method Handle(req: Request, passes: Guard -> bool, regex: string -> Option<string -> bool>)
      returns (out: Outcome)
      requires Valid() && BodyParsed(req)
      modifies this
      ensures Valid()
      ensures Refusal(Guards(RouteOf(req)), passes).Some? ==>
                out == Blocked(Refusal(Guards(RouteOf(req)), passes).value)
                && docs == old(docs) && nextId == old(nextId)
      ensures Refusal(Guards(RouteOf(req)), passes).None? <==> out.Handled?
      ensures req.SearchReq? || req.GetByIdReq? || req.ListReq? ==> docs == old(docs)
    {
      var refused := Refusal(Guards(RouteOf(req)), passes);
      if refused.Some? {
        return Blocked(refused.value);
      }
      var resp;
      match req {
        case CreateReq(body) => resp := Create(body);
        case SearchReq(q) => resp := Search(q, regex);
        case GetByIdReq(p) => resp := GetById(p);
        case VisibilityReq(p, body) => resp := PatchVisibility(p, body);
        case DownloadableReq(p, body) => resp := PatchDownloadable(p, body);
        case BulkReq(body) => resp := Bulk(body);
        case ListReq => resp := List();
        case PutReq(p, fields) => resp := Put(p, fields);
        case DeleteReq(p) => resp := Delete(p);
      }
      out := Handled(resp);
    }
  }

  /** Creating a record with a title and content and reading it back by id
      gives those values with visible true and downloadable false. */
  method CreateThenGet(c: Metaphores, t: string, content: string) returns (got: Response<Payload>)
    requires c.Valid() && t != []
    modifies c
    ensures got == Response(200, Found(Some(Document(old(c.nextId), Record(Some(t), Some(content), Some(true), Some(false))))))
  {
    var body := Obj(map["title" := Str(t), "content" := Str(content)]);
    CreatedWithDefaults(t, content);
    var created := c.Create(body);
    got := c.GetById(ObjectId(created.body.doc.id));
  }

  /** A delete by a caller the admin check refuses never reaches the store. */
  method DeleteByNonAdmin(c: Metaphores, p: IdParam, passes: Guard -> bool) returns (out: Outcome)
    requires c.Valid() && passes(Authenticated) && !passes(AdminOnly)
    modifies c
    ensures out == Blocked(AdminOnly) && c.docs == old(c.docs)
  {
    out := c.Handle(DeleteReq(p), passes, _ => None);
  }
}
