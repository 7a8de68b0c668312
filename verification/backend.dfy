/** The route handlers of the backend service: the greeting, the placeholder
    API, the star insert with read-back, and the three routes that answer a
    planned status. Each handler is a function from the parsed request (and,
    for `/star`, the collection) to a reply. */
module Backend {
  import opened Wrappers
  import opened JsonValues
  import opened StarStore

  datatype Body = Text(text: string) | JsonBody(json: Json)

  datatype Response = Response(body: Body, status: nat)

  /** The exceptions that escape `add_star`. */
  datatype StarError =
    | BodyNotObject                   // the request body is not a JSON object
    | MissingField(key: string)       // the request lacks `name` or `distance`
    | NotFound                        // the read-back found no document
    | StoredFieldMissing(key: string) // the document read back lacks a field

  /** The calls `add_star` makes on the collection, in order. */
  datatype StoreCall = InsertCall(doc: Doc) | FindCall(id: Id)

  /** What `add_star` leaves behind: its outcome, the collection after it,
      and the calls it made on the collection. */
  datatype StarResult = StarResult(outcome: Result<Json, StarError>, store: Store, calls: seq<StoreCall>)

  /** The request carries both fields the handler reads. */
  predicate HasStarFields(request: Json) {
    request.JObject? && "name" in request.fields && "distance" in request.fields
  }

  /** The document inserted for a star: its name and distance, nothing else. */
  function StarDoc(name: Json, distance: Json): Doc {
    map["name" := name, "distance" := distance]
  }

  /** The reply body of a successful insert. */
  function StarReply(name: Json, distance: Json): Json {
    JObject(map["result" := JObject(map["name" := name, "distance" := distance])])
  }

  /** The read-back of the inserted document: the lookup may find nothing
      (subscripting the absent document raises), and the fields are read
      name first. */
  function ReadBack(found: Option<Doc>): (r: Result<Json, StarError>)
    ensures r.Ok? <==> found.Some? && "name" in found.value && "distance" in found.value
    ensures found.None? ==> r == Err(NotFound)
    ensures r.Ok? ==> r == Ok(StarReply(found.value["name"], found.value["distance"]))
  {
    match found
    case None => Err(NotFound)
    case Some(d) =>
      if "name" !in d then Err(StoredFieldMissing("name"))
      else if "distance" !in d then Err(StoredFieldMissing("distance"))
      else Ok(StarReply(d["name"], d["distance"]))
  }

  /** `add_star`: read `name` then `distance` from the request, insert a
      document holding just those two, look it up by the identifier the
      insert returned, and answer with the two fields read back. */
  function AddStar(st: Store, request: Json): (r: StarResult)
    // a request without both fields fails before touching the collection
    ensures r.calls == [] <==> !HasStarFields(request)
    ensures !HasStarFields(request) ==> r.store == st && r.outcome.Err?
    ensures request.JObject? && "name" !in request.fields ==> r.outcome == Err(MissingField("name"))
    // otherwise: exactly one insert of the two fields, then one lookup by the returned id
    ensures HasStarFields(request) ==>
      var doc := StarDoc(request.fields["name"], request.fields["distance"]);
      && r.calls == [InsertCall(doc), FindCall(Insert(st, doc).0)]
      && r.store == Insert(st, doc).1
    ensures forall c :: c in r.calls && c.InsertCall? ==> c.doc.Keys == {"name", "distance"}
    // the collection stays well formed and no stored document changes
    ensures Valid(st) ==> Valid(r.store)
    ensures Valid(st) ==> forall id :: id in st.docs ==> id in r.store.docs && r.store.docs[id] == st.docs[id]
  {
    match request
    case JObject(f) =>
      if "name" !in f then StarResult(Err(MissingField("name")), st, [])
      else if "distance" !in f then StarResult(Err(MissingField("distance")), st, [])
      else
        var doc := StarDoc(f["name"], f["distance"]);
        var (id, st') := Insert(st, doc);
        StarResult(ReadBack(FindOne(st', id)), st', [InsertCall(doc), FindCall(id)])
    case _ => StarResult(Err(BodyNotObject), st, [])
  }

  /** Round trip: on a well-formed collection, a request with both fields is
      answered with exactly the name and distance it sent. */
  lemma StarRoundTrip(st: Store, request: Json)
    requires Valid(st) && HasStarFields(request)
    ensures AddStar(st, request).outcome
            == Ok(StarReply(request.fields["name"], request.fields["distance"]))
  {
    var doc := StarDoc(request.fields["name"], request.fields["distance"]);
    InsertThenFind(st, doc, 0);
  }

  /** Extra request fields are not stored: two requests that agree on name
      and distance insert the same document and get the same answer. */
  lemma ExtraFieldsIgnored(st: Store, a: Json, b: Json)
    requires HasStarFields(a) && HasStarFields(b)
    requires a.fields["name"] == b.fields["name"] && a.fields["distance"] == b.fields["distance"]
    ensures AddStar(st, a) == AddStar(st, b)
  {
  }

  // ---------------------------------------------------------------------------
  // Fixed routes

  /** `/`: the greeting. */
  function Homepage(): Response {
    Response(Text("Hello World"), 200)
  }

  /** `/api`: the placeholder answer. */
  function MyApi(): Response {
    Response(JsonBody(JObject(map["response" := JString("something")])), 200)
  }

  /** `/success-response`. */
  function ClientSuccessPage(): Response {
    Response(Text("Planned 200 response"), 200)
  }

  /** `/client-error`. */
  function ClientErrorPage(): Response {
    Response(Text("Planned 400 error"), 400)
  }

  /** `/server-error`. */
  function ServerErrorPage(): Response {
    Response(Text("Planned 500 error"), 500)
  }

  // ---------------------------------------------------------------------------
  // Routing

  datatype Route = Root | Api | Star | SuccessResponse | ClientError | ServerError

  /** A handler either answers, or an exception escapes it. */
  datatype Reply = Reply(response: Response) | Unhandled(error: StarError)

  /** Runs the handler of `route` on the request and the collection. */
  function Handle(st: Store, route: Route, request: Json): (r: (Reply, Store))
    ensures route != Star ==> r.1 == st && r.0.Reply?
    ensures r.0.Reply? ==> r.0.response.status in {200, 400, 500}
    ensures route == Star ==> (r.0.Reply? <==> AddStar(st, request).outcome.Ok?)
  {
    match route
    case Root => (Reply(Homepage()), st)
    case Api => (Reply(MyApi()), st)
    case SuccessResponse => (Reply(ClientSuccessPage()), st)
    case ClientError => (Reply(ClientErrorPage()), st)
    case ServerError => (Reply(ServerErrorPage()), st)
    case Star =>
      var r := AddStar(st, request);
      match r.outcome
      case Ok(body) => (Reply(Response(JsonBody(body), 200)), r.store)
      case Err(e) => (Unhandled(e), r.store)
  }

  /** The status the client receives: the web framework answers an escaped
      exception with 500. */
  function StatusOf(reply: Reply): nat {
    match reply
    case Reply(resp) => resp.status
    case Unhandled(_) => 500
  }

  /** Every route but `/star` answers the same whatever the request and the
      collection, and leaves the collection alone. */
  lemma FixedRoutesIgnoreRequest(st1: Store, st2: Store, route: Route, req1: Json, req2: Json)
    requires route != Star
    ensures Handle(st1, route, req1).0 == Handle(st2, route, req2).0
    ensures Handle(st1, route, req1).1 == st1
  {
  }

  /** The planned-status routes answer their planned status and text; the
      greeting and the placeholder answer 200. */
  lemma FixedRouteResponses(st: Store, request: Json)
    ensures Handle(st, SuccessResponse, request).0 == Reply(Response(Text("Planned 200 response"), 200))
    ensures Handle(st, ClientError, request).0 == Reply(Response(Text("Planned 400 error"), 400))
    ensures Handle(st, ServerError, request).0 == Reply(Response(Text("Planned 500 error"), 500))
    ensures Handle(st, Root, request).0 == Reply(Response(Text("Hello World"), 200))
    ensures Handle(st, Api, request).0
            == Reply(Response(JsonBody(JObject(map["response" := JString("something")])), 200))
  {
  }

  /** A `/star` request lacking a field reaches the client as 500, not as a
      client error, and writes nothing. */
  lemma MissingFieldIsServerError(st: Store, request: Json)
    requires !HasStarFields(request)
    ensures StatusOf(Handle(st, Star, request).0) == 500
    ensures Handle(st, Star, request).1 == st
  {
  }

  /** A `/star` request with both fields on a well-formed collection is
      answered 200 with the fields it sent, and the collection gains exactly
      that document. */
  lemma StarSucceeds(st: Store, request: Json)
    requires Valid(st) && HasStarFields(request)
    ensures Handle(st, Star, request).0
            == Reply(Response(JsonBody(StarReply(request.fields["name"], request.fields["distance"])), 200))
    ensures |Handle(st, Star, request).1.docs| == |st.docs| + 1
  {
    StarRoundTrip(st, request);
    InsertThenFind(st, StarDoc(request.fields["name"], request.fields["distance"]), 0);
  }
}
