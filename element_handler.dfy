/** The ElementHandler of handlers/element_handler.go. A request is reduced to
    the facts the handler looks at: the method, the URL path and the decoded
    body (None when JSON decoding fails). Dispatch decides, without touching
    the store, either the response or the one service call to make; the
    response functions map the call's outcome to a status and a body. The
    service layer only forwards to the repository, so the calls go straight
    to the repository model. */
module ElementHandler {
  import opened Models
  import opened Strconv
  import opened ElementTable
  import opened ElementRepository

  const MethodGet := "GET"
  const MethodPost := "POST"
  const MethodPut := "PUT"
  const MethodDelete := "DELETE"

  /** The path prefix HandleElementByID strips before reading the id. */
  const ElementPrefix := "/api/elements/"

  const StatusOK := 200
  const StatusCreated := 201
  const StatusBadRequest := 400
  const StatusNotFound := 404
  const StatusMethodNotAllowed := 405
  const StatusInternalServerError := 500

  /** The content type http.Error sets, and the one the handlers set on success. */
  const TextContent := "text/plain; charset=utf-8"
  const JsonContent := "application/json"

  datatype Request = Request(httpMethod: string, path: string, body: Option<Element>)

  /** What is written as the response body. */
  datatype Body =
    | Text(message: string)               // http.Error's message
    | ElementList(items: seq<Element>)    // a JSON array of elements
    | OneElement(element: Element)
    | OneDetail(detail: ElementDetail)
    | Confirmation(message: string)       // {"message": …}

  datatype Response = Response(status: int, contentType: string, body: Body)

  /** http.Error(w, message, status). */
  function Error(message: string, status: int): Response
  {
    Response(status, TextContent, Text(message))
  }

  /** Content-Type set to JSON, then the status (200 unless written), then the encoded body. */
  function Json(status: int, body: Body): Response
  {
    Response(status, JsonContent, body)
  }

  /** The two patterns the handler is registered under: the collection
      `/api/elements` and the subtree `/api/elements/`. */
  datatype Route = Elements | ElementByID

  /** Either a response decided before any store access, or the one
      repository call the handler makes. */
  datatype Action =
    | Reply(response: Response)
    | CallGetAll
    | CallGetByID(id: int)
    | CallCreate(element: Element)
    | CallUpdate(element: Element)
    | CallDelete(id: int)

  /** The id in the path: what follows `/api/elements/`, read by strconv.Atoi. */
  function PathID(path: string): (id: Option<int>)
    ensures id.Some? ==> MinInt64 <= id.value <= MaxInt64
    ensures path == ElementPrefix ==> id.None?
  {
    Atoi(TrimPrefix(path, ElementPrefix))
  }

  /** HandleElements: GET lists, POST creates after decoding the body. */
  function HandleElements(req: Request): (a: Action)
    ensures a.CallGetAll? || a.CallCreate? || a.Reply?
    ensures a.Reply? ==> a.response.status in {StatusBadRequest, StatusMethodNotAllowed}
                         && a.response.contentType == TextContent
    ensures a.CallCreate? ==> req.body == Some(a.element)
  {
    if req.httpMethod == MethodGet then CallGetAll
    else if req.httpMethod == MethodPost then
      if req.body.None? then Reply(Error("Invalid request body", StatusBadRequest))
      else CallCreate(req.body.value)
    else Reply(Error("Method not allowed", StatusMethodNotAllowed))
  }

  /** HandleElementByID: GET, PUT and DELETE each read the id from the path
      first; PUT then decodes the body and overwrites its id with the path's. */
  function HandleElementByID(req: Request): (a: Action)
    ensures a.CallGetByID? || a.CallUpdate? || a.CallDelete? || a.Reply?
    ensures a.Reply? ==> a.response.status in {StatusBadRequest, StatusMethodNotAllowed}
                         && a.response.contentType == TextContent
    ensures a.CallGetByID? ==> PathID(req.path) == Some(a.id)
    ensures a.CallDelete? ==> PathID(req.path) == Some(a.id)
    ensures a.CallUpdate? ==> PathID(req.path) == Some(a.element.id) && req.body.Some?
  {
    if req.httpMethod == MethodGet || req.httpMethod == MethodPut || req.httpMethod == MethodDelete then
      var id := PathID(req.path);
      if id.None? then Reply(Error("Invalid element ID", StatusBadRequest))
      else if req.httpMethod == MethodGet then CallGetByID(id.value)
      else if req.httpMethod == MethodDelete then CallDelete(id.value)
      else if req.body.None? then Reply(Error("Invalid request body", StatusBadRequest))
      else CallUpdate(req.body.value.(id := id.value))
    else Reply(Error("Method not allowed", StatusMethodNotAllowed))
  }

  function Dispatch(route: Route, req: Request): (a: Action)
    ensures route == Elements ==> a.CallGetAll? || a.CallCreate? || a.Reply?
    ensures route == ElementByID ==> a.CallGetByID? || a.CallUpdate? || a.CallDelete? || a.Reply?
  {
    match route
    case Elements => HandleElements(req)
    case ElementByID => HandleElementByID(req)
  }

  // The handlers' mapping from a repository outcome to a response.

  function GetAllResponse(r: Result<seq<Element>>): (resp: Response)
    ensures resp.status == StatusInternalServerError <==> r.Err?
    ensures r.Err? ==> resp.body == Text(Message(r.error))
    ensures r.Ok? ==> resp.status == StatusOK && resp.body == ElementList(r.value)
  {
    if r.Err? then Error(Message(r.error), StatusInternalServerError)
    else Json(StatusOK, ElementList(r.value))
  }

  function CreateResponse(written: Element, err: Option<RepoError>): (resp: Response)
    ensures resp.status == StatusBadRequest <==> err.Some?
    ensures err.Some? ==> resp.body == Text(Message(err.value))
    ensures err.None? ==> resp.status == StatusCreated && resp.body == OneElement(written)
  {
    if err.Some? then Error(Message(err.value), StatusBadRequest)
    else Json(StatusCreated, OneElement(written))
  }

  function GetByIDResponse(r: Result<ElementDetail>): (resp: Response)
    ensures resp.status == StatusNotFound <==> r.Err?
    ensures r.Err? ==> resp.body == Text(Message(r.error))
    ensures r.Ok? ==> resp.status == StatusOK && resp.body == OneDetail(r.value)
  {
    if r.Err? then Error(Message(r.error), StatusNotFound)
    else Json(StatusOK, OneDetail(r.value))
  }

  function UpdateResponse(sent: Element, err: Option<RepoError>): (resp: Response)
    ensures resp.status == StatusBadRequest <==> err.Some?
    ensures err.Some? ==> resp.body == Text(Message(err.value))
    ensures err.None? ==> resp.status == StatusOK && resp.body == OneElement(sent)
  {
    if err.Some? then Error(Message(err.value), StatusBadRequest)
    else Json(StatusOK, OneElement(sent))
  }

  function DeleteResponse(err: Option<RepoError>): (resp: Response)
    ensures resp.status == StatusInternalServerError <==> err.Some?
    ensures err.Some? ==> resp.body == Text(Message(err.value))
    ensures err.None? ==> resp.status == StatusOK && resp.body == Confirmation("Element deleted successfully")
  {
    if err.Some? then Error(Message(err.value), StatusInternalServerError)
    else Json(StatusOK, Confirmation("Element deleted successfully"))
  }

  /** An action carried out against the store `db`: the response and the store afterwards. */
  function Perform(db: Db, action: Action, now: Timestamp, fault: Option<string>): (r: (Response, Db))
    ensures action.Reply? ==> r == (action.response, db)
    ensures fault.Some? ==> r.1 == db
    ensures WellFormed(db) ==> WellFormed(r.1)
    ensures action.CallGetAll? || action.CallGetByID? ==> r.1 == db
  {
    match action
    case Reply(resp) => (resp, db)
    case CallGetAll =>
      (GetAllResponse(if fault.Some? then Err(StoreFailure(fault.value)) else Ok(Rows(db))), db)
    case CallGetByID(id) =>
      (GetByIDResponse(if fault.Some? then Err(StoreFailure(fault.value)) else Lookup(db, id)), db)
    case CallCreate(e) =>
      if fault.Some? then (CreateResponse(e, Some(StoreFailure(fault.value))), db)
      else
        var (db', row) := Insert(db, e, now);
        (CreateResponse(row, None), db')
    case CallUpdate(e) =>
      if fault.Some? then (UpdateResponse(e, Some(StoreFailure(fault.value))), db)
      else if Replace(db, e).Err? then (UpdateResponse(e, Some(Replace(db, e).error)), db)
      else (UpdateResponse(e, None), Replace(db, e).value)
    case CallDelete(id) =>
      if fault.Some? then (DeleteResponse(Some(StoreFailure(fault.value))), db)
      else if Remove(db, id).Err? then (DeleteResponse(Some(Remove(db, id).error)), db)
      else (DeleteResponse(None), Remove(db, id).value)
  }

  /** One request on `route` against the store `db`. */
  function Serve(db: Db, route: Route, req: Request, now: Timestamp, fault: Option<string>): (r: (Response, Db))
    ensures fault.Some? ==> r.1 == db
    ensures WellFormed(db) ==> WellFormed(r.1)
    ensures Dispatch(route, req).Reply? ==> r == (Dispatch(route, req).response, db)
  {
    Perform(db, Dispatch(route, req), now, fault)
  }

  /** The handler as the source runs it: dispatch, one repository call on the
      object, then the response for its outcome. */
  method ServeRequest(repo: ElementRepository, route: Route, req: Request, now: Timestamp, fault: Option<string>)
    returns (resp: Response)
    requires repo.Valid()
    modifies repo
    ensures repo.Valid()
    ensures (resp, repo.State()) == Serve(old(repo.State()), route, req, now, fault)
  {
    var action := Dispatch(route, req);
    match action {
      case Reply(r) =>
        resp := r;
      case CallGetAll =>
        var elements := repo.GetAll(fault);
        resp := GetAllResponse(elements);
      case CallGetByID(id) =>
        var element := repo.GetByID(id, fault);
        resp := GetByIDResponse(element);
      case CallCreate(e) =>
        var written, err := repo.Create(e, now, fault);
        resp := CreateResponse(written, err);
      case CallUpdate(e) =>
        var err := repo.Update(e, fault);
        resp := UpdateResponse(e, err);
      case CallDelete(id) =>
        var err := repo.Delete(id, fault);
        resp := DeleteResponse(err);
    }
  }

  // ---------------------------------------------------------------- dispatch

  /** On `/api/elements`, GET lists, POST with a decodable body creates it,
      POST with an undecodable body is 400, and every other method is 405. */
  lemma CollectionDispatch(req: Request)
    ensures HandleElements(req) == CallGetAll <==> req.httpMethod == MethodGet
    ensures HandleElements(req).CallCreate? <==> req.httpMethod == MethodPost && req.body.Some?
    ensures HandleElements(req).CallCreate? ==> HandleElements(req).element == req.body.value
    ensures req.httpMethod == MethodPost && req.body.None? ==>
      HandleElements(req) == Reply(Error("Invalid request body", StatusBadRequest))
    ensures req.httpMethod != MethodGet && req.httpMethod != MethodPost <==>
      HandleElements(req) == Reply(Error("Method not allowed", StatusMethodNotAllowed))
  {
  }

  /** On `/api/elements/…`, a method other than GET, PUT or DELETE is 405;
      for those three, a suffix that is not an integer (the empty one
      included) is 400 "Invalid element ID" before the body is looked at, so
      no repository call is made. */
  lemma ByIDDispatch(req: Request)
    ensures req.httpMethod !in {MethodGet, MethodPut, MethodDelete} <==>
      HandleElementByID(req) == Reply(Error("Method not allowed", StatusMethodNotAllowed))
    ensures req.httpMethod in {MethodGet, MethodPut, MethodDelete} && PathID(req.path).None? ==>
      HandleElementByID(req) == Reply(Error("Invalid element ID", StatusBadRequest))
    ensures req.httpMethod in {MethodGet, MethodPut, MethodDelete} && TrimPrefix(req.path, ElementPrefix) == "" ==>
      HandleElementByID(req) == Reply(Error("Invalid element ID", StatusBadRequest))
    ensures HandleElementByID(req).CallGetByID? <==> req.httpMethod == MethodGet && PathID(req.path).Some?
    ensures HandleElementByID(req).CallDelete? <==> req.httpMethod == MethodDelete && PathID(req.path).Some?
    ensures HandleElementByID(req).CallUpdate? <==>
      req.httpMethod == MethodPut && PathID(req.path).Some? && req.body.Some?
  {
  }

  /** PUT sends the decoded body with its id replaced by the path's id, so
      the path id wins over whatever id the body carried. */
  lemma UpdateTakesPathID(req: Request, id: int)
    requires req.httpMethod == MethodPut && PathID(req.path) == Some(id) && req.body.Some?
    ensures HandleElementByID(req) == CallUpdate(req.body.value.(id := id))
    ensures HandleElementByID(req).element.id == id
  {
  }

  // ---------------------------------------------------------------- whole requests

  /** A request the handler answers on its own (405, or 400 for a bad id or
      body) never reaches the store. */
  lemma RejectedBeforeStore(db: Db, route: Route, req: Request, now: Timestamp, fault: Option<string>)
    requires Dispatch(route, req).Reply?
    ensures Serve(db, route, req, now, fault).1 == db
    ensures Serve(db, route, req, now, fault).0.status in {StatusBadRequest, StatusMethodNotAllowed}
  {
  }

  /** Every request leaves a well-formed store well formed; a request whose
      response is not 200 or 201 leaves the store exactly as it was; a GET
      never changes it; every status is one of 200, 201, 400, 404, 405, 500;
      and the body is JSON exactly on success. */
  lemma ServeInvariants(db: Db, route: Route, req: Request, now: Timestamp, fault: Option<string>)
    requires WellFormed(db)
    ensures var (resp, db') := Serve(db, route, req, now, fault);
      && WellFormed(db')
      && (resp.status !in {StatusOK, StatusCreated} ==> db' == db)
      && (req.httpMethod == MethodGet ==> db' == db)
      && resp.status in {StatusOK, StatusCreated, StatusBadRequest, StatusNotFound, StatusMethodNotAllowed, StatusInternalServerError}
      && (resp.contentType == JsonContent <==> resp.status in {StatusOK, StatusCreated})
  {
    var action := Dispatch(route, req);
    match action {
      case Reply(_) =>
      case CallGetAll =>
      case CallGetByID(_) =>
      case CallCreate(e) => InsertAddsOneFreshRow(db, e, now);
      case CallUpdate(e) => ReplaceMeaning(db, e);
      case CallDelete(id) => RemoveMeaning(db, id);
    }
  }

  /** GET /api/elements: 500 with the driver's text when the store fails,
      otherwise 200 and the whole table in ascending id order. */
  lemma ListStatus(db: Db, req: Request, now: Timestamp, fault: Option<string>)
    requires WellFormed(db) && req.httpMethod == MethodGet
    ensures var resp := Serve(db, Elements, req, now, fault).0;
      && (fault.Some? ==> resp == Error(fault.value, StatusInternalServerError))
      && (fault.None? ==> resp.status == StatusOK && resp.body.ElementList?
                          && ListsInIdOrder(resp.body.items, db.elements))
  {
    RowsAreTheTableInIdOrder(db);
  }

  /** POST /api/elements with a decodable body: 400 with the driver's text
      when the store fails, otherwise 201 with the element as stored, carrying
      an id no row had before. */
  lemma CreateStatus(db: Db, req: Request, now: Timestamp, fault: Option<string>)
    requires WellFormed(db) && req.httpMethod == MethodPost && req.body.Some?
    ensures var (resp, db') := Serve(db, Elements, req, now, fault);
      && (fault.Some? ==> resp == Error(fault.value, StatusBadRequest) && db' == db)
      && (fault.None? ==>
            && resp.status == StatusCreated && resp.body.OneElement?
            && resp.body.element.id !in db.elements
            && resp.body.element == req.body.value.(id := resp.body.element.id, createdAt := now)
            && db'.elements == db.elements[resp.body.element.id := resp.body.element])
  {
    InsertAddsOneFreshRow(db, req.body.value, now);
  }

  /** GET /api/elements/{id}: 200 with the joined detail when the element and
      its category exist, and 404 carrying the error text for every failure:
      "element not found" for an absent id, the scan error for a missing
      category, the driver's text for a store failure. */
  lemma GetByIDStatus(db: Db, req: Request, id: int, now: Timestamp, fault: Option<string>)
    requires WellFormed(db) && req.httpMethod == MethodGet && PathID(req.path) == Some(id)
    ensures var (resp, db') := Serve(db, ElementByID, req, now, fault);
      && db' == db
      && (resp.status == StatusOK <==>
            fault.None? && id in db.elements && db.elements[id].categoryId in db.categories)
      && (resp.status != StatusOK ==> resp.status == StatusNotFound)
      && (fault.None? && id !in db.elements ==> resp == Error("element not found", StatusNotFound))
      && (fault.Some? ==> resp == Error(fault.value, StatusNotFound))
      && (fault.None? && id in db.elements && db.elements[id].categoryId !in db.categories ==>
            resp == Error(Message(NullCategoryName), StatusNotFound))
      && (resp.status == StatusOK ==>
            resp.body == OneDetail(Joined(db.elements[id], db.categories[db.elements[id].categoryId].name)))
  {
    LookupMeaning(db, id);
  }

  /** PUT /api/elements/{id} with a decodable body: an absent id is 400
      "element not found" (not 404) and a store failure 400 too, both with the
      store unchanged; otherwise 200 echoing the body with the path id, and
      the row's five mutable columns replaced. */
  lemma UpdateStatus(db: Db, req: Request, id: int, now: Timestamp, fault: Option<string>)
    requires WellFormed(db) && req.httpMethod == MethodPut && PathID(req.path) == Some(id) && req.body.Some?
    ensures var (resp, db') := Serve(db, ElementByID, req, now, fault);
      var sent := req.body.value.(id := id);
      && (fault.None? && id !in db.elements ==> resp == Error("element not found", StatusBadRequest) && db' == db)
      && (fault.Some? ==> resp == Error(fault.value, StatusBadRequest) && db' == db)
      && (fault.None? && id in db.elements ==>
            resp == Json(StatusOK, OneElement(sent)) && Replace(db, sent) == Ok(db'))
  {
  }

  /** DELETE /api/elements/{id}: an absent id is 500 "element not found" and a
      store failure 500 too, both with the store unchanged; otherwise 200 with
      the confirmation and exactly that row gone. */
  lemma DeleteStatus(db: Db, req: Request, id: int, now: Timestamp, fault: Option<string>)
    requires WellFormed(db) && req.httpMethod == MethodDelete && PathID(req.path) == Some(id)
    ensures var (resp, db') := Serve(db, ElementByID, req, now, fault);
      && (fault.None? && id !in db.elements ==> resp == Error("element not found", StatusInternalServerError) && db' == db)
      && (fault.Some? ==> resp == Error(fault.value, StatusInternalServerError) && db' == db)
      && (fault.None? && id in db.elements ==>
            resp == Json(StatusOK, Confirmation("Element deleted successfully"))
            && db'.elements == db.elements - {id})
  {
  }

  // ---------------------------------------------------------------- scenarios

  /** The path a client uses for an element id. */
  function ElementPath(id: int): string
  {
    ElementPrefix + FormatInt(id)
  }

  lemma PathIDOfElementPath(id: int)
    requires MinInt64 <= id <= MaxInt64
    ensures PathID(ElementPath(id)) == Some(id)
  {
    assert TrimPrefix(ElementPath(id), ElementPrefix) == FormatInt(id);
    AtoiFormatInt(id);
  }

  /** POST /api/elements, then GET on the path of the returned id, reads back
      what was created with its category's name (while ids stay within 64 bits). */
  lemma CreateThenGet(db: Db, payload: Element, now: Timestamp, later: Timestamp, body: Option<Element>)
    requires WellFormed(db) && MinInt64 <= db.nextId <= MaxInt64
    requires payload.categoryId in db.categories
    ensures var (created, db1) := Serve(db, Elements, Request(MethodPost, "/api/elements", Some(payload)), now, None);
      && created.status == StatusCreated && created.body.OneElement?
      && var row := created.body.element;
         Serve(db1, ElementByID, Request(MethodGet, ElementPath(row.id), body), later, None)
           == (Json(StatusOK, OneDetail(Joined(row, db.categories[payload.categoryId].name))), db1)
  {
    PathIDOfElementPath(db.nextId);
    LookupAfterInsert(db, payload, now);
  }

  /** DELETE on an element's path, then GET on the same path: the first
      succeeds, the second is 404 "element not found". */
  lemma DeleteThenGet(db: Db, id: int, now: Timestamp, b1: Option<Element>, b2: Option<Element>)
    requires WellFormed(db) && id in db.elements && MinInt64 <= id <= MaxInt64
    ensures var (deleted, db1) := Serve(db, ElementByID, Request(MethodDelete, ElementPath(id), b1), now, None);
      && deleted.status == StatusOK
      && Serve(db1, ElementByID, Request(MethodGet, ElementPath(id), b2), now, None)
           == (Error("element not found", StatusNotFound), db1)
  {
    PathIDOfElementPath(id);
    var del := Request(MethodDelete, ElementPath(id), b1);
    assert Dispatch(ElementByID, del) == CallDelete(id);
    var db1 := Remove(db, id).value;
    assert Serve(db, ElementByID, del, now, None) == (DeleteResponse(None), db1);
    LookupAfterRemove(db, id);
    var get := Request(MethodGet, ElementPath(id), b2);
    assert Dispatch(ElementByID, get) == CallGetByID(id);
    assert Serve(db1, ElementByID, get, now, None) == (GetByIDResponse(Err(NotFound)), db1);
  }

  /** The same PUT twice gives the same response and the same store as once. */
  lemma UpdateTwice(db: Db, req: Request, now: Timestamp)
    requires WellFormed(db) && req.httpMethod == MethodPut
    ensures var (r1, db1) := Serve(db, ElementByID, req, now, None);
      Serve(db1, ElementByID, req, now, None) == (r1, db1)
  {
    var action := HandleElementByID(req);
    if action.CallUpdate? && Replace(db, action.element).Ok? {
      ReplaceIdempotent(db, action.element);
    }
  }

  /** GET /api/elements/abc is 400 "Invalid element ID". */
  lemma NonNumericID(db: Db, now: Timestamp, fault: Option<string>, body: Option<Element>)
    ensures Serve(db, ElementByID, Request(MethodGet, "/api/elements/abc", body), now, fault)
      == (Error("Invalid element ID", StatusBadRequest), db)
  {
    assert TrimPrefix("/api/elements/abc", ElementPrefix) == "abc";
    assert !IsDigit('a');
  }
}
