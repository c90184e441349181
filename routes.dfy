/**
 * The four task routes: each validates its input, calls the store and picks
 * the status and body of the answer. `CreateStep` .. `DeleteStep` say what a
 * handler does as a value; the `Handle` methods do it to the store object.
 */
module Routes {
  import opened Wrappers
  import opened Values
  import opened Strings
  import opened Store
  import opened Http

  datatype Handler = CreateTask | ListTasks | UpdateTask | DeleteTask

  /** A route entry; `path` is the template the route pattern is compiled from. */
  datatype Route = Route(verb: string, path: string, handler: Handler)

  /** The routes, in declaration order. */
  const RouteTable: seq<Route> := [
    Route("POST", "/tasks", CreateTask),
    Route("GET", "/tasks", ListTasks),
    Route("PATCH", "/tasks/:id", UpdateTask),
    Route("DELETE", "/tasks/:id", DeleteTask)
  ]

  /** The one table the handlers use. */
  const TaskTable: string := "tasks"

  /** What a handler does: the new store, the answer, whether it persists, and the request body afterwards. */
  datatype Step = Step(tables: Tables, response: Response, persisted: bool, body: Record)

  // ----- POST /tasks -------------------------------------------------------

  /** The POST check: title and description are strings that are not blank once trimmed. */
  predicate CreateValid(body: Record)
  {
    && IsString(Get(body, "title")) && IsString(Get(body, "description"))
    && Trim(body["title"].s) != [] && Trim(body["description"].s) != []
  }

  /** A string holding some character other than whitespace. */
  predicate HasText(v: Option<Value>)
  {
    v.Some? && v.value.Str? && exists i :: 0 <= i < |v.value.s| && !IsWhitespace(v.value.s[i])
  }

  /** POST accepts exactly the bodies whose title and description both hold non-whitespace text. */
  lemma CreateValidIffText(body: Record)
    ensures CreateValid(body) <==> HasText(Get(body, "title")) && HasText(Get(body, "description"))
  {
  }

  /** The record POST stores: the given title and description, the fresh id, not completed, created and updated now. */
  function NewTask(title: string, description: string, id: string, now: int): (t: Record)
    ensures t.Keys == {"id", "title", "description", "created_at", "updated_at", "completed_at"}
    ensures t["id"] == Str(id) && t["title"] == Str(title) && t["description"] == Str(description)
    ensures t["completed_at"] == Null && t["created_at"] == Time(now) && t["updated_at"] == Time(now)
  {
    map["id" := Str(id), "title" := Str(title), "description" := Str(description),
        "created_at" := Time(now), "updated_at" := Time(now), "completed_at" := Null]
  }

  function CreateStep(tables: Tables, body: Record, freshId: string, now: int): (s: Step)
    ensures s.body == body && Consistent(s.response)
    ensures !CreateValid(body) ==> s.response == ValidationFailure() && s.tables == tables && !s.persisted
    ensures CreateValid(body) ==>
      var t := NewTask(body["title"].s, body["description"].s, freshId, now);
      && s.response == Response(201, Task(t)) && s.persisted
      && s.tables == InsertEffect(tables, TaskTable, t).tables
  {
    if !CreateValid(body) then Step(tables, ValidationFailure(), false, body)
    else
      var task := NewTask(body["title"].s, body["description"].s, freshId, now);
      var e := InsertEffect(tables, TaskTable, task);
      Step(e.tables, Response(201, Task(task)), e.persisted, body)
  }

  method HandleCreate(db: Database, req: Request, freshId: string, now: int) returns (res: Response)
    requires db.Valid()
    modifies db
    ensures db.Valid()
    ensures var s := CreateStep(old(db.tables), req.body.fields, freshId, now);
      && res == s.response && db.tables == s.tables
      && db.snapshots == old(db.snapshots) + (if s.persisted then [db.tables] else [])
  {
    var body := req.body.fields;
    if !CreateValid(body) {
      return ValidationFailure();
    }
    var task := NewTask(body["title"].s, body["description"].s, freshId, now);
    var _ := db.Insert(TaskTable, task);
    res := Response(201, Task(task));
  }

  // ----- GET /tasks --------------------------------------------------------

  /** `req.query.search` */
  function SearchOf(query: map<string, string>): (r: Option<string>)
    ensures r.Some? <==> "search" in query
    ensures r.Some? ==> r.value == query["search"]
  {
    if "search" in query then Some(query["search"]) else None
  }

  function ListStep(tables: Tables, body: Record, query: map<string, string>): (s: Step)
    requires SearchDecodes(SearchOf(query))
    ensures s.response.status == 200 && s.response.body == Tasks(SelectFrom(tables, TaskTable, SearchOf(query)))
    ensures s.tables == tables && !s.persisted && s.body == body
  {
    Step(tables, Response(200, Tasks(SelectFrom(tables, TaskTable, SearchOf(query)))), false, body)
  }

  method HandleList(db: Database, req: Request) returns (res: Response)
    requires SearchDecodes(SearchOf(req.query))
    ensures res == ListStep(db.tables, req.body.fields, req.query).response
  {
    var tasks := db.Select(TaskTable, SearchOf(req.query));
    res := Response(200, Tasks(tasks));
  }

  // ----- PATCH /tasks/:id --------------------------------------------------

  /** The PATCH check: a field that is present and truthy must have its type; falsy values of any type pass. */
  predicate PatchValid(body: Record)
  {
    !(|| (Truthy(Get(body, "title")) && !IsString(Get(body, "title")))
      || (Truthy(Get(body, "description")) && !IsString(Get(body, "description")))
      || (Truthy(Get(body, "completed_at")) && !IsBoolean(Get(body, "completed_at"))))
  }

  /** `req.params.id`, `undefined` when the route has no such group. */
  function IdOf(params: map<string, string>): (r: Option<string>)
    ensures r.Some? <==> "id" in params
    ensures r.Some? ==> r.value == params["id"]
  {
    if "id" in params then Some(params["id"]) else None
  }

  function UpdateStep(tables: Tables, body: Record, params: map<string, string>, now: int): (s: Step)
    ensures Consistent(s.response)
    ensures !PatchValid(body) ==> s == Step(tables, ValidationFailure(), false, body)
    ensures PatchValid(body) ==>
      var e := UpdateEffect(tables, TaskTable, IdOf(params), body, now);
      && s.tables == e.tables && s.persisted == e.persisted
      && s.body == CoercedData(tables, TaskTable, body, now)
      && s.response == (if e.result.None? then NotFound() else Response(200, Task(e.result.value)))
  {
    if !PatchValid(body) then Step(tables, ValidationFailure(), false, body)
    else
      var e := UpdateEffect(tables, TaskTable, IdOf(params), body, now);
      var res := match e.result
        case None => NotFound()
        case Some(task) => Response(200, Task(task));
      Step(e.tables, res, e.persisted, CoercedData(tables, TaskTable, body, now))
  }

  method HandleUpdate(db: Database, req: Request, now: int) returns (res: Response)
    requires db.Valid()
    modifies db, req.body
    ensures db.Valid()
    ensures var s := UpdateStep(old(db.tables), old(req.body.fields), req.params, now);
      && res == s.response && db.tables == s.tables && req.body.fields == s.body
      && db.snapshots == old(db.snapshots) + (if s.persisted then [db.tables] else [])
  {
    var data := req.body;
    if !PatchValid(data.fields) {
      return ValidationFailure();
    }
    var updated := db.Update(TaskTable, IdOf(req.params), data, now);
    if updated.None? {
      return NotFound();
    }
    res := Response(200, Task(updated.value));
  }

  // ----- DELETE /tasks/:id -------------------------------------------------

  function DeleteStep(tables: Tables, body: Record, params: map<string, string>): (s: Step)
    ensures Consistent(s.response) && s.body == body
    ensures var e := DeleteEffect(tables, TaskTable, IdOf(params));
      && s.tables == e.tables && s.persisted == e.persisted
      && s.response == (if e.result == Some(true) then Response(204, Empty) else NotFound())
  {
    var e := DeleteEffect(tables, TaskTable, IdOf(params));
    Step(e.tables, if e.result == Some(true) then Response(204, Empty) else NotFound(), e.persisted, body)
  }

  method HandleDelete(db: Database, req: Request) returns (res: Response)
    requires db.Valid()
    modifies db
    ensures db.Valid()
    ensures var s := DeleteStep(old(db.tables), req.body.fields, req.params);
      && res == s.response && db.tables == s.tables
      && db.snapshots == old(db.snapshots) + (if s.persisted then [db.tables] else [])
  {
    var deleted := db.Delete(TaskTable, IdOf(req.params));
    if deleted != Some(true) {
      return NotFound();
    }
    res := Response(204, Empty);
  }

  // ----- any handler -------------------------------------------------------

  /** The handler's step, for whichever handler a route names. */
  function HandlerStep(h: Handler, tables: Tables, body: Record, params: map<string, string>,
                       query: map<string, string>, freshId: string, now: int): (s: Step)
    requires h == ListTasks ==> SearchDecodes(SearchOf(query))
    ensures Consistent(s.response)
    ensures !s.persisted ==> s.tables == tables
    ensures s.response.status in {200, 201, 204, 400, 404}
    ensures s.response.status == 400 ==> s.tables == tables && s.body == body
  {
    match h
    case CreateTask => CreateStep(tables, body, freshId, now)
    case ListTasks => ListStep(tables, body, query)
    case UpdateTask => UpdateStep(tables, body, params, now)
    case DeleteTask => DeleteStep(tables, body, params)
  }

  method Invoke(h: Handler, db: Database, req: Request, freshId: string, now: int) returns (res: Response)
    requires db.Valid()
    requires h == ListTasks ==> SearchDecodes(SearchOf(req.query))
    modifies db, req.body
    ensures db.Valid()
    ensures var s := HandlerStep(h, old(db.tables), old(req.body.fields), req.params, req.query, freshId, now);
      && res == s.response && db.tables == s.tables && req.body.fields == s.body
      && db.snapshots == old(db.snapshots) + (if s.persisted then [db.tables] else [])
  {
    match h
    case CreateTask => res := HandleCreate(db, req, freshId, now);
    case ListTasks => res := HandleList(db, req);
    case UpdateTask => res := HandleUpdate(db, req, now);
    case DeleteTask => res := HandleDelete(db, req);
  }

  // ----- properties across requests ------------------------------------------

  /** A task created by POST is listed last by a GET without search. */
  lemma CreatedTaskIsListed(tables: Tables, body: Record, freshId: string, now: int)
    requires CreateValid(body)
    ensures var c := CreateStep(tables, body, freshId, now);
      ListStep(c.tables, body, map[]).response.body == Tasks(TableOf(tables, TaskTable) + [c.response.body.task])
  {
  }

  /** A new task matches the lower-cased text of its own title. */
  lemma NewTaskMatchesTitle(title: string, description: string, id: string, now: int)
    ensures Matches(NewTask(title, description, id, now), Lower(title))
  {
    var t := NewTask(title, description, id, now);
    assert OccursAt(Lower(Stringify(t["title"])), Lower(title), 0);
    assert t["title"] in t.Values;
  }

  /** A task created by POST is found by a GET that searches for its own title (a title without `%`). */
  lemma CreatedTaskFoundByTitle(tables: Tables, body: Record, freshId: string, now: int)
    requires CreateValid(body)
    requires forall i :: 0 <= i < |body["title"].s| ==> body["title"].s[i] != '%'
    ensures var c := CreateStep(tables, body, freshId, now);
      var query := map["search" := body["title"].s];
      && SearchDecodes(SearchOf(query))
      && c.response.body.task in ListStep(c.tables, body, query).response.body.tasks
  {
    var title := body["title"].s;
    var t := NewTask(title, body["description"].s, freshId, now);
    PlainSearchNeedle(title);
    NewTaskMatchesTitle(title, body["description"].s, freshId, now);
    var after := InsertEffect(tables, TaskTable, t).tables;
    assert after[TaskTable] == TableOf(tables, TaskTable) + [t];
    assert multiset(after[TaskTable])[t] > 0;
    var query := map["search" := title];
    assert SearchOf(query) == Some(title);
    var listed := SelectFrom(after, TaskTable, Some(title));
    assert multiset(listed)[t] > 0;
  }

  /** A PATCH with an id no task has answers 404 and changes no table. */
  lemma UnknownIdPatchIsNotFound(tables: Tables, body: Record, params: map<string, string>, now: int)
    requires PatchValid(body)
    requires forall k :: 0 <= k < |TableOf(tables, TaskTable)| ==> !HasId(TableOf(tables, TaskTable)[k], IdOf(params))
    ensures var s := UpdateStep(tables, body, params, now);
      s.response == NotFound() && s.tables == tables && !s.persisted
  {
    if TaskTable in tables {
      assert TableOf(tables, TaskTable) == tables[TaskTable];
    }
  }

  /** With unique ids, a DELETE that answers 204 is followed by a DELETE of the same id that answers 404. */
  lemma SecondDeleteIsNotFound(tables: Tables, body: Record, params: map<string, string>)
    requires "id" in params && TaskTable in tables && UniqueIds(tables[TaskTable])
    requires DeleteStep(tables, body, params).response.status == 204
    ensures var first := DeleteStep(tables, body, params);
      DeleteStep(first.tables, body, params).response == NotFound()
  {
  }

  /** A PATCH whose fields have their expected types always passes validation. */
  lemma WellTypedPatchPasses(body: Record)
    requires Get(body, "title").Some? ==> body["title"].Str?
    requires Get(body, "description").Some? ==> body["description"].Str?
    requires Get(body, "completed_at").Some? ==> body["completed_at"].Bool?
    ensures PatchValid(body)
  {
  }
}
