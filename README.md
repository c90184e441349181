# Task service core in Dafny

A model of a small HTTP service that keeps a list of tasks. It has three parts:

- the in-memory table store `Database` (`src/database.js`): insert, select, update and delete over a map from table name to an ordered list of records, where every mutation requests a write of the whole store to disk;
- the four route handlers (`src/routes.js`): POST, GET, PATCH and DELETE on `/tasks`. Each one validates its input, calls the store and chooses the status and body of the answer;
- the request callback (`src/server.js`): takes the first route whose method and path pattern accept the request, fills in `req.params` and `req.query`, and runs the handler. When no route matches, it answers 404.

Modules:

- `Wrappers` (`wrappers.dfy`): `Option`, where `None` stands for JavaScript's `undefined`.
- `Values` (`values.dfy`): JSON values and records; `Payload`, a caller-owned object that a callee may rewrite in place; property lookup, truthiness, `typeof` tests and `String(value)`.
- `Strings` (`strings.dfy`): `trim`, `toLowerCase`, `includes` and `decodeURIComponent`.
- `Store` (`database.dfy`): the store.
  - Each operation has a value-level specification: `InsertEffect`, `SelectFrom`, `UpdateEffect` and `DeleteEffect`. Each one gives the new tables, the return value and whether a write is requested.
  - The class `Database` implements the operations imperatively and is proved against those specifications.
  - Requested writes are kept in the ghost sequence `snapshots`. `Valid()` says the latest requested snapshot is the current state.
- `Http` (`http.dfy`): the `Request` object that the dispatcher fills in, and the response as a (status, body) value.
- `Routes` (`routes.dfy`): the route table, the per-handler specifications (`CreateStep` to `DeleteStep`, and `HandlerStep`), and the handler methods.
- `Server` (`server.dfy`): first-match route lookup and `Serve`.

The path pattern compiler (`src/utils/build-route-path.js`) and the query-string parser (`src/utils/extract-query-params.js`) are not part of this model. `Serve` takes them as function parameters:

- `Matcher(template, url)`: the named groups of the compiled pattern's match on `url`, or `None` when the pattern does not accept it;
- `QueryParser`: turns a raw query string into its key/value pairs.

The random id and the current time are parameters too (`freshId`, `now`).

Behaviour of the code worth knowing, each one stated by a member of the model:

- A PATCH body with an `id` field overwrites the matched task's id, because the merge `{...task, ...data}` at src/database.js:67-71 copies it (`Store.UpdateRewritesId`). A body without `id` keeps every id (`Store.UpdateWithoutIdKeepsIds`).
- Delete on a missing table returns `undefined` (`None` in `Store.DeleteEffect`). The DELETE handler answers 404 both for it and for `false`.
- The search is lower-cased before it is percent-decoded (src/database.js:42). So `%41` yields the needle `A`, which no lower-cased field includes (`Store.FilterUpperNeedleIsEmpty`).
- Without a search, select returns the stored array itself, not a copy (src/database.js:51). The model works on values, so this aliasing is not visible (see below).

## Model

| member | source | states |
|---|---|---|
| Strings.Trim | src/routes.js:17-18 | `s.trim()`: the leading and then the trailing whitespace removed |
| Values.Truthy | src/routes.js:63-65 | JavaScript's ToBoolean on a field: `undefined`, `null`, `false`, `0` and `""` are falsy, everything else (dates, arrays, objects included) is truthy |
| Values.IsString | src/routes.js:15-16 | `typeof v === "string"`: the field is present and holds a string |
| Values.IsBoolean | src/routes.js:65 | `typeof v === "boolean"`: the field is present and holds a boolean |
| Values.Stringify | src/database.js:46 | `String(field)`: null, booleans and safe integers (magnitude below 2^53) as JavaScript writes them, strings unchanged, arrays joined with commas (null elements empty), objects as "[object Object]"; dates as their millisecond count (see below) |
| Strings.TrimStart | src/routes.js:17-18 | the result is the suffix left after dropping all leading ECMAScript whitespace; it does not start with whitespace |
| Strings.TrimEnd | src/routes.js:17-18 | the result is the prefix left after dropping all trailing whitespace; it does not end with whitespace |
| Strings.TrimEmptyIffBlank | src/routes.js:17-18 | `s.trim()` is empty (falsy) exactly when every character of `s` is whitespace |
| Strings.Lower | src/database.js:42-46 | lower-casing keeps the length, leaves no upper-case letter, and changes only letters A-Z (each moves by 32) |
| Strings.Contains | src/database.js:46 | `hay.includes(needle)`: the needle occurs at some position of the text; the empty needle occurs everywhere |
| Strings.LoweredLacksUpper | src/database.js:46 | lower-cased text never includes a needle that holds an upper-case letter |
| Strings.PercentDecode | src/database.js:42 | a successful decode is never longer than its input |
| Strings.DecodeWithoutEscapes | src/database.js:42 | text without `%` decodes to itself and does not throw |
| Store.HasId | src/database.js:59-60 | `task.id === id`: the task has an `id` field holding that string, or, for an `undefined` id, has no `id` field |
| Store.FindIndex | src/database.js:59-60 | the result is -1 or an index whose task has the id; no earlier task (and no task at all when -1) has it |
| Store.Matches | src/database.js:44-47 | some field of the task, converted with `String` and lower-cased, includes the needle |
| Store.Filter | src/database.js:44-48 | the result is a subsequence of the table, and each record occurs in it as often as in the table if it matches, and not at all otherwise |
| Store.FilterUpperNeedleIsEmpty | src/database.js:42-46 | a decoded search holding an upper-case letter matches no task, because the fields are lower-cased but the needle is decoded after lower-casing |
| Store.Needle | src/database.js:42 | `decodeURIComponent(search.toLowerCase())`: the search lower-cased first, then percent-decoded; never longer than the search |
| Store.SelectFrom | src/database.js:34-52 | a missing table gives []; an absent or empty search gives the table unchanged and in order; otherwise the result is exactly the matching records, in table order |
| Store.PlainSearchNeedle | src/database.js:42 | a search without `%` is always decodable, and its needle is its lower-cased text |
| Store.InsertEffect | src/database.js:22-31 | the named table (created if absent) gains `data` at its end, every other table is unchanged, `data` is returned, and a write is requested |
| Store.Coerce | src/database.js:62-64 | `completed_at: true` becomes the current time; every other field, and any other `completed_at` value, is kept |
| Store.Merge | src/database.js:67-71 | the new record has the old fields overridden by the data's fields, and `updated_at` is the current time |
| Store.CoercedData | src/database.js:55-64 | the caller's data after update: coerced when the table exists, untouched when update returns early |
| Store.UpdateEffect | src/database.js:54-76 | nothing is found exactly when the table is missing or no task has the id, and then nothing changes and no write is requested; otherwise only the first matching task is replaced by the merge, the length and the other tasks and tables stay, the new task is returned, and a write is requested |
| Store.Splice | src/database.js:86 | removing index i shortens the table by one, keeps the order of the rest, and removes exactly one occurrence of the element at i |
| Store.DeleteEffect | src/database.js:78-93 | a missing table gives undefined and no change; a missing id gives false and no change; otherwise the first task with the id is removed, true is returned, and a write is requested |
| Store.InsertFreshIdKeepsUnique | src/database.js:22-27 | inserting a record whose id no task has keeps the table's ids unique |
| Store.DeleteRemovesUniqueId | src/database.js:83-89 | with unique ids, a successful delete keeps ids unique, and a second delete of the same id finds nothing |
| Store.UpdateWithoutIdKeepsIds | src/database.js:66-71 | an update whose data has no `id` keeps every task's id, so it keeps them unique |
| Store.UpdateRewritesId | src/database.js:67-71 | an update whose data has an `id` gives the matched task that id |
| Store.UpdateCompletes | src/database.js:62-71 | `{completed_at: true}` sets the found task's `completed_at` and `updated_at` to the current time |
| Store.Database.constructor | src/database.js:5-6 | the store starts with no tables and no snapshot requested |
| Store.Database.Persist | src/database.js:18-20 | one more snapshot of the whole current store is requested |
| Store.Database.Insert | src/database.js:22-32 | pushes onto an existing table or creates `[data]`; the new state is `InsertEffect`'s, `data` is returned, and exactly one snapshot is requested |
| Store.Database.Select | src/database.js:34-52 | select on the object is `SelectFrom` of its current tables |
| Store.Database.Update | src/database.js:54-76 | the new state and result are `UpdateEffect`'s, and a snapshot is requested only on a match; the caller's data object has `completed_at: true` rewritten in place when the table exists, whether or not a task is found |
| Store.Database.Delete | src/database.js:78-93 | the new state and result are `DeleteEffect`'s, and a snapshot is requested only when a task is removed |
| Http.ValidationFailure | src/routes.js:20-27 | a 400 answer with a `ValidationError` body whose `status_code` is 400 |
| Http.NotFound | src/server.js:28-35 | a 404 answer with a `NotFoundError` body whose `status_code` is 404 |
| Http.Request.constructor | src/server.js:8-9 | a request carries its method, URL and parsed body |
| Routes.CreateValid | src/routes.js:14-19 | POST's check: title and description are strings and neither is empty after `trim` |
| Routes.CreateValidIffText | src/routes.js:14-19 | POST accepts exactly the bodies whose `title` and `description` are strings holding a non-whitespace character |
| Routes.NewTask | src/routes.js:30-37 | the created record has exactly the fields id (the fresh id), title, description, created_at and updated_at (now), and completed_at (null) |
| Routes.CreateStep | src/routes.js:11-42 | an invalid body gives 400 and changes nothing; a valid one appends exactly one new task to "tasks" and answers 201 with it |
| Routes.HandleCreate | src/routes.js:11-42 | the handler does what `CreateStep` says to the store object and returns its answer |
| Routes.SearchOf | src/routes.js:48 | `const { search } = req.query`: the query's `search` value, or `undefined` when the key is absent |
| Routes.ListStep | src/routes.js:47-53 | GET always answers 200 with `select("tasks", search)` and changes nothing |
| Routes.HandleList | src/routes.js:47-53 | the handler answers as `ListStep` says |
| Routes.IdOf | src/routes.js:59 | `const { id } = req.params` (also at line 97): the `id` group, or `undefined` when the route has none; `Store.HasId` then matches `undefined` against tasks with no `id` field |
| Routes.UpdateStep | src/routes.js:58-91 | a truthy field of the wrong type gives 400 without calling update; otherwise no match gives 404 and a match gives 200 with the updated task, with the store changed as `UpdateEffect` says |
| Routes.HandleUpdate | src/routes.js:58-91 | the handler does what `UpdateStep` says to the store and to the request body |
| Routes.DeleteStep | src/routes.js:96-113 | 204 with an empty body when delete returns true, otherwise 404 (including the `undefined` of a missing table), with the store changed as `DeleteEffect` says |
| Routes.HandleDelete | src/routes.js:96-113 | the handler does what `DeleteStep` says to the store object |
| Routes.HandlerStep | src/routes.js:7-115 | the handlers of the route table `RouteTable` (POST and GET on "/tasks", then PATCH and DELETE on "/tasks/:id", in declaration order); every handler answers with 200, 201, 204, 400 or 404; every error body's `status_code` equals the status; a 400 changes nothing; no handler changes the store without requesting a write |
| Routes.Invoke | src/server.js:25 | running a route's handler does what `HandlerStep` says |
| Routes.CreatedTaskIsListed | src/routes.js:39-50 | after a successful POST, a GET without search lists the earlier tasks followed by the new one |
| Routes.NewTaskMatchesTitle | src/database.js:44-47 | a new task matches the lower-cased text of its own title, since its title field includes it |
| Routes.CreatedTaskFoundByTitle | src/routes.js:39-50 | after a successful POST, a GET that searches for the task's own title (without `%`) lists the new task |
| Routes.UnknownIdPatchIsNotFound | src/routes.js:77-88 | a valid PATCH of an id no task has answers 404 and changes nothing |
| Routes.SecondDeleteIsNotFound | src/routes.js:99-112 | with unique ids, a DELETE that answered 204, repeated, answers 404 |
| Routes.PatchValid | src/routes.js:62-66 | PATCH's check: no truthy title or description that is not a string, and no truthy completed_at that is not a boolean |
| Routes.WellTypedPatchPasses | src/routes.js:62-66 | a PATCH whose fields have their expected types always passes validation |
| Server.Accepts | src/server.js:14 | the route's method equals the request's exactly and its pattern accepts the URL |
| Server.FindRoute | src/server.js:13-15 | the result is the first route, in declaration order, whose method equals the request's and whose pattern accepts the URL; none means no route does |
| Server.RouteForMethod | src/server.js:13-15 | each method has a single route in the table: the request goes to it exactly when that route's pattern accepts the URL, and otherwise no route matches |
| Server.Params | src/server.js:20-22 | `req.params` holds every named group except `query`, with its captured value |
| Server.QueryOf | src/server.js:23 | `req.query`: the parsed query group when it is present and non-empty, otherwise `{}` |
| Server.Serve | src/server.js:8-36 | with no matching route: 404 with a consistent body, and the store and the request are unchanged; with a match: `req.params` and `req.query` are set (`{}` when the query group is empty or absent), then exactly the one handler runs and its answer is returned |

## Left out

- File persistence is not modelled. This covers the asynchronous load in the constructor (src/database.js:8-16), `JSON.parse` of the file, and the fire-and-forget `writeFile` (src/database.js:18-20). It also covers the race between overlapping writes. A requested write is recorded as the snapshot in `snapshots`.
- Store.Database.constructor: the store starts empty. The source's later replacement of the state by the file's contents is not modelled, and neither is the write it requests when the file cannot be read or parsed (the `.catch` at src/database.js:13-15 also catches a `JSON.parse` failure).
- `randomUUID()` and `new Date()` are parameters (`freshId`, `now`). The source reads the clock once per timestamp, so `created_at` and `updated_at`, or `completed_at` and `updated_at`, can differ by a few milliseconds. The model uses one reading per request.
- `src/utils/build-route-path.js` and `src/utils/extract-query-params.js` are not part of this model. They enter as the `Matcher` and `QueryParser` parameters. `route.path.test(url)` and `url.match(route.path)` are taken to be the same match.
- The routing-precedence property is not modelled: that `/tasks` and `/tasks/:id` never accept the same URL depends on the pattern compiler.
- The JSON body middleware (`src/middlewares/json.js`) is not part of this model. The request body is taken to be a parsed object; a missing or non-object body is not modelled.
- HTTP plumbing is not modelled: `http.createServer`, `listen`, `console.log`, and the JSON text that `res.end` writes. A response is a (status, body) value.
- Strings.Lower: only the ASCII letters A-Z are lower-cased. Full Unicode case mapping is not modelled.
- Strings.PercentDecode: only escapes of ASCII bytes are decoded. An escape of a byte of 0x80 or more is treated as malformed, even though the source decodes valid UTF-8 escapes. The `URIError` thrown on malformed input is not modelled as an outcome; it becomes the precondition `SearchDecodes`. That precondition is on `Store.Needle`, `Store.SelectFrom`, `Store.Database.Select`, `Routes.ListStep`, `Routes.HandleList`, `Routes.HandlerStep` and `Routes.Invoke` (the last two only for the GET handler), and on `Server.Serve` when the GET route is selected.
- Values.Stringify: a `Date` is rendered as its millisecond count, not as the host's time-zone-dependent `Date.prototype.toString`. Numbers are integers only. Integers of magnitude 2^53 or more are written in full, whereas in JavaScript a JSON number is a double: such a value is rounded when parsed (9007199254740993 becomes 9007199254740992), and `String` switches to exponent form from 1e21. So for such a field, `Store.Matches`, `Store.Filter` and `Store.SelectFrom` can differ from the source.
- Object key order is not modelled: the order of spread fields and of serialised fields. A record is a map.
- Aliasing is not modelled. `insert` stores the caller's object, and `select` without a search returns the stored array, so changes made later through either reference are shared in the source. The model works on values. Only `update`'s in-place rewrite of the caller's `data` object is modelled, through `Payload`.
- Table names that are `Object.prototype` properties (such as `toString`) are not modelled, and neither are non-array tables read from a file. `insert` tests `Array.isArray`; the other operations test truthiness.
- Exceptions that escape a handler are outside the model. The request callback at src/server.js:8 is `async`, so such a throw (for instance the `URIError` for a search of `%`) becomes an unhandled promise rejection: the request gets no answer, and on Node 15 and later the whole process ends.
- `src/utils/upload-tasks-csv.js` is a network client of the POST route and is not part of this model.
