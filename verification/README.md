# Video resource: a Dafny model

This project models the single REST resource of a small video-metadata service.
A video is a row with an `id`, a `name`, a view count and a like count. The
resource at `/videos/<id>` answers four HTTP methods:

- GET reads the row, or answers 404.
- PUT creates the row at the caller's id, or answers 409 when the id is taken.
- PATCH overwrites only the supplied fields, or answers 404.
- DELETE removes the row, or answers 404.

PUT and PATCH first run their request parser. A parser failure answers 400
before the table is consulted.

The table is an immutable `map<int, Video>` keyed by primary key. Each handler
is a pure function from (store, path id, request body) to a `Reply` that holds
the status, the response body and the store after the request. Nothing is
committed in place: the new store is the commit.

Modules, one per concern of `main.py`:

- `Options` — `Option`, standing for Python's `None`.
- `VideoModel` — the row, the table, the well-formedness invariant (every row is
  filed under its own id) and the primary-key lookup.
- `RequestParsers` — the creation parser (three required arguments) and the
  update parser (three optional arguments). An argument arrives as `Missing`,
  `Malformed` (its type coercion failed) or `Given`. The first argument that
  fails, in the declared order name, views, likes, rejects the request with that
  argument's help text.
- `VideoResource` — the four handlers, and the update loop (`setattr` for every
  non-`None` argument).
- `VideoSessions` — dispatch of a request to its handler, runs of many requests
  over one store, and lemmas that relate consecutive operations.

A validation failure answers 400, the status the request parser aborts with;
each parser reports the first bad argument in declaration order.

## Model

| member | source | states |
|---|---|---|
| VideoModel.Lookup | main.py:43 | the primary-key read every handler starts with; its meaning as the `filter_by(id=...)` query is carried by LookupIsFilter |
| VideoModel.LookupIsFilter | main.py:43 | on a well-formed table, the keyed lookup returns row `v` exactly when some row equals `v` and has id `id`, i.e. it is the `filter_by(id=...)` query |
| RequestParsers.ParsePut | main.py:21-24 | accepts iff name, views and likes are all given, and then returns exactly those values; otherwise it names an argument that is missing or malformed, every argument declared before it passed, and the error carries that argument's help text |
| RequestParsers.ParsePatch | main.py:26-29 | accepts iff no argument is malformed; each parsed argument is `Some` iff it was given, with the given value; otherwise it names the first malformed argument in declaration order, with its help text |
| RequestParsers.Items | main.py:69 | the parsed update arguments as `items()`: three entries in declaration order, each present iff its argument was supplied; SetAttrsIsOverlay states what folding over them does |
| VideoResource.Get | main.py:42-46 | never changes the store; 200 iff the id has a row, and then the body is exactly that row; otherwise 404 with the not-found message |
| VideoResource.Put | main.py:50-60 | a rejected body gives 400 with the parser's error and no change; a taken id gives 409 and no change; 201 iff all three arguments are given and the id is free, and then exactly one key is added: the row built from the path id and the arguments, which is also the body; well-formedness is preserved |
| VideoResource.SetAttr | main.py:71 | one `setattr` never changes the id; the column it names gets the value and the others keep theirs; SetAttrsIsOverlay states the effect of the whole loop |
| VideoResource.SetAttrs | main.py:69-71 | the update loop never changes the id, and a column that no item names keeps its old value |
| VideoResource.SetAttrsIsOverlay | main.py:69-71 | running the update loop over the parsed arguments gives the row where each supplied argument replaces its column and every other column is kept |
| VideoResource.Patch | main.py:63-74 | a rejected body gives 400 and no change; an absent id gives 404 and creates nothing; 200 iff no argument is malformed and the id has a row; then the key set is the same, no other row changes, the id is kept, each column is overwritten iff its argument is given, and the body is the updated row; well-formedness is preserved |
| VideoResource.Delete | main.py:77-85 | 204 with an empty body iff the id has a row, and then exactly that key is removed and every other row is kept; otherwise 404 with no change; well-formedness is preserved |
| VideoSessions.Handle | main.py:40-85 | every method touches at most the row of its own path id, answers only 200, 201, 204, 400, 404 or 409, and preserves well-formedness |
| VideoSessions.Run | main.py:40-85 | a run of requests yields one status per request and preserves well-formedness |
| VideoSessions.GetAfterPut | main.py:42-60 | after a 201 creation, a GET of that id answers 200 with the row built from the path id and the supplied fields |
| VideoSessions.PutTwice | main.py:50-54 | for a valid body, a second PUT on the same id answers 409 and leaves the store the first PUT produced, original row included |
| VideoSessions.DeleteUndoesPut | main.py:50-85 | a DELETE right after a successful PUT answers 204 and restores the store exactly |
| VideoSessions.PutUndoesDelete | main.py:50-85 | on a well-formed table, a PUT of a deleted row's own fields answers 201 and restores the store exactly |
| VideoSessions.DeleteThenGetAndDelete | main.py:42-85 | after a successful DELETE, a GET of that id answers 404 and a second DELETE answers 404 without changing the store |
| VideoSessions.PatchNothingIsIdentity | main.py:69-74 | a PATCH that supplies no argument answers 200 with the stored row and leaves the store unchanged |
| VideoSessions.PatchIdempotent | main.py:63-74 | applying the same PATCH twice gives the same reply and store as applying it once |
| VideoSessions.PatchThenPatch | main.py:63-74 | two valid PATCHes in a row equal one PATCH whose body takes each argument from the later body when given there and from the earlier one otherwise |
| VideoSessions.ValidationPrecedesLookup | main.py:50-65 | a body rejected by the parser gets the same 400 reply whatever the store and the id, and the store is unchanged |
| VideoSessions.RunFrame | main.py:40-85 | a row that no request of a run addresses is present at the end iff it was at the start, with the same contents |
| VideoSessions.RunCreatesOnlyByPut | main.py:50-60 | a row present after a run but not before was created by a PUT on its id that answered 201 |
| VideoSessions.RunRemovesOnlyByDelete | main.py:77-85 | a row present before a run but not after was removed by a DELETE on its id that answered 204 |
| VideoSessions.IntroScenario | main.py:40-85 | on an empty table: PUT 1 {intro, 0, 0} answers 201 with that row; PATCH 1 {likes: 10} answers 200 with likes 10 and the rest kept; DELETE 1 answers 204; GET 1 answers 404 and the table is empty again |

## Left out

- Application setup, `Api` registration and URL routing. The `<int:video_id>`
  converter admits only non-negative ids; the model takes any `int` path id.
- Database sessions, `add`, `delete` and `commit`. They are modelled as pure map
  updates. Transactions, isolation and concurrent requests are not modelled.
- The parser's coercion of raw request values to `str` and `int`. The model
  receives the outcome per argument: missing, malformed or given.
- A JSON `null` for a required PUT argument is not modelled. The parser library
  and the database's NOT NULL constraint decide that case, and neither is part of
  this model. For PATCH, a `null` is treated like an absent argument.
- Field-by-field marshalling (`resource_fields`). A `Video` already holds exactly
  the four output fields, so a `Record` body is the marshalled row.
- The `String(100)` column length. Neither the handler nor SQLite enforces it.
- The 64-bit range of SQLite integers. Python integers and the model's `int` are
  unbounded.
- A failure of the database layer inside a handler, such as a failed commit
  answering 500.
- A malformed `name`: the model lets `name` fail its coercion like `views` and
  `likes`, but the source coerces `name` with `str`, which accepts any value, so
  that 400 path is more general than the source.
- `__repr__` and the `app.run(debug=True)` entry point.
