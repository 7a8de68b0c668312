# Observability reference app: handler logic in Dafny

The reference app is a set of small Flask services wrapped in Prometheus metrics and
OpenTelemetry/Jaeger tracing. Almost all of it is instrumentation wiring. This project
models the three pieces of sequential logic inside it and proves properties about them:

- **Tag stripping** (`Tags`, `tags.dfy`). The trial service's `remove_tags` is
  `re.sub(r"<[^>]+>", "", text)`. It is modelled in two ways:
  - `RemoveTags` is a recursive left-to-right substitution. At each position it either
    deletes a whole match of the pattern and resumes after it, or keeps the character.
  - `StripTags` is a left-to-right scan that is equivalent to the substitution. At each
    `<` it searches for the first `>`. It is proved equal to `RemoveTags`.

  The pattern itself is `IsTag`, a declarative predicate on strings.
- **Job-listing projection** (`Jobs`, `jobs.dfy`). The `/trace` handler of the trial
  service turns each upstream job posting into a nine-field record. The description in
  that record has its tags stripped. A posting that the guarded block fails on is
  skipped. A posting whose `company` cannot be read aborts the whole handler, because
  that read happens before the `try`.
- **Star insert and fixed routes** (`StarStore`, `Backend`, `store.dfy`, `backend.dfy`).
  - `add_star` reads `name` and then `distance` from the request, inserts a document
    with just those two fields and looks it up again by the id that the insert returned.
  - The document collection is modelled as a map from ids to documents, plus a counter
    that hands out fresh ids. Every store call the handler makes is recorded in order.
  - The routes `/`, `/api`, `/success-response`, `/client-error` and `/server-error`
    return constant responses.

`Wrappers` (`wrappers.dfy`) holds `Option` and `Result`. `JsonValues` (`json.dfy`) holds
the parsed JSON value type used for request bodies and upstream postings.

## Where the code departs from what it evidently intends

In each case below, the model follows the code.

- A `/star` request missing `name` or `distance` is a client error. Such an error would
  conventionally get a 4xx response. In the code the subscript raises
  (reference-app/backend/app.py:89-90), the exception escapes, and Flask answers 500. `Backend.MissingFieldIsServerError` states what the code does: status 500 and no
  store call.
- The per-item `try` (reference-app/trial/app.py:89-106) shows that one bad posting is
  meant to be skipped without failing the batch. But the `company` read at line 88 sits
  outside that `try`. An item that is not an object, or that has no `company`, raises
  there, and the whole handler fails. `Jobs.Trace` returns `Aborted` exactly
  in that case.

## Model

| member | source | states |
|---|---|---|
| Tags.TagLen | reference-app/trial/app.py:76 | When it reports a match at the head of a string, the matched prefix is in the language of `<[^>]+>`. |
| Tags.TagLenIff | reference-app/trial/app.py:76 | At most one prefix of a string matches the pattern. `[^>]+` cannot reach past the first `>`, so greediness does not matter. |
| Tags.RemoveTags | reference-app/trial/app.py:75-77 | The cleaned text is never longer than the input. |
| Tags.RemoveTagsSubseq | reference-app/trial/app.py:77 | The cleaned text is a subsequence of the input: it is the input with some characters deleted. |
| Tags.TagDeleted | reference-app/trial/app.py:76-77 | A match of `<[^>]+>` at the head is deleted whole, and cleaning continues after it. |
| Tags.CharKept | reference-app/trial/app.py:77 | A character where no match starts is kept, and cleaning continues at the next character. |
| Tags.EmptyBracketsKept | reference-app/trial/app.py:76 | `<>` is not a match and is kept, because the character class needs at least one character. |
| Tags.NoOpenUnchanged | reference-app/trial/app.py:76-77 | A text containing no `<` is returned unchanged. |
| Tags.NoTagFixpoint | reference-app/trial/app.py:75-77 | A text with no substring matching the pattern is returned unchanged. |
| Tags.NoTagInResult | reference-app/trial/app.py:75-77 | The cleaned text contains no substring that matches the pattern. |
| Tags.UnchangedIff | reference-app/trial/app.py:75-77 | A text is returned unchanged if and only if it contains no match of the pattern. |
| Tags.Idempotent | reference-app/trial/app.py:75-77 | Cleaning twice gives the same result as cleaning once. |
| Tags.StripTags | reference-app/trial/app.py:75-77 | The scan runs left to right. At each `<` it searches for the first `>` and deletes through it when at least one character lies between. The result equals the substitution `RemoveTags`. |
| Jobs.ToObject | reference-app/trial/app.py:90-98 | The record built for a posting has exactly the nine keys. Its `description` and `company` entries are the record's fields. `Jobs.EmittedRecord` states the rest of its contents. |
| Jobs.ProjectItem | reference-app/trial/app.py:88-106 | One iteration aborts if and only if the `company` read outside the `try` raises. When it appends, the posting was an object with a string description, and the record's description is that text with tags stripped. `Jobs.ProjectItemSpec` and `Jobs.EmittedRecord` state the skip and append cases in full. |
| Jobs.ProjectItemSpec | reference-app/trial/app.py:85-106 | An item aborts the handler if and only if it is not an object or lacks `company`. It is appended if and only if all nine fields are present and the description is a string. Any other item is skipped. |
| Jobs.EmittedRecord | reference-app/trial/app.py:90-100 | An appended record has exactly the nine keys. Its description is `remove_tags` of the input description, and the other eight fields are copied unchanged. |
| Jobs.Projected | reference-app/trial/app.py:84-100 | The records list has at most one record per posting. `Jobs.ProjectedConcat`, `Jobs.SkipInvariant` and `Jobs.ProjectedShape` state its order and contents. |
| Jobs.ProjectedConcat | reference-app/trial/app.py:84-100 | Records are emitted in input order. The records for a concatenation of listings are the records for the first listing followed by those for the second. |
| Jobs.SkipInvariant | reference-app/trial/app.py:89-106 | A skipped item contributes nothing and changes none of the other records. |
| Jobs.ProjectedShape | reference-app/trial/app.py:84-100 | There is at most one record per item. There is exactly one per item if and only if every item is appended. |
| Jobs.Trace | reference-app/trial/app.py:84-107 | The handler aborts if and only if some item lacks a readable `company`. Otherwise it returns the records of the appended items, in order. |
| StarStore.Insert | reference-app/backend/app.py:92 | The insert stores the document under an id not already in use, keeps the collection well formed, and changes nothing else. |
| StarStore.FindOne | reference-app/backend/app.py:94 | A lookup finds a document if and only if one is stored under the id, and then it is that document. |
| StarStore.InsertThenFind | reference-app/backend/app.py:92-94 | A lookup by the returned id finds the inserted document. Every other lookup answers as before. The collection grows by exactly one document. |
| Backend.ReadBack | reference-app/backend/app.py:94-96 | The read-back succeeds if and only if a document was found and it has both fields. When the lookup finds nothing, the handler fails. On success the reply's `result` holds exactly the found document's `name` and `distance`. |
| Backend.AddStar | reference-app/backend/app.py:85-96 | A request without both fields fails with no store call and leaves the store unchanged; a missing `name` is reported first. Otherwise the handler makes exactly one insert of `{name, distance}` and then one lookup by the returned id. Stored documents hold only those two fields. Existing documents are untouched. |
| Backend.StarRoundTrip | reference-app/backend/app.py:89-96 | On a well-formed collection, the reply's `result` is exactly the `name` and `distance` that the request sent. |
| Backend.ExtraFieldsIgnored | reference-app/backend/app.py:89-92 | Requests that agree on `name` and `distance` have the same effect and the same reply, whatever else they carry. |
| Backend.Homepage | reference-app/backend/app.py:73-75 | The greeting route. `Backend.FixedRouteResponses` states its reply: "Hello World" with 200. |
| Backend.MyApi | reference-app/backend/app.py:78-82 | The placeholder API route. `Backend.FixedRouteResponses` states its reply: `{response: "something"}` with 200. |
| Backend.ClientSuccessPage | reference-app/backend/app.py:98-100 | `Backend.FixedRouteResponses` states its reply: "Planned 200 response" with 200. |
| Backend.ClientErrorPage | reference-app/backend/app.py:102-104 | `Backend.FixedRouteResponses` states its reply: "Planned 400 error" with 400. |
| Backend.ServerErrorPage | reference-app/backend/app.py:106-108 | `Backend.FixedRouteResponses` states its reply: "Planned 500 error" with 500. |
| Backend.StatusOf | reference-app/backend/app.py:89-90 | The status the client sees: an exception escaping a handler becomes 500. `Backend.MissingFieldIsServerError` states this for a `/star` request lacking a field. |
| Backend.Handle | reference-app/backend/app.py:73-108 | Every route except `/star` answers and leaves the store alone. Every answer has status 200, 400 or 500. `/star` answers if and only if `add_star` succeeds. |
| Backend.FixedRoutesIgnoreRequest | reference-app/backend/app.py:98-108 | Every route except `/star` gives the same reply whatever the request and the store. |
| Backend.FixedRouteResponses | reference-app/backend/app.py:73-108 | The routes reply as follows: `/success-response` "Planned 200 response" with 200; `/client-error` "Planned 400 error" with 400; `/server-error` "Planned 500 error" with 500; `/` "Hello World" with 200; `/api` `{response: "something"}` with 200. |
| Backend.MissingFieldIsServerError | reference-app/backend/app.py:89-90 | A `/star` request lacking a field reaches the client as status 500 and writes nothing. |
| Backend.StarSucceeds | reference-app/backend/app.py:85-96 | A `/star` request with both fields, on a well-formed collection, is answered 200 with the fields it sent. The collection gains exactly one document. |

## Left out

- Flask routing, request parsing and `jsonify`. Handlers take already-parsed JSON values.
  The only framework behaviour modelled is that an escaped exception becomes status 500,
  in `Backend.StatusOf`.
- Prometheus metric registration and labels, and the OpenTelemetry/Jaeger tracer,
  exporter and spans. These are foreign libraries with asynchronous export. The
  one-metric-sample and one-root-span properties of each request are not modelled.
- The span calls in `/trace`: `span.log_kv` and `span.set_tag`
  (reference-app/trial/app.py:81-82, 101-102, 105-106). The model assumes these calls
  return normally. As written they do not: they are OpenTracing method names, and the
  OpenTelemetry span that `tracer.start_span` returns has no such methods. So line 81
  raises before the loop is reached. Line 82 is the same kind of call. If lines 81-82
  were fixed, line 101 would raise after the append at line 100, and line 105 would
  raise again inside the `except`. So every item would end the handler.
- Logging configuration and log lines. They are output only.
- The `requests.get` call to the job API in `/trace`. It is network I/O, so the parsed
  listing is taken as a sequence of JSON values. A failed fetch and a top-level body
  that is not a list are not modelled.
- The MongoDB driver. The collection is an abstract map and the ids are naturals rather
  than ObjectIds. Insert and lookup never fail in this store. So `Backend.ReadBack`'s
  not-found path exists only in the read-back function; `AddStar` over the map store
  cannot reach it.
- The `render_template` pages: the trial and frontend `/` routes. There is no logic in
  them.
- The frontend service. Its routes duplicate the backend's fixed-status routes.
- The trial service's `/success-response`, `/client-error` and `/server-error` routes
  (reference-app/trial/app.py:109-119). They are identical to the backend's, which
  `Backend.Handle` models.
- The legacy backend kept inside a string literal at the end of the backend file. It is
  dead code.
- JSON numbers are kept as reals and never computed with. Strings are sequences of
  characters, with no encoding.
