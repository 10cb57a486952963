# User resource: a verified model

This project models the user resource of a small Go REST demo service
(`endpoints/user_resource.go`). The resource owns an in-memory table that
maps a user ID to a `User` record (ID, name, age). The table is seeded with
four records. Five HTTP handlers read it or change it in place:

- `GET /users` lists every record;
- `GET /users/{id}` looks one up;
- `PUT /users/{id}` upserts a record;
- `POST /users` creates a record under a timestamp ID;
- `DELETE /users/{id}` removes a key.

The model has four modules:

- `Models`: the `User` record and the request body. `ReadEntity` decodes a body into a record that is already filled in. The body is either a decode error with its message, or a `Payload` whose present fields replace the defaults.
- `Decimal`: `FormatInt`, which is Go's `fmt.Sprintf("%d", n)`. `ParseInt` is its inverse and is used only in proofs.
- `UserStore`: the invariant `KeysMatchIds`, which says every record is filed under its own ID. It also defines `Entries`, the multiset of a map's records (one per entry, in no order).
- `Endpoints`: statuses, response bodies, the seed table and the class `UserResourceImpl`, with one method per handler.
  - `Upsert`, `Create` and `Remove` are functions from the old table to the new table and the response. `UpsertUser`, `CreateUser` and `RemoveUser` update the `users` field in place, and each one's `ensures` ties it to its function.
  - `Find` is a function from the table to the response. `FindUser` changes nothing and its `ensures` equate its answer with `Find`.
  - `FindAllUsers` has no function. It changes nothing, and its `ensures` give the multiset of the listed records as `Entries(users)`.

  The lemmas state what the handlers promise.

The framework sits at the boundary:

- the path parameter is a `string` argument;
- `request.ReadEntity` is a `ReadOutcome` argument;
- `time.Now().Unix()` is an `int` argument (`now`);
- a response is a status plus a body.

The model follows the code where other descriptions of the service differ:

- PUT does not force the record's ID to the path parameter. Go decodes the body into a record whose ID is already the path parameter, so an ID in the body wins. POST works the same way with the timestamp ID. `UpsertWrites` and `CreateWrites` state the key as "the body's ID if present, else the default".
- A failed decode answers 500 (`http.StatusInternalServerError`), as the handlers write it. The repository's tests expect 400.
- Not found answers 404 with the body text `models.User could not be found.`, not with an empty body.
- A stored record whose ID is empty is reported as not found. Under the invariant, this means a lookup of the empty key always answers 404, even when `""` is a key (`FindUnderInvariant`).

## Model

| member | source | states |
|---|---|---|
| `Endpoints.UserResourceImpl.constructor` | endpoints/user_resource.go:25-32 | the resource starts with exactly the four seed records, and the invariant holds |
| `Endpoints.SeedListing` | endpoints/user_resource.go:26-31 | every seed record is filed under its own ID, and listing the seed table yields four records |
| `Endpoints.SeedKeysAreNotTimestamps` | endpoints/user_resource.go:26-31 | from Unix second 5 on, a generated ID never equals a seed key; with `CreateWrites`, a first POST whose body has no ID therefore adds a fifth record |
| `Endpoints.UserResourceImpl.FindAllUsers` | endpoints/user_resource.go:35-43 | answers 200 with a list that is a permutation of the table's records, one element per entry, in any key order; the table is not changed |
| `UserStore.EntriesRemove` | endpoints/user_resource.go:38-40 | the listed multiset does not depend on which key a traversal visits first |
| `UserStore.EntriesSize` | endpoints/user_resource.go:37-40 | the listing has exactly as many elements as the table has entries |
| `UserStore.EntriesMembership` | endpoints/user_resource.go:37-40 | a record is listed if and only if some key maps to it |
| `UserStore.EntriesDistinct` | endpoints/user_resource.go:37-40 | under the invariant, no record is listed twice |
| `Endpoints.UserResourceImpl.FindUser` | endpoints/user_resource.go:46-55 | answers as `Find` on the current table and does not change it |
| `Endpoints.FindUnderInvariant` | endpoints/user_resource.go:48-54 | under the invariant, a lookup answers 200 if and only if the key is stored and non-empty, with the record filed there, whose ID is the key; otherwise it answers 404 with the fixed message |
| `Endpoints.UserResourceImpl.UpsertUser` | endpoints/user_resource.go:59-69 | the new table and the response are those of `Upsert` on the old table; the invariant is kept |
| `Endpoints.UpsertWrites` | endpoints/user_resource.go:61-65 | a decoded PUT files the record under the body's ID or, failing that, the path ID, and answers 200 with it; other keys keep their records; the table grows by one exactly when the key is new |
| `Endpoints.UpsertThenFind` | endpoints/user_resource.go:61-65 | a PUT whose body carries no ID or the path ID itself, followed by a GET of the same non-empty path, returns the written record, both for an existing key and for a new one |
| `Endpoints.UserResourceImpl.CreateUser` | endpoints/user_resource.go:73-83 | the new table and the response are those of `Create` on the old table; the invariant is kept |
| `Endpoints.CreateWrites` | endpoints/user_resource.go:75-79 | a decoded POST files the record under the body's ID or, failing that, the decimal Unix seconds, and answers 201 with it; other keys keep their records; the table grows by one exactly when the key is new |
| `Endpoints.CreateThenFind` | endpoints/user_resource.go:75-79 | a record created without a body ID is found under its generated key, which is never empty |
| `Endpoints.CreateKeysCollideOnlyWithinASecond` | endpoints/user_resource.go:75-78 | two POSTs without a body ID use the same key only in the same second; in different seconds the first record survives, and in the same second the second record replaces it without growing the table |
| `Endpoints.DecodeFailureLeavesTable` | endpoints/user_resource.go:62-82 | when decoding fails, PUT and POST leave the table unchanged and answer 500 with the decoder's message as the body |
| `Endpoints.UserResourceImpl.RemoveUser` | endpoints/user_resource.go:86-91 | the new table and the response are those of `Remove` on the old table; the invariant is kept |
| `Endpoints.RemoveEffect` | endpoints/user_resource.go:88-90 | DELETE always answers 204 with no body; afterwards the key is absent and a lookup answers 404; other keys keep their records; deleting an absent key changes nothing |
| `Endpoints.UpsertKeepsKeysMatchIds` | endpoints/user_resource.go:64 | PUT keeps every record filed under its own ID |
| `Endpoints.CreateKeepsKeysMatchIds` | endpoints/user_resource.go:78 | POST keeps every record filed under its own ID |
| `Endpoints.RemoveKeepsKeysMatchIds` | endpoints/user_resource.go:89 | DELETE keeps every record filed under its own ID |
| `Decimal.FormatInt` | endpoints/user_resource.go:75 | the generated ID is a well-formed decimal numeral: never empty, with a minus sign exactly for a negative time and no leading zeros |
| `Decimal.ParseFormatInt` | endpoints/user_resource.go:75 | the generated ID reads back as the timestamp it came from |
| `Decimal.FormatIntInjective` | endpoints/user_resource.go:75 | two timestamps give the same ID if and only if they are equal |

`Endpoints.SeedScenario` replays the request sequence of
`endpoints/user_resource_test.go` on one resource. The outcomes those tests
check follow from the contracts above: 4 records, Mario, 404, 201 and 5
records, age 40, Rosalina inserted, 204 and key `1` gone. Two caveats apply:

- The tests at lines 106, 153, 183 and 233 read a package-level map `users`,
  and neither `endpoints/user_resource.go` nor the test file declares one. The table is the
  unexported field `userResourceImpl.users` behind `UserResource`
  (`endpoints/user_resource.go:22`, `:26`). The scenario reads those four
  checks as checks of that field.
- The error tests check the status and that the body is the decoder's text
  "test error". The model answers 500 where they expect 400. The tests do not
  look at the table after an error; `SeedScenario` additionally asserts that
  it is unchanged.

## Left out

- Route registration, the `restful.WebService` and `http.ListenAndServe` (`app/app.go`): these are framework glue with no logic of the resource.
- go-restful's machinery is not modelled: `Content-type` headers, logging, and the JSON encoding of responses. The JSON decoding of requests is modelled only through its outcome (`ReadOutcome`).
- JSON decoding details are not modelled: how body field names map to the fields of `models.User` (its Go declaration, with its JSON field names, is not among the sources; `Models.User` stands for it), and numbers out of range. A partial write into the record before a decode error is not modelled either, because the handlers discard the record on error.
- `Endpoints.UserResourceImpl.FindAllUsers`: an empty table lists as Go's nil slice, which encodes as JSON `null` rather than `[]`. The model returns an empty sequence, because it does not model encoding.
- Status of a failed decode: the model uses the handlers' 500. Whatever the framework finally sends (the tests expect 400) is not modelled.
- Wall-clock time: the Unix time is an `int` parameter. Its 64-bit width is not modelled, because a real clock does not come near the limit.
- `Models.User.age` is an unbounded `int`: the model does not capture Go's 64-bit `int`.
- Concurrency: the shared map has no lock. The model runs one handler at a time, and races are out of scope.
- Go's map iteration order: `FindAllUsers` picks keys in an arbitrary order. Its contract therefore speaks of a multiset, not a sequence.
