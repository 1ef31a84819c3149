# Scooter store

A model of the in-memory e-scooter store of a small Go HTTP service
(`main.go`). The service keeps one `EScooter` record per scooter ID (GPS
position, kilometres driven, battery level `AKKU`, availability `STATE`) in a
map owned by `scootersHandlers`, seeds that map from an embedded JSON file, and
serves three requests: list all records (`GET /api`), merge-upsert one record
(`POST /api`) and fetch one record by ID (any request to `/api/<id>`,
whatever its method).

Modules:

- `Wrappers`: `Option`, used for the nullable GPS pointer and for lookups.
- `Records`: the `Scooter` record (`EScooter`), Go's zero record, and the
  merge rule of `post`. Missing fields, meaning a nil `GPS`, a `0` `AKKU` or a
  `0` `KM`, are filled from the stored record. `ID` and `STATE` always come
  from the request.
- `Paths`: `strings.Split` on a one-character separator, which `getScooter`
  uses to cut the URL, with its inverse `Join` and both round trips.
- `Seeding`: `setUp`, a loop that stores each decoded seed record under its ID.
  It is specified by the function `Seeded`.
- `Store`: the class `ScooterStore`, whose map field is updated in place by
  `Post` and read by `Get` (an array-filling loop), `GetScooter` and the method
  switch `Scooters`. `Upsert` and `ScooterAt` are the pure specifications these
  methods are proved against.

Modelling choices:

- `geo.Point` is an abstract type that is only compared for equality.
- `KM` and `AKKU` are the newtypes `int64` and `int16`. The code does no
  arithmetic on them.
- JSON decoding is an external producer. A POST body arrives as `Unreadable`,
  `Malformed(message)` or `Parsed(scooter)`. The seed file arrives as the
  records the decoder produced plus an optional error.
- The request URL is the string `r.URL.String()`. The request method is a
  string compared exactly, as Go's `switch` does.
- Map iteration order is unspecified in Go. `Get` picks keys with `:|`, so
  its contract holds for every order.

The code differs from a reading of its design in two places, and the model
follows the code:

- `setUp` does not clear the decoded records when decoding reports an error.
  It only logs the error and then stores whatever records the decoder left.
  The store starts empty only when the decoder produced no records.
  `Seeding.SetUp` is stated for both cases.
- `post` reads the stored record before it takes the lock (main.go:82). Only
  the write-back is locked (main.go:95-96). See "## Findings".

## Model

| member | source | states |
|---|---|---|
| Records.Merge | main.go:82-93 | ID and STATE come from the incoming record; GPS, AKKU and KM come from the incoming record when set (non-nil, non-zero) and from the existing record otherwise |
| Records.MergeIntoZero | main.go:82-96 | merging into Go's zero record (the lookup of a missing ID) gives back exactly the incoming record |
| Records.MergeFullySupplied | main.go:85-93 | an incoming record with GPS, AKKU and KM all set replaces the existing record outright |
| Records.MergeIdempotent | main.go:82-96 | merging the same incoming record twice gives the same record as merging it once |
| Records.MergeOmittedFields | main.go:82-96 | a request carrying only an ID keeps GPS, KM and AKKU but always resets STATE to false |
| Paths.Split | main.go:126 | strings.Split gives one more piece than there are separators, and no piece contains the separator |
| Paths.JoinSplit | main.go:126 | joining the pieces of a split with the separator gives back the original string |
| Paths.SplitPlainPrefix | main.go:126 | a leading run without separators becomes the start of the first piece |
| Paths.SplitJoin | main.go:126 | splitting the join of separator-free pieces gives back those pieces |
| Seeding.Seeded | main.go:166-172 | the seeded map's keys are exactly the seed records' IDs, it has at most as many entries as records, and each key holds a record with that ID |
| Seeding.SeededLast | main.go:168-172 | when IDs repeat, the record stored under an ID is the last seed record with that ID |
| Seeding.SetUp | main.go:154-174 | the loop builds exactly the seeded map of the decoded records, whether or not decoding reported an error; no records gives an empty map |
| Store.Upsert | main.go:82-96 | after a merge-upsert the keys are the old keys plus the incoming ID, every other key keeps its record, a new ID stores exactly the incoming record and a known ID stores the merge |
| Store.Lookup | main.go:82 | Go's map index: the record stored under the ID, or the zero record (nil GPS, 0 KM, 0 AKKU, false STATE, empty ID) when the ID is absent |
| Store.ReadPhase | main.go:82-93 | the record `post` computes from the store as read before the lock: it carries the incoming ID and equals the record an atomic merge-upsert would store |
| Store.WritePhase | main.go:95-96 | the locked write-back stores the merged record under its ID, adds that ID to the keys and leaves every other entry as it was |
| Store.UnracedPostIsUpsert | main.go:82-96 | when nothing writes between the read and the write-back, the two phases of `post` are exactly one merge-upsert |
| Store.UpsertKeepsWellKeyed | main.go:96 | a merge-upsert keeps every record stored under its own ID |
| Store.UpsertIdempotent | main.go:82-96 | posting the same record twice leaves the same store as posting it once |
| Store.SerialPostsCompose | main.go:82-96 | two atomic posts on one ID act as a single post of the second record merged over the first, so no supplied field is lost |
| Store.InterleavedPostsLoseUpdate | main.go:82-97 | with both unlocked reads done before either write, a field sent by the first post is lost and the result matches neither serial order |
| Store.UpsertSize | main.go:96 | the store grows by one entry exactly when the posted ID is new |
| Store.UpsertAllKeys | main.go:82-96 | after any series of posts the keys are the starting keys plus every posted ID, so nothing is ever removed |
| Store.SnapshotFromKeys | main.go:103-110 | a list built by visiting every key once is a listing: one entry per key, each the record stored under its ID, no ID twice |
| Store.ScooterAt | main.go:126-140 | a URL without exactly two '/' finds nothing; whatever is found is a stored record |
| Store.ScooterAtPath | main.go:126-140 | "/root/id" with no '/' inside root or id finds the record stored under id, or nothing if id is absent |
| Store.ScooterStore.constructor | main.go:31-37 | the store starts as the seeded map of the decoded seed records and keeps every record under its own ID |
| Store.ScooterStore.Post | main.go:55-97 | an unreadable body gives an internal error and a malformed body gives a bad request with the decoder's message, both leaving the store unchanged; a parsed record is merge-upserted and answered with OK |
| Store.ScooterStore.Get | main.go:101-111 | the returned list has one entry per stored key, each the record stored under its ID, no ID twice, every stored record present; the store is not changed |
| Store.ScooterStore.GetScooter | main.go:124-140 | answers Found with the record of the URL's third piece when the URL has exactly three pieces and that key is stored, NotFound otherwise, without changing the store |
| Store.ScooterStore.Scooters | main.go:39-52 | GET answers with a listing and leaves the store unchanged, POST has the effect of Post, and any other method answers MethodNotAllowed and leaves the store unchanged |

## Left out

- The mutex and concurrent request handling (main.go:27, 95-97, 105-111, 132-136).
  Every operation is a sequential method. The model does not capture that the
  code reads `h.store` at main.go:82 and `len(h.store)` at main.go:103 without
  the lock. It also does not capture that Go aborts the process on a
  concurrent map read and write. The one interleaving modelled is the lost
  update under "## Findings".
- JSON encoding and decoding (main.go:74, 113, 142, 158). The decoder is an
  input, and encoding is not modelled. The malformed struct tags at
  main.go:21-23 only change JSON field names.
- HTTP plumbing: headers, status-code numbers and response bodies beyond the
  abstract `Response` values. When encoding fails, `get` and `getScooter` write a 500 and
  then call `WriteHeader(200)` again, which net/http ignores
  (main.go:113-121, 142-150). That depends on encoding, so it is not
  modelled.
- URL escaping and query strings. `r.URL.String()` gives the
  percent-escaped path plus any query (main.go:126). An ID holding a space or
  a non-ASCII character is stored raw (main.go:96) but looked up escaped
  (main.go:134), so it is never found, and `/api/s1?x=1` looks up `s1?x=1`.
  The model takes the URL string as given, so the `id` in
  `Store.ScooterAtPath` is the escaped ID.
- The contents of `geo.Point` (floating-point latitude and longitude).
- The embedded seed file (main.go:15-16), the `fmt.Println` of the seed
  decode error (main.go:162), and `main` with its handler registration and
  `ListenAndServe` (main.go:178-187).

## Findings

| source | as written | input that shows it | evidently intended | confidence | as-written member | corrected member |
|---|---|---|---|---|---|---|
| main.go:82-97 | `post` reads the stored record and computes the merge before `h.Lock()`; only the write-back is locked | store `{s1: km 10, akku 80}`; two POSTs on `s1`, the first with only `akku: 75`, the second with only `km: 20`, both reading before either writes: the stored akku ends as 80, while either serial order gives 75 | the lookup, merge and write-back form one critical section, so two posts on one ID behave as one post of the second merged over the first | medium, not executed | Store.InterleavedPostsLoseUpdate | Store.SerialPostsCompose |
