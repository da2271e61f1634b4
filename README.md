# Element path of figure-skaters-api, modelled in Dafny

figure-skaters-api is a small Go REST service for figure-skating elements and
their categories, stored in PostgreSQL. This project models the element path:

- **`ElementRepository`** (`element_repository.dfy`). This is a class whose
  fields are the `skating_elements` and `categories` tables, kept as maps from
  id to row, plus the store's id sequence. Its methods `GetAll`, `GetByID`,
  `Create`, `Update` and `Delete` change and read those fields the way the
  repository's SQL statements do. Each method is proved equal to a pure
  function on a value of the whole store.
- **`ElementTable`** (`element_table.dfy`). These are the pure functions:
  - `Rows` is `ORDER BY id`.
  - `Lookup` is the `LEFT JOIN` against `categories`.
  - `Insert` is `INSERT … RETURNING id, created_at`.
  - `Replace` is the five-column `UPDATE`.
  - `Remove` is `DELETE`.

  The module also proves the table properties: listings are complete and
  ascending, not-found leaves the store unchanged, update is idempotent, get
  after delete is not-found, and get after create returns the created row.
- **`ElementHandler`** (`element_handler.dfy`). This is the HTTP handler as a
  pure function of the request facts: the method, the URL path, and the
  decoded body, or nothing when JSON decoding failed. `Dispatch` either
  answers at once (405, 400 for a bad id, 400 for a bad body) or names the one
  repository call to make. The `…Response` functions map that call's outcome
  to a status and body. `Serve` composes the two with the table functions.
  `ServeRequest` runs the same steps against a repository object and is
  proved to agree with `Serve`.
- **`Strconv`** (`strconv.dfy`) is a small stand-in for `strings.TrimPrefix`
  and `strconv.Atoi`: an optional sign, decimal digits, and the 64-bit range.
  `FormatInt` is the partner that writes an id into a path.
- **`Masking`** (`mask.dfy`) is `maskConnectionString` from `main.go`, on bytes.
- **`Models`** (`models.dfy`) holds `Category`, `Element` and `ElementDetail`
  from `models/models.go:6-34`. `base_value` and `created_at` are opaque
  values.

Parameters stand in for the environment:
- `fault: Option<string>` is the store's answer to a call. `None` means the
  statement ran; `Some(text)` means the driver reported an error with that
  text.
- `now` is the clock the store stamps `created_at` with.

The service layer only forwards each call to the repository
(`services/element_service.go:16-34`). The handler model therefore calls the
repository model directly.

A `LEFT JOIN` would normally let an element with no matching category come
back with no category name. Here the code scans `c.name` into a Go `string`
(models/models.go:30, repositories/element_repository.go:47), so a NULL name
makes the scan fail. The model returns `NullCategoryName` for that case, and
the handler answers 404 with the scan error's text.

## Model

| member | source | states |
|---|---|---|
| ElementTable.Message | repositories/element_repository.go:49-51 | not-found reads "element not found", a driver error passes its own text through unchanged, and the NULL-name scan error reads differently from not-found |
| ElementTable.Rows | repositories/element_repository.go:18-34 | the rows of the ordered SELECT: as many as stored elements, each one of them |
| ElementTable.Lookup | repositories/element_repository.go:39-56 | the LEFT JOIN lookup is not-found exactly when the id is absent, and a result exists only for a stored element whose category exists, carrying that element's category id |
| ElementTable.Insert | repositories/element_repository.go:58-62 | the INSERT adds exactly one key, the returned row is stored under it, the id is fresh in a well-formed store and the sequence moves past it |
| ElementTable.Replace | repositories/element_repository.go:64-77 | the UPDATE fails exactly when the id is absent, only with not-found, and otherwise keeps the set of ids and the categories |
| ElementTable.Remove | repositories/element_repository.go:80-93 | the DELETE fails exactly when the id is absent, only with not-found, and otherwise removes exactly that id and keeps the categories |
| ElementTable.SortedIds | repositories/element_repository.go:18 | the ids come out strictly ascending, each is a key of the table, every key appears, and there are as many as keys |
| ElementTable.RowsAreTheTableInIdOrder | repositories/element_repository.go:17-35 | the listing holds every stored element exactly once, in strictly ascending id order, with nothing else; it is empty (not a failure) exactly when the table is empty |
| ElementTable.LookupMeaning | repositories/element_repository.go:38-56 | get-by-id is "element not found" exactly when the id is absent; it succeeds exactly when the element and its category both exist; the detail then has the element's fields and the name of the category whose id is the element's category_id |
| ElementTable.InsertAddsOneFreshRow | repositories/element_repository.go:58-62 | create stores the payload's name, code, category_id, base_value and difficulty_level under a store-assigned id that no row had, stamps created_at, writes both back into the caller's struct, and leaves every other row and the categories alone |
| ElementTable.InsertIdsIncrease | repositories/element_repository.go:59-60 | two creates in a row receive distinct, increasing ids, and the first row survives the second create |
| ElementTable.LookupAfterInsert | repositories/element_repository.go:38-62 | reading a created element back by its id returns the created row joined with its category's name; the NULL-name scan error comes back when the category is absent |
| ElementTable.ReplaceMeaning | repositories/element_repository.go:64-78 | update fails exactly when the id is absent, and then only with not-found; otherwise it replaces exactly the five mutable columns from the payload, keeps the row's id and created_at, and changes no other row, no category and no sequence value |
| ElementTable.ReplaceIdempotent | repositories/element_repository.go:65-66 | applying the same update payload twice gives the same store as applying it once |
| ElementTable.RemoveMeaning | repositories/element_repository.go:80-93 | delete fails exactly when the id is absent, and then only with not-found; otherwise exactly that row is gone and nothing else changes |
| ElementTable.LookupAfterRemove | repositories/element_repository.go:38-56 | after a successful delete, get-by-id on that id is not-found and no listed row has that id |
| ElementTable.RemoveTwice | repositories/element_repository.go:90-92 | a second delete of the same id reports not-found |
| ElementRepository.ElementRepository.constructor | repositories/element_repository.go:13-15 | the repository stands for the store it is given |
| ElementRepository.ElementRepository.GetAll | repositories/element_repository.go:17-35 | a failing query gives the driver's error and no list; otherwise the list built row by row is the table in strictly ascending id order, complete and without extras |
| ElementRepository.ElementRepository.GetByID | repositories/element_repository.go:38-56 | a store failure gives the driver's error; otherwise the result is the joined lookup, "element not found" exactly when the id is absent, and on success the stored element joined with its category's name |
| ElementRepository.ElementRepository.Create | repositories/element_repository.go:58-62 | on success the table gains exactly one row, under an id not used before, and the returned struct is that row; on a store error the struct and the store are unchanged |
| ElementRepository.ElementRepository.Update | repositories/element_repository.go:64-78 | with zero rows affected it returns "element not found" and leaves the store unchanged; a store error leaves it unchanged too; otherwise the new store is the update's |
| ElementRepository.ElementRepository.Delete | repositories/element_repository.go:80-93 | with zero rows affected it returns "element not found" and leaves the store unchanged; a store error leaves it unchanged too; otherwise exactly that row is removed |
| Strconv.Atoi | handlers/element_handler.go:74-75 | an id is read only from a non-empty string that starts with a digit or a sign, and it lies in the 64-bit range |
| Strconv.TrimPrefix | handlers/element_handler.go:74 | the prefix is dropped when the path starts with it; otherwise the path is unchanged |
| Strconv.AtoiFormatInt | handlers/element_handler.go:74-75 | every 64-bit id written in decimal reads back as itself |
| Strconv.AtoiSyntax | handlers/element_handler.go:74-79 | only decimal literals (digits, a sign at most in first place, ending in a digit) are read as ids, and every such literal of up to 18 characters is read |
| Strconv.AtoiRejectsEmpty | handlers/element_handler.go:75-79 | an empty suffix is not an integer |
| ElementHandler.PathID | handlers/element_handler.go:74-75 | the id read from the path lies in the 64-bit range, and the bare prefix `/api/elements/` yields no id |
| ElementHandler.HandleElements | handlers/element_handler.go:21-30 | the collection route only lists, creates the decoded body, or answers 400/405 itself as plain text |
| ElementHandler.HandleElementByID | handlers/element_handler.go:60-118 | the by-id route only gets, updates or deletes the id read from the path (update only with a decoded body), or answers 400/405 itself as plain text |
| ElementHandler.Dispatch | main.go:155-156 | `/api/elements` reaches only the collection actions and `/api/elements/` only the by-id actions |
| ElementHandler.GetAllResponse | handlers/element_handler.go:32-40 | a listing error is 500 with its text; otherwise 200 with the list |
| ElementHandler.CreateResponse | handlers/element_handler.go:50-56 | a create error is 400 with its text; otherwise 201 with the written-back element |
| ElementHandler.GetByIDResponse | handlers/element_handler.go:80-86 | any get-by-id error is 404 with its text; otherwise 200 with the detail |
| ElementHandler.UpdateResponse | handlers/element_handler.go:103-109 | any update error, not-found included, is 400 with its text; otherwise 200 echoing the element sent |
| ElementHandler.DeleteResponse | handlers/element_handler.go:119-126 | any delete error, not-found included, is 500 with its text; otherwise 200 with the confirmation message |
| ElementHandler.Perform | handlers/element_handler.go:32-127 | an early answer is returned as is with the store untouched; a store failure and every read leave the store unchanged; well-formedness is kept |
| ElementHandler.Serve | handlers/element_handler.go:21-127 | a whole request keeps the store well formed, leaves it unchanged when the store fails, and returns the early answer untouched when dispatch decides one |
| ElementHandler.CollectionDispatch | handlers/element_handler.go:21-48 | on the collection route GET lists, POST with a decodable body creates exactly that body, POST with an undecodable body is 400 "Invalid request body", and every other method is 405 "Method not allowed" |
| ElementHandler.ByIDDispatch | handlers/element_handler.go:60-118 | on the by-id route any method but GET, PUT and DELETE is 405; for those three a suffix that is not an integer (the empty one included) is 400 "Invalid element ID" before the body is read; each of the three repository calls is made exactly when its method arrives with a valid id (and, for PUT, a decodable body) |
| ElementHandler.UpdateTakesPathID | handlers/element_handler.go:89-103 | PUT sends the decoded body with its id replaced by the path id |
| ElementHandler.RejectedBeforeStore | handlers/element_handler.go:21-118 | a request the handler answers itself never reaches the store and gets 400 or 405 |
| ElementHandler.ServeInvariants | handlers/element_handler.go:21-127 | every request keeps the store well formed; any response other than 200 or 201 leaves the store exactly as it was; GET never changes it; every status is 200, 201, 400, 404, 405 or 500; the body is JSON exactly on success |
| ElementHandler.ListStatus | handlers/element_handler.go:32-40 | listing is 500 with the driver's text on a store failure, else 200 with the whole table in ascending id order |
| ElementHandler.CreateStatus | handlers/element_handler.go:42-57 | create is 400 with the driver's text on a store failure (store unchanged), else 201 with the stored element, whose id is new and whose other fields are the body's |
| ElementHandler.GetByIDStatus | handlers/element_handler.go:73-87 | get-by-id is 200 with the joined detail exactly when the store answers and the element and its category exist; every failure is 404 carrying the error's text: "element not found" for an absent id, the scan error's text for a missing category, the driver's text for a store failure |
| ElementHandler.UpdateStatus | handlers/element_handler.go:89-110 | update of an absent id is 400 "element not found" and a store failure is 400, both with the store unchanged; otherwise 200 echoing the body with the path id, and the row replaced |
| ElementHandler.DeleteStatus | handlers/element_handler.go:112-127 | delete of an absent id is 500 "element not found" and a store failure is 500, both with the store unchanged; otherwise 200 with {"message":"Element deleted successfully"} and exactly that row gone |
| ElementHandler.PathIDOfElementPath | handlers/element_handler.go:74-75 | the path `/api/elements/` followed by a 64-bit id in decimal yields that id |
| ElementHandler.CreateThenGet | handlers/element_handler.go:42-87 | POST then GET on the returned id's path gives 201 and then 200 with the created element joined with its category name |
| ElementHandler.DeleteThenGet | handlers/element_handler.go:73-127 | DELETE on an element's path succeeds and a following GET on it is 404 "element not found" |
| ElementHandler.UpdateTwice | handlers/element_handler.go:89-110 | the same PUT twice gives the same response and the same store as once |
| ElementHandler.NonNumericID | handlers/element_handler.go:73-79 | GET /api/elements/abc is 400 "Invalid element ID" whatever the store holds |
| ElementHandler.ServeRequest | handlers/element_handler.go:21-127 | the handler run step by step against the repository object gives the response and the new store that Serve gives |
| Masking.MaskConnectionString | main.go:175-180 | the output is 3 or 33 bytes long, and it is exactly "***" when and only when the input is shorter than 30 bytes (the empty input included) |
| Masking.MaskedLayout | main.go:179 | an input of 30 bytes or more masks to its first 20 bytes, "***", and its last 10 bytes, taken from disjoint positions, so at most 30 input bytes appear |
| Masking.MaskHidesTheRest | main.go:176-179 | inputs that agree on the first 20 and last 10 bytes mask alike, and all inputs under 30 bytes mask alike, so no other byte reaches the log |
| Masking.MaskIdempotent | main.go:176-179 | masking a masked string gives it back unchanged |

## Left out

- Server start-up in `main.go` (configuration loading, the port fallback, the fatal error on a missing connection string, database setup, route registration, `/health`, `ListenAndServe`): configuration and I/O. Which of the two handler entry points a path reaches is an input (`Route`), not a model of Go's `ServeMux`.
- `services/element_service.go`: every method only forwards to the repository, so the handler model calls the repository model directly.
- `repositories/product_repository.go`: it refers to a type that does not exist and its SQL does not match its scans, so it has no coherent behaviour to model.
- The category repository, service and handler are not part of this model; the `categories` table is read by the join but no operation here changes it.
- The SQL engine, the connection pool and concurrent requests: every store error is one opaque `fault` text per request.
- Store-level foreign keys on `category_id`: the schema is not part of this model, so creating or updating an element with an unknown category succeeds in the model.
- ElementRepository.ElementRepository.GetAll: an error that arrives while the rows are being read is not modelled. The source does not check `rows.Err()`, so such an error would cut the listing short. A scan error on a column is not modelled either.
- ElementRepository.ElementRepository.Create: a failed insert keeps the id sequence unchanged. A real sequence may consume a value even when the insert fails.
- JSON encoding and decoding: whether the body decoded is an input, and any encoding error is ignored, as in the source.
- `http.Error`'s trailing newline and its `X-Content-Type-Options` header are not modelled. A response carries only its status, its content type and its body.
- `base_value` (float64) and `created_at` (time.Time) are opaque values and are never computed with.
- Go's 64-bit `int` is bounded only where the path is parsed. Ids drawn from the sequence are unbounded, so the scenarios that put an id in a path require it to fit in 64 bits.
- Strconv.Atoi: Go's distinct syntax and range error values both become `None`. The handler treats them alike.
