# Reservation lifecycle of the yoyaku booking backend, in Dafny

This project models the core of the yoyaku reservation backend, a small Go service that lets
clients create, list and delete time-slot reservations through an HTTP JSON API. It covers four
layers, each in its own module:

- `Model` (`model.dfy`): the `Reservation` record and `NewReservation`. The constructor's fresh
  UUID and its single `time.Now()` reading are parameters. Instants are integers: nanoseconds
  since Go's zero time, so `ZeroTime` is 0 and `Before`/`Equal` become `<`/`==`.
- `Repository` (`repository.dfy`): the in-memory store as a class whose `reservations` map is
  updated in place by `Create` and `Delete`. `FindAll` fills a fresh list in a loop, and
  `FindByID` is a read-only lookup. The MySQL store contributes one pure decision: the driver's
  no-rows sentinel becomes absence, and any other scan error becomes a wrapped failure. Because
  map iteration order is unspecified, `FindAll` is specified by `IsListingOf`. This predicate
  says the list has one entry per stored ID and each entry is the record stored under that ID.
  Lemmas then show that a listing covers every key, holds exactly the stored values, and is
  unique up to permutation.
- `Service` (`service.dfy`): `ReservationService` as a class holding the store. It builds a
  reservation, stores it, and passes on the store's error unchanged (`CreateOutcome`). Listing
  and deleting go straight to the store.
- `Handler` (`handler.dfy`): the early-return ladder of the three HTTP handlers, written as pure
  functions over the bound request and a parse function. A `ReservationHandler` class calls the
  service only after every check has passed. `Integration` (`integration.dfy`) replays the
  backend's end-to-end request sequences on a freshly wired store, service and handler.

`Wrappers` (Option/Result/Outcome) and `Errors` (Go `error` values, `%w` wrapping and `errors.Is`)
are the supporting modules.

## Model

| member | source | states |
|---|---|---|
| `Errors.Errorf` | backend/internal/repository/repository.go:158 | the wrapped error still matches its cause under `errors.Is`, is not the cause itself, and its text is the context, ": ", then the cause's text |
| `Model.NewReservation` | backend/internal/model/reservation.go:17-26 | the ID is the fresh non-empty one; start and end are copied unchanged, with no ordering required between them; `CreatedAt == UpdatedAt ==` the single clock reading, which is not the zero time |
| `Repository.InMemoryReservationRepository.constructor` | backend/internal/repository/repository.go:26-30 | a new store is empty and keyed by ID |
| `Repository.InMemoryReservationRepository.Create` | backend/internal/repository/repository.go:32-38 | never fails; the map gains or replaces exactly the entry for `reservation.ID`, and every other key's lookup is unchanged; `FindByID(reservation.ID)` then returns the record; the size grows by one only when the ID was new |
| `Repository.InMemoryReservationRepository.FindAll` | backend/internal/repository/repository.go:40-50 | never fails and returns a listing of the store: as many entries as stored IDs, pairwise distinct IDs, each entry the record stored under its ID (empty when the store is empty) |
| `Repository.InMemoryReservationRepository.FindByID` | backend/internal/repository/repository.go:52-62 | never fails; returns a record exactly when the ID is stored, and that record is the stored one and carries the asked ID; otherwise returns explicit absence |
| `Repository.InMemoryReservationRepository.Delete` | backend/internal/repository/repository.go:64-70 | never fails; removes exactly the key `id`, so `FindByID(id)` is then absent and every other lookup is unchanged; deleting an absent ID leaves the store as it was |
| `Repository.ListingCoversEveryID` | backend/internal/repository/repository.go:44-49 | the IDs in a listing are exactly the store's keys (by counting: distinct IDs drawn from the keys, as many as the keys) |
| `Repository.ListingHoldsStoredValues` | backend/internal/repository/repository.go:44-49 | a record is in a listing if and only if it is one of the map's values |
| `Repository.ListingsArePermutations` | backend/internal/repository/repository.go:44-49 | the listing order is unspecified, but any two listings of the same store are permutations of each other |
| `Repository.ListingOfEmpty` | backend/internal/repository/repository.go:44-49 | listing an empty store gives the empty list |
| `Repository.ListingOfSingleton` | backend/internal/repository/repository.go:44-49 | listing a store holding one record gives exactly that record |
| `Repository.CreatedRecordsAreListed` | backend/internal/repository/repository.go:32-49 | after N creates with distinct IDs on an empty store, the created records themselves form a listing, so listing returns N records whose IDs are exactly the created ones |
| `Repository.FindByIDFromScan` | backend/internal/repository/repository.go:148-166 | absence if and only if the scan returned exactly the no-rows sentinel; failure if and only if it returned any other error, which is wrapped under "failed to find reservation" and still matches it under `errors.Is`; a scanned row is returned as found |
| `Repository.WrappedNoRowsIsFailure` | backend/internal/repository/repository.go:153-159 | the no-rows test is an identity check, so an error that merely wraps the sentinel is reported as a failure, not as absence |
| `Repository.SameTextIsNotNoRows` | backend/internal/repository/repository.go:153 | the no-rows sentinel is recognised by identity, not by its text: a different error carrying the same message is a failure |
| `Service.CreateOutcome` | backend/internal/service/reservation_service.go:25-30 | for any store: a failure exactly when the store failed, carrying the store's error unchanged; otherwise the very reservation handed to the store |
| `Service.ReservationService.constructor` | backend/internal/service/reservation_service.go:14-16 | the service holds the given repository |
| `Service.ReservationService.CreateReservation` | backend/internal/service/reservation_service.go:23-31 | on the in-memory store it always succeeds, with no validation of its own; it returns the record it stored, whose ID is the fresh one, whose start and end are the parameters and whose timestamps are the clock reading; the store gains exactly that entry, and `FindByID` finds it |
| `Service.ReservationService.GetAllReservations` | backend/internal/service/reservation_service.go:33-35 | returns the repository's listing unchanged |
| `Service.ReservationService.DeleteReservation` | backend/internal/service/reservation_service.go:37-39 | passes the ID unchanged to the repository and returns its result; the key is gone afterwards |
| `Handler.MissingFields` | backend/internal/handler/reservation_handler.go:41-43 | the validator's `required` failures: empty exactly when both fields are non-empty, and names each field that is empty |
| `Handler.ValidateCreateRequest` | backend/internal/handler/reservation_handler.go:36-62 | a request reaches the service exactly when it binds, both fields are present, both parse, and end is strictly after start; the parameters are then the parsed instants; every rejection is a 400 |
| `Handler.CreateRejections` | backend/internal/handler/reservation_handler.go:37-57 | the order of the checks and the message of each: bad payload, then missing field, then unparseable start (whatever the end holds), then unparseable end, then `end <= start` |
| `Handler.CreateResponse` | backend/internal/handler/reservation_handler.go:64-69 | 201 with the service's reservation exactly when the service succeeded; otherwise a generic 500 that does not reveal the error |
| `Handler.ListResponse` | backend/internal/handler/reservation_handler.go:72-79 | 200 with the service's list exactly when it succeeded; otherwise 500 |
| `Handler.ValidateDeleteID` | backend/internal/handler/reservation_handler.go:82-85 | rejects exactly the empty ID, with 400 "ID is required" |
| `Handler.DeleteResponse` | backend/internal/handler/reservation_handler.go:87-91 | 204 with no body exactly when the service succeeded; otherwise 500 |
| `Handler.ReservationHandler.constructor` | backend/internal/handler/reservation_handler.go:17-22 | the handler holds the given service |
| `Handler.ReservationHandler.CreateReservation` | backend/internal/handler/reservation_handler.go:35-69 | every request that fails a check answers 400 and leaves the store untouched, because the service is not called; an accepted one stores `NewReservation` of the parsed span and answers 201 with it |
| `Handler.ReservationHandler.GetAllReservations` | backend/internal/handler/reservation_handler.go:72-79 | over the in-memory store: 200 with a listing of the store |
| `Handler.ReservationHandler.DeleteReservation` | backend/internal/handler/reservation_handler.go:81-92 | an empty ID answers 400 and leaves the store untouched; any other ID is removed if present and answers 204 |
| `Integration.NewServer` | backend/internal/integration_test.go:18-30 | a freshly wired handler over a new, empty in-memory store |
| `Integration.CreateListDelete` | backend/internal/integration_test.go:32-145 | POST of a valid span answers 201 with the new ID; GET lists exactly that record; DELETE of its ID answers 204; GET then lists nothing |
| `Integration.CreateThenList` | backend/internal/service/reservation_service.go:23-35 | over any store: after a create, the listing holds the new record and its ID, and otherwise exactly the records stored before under other IDs |
| `Integration.DeleteThenList` | backend/internal/service/reservation_service.go:33-39 | over any store: after a delete, the listing no longer holds the ID, and holds exactly the records stored before under other IDs |
| `Integration.CreateEachThenList` | backend/internal/repository/repository.go:32-50 | calling `Create` on N records with distinct IDs, in order, on an empty store leaves the store described by `AfterCreates`; listing then returns those N records (the same multiset) with exactly their IDs |
| `Integration.EqualTimesRejected` | backend/internal/handler/reservation_handler.go:55-57 | POST with end equal to start answers 400 "End time must be after start time" and the list stays empty |
| `Integration.EmptyIDRejected` | backend/internal/handler/reservation_handler_test.go:367-390 | DELETE with an empty ID answers 400 "ID is required" |

## Left out

- The `sync.RWMutex` of the in-memory store: operations are modelled one at a time, so the
  "no torn reads" guarantee under concurrency is not modelled.
- Pointer aliasing: the Go store keeps `*Reservation` pointers, so a caller could mutate a stored
  record after `Create`. Records are values here, so a stored record's ID always equals its key.
- `uuid.New()` and `time.Now()`: their results are the `id` and `now` parameters. Only what they
  guarantee is assumed: a non-empty ID and a reading after the zero time. UUID uniqueness is a
  precondition of the lemmas that need it (`DistinctIDs`).
- The MySQL store's SQL text, table creation, `Create`, `FindAll`, `Delete`, row scanning and
  `rows.Err` handling are database-driver plumbing. Only the no-rows translation of `FindByID` is
  modelled, over an abstract scan result. The `==` comparison with `sql.ErrNoRows` is modelled
  by a dedicated `NoRows` error value, so it is an identity check as in Go.
- `Service.ReservationService`: it is tied to the in-memory store, because the repository
  interface has two implementations and Dafny interfaces (traits) are not used here. For any
  store, its error propagation is stated by `Service.CreateOutcome`.
- `Handler.ValidateCreateRequest`: the following are abstracted. Echo's JSON binding becomes an
  optional request. The go-playground validator becomes "required means non-empty", and only the
  names of the failing fields are reported, not the validator's message text.
  `time.Parse(time.RFC3339, …)` (RFC 3339, section 5.6) becomes a parse function parameter.
- Route registration, echo's context and response writing, the `/health` endpoint, and
  `cmd/server/main.go`: these are framework wiring and I/O. The response is returned as a
  status and a body value.
- The `validate` tags on `CreateReservationParams` (`required`, `gtfield=StartTime`) are never
  evaluated on the service path, so they are not modelled.
- Time zones and monotonic clock readings of `time.Time`: only the instant is kept.
- The frontend: it is UI code.
