/** End-to-end request sequences over a freshly wired in-memory store, service and handler, as the
    backend's integration tests drive them. */
module Integration {
  import opened Wrappers
  import opened Errors
  import opened Model
  import opened Repository
  import opened Service
  import opened Handler

  /** A fresh in-memory store behind a service behind a handler. */
  method NewServer() returns (handler: ReservationHandler)
    ensures fresh(handler.service.repo)
    ensures handler.service.repo.Valid() && handler.service.repo.reservations == map[]
  {
    var repo := new InMemoryReservationRepository();
    var service := new ReservationService(repo);
    handler := new ReservationHandler(service);
  }

  /** POST a valid span, GET, DELETE the returned ID, GET again: 201 with the new ID, a list of
      exactly that record, 204, and an empty list. */
  method CreateListDelete(startText: string, endText: string, parse: string -> Option<Instant>, id: string, now: Instant)
    returns (created: Response, listed: Response, deleted: Response, relisted: Response)
    requires startText != "" && endText != ""
    requires parse(startText).Some? && parse(endText).Some? && parse(startText).value < parse(endText).value
    requires id != "" && ZeroTime < now
    ensures created.status == StatusCreated && created.body.ReservationJson?
    ensures created.body.reservation.ID == id
    ensures listed == Response(StatusOK, ReservationListJson([created.body.reservation]))
    ensures deleted == Response(StatusNoContent, NoContent)
    ensures relisted == Response(StatusOK, ReservationListJson([]))
  {
    var handler := NewServer();
    created := handler.CreateReservation(Some(CreateRequest(startText, endText)), parse, id, now);
    listed := handler.GetAllReservations();
    ListingOfSingleton(listed.body.reservations, id, created.body.reservation);
    deleted := handler.DeleteReservation(created.body.reservation.ID);
    relisted := handler.GetAllReservations();
    ListingOfEmpty(relisted.body.reservations);
  }

  /** POST a span whose end equals its start, then GET: 400, and the list is still empty. */
  method EqualTimesRejected(text: string, parse: string -> Option<Instant>, id: string, now: Instant)
    returns (created: Response, listed: Response)
    requires text != "" && parse(text).Some?
    requires id != "" && ZeroTime < now
    ensures created == BadRequest("End time must be after start time")
    ensures listed == Response(StatusOK, ReservationListJson([]))
  {
    var handler := NewServer();
    created := handler.CreateReservation(Some(CreateRequest(text, text)), parse, id, now);
    listed := handler.GetAllReservations();
    ListingOfEmpty(listed.body.reservations);
  }

  /** DELETE with an empty ID: 400 "ID is required". */
  method EmptyIDRejected() returns (deleted: Response)
    ensures deleted.status == StatusBadRequest && deleted.body == ErrorJson("ID is required")
  {
    var handler := NewServer();
    deleted := handler.DeleteReservation("");
  }

  /** Over any store: after the service creates a reservation, the listing holds it and its ID,
      and otherwise exactly the records stored before under other IDs. */
  method CreateThenList(service: ReservationService, params: CreateReservationParams, id: string, now: Instant)
    returns (created: Result<Reservation, Error>, listed: Result<seq<Reservation>, Error>)
    requires service.repo.Valid()
    requires id != "" && ZeroTime < now
    modifies service.repo
    ensures created.Success? && listed.Success?
    ensures created.value in listed.value && id in IDsOf(listed.value)
    ensures forall r :: r in listed.value <==> r == created.value || (r in old(service.repo.reservations).Values && r.ID != id)
  {
    ghost var before := service.repo.reservations;
    created := service.CreateReservation(params, id, now);
    listed := service.GetAllReservations();
    ListingCoversEveryID(listed.value, service.repo.reservations);
    ListingHoldsStoredValues(listed.value, service.repo.reservations);
    assert service.repo.reservations[id] == created.value;
    forall r | r in before.Values && r.ID != id ensures r in service.repo.reservations.Values {
      var k :| k in before && before[k] == r;
      assert k == r.ID && service.repo.reservations[k] == r;
    }
  }

  /** Over any store: after the service deletes `id`, the listing no longer holds that ID, and
      holds exactly the records stored before under other IDs. */
  method DeleteThenList(service: ReservationService, id: string)
    returns (deleted: Outcome<Error>, listed: Result<seq<Reservation>, Error>)
    requires service.repo.Valid()
    modifies service.repo
    ensures deleted == Pass && listed.Success?
    ensures id !in IDsOf(listed.value)
    ensures forall r :: r in listed.value <==> r in old(service.repo.reservations).Values && r.ID != id
  {
    ghost var before := service.repo.reservations;
    deleted := service.DeleteReservation(id);
    listed := service.GetAllReservations();
    ListingCoversEveryID(listed.value, service.repo.reservations);
    ListingHoldsStoredValues(listed.value, service.repo.reservations);
    forall r | r in before.Values && r.ID != id ensures r in service.repo.reservations.Values {
      var k :| k in before && before[k] == r;
      assert k == r.ID && service.repo.reservations[k] == r;
    }
  }

  /** Creates each of `created`, in order, through the store's own Create, then lists: the store
      is the fold AfterCreates describes, and the listing holds exactly the created records, as
      many as were created, with exactly their IDs. */
  method CreateEachThenList(repo: InMemoryReservationRepository, created: seq<Reservation>)
    returns (listed: Result<seq<Reservation>, Error>)
    requires repo.Valid() && repo.reservations == map[]
    requires DistinctIDs(created)
    modifies repo
    ensures repo.reservations == AfterCreates(map[], created)
    ensures listed.Success? && |listed.value| == |created|
    ensures IDsOf(listed.value) == IDsOf(created)
    ensures multiset(listed.value) == multiset(created)
  {
    var i := 0;
    while i < |created|
      invariant 0 <= i <= |created|
      invariant repo.Valid()
      invariant repo.reservations == AfterCreates(map[], created[..i])
    {
      var err := repo.Create(created[i]);
      assert created[..i + 1][..i] == created[..i];
      i := i + 1;
    }
    assert created[..i] == created;
    listed := repo.FindAll();
    CreatedRecordsAreListed(created);
    ListingsArePermutations(listed.value, created, repo.reservations);
    ListingCoversEveryID(listed.value, repo.reservations);
    ListingCoversEveryID(created, repo.reservations);
  }
}
