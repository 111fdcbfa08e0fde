/** The reservation lifecycle service (backend/internal/service): builds records and hands every
    storage operation to the repository it holds. */
module Service {
  import opened Wrappers
  import opened Errors
  import opened Model
  import opened Repository

  /** CreateReservationParams. Its `validate` tags are never checked on this path: the service
      trusts its caller for `StartTime < EndTime`. */
  datatype CreateReservationParams = CreateReservationParams(StartTime: Instant, EndTime: Instant)

  /** What CreateReservation returns once the repository has answered `stored` for `reservation`:
      the reservation itself, or the repository's error unchanged and no reservation. Holds for
      any repository, not only the in-memory one. */
  function CreateOutcome(reservation: Reservation, stored: Outcome<Error>): (res: Result<Reservation, Error>)
    ensures res.Failure? <==> stored.Fail?
    ensures res.Failure? ==> res.error == stored.error
    ensures res.Success? ==> res.value == reservation
  {
    match stored
    case Pass => Success(reservation)
    case Fail(e) => Failure(e)
  }

  /** ReservationService over the in-memory repository; it keeps no state of its own. */
  class ReservationService {
    const repo: InMemoryReservationRepository

    /** NewReservationService. */
    constructor (repo: InMemoryReservationRepository)
      ensures this.repo == repo
    {
      this.repo := repo;
    }

    /** Builds a reservation from `params`, with `id` as its fresh UUID and `now` as its single clock
        reading, and stores it. No validation of its own: any span is stored. */
    method CreateReservation(params: CreateReservationParams, id: string, now: Instant) returns (res: Result<Reservation, Error>)
      requires repo.Valid()
      requires id != "" && ZeroTime < now
      modifies repo
      ensures repo.Valid()
      ensures res.Success?
      ensures res.value.ID == id
      ensures res.value.StartTime == params.StartTime && res.value.EndTime == params.EndTime
      ensures res.value.CreatedAt == res.value.UpdatedAt == now
      ensures repo.reservations == old(repo.reservations)[id := res.value]
      ensures repo.FindByID(id) == Success(Some(res.value))
    {
      var reservation := NewReservation(params.StartTime, params.EndTime, id, now);
      var stored := repo.Create(reservation);
      res := CreateOutcome(reservation, stored);
    }

    /** Whatever the repository lists, in its order. */
    method GetAllReservations() returns (res: Result<seq<Reservation>, Error>)
      requires repo.Valid()
      ensures res.Success?
      ensures IsListingOf(res.value, repo.reservations)
    {
      res := repo.FindAll();
    }

    /** Deletes `id` from the repository; an absent ID is a successful no-op. */
    method DeleteReservation(id: string) returns (err: Outcome<Error>)
      requires repo.Valid()
      modifies repo
      ensures repo.Valid() && err == Pass
      ensures repo.reservations == old(repo.reservations) - {id}
      ensures repo.FindByID(id) == Success(None)
    {
      err := repo.Delete(id);
    }
  }
}
