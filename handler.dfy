/** The HTTP handlers (backend/internal/handler): an ordered ladder of early-return checks that maps
    a request to a status code, calling the service only once every check has passed. Echo's
    binding, the validator and `time.Parse(time.RFC3339, ...)` enter as values: the bound request
    (absent when the payload is malformed) and a parse function. */
module Handler {
  import opened Wrappers
  import opened Errors
  import opened Model
  import opened Repository
  import opened Service

  const StatusOK: int := 200
  const StatusCreated: int := 201
  const StatusNoContent: int := 204
  const StatusBadRequest: int := 400
  const StatusInternalServerError: int := 500

  /** createReservationRequest as echo binds it: a field missing from the JSON binds as "". */
  datatype CreateRequest = CreateRequest(StartTime: string, EndTime: string)

  /** The JSON written back: an error object, the validator's report (the names of the fields that
      failed `required`), a reservation, a list of reservations, or nothing. */
  datatype Body =
    | ErrorJson(error: string)
    | ValidationErrorJson(fields: seq<string>)
    | ReservationJson(reservation: Reservation)
    | ReservationListJson(reservations: seq<Reservation>)
    | NoContent

  datatype Response = Response(status: int, body: Body)

  function BadRequest(message: string): Response
  {
    Response(StatusBadRequest, ErrorJson(message))
  }

  /** The fields of `req` that fail the validator's `required` tag, in declaration order. */
  function MissingFields(req: CreateRequest): (fields: seq<string>)
    ensures fields == [] <==> req.StartTime != "" && req.EndTime != ""
    ensures "StartTime" in fields <==> req.StartTime == ""
    ensures "EndTime" in fields <==> req.EndTime == ""
  {
    (if req.StartTime == "" then ["StartTime"] else []) + (if req.EndTime == "" then ["EndTime"] else [])
  }

  /** The create requests that reach the service: the payload binds, both fields are present, both
      parse as instants, and the end is strictly after the start. */
  ghost predicate AcceptableCreate(bound: Option<CreateRequest>, parse: string -> Option<Instant>)
  {
    && bound.Some?
    && bound.value.StartTime != "" && bound.value.EndTime != ""
    && parse(bound.value.StartTime).Some? && parse(bound.value.EndTime).Some?
    && parse(bound.value.StartTime).value < parse(bound.value.EndTime).value
  }

  /** The checks of CreateReservation before the service call, in their order: bind, validate,
      parse the start, parse the end, then `end.Before(start) || end.Equal(start)`. */
  function ValidateCreateRequest(bound: Option<CreateRequest>, parse: string -> Option<Instant>): (v: Result<CreateReservationParams, Response>)
    ensures v.Success? <==> AcceptableCreate(bound, parse)
    ensures v.Success? ==> v.value.StartTime == parse(bound.value.StartTime).value
    ensures v.Success? ==> v.value.EndTime == parse(bound.value.EndTime).value
    ensures v.Success? ==> v.value.StartTime < v.value.EndTime
    ensures v.Failure? ==> v.error.status == StatusBadRequest
  {
    if bound.None? then Failure(BadRequest("Invalid request payload"))
    else
      var req := bound.value;
      var missing := MissingFields(req);
      if missing != [] then Failure(Response(StatusBadRequest, ValidationErrorJson(missing)))
      else match parse(req.StartTime)
        case None => Failure(BadRequest("Invalid start time format"))
        case Some(startTime) =>
          match parse(req.EndTime)
          case None => Failure(BadRequest("Invalid end time format"))
          case Some(endTime) =>
            if endTime < startTime || endTime == startTime then Failure(BadRequest("End time must be after start time"))
            else Success(CreateReservationParams(startTime, endTime))
  }

  /** Which check rejects a create request: each later check is reached only when every earlier one
      has passed, so an unparseable start is reported whatever the end holds. */
  lemma CreateRejections(req: CreateRequest, parse: string -> Option<Instant>)
    ensures ValidateCreateRequest(None, parse) == Failure(BadRequest("Invalid request payload"))
    ensures (req.StartTime == "" || req.EndTime == "") ==>
      ValidateCreateRequest(Some(req), parse) == Failure(Response(StatusBadRequest, ValidationErrorJson(MissingFields(req))))
    ensures (req.StartTime != "" && req.EndTime != "" && parse(req.StartTime).None?) ==>
      ValidateCreateRequest(Some(req), parse) == Failure(BadRequest("Invalid start time format"))
    ensures (req.StartTime != "" && req.EndTime != "" && parse(req.StartTime).Some? && parse(req.EndTime).None?) ==>
      ValidateCreateRequest(Some(req), parse) == Failure(BadRequest("Invalid end time format"))
    ensures (req.StartTime != "" && req.EndTime != "" && parse(req.StartTime).Some? && parse(req.EndTime).Some?
             && parse(req.EndTime).value <= parse(req.StartTime).value) ==>
      ValidateCreateRequest(Some(req), parse) == Failure(BadRequest("End time must be after start time"))
  {
  }

  /** The response to the service's answer on create: 201 with the reservation, or a generic 500
      that does not reveal the error. */
  function CreateResponse(res: Result<Reservation, Error>): (resp: Response)
    ensures resp.status == StatusCreated <==> res.Success?
    ensures res.Success? ==> resp.body == ReservationJson(res.value)
    ensures res.Failure? ==> resp == Response(StatusInternalServerError, ErrorJson("Failed to create reservation"))
  {
    match res
    case Success(reservation) => Response(StatusCreated, ReservationJson(reservation))
    case Failure(_) => Response(StatusInternalServerError, ErrorJson("Failed to create reservation"))
  }

  /** The response to the service's answer on list: 200 with the list (possibly empty), or 500. */
  function ListResponse(res: Result<seq<Reservation>, Error>): (resp: Response)
    ensures resp.status == StatusOK <==> res.Success?
    ensures res.Success? ==> resp.body == ReservationListJson(res.value)
    ensures res.Failure? ==> resp == Response(StatusInternalServerError, ErrorJson("Failed to get reservations"))
  {
    match res
    case Success(reservations) => Response(StatusOK, ReservationListJson(reservations))
    case Failure(_) => Response(StatusInternalServerError, ErrorJson("Failed to get reservations"))
  }

  /** The check of DeleteReservation before the service call: the path's ID must not be empty. */
  function ValidateDeleteID(id: string): (rejection: Option<Response>)
    ensures rejection.Some? <==> id == ""
    ensures rejection.Some? ==> rejection.value == BadRequest("ID is required")
  {
    if id == "" then Some(BadRequest("ID is required")) else None
  }

  /** The response to the service's answer on delete: 204 with no body, or 500. */
  function DeleteResponse(err: Outcome<Error>): (resp: Response)
    ensures resp.status == StatusNoContent <==> err.Pass?
    ensures err.Pass? ==> resp.body == NoContent
    ensures err.Fail? ==> resp == Response(StatusInternalServerError, ErrorJson("Failed to delete reservation"))
  {
    match err
    case Pass => Response(StatusNoContent, NoContent)
    case Fail(_) => Response(StatusInternalServerError, ErrorJson("Failed to delete reservation"))
  }

  /** ReservationHandler wired to its service; `id` and `now` stand for what `NewReservation`
      draws from `uuid.New()` and `time.Now()` once the service is called. */
  class ReservationHandler {
    const service: ReservationService

    /** NewReservationHandler. */
    constructor (service: ReservationService)
      ensures this.service == service
    {
      this.service := service;
    }

    /** POST /api/reservations: every rejected request answers 400 and leaves the store untouched;
        an accepted one stores a new reservation with the parsed span and answers 201 with it. */
    method CreateReservation(bound: Option<CreateRequest>, parse: string -> Option<Instant>, id: string, now: Instant) returns (resp: Response)
      requires service.repo.Valid()
      requires id != "" && ZeroTime < now
      modifies service.repo
      ensures service.repo.Valid()
      ensures !AcceptableCreate(bound, parse) ==>
        resp == ValidateCreateRequest(bound, parse).error && resp.status == StatusBadRequest && unchanged(service.repo)
      ensures AcceptableCreate(bound, parse) ==>
        var r := NewReservation(parse(bound.value.StartTime).value, parse(bound.value.EndTime).value, id, now);
        && resp == Response(StatusCreated, ReservationJson(r))
        && service.repo.reservations == old(service.repo.reservations)[id := r]
    {
      var checked := ValidateCreateRequest(bound, parse);
      if checked.Failure? {
        return checked.error;
      }
      var res := service.CreateReservation(checked.value, id, now);
      resp := CreateResponse(res);
    }

    /** GET /api/reservations: 200 with a listing of the store. */
    method GetAllReservations() returns (resp: Response)
      requires service.repo.Valid()
      ensures resp.status == StatusOK && resp.body.ReservationListJson?
      ensures IsListingOf(resp.body.reservations, service.repo.reservations)
    {
      var res := service.GetAllReservations();
      resp := ListResponse(res);
    }

    /** DELETE /api/reservations/{id}: an empty ID answers 400 without touching the store; any
        other ID is deleted (present or not) and answers 204. */
    method DeleteReservation(id: string) returns (resp: Response)
      requires service.repo.Valid()
      modifies service.repo
      ensures service.repo.Valid()
      ensures id == "" ==> resp == BadRequest("ID is required") && unchanged(service.repo)
      ensures id != "" ==> resp == Response(StatusNoContent, NoContent)
      ensures id != "" ==> service.repo.reservations == old(service.repo.reservations) - {id}
    {
      var rejection := ValidateDeleteID(id);
      if rejection.Some? {
        return rejection.value;
      }
      var err := service.DeleteReservation(id);
      resp := DeleteResponse(err);
    }
  }
}
