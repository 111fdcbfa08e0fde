/** The reservation record and its constructor (backend/internal/model). */
module Model {

  /** An instant on Go's time line, in nanoseconds since Go's zero time (January 1, year 1, UTC).
      `Before` and `Equal` on `time.Time` compare instants, which here are `<` and `==`. */
  type Instant = int

  /** `time.Time{}`, the value `IsZero` recognises. */
  const ZeroTime: Instant := 0

  /** A booked time slot with its identity and audit timestamps. */
  datatype Reservation = Reservation(
    ID: string,
    StartTime: Instant,
    EndTime: Instant,
    CreatedAt: Instant,
    UpdatedAt: Instant)

  /** `NewReservation(startTime, endTime)`: `id` is the fresh UUID string and `now` the single clock
      reading it takes. Neither start nor end is checked: any span, even an empty or negative one,
      is accepted. */
  function NewReservation(startTime: Instant, endTime: Instant, id: string, now: Instant): (r: Reservation)
    requires id != ""
    requires ZeroTime < now
    ensures r.ID == id && r.ID != ""
    ensures r.StartTime == startTime && r.EndTime == endTime
    ensures r.CreatedAt == r.UpdatedAt == now
    ensures r.CreatedAt != ZeroTime && r.UpdatedAt != ZeroTime
  {
    Reservation(id, startTime, endTime, now, now)
  }
}
