/** Shared vocabulary of the parking backend: optional values, results,
    the vehicle-class enum used by both slots and user vehicles, and the
    fixed constants of the booking engine (time is integer milliseconds). */
module Common {

  datatype Option<+T> = None | Some(value: T)

  datatype Result<+T, +E> = Ok(value: T) | Err(error: E)

  /** Vehicle class shared by `ParkingSlot.type` and `IVehicle.type`. */
  datatype VehicleClass = Car | Bike | Truck | Handicapped

  const MINUTE_MS: int := 60_000
  const HOUR_MS: int := 3_600_000

  /** Hourly rate used by creation and extension alike. */
  const RATE_PER_HOUR: int := 50

  /** Arrival buffer granted to a WEB reservation. */
  const BUFFER_MINUTES: int := 30

  /** A start time up to five minutes in the past is still accepted. */
  const START_GRACE_MS: int := 5 * 60 * 1000

  /** `Math.ceil(a / b)` for a positive divisor; Dafny's `/` floors here. */
  function CeilDiv(a: int, b: int): (q: int)
    requires b > 0
    ensures (q - 1) * b < a <= q * b
  {
    -((-a) / b)
  }
}
