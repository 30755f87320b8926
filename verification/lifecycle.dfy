/** The booking lifecycle across handlers. Every request that writes
    bookings is one atomic step over the store; a run is a sequence of
    steps, each at its own instant. A failed request writes nothing. */
module Lifecycle {
  import opened Common
  import opened Slots
  import opened Bookings
  import opened Users
  import opened State
  import opened BookingService
  import opened SlotController
  import opened BookingRoutes
  import opened AuthController
  import opened Repair

  datatype Event =
    | Book(userId: Option<string>, carNumber: string, slotId: string, start: int, end: int,
           source: Option<Source>, vehicleId: string)
    | Cancel(id: nat)
    | Extend(id: nat, hours: int)
    | PlateSeen(plate: string)
    | Tick
    | Sensor(ref: SlotRef, signal: Signal)
    | Register(name: string, email: string, password: string, plateNumber: string,
               vehicleType: Option<VehicleClass>, passwordHash: string, newUserId: string, vehicleId: string)
    | FixAssociations

  /** Where a status may lead: PENDING_ARRIVAL to anything, ACTIVE to
      COMPLETED or CANCELLED, and the two terminal states nowhere else. */
  predicate Reaches(from: BookingStatus, to: BookingStatus)
  {
    from == to || from == PendingArrival || (from == Active && (to == Completed || to == Cancelled))
  }

  /** `b` is a later version of `a`: the same slot, plate, start, source and
      creation time, and a reachable status. */
  predicate Evolves(a: Booking, b: Booking)
  {
    && a.slotId == b.slotId && a.carNumber == b.carNumber && a.startTime == b.startTime
    && a.source == b.source && a.createdAt == b.createdAt
    && Reaches(a.status, b.status)
  }

  /** Every booking of `st` survives in `r`, at the same id, evolved. */
  predicate Succeeds(st: Store, r: Store)
  {
    && |st.bookings| <= |r.bookings|
    && forall i :: 0 <= i < |st.bookings| ==> Evolves(st.bookings[i], r.bookings[i])
  }

  /** The store after the association repair. */
  function Repaired(st: Store, now: int): Store
  {
    st.(bookings := seq(|st.bookings|, i requires 0 <= i < |st.bookings| => FixOne(st.bookings[i], st.users, now)))
  }

  /** One request at instant `now`. */
  function Apply(st: Store, now: int, e: Event): Store
  {
    match e
    case Book(userId, carNumber, slotId, start, end, source, vehicleId) =>
      var r := PostBooking(st, now, userId, carNumber, slotId, start, end, source, vehicleId);
      if r.Ok? then r.value.0 else st
    case Cancel(id) =>
      var r := CancelBooking(st, now, id);
      if r.Ok? then r.value else st
    case Extend(id, hours) =>
      var r := ExtendBooking(st, now, id, hours);
      if r.Ok? then r.value else st
    case PlateSeen(plate) => RecognizePlate(st, now, plate).0
    case Tick => Sweep(st, now)
    case Sensor(ref, signal) =>
      var r := UpdateSlotStatus(st, now, ref, signal);
      if r.Ok? then r.value.0 else st
    case Register(name, email, password, plateNumber, vehicleType, passwordHash, newUserId, vehicleId) =>
      var r := RegisterUser(st, now, name, email, password, plateNumber, vehicleType, passwordHash, newUserId, vehicleId);
      if r.Ok? then r.value else st
    case FixAssociations => Repaired(st, now)
  }

  /** Runs the timed requests in order. */
  function Run(st: Store, steps: seq<(int, Event)>): Store
    decreases |steps|
  {
    if |steps| == 0 then st else Run(Apply(st, steps[0].0, steps[0].1), steps[1..])
  }

  lemma TransitionSucceeds(st: Store, now: int, k: nat, signal: Signal)
    requires k < |st.slots|
    ensures Succeeds(st, Transition(st, now, k, signal))
  {
    var r := Transition(st, now, k, signal);
    var slot := st.slots[k];
    if signal == SensorFree && slot.status == Occupied && ActiveOn(st.bookings, slot.id).Some? {
      var i := ActiveOn(st.bookings, slot.id).value;
      assert forall j :: 0 <= j < |st.bookings| && j != i ==> r.bookings[j] == st.bookings[j];
    } else if signal == SensorOccupied && slot.status == Reserved && EarliestPending(st.bookings, slot.id).Some? {
      var i := EarliestPending(st.bookings, slot.id).value;
      assert forall j :: 0 <= j < |st.bookings| && j != i ==> r.bookings[j] == st.bookings[j];
    } else if signal == SensorFree && slot.status == Reserved && EarliestPending(st.bookings, slot.id).Some? {
      var i := EarliestPending(st.bookings, slot.id).value;
      var b := st.bookings[i];
      if b.bufferExpiry.Some? && now > b.bufferExpiry.value {
        assert forall j :: 0 <= j < |st.bookings| && j != i ==> r.bookings[j] == st.bookings[j];
      }
    }
  }

  /** A store that only appended bookings succeeds the old one. */
  lemma PrefixSucceeds(st: Store, r: Store)
    requires |st.bookings| <= |r.bookings| && r.bookings[..|st.bookings|] == st.bookings
    ensures Succeeds(st, r)
  {
    forall i | 0 <= i < |st.bookings| ensures r.bookings[i] == st.bookings[i] {
      assert r.bookings[..|st.bookings|][i] == st.bookings[i];
    }
  }

  lemma CreateSucceeds(st: Store, now: int, userId: Option<string>, carNumber: string, slotId: string,
                       start: int, end: int, source: Source, vehicleId: string)
    requires CreateBooking(st, now, userId, carNumber, slotId, start, end, source, vehicleId).Ok?
    ensures Succeeds(st, CreateBooking(st, now, userId, carNumber, slotId, start, end, source, vehicleId).value.0)
  {
    PrefixSucceeds(st, CreateBooking(st, now, userId, carNumber, slotId, start, end, source, vehicleId).value.0);
  }

  /** An accepted booking request only appends. */
  lemma BookSucceeds(st: Store, now: int, userId: Option<string>, carNumber: string, slotId: string,
                     start: int, end: int, source: Option<Source>, vehicleId: string)
    requires PostBooking(st, now, userId, carNumber, slotId, start, end, source, vehicleId).Ok?
    ensures Succeeds(st, PostBooking(st, now, userId, carNumber, slotId, start, end, source, vehicleId).value.0)
  {
    var c := CreateBooking(st, now, userId, carNumber, slotId, start, end, SourceOrDefault(source), vehicleId);
    assert c.Ok? && PostBooking(st, now, userId, carNumber, slotId, start, end, source, vehicleId).value == c.value;
    CreateSucceeds(st, now, userId, carNumber, slotId, start, end, SourceOrDefault(source), vehicleId);
  }

  lemma CancelSucceeds(st: Store, now: int, id: nat)
    requires CancelBooking(st, now, id).Ok?
    ensures Succeeds(st, CancelBooking(st, now, id).value)
  {
    var r := CancelBooking(st, now, id).value;
    assert forall j :: 0 <= j < |st.bookings| && j != id ==> r.bookings[j] == st.bookings[j];
  }

  lemma ExtendSucceeds(st: Store, now: int, id: nat, hours: int)
    requires ExtendBooking(st, now, id, hours).Ok?
    ensures Succeeds(st, ExtendBooking(st, now, id, hours).value)
  {
    var r := ExtendBooking(st, now, id, hours).value;
    assert forall j :: 0 <= j < |st.bookings| && j != id ==> r.bookings[j] == st.bookings[j];
  }

  lemma PlateSucceeds(st: Store, now: int, plate: string)
    ensures Succeeds(st, RecognizePlate(st, now, plate).0)
  {
    var c := RecognizePlate(st, now, plate);
    if c.1.Some? {
      assert forall j :: 0 <= j < |st.bookings| && j != c.1.value ==> c.0.bookings[j] == st.bookings[j];
    }
  }

  lemma TickSucceeds(st: Store, now: int)
    ensures Succeeds(st, Sweep(st, now))
  {
    var r := Sweep(st, now);
    forall i | 0 <= i < |st.bookings| ensures Evolves(st.bookings[i], r.bookings[i]) {
      assert r.bookings[i] == SweepBooking(st.bookings[i], now);
    }
  }

  lemma SensorSucceeds(st: Store, now: int, ref: SlotRef, signal: Signal)
    requires UpdateSlotStatus(st, now, ref, signal).Ok?
    ensures Succeeds(st, UpdateSlotStatus(st, now, ref, signal).value.0)
  {
    if !IsGate(ref) {
      TransitionSucceeds(st, now, ResolveSlot(st.slots, ref).value, signal);
    }
  }

  lemma RegisterSucceeds(st: Store, now: int, name: string, email: string, password: string, plateNumber: string,
                         vehicleType: Option<VehicleClass>, passwordHash: string, newUserId: string, vehicleId: string)
    requires RegisterUser(st, now, name, email, password, plateNumber, vehicleType, passwordHash, newUserId, vehicleId).Ok?
    ensures Succeeds(st, RegisterUser(st, now, name, email, password, plateNumber, vehicleType, passwordHash,
                                      newUserId, vehicleId).value)
  {
    var r := RegisterUser(st, now, name, email, password, plateNumber, vehicleType, passwordHash, newUserId, vehicleId).value;
    if plateNumber != "" {
      var linked := LinkBookings(st.bookings, plateNumber, newUserId, now);
      assert r.bookings == linked;
      forall i | 0 <= i < |st.bookings| ensures Evolves(st.bookings[i], linked[i]) {
        if Adoptable(st.bookings[i], plateNumber) {
          assert linked[i] == st.bookings[i].(userId := Some(newUserId), updatedAt := now);
        } else {
          assert linked[i] == st.bookings[i];
        }
      }
    }
  }

  lemma FixSucceeds(st: Store, now: int)
    ensures Succeeds(st, Repaired(st, now))
  {
    var r := Repaired(st, now);
    forall i | 0 <= i < |st.bookings| ensures Evolves(st.bookings[i], r.bookings[i]) {
      assert r.bookings[i] == FixOne(st.bookings[i], st.users, now);
    }
  }

  /** Each request keeps every booking, at its id, and only moves its
      status forward. */
  lemma ApplySucceeds(st: Store, now: int, e: Event)
    ensures Succeeds(st, Apply(st, now, e))
  {
    match e
    case Book(userId, carNumber, slotId, start, end, source, vehicleId) =>
      if PostBooking(st, now, userId, carNumber, slotId, start, end, source, vehicleId).Ok? {
        BookSucceeds(st, now, userId, carNumber, slotId, start, end, source, vehicleId);
      }
    case Cancel(id) =>
      if CancelBooking(st, now, id).Ok? {
        CancelSucceeds(st, now, id);
      }
    case Extend(id, hours) =>
      if ExtendBooking(st, now, id, hours).Ok? {
        ExtendSucceeds(st, now, id, hours);
      }
    case PlateSeen(plate) => PlateSucceeds(st, now, plate);
    case Tick => TickSucceeds(st, now);
    case Sensor(ref, signal) =>
      if UpdateSlotStatus(st, now, ref, signal).Ok? {
        SensorSucceeds(st, now, ref, signal);
      }
    case Register(name, email, password, plateNumber, vehicleType, passwordHash, newUserId, vehicleId) =>
      if RegisterUser(st, now, name, email, password, plateNumber, vehicleType, passwordHash, newUserId, vehicleId).Ok? {
        RegisterSucceeds(st, now, name, email, password, plateNumber, vehicleType, passwordHash, newUserId, vehicleId);
      }
    case FixAssociations => FixSucceeds(st, now);
  }

  /** Over any run, no booking disappears or changes slot, plate, start or
      source, and statuses only move forward. */
  lemma {:induction false} RunSucceeds(st: Store, steps: seq<(int, Event)>)
    ensures Succeeds(st, Run(st, steps))
    decreases |steps|
  {
    if |steps| > 0 {
      var mid := Apply(st, steps[0].0, steps[0].1);
      ApplySucceeds(st, steps[0].0, steps[0].1);
      RunSucceeds(mid, steps[1..]);
    }
  }

  /** COMPLETED and CANCELLED are final: no sequence of requests changes
      such a booking's status. */
  lemma FinishedStaysFinished(st: Store, steps: seq<(int, Event)>, i: nat)
    requires i < |st.bookings| && !st.bookings[i].IsLive()
    ensures i < |Run(st, steps).bookings|
    ensures Run(st, steps).bookings[i].status == st.bookings[i].status
  {
    RunSucceeds(st, steps);
  }

  /** A booking that has gone ACTIVE never returns to PENDING_ARRIVAL. */
  lemma NoReturnToPending(st: Store, steps: seq<(int, Event)>, i: nat)
    requires i < |st.bookings| && st.bookings[i].status != PendingArrival
    ensures i < |Run(st, steps).bookings|
    ensures Run(st, steps).bookings[i].status != PendingArrival
  {
    RunSucceeds(st, steps);
  }

  /** At the buffer deadline itself the two expiry paths disagree: the sweep
      cancels the pending booking (no time remains), while a FREE report on
      its RESERVED slot leaves everything as it was (the deadline has not
      strictly passed). */
  lemma DeadlineInstantDisagrees(st: Store, k: nat)
    requires k < |st.slots| && st.slots[k].status == Reserved
    requires EarliestPending(st.bookings, st.slots[k].id).Some?
    requires st.bookings[EarliestPending(st.bookings, st.slots[k].id).value].bufferExpiry.Some?
    ensures var i := EarliestPending(st.bookings, st.slots[k].id).value;
            var now := st.bookings[i].bufferExpiry.value;
            && Sweep(st, now).bookings[i].status == Cancelled
            && Transition(st, now, k, SensorFree) == st
  {
  }
}
