/** The booking engine: creation (grace window, slot and vehicle overlap
    checks, best-effort owner linking, ceil-hours cost, WEB versus KIOSK
    initial state), cancellation, extension, plate-recognition entry and
    the buffer-expiry and reminder sweep. Each handler is one atomic step
    from a store to a store; `now` is injected; a failure returns no store,
    so a failed call changes nothing. */
module BookingService {
  import opened Common
  import opened Seqs
  import opened Text
  import opened Slots
  import opened Bookings
  import opened Users
  import opened State

  datatype BookingError =
    | StartInPast
    | SlotNotFound
    | SlotTaken
    | VehicleTaken
    | OwnerSaveFailed
    | BookingNotFound
    | AlreadyFinished
    | NotExtendable

  /** `Math.ceil(durationHours) * 50` for the window [start, end). */
  function BookingCost(start: int, end: int): (cost: int)
    ensures cost % RATE_PER_HOUR == 0
    ensures (cost / RATE_PER_HOUR - 1) * HOUR_MS < end - start <= (cost / RATE_PER_HOUR) * HOUR_MS
    ensures end <= start ==> cost <= 0
  {
    var hours := CeilDiv(end - start, HOUR_MS);
    assert hours * RATE_PER_HOUR / RATE_PER_HOUR == hours;
    hours * RATE_PER_HOUR
  }

  // ---- creation ----

  /** The user an anonymous booking is attributed to: the first whose
      `managedCars` holds the upper-cased, trimmed plate. */
  function PlateOwner(users: seq<User>, carNumber: string): (r: Option<nat>)
    ensures r.Some? ==> r.value < |users| && UpperTrim(carNumber) in users[r.value].managedCars
    ensures r.Some? ==> forall j :: 0 <= j < r.value ==> UpperTrim(carNumber) !in users[j].managedCars
    ensures r.None? ==> forall j :: 0 <= j < |users| ==> UpperTrim(carNumber) !in users[j].managedCars
  {
    var plate := UpperTrim(carNumber);
    First(users, (u: User) => plate in u.managedCars)
  }

  /** A caller without an account id; the link step tests the id for
      truthiness, so an empty id counts as none. */
  predicate Anonymous(userId: Option<string>)
  {
    userId.None? || userId.value == ""
  }

  /** The best-effort link step: an anonymous booking with a plate adopts
      the plate's owner, who gains the plate as a CAR vehicle when not
      already listed (`vehicleId` is the id the store assigns). The only
      failure is the owner's save being refused. */
  function AutoLink(users: seq<User>, userId: Option<string>, carNumber: string, vehicleId: string)
    : (r: Result<(Option<string>, seq<User>), BookingError>)
    ensures !Anonymous(userId) || carNumber == "" || PlateOwner(users, carNumber).None? ==> r == Ok((userId, users))
    ensures r.Err? ==> r.error == OwnerSaveFailed
    // the owner's save is refused exactly when a new vehicle must be added
    // and the owner with it fails validation or the unique email index
    ensures Anonymous(userId) && carNumber != "" && PlateOwner(users, carNumber).Some? ==>
              (var k := PlateOwner(users, carNumber).value;
               var added := users[k].vehicles + [Vehicle(vehicleId, UpperTrim(carNumber), Car, None)];
               r.Err? <==> (&& !HasVehiclePlate(users[k], UpperTrim(carNumber))
                            && !(SchemaValid(users[k].(vehicles := added)) && EmailFreeExcept(users, users[k].email, k))))
    ensures r.Ok? && Anonymous(userId) && carNumber != "" && PlateOwner(users, carNumber).Some? ==>
              (var k := PlateOwner(users, carNumber).value;
               && r.value.0 == Some(users[k].id)
               && |r.value.1| == |users|
               && (forall j :: 0 <= j < |users| && j != k ==> r.value.1[j] == users[j])
               && HasVehiclePlate(r.value.1[k], UpperTrim(carNumber))
               && (HasVehiclePlate(users[k], UpperTrim(carNumber)) ==> r.value.1 == users)
               && (!HasVehiclePlate(users[k], UpperTrim(carNumber)) ==>
                     && r.value.1[k].vehicles == users[k].vehicles + [Vehicle(vehicleId, UpperTrim(carNumber), Car, None)]
                     && Synced(r.value.1[k])
                     && r.value.1[k] == users[k].(vehicles := r.value.1[k].vehicles,
                                                  managedCars := r.value.1[k].managedCars)))
  {
    if !Anonymous(userId) || carNumber == "" then Ok((userId, users))
    else match PlateOwner(users, carNumber)
      case None => Ok((userId, users))
      case Some(k) =>
        var plate := UpperTrim(carNumber);
        var owner := users[k];
        if HasVehiclePlate(owner, plate) then Ok((Some(owner.id), users))
        else
          var added := owner.vehicles + [Vehicle(vehicleId, plate, Car, None)];
          assert added[|added| - 1].plateNumber == plate;
          match SaveAt(users, k, owner.(vehicles := added), true)
          case Err(_) => Err(OwnerSaveFailed)
          case Ok(saved) => Ok((Some(owner.id), saved))
  }

  /** The record `createBooking` saves. */
  function NewBooking(userId: Option<string>, carNumber: string, slotId: string, start: int, end: int,
                      source: Source, now: int): Booking
  {
    Booking(userId, source, carNumber, slotId,
      if source == Web then PendingArrival else Active,
      start, end, None, None,
      if source == Web then Some(now + BUFFER_MINUTES * MINUTE_MS) else None,
      [], BookingCost(start, end), now, now)
  }

  predicate StartAllowed(now: int, start: int)
  {
    start >= now - START_GRACE_MS
  }

  /** The checks `createBooking` makes before writing anything, in order;
      on success, the position of the requested slot. */
  function Admit(st: Store, now: int, carNumber: string, slotId: string, start: int, end: int)
    : (r: Result<nat, BookingError>)
    ensures !StartAllowed(now, start) ==> r == Err(StartInPast)
    ensures (StartAllowed(now, start) && FindById(st.slots, slotId).None?) ==> r == Err(SlotNotFound)
    ensures (StartAllowed(now, start) && FindById(st.slots, slotId).Some?
             && SlotConflict(st.bookings, slotId, start, end).Some?) ==> r == Err(SlotTaken)
    ensures (StartAllowed(now, start) && FindById(st.slots, slotId).Some?
             && SlotConflict(st.bookings, slotId, start, end).None?
             && PlateConflict(st.bookings, UpperTrim(carNumber), start, end).Some?) ==> r == Err(VehicleTaken)
    ensures r.Ok? ==> (&& StartAllowed(now, start)
                       && r.value < |st.slots| && st.slots[r.value].id == slotId
                       && (forall j :: 0 <= j < |st.bookings| && st.bookings[j].slotId == slotId && st.bookings[j].IsLive()
                                       ==> !st.bookings[j].OverlapsWindow(start, end))
                       && (forall j :: (0 <= j < |st.bookings| && st.bookings[j].carNumber == UpperTrim(carNumber)
                                        && st.bookings[j].IsLive()) ==> !st.bookings[j].OverlapsWindow(start, end)))
  {
    if !StartAllowed(now, start) then Err(StartInPast)
    else match FindById(st.slots, slotId)
      case None => Err(SlotNotFound)
      case Some(k) =>
        if SlotConflict(st.bookings, slotId, start, end).Some? then Err(SlotTaken)
        else if PlateConflict(st.bookings, UpperTrim(carNumber), start, end).Some? then Err(VehicleTaken)
        else Ok(k)
  }

  /** The two writes of a successful creation: the booking is appended and
      slot `k` is marked and pointed at it; nothing else changes. */
  function Commit(st: Store, k: nat, b: Booking, users: seq<User>): (r: (Store, nat))
    requires k < |st.slots|
    ensures r.1 == |st.bookings| && r.0.bookings == st.bookings + [b] && r.0.users == users
    ensures |r.0.slots| == |st.slots|
    ensures r.0.slots[k].status == (if b.source == Kiosk then Occupied else Reserved)
    ensures r.0.slots[k].currentBookingId == Some(r.1)
    ensures r.0.slots[k] == st.slots[k].(status := r.0.slots[k].status, currentBookingId := Some(r.1))
    ensures forall j :: 0 <= j < |st.slots| && j != k ==> r.0.slots[j] == st.slots[j]
  {
    var id := |st.bookings|;
    var slot := st.slots[k].(status := if b.source == Kiosk then Occupied else Reserved,
                             currentBookingId := Some(id));
    (Store(st.slots[k := slot], st.bookings + [b], users), id)
  }

  /** `createBooking`. On success returns the new store and the new
      booking's id. */
  function CreateBooking(st: Store, now: int, userId: Option<string>, carNumber: string, slotId: string,
                         start: int, end: int, source: Source, vehicleId: string)
    : (r: Result<(Store, nat), BookingError>)
    ensures Admit(st, now, carNumber, slotId, start, end).Err? ==>
              r == Err(Admit(st, now, carNumber, slotId, start, end).error)
    ensures Admit(st, now, carNumber, slotId, start, end).Ok? && AutoLink(st.users, userId, carNumber, vehicleId).Err? ==>
              r == Err(OwnerSaveFailed)
    ensures r.Ok? <==> Admit(st, now, carNumber, slotId, start, end).Ok? && AutoLink(st.users, userId, carNumber, vehicleId).Ok?
    ensures r.Ok? ==>
              (&& r.value.1 == |st.bookings|
               && |r.value.0.bookings| == |st.bookings| + 1
               && r.value.0.bookings[..|st.bookings|] == st.bookings
               && r.value.0.bookings[|st.bookings|].carNumber == carNumber
               && r.value.0.bookings[|st.bookings|].slotId == slotId
               && r.value.0.bookings[|st.bookings|].source == source
               && r.value.0.bookings[|st.bookings|].startTime == start
               && r.value.0.bookings[|st.bookings|].endTime == end
               && r.value.0.bookings[|st.bookings|].totalCost == BookingCost(start, end)
               && r.value.0.bookings[|st.bookings|].notificationsSent == []
               && r.value.0.bookings[|st.bookings|].createdAt == now
               && (!Anonymous(userId) ==> r.value.0.bookings[|st.bookings|].userId == userId))
    ensures r.Ok? ==>
              (&& r.value.0.users == AutoLink(st.users, userId, carNumber, vehicleId).value.1
               && r.value.0.bookings[|st.bookings|].userId == AutoLink(st.users, userId, carNumber, vehicleId).value.0)
    ensures r.Ok? && source == Web ==>
              (&& r.value.0.bookings[|st.bookings|].status == PendingArrival
               && r.value.0.bookings[|st.bookings|].bufferExpiry == Some(now + BUFFER_MINUTES * MINUTE_MS))
    ensures r.Ok? && source == Kiosk ==>
              (&& r.value.0.bookings[|st.bookings|].status == Active
               && r.value.0.bookings[|st.bookings|].bufferExpiry == None)
    ensures r.Ok? ==>
              (var k := Admit(st, now, carNumber, slotId, start, end).value;
               && |r.value.0.slots| == |st.slots|
               && r.value.0.slots[k].id == slotId
               && r.value.0.slots[k].status == (if source == Kiosk then Occupied else Reserved)
               && r.value.0.slots[k].currentBookingId == Some(r.value.1)
               && forall j :: 0 <= j < |st.slots| && j != k ==> r.value.0.slots[j] == st.slots[j])
  {
    match Admit(st, now, carNumber, slotId, start, end)
    case Err(e) => Err(e)
    case Ok(k) =>
      match AutoLink(st.users, userId, carNumber, vehicleId)
      case Err(e) => Err(e)
      case Ok((linked, users')) =>
        var b := NewBooking(linked, carNumber, slotId, start, end, source, now);
        var c := Commit(st, k, b, users');
        assert c.0.bookings[|st.bookings|] == b;
        assert c.0.bookings[..|st.bookings|] == st.bookings;
        Ok(c)
  }

  /** A successful creation keeps every slot's live bookings pairwise
      disjoint: the new booking passed the slot-overlap query. */
  lemma CreatePreservesSlotExclusive(st: Store, now: int, userId: Option<string>, carNumber: string,
                                     slotId: string, start: int, end: int, source: Source, vehicleId: string)
    requires SlotExclusive(st.bookings)
    requires CreateBooking(st, now, userId, carNumber, slotId, start, end, source, vehicleId).Ok?
    ensures SlotExclusive(CreateBooking(st, now, userId, carNumber, slotId, start, end, source, vehicleId).value.0.bookings)
  {
    var L := st.bookings;
    var r := CreateBooking(st, now, userId, carNumber, slotId, start, end, source, vehicleId).value.0;
    var n := |L|;
    assert Admit(st, now, carNumber, slotId, start, end).Ok?;
    assert r.bookings == L + [r.bookings[n]];
    AppendKeepsSlotExclusive(L, r.bookings[n]);
  }

  /** A plate already in upper-cased, trimmed form is checked against the
      same string it is stored under, so such a creation keeps live
      bookings of one plate string disjoint. */
  lemma CreatePreservesPlateExclusive(st: Store, now: int, userId: Option<string>, carNumber: string,
                                      slotId: string, start: int, end: int, source: Source, vehicleId: string)
    requires PlateExclusive(st.bookings)
    requires UpperTrim(carNumber) == carNumber
    requires CreateBooking(st, now, userId, carNumber, slotId, start, end, source, vehicleId).Ok?
    ensures PlateExclusive(CreateBooking(st, now, userId, carNumber, slotId, start, end, source, vehicleId).value.0.bookings)
  {
    var L := st.bookings;
    var r := CreateBooking(st, now, userId, carNumber, slotId, start, end, source, vehicleId).value.0;
    var n := |L|;
    assert Admit(st, now, carNumber, slotId, start, end).Ok?;
    assert r.bookings == L + [r.bookings[n]];
    AppendKeepsPlateExclusive(L, r.bookings[n]);
  }

  /** The vehicle check looks up the upper-cased, trimmed plate while the
      booking keeps the raw one: a live booking stored as "ab1" does not
      stop a second, overlapping booking for "ab1". */
  lemma RawPlateEscapesVehicleCheck(slot: Slot, first: Booking)
    requires first.carNumber == "ab1" && first.IsLive() && first.slotId != slot.id
    requires first.OverlapsWindow(0, HOUR_MS)
    ensures var st := Store([slot], [first], []);
            var r := CreateBooking(st, 0, None, "ab1", slot.id, 0, HOUR_MS, Web, "v");
            r.Ok? && !PlateExclusive(r.value.0.bookings)
  {
    var st := Store([slot], [first], []);
    UpperTrimAb1();
    assert "AB1" != "ab1" by { assert "AB1"[0] != "ab1"[0]; }
    assert FindById(st.slots, slot.id) == Some(0);
    assert SlotConflict(st.bookings, slot.id, 0, HOUR_MS).None?;
    assert PlateConflict(st.bookings, "AB1", 0, HOUR_MS).None?;
    assert Admit(st, 0, "ab1", slot.id, 0, HOUR_MS) == Ok(0);
    assert AutoLink([], None, "ab1", "v") == Ok((None, []));
    var r := CreateBooking(st, 0, None, "ab1", slot.id, 0, HOUR_MS, Web, "v");
    assert r.Ok?;
    var L' := r.value.0.bookings;
    assert L'[0] == first && L'[1].carNumber == "ab1" && L'[1].IsLive();
    assert L'[0].OverlapsWindow(L'[1].startTime, L'[1].endTime);
  }

  // ---- cancellation and extension ----

  /** `cancelBooking`. */
  function CancelBooking(st: Store, now: int, id: nat): (r: Result<Store, BookingError>)
    ensures id >= |st.bookings| ==> r == Err(BookingNotFound)
    ensures id < |st.bookings| && !st.bookings[id].IsLive() ==> r == Err(AlreadyFinished)
    ensures id < |st.bookings| && st.bookings[id].IsLive() ==> r.Ok?
    ensures r.Ok? ==>
              (var b := st.bookings[id];
               && |r.value.bookings| == |st.bookings|
               && r.value.bookings[id] == b.(status := Cancelled, updatedAt := now)
               && (forall j :: 0 <= j < |st.bookings| && j != id ==> r.value.bookings[j] == st.bookings[j])
               && r.value.slots == UpdateById(st.slots, b.slotId, Release)
               && r.value.users == st.users)
  {
    if id >= |st.bookings| then Err(BookingNotFound)
    else
      var b := st.bookings[id];
      if !b.IsLive() then Err(AlreadyFinished)
      else Ok(st.(bookings := st.bookings[id := b.(status := Cancelled, updatedAt := now)],
                  slots := UpdateById(st.slots, b.slotId, Release)))
  }

  /** `extendBooking` by a whole number of hours. The window grows with no
      new overlap check and the cost grows by the hourly rate per hour. A
      zero-hour extension assigns the values already stored, so the save
      finds nothing modified and `updatedAt` stays as it was. */
  function ExtendBooking(st: Store, now: int, id: nat, hours: int): (r: Result<Store, BookingError>)
    ensures id >= |st.bookings| ==> r == Err(BookingNotFound)
    ensures id < |st.bookings| && !st.bookings[id].IsLive() ==> r == Err(NotExtendable)
    ensures id < |st.bookings| && st.bookings[id].IsLive() ==> r.Ok?
    // zero hours assigns equal values: nothing is modified, so nothing is written
    ensures id < |st.bookings| && st.bookings[id].IsLive() && hours == 0 ==> r == Ok(st)
    ensures r.Ok? ==> id < |st.bookings| && |r.value.bookings| == |st.bookings|
    ensures r.Ok? && hours != 0 ==> r.value.bookings[id].updatedAt == now
    ensures r.Ok? ==>
              (var b := st.bookings[id];
               var b' := r.value.bookings[id];
               && b'.endTime == b.endTime + hours * HOUR_MS
               && b'.totalCost == b.totalCost + hours * RATE_PER_HOUR
               && (hours >= 0 ==> b'.totalCost >= b.totalCost && b'.endTime >= b.endTime)
               && b' == b.(endTime := b'.endTime, totalCost := b'.totalCost, updatedAt := b'.updatedAt)
               && (forall j :: 0 <= j < |st.bookings| && j != id ==> r.value.bookings[j] == st.bookings[j])
               && r.value.slots == st.slots && r.value.users == st.users)
  {
    if id >= |st.bookings| then Err(BookingNotFound)
    else
      var b := st.bookings[id];
      if !b.IsLive() then Err(NotExtendable)
      else if hours == 0 then Ok(st)
      else
        var b' := b.(endTime := b.endTime + hours * HOUR_MS,
                     totalCost := b.totalCost + hours * RATE_PER_HOUR,
                     updatedAt := now);
        Ok(st.(bookings := st.bookings[id := b']))
  }

  /** Extension does not re-check the slot: two back-to-back live bookings
      of one slot overlap once the first is extended by an hour. */
  lemma ExtendCanDoubleBook(st: Store, now: int, a: nat, b: nat)
    requires a < |st.bookings| && b < |st.bookings| && a != b
    requires st.bookings[a].IsLive() && st.bookings[b].IsLive()
    requires st.bookings[a].slotId == st.bookings[b].slotId
    requires st.bookings[a].startTime < st.bookings[a].endTime == st.bookings[b].startTime < st.bookings[b].endTime
    ensures ExtendBooking(st, now, a, 1).Ok?
    ensures !SlotExclusive(ExtendBooking(st, now, a, 1).value.bookings)
  {
    var L' := ExtendBooking(st, now, a, 1).value.bookings;
    assert L'[b] == st.bookings[b];
    assert L'[a].OverlapsWindow(L'[b].startTime, L'[b].endTime);
  }

  // ---- plate-recognition entry ----

  /** The booking a recognised plate claims: PENDING_ARRIVAL, exactly that
      plate string, buffer not yet expired. */
  predicate AwaitsPlate(b: Booking, plate: string, now: int)
  {
    b.carNumber == plate && b.status == PendingArrival && b.bufferExpiry.Some? && b.bufferExpiry.value > now
  }

  /** `handlePlateRecognition`: returns the matched booking's id, or None
      for `matched: false`. */
  function RecognizePlate(st: Store, now: int, plate: string): (r: (Store, Option<nat>))
    ensures r.1.Some? <==> exists j :: 0 <= j < |st.bookings| && AwaitsPlate(st.bookings[j], plate, now)
    ensures r.1.None? ==> r.0 == st
    ensures r.1.Some? ==> r.1.value < |st.bookings| && |r.0.bookings| == |st.bookings|
    ensures r.1.Some? ==>
              (var k := r.1.value;
               var b := st.bookings[k];
               && AwaitsPlate(b, plate, now)
               && (forall j :: 0 <= j < k ==> !AwaitsPlate(st.bookings[j], plate, now))
               && r.0.bookings[k].status == Active
               && r.0.bookings[k].actualStartTime == Some(now)
               && r.0.bookings[k].actualEndTime == None
               && r.0.bookings[k] == b.(status := Active, actualStartTime := Some(now), actualEndTime := None, updatedAt := now)
               && (forall j :: 0 <= j < |st.bookings| && j != k ==> r.0.bookings[j] == st.bookings[j])
               && r.0.slots == UpdateById(st.slots, b.slotId, (s: Slot) => SetStatus(s, Occupied))
               && r.0.users == st.users)
  {
    match First(st.bookings, (b: Booking) => AwaitsPlate(b, plate, now))
    case None => (st, None)
    case Some(k) =>
      var b := st.bookings[k];
      var b' := b.(status := Active, actualStartTime := Some(now), actualEndTime := None, updatedAt := now);
      (st.(bookings := st.bookings[k := b'],
           slots := UpdateById(st.slots, b.slotId, (s: Slot) => SetStatus(s, Occupied))), Some(k))
  }

  // ---- expiry and reminder sweep ----

  function ThresholdMs(kind: Reminder): int
  {
    match kind
    case FifteenMinutesLeft => 15 * MINUTE_MS
    case TenMinutesLeft => 10 * MINUTE_MS
    case FiveMinutesLeft => 5 * MINUTE_MS
  }

  /** Bookings the sweep selects: PENDING_ARRIVAL with a buffer deadline. */
  predicate Swept(b: Booking)
  {
    b.status == PendingArrival && b.bufferExpiry.Some?
  }

  /** Selected bookings whose buffer has run out (remaining <= 0). */
  predicate Expired(b: Booking, now: int)
  {
    Swept(b) && b.bufferExpiry.value - now <= 0
  }

  /** Appends `kind` when it is due and not yet recorded. */
  function Mark(sent: seq<Reminder>, kind: Reminder, remaining: int): (r: seq<Reminder>)
    ensures kind in r <==> kind in sent || remaining <= ThresholdMs(kind)
    ensures sent <= r
    ensures forall k :: k in r && k !in sent ==> k == kind
    ensures |r| <= |sent| + 1
  {
    if remaining <= ThresholdMs(kind) && kind !in sent then sent + [kind] else sent
  }

  /** After the three marking passes, exactly the due kinds (and the ones
      already recorded) are present. */
  lemma MarkAllDue(sent: seq<Reminder>, remaining: int)
    ensures var r := Mark(Mark(Mark(sent, FifteenMinutesLeft, remaining), TenMinutesLeft, remaining),
                          FiveMinutesLeft, remaining);
            forall k: Reminder :: k in r <==> k in sent || remaining <= ThresholdMs(k)
  {
    var s1 := Mark(sent, FifteenMinutesLeft, remaining);
    var s2 := Mark(s1, TenMinutesLeft, remaining);
    var s3 := Mark(s2, FiveMinutesLeft, remaining);
    forall k: Reminder
      ensures k in s3 <==> k in sent || remaining <= ThresholdMs(k)
    {
      match k
      case FifteenMinutesLeft =>
      case TenMinutesLeft =>
      case FiveMinutesLeft =>
    }
  }

  /** One booking's turn in the sweep. */
  function SweepBooking(b: Booking, now: int): (r: Booking)
    ensures !Swept(b) ==> r == b
    ensures Swept(b) ==> (r.status == Cancelled <==> now >= b.bufferExpiry.value)
    ensures Expired(b, now) ==> r == b.(status := Cancelled, updatedAt := now)
    ensures Swept(b) && !Expired(b, now) ==>
              (&& r == b.(notificationsSent := r.notificationsSent, updatedAt := r.updatedAt)
               && b.notificationsSent <= r.notificationsSent
               && forall k: Reminder :: k in r.notificationsSent <==>
                    (k in b.notificationsSent || b.bufferExpiry.value - now <= ThresholdMs(k)))
    ensures RemindersDistinct(b) ==> RemindersDistinct(r)
  {
    if !Swept(b) then b
    else
      var remaining := b.bufferExpiry.value - now;
      if remaining <= 0 then b.(status := Cancelled, updatedAt := now)
      else
        var s1 := Mark(b.notificationsSent, FifteenMinutesLeft, remaining);
        var s2 := Mark(s1, TenMinutesLeft, remaining);
        var s3 := Mark(s2, FiveMinutesLeft, remaining);
        MarkAllDue(b.notificationsSent, remaining);
        if s3 == b.notificationsSent then b
        else b.(notificationsSent := s3, updatedAt := now)
  }

  /** Slot `j` is the one the `findByIdAndUpdate` of some expired booking
      hits: the first slot carrying that booking's slot id. */
  predicate FreedBySweep(slots: seq<Slot>, ledger: seq<Booking>, now: int, j: nat)
  {
    exists i :: 0 <= i < |ledger| && Expired(ledger[i], now) && FindById(slots, ledger[i].slotId) == Some(j)
  }

  /** Frees, in ledger order, the slot of every booking the sweep cancels:
      exactly the slots some expired booking names are released, and every
      other slot is left as it was. */
  function ReleaseExpired(slots: seq<Slot>, ledger: seq<Booking>, now: int): (r: seq<Slot>)
    ensures |r| == |slots|
    ensures forall j :: 0 <= j < |slots| ==>
              r[j] == (if FreedBySweep(slots, ledger, now, j) then Release(slots[j]) else slots[j])
    ensures (forall i :: 0 <= i < |ledger| ==> !Expired(ledger[i], now)) ==> r == slots
    decreases |ledger|
  {
    if |ledger| == 0 then slots
    else
      var rest := ReleaseExpired(slots, ledger[1..], now);
      FreedBySweepCons(slots, ledger, now);
      FindByIdSameIds(slots, rest, ledger[0].slotId);
      if Expired(ledger[0], now) then UpdateById(rest, ledger[0].slotId, Release) else rest
  }

  /** Splits the expired bookings into the first one and the rest. */
  lemma FreedBySweepCons(slots: seq<Slot>, ledger: seq<Booking>, now: int)
    requires |ledger| > 0
    ensures forall j: nat :: FreedBySweep(slots, ledger, now, j) <==>
              ((Expired(ledger[0], now) && FindById(slots, ledger[0].slotId) == Some(j))
               || FreedBySweep(slots, ledger[1..], now, j))
  {
    forall j: nat | FreedBySweep(slots, ledger[1..], now, j)
      ensures FreedBySweep(slots, ledger, now, j)
    {
      var i :| 0 <= i < |ledger[1..]| && Expired(ledger[1..][i], now) && FindById(slots, ledger[1..][i].slotId) == Some(j);
      assert ledger[i + 1] == ledger[1..][i];
    }
    forall j: nat | FreedBySweep(slots, ledger, now, j) && !(Expired(ledger[0], now) && FindById(slots, ledger[0].slotId) == Some(j))
      ensures FreedBySweep(slots, ledger[1..], now, j)
    {
      var i :| 0 <= i < |ledger| && Expired(ledger[i], now) && FindById(slots, ledger[i].slotId) == Some(j);
      assert i > 0;
      assert ledger[1..][i - 1] == ledger[i];
    }
  }

  /** `autoCancelExpiredBuffers`. */
  function Sweep(st: Store, now: int): (r: Store)
    ensures |r.bookings| == |st.bookings|
    ensures forall i :: 0 <= i < |st.bookings| ==> r.bookings[i] == SweepBooking(st.bookings[i], now)
    ensures |r.slots| == |st.slots|
    ensures forall j :: 0 <= j < |st.slots| ==>
              r.slots[j] == (if FreedBySweep(st.slots, st.bookings, now, j) then Release(st.slots[j]) else st.slots[j])
    ensures r.users == st.users
  {
    var swept := seq(|st.bookings|, i requires 0 <= i < |st.bookings| => SweepBooking(st.bookings[i], now));
    st.(bookings := swept, slots := ReleaseExpired(st.slots, st.bookings, now))
  }

  /** An expired booking is cancelled by the sweep and the slot it names is
      left AVAILABLE with no current booking. */
  lemma SweepFreesExpiredSlot(st: Store, now: int, i: nat)
    requires i < |st.bookings| && Expired(st.bookings[i], now)
    requires FindById(st.slots, st.bookings[i].slotId).Some?
    ensures var j := FindById(st.slots, st.bookings[i].slotId).value;
            && Sweep(st, now).bookings[i].status == Cancelled
            && Sweep(st, now).slots[j].status == Available
            && Sweep(st, now).slots[j].currentBookingId == None
  {
    var j := FindById(st.slots, st.bookings[i].slotId).value;
    assert FreedBySweep(st.slots, st.bookings, now, j);
  }

  lemma SweepBookingIdempotent(b: Booking, now: int)
    ensures SweepBooking(SweepBooking(b, now), now) == SweepBooking(b, now)
    ensures !Expired(SweepBooking(b, now), now)
  {
    var r := SweepBooking(b, now);
    if Swept(b) && !Expired(b, now) {
      var remaining := b.bufferExpiry.value - now;
      var t1 := Mark(r.notificationsSent, FifteenMinutesLeft, remaining);
      assert t1 == r.notificationsSent;
      var t2 := Mark(t1, TenMinutesLeft, remaining);
      assert t2 == r.notificationsSent;
      var t3 := Mark(t2, FiveMinutesLeft, remaining);
      assert t3 == r.notificationsSent;
    }
  }

  /** Running the sweep twice at the same instant changes nothing more. */
  lemma SweepIdempotent(st: Store, now: int)
    ensures Sweep(Sweep(st, now), now) == Sweep(st, now)
  {
    var once := Sweep(st, now);
    var twice := Sweep(once, now);
    forall i | 0 <= i < |st.bookings|
      ensures twice.bookings[i] == once.bookings[i]
      ensures !Expired(once.bookings[i], now)
    {
      SweepBookingIdempotent(st.bookings[i], now);
    }
    assert twice.bookings == once.bookings;
    assert twice.slots == once.slots;
  }
}
