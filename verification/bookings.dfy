/** The booking record, reconstructed from the fields the backend reads and
    writes, its status and source enums, the half-open overlap rule, and
    the ledger queries shared by creation, the availability pre-check and
    the slot listing. The ledger is a sequence in natural (insertion)
    order and a booking's id is its position; bookings are never deleted. */
module Bookings {
  import opened Common
  import opened Seqs

  datatype BookingStatus = PendingArrival | Active | Completed | Cancelled
  {
    /** The states selected by `status: {$in: ['PENDING_ARRIVAL', 'ACTIVE']}`. */
    predicate IsLive()
    {
      this == PendingArrival || this == Active
    }
  }

  datatype Source = Web | Kiosk

  /** The markers appended to `notificationsSent` by the reminder sweep. */
  datatype Reminder = FifteenMinutesLeft | TenMinutesLeft | FiveMinutesLeft

  datatype Booking = Booking(
    userId: Option<string>,
    source: Source,
    carNumber: string,
    slotId: string,
    status: BookingStatus,
    startTime: int,
    endTime: int,
    actualStartTime: Option<int>,
    actualEndTime: Option<int>,
    bufferExpiry: Option<int>,
    notificationsSent: seq<Reminder>,
    totalCost: int,
    createdAt: int,
    updatedAt: int)
  {
    predicate IsLive()
    {
      status.IsLive()
    }

    /** `startTime < end && endTime > start`: the half-open windows
        [startTime, endTime) and [start, end) share an instant. */
    predicate OverlapsWindow(start: int, end: int)
    {
      startTime < end && endTime > start
    }
  }

  /** `sort({createdAt: -1})`: newer bookings come first. */
  predicate NewestFirst(x: Booking, y: Booking)
  {
    x.createdAt >= y.createdAt
  }

  lemma NewestFirstIsPreorder()
    ensures TotalPreorder(NewestFirst)
  {
  }

  /** No two distinct live bookings of one slot have overlapping windows. */
  predicate SlotExclusive(ledger: seq<Booking>)
  {
    forall i, j :: 0 <= i < |ledger| && 0 <= j < |ledger| && i != j
      && ledger[i].IsLive() && ledger[j].IsLive() && ledger[i].slotId == ledger[j].slotId
      ==> !ledger[i].OverlapsWindow(ledger[j].startTime, ledger[j].endTime)
  }

  /** No two distinct live bookings stored under one plate string overlap. */
  predicate PlateExclusive(ledger: seq<Booking>)
  {
    forall i, j :: 0 <= i < |ledger| && 0 <= j < |ledger| && i != j
      && ledger[i].IsLive() && ledger[j].IsLive() && ledger[i].carNumber == ledger[j].carNumber
      ==> !ledger[i].OverlapsWindow(ledger[j].startTime, ledger[j].endTime)
  }

  /** Appending a booking that overlaps no live booking of its slot keeps
      the slots exclusive. */
  lemma AppendKeepsSlotExclusive(ledger: seq<Booking>, b: Booking)
    requires SlotExclusive(ledger)
    requires forall j :: 0 <= j < |ledger| && ledger[j].slotId == b.slotId && ledger[j].IsLive()
               ==> !ledger[j].OverlapsWindow(b.startTime, b.endTime)
    ensures SlotExclusive(ledger + [b])
  {
    var L := ledger + [b];
    forall i, j | 0 <= i < |L| && 0 <= j < |L| && i != j && L[i].IsLive() && L[j].IsLive() && L[i].slotId == L[j].slotId
      ensures !L[i].OverlapsWindow(L[j].startTime, L[j].endTime)
    {
      if i < |ledger| {
        assert L[i] == ledger[i];
      }
      if j < |ledger| {
        assert L[j] == ledger[j];
      }
    }
  }

  /** Appending a booking that overlaps no live booking of its plate string
      keeps the plates exclusive. */
  lemma AppendKeepsPlateExclusive(ledger: seq<Booking>, b: Booking)
    requires PlateExclusive(ledger)
    requires forall j :: 0 <= j < |ledger| && ledger[j].carNumber == b.carNumber && ledger[j].IsLive()
               ==> !ledger[j].OverlapsWindow(b.startTime, b.endTime)
    ensures PlateExclusive(ledger + [b])
  {
    var L := ledger + [b];
    forall i, j | 0 <= i < |L| && 0 <= j < |L| && i != j && L[i].IsLive() && L[j].IsLive() && L[i].carNumber == L[j].carNumber
      ensures !L[i].OverlapsWindow(L[j].startTime, L[j].endTime)
    {
      if i < |ledger| {
        assert L[i] == ledger[i];
      }
      if j < |ledger| {
        assert L[j] == ledger[j];
      }
    }
  }

  /** The slot-overlap query of booking creation. */
  function SlotConflict(ledger: seq<Booking>, slotId: string, start: int, end: int): (r: Option<nat>)
    ensures r.Some? ==> (r.value < |ledger| && ledger[r.value].slotId == slotId
                         && ledger[r.value].IsLive() && ledger[r.value].OverlapsWindow(start, end))
    ensures r.None? ==> (forall j :: 0 <= j < |ledger| && ledger[j].slotId == slotId && ledger[j].IsLive()
                                     ==> !ledger[j].OverlapsWindow(start, end))
  {
    First(ledger, (b: Booking) => b.slotId == slotId && b.IsLive() && b.OverlapsWindow(start, end))
  }

  /** The vehicle-overlap query: an exact match on the stored plate string. */
  function PlateConflict(ledger: seq<Booking>, plate: string, start: int, end: int): (r: Option<nat>)
    ensures r.Some? ==> (r.value < |ledger| && ledger[r.value].carNumber == plate
                         && ledger[r.value].IsLive() && ledger[r.value].OverlapsWindow(start, end))
    ensures r.None? ==> (forall j :: 0 <= j < |ledger| && ledger[j].carNumber == plate && ledger[j].IsLive()
                                     ==> !ledger[j].OverlapsWindow(start, end))
  {
    First(ledger, (b: Booking) => b.carNumber == plate && b.IsLive() && b.OverlapsWindow(start, end))
  }

  /** No reminder kind appears twice in a booking's markers. */
  predicate RemindersDistinct(b: Booking)
  {
    forall i, j :: 0 <= i < j < |b.notificationsSent| ==> b.notificationsSent[i] != b.notificationsSent[j]
  }
}
