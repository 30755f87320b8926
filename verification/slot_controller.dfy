/** The slot controller: the sensor and gate reconciler (`updateSlotStatus`)
    and the slot listing with its time-windowed availability view
    (`getSlots`). A sensor report is one atomic step over the store. */
module SlotController {
  import opened Common
  import opened Seqs
  import opened Text
  import opened Slots
  import opened Bookings
  import opened State

  // ---- slot-id resolution ----

  /** The `slot_id` of a report: its `String(...)` text and whether it
      arrived as a JSON string (otherwise it was a JSON number). */
  datatype SlotRef = SlotRef(text: string, isString: bool)

  /** The `status` of a report. */
  datatype Signal = SensorFree | SensorOccupied | SensorOther

  /** The virtual gate sensor is compared by its text before any slot lookup. */
  predicate IsGate(ref: SlotRef)
  {
    ref.text == "3"
  }

  /** `!isNaN(Number(slot_id))` for a JSON number or string. */
  predicate LooksNumeric(ref: SlotRef)
  {
    !ref.isString || IsNumeric(ref.text)
  }

  /** The `$or` of the lookup: the label itself, the document id when the
      text is 24 hex digits (cast to an id whatever the case of its letters;
      stored ids are in lower case), and the "A"-prefixed alias when it is
      numeric. */
  predicate MatchesRef(s: Slot, ref: SlotRef)
  {
    || s.slotNumber == ref.text
    || (ref.isString && IsObjectIdText(ref.text) && s.id == ToLower(ref.text))
    || (LooksNumeric(ref) && s.slotNumber == "A" + ref.text)
  }

  /** `ParkingSlot.findOne({$or: criteria})`: the first slot in natural
      order meeting any criterion. */
  function ResolveSlot(slots: seq<Slot>, ref: SlotRef): (r: Option<nat>)
    ensures r.Some? ==> r.value < |slots| && MatchesRef(slots[r.value], ref)
    ensures r.Some? ==> forall j :: 0 <= j < r.value ==> !MatchesRef(slots[j], ref)
    ensures r.None? <==> forall j :: 0 <= j < |slots| ==> !MatchesRef(slots[j], ref)
  {
    First(slots, (s: Slot) => MatchesRef(s, ref))
  }

  /** A 24-hex-digit report finds the slot whose stored id it spells, in
      either case, or an earlier slot matching another criterion. */
  lemma HexIdResolves(slots: seq<Slot>, ref: SlotRef, k: nat)
    requires ref.isString && IsObjectIdText(ref.text)
    requires k < |slots| && slots[k].id == ToLower(ref.text)
    ensures ResolveSlot(slots, ref).Some? && ResolveSlot(slots, ref).value <= k
  {
    assert MatchesRef(slots[k], ref);
  }

  /** A worked instance: the upper-case spelling of a stored id resolves
      to that slot. */
  lemma UpperCaseIdResolves(s: Slot)
    requires s.id == "aaaaaaaaaaaaaaaaaaaaaaaa" && s.slotNumber == "B2"
    ensures ResolveSlot([s], SlotRef("AAAAAAAAAAAAAAAAAAAAAAAA", true)) == Some(0)
  {
    var ref := SlotRef("AAAAAAAAAAAAAAAAAAAAAAAA", true);
    assert IsObjectIdText(ref.text);
    assert ToLower(ref.text) == "aaaaaaaaaaaaaaaaaaaaaaaa";
    HexIdResolves([s], ref, 0);
  }

  // ---- the booking queries of the reconciler ----

  /** The gate's `findOne({status: live}).sort({updatedAt: -1})`. */
  function LatestLive(ledger: seq<Booking>): (r: Option<nat>)
    ensures r.None? <==> forall j :: 0 <= j < |ledger| ==> !ledger[j].IsLive()
    ensures r.Some? ==> r.value < |ledger| && ledger[r.value].IsLive()
    ensures r.Some? ==> forall j :: 0 <= j < |ledger| && ledger[j].IsLive() ==>
                          ledger[j].updatedAt <= ledger[r.value].updatedAt
  {
    ArgMin(ledger, (b: Booking) => b.IsLive(), (b: Booking) => -b.updatedAt)
  }

  /** `findOne({slotId, status: 'ACTIVE'})`. */
  function ActiveOn(ledger: seq<Booking>, slotId: string): (r: Option<nat>)
    ensures r.None? <==> forall j :: 0 <= j < |ledger| ==> !(ledger[j].slotId == slotId && ledger[j].status == Active)
    ensures r.Some? ==> r.value < |ledger| && ledger[r.value].slotId == slotId && ledger[r.value].status == Active
  {
    First(ledger, (b: Booking) => b.slotId == slotId && b.status == Active)
  }

  /** `findOne({slotId, status: 'PENDING_ARRIVAL'}).sort({startTime: 1})`. */
  function EarliestPending(ledger: seq<Booking>, slotId: string): (r: Option<nat>)
    ensures r.None? <==> forall j :: 0 <= j < |ledger| ==> !(ledger[j].slotId == slotId && ledger[j].status == PendingArrival)
    ensures r.Some? ==> (&& r.value < |ledger| && ledger[r.value].slotId == slotId
                         && ledger[r.value].status == PendingArrival)
    ensures r.Some? ==> forall j :: (0 <= j < |ledger| && ledger[j].slotId == slotId
                                     && ledger[j].status == PendingArrival) ==>
                          ledger[r.value].startTime <= ledger[j].startTime
  {
    ArgMin(ledger, (b: Booking) => b.slotId == slotId && b.status == PendingArrival, (b: Booking) => b.startTime)
  }

  // ---- the slot state machine ----

  /** What a FREE or OCCUPIED report does to the resolved slot `k` and its
      bookings. A transition writes `status` only: `currentBookingId` is
      never cleared here. */
  function Transition(st: Store, now: int, k: nat, signal: Signal): (r: Store)
    requires k < |st.slots|
    ensures |r.slots| == |st.slots| && |r.bookings| == |st.bookings| && r.users == st.users
    ensures forall j :: 0 <= j < |st.slots| && j != k ==> r.slots[j] == st.slots[j]
    ensures r.slots[k] == st.slots[k].(status := r.slots[k].status)
    // no-op rows
    ensures signal == SensorOther ==> r == st
    ensures signal == SensorFree && st.slots[k].status == Available ==> r == st
    ensures signal == SensorOccupied && st.slots[k].status == Occupied ==> r == st
    // OCCUPIED on AVAILABLE: the slot only
    ensures signal == SensorOccupied && st.slots[k].status == Available ==>
              r.slots[k].status == Occupied && r.bookings == st.bookings
    // FREE on OCCUPIED: the slot's ACTIVE booking, if any, is completed
    ensures signal == SensorFree && st.slots[k].status == Occupied ==> r.slots[k].status == Available
    ensures signal == SensorFree && st.slots[k].status == Occupied && ActiveOn(st.bookings, st.slots[k].id).None? ==>
              r.bookings == st.bookings
    ensures signal == SensorFree && st.slots[k].status == Occupied && ActiveOn(st.bookings, st.slots[k].id).Some? ==>
              (var i := ActiveOn(st.bookings, st.slots[k].id).value;
               && r.bookings[i] == st.bookings[i].(status := Completed, actualEndTime := Some(now), updatedAt := now)
               && forall j :: 0 <= j < |st.bookings| && j != i ==> r.bookings[j] == st.bookings[j])
    // OCCUPIED on RESERVED: the earliest pending booking, if any, is activated
    ensures signal == SensorOccupied && st.slots[k].status == Reserved ==> r.slots[k].status == Occupied
    ensures signal == SensorOccupied && st.slots[k].status == Reserved && EarliestPending(st.bookings, st.slots[k].id).None? ==>
              r.bookings == st.bookings
    ensures signal == SensorOccupied && st.slots[k].status == Reserved && EarliestPending(st.bookings, st.slots[k].id).Some? ==>
              (var i := EarliestPending(st.bookings, st.slots[k].id).value;
               && r.bookings[i] == st.bookings[i].(status := Active, actualStartTime := Some(now), updatedAt := now)
               && forall j :: 0 <= j < |st.bookings| && j != i ==> r.bookings[j] == st.bookings[j])
    // FREE on RESERVED: decided by the earliest pending booking's buffer
    ensures signal == SensorFree && st.slots[k].status == Reserved && EarliestPending(st.bookings, st.slots[k].id).None? ==>
              r.slots[k].status == Available && r.bookings == st.bookings
    ensures signal == SensorFree && st.slots[k].status == Reserved && EarliestPending(st.bookings, st.slots[k].id).Some? ==>
              (var i := EarliestPending(st.bookings, st.slots[k].id).value;
               var b := st.bookings[i];
               if b.bufferExpiry.Some? && now > b.bufferExpiry.value then
                 && r.slots[k].status == Available
                 && r.bookings[i] == b.(status := Cancelled, updatedAt := now)
                 && forall j :: 0 <= j < |st.bookings| && j != i ==> r.bookings[j] == st.bookings[j]
               else r == st)
  {
    var slot := st.slots[k];
    match signal
    case SensorFree =>
      if slot.status == Occupied then
        var bookings := match ActiveOn(st.bookings, slot.id)
          case None => st.bookings
          case Some(i) => st.bookings[i := st.bookings[i].(status := Completed, actualEndTime := Some(now), updatedAt := now)];
        st.(bookings := bookings, slots := st.slots[k := SetStatus(slot, Available)])
      else if slot.status == Reserved then
        match EarliestPending(st.bookings, slot.id)
        case None => st.(slots := st.slots[k := SetStatus(slot, Available)])
        case Some(i) =>
          var b := st.bookings[i];
          if b.bufferExpiry.Some? && now > b.bufferExpiry.value then
            st.(bookings := st.bookings[i := b.(status := Cancelled, updatedAt := now)],
                slots := st.slots[k := SetStatus(slot, Available)])
          else st
      else st
    case SensorOccupied =>
      if slot.status == Available then st.(slots := st.slots[k := SetStatus(slot, Occupied)])
      else if slot.status == Reserved then
        var bookings := match EarliestPending(st.bookings, slot.id)
          case None => st.bookings
          case Some(i) => st.bookings[i := st.bookings[i].(status := Active, actualStartTime := Some(now), updatedAt := now)];
        st.(bookings := bookings, slots := st.slots[k := SetStatus(slot, Occupied)])
      else st
    case SensorOther => st
  }

  datatype SensorReply =
    | Allow(booking: nat, plate: string)
    | Deny
    | Idle
    | Updated(slot: Slot)

  datatype SensorError = UnknownSlot

  /** `updateSlotStatus`. */
  function UpdateSlotStatus(st: Store, now: int, ref: SlotRef, signal: Signal)
    : (r: Result<(Store, SensorReply), SensorError>)
    // the gate path never writes
    ensures IsGate(ref) ==> r.Ok? && r.value.0 == st
    ensures IsGate(ref) && signal == SensorOccupied && LatestLive(st.bookings).Some? ==>
              (var i := LatestLive(st.bookings).value;
               r.value.1 == Allow(i, st.bookings[i].carNumber))
    ensures IsGate(ref) && signal == SensorOccupied ==>
              (r.value.1 == Deny <==> forall j :: 0 <= j < |st.bookings| ==> !st.bookings[j].IsLive())
    ensures IsGate(ref) && signal != SensorOccupied ==> r.value.1 == Idle
    // an unresolvable id is a 404 with no write
    ensures !IsGate(ref) ==>
              (r.Err? <==> forall j :: 0 <= j < |st.slots| ==> !MatchesRef(st.slots[j], ref))
    ensures r.Err? ==> r.error == UnknownSlot
    // a resolved slot is reported as it was saved; nothing but its status
    // (and at most one booking) is written
    ensures !IsGate(ref) && r.Ok? ==>
              (var k := ResolveSlot(st.slots, ref).value;
               && r.value.0 == Transition(st, now, k, signal)
               && r.value.1 == Updated(r.value.0.slots[k]))
  {
    if IsGate(ref) then
      if signal == SensorOccupied then
        match LatestLive(st.bookings)
        case None => Ok((st, Deny))
        case Some(i) => Ok((st, Allow(i, st.bookings[i].carNumber)))
      else Ok((st, Idle))
    else
      match ResolveSlot(st.slots, ref)
      case None => Err(UnknownSlot)
      case Some(k) =>
        var st' := Transition(st, now, k, signal);
        Ok((st', Updated(st'.slots[k])))
  }

  /** The gate id shadows the numeric alias: a report for "3" never
      reaches slot A3, whatever the store holds. */
  lemma GateShadowsAliasA3(st: Store, now: int, signal: Signal, isString: bool)
    ensures var r := UpdateSlotStatus(st, now, SlotRef("3", isString), signal);
            r.Ok? && r.value.0 == st && !r.value.1.Updated?
  {
  }

  /** A sensor repeating its report at the same instant changes nothing
      more: every row of the table is idempotent. */
  lemma SensorIdempotent(st: Store, now: int, ref: SlotRef, signal: Signal)
    requires UpdateSlotStatus(st, now, ref, signal).Ok?
    ensures var once := UpdateSlotStatus(st, now, ref, signal).value.0;
            UpdateSlotStatus(once, now, ref, signal).Ok?
            && UpdateSlotStatus(once, now, ref, signal).value.0 == once
  {
    if !IsGate(ref) {
      var k := ResolveSlot(st.slots, ref).value;
      var once := Transition(st, now, k, signal);
      TransitionKeepsResolution(st, now, k, signal, ref);
      TransitionIdempotent(st, now, k, signal);
    }
  }

  /** A transition writes statuses only, so a report resolves to the same
      slot before and after it. */
  lemma TransitionKeepsResolution(st: Store, now: int, k: nat, signal: Signal, ref: SlotRef)
    requires k < |st.slots|
    ensures ResolveSlot(Transition(st, now, k, signal).slots, ref) == ResolveSlot(st.slots, ref)
  {
    var a := st.slots;
    var b := Transition(st, now, k, signal).slots;
    assert forall j :: 0 <= j < |a| ==> b[j].id == a[j].id && b[j].slotNumber == a[j].slotNumber;
    assert forall j :: 0 <= j < |a| ==> MatchesRef(b[j], ref) == MatchesRef(a[j], ref);
  }

  /** Every row of the transition table is idempotent. */
  lemma TransitionIdempotent(st: Store, now: int, k: nat, signal: Signal)
    requires k < |st.slots|
    ensures Transition(Transition(st, now, k, signal), now, k, signal) == Transition(st, now, k, signal)
  {
    var slot := st.slots[k];
    if signal == SensorFree && slot.status == Reserved && EarliestPending(st.bookings, slot.id).Some? {
      var i := EarliestPending(st.bookings, slot.id).value;
      var b := st.bookings[i];
      if !(b.bufferExpiry.Some? && now > b.bufferExpiry.value) {
        assert Transition(st, now, k, signal) == st;
      }
    }
  }

  // ---- the slot listing ----

  /** Code-point order on strings: the order of `sort({slotNumber: 1})`. */
  predicate LexLe(a: string, b: string)
    decreases |a|
  {
    |a| == 0 || (|b| > 0 && (a[0] < b[0] || (a[0] == b[0] && LexLe(a[1..], b[1..]))))
  }

  lemma {:induction false} LexLeTotal(a: string, b: string)
    ensures LexLe(a, b) || LexLe(b, a)
    decreases |a|
  {
    if |a| > 0 && |b| > 0 && a[0] == b[0] {
      LexLeTotal(a[1..], b[1..]);
    }
  }

  lemma {:induction false} LexLeTrans(a: string, b: string, c: string)
    requires LexLe(a, b) && LexLe(b, c)
    ensures LexLe(a, c)
    decreases |a|
  {
    if |a| > 0 && a[0] == b[0] && b[0] == c[0] {
      LexLeTrans(a[1..], b[1..], c[1..]);
    }
  }

  predicate SlotOrder(x: Slot, y: Slot)
  {
    LexLe(x.slotNumber, y.slotNumber)
  }

  lemma SlotOrderIsPreorder()
    ensures TotalPreorder(SlotOrder)
  {
    forall x: Slot, y: Slot
      ensures SlotOrder(x, y) || SlotOrder(y, x)
    {
      LexLeTotal(x.slotNumber, y.slotNumber);
    }
    forall x: Slot, y: Slot, z: Slot | SlotOrder(x, y) && SlotOrder(y, z)
      ensures SlotOrder(x, z)
    {
      LexLeTrans(x.slotNumber, y.slotNumber, z.slotNumber);
    }
  }

  /** Seed labels grow with their position: zone letter first, then digit. */
  lemma SeedLabelsOrdered(i: nat, j: nat)
    requires i < j < SEED_COUNT
    ensures LexLe(SeedLabel(i), SeedLabel(j))
  {
    SeedLabelChars(i);
    SeedLabelChars(j);
    var a := SeedLabel(i);
    var b := SeedLabel(j);
    if a[0] == b[0] {
      assert i % 6 < j % 6;
      assert a[1..][0] < b[1..][0];
    }
  }

  /** The seed inventory is inserted already in label order, so a seeding
      call lists the slots in the order every later call does. */
  lemma SeedSorted(newId: nat -> string)
    ensures SortedBy(SeedSlots(newId), SlotOrder)
  {
    var r := SeedSlots(newId);
    forall i, j | 0 <= i < j < |r|
      ensures SlotOrder(r[i], r[j])
    {
      SeedLabelsOrdered(i, j);
    }
  }

  /** Some PENDING_ARRIVAL/ACTIVE booking of the slot overlaps the window. */
  predicate BookedIn(ledger: seq<Booking>, slotId: string, start: int, end: int)
  {
    exists j :: 0 <= j < |ledger| && ledger[j].slotId == slotId && ledger[j].IsLive()
                && ledger[j].OverlapsWindow(start, end)
  }

  /** How a slot is reported for a window. */
  function WindowStatus(ledger: seq<Booking>, s: Slot, start: int, end: int): (t: Slot)
    ensures t.status == Occupied <==> BookedIn(ledger, s.id, start, end) || s.status == Occupied
    ensures !BookedIn(ledger, s.id, start, end) ==> t == s
    ensures t == s.(status := t.status)
  {
    if BookedIn(ledger, s.id, start, end) then s.(status := Occupied) else s
  }

  /** The listing part of `getSlots`: the stored slots ordered by label,
      or, when there are none, the seed inventory just inserted. */
  function ListSlots(st: Store, newId: nat -> string): (r: (Store, seq<Slot>))
    ensures |st.slots| > 0 ==> r.0 == st
    ensures |st.slots| == 0 ==> r.0 == st.(slots := SeedSlots(newId))
    ensures SortedBy(r.1, SlotOrder)
    ensures multiset(r.1) == multiset(r.0.slots) && |r.1| == |r.0.slots|
  {
    SlotOrderIsPreorder();
    if |st.slots| == 0 then
      SeedSorted(newId);
      (st.(slots := SeedSlots(newId)), SeedSlots(newId))
    else (st, SortBy(st.slots, SlotOrder))
  }

  /** The windowed view: each listed slot, reported OCCUPIED when booked in
      [start, end) and with its stored status otherwise. */
  function WindowView(ledger: seq<Booking>, listed: seq<Slot>, start: int, end: int): (r: seq<Slot>)
    ensures |r| == |listed|
    ensures forall i :: 0 <= i < |r| ==> r[i] == listed[i].(status := r[i].status)
    ensures forall i :: 0 <= i < |r| ==>
              (r[i].status == Occupied <==> BookedIn(ledger, listed[i].id, start, end) || listed[i].status == Occupied)
    ensures forall i :: 0 <= i < |r| && !BookedIn(ledger, listed[i].id, start, end) ==> r[i] == listed[i]
  {
    seq(|listed|, i requires 0 <= i < |listed| => WindowStatus(ledger, listed[i], start, end))
  }

  /** `getSlots`: returns the new store and the list. The store changes
      only when it was empty (the seed inventory is inserted); a window never
      changes what is stored. The list holds one entry per stored slot,
      ordered by label. Without a window it is exactly the stored slots;
      with one, each entry is its stored slot, reported OCCUPIED exactly when
      it is booked in the window or already occupied. */
  function GetSlots(st: Store, newId: nat -> string, window: Option<(int, int)>): (r: (Store, seq<Slot>))
    ensures |st.slots| > 0 ==> r.0 == st
    ensures |st.slots| == 0 ==> r.0 == st.(slots := SeedSlots(newId))
    ensures |r.1| == |r.0.slots|
    ensures SortedBy(r.1, SlotOrder)
    ensures window.None? ==> multiset(r.1) == multiset(r.0.slots)
    ensures window.Some? ==>
              var (start, end) := window.value;
              var listed := ListSlots(st, newId).1;
              |listed| == |r.1|
              && (forall i :: 0 <= i < |r.1| ==> r.1[i] == listed[i].(status := r.1[i].status))
              && (forall i :: 0 <= i < |r.1| ==>
                    (r.1[i].status == Occupied <==> BookedIn(st.bookings, r.1[i].id, start, end) || listed[i].status == Occupied))
              && (forall i :: 0 <= i < |r.1| && !BookedIn(st.bookings, r.1[i].id, start, end) ==> r.1[i] == listed[i])
  {
    var (stored, listed) := ListSlots(st, newId);
    match window
    case None => (stored, listed)
    case Some((start, end)) => (stored, WindowView(st.bookings, listed, start, end))
  }
}
