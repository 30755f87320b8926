# Parking reservation backend: a verified model of its core

This project models the core of a smart-parking backend. Users reserve a
parking slot for a time window on the web, or take one at a kiosk. Gate and
slot sensors report arrivals and departures. A periodic sweep cancels
reservations whose arrival buffer ran out and records the reminders it sent.

The model covers:

- the booking engine (`bookingService.ts`): creation, cancellation,
  extension, plate-recognition entry and the expiry/reminder sweep;
- the sensor reconciler and the slot listing (`slotController.ts`);
- the booking routes: the registered-plate guard, the `/check` pre-check and
  the "my bookings" listing with its plate variants and ownership filter;
- the user record with its pre-save `managedCars` sync, the profile and
  vehicle handlers, registration with retroactive booking linking, and
  password reset;
- the mis-attribution repair that is shared by `/fix-bookings` and the
  stand-alone script, plus the `/debug` listing;
- the admin statistics and bookings listing, and the user dashboard;
- the web client's base-URL normalisation and slot query parameters.

## How it is modelled

- **Collections.** The three collections (slots, bookings, users) are
  sequences in natural (insertion) order, held together in `State.Store`.
- **Handlers.** Every handler is a pure function from a store to a new
  store, or to an error that writes nothing. A `findOne` is the first match
  in natural order (`Seqs.First`). A sorted `findOne` is the first element
  with the least key (`Seqs.ArgMin`). A `sort` is a sorted permutation
  (`Seqs.SortBy`). Ties keep natural order.
- **Booking ids and time.** A booking's id is its position in the ledger;
  bookings are never deleted. Time is integer milliseconds, and the current
  instant `now` is a parameter.
- **Supplied by the caller.** The ids the database assigns, the bcrypt and
  sha256 outputs, and the `VITE_API_URL` setting are all parameters.
- **`save`.** `user.save()` is `Users.SaveAt`, which runs three steps in
  order: schema validation, the pre-save hook, then the unique index on
  `email`.
- **`isModified('vehicles')`.** This is read as "the vehicles list actually
  changed".
- **Document ids.** A stored id stands for the lower-case 24-hex text of
  its ObjectId. A sensor's slot reference is matched by id after
  lower-casing, so upper-case hex resolves too.
- **The booking record.** `backend/src/models/Booking.ts` is not part of
  this model. The booking record in `Bookings.Booking` is reconstructed from
  the fields the handlers read and write.

The module `Lifecycle` ties the handlers together. A run is any sequence of
timed requests. Over any run, no booking disappears or changes slot, plate,
start or source, and a status only moves forward: COMPLETED and CANCELLED
are final, and ACTIVE never returns to PENDING_ARRIVAL.

Several behaviours of the code are kept as written. Each is named with the
lemma that exhibits it, where there is one:

- **Plate case (`RawPlateEscapesVehicleCheck`).** A booking stores the plate
  as typed, but the vehicle-overlap check looks up its upper-cased, trimmed
  form. Two overlapping live bookings of "ab1" therefore both pass.
- **Slot exclusivity (`CreatePreservesSlotExclusive`, `ExtendCanDoubleBook`).**
  Creation keeps the ledger free of overlapping live bookings of one slot.
  Extension re-checks nothing, so it can overlap the next booking of the
  same slot. The cost grows by `hours × 50` with no rounding up.
- **Gate id (`GateShadowsAliasA3`).** The gate id "3" is tested before the
  numeric alias, so a sensor cannot address slot A3 as `3`.
- **Registration (`LowercasePlateEscapesTakenCheck`).** The taken-plate
  check compares the plate as typed with stored upper-case plates.
- **Dashboard (`DashboardCountsForeignPlate`).** The dashboard counts
  another account's booking whose plate the caller lists, although
  `GET /bookings` filters that booking out.
- **Sensor transitions.** They write `status` only and never clear
  `currentBookingId`.
- **Windows.** Nothing rejects a window with `end <= start`. Such a window
  costs zero or less (`BookingService.BookingCost`).
- **Buffer deadline (`DeadlineInstantDisagrees`).** A FREE report on a
  RESERVED slot cancels the pending booking only when `now` is strictly
  after its buffer deadline. The sweep cancels once the remaining time is
  `<= 0`, so at the deadline instant itself the two paths disagree.

## Model

| member | source | states |
|---|---|---|
| Common.CeilDiv | backend/src/services/bookingService.ts:74-75 | `Math.ceil(a / b)` for a positive divisor: the least multiple count covering `a` |
| Text.ToUpper | backend/src/routes/bookingRoutes.ts:20 | upper-casing keeps the length and maps each character by ASCII upper-case |
| Text.Trim | backend/src/routes/bookingRoutes.ts:46 | the result has no white space at either end; a string with none at its ends is kept; an all-blank one becomes empty |
| Text.Normalize | backend/src/routes/bookingRoutes.ts:20-23 | the normalised plate holds no white space, `-`, `.` or lower-case letter, and is the upper-cased plate with separators removed |
| Text.NormalizeIdempotent | backend/src/routes/bookingRoutes.ts:75-78 | normalising a normalised plate changes nothing, so the variant list never gains a second copy |
| Text.NormalizeIgnoresCase | backend/src/routes/bookingRoutes.ts:20-23 | plates differing only in letter case normalise alike |
| Text.SpaceSet | backend/src/routes/bookingRoutes.ts:20-23 | `\s` and `trim` never touch a letter, digit, `-` or `.`, and do remove tab, line breaks, the no-break space and the other Unicode spaces |
| Text.BlankIsNumeric | backend/src/controllers/slotController.ts:104 | `Number` of a blank id is 0, so a blank id counts as numeric |
| Text.DigitsAreNumeric | backend/src/controllers/slotController.ts:104 | a run of decimal digits counts as numeric |
| Text.LetterFirstNotNumeric | backend/src/controllers/slotController.ts:104 | an id whose trimmed form starts with a letter other than the `I` of `Infinity` is not numeric |
| Text.SignedHexNotNumeric | backend/src/controllers/slotController.ts:104 | a signed `0x` literal is not numeric |
| Text.NumericExamples | backend/src/controllers/slotController.ts:104 | "12" is numeric and "A1" is not |
| Slots.NewSlot | backend/src/models/ParkingSlot.ts:11-25 | a new slot keeps its id, label and zone, defaults its type to CAR, and starts AVAILABLE with no current booking |
| Slots.FindById | backend/src/services/bookingService.ts:21-24 | the slot found has the requested id and is the first with it; none found means no slot has that id (the id is compared as exact text, see Left out) |
| Slots.UpdateById | backend/src/services/bookingService.ts:95-97 | `findByIdAndUpdate` changes only the slot with that id, by the given change, and an unknown id changes nothing |
| Slots.SeedSlot | backend/src/controllers/slotController.ts:14-24 | each seed slot is labelled zone letter plus 1..6 and AVAILABLE; its class is CAR exactly for A1..A6 and B3..B6, HANDICAPPED exactly for B1 and B2, TRUCK exactly for C1..C3 and BIKE exactly for C4..C6 |
| Slots.SeedSlots | backend/src/controllers/slotController.ts:10-28 | the seed inventory is 18 slots A1..C6 with distinct labels, all AVAILABLE and unlinked, zone equal to the label's letter, and each slot's class fixed by its label as above (CAR for A1..A6 and B3..B6, HANDICAPPED for B1..B2, TRUCK for C1..C3, BIKE for C4..C6) |
| Bookings.SlotConflict | backend/src/services/bookingService.ts:27-40 | a reported conflict is a live booking of that slot overlapping the window; none reported means no such booking exists |
| Bookings.PlateConflict | backend/src/services/bookingService.ts:43-52 | a reported conflict is a live booking under that exact plate string overlapping the window; none means none exists |
| Users.PreSave | backend/src/models/User.ts:41-46 | a save that modified the vehicles leaves `managedCars` equal to their plates in order; any other save leaves it alone; nothing else changes |
| Users.SaveAt | backend/src/models/User.ts:27-38 | a save succeeds exactly when the record passes the required fields and its email is unused by others; it then replaces only that user, after the hook, and keeps emails unique |
| Users.CreateUser | backend/src/controllers/authController.ts:48-54 | creation succeeds exactly when the record is valid and its email unused; the new user is appended with `managedCars` synced |
| Users.FindUser | backend/src/controllers/userController.ts:4-9 | the user found has the requested id; none found means no user has it |
| BookingService.BookingCost | backend/src/services/bookingService.ts:74-75 | the cost is 50 per started hour: a multiple of 50 whose hour count is the least covering the window |
| BookingService.PlateOwner | backend/src/services/bookingService.ts:54-59 | the owner found is the first user listing the upper-cased, trimmed plate; none found means no user lists it |
| BookingService.AutoLink | backend/src/services/bookingService.ts:54-71 | an anonymous booking (no user id, or an empty one) adopts the first owner of its plate; if that owner lacks the plate, the saved record gains exactly `Vehicle(id, upper-cased trimmed plate, CAR)` at the end with `managedCars` re-synced, and the link fails exactly when that save is refused; other users are untouched |
| BookingService.Admit | backend/src/services/bookingService.ts:16-52 | the checks run in order (start in the past, unknown slot, slot overlap, vehicle overlap), and admission guarantees no live overlap on the slot or the plate |
| BookingService.Commit | backend/src/services/bookingService.ts:77-97 | the booking is appended at the next id, and only the booked slot changes: OCCUPIED for KIOSK, RESERVED for WEB, pointing at the new booking |
| BookingService.CreateBooking | backend/src/services/bookingService.ts:8-100 | creation succeeds exactly when every check passes and the owner save succeeds, failing with the first failed check or `OwnerSaveFailed`; on success it appends one booking with the requested window, cost and owner (the adopted one for an anonymous booking), PENDING_ARRIVAL with a 30-minute buffer for WEB or ACTIVE for KIOSK, marks only the booked slot, and stores the users the link saved |
| BookingService.CreatePreservesSlotExclusive | backend/src/services/bookingService.ts:27-40 | a successful creation keeps the live bookings of every slot pairwise non-overlapping |
| BookingService.CreatePreservesPlateExclusive | backend/src/services/bookingService.ts:43-52 | for a plate already in upper-cased, trimmed form, creation keeps live bookings of each plate string non-overlapping |
| BookingService.RawPlateEscapesVehicleCheck | backend/src/services/bookingService.ts:43-52 | a lower-case plate is stored raw but checked upper-cased, so a second overlapping booking of "ab1" is accepted |
| BookingService.CancelBooking | backend/src/services/bookingService.ts:181-201 | an unknown id or a finished booking is refused; otherwise exactly that booking becomes CANCELLED and its slot is released |
| BookingService.ExtendBooking | backend/src/services/bookingService.ts:203-223 | only a live booking extends; zero hours modifies nothing, so nothing is written and `updatedAt` stays; otherwise its end moves by the hours, its cost by 50 per hour and `updatedAt` to now, and every other field of it (buffer, actual times, reminders) and every other record stays the same |
| BookingService.ExtendCanDoubleBook | backend/src/services/bookingService.ts:213-221 | extending the first of two back-to-back live bookings of a slot makes them overlap |
| BookingService.RecognizePlate | backend/src/services/bookingService.ts:102-128 | a match exists exactly when some PENDING_ARRIVAL booking of that plate has an unexpired buffer; the first such becomes ACTIVE from now and its slot OCCUPIED; no match changes nothing |
| BookingService.Mark | backend/src/services/bookingService.ts:160-178 | a reminder is recorded once due, never twice, and no other marker is added |
| BookingService.MarkAllDue | backend/src/services/bookingService.ts:158-178 | after the three reminder passes, exactly the due markers and the earlier ones are recorded |
| BookingService.SweepBooking | backend/src/services/bookingService.ts:138-178 | a swept booking is cancelled exactly when its buffer deadline has been reached; otherwise only its markers grow, to exactly the due ones; other bookings are untouched |
| BookingService.ReleaseExpired | backend/src/services/bookingService.ts:150-154 | a slot is released exactly when some expired booking names it, and is otherwise left as stored; nothing expired releases nothing |
| BookingService.Sweep | backend/src/services/bookingService.ts:130-180 | every booking is swept independently; a slot is released exactly when an expired booking names it; the users are untouched |
| BookingService.SweepFreesExpiredSlot | backend/src/services/bookingService.ts:140-155 | after a sweep, an expired booking is CANCELLED and the slot it names is AVAILABLE with no current booking |
| BookingService.SweepBookingIdempotent | backend/src/services/bookingService.ts:138-178 | sweeping a booking again at the same instant changes nothing, and leaves nothing expired |
| BookingService.SweepIdempotent | backend/src/services/bookingService.ts:130-180 | two sweeps at the same instant leave the same store as one: no double cancel, no double reminder |
| SlotController.ResolveSlot | backend/src/controllers/slotController.ts:97-109 | the slot found is the first matching the label, the 24-hex id (in either letter case) or the numeric "A" alias; none found means no slot matches any |
| SlotController.HexIdResolves | backend/src/controllers/slotController.ts:97-109 | a 24-hex reference whose lower-cased text is a stored id always resolves, to that slot or an earlier match |
| SlotController.UpperCaseIdResolves | backend/src/controllers/slotController.ts:97-109 | an upper-case hex reference finds the slot stored under the lower-case id |
| SlotController.LatestLive | backend/src/controllers/slotController.ts:79-81 | the gate picks a live booking with the latest `updatedAt`; none exactly when no booking is live |
| SlotController.ActiveOn | backend/src/controllers/slotController.ts:121 | the booking found is ACTIVE on that slot; none means none is |
| SlotController.EarliestPending | backend/src/controllers/slotController.ts:132-135 | the booking found is the PENDING_ARRIVAL booking of that slot with the earliest start; none means none exists |
| SlotController.Transition | backend/src/controllers/slotController.ts:118-178 | each of the nine status/signal rows: which booking is completed, activated or cancelled, the slot's new status, and no-ops elsewhere; only the slot's status and at most one booking change |
| SlotController.UpdateSlotStatus | backend/src/controllers/slotController.ts:70-186 | the gate never writes and answers ALLOW with the latest live booking, DENY exactly when none is live, IDLE otherwise; an unresolvable id is 404; a resolved slot goes through the transition |
| SlotController.GateShadowsAliasA3 | backend/src/controllers/slotController.ts:75 | a report for id 3 never reaches slot A3 and writes nothing |
| SlotController.SensorIdempotent | backend/src/controllers/slotController.ts:118-178 | a sensor repeating its report at the same instant changes nothing more |
| SlotController.TransitionIdempotent | backend/src/controllers/slotController.ts:118-178 | applying the same FREE or OCCUPIED report to a slot twice gives the same store as applying it once |
| SlotController.TransitionKeepsResolution | backend/src/controllers/slotController.ts:98-116 | a transition writes statuses only, so the same report resolves to the same slot afterwards |
| SlotController.SlotOrderIsPreorder | backend/src/controllers/slotController.ts:8 | ordering by label is total and transitive, so the sort is well defined |
| SlotController.SeedSorted | backend/src/controllers/slotController.ts:14-26 | the seed inventory is inserted already in label order |
| SlotController.WindowStatus | backend/src/controllers/slotController.ts:49-55 | a slot is reported OCCUPIED exactly when a live booking overlaps the window or it is stored OCCUPIED; otherwise it is unchanged |
| SlotController.ListSlots | backend/src/controllers/slotController.ts:8-28 | the listing is a label-sorted permutation of the stored slots, and an empty store is seeded first |
| SlotController.WindowView | backend/src/controllers/slotController.ts:30-57 | each listed slot keeps everything but its status, which is OCCUPIED exactly when booked in the window or stored so |
| SlotController.GetSlots | backend/src/controllers/slotController.ts:5-68 | the seed inventory is inserted exactly when the store is empty; the list has one entry per stored slot, ordered by label; without a window it is a permutation of the stored slots; with one each entry is its stored slot, reported OCCUPIED exactly when booked in the window or already occupied, and unchanged when not booked |
| BookingRoutes.NormalizedPlates | backend/src/routes/bookingRoutes.ts:19-23 | the guard's plate list is the caller's `managedCars` normalised one by one, empty for an unknown caller |
| BookingRoutes.SourceOrDefault | backend/src/routes/bookingRoutes.ts:32 | a missing source means WEB |
| BookingRoutes.PostBooking | backend/src/routes/bookingRoutes.ts:10-37 | a caller with registered plates naming a foreign plate is refused before the engine runs; otherwise the engine's outcome is returned unchanged |
| BookingRoutes.GuardOpenWithoutPlates | backend/src/routes/bookingRoutes.ts:25 | a caller with no record or no registered plates may book any plate |
| BookingRoutes.GuardAdmitsOwnPlates | backend/src/routes/bookingRoutes.ts:18-30 | a caller with plates passes the guard exactly when the plate normalises like one of theirs |
| BookingRoutes.CheckAvailable | backend/src/routes/bookingRoutes.ts:40-63 | unavailable exactly when a live booking under the upper-cased, trimmed plate overlaps the window |
| BookingRoutes.CheckAgreesWithCreate | backend/src/routes/bookingRoutes.ts:44-57 | an unavailable answer means creation fails, and an available one means creation never fails on the vehicle check |
| BookingRoutes.RawPlates | backend/src/routes/bookingRoutes.ts:69 | the raw plates are exactly the entries not blank after trimming |
| BookingRoutes.AddVariants | backend/src/routes/bookingRoutes.ts:72-79 | the variant list only grows, by at most two entries per plate; every plate and its normalised form end up in it, and it holds nothing beyond what it started with, the plates and their normalised forms |
| BookingRoutes.VariantStep | backend/src/routes/bookingRoutes.ts:73-78 | one turn adds the raw plate and its normalised form, and nothing else, to the list |
| BookingRoutes.PlateVariants | backend/src/routes/bookingRoutes.ts:69-79 | the variants are exactly the non-blank plates and their normalised forms |
| BookingRoutes.MyBookings | backend/src/routes/bookingRoutes.ts:66-124 | the listing holds exactly the caller's own bookings and the anonymous ones under a plate variant, newest first, in the order of the broad query |
| BookingRoutes.NoForeignBookings | backend/src/routes/bookingRoutes.ts:106-116 | another user's booking is never listed |
| UserController.SaveEdited | backend/src/controllers/userController.ts:124-131 | a handler's save succeeds exactly when the record is valid and its email unused by others; a changed vehicle list resyncs `managedCars`, an unchanged one leaves the record as edited |
| UserController.AddVehicle | backend/src/controllers/userController.ts:94-138 | missing fields, a plate another user holds, an unknown user and a plate already held are refused in that order; past them the add succeeds exactly when the save accepts the edited record, which is the caller's record with one vehicle appended (the given id and class, the upper-cased trimmed plate, an empty nickname dropped) and `managedCars` synced, nothing else changed |
| UserController.AddVehicleKeepsPlatesDistinct | backend/src/controllers/userController.ts:118-131 | a successful add keeps the caller's plates pairwise distinct |
| UserController.RemoveVehicle | backend/src/controllers/userController.ts:141-159 | an unknown user is refused; for a found user the removal succeeds exactly when the save accepts the edited record, which keeps, in order, exactly the vehicles with another id; no other user changes |
| UserController.RemoveUnknownIsNoOp | backend/src/controllers/userController.ts:151 | removing an id no vehicle has leaves a valid store as it was |
| UserController.ProfileOf | backend/src/controllers/userController.ts:20-28 | the profile lists the vehicles and reports the first one as the legacy plate and type, or an empty plate and CAR |
| UserController.Migrated | backend/src/controllers/userController.ts:13-17 | each legacy plate becomes one CAR vehicle with that plate, in order |
| UserController.GetUserProfile | backend/src/controllers/userController.ts:4-37 | an unknown user is refused; anyone not needing migration is reported without a write; a user with plates but no vehicles is migrated, succeeding exactly when the save accepts the migrated record, which is stored with one CAR per plate and `managedCars` unchanged |
| UserController.MigrationOnce | backend/src/controllers/userController.ts:11-18 | a migrated profile needs no second migration |
| UserController.LegacyVehicles | backend/src/controllers/userController.ts:60-71 | a legacy plate overwrites the first vehicle's plate (and type when given) or creates the only vehicle |
| UserController.UpdateUserProfile | backend/src/controllers/userController.ts:39-91 | empty fields keep the stored name and email; a plate another user holds is refused; a legacy plate replaces the vehicle list as the legacy vehicles; the update succeeds exactly when the edited record validates and its email is free; a changed vehicle list re-syncs `managedCars`; password and role never change; unique emails are kept |
| UserController.ProfileEdit | backend/src/controllers/userController.ts:45-71 | the edited record takes a non-empty name and email, and the legacy vehicles when a plate is given; every other field is kept |
| UserController.UpdateProfileIdempotent | backend/src/controllers/userController.ts:39-91 | repeating a successful profile update with the same fields succeeds and changes nothing more |
| AuthController.InitialVehicles | backend/src/controllers/authController.ts:42-45 | registering with a plate starts with one vehicle holding the upper-cased, trimmed plate (CAR by default); without one, with none |
| AuthController.LinkBookings | backend/src/controllers/authController.ts:57-68 | exactly the anonymous live bookings under the plate's normalised or upper-trimmed form are handed to the new user |
| AuthController.LinkIdempotent | backend/src/controllers/authController.ts:57-68 | linking twice adopts nothing more |
| AuthController.RegisterUser | backend/src/controllers/authController.ts:13-94 | missing fields, a used email and a registered plate are refused in that order; past them registration succeeds exactly when the hash is set and the plate (if any) is not blank once trimmed, and otherwise fails validation; success appends a synced USER account, keeps emails unique and links the plate's anonymous bookings |
| AuthController.RegisterLeavesOwnedAndFinished | backend/src/controllers/authController.ts:57-68 | registration never takes over a booking with an owner or one already finished |
| AuthController.LowercasePlateEscapesTakenCheck | backend/src/controllers/authController.ts:30-36 | registering "ab1" next to an account holding "AB1" succeeds, and both accounts then hold "AB1" |
| AuthController.ResetPassword | backend/src/controllers/authController.ts:180-207 | the token is invalid exactly when no account has a matching unexpired token; otherwise the reset succeeds exactly when the save accepts the first such account with the new hash and no token, and then no other account changes |
| AuthController.ResetTokenSingleUse | backend/src/controllers/authController.ts:193-201 | a reset token works once |
| Repair.Judge | backend/src/routes/debugRoutes.ts:53-79 | an examined booking is unlinked for a missing owner exactly when no user has its owner id, and kept exactly when the owner lists its plate |
| Repair.FixOne | backend/src/scripts/fixBookingAssociations.ts:33-56 | a mis-attributed kiosk booking loses its owner, every other booking is untouched, and the result needs no further fix |
| Repair.FixBookings | backend/src/routes/debugRoutes.ts:40-86 | one result per examined booking in ledger order with its verdict, `totalChecked` equal to the examined count, and the fixed count equal to the number unlinked |
| Repair.RerunFixesNothing | backend/src/scripts/fixBookingAssociations.ts:24-60 | a second repair run finds nothing to unlink |
| Repair.LiveBookings | backend/src/routes/debugRoutes.ts:14-16 | the debug listing holds exactly the live bookings, in ledger order |
| Stats.SlotPartition | backend/src/routes/adminRoutes.ts:31-34 | every slot is counted in exactly one of the three states |
| Stats.BookingPartition | backend/src/routes/adminRoutes.ts:35-38 | every booking is counted in exactly one of the four states |
| Stats.SumFilter | backend/src/routes/adminRoutes.ts:39-41 | summing costs after a filter equals summing under the filter's condition |
| Stats.SumWhereNone | backend/src/controllers/dashboardController.ts:37 | nothing selected sums to zero |
| Stats.SumWhereSplit | backend/src/routes/adminRoutes.ts:39-41 | a sum over two disjoint conditions is the sum of the two sums |
| Stats.GetStats | backend/src/routes/adminRoutes.ts:25-49 | each count is the number of slots or bookings with its status; the three slot counts add up to all slots; ACTIVE, COMPLETED, CANCELLED and the uncounted PENDING_ARRIVAL add up to all bookings; the revenue is the cost of COMPLETED plus ACTIVE bookings |
| Stats.AdminRevenueNonNegative | backend/src/routes/adminRoutes.ts:39-41 | with non-negative costs the admin revenue is non-negative |
| Stats.AllBookings | backend/src/routes/adminRoutes.ts:10-22 | the admin listing is every booking exactly once, newest first |
| Stats.DashboardPlates | backend/src/controllers/dashboardController.ts:12 | the caller's plates, or none for an unknown caller |
| Stats.CurrentBooking | backend/src/controllers/dashboardController.ts:40-45 | the current booking is a live booking of the caller's or under a caller's plate, the most recently created; none exactly when no such booking exists |
| Stats.RevenuePipeline | backend/src/controllers/dashboardController.ts:26-37 | the dashboard revenue is the total cost of every matching booking, zero when none match |
| Stats.GetDashboardStats | backend/src/controllers/dashboardController.ts:7-71 | fails only when the current booking's slot is gone; the booking count is the number of matching bookings and the revenue their total cost; non-AVAILABLE slots count as occupied; the current booking is shown with its slot's label |
| Stats.DashboardOccupancyAgreesWithAdmin | backend/src/controllers/dashboardController.ts:48-49 | the dashboard's occupied count is the admin view's occupied plus reserved |
| Stats.DashboardRevenueCoversEarnings | backend/src/controllers/dashboardController.ts:26-37 | with non-negative costs, the caller's COMPLETED and ACTIVE bookings cost no more than the dashboard revenue and no more than the admin revenue |
| Stats.DashboardCountsForeignPlate | backend/src/controllers/dashboardController.ts:15-20 | another account's booking under a caller's plate is counted on the dashboard but not listed in "my bookings" |
| ApiClient.BaseUrl | frontend/src/services/api.ts:3-9 | the base URL always ends in `/api` or `/api/`, extends the configured address, keeps one already ending so, and defaults to the local server |
| ApiClient.BaseUrlIdempotent | frontend/src/services/api.ts:5-7 | normalising a normalised base URL changes nothing |
| ApiClient.SlotQuery | frontend/src/services/api.ts:28-32 | the window is sent exactly when both ends are given and non-empty |
| ApiClient.HalfWindowSendsNothing | frontend/src/services/api.ts:29 | one end alone never narrows the listing |
| Lifecycle.TransitionSucceeds | backend/src/controllers/slotController.ts:118-178 | a slot transition keeps every booking at its id with the same slot, plate, start, source and creation time, and a status reachable from the old one |
| Lifecycle.CreateSucceeds | backend/src/services/bookingService.ts:77-97 | an accepted creation only appends: every existing booking stays at its id, unchanged |
| Lifecycle.BookSucceeds | backend/src/routes/bookingRoutes.ts:10-37 | an accepted booking request keeps every existing booking at its id, evolved only forward |
| Lifecycle.CancelSucceeds | backend/src/services/bookingService.ts:181-201 | cancellation keeps every booking at its id, evolved only forward |
| Lifecycle.ExtendSucceeds | backend/src/services/bookingService.ts:203-223 | extension keeps every booking at its id, evolved only forward |
| Lifecycle.PlateSucceeds | backend/src/services/bookingService.ts:102-128 | plate recognition keeps every booking at its id, evolved only forward |
| Lifecycle.TickSucceeds | backend/src/services/bookingService.ts:130-180 | the sweep keeps every booking at its id, evolved only forward |
| Lifecycle.SensorSucceeds | backend/src/controllers/slotController.ts:70-186 | a sensor or gate report keeps every booking at its id, evolved only forward |
| Lifecycle.RegisterSucceeds | backend/src/controllers/authController.ts:57-68 | registration keeps every booking at its id, evolved only forward |
| Lifecycle.FixSucceeds | backend/src/routes/debugRoutes.ts:50-80 | the association repair keeps every booking at its id, evolved only forward |
| Lifecycle.ApplySucceeds | backend/src/services/bookingService.ts:181-223 | every request keeps every booking at its id with the same slot, plate, start and source, and only moves its status forward |
| Lifecycle.RunSucceeds | backend/src/services/bookingService.ts:181-223 | over any run of requests, no booking disappears or changes slot, plate, start, source or creation time, and statuses only move forward |
| Lifecycle.FinishedStaysFinished | backend/src/services/bookingService.ts:187-189 | a COMPLETED or CANCELLED booking keeps its status through any run |
| Lifecycle.NoReturnToPending | backend/src/controllers/slotController.ts:162-174 | a booking that left PENDING_ARRIVAL never returns to it |
| Lifecycle.DeadlineInstantDisagrees | backend/src/controllers/slotController.ts:137-139 | at the buffer deadline instant the sweep cancels the earliest pending booking, while a FREE report on its RESERVED slot writes nothing |

## Left out

- Concurrency and the cron cadence. Each handler is one atomic step. Interleaved requests, and the period of the sweep, are not modelled.
- Logging, `populate`, socket or notification delivery, and the shaping of HTTP replies are not modelled. A reminder is modelled as its recorded marker only.
- bcrypt, JWT and sha256 are not modelled. Their outputs are parameters.
- `loginUser`, `generateToken` and `forgotPassword` are left out. They only issue tokens and send mail, and no booking or slot state depends on them.
- The admin `/users` listing is left out. It is a projection of the user store, and the user record carries no creation time to sort by.
- Parsing of request date strings is left out: windows arrive as milliseconds. NaN dates and a `totalCost` that is not a number cannot occur in the model, so the `|| 0` default has no effect.
- Unicode case mapping is not modelled. `toUpperCase` is modelled on ASCII letters only, while trimming uses the full ECMAScript white-space set.
- Invalid enum strings are not modelled. A `slot_id` that is neither a string nor a number is not modelled either.
- Save failures are modelled only as the schema's `required` checks and the unique `email` index, which the handlers report as errors that write nothing. Other database failures, and the other 500 paths except the dashboard's missing slot, are not modelled.
- Timestamps of slots and users are not modelled. Only bookings carry `createdAt` and `updatedAt`.
- Ties in database sorts are not modelled. They keep natural order, which is one of the orders MongoDB may return.
- BookingService.ExtendBooking: the extension is a whole number of hours, so fractional `additionalHours` are not modelled.
- BookingService.Sweep: a failed save never occurs in the model, so per-record failure isolation is not modelled.
- Slots.FindById: a booking request's slot id is compared with the stored (lower-case) id as exact text. The database would also accept the same id in upper-case hex, and would turn other text into a cast error. The model answers `SlotNotFound` in both cases; `BookingService.CreateBooking` writes nothing either way.
- SlotController.ResolveSlot: the `_id` criterion of a report that is not a 24-hex string is taken to match no slot.
