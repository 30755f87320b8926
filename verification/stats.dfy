/** The two read-only aggregations: the admin statistics with the full
    booking list, and a user's dashboard (their booking count and revenue,
    their current booking, and the global occupancy). Nothing here writes
    to the store. */
module Stats {
  import opened Common
  import opened Seqs
  import opened Slots
  import opened Bookings
  import opened Users
  import opened State
  import opened BookingRoutes

  // ---- counting and summing ----

  function SlotStatusIs(status: SlotStatus): Slot -> bool
  {
    (s: Slot) => s.status == status
  }

  function StatusIs(status: BookingStatus): Booking -> bool
  {
    (b: Booking) => b.status == status
  }

  /** `slots.filter(s => s.status === status).length`. */
  function SlotsIn(slots: seq<Slot>, status: SlotStatus): (n: nat)
    ensures n <= |slots|
  {
    Count(slots, SlotStatusIs(status))
  }

  /** `bookings.filter(b => b.status === status).length`. */
  function BookingsIn(ledger: seq<Booking>, status: BookingStatus): (n: nat)
    ensures n <= |ledger|
  {
    Count(ledger, StatusIs(status))
  }

  /** Every slot is in exactly one of the three states. */
  lemma {:induction false} SlotPartition(slots: seq<Slot>)
    ensures SlotsIn(slots, Available) + SlotsIn(slots, Occupied) + SlotsIn(slots, Reserved) == |slots|
  {
    if |slots| > 0 {
      SlotPartition(slots[1..]);
    }
  }

  /** Every booking is in exactly one of the four states. */
  lemma {:induction false} BookingPartition(ledger: seq<Booking>)
    ensures BookingsIn(ledger, PendingArrival) + BookingsIn(ledger, Active)
            + BookingsIn(ledger, Completed) + BookingsIn(ledger, Cancelled) == |ledger|
  {
    if |ledger| > 0 {
      BookingPartition(ledger[1..]);
    }
  }

  /** `reduce((sum, b) => sum + b.totalCost, 0)`. */
  function SumCosts(ledger: seq<Booking>): int
  {
    if |ledger| == 0 then 0 else ledger[0].totalCost + SumCosts(ledger[1..])
  }

  /** The total cost of the bookings satisfying `p`. */
  function SumWhere(ledger: seq<Booking>, p: Booking -> bool): int
  {
    if |ledger| == 0 then 0
    else (if p(ledger[0]) then ledger[0].totalCost else 0) + SumWhere(ledger[1..], p)
  }

  predicate CostsNonNegative(ledger: seq<Booking>)
  {
    forall i :: 0 <= i < |ledger| ==> ledger[i].totalCost >= 0
  }

  /** Summing after filtering is summing under the filter's predicate. */
  lemma {:induction false} SumFilter(ledger: seq<Booking>, p: Booking -> bool)
    ensures SumCosts(Filter(ledger, p)) == SumWhere(ledger, p)
  {
    if |ledger| > 0 {
      SumFilter(ledger[1..], p);
    }
  }

  /** Nothing selected sums to zero. */
  lemma {:induction false} SumWhereNone(ledger: seq<Booking>, p: Booking -> bool)
    requires forall i :: 0 <= i < |ledger| ==> !p(ledger[i])
    ensures SumWhere(ledger, p) == 0
  {
    if |ledger| > 0 {
      assert forall i :: 1 <= i < |ledger| ==> ledger[1..][i - 1] == ledger[i];
      SumWhereNone(ledger[1..], p);
    }
  }

  /** A sum over two disjoint conditions is the sum of the two sums. */
  lemma {:induction false} SumWhereSplit(ledger: seq<Booking>, p: Booking -> bool, q: Booking -> bool,
                                         both: Booking -> bool)
    requires forall b :: both(b) == (p(b) || q(b))
    requires forall b :: !(p(b) && q(b))
    ensures SumWhere(ledger, both) == SumWhere(ledger, p) + SumWhere(ledger, q)
  {
    if |ledger| > 0 {
      SumWhereSplit(ledger[1..], p, q, both);
    }
  }

  /** With non-negative costs, selecting more never sums to less. */
  lemma {:induction false} SumWhereMonotone(ledger: seq<Booking>, p: Booking -> bool, q: Booking -> bool)
    requires forall b :: p(b) ==> q(b)
    requires CostsNonNegative(ledger)
    ensures SumWhere(ledger, p) <= SumWhere(ledger, q)
  {
    if |ledger| > 0 {
      assert CostsNonNegative(ledger[1..]) by {
        forall i | 0 <= i < |ledger[1..]| ensures ledger[1..][i].totalCost >= 0 {
          assert ledger[1..][i] == ledger[i + 1];
        }
      }
      SumWhereMonotone(ledger[1..], p, q);
    }
  }

  // ---- GET /admin/stats and /admin/bookings ----

  datatype AdminStats = AdminStats(
    totalSlots: nat,
    available: nat,
    occupied: nat,
    reserved: nat,
    totalBookings: nat,
    activeBookings: nat,
    completedBookings: nat,
    cancelledBookings: nat,
    totalRevenue: int)

  /** The bookings that earn revenue in the admin view. */
  function Earning(): Booking -> bool
  {
    (b: Booking) => b.status == Completed || b.status == Active
  }

  /** `GET /admin/stats`. */
  function GetStats(st: Store): (r: AdminStats)
    ensures r.totalSlots == |st.slots| && r.totalBookings == |st.bookings|
    ensures r.available == |Filter(st.slots, SlotStatusIs(Available))|
    ensures r.occupied == |Filter(st.slots, SlotStatusIs(Occupied))|
    ensures r.reserved == |Filter(st.slots, SlotStatusIs(Reserved))|
    ensures r.activeBookings == |Filter(st.bookings, StatusIs(Active))|
    ensures r.completedBookings == |Filter(st.bookings, StatusIs(Completed))|
    ensures r.cancelledBookings == |Filter(st.bookings, StatusIs(Cancelled))|
    ensures r.available + r.occupied + r.reserved == r.totalSlots
    ensures r.activeBookings + r.completedBookings + r.cancelledBookings
            + BookingsIn(st.bookings, PendingArrival) == r.totalBookings
    ensures r.activeBookings + r.completedBookings + r.cancelledBookings <= r.totalBookings
    ensures r.totalRevenue == SumWhere(st.bookings, StatusIs(Completed)) + SumWhere(st.bookings, StatusIs(Active))
  {
    SlotPartition(st.slots);
    BookingPartition(st.bookings);
    CountFilter(st.slots, SlotStatusIs(Available));
    CountFilter(st.slots, SlotStatusIs(Occupied));
    CountFilter(st.slots, SlotStatusIs(Reserved));
    CountFilter(st.bookings, StatusIs(Active));
    CountFilter(st.bookings, StatusIs(Completed));
    CountFilter(st.bookings, StatusIs(Cancelled));
    SumFilter(st.bookings, Earning());
    SumWhereSplit(st.bookings, StatusIs(Completed), StatusIs(Active), Earning());
    AdminStats(
      |st.slots|,
      SlotsIn(st.slots, Available), SlotsIn(st.slots, Occupied), SlotsIn(st.slots, Reserved),
      |st.bookings|,
      BookingsIn(st.bookings, Active), BookingsIn(st.bookings, Completed), BookingsIn(st.bookings, Cancelled),
      SumCosts(Filter(st.bookings, Earning())))
  }

  /** With non-negative costs the admin revenue is non-negative. */
  lemma AdminRevenueNonNegative(st: Store)
    requires CostsNonNegative(st.bookings)
    ensures GetStats(st).totalRevenue >= 0
  {
    SumWhereMonotone(st.bookings, (b: Booking) => false, StatusIs(Completed));
    SumWhereMonotone(st.bookings, (b: Booking) => false, StatusIs(Active));
    SumWhereNone(st.bookings, (b: Booking) => false);
  }

  /** `GET /admin/bookings`: every booking, newest first. */
  function AllBookings(ledger: seq<Booking>): (r: seq<Booking>)
    ensures SortedBy(r, NewestFirst)
    ensures multiset(r) == multiset(ledger)
  {
    NewestFirstIsPreorder();
    SortBy(ledger, NewestFirst)
  }

  // ---- GET /dashboard/stats ----

  /** `user?.managedCars || []`. */
  function DashboardPlates(users: seq<User>, userId: string): (r: seq<string>)
    ensures FindUser(users, userId).None? ==> r == []
    ensures FindUser(users, userId).Some? ==> r == users[FindUser(users, userId).value].managedCars
  {
    match FindUser(users, userId)
    case None => []
    case Some(k) => users[k].managedCars
  }

  /** The dashboard's `$or`: the caller's own bookings, and any booking
      under one of their plates whoever owns it. */
  predicate BelongsTo(b: Booking, userId: string, plates: seq<string>)
  {
    b.userId == Some(userId) || b.carNumber in plates
  }

  function Belongs(userId: string, plates: seq<string>): Booking -> bool
  {
    (b: Booking) => BelongsTo(b, userId, plates)
  }

  /** The live booking the dashboard shows: among the live bookings that
      belong to the caller, the most recently created one. */
  function CurrentBooking(ledger: seq<Booking>, userId: string, plates: seq<string>): (r: Option<nat>)
    ensures r.None? <==> forall j :: 0 <= j < |ledger| ==> !(BelongsTo(ledger[j], userId, plates) && ledger[j].IsLive())
    ensures r.Some? ==> r.value < |ledger| && BelongsTo(ledger[r.value], userId, plates) && ledger[r.value].IsLive()
    ensures r.Some? ==> forall j :: 0 <= j < |ledger| && BelongsTo(ledger[j], userId, plates) && ledger[j].IsLive() ==>
                           ledger[j].createdAt <= ledger[r.value].createdAt
  {
    ArgMin(ledger, (b: Booking) => BelongsTo(b, userId, plates) && b.IsLive(), (b: Booking) => -b.createdAt)
  }

  /** The populated current booking in the reply. */
  datatype ActiveView = ActiveView(
    id: nat,
    slotNumber: string,
    status: BookingStatus,
    startTime: int,
    bufferExpiry: Option<int>,
    carNumber: string)

  datatype Dashboard = Dashboard(
    totalRevenue: int,
    totalBookings: nat,
    occupied: nat,
    totalSlots: nat,
    active: Option<ActiveView>)

  /** The handler's catch-all: reading `slotNumber` through a booking whose
      slot no longer exists throws. */
  datatype DashboardError = ServerError

  /** The `$match` + `$group` pipeline: no group at all when nothing
      matches, so the handler's fallback supplies 0. */
  function RevenuePipeline(ledger: seq<Booking>, userId: string, plates: seq<string>): (total: int)
    ensures total == SumWhere(ledger, Belongs(userId, plates))
  {
    var matched := Filter(ledger, Belongs(userId, plates));
    SumFilter(ledger, Belongs(userId, plates));
    var groups := if |matched| == 0 then [] else [SumCosts(matched)];
    if |groups| > 0 then groups[0] else 0
  }

  /** `getDashboardStats` for the authenticated `userId`. */
  function GetDashboardStats(st: Store, userId: string): (r: Result<Dashboard, DashboardError>)
    ensures var k := CurrentBooking(st.bookings, userId, DashboardPlates(st.users, userId));
            r.Err? <==> k.Some? && FindById(st.slots, st.bookings[k.value].slotId).None?
    ensures r.Ok? ==>
              (var plates := DashboardPlates(st.users, userId);
               && r.value.totalRevenue == SumWhere(st.bookings, Belongs(userId, plates))
               && r.value.totalBookings == |Filter(st.bookings, Belongs(userId, plates))|
               && r.value.totalBookings <= |st.bookings|
               && (r.value.totalBookings == 0 <==>
                     forall j :: 0 <= j < |st.bookings| ==> !BelongsTo(st.bookings[j], userId, plates)))
    ensures r.Ok? ==> r.value.totalSlots == |st.slots|
    ensures r.Ok? ==> r.value.occupied + SlotsIn(st.slots, Available) == r.value.totalSlots
    ensures r.Ok? ==>
              (var k := CurrentBooking(st.bookings, userId, DashboardPlates(st.users, userId));
               && (r.value.active.None? <==> k.None?)
               && (k.Some? ==>
                     var b := st.bookings[k.value];
                     r.value.active == Some(ActiveView(k.value, st.slots[FindById(st.slots, b.slotId).value].slotNumber,
                                                       b.status, b.startTime, b.bufferExpiry, b.carNumber))))
  {
    var plates := DashboardPlates(st.users, userId);
    CountExtremes(st.bookings, Belongs(userId, plates));
    CountFilter(st.bookings, Belongs(userId, plates));
    CountComplement(st.slots, SlotStatusIs(Available), (s: Slot) => s.status != Available);
    var occupied := Count(st.slots, (s: Slot) => s.status != Available);
    var stats := Dashboard(RevenuePipeline(st.bookings, userId, plates), Count(st.bookings, Belongs(userId, plates)),
                           occupied, |st.slots|, None);
    match CurrentBooking(st.bookings, userId, plates)
    case None => Ok(stats)
    case Some(k) =>
      var b := st.bookings[k];
      match FindById(st.slots, b.slotId)
      case None => Err(ServerError)
      case Some(s) =>
        Ok(stats.(active := Some(ActiveView(k, st.slots[s].slotNumber, b.status, b.startTime, b.bufferExpiry, b.carNumber))))
  }

  /** The dashboard's occupied count is the admin view's occupied plus
      reserved slots. */
  lemma DashboardOccupancyAgreesWithAdmin(st: Store, userId: string)
    requires GetDashboardStats(st, userId).Ok?
    ensures GetDashboardStats(st, userId).value.occupied == GetStats(st).occupied + GetStats(st).reserved
  {
  }

  /** With non-negative costs, the caller's revenue-earning bookings are
      covered both by their dashboard revenue and by the admin revenue. */
  lemma DashboardRevenueCoversEarnings(st: Store, userId: string)
    requires CostsNonNegative(st.bookings)
    requires GetDashboardStats(st, userId).Ok?
    ensures var plates := DashboardPlates(st.users, userId);
            var earned := (b: Booking) => BelongsTo(b, userId, plates) && (b.status == Completed || b.status == Active);
            && SumWhere(st.bookings, earned) <= GetDashboardStats(st, userId).value.totalRevenue
            && SumWhere(st.bookings, earned) <= GetStats(st).totalRevenue
  {
    var plates := DashboardPlates(st.users, userId);
    var earned := (b: Booking) => BelongsTo(b, userId, plates) && (b.status == Completed || b.status == Active);
    SumWhereMonotone(st.bookings, earned, Belongs(userId, plates));
    SumWhereMonotone(st.bookings, earned, Earning());
    SumWhereSplit(st.bookings, StatusIs(Completed), StatusIs(Active), Earning());
  }

  /** The dashboard counts a booking another account owns when its plate is
      one of the caller's, although the caller's booking list never shows it. */
  lemma DashboardCountsForeignPlate(st: Store, userId: string, i: nat)
    requires i < |st.bookings|
    requires FindUser(st.users, userId).Some?
    requires st.bookings[i].carNumber in st.users[FindUser(st.users, userId).value].managedCars
    requires st.bookings[i].userId.Some? && st.bookings[i].userId.value != userId
    ensures BelongsTo(st.bookings[i], userId, DashboardPlates(st.users, userId))
    ensures st.bookings[i] !in MyBookings(st, userId)
  {
    NoForeignBookings(st, userId, st.bookings[i]);
  }
}
