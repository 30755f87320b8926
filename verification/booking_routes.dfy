/** The booking routes: the registered-plate guard in front of creation,
    the `source` default, the read-only `/check` pre-check, and the
    "my bookings" listing with its plate variants and ownership filter. */
module BookingRoutes {
  import opened Common
  import opened Seqs
  import opened Text
  import opened Bookings
  import opened Users
  import opened State
  import opened BookingService

  // ---- POST / ----

  /** The plates the guard compares against: the caller's `managedCars`,
      each normalised; none when the user record is missing. */
  function NormalizedPlates(users: seq<User>, userId: string): (r: seq<string>)
    ensures FindUser(users, userId).None? ==> r == []
    ensures FindUser(users, userId).Some? ==>
              (var u := users[FindUser(users, userId).value];
               && |r| == |u.managedCars|
               && forall i :: 0 <= i < |r| ==> r[i] == Normalize(u.managedCars[i]))
  {
    match FindUser(users, userId)
    case None => []
    case Some(k) =>
      var cars := users[k].managedCars;
      seq(|cars|, i requires 0 <= i < |cars| => Normalize(cars[i]))
  }

  /** A logged-in caller naming a plate must name one of their own, unless
      they have registered none. */
  predicate PlateGuardRejects(users: seq<User>, userId: Option<string>, carNumber: string)
  {
    && !Anonymous(userId) && carNumber != ""
    && var plates := NormalizedPlates(users, userId.value);
       |plates| > 0 && Normalize(carNumber) !in plates
  }

  datatype RouteError = NotRegisteredToAccount | Engine(reason: BookingError)

  /** `source || 'WEB'`. */
  function SourceOrDefault(source: Option<Source>): (s: Source)
    ensures source.None? ==> s == Web
    ensures source.Some? ==> s == source.value
  {
    if source.Some? then source.value else Web
  }

  /** `POST /bookings`: the guard, then the booking engine. */
  function PostBooking(st: Store, now: int, userId: Option<string>, carNumber: string, slotId: string,
                       start: int, end: int, source: Option<Source>, vehicleId: string)
    : (r: Result<(Store, nat), RouteError>)
    ensures PlateGuardRejects(st.users, userId, carNumber) ==> r == Err(NotRegisteredToAccount)
    ensures !PlateGuardRejects(st.users, userId, carNumber) ==>
              (var e := CreateBooking(st, now, userId, carNumber, slotId, start, end, SourceOrDefault(source), vehicleId);
               && (e.Ok? ==> r == Ok(e.value))
               && (e.Err? ==> r == Err(Engine(e.error))))
  {
    if PlateGuardRejects(st.users, userId, carNumber) then Err(NotRegisteredToAccount)
    else match CreateBooking(st, now, userId, carNumber, slotId, start, end, SourceOrDefault(source), vehicleId)
      case Ok(v) => Ok(v)
      case Err(e) => Err(Engine(e))
  }

  /** A caller with no user record or no registered plates may book any
      plate. */
  lemma GuardOpenWithoutPlates(users: seq<User>, userId: string, carNumber: string)
    requires FindUser(users, userId).None? || users[FindUser(users, userId).value].managedCars == []
    ensures !PlateGuardRejects(users, Some(userId), carNumber)
  {
  }

  /** A caller with registered plates may book exactly the plates that
      normalise like one of theirs. */
  lemma GuardAdmitsOwnPlates(users: seq<User>, userId: string, carNumber: string)
    requires userId != "" && carNumber != ""
    requires FindUser(users, userId).Some?
    ensures var cars := users[FindUser(users, userId).value].managedCars;
            !PlateGuardRejects(users, Some(userId), carNumber) <==>
              (|cars| == 0 || exists i :: 0 <= i < |cars| && Normalize(cars[i]) == Normalize(carNumber))
  {
    var cars := users[FindUser(users, userId).value].managedCars;
    var plates := NormalizedPlates(users, userId);
    if Normalize(carNumber) in plates {
      var i :| 0 <= i < |plates| && plates[i] == Normalize(carNumber);
      assert Normalize(cars[i]) == Normalize(carNumber);
    }
    if exists i :: 0 <= i < |cars| && Normalize(cars[i]) == Normalize(carNumber) {
      var i :| 0 <= i < |cars| && Normalize(cars[i]) == Normalize(carNumber);
      assert plates[i] == Normalize(carNumber);
    }
  }

  // ---- POST /check ----

  /** `/check`: true for `available: true`. It reads the ledger only. */
  function CheckAvailable(ledger: seq<Booking>, carNumber: string, start: int, end: int): (available: bool)
    ensures !available <==>
              exists j :: 0 <= j < |ledger| && ledger[j].carNumber == UpperTrim(carNumber)
                          && ledger[j].IsLive() && ledger[j].OverlapsWindow(start, end)
  {
    PlateConflict(ledger, UpperTrim(carNumber), start, end).None?
  }

  /** The pre-check agrees with creation: a plate it reports unavailable
      cannot be booked for that window, and one it reports available never
      fails creation's vehicle check. */
  lemma CheckAgreesWithCreate(st: Store, now: int, userId: Option<string>, carNumber: string, slotId: string,
                              start: int, end: int, source: Source, vehicleId: string)
    ensures !CheckAvailable(st.bookings, carNumber, start, end) ==>
              CreateBooking(st, now, userId, carNumber, slotId, start, end, source, vehicleId).Err?
    ensures CheckAvailable(st.bookings, carNumber, start, end) ==>
              CreateBooking(st, now, userId, carNumber, slotId, start, end, source, vehicleId) != Err(VehicleTaken)
  {
    var a := Admit(st, now, carNumber, slotId, start, end);
    if !CheckAvailable(st.bookings, carNumber, start, end) {
      assert a.Err?;
    } else {
      assert a != Err(VehicleTaken);
    }
  }

  // ---- GET / ----

  /** `managedCars` entries that are not blank after trimming. */
  function RawPlates(cars: seq<string>): (r: seq<string>)
    ensures forall p :: p in r <==> p in cars && Trim(p) != ""
  {
    Filter(cars, (p: string) => Trim(p) != "")
  }

  lemma PrefixMember(x: string, a: seq<string>, b: seq<string>)
    requires a <= b && x in a
    ensures x in b
  {
    var i :| 0 <= i < |a| && a[i] == x;
    assert b[i] == x;
  }

  /** `v` is one of the plates or the normalised form of one. */
  predicate FromPlates(v: string, plates: seq<string>)
  {
    v in plates || exists p :: p in plates && v == Normalize(p)
  }

  lemma FromPlatesCons(v: string, plates: seq<string>)
    requires |plates| > 0
    requires v == plates[0] || v == Normalize(plates[0]) || FromPlates(v, plates[1..])
    ensures FromPlates(v, plates)
  {
    if v == Normalize(plates[0]) {
      assert plates[0] in plates;
    } else if FromPlates(v, plates[1..]) && v !in plates[1..] {
      var q :| q in plates[1..] && v == Normalize(q);
      assert q in plates;
    }
  }

  /** One turn of the variant loop keeps every visited plate covered. */
  lemma VariantsStepCovers(plates: seq<string>, step: seq<string>, r: seq<string>)
    requires |plates| > 0 && plates[0] in step && Normalize(plates[0]) in step && step <= r
    requires forall p :: p in plates[1..] ==> p in r && Normalize(p) in r
    ensures forall p :: p in plates ==> p in r && Normalize(p) in r
  {
    PrefixMember(plates[0], step, r);
    PrefixMember(Normalize(plates[0]), step, r);
    forall q | q in plates
      ensures q in r && Normalize(q) in r
    {
      if q != plates[0] {
        assert q in plates[1..];
      }
    }
  }

  /** One turn of the variant loop adds only the visited plate and its
      normalised form. */
  lemma VariantsStepOnly(acc: seq<string>, plates: seq<string>, step: seq<string>, r: seq<string>)
    requires |plates| > 0
    requires forall v :: v in step ==> v in acc || v == plates[0] || v == Normalize(plates[0])
    requires forall v :: v in r ==> v in step || FromPlates(v, plates[1..])
    ensures forall v :: v in r ==> v in acc || FromPlates(v, plates)
  {
    forall v | v in r
      ensures v in acc || FromPlates(v, plates)
    {
      if v !in acc {
        FromPlatesCons(v, plates);
      }
    }
  }

  /** One turn of the variant loop: the raw plate, then its normalised form
      unless the list already has it. */
  function VariantStep(acc: seq<string>, p: string): (r: seq<string>)
    ensures acc <= r && |r| <= |acc| + 2
    ensures p in r && Normalize(p) in r
    ensures forall v :: v in r ==> v in acc || v == p || v == Normalize(p)
  {
    var withRaw := acc + [p];
    if Normalize(p) in withRaw then withRaw else withRaw + [Normalize(p)]
  }

  /** The variant loop, one `VariantStep` per plate. Every plate visited ends up in the list, raw and
      normalised, and nothing else is added. */
  function AddVariants(acc: seq<string>, plates: seq<string>): (r: seq<string>)
    ensures acc <= r
    ensures |r| <= |acc| + 2 * |plates|
    ensures forall p :: p in plates ==> p in r && Normalize(p) in r
    ensures forall v :: v in r ==> v in acc || FromPlates(v, plates)
    decreases |plates|
  {
    if |plates| == 0 then acc
    else
      var step := VariantStep(acc, plates[0]);
      var r := AddVariants(step, plates[1..]);
      VariantsStepCovers(plates, step, r);
      VariantsStepOnly(acc, plates, step, r);
      r
  }

  lemma VariantsFromCars(cars: seq<string>, raw: seq<string>, r: seq<string>)
    requires forall p :: p in raw ==> p in cars && Trim(p) != ""
    requires forall v :: v in r ==> FromPlates(v, raw)
    ensures forall v :: v in r ==> exists p :: p in cars && Trim(p) != "" && (v == p || v == Normalize(p))
  {
    forall v | v in r
      ensures exists p :: p in cars && Trim(p) != "" && (v == p || v == Normalize(p))
    {
      assert FromPlates(v, raw);
      if v in raw {
        assert v in cars && Trim(v) != "" && v == v;
      } else {
        var p :| p in raw && v == Normalize(p);
        assert p in cars && Trim(p) != "" && v == Normalize(p);
      }
    }
  }

  function PlateVariants(cars: seq<string>): (r: seq<string>)
    ensures forall p :: p in cars && Trim(p) != "" ==> p in r && Normalize(p) in r
    ensures forall v :: v in r ==> exists p :: p in cars && Trim(p) != "" && (v == p || v == Normalize(p))
  {
    var raw := RawPlates(cars);
    var r := AddVariants([], raw);
    VariantsFromCars(cars, raw, r);
    r
  }

  /** The in-memory filter: the caller's own bookings, and anonymous ones
      under a non-empty plate among the variants. */
  predicate Owned(b: Booking, userId: string, variants: seq<string>)
  {
    (b.userId.Some? && b.userId.value == userId)
    || (b.userId.None? && b.carNumber != "" && b.carNumber in variants)
  }

  /** The broad database query the filter re-checks. */
  predicate QueryMatches(b: Booking, userId: string, variants: seq<string>)
  {
    b.userId == Some(userId) || (|variants| > 0 && b.userId.None? && b.carNumber in variants)
  }

  function CallerVariants(users: seq<User>, userId: string): seq<string>
  {
    match FindUser(users, userId)
    case None => []
    case Some(k) => PlateVariants(users[k].managedCars)
  }

  /** `GET /bookings`: the candidates newest first, then the filter. */
  function MyBookings(st: Store, userId: string): (r: seq<Booking>)
    ensures forall b :: b in r <==> b in st.bookings && Owned(b, userId, CallerVariants(st.users, userId))
    ensures SortedBy(r, NewestFirst)
    ensures SubsequenceOf(r, SortBy(Filter(st.bookings, (b: Booking) => QueryMatches(b, userId, CallerVariants(st.users, userId))), NewestFirst))
  {
    var variants := CallerVariants(st.users, userId);
    NewestFirstIsPreorder();
    var candidates := SortBy(Filter(st.bookings, (b: Booking) => QueryMatches(b, userId, variants)), NewestFirst);
    assert forall b :: b in candidates <==> b in multiset(candidates);
    var r := Filter(candidates, (b: Booking) => Owned(b, userId, variants));
    SubsequenceSorted(r, candidates, NewestFirst);
    r
  }

  lemma {:induction false} SubsequenceSorted<T>(r: seq<T>, s: seq<T>, before: (T, T) -> bool)
    requires SubsequenceOf(r, s) && SortedBy(s, before)
    ensures SortedBy(r, before)
    decreases |s|
  {
    if |r| > 0 && |s| > 0 {
      assert SortedBy(s[1..], before);
      if r[0] == s[0] && SubsequenceOf(r[1..], s[1..]) {
        SubsequenceSorted(r[1..], s[1..], before);
        SubsequenceMembers(r[1..], s[1..]);
        forall j | 0 < j < |r|
          ensures before(r[0], r[j])
        {
          assert r[1..][j - 1] in s[1..];
        }
      } else {
        SubsequenceSorted(r, s[1..], before);
      }
    }
  }

  lemma {:induction false} SubsequenceMembers<T>(r: seq<T>, s: seq<T>)
    requires SubsequenceOf(r, s)
    ensures forall x :: x in r ==> x in s
    decreases |s|
  {
    if |r| > 0 && |s| > 0 {
      if r[0] == s[0] && SubsequenceOf(r[1..], s[1..]) {
        SubsequenceMembers(r[1..], s[1..]);
        assert forall x :: x in r ==> x == r[0] || x in r[1..];
      } else {
        SubsequenceMembers(r, s[1..]);
      }
    }
  }

  /** Another user's booking is never listed. */
  lemma NoForeignBookings(st: Store, userId: string, b: Booking)
    requires b.userId.Some? && b.userId.value != userId
    ensures b !in MyBookings(st, userId)
  {
  }
}
