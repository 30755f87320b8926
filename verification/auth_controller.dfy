/** Registration (field validation, the duplicate-email and taken-plate
    checks, the initial vehicle list and the retroactive linking of
    anonymous bookings) and the password reset. Password and token hashing
    are supplied by the caller: `passwordHash` is the bcrypt output and
    `digest` the sha256 hex digest. */
module AuthController {
  import opened Common
  import opened Seqs
  import opened Text
  import opened Bookings
  import opened Users
  import opened State

  datatype AuthError =
    | MissingFields
    | UserExists
    | PlateTaken
    | CreateFailed(cause: SaveError)
    | InvalidToken
    | ResetSaveFailed(cause: SaveError)

  /** Some stored user already lists `plate` in `managedCars` (exact text). */
  predicate PlateRegistered(users: seq<User>, plate: string)
  {
    exists j :: 0 <= j < |users| && plate in users[j].managedCars
  }

  predicate EmailTaken(users: seq<User>, email: string)
  {
    exists j :: 0 <= j < |users| && users[j].email == email
  }

  /** The vehicle list a registration starts with. */
  function InitialVehicles(plateNumber: string, vehicleType: Option<VehicleClass>, vehicleId: string): (r: seq<Vehicle>)
    ensures plateNumber == "" ==> r == []
    ensures plateNumber != "" ==>
              (&& |r| == 1 && r[0].plateNumber == UpperTrim(plateNumber)
               && r[0].kind == (if vehicleType.Some? then vehicleType.value else Car))
  {
    if plateNumber == "" then []
    else [Vehicle(vehicleId, UpperTrim(plateNumber), if vehicleType.Some? then vehicleType.value else Car, None)]
  }

  /** The anonymous bookings a new account adopts: no owner, still live,
      stored under the plate in normalised or upper-cased trimmed form. */
  predicate Adoptable(b: Booking, plateNumber: string)
  {
    b.userId.None? && b.IsLive() && (b.carNumber == Normalize(plateNumber) || b.carNumber == UpperTrim(plateNumber))
  }

  /** The `updateMany` that hands adoptable bookings to `userId`. */
  function LinkBookings(ledger: seq<Booking>, plateNumber: string, userId: string, now: int): (r: seq<Booking>)
    ensures |r| == |ledger|
    ensures forall i :: 0 <= i < |ledger| && Adoptable(ledger[i], plateNumber) ==>
              r[i] == ledger[i].(userId := Some(userId), updatedAt := now)
    ensures forall i :: 0 <= i < |ledger| && !Adoptable(ledger[i], plateNumber) ==> r[i] == ledger[i]
  {
    seq(|ledger|, i requires 0 <= i < |ledger| =>
      if Adoptable(ledger[i], plateNumber) then ledger[i].(userId := Some(userId), updatedAt := now) else ledger[i])
  }

  /** Linking twice at once adopts nothing more. */
  lemma LinkIdempotent(ledger: seq<Booking>, plateNumber: string, userId: string, now: int)
    ensures LinkBookings(LinkBookings(ledger, plateNumber, userId, now), plateNumber, userId, now)
            == LinkBookings(ledger, plateNumber, userId, now)
  {
  }

  /** The record `registerUser` hands to `create`: the default role, the
      initial vehicles and no plates yet (the hook fills them in). With a
      name and an email it is valid exactly when the hash is set and the
      plate, if any, is not blank once trimmed. */
  function NewAccount(userId: string, name: string, email: string, passwordHash: string, plateNumber: string,
                      vehicleType: Option<VehicleClass>, vehicleId: string): (u: User)
    ensures u == User(userId, name, email, passwordHash, UserRole,
                      InitialVehicles(plateNumber, vehicleType, vehicleId), [], None, None)
    ensures name != "" && email != "" ==>
              (SchemaValid(u) <==> passwordHash != "" && (plateNumber != "" ==> UpperTrim(plateNumber) != ""))
  {
    User(userId, name, email, passwordHash, DefaultRole(None),
         InitialVehicles(plateNumber, vehicleType, vehicleId), [], None, None)
  }

  /** `registerUser`; `userId` and `vehicleId` are the ids the store
      assigns. Returns the new store; the new user is last. */
  function RegisterUser(st: Store, now: int, name: string, email: string, password: string, plateNumber: string,
                        vehicleType: Option<VehicleClass>, passwordHash: string, userId: string, vehicleId: string)
    : (r: Result<Store, AuthError>)
    ensures name == "" || email == "" || password == "" ==> r == Err(MissingFields)
    ensures (name != "" && email != "" && password != "" && EmailTaken(st.users, email)) ==> r == Err(UserExists)
    ensures (name != "" && email != "" && password != "" && !EmailTaken(st.users, email)
             && plateNumber != "" && PlateRegistered(st.users, plateNumber)) ==> r == Err(PlateTaken)
    // past the three checks the email is unused, so `create` fails only on a
    // `required` field: the hash, or a plate that is blank once trimmed
    ensures (name != "" && email != "" && password != "" && !EmailTaken(st.users, email)
             && !(plateNumber != "" && PlateRegistered(st.users, plateNumber))) ==>
              && (r.Ok? <==> passwordHash != "" && (plateNumber != "" ==> UpperTrim(plateNumber) != ""))
              && (r.Err? ==> r == Err(CreateFailed(ValidationFailed)))
    ensures r.Ok? ==>
              (&& |r.value.users| == |st.users| + 1
               && r.value.users[..|st.users|] == st.users
               && var u := r.value.users[|st.users|];
                  && u.id == userId && u.name == name && u.email == email && u.passwordHash == passwordHash
                  && u.role == UserRole
                  && u.vehicles == InitialVehicles(plateNumber, vehicleType, vehicleId)
                  && Synced(u))
    ensures r.Ok? && UniqueEmails(st.users) ==> UniqueEmails(r.value.users)
    ensures r.Ok? ==> r.value.slots == st.slots
    ensures r.Ok? && plateNumber == "" ==> r.value.bookings == st.bookings
    ensures r.Ok? && plateNumber != "" ==> r.value.bookings == LinkBookings(st.bookings, plateNumber, userId, now)
  {
    if name == "" || email == "" || password == "" then Err(MissingFields)
    else if EmailTaken(st.users, email) then Err(UserExists)
    else if plateNumber != "" && PlateRegistered(st.users, plateNumber) then Err(PlateTaken)
    else
      var u := NewAccount(userId, name, email, passwordHash, plateNumber, vehicleType, vehicleId);
      assert EmailFreeExcept(st.users, email, -1);
      match CreateUser(st.users, u)
      case Err(e) => Err(CreateFailed(e))
      case Ok(users) =>
        assert users[..|st.users|] == st.users;
        var bookings := if plateNumber != "" then LinkBookings(st.bookings, plateNumber, userId, now) else st.bookings;
        Ok(st.(users := users, bookings := bookings))
  }

  /** Registration never takes over a booking that has an owner, or one that
      is already finished. */
  lemma RegisterLeavesOwnedAndFinished(st: Store, now: int, name: string, email: string, password: string,
                                       plateNumber: string, vehicleType: Option<VehicleClass>, passwordHash: string,
                                       userId: string, vehicleId: string, i: nat)
    requires RegisterUser(st, now, name, email, password, plateNumber, vehicleType, passwordHash, userId, vehicleId).Ok?
    requires i < |st.bookings| && (st.bookings[i].userId.Some? || !st.bookings[i].IsLive())
    ensures RegisterUser(st, now, name, email, password, plateNumber, vehicleType, passwordHash, userId, vehicleId)
              .value.bookings[i] == st.bookings[i]
  {
  }

  /** The taken-plate check compares the plate as typed with the stored,
      upper-cased plates: registering "ab1" next to an account holding
      "AB1" succeeds, and both accounts then list "AB1". */
  lemma LowercasePlateEscapesTakenCheck()
    ensures var owner := User("u0", "a", "a@x", "h0", UserRole, [Vehicle("v0", "AB1", Car, None)], ["AB1"], None, None);
            var r := RegisterUser(Store([], [], [owner]), 0, "b", "b@x", "pw", "ab1", None, "h1", "u1", "v1");
            && r.Ok? && |r.value.users| == 2
            && r.value.users[0].managedCars == ["AB1"] && r.value.users[1].managedCars == ["AB1"]
  {
    var owner := User("u0", "a", "a@x", "h0", UserRole, [Vehicle("v0", "AB1", Car, None)], ["AB1"], None, None);
    var users := [owner];
    UpperTrimAb1();
    assert "ab1" != "AB1" by { assert "ab1"[0] != "AB1"[0]; }
    assert !PlateRegistered(users, "ab1");
    assert "b@x" != "a@x" by { assert "b@x"[0] != "a@x"[0]; }
    assert !EmailTaken(users, "b@x");
    var vs := InitialVehicles("ab1", None, "v1");
    assert vs == [Vehicle("v1", "AB1", Car, None)];
    var u := User("u1", "b", "b@x", "h1", DefaultRole(None), vs, [], None, None);
    assert SchemaValid(u);
    assert EmailFreeExcept(users, "b@x", -1);
    assert PlatesOf(vs) == ["AB1"];
  }

  // ---- resetPassword ----

  /** The account a reset token opens: stored digest equal, not expired. */
  predicate TokenOpens(u: User, hashed: string, now: int)
  {
    u.resetToken == Some(hashed) && u.resetExpire.Some? && u.resetExpire.value > now
  }

  /** `resetPassword`: `digest` is the sha256 of the URL token and
      `newHash` the bcrypt hash of the new password. */
  function ResetPassword(users: seq<User>, now: int, token: string, digest: string -> string, newHash: string)
    : (r: Result<seq<User>, AuthError>)
    ensures r == Err(InvalidToken) <==> forall j :: 0 <= j < |users| ==> !TokenOpens(users[j], digest(token), now)
    // once an account opens, the reset succeeds exactly when its save does
    ensures First(users, (u: User) => TokenOpens(u, digest(token), now)).Some? ==>
              (var k := First(users, (u: User) => TokenOpens(u, digest(token), now)).value;
               r.Ok? <==> SchemaValid(users[k].(passwordHash := newHash, resetToken := None, resetExpire := None))
                          && EmailFreeExcept(users, users[k].email, k))
    ensures r.Ok? ==>
              (var k := First(users, (u: User) => TokenOpens(u, digest(token), now)).value;
               && TokenOpens(users[k], digest(token), now)
               && |r.value| == |users|
               && (forall j :: 0 <= j < |users| && j != k ==> r.value[j] == users[j])
               && r.value[k] == users[k].(passwordHash := newHash, resetToken := None, resetExpire := None))
    ensures r.Err? ==> r.error == InvalidToken || r.error.ResetSaveFailed?
  {
    var hashed := digest(token);
    match First(users, (u: User) => TokenOpens(u, hashed, now))
    case None => Err(InvalidToken)
    case Some(k) =>
      var u := users[k].(passwordHash := newHash, resetToken := None, resetExpire := None);
      match SaveAt(users, k, u, false)
      case Err(e) => Err(ResetSaveFailed(e))
      case Ok(saved) => Ok(saved)
  }

  /** A reset token works once: the account it opened no longer matches it. */
  lemma ResetTokenSingleUse(users: seq<User>, now: int, token: string, digest: string -> string, newHash: string)
    requires ResetPassword(users, now, token, digest, newHash).Ok?
    requires forall i, j :: 0 <= i < j < |users| ==>
               !(TokenOpens(users[i], digest(token), now) && TokenOpens(users[j], digest(token), now))
    ensures ResetPassword(ResetPassword(users, now, token, digest, newHash).value, now, token, digest, newHash)
            == Err(InvalidToken)
  {
    var k := First(users, (u: User) => TokenOpens(u, digest(token), now)).value;
    var after := ResetPassword(users, now, token, digest, newHash).value;
    forall j | 0 <= j < |after|
      ensures !TokenOpens(after[j], digest(token), now)
    {
      if j != k {
        assert after[j] == users[j];
        if j < k {
          assert !TokenOpens(users[j], digest(token), now);
        }
      }
    }
  }
}
