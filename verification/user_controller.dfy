/** The user controller: adding and removing vehicles, the profile fetch
    that migrates legacy `managedCars` into `vehicles`, and the profile
    update with its legacy single-vehicle fields. Each handler finds the
    caller by id, edits the record and saves it through `Users.SaveAt`, so
    the pre-save sync and the schema rules apply to every write. */
module UserController {
  import opened Common
  import opened Seqs
  import opened Text
  import opened Users

  datatype ProfileError =
    | MissingFields
    | PlateTaken
    | UserNotFound
    | AlreadyHasPlate
    | SaveFailed(cause: SaveError)

  /** Some other user lists `plate` among their vehicles. */
  predicate PlateHeldByOther(users: seq<User>, userId: string, plate: string)
  {
    exists j :: 0 <= j < |users| && users[j].id != userId && HasVehiclePlate(users[j], plate)
  }

  /** No plate appears twice in one user's vehicles. */
  predicate PlatesDistinct(vehicles: seq<Vehicle>)
  {
    forall i, j :: 0 <= i < j < |vehicles| ==> vehicles[i].plateNumber != vehicles[j].plateNumber
  }

  /** Saves user `k` after an edit of `vehicles`: the hook re-syncs
      `managedCars` only when the list actually changed. */
  function SaveEdited(users: seq<User>, k: nat, u: User): (r: Result<seq<User>, ProfileError>)
    requires k < |users|
    ensures r.Ok? <==> SchemaValid(u) && EmailFreeExcept(users, u.email, k)
    ensures r.Err? ==> r.error.SaveFailed?
    ensures r.Ok? ==> |r.value| == |users| && forall j :: 0 <= j < |users| && j != k ==> r.value[j] == users[j]
    ensures r.Ok? && u.vehicles != users[k].vehicles ==> Synced(r.value[k])
    ensures r.Ok? ==> r.value[k] == u.(managedCars := r.value[k].managedCars)
    ensures r.Ok? && u.vehicles == users[k].vehicles ==> r.value[k] == u
    ensures r.Ok? ==> r.value[k] == PreSave(u, u.vehicles != users[k].vehicles)
  {
    match SaveAt(users, k, u, u.vehicles != users[k].vehicles)
    case Ok(saved) => Ok(saved)
    case Err(e) => Err(SaveFailed(e))
  }

  // ---- addVehicle ----

  /** The entry `addVehicle` appends: the plate upper-cased and trimmed, and
      an empty nickname stored as none. */
  function NewVehicle(plateNumber: string, kind: VehicleClass, nickname: Option<string>, vehicleId: string): (v: Vehicle)
    ensures v.id == vehicleId && v.plateNumber == UpperTrim(plateNumber) && v.kind == kind
    ensures v.nickname.Some? <==> nickname.Some? && nickname.value != ""
    ensures v.nickname.Some? ==> v.nickname == nickname
  {
    Vehicle(vehicleId, UpperTrim(plateNumber), kind, if nickname == Some("") then None else nickname)
  }

  /** `addVehicle`; `vehicleId` is the id the store gives the new entry. */
  function AddVehicle(users: seq<User>, userId: string, plateNumber: string, kind: Option<VehicleClass>,
                      nickname: Option<string>, vehicleId: string)
    : (r: Result<seq<User>, ProfileError>)
    ensures plateNumber == "" || kind.None? ==> r == Err(MissingFields)
    ensures (plateNumber != "" && kind.Some? && PlateHeldByOther(users, userId, UpperTrim(plateNumber))) ==>
              r == Err(PlateTaken)
    ensures (plateNumber != "" && kind.Some? && !PlateHeldByOther(users, userId, UpperTrim(plateNumber))
             && FindUser(users, userId).None?) ==> r == Err(UserNotFound)
    ensures (plateNumber != "" && kind.Some? && !PlateHeldByOther(users, userId, UpperTrim(plateNumber))
             && FindUser(users, userId).Some?
             && HasVehiclePlate(users[FindUser(users, userId).value], UpperTrim(plateNumber))) ==> r == Err(AlreadyHasPlate)
    // past the checks, the add succeeds exactly when the save accepts the edited record
    ensures (plateNumber != "" && kind.Some? && !PlateHeldByOther(users, userId, UpperTrim(plateNumber))
             && FindUser(users, userId).Some?
             && !HasVehiclePlate(users[FindUser(users, userId).value], UpperTrim(plateNumber))) ==>
              (var k := FindUser(users, userId).value;
               var edited := users[k].(vehicles := users[k].vehicles + [NewVehicle(plateNumber, kind.value, nickname, vehicleId)]);
               r.Ok? <==> SchemaValid(edited) && EmailFreeExcept(users, users[k].email, k))
    ensures r.Ok? ==>
              (var k := FindUser(users, userId).value;
               var before := users[k].vehicles;
               && !PlateHeldByOther(users, userId, UpperTrim(plateNumber))
               && |r.value| == |users|
               && (forall j :: 0 <= j < |users| && j != k ==> r.value[j] == users[j])
               && |r.value[k].vehicles| == |before| + 1
               && r.value[k].vehicles[..|before|] == before
               && r.value[k].vehicles[|before|].plateNumber == UpperTrim(plateNumber)
               && r.value[k].vehicles[|before|].kind == kind.value
               && Synced(r.value[k]))
    // a plate that is blank once trimmed fails the schema's `required`
    ensures r.Ok? ==> UpperTrim(plateNumber) != ""
    ensures r.Ok? ==>
              (var k := FindUser(users, userId).value;
               r.value[k] == PreSave(users[k].(vehicles := users[k].vehicles + [NewVehicle(plateNumber, kind.value, nickname, vehicleId)]), true))
  {
    if plateNumber == "" || kind.None? then Err(MissingFields)
    else
      var plate := UpperTrim(plateNumber);
      if PlateHeldByOther(users, userId, plate) then Err(PlateTaken)
      else match FindUser(users, userId)
        case None => Err(UserNotFound)
        case Some(k) =>
          var u := users[k];
          if HasVehiclePlate(u, plate) then Err(AlreadyHasPlate)
          else
            var v := NewVehicle(plateNumber, kind.value, nickname, vehicleId);
            var added := u.vehicles + [v];
            assert added[|u.vehicles|] == v && added[..|u.vehicles|] == u.vehicles;
            assert added != u.vehicles by { assert |added| != |u.vehicles|; }
            SaveEdited(users, k, u.(vehicles := added))
  }

  /** A successful add keeps the caller's plates pairwise distinct. */
  lemma AddVehicleKeepsPlatesDistinct(users: seq<User>, userId: string, plateNumber: string,
                                      kind: Option<VehicleClass>, nickname: Option<string>, vehicleId: string)
    requires AddVehicle(users, userId, plateNumber, kind, nickname, vehicleId).Ok?
    requires PlatesDistinct(users[FindUser(users, userId).value].vehicles)
    ensures PlatesDistinct(AddVehicle(users, userId, plateNumber, kind, nickname, vehicleId).value[FindUser(users, userId).value].vehicles)
  {
    var r := AddVehicle(users, userId, plateNumber, kind, nickname, vehicleId);
    var k := FindUser(users, userId).value;
    var before := users[k].vehicles;
    var after := r.value[k].vehicles;
    var plate := UpperTrim(plateNumber);
    assert |after| == |before| + 1 && after[..|before|] == before && after[|before|].plateNumber == plate;
    assert !HasVehiclePlate(users[k], plate);
    AppendKeepsDistinct(before, after, plate);
  }

  /** Appending a plate the list does not hold keeps the plates distinct. */
  lemma AppendKeepsDistinct(before: seq<Vehicle>, after: seq<Vehicle>, plate: string)
    requires PlatesDistinct(before)
    requires |after| == |before| + 1 && after[..|before|] == before && after[|before|].plateNumber == plate
    requires forall i :: 0 <= i < |before| ==> before[i].plateNumber != plate
    ensures PlatesDistinct(after)
  {
    forall i, j | 0 <= i < j < |after|
      ensures after[i].plateNumber != after[j].plateNumber
    {
      assert after[i] == before[i] by { assert after[..|before|][i] == after[i]; }
      if j < |before| {
        assert after[j] == before[j] by { assert after[..|before|][j] == after[j]; }
      }
    }
  }

  // ---- removeVehicle ----

  /** `removeVehicle`: keeps the vehicles whose id differs, in order. */
  function RemoveVehicle(users: seq<User>, userId: string, vehicleId: string): (r: Result<seq<User>, ProfileError>)
    ensures FindUser(users, userId).None? ==> r == Err(UserNotFound)
    ensures r.Err? ==> r.error == UserNotFound || r.error.SaveFailed?
    // a found caller's removal succeeds exactly when the save accepts the edited record
    ensures FindUser(users, userId).Some? ==>
              (var k := FindUser(users, userId).value;
               var edited := users[k].(vehicles := Filter(users[k].vehicles, (v: Vehicle) => v.id != vehicleId));
               r.Ok? <==> SchemaValid(edited) && EmailFreeExcept(users, users[k].email, k))
    ensures r.Ok? ==>
              (var k := FindUser(users, userId).value;
               && |r.value| == |users|
               && (forall j :: 0 <= j < |users| && j != k ==> r.value[j] == users[j])
               && r.value[k].vehicles == Filter(users[k].vehicles, (v: Vehicle) => v.id != vehicleId)
               && (forall v :: v in r.value[k].vehicles <==> v in users[k].vehicles && v.id != vehicleId)
               && SubsequenceOf(r.value[k].vehicles, users[k].vehicles))
    ensures r.Ok? ==>
              (var k := FindUser(users, userId).value;
               var edited := users[k].(vehicles := Filter(users[k].vehicles, (v: Vehicle) => v.id != vehicleId));
               r.value[k] == PreSave(edited, edited.vehicles != users[k].vehicles))
  {
    match FindUser(users, userId)
    case None => Err(UserNotFound)
    case Some(k) =>
      var u := users[k];
      SaveEdited(users, k, u.(vehicles := Filter(u.vehicles, (v: Vehicle) => v.id != vehicleId)))
  }

  /** Removing an id no vehicle has leaves a valid record exactly as it was. */
  lemma {:induction false} RemoveUnknownIsNoOp(users: seq<User>, userId: string, vehicleId: string)
    requires FindUser(users, userId).Some?
    requires SchemaValid(users[FindUser(users, userId).value])
    requires EmailFreeExcept(users, users[FindUser(users, userId).value].email, FindUser(users, userId).value)
    requires forall i :: 0 <= i < |users[FindUser(users, userId).value].vehicles| ==>
               users[FindUser(users, userId).value].vehicles[i].id != vehicleId
    ensures RemoveVehicle(users, userId, vehicleId) == Ok(users)
  {
    var k := FindUser(users, userId).value;
    FilterKeepsAllVehicles(users[k].vehicles, vehicleId);
    assert users[k := users[k]] == users;
  }

  lemma {:induction false} FilterKeepsAllVehicles(s: seq<Vehicle>, vehicleId: string)
    requires forall i :: 0 <= i < |s| ==> s[i].id != vehicleId
    ensures Filter(s, (v: Vehicle) => v.id != vehicleId) == s
    decreases |s|
  {
    if |s| > 0 {
      FilterKeepsAllVehicles(s[1..], vehicleId);
      assert s == [s[0]] + s[1..];
    }
  }

  // ---- getUserProfile ----

  /** What the profile fetch reports, with the legacy single-vehicle fields. */
  datatype Profile = Profile(id: string, name: string, email: string, vehicles: seq<Vehicle>,
                             vehicleNo: string, vehicleType: VehicleClass)

  function ProfileOf(u: User): (p: Profile)
    ensures p.vehicles == u.vehicles && p.name == u.name && p.email == u.email
    ensures |u.vehicles| == 0 ==> p.vehicleNo == "" && p.vehicleType == Car
    ensures |u.vehicles| > 0 ==> p.vehicleNo == u.vehicles[0].plateNumber && p.vehicleType == u.vehicles[0].kind
  {
    if |u.vehicles| > 0 then Profile(u.id, u.name, u.email, u.vehicles, u.vehicles[0].plateNumber, u.vehicles[0].kind)
    else Profile(u.id, u.name, u.email, u.vehicles, "", Car)
  }

  /** The vehicles a legacy plate list turns into: one CAR per plate;
      `newId` stands for the ids the store assigns. */
  function Migrated(plates: seq<string>, newId: nat -> string): (r: seq<Vehicle>)
    ensures |r| == |plates|
    ensures forall i :: 0 <= i < |r| ==> r[i].plateNumber == plates[i] && r[i].kind == Car && r[i].nickname == None
  {
    seq(|plates|, i requires 0 <= i < |plates| => Vehicle(newId(i), plates[i], Car, None))
  }

  predicate NeedsMigration(u: User)
  {
    |u.vehicles| == 0 && |u.managedCars| > 0
  }

  /** `getUserProfile`: a user with plates but no vehicles is migrated and
      saved first. */
  function GetUserProfile(users: seq<User>, userId: string, newId: nat -> string)
    : (r: Result<(seq<User>, Profile), ProfileError>)
    ensures FindUser(users, userId).None? ==> r == Err(UserNotFound)
    ensures FindUser(users, userId).Some? && !NeedsMigration(users[FindUser(users, userId).value]) ==>
              r == Ok((users, ProfileOf(users[FindUser(users, userId).value])))
    ensures r.Err? ==> r.error == UserNotFound || r.error.SaveFailed?
    // a migration succeeds exactly when the save accepts the migrated record,
    // which is then stored with its plates unchanged
    ensures FindUser(users, userId).Some? && NeedsMigration(users[FindUser(users, userId).value]) ==>
              (var k := FindUser(users, userId).value;
               var migrated := users[k].(vehicles := Migrated(users[k].managedCars, newId));
               r.Ok? <==> SchemaValid(migrated) && EmailFreeExcept(users, users[k].email, k))
    ensures r.Ok? && NeedsMigration(users[FindUser(users, userId).value]) ==>
              (var k := FindUser(users, userId).value;
               && |r.value.0| == |users|
               && (forall j :: 0 <= j < |users| && j != k ==> r.value.0[j] == users[j])
               && r.value.0[k].managedCars == users[k].managedCars
               && |r.value.0[k].vehicles| == |users[k].managedCars|
               && (forall i :: 0 <= i < |users[k].managedCars| ==>
                     r.value.0[k].vehicles[i].plateNumber == users[k].managedCars[i]
                     && r.value.0[k].vehicles[i].kind == Car)
               && Synced(r.value.0[k])
               && r.value.1 == ProfileOf(r.value.0[k])
               && r.value.0[k] == users[k].(vehicles := Migrated(users[k].managedCars, newId)))
  {
    match FindUser(users, userId)
    case None => Err(UserNotFound)
    case Some(k) =>
      var u := users[k];
      if !NeedsMigration(u) then Ok((users, ProfileOf(u)))
      else
        var vs := Migrated(u.managedCars, newId);
        assert vs != u.vehicles by { assert |vs| != |u.vehicles|; }
        assert PlatesOf(vs) == u.managedCars;
        match SaveEdited(users, k, u.(vehicles := vs))
        case Err(e) => Err(e)
        case Ok(saved) => Ok((saved, ProfileOf(saved[k])))
  }

  /** A migrated profile needs no second migration. */
  lemma MigrationOnce(users: seq<User>, userId: string, newId: nat -> string)
    requires GetUserProfile(users, userId, newId).Ok?
    ensures var users' := GetUserProfile(users, userId, newId).value.0;
            GetUserProfile(users', userId, newId) == Ok((users', GetUserProfile(users, userId, newId).value.1))
  {
    var k := FindUser(users, userId).value;
    var users' := GetUserProfile(users, userId, newId).value.0;
    assert users'[k].id == userId;
    assert forall j :: 0 <= j < |users| ==> users'[j].id == users[j].id;
    assert FindUser(users', userId) == Some(k);
  }

  // ---- updateUserProfile ----

  /** The legacy single-vehicle edit: overwrite the first vehicle's plate
      (and its class when given), or create the only vehicle. */
  function LegacyVehicles(vehicles: seq<Vehicle>, vehicleNo: string, vehicleType: Option<VehicleClass>,
                          newVehicleId: string): (r: seq<Vehicle>)
    requires vehicleNo != ""
    ensures |vehicles| == 0 ==> r == [Vehicle(newVehicleId, vehicleNo, if vehicleType.Some? then vehicleType.value else Car, None)]
    ensures |vehicles| > 0 ==>
              (&& |r| == |vehicles| && r[1..] == vehicles[1..]
               && r[0].plateNumber == vehicleNo && r[0].id == vehicles[0].id && r[0].nickname == vehicles[0].nickname
               && r[0].kind == (if vehicleType.Some? then vehicleType.value else vehicles[0].kind))
  {
    if |vehicles| > 0 then
      var first := vehicles[0].(plateNumber := vehicleNo,
                                kind := if vehicleType.Some? then vehicleType.value else vehicles[0].kind);
      vehicles[0 := first]
    else [Vehicle(newVehicleId, vehicleNo, if vehicleType.Some? then vehicleType.value else Car, None)]
  }

  /** The caller's record as `updateUserProfile` edits it before the save:
      empty fields keep the stored name and email, and a legacy plate goes
      into the first vehicle. */
  function ProfileEdit(u: User, name: string, email: string, vehicleNo: string,
                       vehicleType: Option<VehicleClass>, newVehicleId: string): (e: User)
    ensures e.name == (if name != "" then name else u.name)
    ensures e.email == (if email != "" then email else u.email)
    ensures vehicleNo == "" ==> e.vehicles == u.vehicles
    ensures vehicleNo != "" ==> e.vehicles == LegacyVehicles(u.vehicles, vehicleNo, vehicleType, newVehicleId)
    ensures e == u.(name := e.name, email := e.email, vehicles := e.vehicles)
  {
    var named := u.(name := if name != "" then name else u.name,
                    email := if email != "" then email else u.email);
    if vehicleNo != "" then named.(vehicles := LegacyVehicles(u.vehicles, vehicleNo, vehicleType, newVehicleId))
    else named
  }

  /** `updateUserProfile`. Empty fields keep the stored values. */
  function UpdateUserProfile(users: seq<User>, userId: string, name: string, email: string, vehicleNo: string,
                             vehicleType: Option<VehicleClass>, newVehicleId: string)
    : (r: Result<(seq<User>, Profile), ProfileError>)
    ensures FindUser(users, userId).None? ==> r == Err(UserNotFound)
    ensures FindUser(users, userId).Some? && vehicleNo != "" && PlateHeldByOther(users, userId, vehicleNo) ==>
              r == Err(PlateTaken)
    // past the two checks, the save decides: the edited record must pass
    // validation and its email must be free
    ensures FindUser(users, userId).Some? && !(vehicleNo != "" && PlateHeldByOther(users, userId, vehicleNo)) ==>
              (var k := FindUser(users, userId).value;
               var e := ProfileEdit(users[k], name, email, vehicleNo, vehicleType, newVehicleId);
               r.Ok? <==> SchemaValid(e) && EmailFreeExcept(users, e.email, k))
    ensures r.Err? ==> r.error == UserNotFound || r.error == PlateTaken || r.error.SaveFailed?
    ensures r.Ok? ==> FindUser(users, userId).Some? && |r.value.0| == |users|
    ensures r.Ok? ==>
              (var k := FindUser(users, userId).value;
               var u := users[k];
               var u' := r.value.0[k];
               && (forall j :: 0 <= j < |users| && j != k ==> r.value.0[j] == users[j])
               && u'.id == u.id
               && u'.name == (if name != "" then name else u.name)
               && u'.email == (if email != "" then email else u.email)
               && u'.passwordHash == u.passwordHash && u'.role == u.role
               && (vehicleNo == "" ==> u'.vehicles == u.vehicles)
               && (vehicleNo != "" ==> u'.vehicles == LegacyVehicles(u.vehicles, vehicleNo, vehicleType, newVehicleId))
               && (vehicleNo != "" ==> |u'.vehicles| > 0 && u'.vehicles[0].plateNumber == vehicleNo)
               && (u'.vehicles != u.vehicles ==> Synced(u'))
               && (u'.vehicles == u.vehicles ==> u'.managedCars == u.managedCars)
               && r.value.1 == ProfileOf(u'))
    ensures r.Ok? && UniqueEmails(users) ==> UniqueEmails(r.value.0)
  {
    match FindUser(users, userId)
    case None => Err(UserNotFound)
    case Some(k) =>
      var u := users[k];
      if vehicleNo != "" && PlateHeldByOther(users, userId, vehicleNo) then Err(PlateTaken)
      else
        var edited := ProfileEdit(u, name, email, vehicleNo, vehicleType, newVehicleId);
        match SaveEdited(users, k, edited)
        case Err(e) => Err(e)
        case Ok(saved) => Ok((saved, ProfileOf(saved[k])))
  }

  /** Re-applying the legacy edit it already made changes nothing. */
  lemma LegacyVehiclesIdempotent(vehicles: seq<Vehicle>, vehicleNo: string, vehicleType: Option<VehicleClass>,
                                 newVehicleId: string)
    requires vehicleNo != ""
    ensures var once := LegacyVehicles(vehicles, vehicleNo, vehicleType, newVehicleId);
            LegacyVehicles(once, vehicleNo, vehicleType, newVehicleId) == once
  {
  }

  /** Saving a record unchanged, when it is valid and its email free,
      leaves the store as it is. */
  lemma SaveUnchanged(users: seq<User>, k: nat)
    requires k < |users| && SchemaValid(users[k]) && EmailFreeExcept(users, users[k].email, k)
    ensures SaveEdited(users, k, users[k]) == Ok(users)
  {
    var r := SaveEdited(users, k, users[k]).value;
    assert r == users;
  }

  /** What a successful update leaves behind: the caller still found at the
      same position, a record the same edit maps to itself, valid and with
      a free email, and the other users untouched. */
  lemma UpdatedRecord(users: seq<User>, userId: string, name: string, email: string, vehicleNo: string,
                      vehicleType: Option<VehicleClass>, newVehicleId: string)
    requires UpdateUserProfile(users, userId, name, email, vehicleNo, vehicleType, newVehicleId).Ok?
    ensures var users' := UpdateUserProfile(users, userId, name, email, vehicleNo, vehicleType, newVehicleId).value.0;
            var k := FindUser(users, userId).value;
            && FindUser(users', userId) == Some(k)
            && ProfileEdit(users'[k], name, email, vehicleNo, vehicleType, newVehicleId) == users'[k]
            && SchemaValid(users'[k]) && EmailFreeExcept(users', users'[k].email, k)
            && (forall j :: 0 <= j < |users| && j != k ==> users'[j] == users[j])
  {
    var users' := UpdateUserProfile(users, userId, name, email, vehicleNo, vehicleType, newVehicleId).value.0;
    var k := FindUser(users, userId).value;
    var edited := ProfileEdit(users[k], name, email, vehicleNo, vehicleType, newVehicleId);
    assert SchemaValid(edited) && EmailFreeExcept(users, edited.email, k);
    var u' := users'[k];
    assert u' == edited.(managedCars := u'.managedCars) by {
      assert SaveEdited(users, k, edited).Ok? && SaveEdited(users, k, edited).value == users';
    }
    assert forall j :: 0 <= j < |users| ==> users'[j].id == users[j].id;
    assert FindUser(users', userId) == Some(k);
    if vehicleNo != "" {
      LegacyVehiclesIdempotent(users[k].vehicles, vehicleNo, vehicleType, newVehicleId);
    }
  }

  /** Sending the same profile update twice changes nothing more: the
      second edit finds the name, email and first vehicle already set. */
  lemma UpdateProfileIdempotent(users: seq<User>, userId: string, name: string, email: string, vehicleNo: string,
                                vehicleType: Option<VehicleClass>, newVehicleId: string)
    requires UpdateUserProfile(users, userId, name, email, vehicleNo, vehicleType, newVehicleId).Ok?
    ensures var once := UpdateUserProfile(users, userId, name, email, vehicleNo, vehicleType, newVehicleId).value;
            UpdateUserProfile(once.0, userId, name, email, vehicleNo, vehicleType, newVehicleId) == Ok(once)
  {
    var users' := UpdateUserProfile(users, userId, name, email, vehicleNo, vehicleType, newVehicleId).value.0;
    var k := FindUser(users, userId).value;
    UpdatedRecord(users, userId, name, email, vehicleNo, vehicleType, newVehicleId);
    assert PlateHeldByOther(users', userId, vehicleNo) == PlateHeldByOther(users, userId, vehicleNo) by {
      assert forall j :: 0 <= j < |users| && users'[j].id != userId ==> users'[j] == users[j];
    }
    SaveUnchanged(users', k);
  }
}
