/** The user record (`User` model): roles, the vehicle sub-documents, the
    legacy `managedCars` plate list kept in step by the pre-save hook, and
    what `save` does to the user store (schema validation, the hook, the
    unique index on `email`). The store is a sequence in natural order. */
module Users {
  import opened Common
  import opened Seqs

  /** `role` is USER or ADMIN; USER when not given. */
  datatype Role = UserRole | AdminRole

  datatype Vehicle = Vehicle(id: string, plateNumber: string, kind: VehicleClass, nickname: Option<string>)

  datatype User = User(
    id: string,
    name: string,
    email: string,
    passwordHash: string,
    role: Role,
    vehicles: seq<Vehicle>,
    managedCars: seq<string>,
    resetToken: Option<string>,
    resetExpire: Option<int>)

  function DefaultRole(role: Option<Role>): Role
  {
    if role.Some? then role.value else UserRole
  }

  function PlatesOf(vehicles: seq<Vehicle>): (plates: seq<string>)
  {
    seq(|vehicles|, i requires 0 <= i < |vehicles| => vehicles[i].plateNumber)
  }

  /** `managedCars` lists exactly the vehicles' plates, in order. */
  predicate Synced(u: User)
  {
    |u.managedCars| == |u.vehicles|
    && forall i :: 0 <= i < |u.vehicles| ==> u.managedCars[i] == u.vehicles[i].plateNumber
  }

  /** The pre-save hook: a save that modified `vehicles` rewrites
      `managedCars` from them; any other save leaves it alone. */
  function PreSave(u: User, vehiclesModified: bool): (r: User)
    ensures vehiclesModified ==> Synced(r)
    ensures !vehiclesModified ==> r.managedCars == u.managedCars
    ensures r == u.(managedCars := r.managedCars)
  {
    if vehiclesModified then u.(managedCars := PlatesOf(u.vehicles)) else u
  }

  /** The schema's `required` validators (an empty string fails them). */
  predicate SchemaValid(u: User)
  {
    u.name != "" && u.email != "" && u.passwordHash != ""
    && forall i :: 0 <= i < |u.vehicles| ==> u.vehicles[i].plateNumber != ""
  }

  /** The unique index on `email`. */
  predicate UniqueEmails(users: seq<User>)
  {
    forall i, j :: 0 <= i < |users| && 0 <= j < |users| && i != j ==> users[i].email != users[j].email
  }

  predicate EmailFreeExcept(users: seq<User>, email: string, except: int)
  {
    forall j :: 0 <= j < |users| && j != except ==> users[j].email != email
  }

  datatype SaveError = ValidationFailed | DuplicateEmail

  /** `user.save()` for the stored user at position `i`. */
  function SaveAt(users: seq<User>, i: nat, u: User, vehiclesModified: bool): (r: Result<seq<User>, SaveError>)
    requires i < |users|
    ensures r.Ok? <==> SchemaValid(u) && EmailFreeExcept(users, u.email, i)
    ensures r.Ok? ==> |r.value| == |users| && r.value[i] == PreSave(u, vehiclesModified)
    ensures r.Ok? ==> forall j :: 0 <= j < |users| && j != i ==> r.value[j] == users[j]
    ensures r.Ok? && UniqueEmails(users) ==> UniqueEmails(r.value)
  {
    if !SchemaValid(u) then Err(ValidationFailed)
    else if !EmailFreeExcept(users, u.email, i) then Err(DuplicateEmail)
    else Ok(users[i := PreSave(u, vehiclesModified)])
  }

  /** `User.create(...)`: validation, the hook, then the unique index. */
  function CreateUser(users: seq<User>, u: User): (r: Result<seq<User>, SaveError>)
    ensures r.Ok? <==> SchemaValid(u) && EmailFreeExcept(users, u.email, -1)
    ensures r.Ok? ==> r.value == users + [PreSave(u, true)]
    ensures r.Ok? && UniqueEmails(users) ==> UniqueEmails(r.value)
  {
    if !SchemaValid(u) then Err(ValidationFailed)
    else if !EmailFreeExcept(users, u.email, -1) then Err(DuplicateEmail)
    else Ok(users + [PreSave(u, true)])
  }

  /** `User.findById`. */
  function FindUser(users: seq<User>, id: string): (r: Option<nat>)
    ensures r.Some? ==> r.value < |users| && users[r.value].id == id
    ensures r.None? ==> forall j :: 0 <= j < |users| ==> users[j].id != id
  {
    First(users, (u: User) => u.id == id)
  }

  /** Whether the vehicles list holds a plate, compared exactly. */
  predicate HasVehiclePlate(u: User, plate: string)
  {
    exists i :: 0 <= i < |u.vehicles| && u.vehicles[i].plateNumber == plate
  }
}
