/** The parking-slot record (`ParkingSlot` model), its enums and defaults,
    the slot store as a sequence in natural order, and the 18-slot seed
    inventory that the slot listing inserts into an empty store. */
module Slots {
  import opened Common
  import opened Seqs

  datatype SlotStatus = Available | Occupied | Reserved

  /** `id` is the document id (24 hex digits in practice); `slotNumber` is
      the unique human label such as "A1". */
  datatype Slot = Slot(
    id: string,
    slotNumber: string,
    zone: Option<string>,
    kind: VehicleClass,
    status: SlotStatus,
    currentBookingId: Option<nat>)

  /** A slot created with only the required fields set takes the schema
      defaults: type CAR, status AVAILABLE, no current booking. */
  function NewSlot(id: string, slotNumber: string, zone: Option<string>, kind: Option<VehicleClass>): (s: Slot)
    ensures s.id == id && s.slotNumber == slotNumber && s.zone == zone
    ensures kind.None? ==> s.kind == Car
    ensures kind.Some? ==> s.kind == kind.value
    ensures s.status == Available && s.currentBookingId == None
  {
    Slot(id, slotNumber, zone, if kind.Some? then kind.value else Car, Available, None)
  }

  /** `slotNumber` carries a unique index. */
  predicate UniqueSlotNumbers(slots: seq<Slot>)
  {
    forall i, j :: 0 <= i < j < |slots| ==> slots[i].slotNumber != slots[j].slotNumber
  }

  /** `findById`: the first slot whose document id is `id`. */
  function FindById(slots: seq<Slot>, id: string): (r: Option<nat>)
    ensures r.Some? ==> r.value < |slots| && slots[r.value].id == id
    ensures r.Some? ==> forall j :: 0 <= j < r.value ==> slots[j].id != id
    ensures r.None? ==> forall j :: 0 <= j < |slots| ==> slots[j].id != id
  {
    First(slots, (s: Slot) => s.id == id)
  }

  /** Two slot lists with the same ids position by position resolve every
      id to the same position. */
  lemma FindByIdSameIds(a: seq<Slot>, b: seq<Slot>, id: string)
    requires |a| == |b| && forall j :: 0 <= j < |a| ==> a[j].id == b[j].id
    ensures FindById(a, id) == FindById(b, id)
  {
    var x := FindById(a, id);
    var y := FindById(b, id);
    if x.Some? && y.Some? {
      assert !(x.value < y.value) && !(y.value < x.value);
    }
  }

  function SetStatus(s: Slot, status: SlotStatus): Slot
  {
    s.(status := status)
  }

  /** The update `{status: AVAILABLE, currentBookingId: null}`. */
  function Release(s: Slot): Slot
  {
    s.(status := Available, currentBookingId := None)
  }

  /** `findByIdAndUpdate(id, change)`: rewrites the first slot with that id;
      an unknown id leaves the store as it is. */
  function UpdateById(slots: seq<Slot>, id: string, change: Slot -> Slot): (r: seq<Slot>)
    ensures |r| == |slots|
    ensures forall j :: 0 <= j < |slots| && slots[j].id != id ==> r[j] == slots[j]
    ensures forall j :: 0 <= j < |slots| && r[j] != slots[j] ==> r[j] == change(slots[j])
    ensures (exists j :: 0 <= j < |slots| && slots[j].id == id) ==>
              exists j :: 0 <= j < |slots| && slots[j].id == id && r[j] == change(slots[j])
  {
    match FindById(slots, id)
    case None => slots
    case Some(i) => slots[i := change(slots[i])]
  }

  // ---- seed inventory ----

  const SEED_COUNT: nat := 18

  function SeedZone(i: nat): char
  {
    if i < 6 then 'A' else if i < 12 then 'B' else 'C'
  }

  function SeedLabel(i: nat): string
  {
    [SeedZone(i), ('1' as int + i % 6) as char]
  }

  lemma SeedLabelChars(i: nat)
    requires i < SEED_COUNT
    ensures |SeedLabel(i)| == 2 && SeedLabel(i)[0] == SeedZone(i)
    ensures SeedLabel(i)[1] as int == '1' as int + i % 6
  {
  }

  /** Zone A: cars; zone B: two handicapped then four cars; zone C: three
      trucks then three bikes. */
  function SeedClass(i: nat): VehicleClass
  {
    if i < 6 then Car
    else if i < 8 then Handicapped
    else if i < 12 then Car
    else if i < 15 then Truck
    else Bike
  }

  /** The `i`-th seed slot (0-based), with the schema defaults. */
  function SeedSlot(newId: nat -> string, i: nat): (s: Slot)
    requires i < SEED_COUNT
    ensures s.slotNumber == SeedLabel(i) && |s.slotNumber| == 2
    ensures s.zone == Some([s.slotNumber[0]])
    ensures s.status == Available && s.currentBookingId == None
    ensures s.kind == Handicapped <==> s.slotNumber in {"B1", "B2"}
    ensures s.kind == Truck <==> s.slotNumber in {"C1", "C2", "C3"}
    ensures s.kind == Bike <==> s.slotNumber in {"C4", "C5", "C6"}
    ensures s.kind == Car <==> s.slotNumber[0] == 'A' || s.slotNumber in {"B3", "B4", "B5", "B6"}
  {
    SeedLabelChars(i);
    assert "B1"[0] == 'B' && "B1"[1] as int == 49;
    assert "B2"[0] == 'B' && "B2"[1] as int == 50;
    assert "B3"[0] == 'B' && "B3"[1] as int == 51;
    assert "B4"[0] == 'B' && "B4"[1] as int == 52;
    assert "B5"[0] == 'B' && "B5"[1] as int == 53;
    assert "B6"[0] == 'B' && "B6"[1] as int == 54;
    assert "C1"[0] == 'C' && "C1"[1] as int == 49;
    assert "C2"[0] == 'C' && "C2"[1] as int == 50;
    assert "C3"[0] == 'C' && "C3"[1] as int == 51;
    assert "C4"[0] == 'C' && "C4"[1] as int == 52;
    assert "C5"[0] == 'C' && "C5"[1] as int == 53;
    assert "C6"[0] == 'C' && "C6"[1] as int == 54;
    assert 6 <= i < 8 ==> SeedLabel(i) == (if i == 6 then "B1" else "B2");
    NewSlot(newId(i), SeedLabel(i), Some([SeedZone(i)]), Some(SeedClass(i)))
  }

  /** The inventory inserted when the slot collection is empty; `newId`
      stands for the store's id generator. */
  function SeedSlots(newId: nat -> string): (r: seq<Slot>)
    ensures |r| == SEED_COUNT
    ensures UniqueSlotNumbers(r)
    ensures forall i :: 0 <= i < |r| ==> r[i].status == Available && r[i].currentBookingId == None
    ensures forall i :: 0 <= i < |r| ==> r[i].slotNumber == SeedLabel(i)
    ensures forall i :: 0 <= i < |r| ==> |r[i].slotNumber| == 2 && r[i].zone == Some([r[i].slotNumber[0]])
    ensures r[0].slotNumber == "A1" && r[6].slotNumber == "B1" && r[17].slotNumber == "C6"
    ensures forall i :: 0 <= i < |r| ==> (r[i].kind == Handicapped <==> r[i].slotNumber in {"B1", "B2"})
    ensures forall i :: 0 <= i < |r| ==> (r[i].kind == Truck <==> r[i].slotNumber in {"C1", "C2", "C3"})
    ensures forall i :: 0 <= i < |r| ==> (r[i].kind == Bike <==> r[i].slotNumber in {"C4", "C5", "C6"})
    ensures forall i :: 0 <= i < |r| ==>
              (r[i].kind == Car <==> r[i].slotNumber[0] == 'A' || r[i].slotNumber in {"B3", "B4", "B5", "B6"})
  {
    var r := seq(SEED_COUNT, (i: nat) requires i < SEED_COUNT => SeedSlot(newId, i));
    forall i, j | 0 <= i < j < |r|
      ensures r[i].slotNumber != r[j].slotNumber
    {
      SeedLabelChars(i);
      SeedLabelChars(j);
      if SeedZone(i) == SeedZone(j) {
        assert i % 6 != j % 6;
      }
    }
    r
  }
}
