/** The repair of mis-attributed kiosk bookings, shared by the
    `/fix-bookings` debug route and the stand-alone script: every KIOSK
    booking with an owner is re-checked against that owner's `managedCars`
    and unlinked when the owner is gone or does not list its plate. Also
    the `/debug` listing of live bookings. */
module Repair {
  import opened Common
  import opened Seqs
  import opened Bookings
  import opened Users

  /** The bookings the repair looks at: KIOSK with a non-null owner. */
  predicate Examined(b: Booking)
  {
    b.source == Kiosk && b.userId.Some?
  }

  datatype Verdict = UnlinkedUserMissing | UnlinkedNotManaged | Kept

  /** The decision for one examined booking. */
  function Judge(b: Booking, users: seq<User>): (v: Verdict)
    requires Examined(b)
    ensures v == UnlinkedUserMissing <==> forall j :: 0 <= j < |users| ==> users[j].id != b.userId.value
    ensures v == Kept <==> (FindUser(users, b.userId.value).Some?
                            && b.carNumber in users[FindUser(users, b.userId.value).value].managedCars)
  {
    match FindUser(users, b.userId.value)
    case None => UnlinkedUserMissing
    case Some(k) => if b.carNumber in users[k].managedCars then Kept else UnlinkedNotManaged
  }

  /** An examined booking the repair unlinks. */
  predicate NeedsFix(b: Booking, users: seq<User>)
  {
    Examined(b) && Judge(b, users) != Kept
  }

  function Unlinks(users: seq<User>): Booking -> bool
  {
    (b: Booking) => NeedsFix(b, users)
  }

  /** One booking after the repair: unlinked and saved when it needs it,
      untouched otherwise. */
  function FixOne(b: Booking, users: seq<User>, now: int): (r: Booking)
    ensures NeedsFix(b, users) ==> r == b.(userId := None, updatedAt := now)
    ensures !NeedsFix(b, users) ==> r == b
    ensures !NeedsFix(r, users)
  {
    if NeedsFix(b, users) then b.(userId := None, updatedAt := now) else b
  }

  datatype FixResult = FixResult(bookingId: nat, action: Verdict)

  /** A result entry names an examined booking before `bound` and its verdict. */
  predicate Reports(ledger: seq<Booking>, users: seq<User>, res: FixResult, bound: nat)
  {
    && res.bookingId < bound && res.bookingId < |ledger|
    && Examined(ledger[res.bookingId])
    && res.action == Judge(ledger[res.bookingId], users)
  }

  predicate Ascending(results: seq<FixResult>)
  {
    forall r, q :: 0 <= r < q < |results| ==> results[r].bookingId < results[q].bookingId
  }

  /** The loop of `/fix-bookings` and of the script. `results` holds one
      entry per examined booking, in ledger order (its length is
      `totalChecked`); `fixedCount` counts the unlinked ones. */
  method FixBookings(ledger: seq<Booking>, users: seq<User>, now: int)
    returns (fixed: seq<Booking>, results: seq<FixResult>, fixedCount: nat)
    ensures |fixed| == |ledger|
    ensures forall i :: 0 <= i < |ledger| ==> fixed[i] == FixOne(ledger[i], users, now)
    ensures |results| == Count(ledger, Examined)
    ensures forall r :: 0 <= r < |results| ==> Reports(ledger, users, results[r], |ledger|)
    ensures Ascending(results)
    ensures fixedCount == Count(ledger, Unlinks(users))
    ensures fixedCount <= |results|
  {
    results := [];
    fixedCount := 0;
    var i := 0;
    while i < |ledger|
      invariant 0 <= i <= |ledger|
      invariant |results| == Count(ledger[..i], Examined)
      invariant fixedCount == Count(ledger[..i], Unlinks(users))
      invariant fixedCount <= |results|
      invariant forall r :: 0 <= r < |results| ==> Reports(ledger, users, results[r], i)
      invariant Ascending(results)
    {
      var b := ledger[i];
      CountStep(ledger, i, users);
      if Examined(b) {
        var verdict := Judge(b, users);
        var entry := FixResult(i, verdict);
        ReportsSnoc(ledger, users, results, entry, i);
        results := results + [entry];
        if verdict != Kept {
          fixedCount := fixedCount + 1;
        }
      }
      i := i + 1;
    }
    assert ledger[..i] == ledger;
    fixed := seq(|ledger|, i requires 0 <= i < |ledger| => FixOne(ledger[i], users, now));
  }

  /** Appending the entry for booking `i` keeps the results reporting
      examined bookings before `i + 1`, in ascending order. */
  lemma ReportsSnoc(ledger: seq<Booking>, users: seq<User>, results: seq<FixResult>, entry: FixResult, i: nat)
    requires i < |ledger| && Examined(ledger[i])
    requires entry == FixResult(i, Judge(ledger[i], users))
    requires forall r :: 0 <= r < |results| ==> Reports(ledger, users, results[r], i)
    requires Ascending(results)
    ensures forall r :: 0 <= r < |results| + 1 ==> Reports(ledger, users, (results + [entry])[r], i + 1)
    ensures Ascending(results + [entry])
  {
    var after := results + [entry];
    forall r | 0 <= r < |after|
      ensures Reports(ledger, users, after[r], i + 1)
    {
      if r < |results| {
        assert after[r] == results[r];
      }
    }
    forall r, q | 0 <= r < q < |after|
      ensures after[r].bookingId < after[q].bookingId
    {
      assert after[r] == results[r];
      if q < |results| {
        assert after[q] == results[q];
      } else {
        assert Reports(ledger, users, results[r], i);
      }
    }
  }

  lemma CountStep(ledger: seq<Booking>, i: nat, users: seq<User>)
    requires i < |ledger|
    ensures Count(ledger[..i + 1], Examined) == Count(ledger[..i], Examined) + (if Examined(ledger[i]) then 1 else 0)
    ensures Count(ledger[..i + 1], Unlinks(users)) ==
              Count(ledger[..i], Unlinks(users)) + (if NeedsFix(ledger[i], users) then 1 else 0)
  {
    assert ledger[..i + 1] == ledger[..i] + [ledger[i]];
    CountSnoc(ledger[..i], ledger[i], Examined);
    CountSnoc(ledger[..i], ledger[i], Unlinks(users));
  }

  /** A second run finds nothing to fix: every booking it would examine is
      correctly linked, since the unlinked ones now have no owner. */
  lemma RerunFixesNothing(ledger: seq<Booking>, users: seq<User>, now: int)
    ensures var once := seq(|ledger|, i requires 0 <= i < |ledger| => FixOne(ledger[i], users, now));
            && Count(once, Unlinks(users)) == 0
            && forall i :: 0 <= i < |once| ==> FixOne(once[i], users, now) == once[i]
  {
    var once := seq(|ledger|, i requires 0 <= i < |ledger| => FixOne(ledger[i], users, now));
    CountExtremes(once, Unlinks(users));
  }

  /** `/debug`: the PENDING_ARRIVAL and ACTIVE bookings, in ledger order. */
  function LiveBookings(ledger: seq<Booking>): (r: seq<Booking>)
    ensures forall b :: b in r <==> b in ledger && b.IsLive()
    ensures SubsequenceOf(r, ledger)
  {
    Filter(ledger, (b: Booking) => b.IsLive())
  }
}
