/** The organization's seat summary and the client's choice of a license with a free seat
    (backend/app/modules/commerce/service.py, frontend/src/lib/organizations.ts). */
module SeatSummary {
  import opened Wrappers
  import Seats

  /** An active license and an active assignment as the summary lists them. */
  datatype ActiveLicense = ActiveLicense(id: int, seats: int)
  datatype ActiveAssignment = ActiveAssignment(id: int, license: int)

  datatype Summary = Summary(purchased: int, taken: nat, available: int)

  function SeatTotal(licenses: seq<ActiveLicense>): int {
    if licenses == [] then 0 else licenses[0].seats + SeatTotal(licenses[1..])
  }

  function Summarize(licenses: seq<ActiveLicense>, assignments: seq<ActiveAssignment>): Summary {
    var free := SeatTotal(licenses) - |assignments|;
    Summary(SeatTotal(licenses), |assignments|, if free > 0 then free else 0)
  }

  function CountOn(assignments: seq<ActiveAssignment>, license: int): nat {
    if assignments == [] then 0
    else CountOn(assignments[..|assignments| - 1], license) +
         if assignments[|assignments| - 1].license == license then 1 else 0
  }

  predicate HasFree(assignments: seq<ActiveAssignment>, license: ActiveLicense) {
    CountOn(assignments, license.id) < license.seats
  }

  function Lookup(m: map<int, nat>, key: int): nat { if key in m then m[key] else 0 }

  /** The first listed license with a free seat, or None when every license is full. */
  method PickLicenseWithFreeSeat(licenses: seq<ActiveLicense>, assignments: seq<ActiveAssignment>)
    returns (picked: Option<ActiveLicense>)
    ensures picked.None? <==> forall i :: 0 <= i < |licenses| ==> !HasFree(assignments, licenses[i])
    ensures picked.Some? ==>
              exists i :: 0 <= i < |licenses| && licenses[i] == picked.value && HasFree(assignments, licenses[i]) &&
                          forall j :: 0 <= j < i ==> !HasFree(assignments, licenses[j])
  {
    var assignedCounts: map<int, nat> := map[];
    for i := 0 to |assignments|
      invariant forall key :: Lookup(assignedCounts, key) == CountOn(assignments[..i], key)
    {
      var a := assignments[i];
      assert assignments[..i + 1][..i] == assignments[..i];
      assignedCounts := assignedCounts[a.license := Lookup(assignedCounts, a.license) + 1];
    }
    assert assignments[..|assignments|] == assignments;
    for i := 0 to |licenses|
      invariant forall j :: 0 <= j < i ==> !HasFree(assignments, licenses[j])
    {
      if Lookup(assignedCounts, licenses[i].id) < licenses[i].seats {
        return Some(licenses[i]);
      }
    }
    return None;
  }

  /** What the listings promise: each active license once, and only assignments on those licenses. */
  ghost predicate Listing(licenses: seq<ActiveLicense>, assignments: seq<ActiveAssignment>) {
    (forall i, j :: 0 <= i < j < |licenses| ==> licenses[i].id != licenses[j].id) &&
    forall a :: a in assignments ==> exists i :: 0 <= i < |licenses| && licenses[i].id == a.license
  }

  ghost predicate AllWithin(licenses: seq<ActiveLicense>, assignments: seq<ActiveAssignment>) {
    forall i :: 0 <= i < |licenses| ==> CountOn(assignments, licenses[i].id) <= licenses[i].seats
  }

  /** Assignments counted license by license. */
  function CountTotal(licenses: seq<ActiveLicense>, assignments: seq<ActiveAssignment>): nat {
    if licenses == [] then 0 else CountOn(assignments, licenses[0].id) + CountTotal(licenses[1..], assignments)
  }

  lemma {:induction false} CountTotalStep(
      licenses: seq<ActiveLicense>, front: seq<ActiveAssignment>, a: ActiveAssignment)
    requires forall i, j :: 0 <= i < j < |licenses| ==> licenses[i].id != licenses[j].id
    ensures CountTotal(licenses, front + [a]) ==
            CountTotal(licenses, front) +
            if exists i :: 0 <= i < |licenses| && licenses[i].id == a.license then 1 else 0
  {
    assert (front + [a])[..|front|] == front;
    if licenses != [] {
      var rest := licenses[1..];
      assert forall i :: 0 <= i < |rest| ==> rest[i] == licenses[i + 1];
      CountTotalStep(rest, front, a);
      if licenses[0].id == a.license {
        assert forall i :: 0 <= i < |rest| ==> rest[i].id != a.license;
      } else if exists i :: 0 <= i < |licenses| && licenses[i].id == a.license {
        var i :| 0 <= i < |licenses| && licenses[i].id == a.license;
        assert rest[i - 1].id == a.license;
      }
    }
  }

  /** Every listed assignment is counted on exactly one listed license. */
  lemma {:induction false} CountsAddUp(licenses: seq<ActiveLicense>, assignments: seq<ActiveAssignment>)
    requires Listing(licenses, assignments)
    ensures CountTotal(licenses, assignments) == |assignments|
  {
    if assignments == [] {
      NothingCounted(licenses);
    } else {
      var front, a := assignments[..|assignments| - 1], assignments[|assignments| - 1];
      assert assignments == front + [a];
      CountsAddUp(licenses, front);
      CountTotalStep(licenses, front, a);
      assert a in assignments;
    }
  }

  lemma {:induction false} NothingCounted(licenses: seq<ActiveLicense>)
    ensures CountTotal(licenses, []) == 0
  {
    if licenses != [] { NothingCounted(licenses[1..]); }
  }

  /** Seats nobody holds, license by license. */
  function Free(licenses: seq<ActiveLicense>, assignments: seq<ActiveAssignment>): nat {
    if licenses == [] then 0
    else
      var spare := licenses[0].seats - CountOn(assignments, licenses[0].id);
      (if spare > 0 then spare else 0) + Free(licenses[1..], assignments)
  }

  /** Holders beyond the seats, license by license. */
  function Excess(licenses: seq<ActiveLicense>, assignments: seq<ActiveAssignment>): nat {
    if licenses == [] then 0
    else
      var over := CountOn(assignments, licenses[0].id) - licenses[0].seats;
      (if over > 0 then over else 0) + Excess(licenses[1..], assignments)
  }

  ghost predicate SomeFree(licenses: seq<ActiveLicense>, assignments: seq<ActiveAssignment>) {
    exists i :: 0 <= i < |licenses| && HasFree(assignments, licenses[i])
  }

  lemma {:induction false} SeatsBalance(licenses: seq<ActiveLicense>, assignments: seq<ActiveAssignment>)
    ensures SeatTotal(licenses) + Excess(licenses, assignments) ==
            CountTotal(licenses, assignments) + Free(licenses, assignments)
  {
    if licenses != [] { SeatsBalance(licenses[1..], assignments); }
  }

  lemma {:induction false} FreeIffSome(licenses: seq<ActiveLicense>, assignments: seq<ActiveAssignment>)
    ensures Free(licenses, assignments) > 0 <==> SomeFree(licenses, assignments)
  {
    if licenses != [] {
      var rest := licenses[1..];
      FreeIffSome(rest, assignments);
      assert licenses == [licenses[0]] + rest;
      if SomeFree(rest, assignments) {
        var i :| 0 <= i < |rest| && HasFree(assignments, rest[i]);
        assert HasFree(assignments, licenses[i + 1]);
      }
    }
  }

  lemma {:induction false} ExcessIffOverfull(licenses: seq<ActiveLicense>, assignments: seq<ActiveAssignment>)
    ensures Excess(licenses, assignments) == 0 <==> AllWithin(licenses, assignments)
  {
    if licenses != [] {
      var rest := licenses[1..];
      ExcessIffOverfull(rest, assignments);
      assert licenses == [licenses[0]] + rest;
      if AllWithin(licenses, assignments) {
        assert forall i :: 0 <= i < |rest| ==> rest[i] == licenses[i + 1];
      }
    }
  }

  /** Summary against search, exactly: the available count is the free seats less those overdrawn
      elsewhere, and never negative. So it is unclipped if and only if the overdrawn seats do not exceed
      the free ones, and it agrees with the client's per-license search if and only if nothing is free or
      more is free than overdrawn. */
  lemma SummaryAgreesExactly(licenses: seq<ActiveLicense>, assignments: seq<ActiveAssignment>)
    requires Listing(licenses, assignments)
    ensures var s := Summarize(licenses, assignments);
            var free, excess := Free(licenses, assignments), Excess(licenses, assignments);
            s.taken == |assignments| && s.purchased + excess == s.taken + free &&
            s.available == (if free > excess then free - excess else 0) &&
            (s.available == s.purchased - s.taken <==> excess <= free) &&
            ((s.available > 0 <==> SomeFree(licenses, assignments)) <==> free == 0 || free > excess)
  {
    CountsAddUp(licenses, assignments);
    SeatsBalance(licenses, assignments);
    FreeIffSome(licenses, assignments);
  }

  /** In particular, while every license is within its seats, the available count is not clipped and some
      license has a free seat exactly when the number of available seats is positive. */
  lemma SummaryAgreesWithSearch(licenses: seq<ActiveLicense>, assignments: seq<ActiveAssignment>)
    requires Listing(licenses, assignments) && AllWithin(licenses, assignments)
    ensures var s := Summarize(licenses, assignments);
            s.available == s.purchased - s.taken && (s.available > 0 <==> SomeFree(licenses, assignments))
  {
    SummaryAgreesExactly(licenses, assignments);
    ExcessIffOverfull(licenses, assignments);
  }

  /** The smallest disagreement: with one license over its seats the aggregate hides a free seat that the
      search finds, although the available count is zero. */
  lemma OverfullLicenseHidesSeats()
    ensures var licenses := [ActiveLicense(1, 1), ActiveLicense(2, 1)];
            var assignments := [ActiveAssignment(10, 1), ActiveAssignment(11, 1)];
            Listing(licenses, assignments) && !AllWithin(licenses, assignments) &&
            Summarize(licenses, assignments).available == 0 && HasFree(assignments, licenses[1])
  {
    var licenses := [ActiveLicense(1, 1), ActiveLicense(2, 1)];
    var assignments := [ActiveAssignment(10, 1), ActiveAssignment(11, 1)];
    assert assignments[..1] == [ActiveAssignment(10, 1)];
    assert assignments[..1][..0] == [];
    assert CountOn(assignments, 1) == 2 && CountOn(assignments, 2) == 0;
    assert licenses[0].id == 1;
    assert SeatTotal(licenses) == 2 by { assert licenses[1..] == [ActiveLicense(2, 1)]; }
  }

  // ---- The listings taken from the tables ----

  /** The listing names exactly the active assignments of the listed licenses, each once. */
  ghost predicate ListedFrom(db: Seats.Db, licenses: seq<ActiveLicense>, assignments: seq<ActiveAssignment>) {
    && (forall i :: 0 <= i < |licenses| ==>
        licenses[i].id in db.licenses && db.licenses[licenses[i].id].seats == licenses[i].seats)
    && (forall i, j :: 0 <= i < j < |assignments| ==> assignments[i].id != assignments[j].id)
    && (forall a :: a in assignments ==>
          a.id in Seats.ActiveOn(db, a.license) && exists i :: 0 <= i < |licenses| && licenses[i].id == a.license)
    && (forall i, id :: 0 <= i < |licenses| && id in Seats.ActiveOn(db, licenses[i].id) ==>
          ActiveAssignment(id, licenses[i].id) in assignments)
  }

  function IdsOn(assignments: seq<ActiveAssignment>, license: int): set<int> {
    if assignments == [] then {}
    else
      var a := assignments[|assignments| - 1];
      IdsOn(assignments[..|assignments| - 1], license) + if a.license == license then {a.id} else {}
  }

  lemma {:induction false} IdsOnMembers(assignments: seq<ActiveAssignment>, license: int, id: int)
    ensures id in IdsOn(assignments, license) <==> ActiveAssignment(id, license) in assignments
  {
    if assignments != [] {
      var front, a := assignments[..|assignments| - 1], assignments[|assignments| - 1];
      IdsOnMembers(front, license, id);
      assert assignments == front + [a];
    }
  }

  lemma {:induction false} CountOnIsCardinality(assignments: seq<ActiveAssignment>, license: int)
    requires forall i, j :: 0 <= i < j < |assignments| ==> assignments[i].id != assignments[j].id
    ensures CountOn(assignments, license) == |IdsOn(assignments, license)|
  {
    if assignments != [] {
      var front, a := assignments[..|assignments| - 1], assignments[|assignments| - 1];
      CountOnIsCardinality(front, license);
      IdsOnMembers(front, license, a.id);
      assert a.id !in IdsOn(front, license) by {
        forall i | 0 <= i < |front| ensures front[i].id != a.id {
          assert assignments[i].id != assignments[|front|].id;
        }
      }
    }
  }

  /** Counting in the listing is counting in the tables. */
  lemma ListedCounts(db: Seats.Db, licenses: seq<ActiveLicense>, assignments: seq<ActiveAssignment>, i: nat)
    requires ListedFrom(db, licenses, assignments) && i < |licenses|
    ensures CountOn(assignments, licenses[i].id) == Seats.CountActive(db, licenses[i].id)
  {
    var license := licenses[i].id;
    CountOnIsCardinality(assignments, license);
    assert IdsOn(assignments, license) == Seats.ActiveOn(db, license) by {
      forall id ensures id in IdsOn(assignments, license) <==> id in Seats.ActiveOn(db, license) {
        IdsOnMembers(assignments, license, id);
      }
    }
  }

  /** On the tables themselves: a listing read from them satisfies what the theorems above ask, and is
      overdrawn nowhere exactly when every license of the organization is within its seats; then the
      summary offers a seat exactly when some license has one. */
  lemma TablesAgreeWithSearch(db: Seats.Db, licenses: seq<ActiveLicense>, assignments: seq<ActiveAssignment>)
    requires ListedFrom(db, licenses, assignments)
    requires forall i, j :: 0 <= i < j < |licenses| ==> licenses[i].id != licenses[j].id
    ensures Listing(licenses, assignments)
    ensures Excess(licenses, assignments) == 0 <==> forall i :: 0 <= i < |licenses| ==> Seats.Within(db, licenses[i].id)
    ensures var s := Summarize(licenses, assignments);
            Excess(licenses, assignments) == 0 ==>
              s.available == s.purchased - s.taken &&
              (s.available > 0 <==>
               exists i :: 0 <= i < |licenses| &&
                         Seats.CountActive(db, licenses[i].id) < db.licenses[licenses[i].id].seats)
  {
    forall i | 0 <= i < |licenses|
      ensures CountOn(assignments, licenses[i].id) == Seats.CountActive(db, licenses[i].id)
    {
      ListedCounts(db, licenses, assignments, i);
    }
    ExcessIffOverfull(licenses, assignments);
    if Excess(licenses, assignments) == 0 {
      SummaryAgreesWithSearch(licenses, assignments);
      assert forall i :: 0 <= i < |licenses| ==>
        (HasFree(assignments, licenses[i]) <==>
         Seats.CountActive(db, licenses[i].id) < db.licenses[licenses[i].id].seats);
    }
  }
}
