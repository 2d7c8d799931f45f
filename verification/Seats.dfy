/** Seat allocation on organization licenses, as row-locked transactions that interleave
    (backend/app/modules/commerce/service.py and repository.py). */
module Seats {
  import opened Wrappers

  datatype License = License(organization: int, seats: int, status: string)

  datatype Assignment = Assignment(license: int, user: int, active: bool)

  /** The committed tables. */
  datatype Db = Db(licenses: map<int, License>, assignments: map<int, Assignment>)

  datatype Request = Request(organization: int, license: int, user: int, newId: int)

  datatype Reason = NotFound | WrongOrganization | NotActive | AlreadySeated | NoSeats | IndexViolation

  datatype Result = Assigned(db: Db) | Rejected(reason: Reason)

  function ActiveOn(db: Db, license: int): set<int> {
    set id | id in db.assignments && db.assignments[id].active && db.assignments[id].license == license
  }

  function CountActive(db: Db, license: int): nat { |ActiveOn(db, license)| }

  predicate Seated(db: Db, license: int, user: int) {
    exists id :: id in db.assignments && db.assignments[id] == Assignment(license, user, true)
  }

  /** The license-row checks made on the locked row. */
  function RowCheck(db: Db, r: Request): Option<Reason> {
    if r.license !in db.licenses then Some(NotFound)
    else if db.licenses[r.license].organization != r.organization then Some(WrongOrganization)
    else if db.licenses[r.license].status != "active" then Some(NotActive)
    else None
  }

  /** `assign_license` run alone. */
  function Assign(db: Db, r: Request): Result {
    if RowCheck(db, r).Some? then Rejected(RowCheck(db, r).value)
    else if Seated(db, r.license, r.user) then Rejected(AlreadySeated)
    else if CountActive(db, r.license) >= db.licenses[r.license].seats then Rejected(NoSeats)
    else Assigned(Inserted(db, r))
  }

  function Inserted(db: Db, r: Request): Db {
    db.(assignments := db.assignments[r.newId := Assignment(r.license, r.user, true)])
  }

  /** Revocation of a set of assignments; revoking twice is harmless. */
  function Revoked(db: Db, ids: set<int>): Db {
    db.(assignments := map id | id in db.assignments ::
      if id in ids then db.assignments[id].(active := false) else db.assignments[id])
  }

  // ---- One transaction at a time ----

  class LicenseService {
    var licenses: map<int, License>
    var assignments: map<int, Assignment>

    function Tables(): Db
      reads this
    {
      Db(licenses, assignments)
    }

    constructor (db: Db)
      ensures Tables() == db
    {
      licenses, assignments := db.licenses, db.assignments;
    }

    method AssignLicense(r: Request) returns (refusal: Option<Reason>)
      requires r.newId !in assignments
      modifies this
      ensures var result := Assign(old(Tables()), r);
              if result.Assigned? then refusal == None && Tables() == result.db
              else refusal == Some(result.reason) && Tables() == old(Tables())
    {
      if r.license !in licenses {
        return Some(NotFound);
      }
      var license := licenses[r.license];
      if license.organization != r.organization {
        return Some(WrongOrganization);
      }
      if license.status != "active" {
        return Some(NotActive);
      }
      if Seated(Tables(), r.license, r.user) {
        return Some(AlreadySeated);
      }
      var activeCount := CountActive(Tables(), r.license);
      if activeCount >= license.seats {
        return Some(NoSeats);
      }
      assignments := assignments[r.newId := Assignment(r.license, r.user, true)];
      return None;
    }

    /** Refused when the row is missing, belongs to another organization or is already revoked. */
    method RevokeAssignment(organization: int, id: int) returns (ok: bool)
      modifies this
      ensures ok <==> id in old(assignments) && old(assignments)[id].active &&
                      old(assignments)[id].license in licenses &&
                      licenses[old(assignments)[id].license].organization == organization
      ensures Tables() == if ok then Revoked(old(Tables()), {id}) else old(Tables())
    {
      if id !in assignments || assignments[id].license !in licenses ||
         licenses[assignments[id].license].organization != organization || !assignments[id].active {
        return false;
      }
      assignments := assignments[id := assignments[id].(active := false)];
      return true;
    }

    /** A member leaves the organization: on each license of the listing the one active seat they have is
        revoked. The listing holds the organization's licenses that are active and not expired. */
    method RevokeAllForUser(organization: int, user: int, unexpired: set<int>, listing: seq<int>)
      requires NoDoubleSeat(Tables())
      requires forall l :: l in listing <==> Listed(Tables(), organization, unexpired, l)
      modifies this
      ensures Tables() == Revoked(old(Tables()), MemberSeats(old(Tables()), organization, user, unexpired))
    {
      ghost var before := Tables();
      ghost var gone: set<int> := {};
      assert Revoked(before, gone).assignments == before.assignments;
      for i := 0 to |listing|
        invariant Tables() == Revoked(before, gone)
        invariant gone == SeatsOn(before, user, listing[..i])
      {
        var l := listing[i];
        assert l in listing && listing[..i + 1] == listing[..i] + [l];
        if exists id :: id in assignments && assignments[id] == Assignment(l, user, true) {
          var id :| id in assignments && assignments[id] == Assignment(l, user, true);
          OneSeat(before, user, listing[..i], l, id);
          assignments := assignments[id := assignments[id].(active := false)];
          gone := gone + {id};
        } else {
          forall id | id in before.assignments && id !in gone
            ensures before.assignments[id] != Assignment(l, user, true)
          {
            assert assignments[id] == before.assignments[id];
          }
          NoSeat(before, user, listing[..i], l);
        }
        assert Revoked(before, gone).assignments == assignments;
      }
      assert listing[..|listing|] == listing;
      assert gone == MemberSeats(before, organization, user, unexpired);
    }
  }

  /** A license the listing of the organization shows. */
  predicate Listed(db: Db, organization: int, unexpired: set<int>, license: int) {
    license in db.licenses && db.licenses[license].organization == organization &&
    db.licenses[license].status == "active" && license in unexpired
  }

  /** The active seats of a user on some licenses. */
  function SeatsOn(db: Db, user: int, licenses: seq<int>): set<int> {
    set id | id in db.assignments && db.assignments[id].active && db.assignments[id].user == user &&
             db.assignments[id].license in licenses
  }

  lemma OneSeat(db: Db, user: int, earlier: seq<int>, license: int, id: int)
    requires NoDoubleSeat(db) && id in db.assignments
    requires Revoked(db, SeatsOn(db, user, earlier)).assignments[id] == Assignment(license, user, true)
    ensures SeatsOn(db, user, earlier + [license]) == SeatsOn(db, user, earlier) + {id}
  {
    assert db.assignments[id] == Assignment(license, user, true);
    forall other | other in SeatsOn(db, user, earlier + [license])
      ensures other in SeatsOn(db, user, earlier) || other == id
    {
    }
    assert id in SeatsOn(db, user, earlier + [license]);
    assert SeatsOn(db, user, earlier) <= SeatsOn(db, user, earlier + [license]);
  }

  lemma NoSeat(db: Db, user: int, earlier: seq<int>, license: int)
    requires forall id :: id in db.assignments && id !in SeatsOn(db, user, earlier) ==>
               db.assignments[id] != Assignment(license, user, true)
    ensures SeatsOn(db, user, earlier + [license]) == SeatsOn(db, user, earlier)
  {
    forall id | id in SeatsOn(db, user, earlier + [license]) ensures id in SeatsOn(db, user, earlier) {
      assert db.assignments[id] == Assignment(db.assignments[id].license, user, true);
    }
  }

  /** The active seats a user has on licenses of the organization that are active and not expired. */
  function MemberSeats(db: Db, organization: int, user: int, unexpired: set<int>): set<int> {
    set id | id in db.assignments && db.assignments[id].active && db.assignments[id].user == user &&
             db.assignments[id].license in db.licenses && db.assignments[id].license in unexpired &&
             db.licenses[db.assignments[id].license].organization == organization &&
             db.licenses[db.assignments[id].license].status == "active"
  }

  // ---- Interleaved transactions ----

  /** `seen` is the license row read under the lock. */
  datatype Phase =
    | Idle
    | Locked(seen: License)     // row lock taken, row checks passed
    | Checked(seen: License)    // the user holds no active seat
    | Counted(seen: License)    // a free seat was counted
    | Pending(seen: License)    // the new row is flushed but not committed
    | Done
    | Failed(reason: Reason)
    | Aborted                   // the transaction died and was rolled back

  /** `locks` maps a license row to the request that holds its row lock. */
  datatype System = System(db: Db, locks: map<int, nat>, phases: seq<Phase>)

  datatype Action =
    | Lock(i: nat) | Check(i: nat) | Count(i: nat) | Insert(i: nat) | CommitTxn(i: nat) | Abort(i: nat)
    | Revoke(ids: set<int>)
    | Webhook(license: int, row: License)

  predicate InTxn(p: Phase) { p.Locked? || p.Checked? || p.Counted? || p.Pending? }

  function Fail(sys: System, i: nat, license: int, reason: Reason): System
    requires i < |sys.phases|
  {
    System(sys.db, sys.locks - {license}, sys.phases[i := Failed(reason)])
  }

  /** One atomic step. A row lock blocks other lockers and any UPDATE of the row; reads see committed
      rows only; a transaction may die at any point and release its lock; a webhook may change anything in
      a license row but its organization. */
  ghost predicate Step(requests: seq<Request>, sys: System, a: Action, next: System)
    requires |sys.phases| == |requests|
  {
    match a
    case Lock(i) =>
      i < |requests| && sys.phases[i].Idle? &&
      var r := requests[i];
      var check := RowCheck(sys.db, r);
      (r.license in sys.db.licenses ==> r.license !in sys.locks) &&
      next == (if check.Some? then sys.(phases := sys.phases[i := Failed(check.value)])
               else System(sys.db, sys.locks[r.license := i], sys.phases[i := Locked(sys.db.licenses[r.license])]))
    case Check(i) =>
      i < |requests| && sys.phases[i].Locked? &&
      var r := requests[i];
      next == (if Seated(sys.db, r.license, r.user) then Fail(sys, i, r.license, AlreadySeated)
               else sys.(phases := sys.phases[i := Checked(sys.phases[i].seen)]))
    case Count(i) =>
      i < |requests| && sys.phases[i].Checked? &&
      var r := requests[i];
      next == (if CountActive(sys.db, r.license) >= sys.phases[i].seen.seats then Fail(sys, i, r.license, NoSeats)
               else sys.(phases := sys.phases[i := Counted(sys.phases[i].seen)]))
    case Insert(i) =>
      i < |requests| && sys.phases[i].Counted? &&
      var r := requests[i];
      next == (if Seated(sys.db, r.license, r.user) then Fail(sys, i, r.license, IndexViolation)
               else sys.(phases := sys.phases[i := Pending(sys.phases[i].seen)]))
    case CommitTxn(i) =>
      i < |requests| && sys.phases[i].Pending? &&
      next == System(Inserted(sys.db, requests[i]), sys.locks - {requests[i].license}, sys.phases[i := Done])
    case Abort(i) =>
      i < |requests| && InTxn(sys.phases[i]) &&
      next == System(sys.db, sys.locks - {requests[i].license}, sys.phases[i := Aborted])
    case Revoke(ids) => next == sys.(db := Revoked(sys.db, ids))
    case Webhook(license, row) =>
      license !in sys.locks &&
      (license in sys.db.licenses ==> sys.db.licenses[license].organization == row.organization) &&
      next == sys.(db := sys.db.(licenses := sys.db.licenses[license := row]))
  }

  /** No user holds two active seats on one license. */
  ghost predicate NoDoubleSeat(db: Db) {
    forall a, b :: a in db.assignments && b in db.assignments && db.assignments[a].active && db.assignments[b].active &&
                   db.assignments[a].license == db.assignments[b].license &&
                   db.assignments[a].user == db.assignments[b].user
                   ==> a == b
  }

  /** New assignment ids are fresh UUIDs. */
  ghost predicate FreshIds(requests: seq<Request>, sys: System)
    requires |sys.phases| == |requests|
  {
    (forall i, j :: 0 <= i < j < |requests| ==> requests[i].newId != requests[j].newId) &&
    (forall i :: 0 <= i < |requests| && !sys.phases[i].Done? ==> requests[i].newId !in sys.db.assignments)
  }

  /** What a transaction has read still holds. */
  ghost predicate TxnOk(r: Request, i: nat, p: Phase, sys: System) {
    InTxn(p) ==>
      && r.license in sys.locks && sys.locks[r.license] == i
      && r.license in sys.db.licenses && sys.db.licenses[r.license] == p.seen && RowCheck(sys.db, r).None?
      && (!p.Locked? ==> !Seated(sys.db, r.license, r.user))
      && (p.Counted? || p.Pending? ==> CountActive(sys.db, r.license) < p.seen.seats)
  }

  ghost predicate Inv(requests: seq<Request>, sys: System) {
    && |sys.phases| == |requests|
    && NoDoubleSeat(sys.db) && FreshIds(requests, sys)
    && (forall i :: 0 <= i < |requests| ==> TxnOk(requests[i], i, sys.phases[i], sys))
    && (forall license :: license in sys.locks ==>
          sys.locks[license] < |requests| && requests[sys.locks[license]].license == license &&
          InTxn(sys.phases[sys.locks[license]]))
  }

  lemma InsertCounts(db: Db, r: Request, license: int)
    requires r.newId !in db.assignments
    ensures CountActive(Inserted(db, r), license) == CountActive(db, license) + if r.license == license then 1 else 0
  {
    assert ActiveOn(Inserted(db, r), license) == ActiveOn(db, license) + if r.license == license then {r.newId} else {};
  }

  lemma RevokeCounts(db: Db, ids: set<int>, license: int)
    ensures CountActive(Revoked(db, ids), license) <= CountActive(db, license)
    ensures forall user :: Seated(Revoked(db, ids), license, user) ==> Seated(db, license, user)
  {
    var small, big := ActiveOn(Revoked(db, ids), license), ActiveOn(db, license);
    assert small <= big;
    SubsetCardinality(small, big);
  }

  lemma SubsetCardinality(small: set<int>, big: set<int>)
    requires small <= big
    ensures |small| <= |big|
  {
    assert big == small + (big - small);
  }

  lemma StepKeepsInv(requests: seq<Request>, sys: System, a: Action, next: System)
    requires Inv(requests, sys) && Step(requests, sys, a, next)
    ensures Inv(requests, next)
  {
    match a {
      case CommitTxn(i) => CommitKeepsInv(requests, sys, i, next);
      case Revoke(ids) =>
        forall i | 0 <= i < |requests| ensures TxnOk(requests[i], i, next.phases[i], next) {
          assert TxnOk(requests[i], i, sys.phases[i], sys);
          RevokeCounts(sys.db, ids, requests[i].license);
        }
      case Webhook(license, row) =>
        assert next.db.assignments == sys.db.assignments;
        forall i | 0 <= i < |requests| ensures TxnOk(requests[i], i, next.phases[i], next) {
          assert TxnOk(requests[i], i, sys.phases[i], sys);
          SameAssignments(sys.db, next.db, requests[i]);
        }
      case _ => TxnStepKeepsInv(requests, sys, a, next);
    }
  }

  lemma SameAssignments(a: Db, b: Db, r: Request)
    requires a.assignments == b.assignments
    ensures CountActive(a, r.license) == CountActive(b, r.license)
    ensures Seated(a, r.license, r.user) <==> Seated(b, r.license, r.user)
  {
    assert ActiveOn(a, r.license) == ActiveOn(b, r.license);
  }

  /** Steps that leave the tables alone. */
  lemma TxnStepKeepsInv(requests: seq<Request>, sys: System, a: Action, next: System)
    requires Inv(requests, sys) && Step(requests, sys, a, next)
    requires a.Lock? || a.Check? || a.Count? || a.Insert? || a.Abort?
    ensures Inv(requests, next)
  {
    var i := a.i;
    assert next.db == sys.db;
    assert TxnOk(requests[i], i, sys.phases[i], sys);
    forall j | 0 <= j < |requests| ensures TxnOk(requests[j], j, next.phases[j], next) {
      assert TxnOk(requests[j], j, sys.phases[j], sys);
    }
  }

  lemma CommitKeepsInv(requests: seq<Request>, sys: System, i: nat, next: System)
    requires Inv(requests, sys) && Step(requests, sys, CommitTxn(i), next)
    ensures Inv(requests, next)
  {
    var r := requests[i];
    assert TxnOk(r, i, sys.phases[i], sys);
    forall j | 0 <= j < |requests| ensures TxnOk(requests[j], j, next.phases[j], next) {
      assert TxnOk(requests[j], j, sys.phases[j], sys);
      if j != i && InTxn(sys.phases[j]) {
        // two transactions never hold the same row lock
        assert requests[j].license != r.license;
        InsertCounts(sys.db, r, requests[j].license);
      }
    }
  }

  // ---- The guarantees ----

  /** A step of the protocol that raises the active count of a license starts below its seats and ends
      within them; while a license is at or above its seats the count can only fall. */
  lemma CountRisesOnlyWithinSeats(requests: seq<Request>, sys: System, a: Action, next: System, license: int)
    requires Inv(requests, sys) && Step(requests, sys, a, next)
    ensures CountActive(next.db, license) > CountActive(sys.db, license) ==>
              license in sys.db.licenses && next.db.licenses == sys.db.licenses &&
              CountActive(sys.db, license) < sys.db.licenses[license].seats &&
              CountActive(next.db, license) <= next.db.licenses[license].seats
  {
    match a {
      case CommitTxn(i) =>
        assert TxnOk(requests[i], i, sys.phases[i], sys);
        InsertCounts(sys.db, requests[i], license);
      case Revoke(ids) => RevokeCounts(sys.db, ids, license);
      case _ => assert ActiveOn(next.db, license) == ActiveOn(sys.db, license);
    }
  }

  /** Linearizability: a request that finishes does so with exactly the outcome that `assign_license`,
      run alone on the tables of that moment, would have; the database's own uniqueness check is never
      what stops it; one that dies leaves no trace. */
  lemma FinishesAsIfAlone(requests: seq<Request>, sys: System, a: Action, next: System, i: nat)
    requires Inv(requests, sys) && Step(requests, sys, a, next) && i < |requests|
    requires !sys.phases[i].Done? && !sys.phases[i].Failed? && !sys.phases[i].Aborted?
    ensures next.phases[i].Done? ==> Assign(sys.db, requests[i]) == Assigned(next.db)
    ensures next.phases[i].Failed? ==>
              Assign(sys.db, requests[i]) == Rejected(next.phases[i].reason) && next.db == sys.db &&
              next.phases[i].reason != IndexViolation
    ensures next.phases[i].Aborted? ==> next.db == sys.db && requests[i].license !in next.locks
  {
    assert TxnOk(requests[i], i, sys.phases[i], sys);
  }

  /** A run of the protocol. */
  ghost predicate Execution(requests: seq<Request>, trace: seq<System>, actions: seq<Action>) {
    |trace| == |actions| + 1 &&
    (forall k :: 0 <= k < |trace| ==> |trace[k].phases| == |requests|) &&
    forall k :: 0 <= k < |actions| ==> Step(requests, trace[k], actions[k], trace[k + 1])
  }

  ghost predicate Initial(requests: seq<Request>, sys: System) {
    |sys.phases| == |requests| && NoDoubleSeat(sys.db) && FreshIds(requests, sys) && sys.locks == map[] &&
    forall i :: 0 <= i < |requests| ==> sys.phases[i].Idle?
  }

  lemma {:induction false} ExecutionKeepsInv(requests: seq<Request>, trace: seq<System>, actions: seq<Action>, k: nat)
    requires Execution(requests, trace, actions) && Initial(requests, trace[0]) && k < |trace|
    ensures Inv(requests, trace[k])
  {
    if k > 0 {
      ExecutionKeepsInv(requests, trace, actions, k - 1);
      StepKeepsInv(requests, trace[k - 1], actions[k - 1], trace[k - 1 + 1]);
    }
  }

  predicate Within(db: Db, license: int) {
    license in db.licenses ==> CountActive(db, license) <= db.licenses[license].seats
  }

  /** A webhook that takes seats away from under their holders. */
  predicate Overcuts(sys: System, a: Action, license: int) {
    a.Webhook? && a.license == license && a.row.seats < CountActive(sys.db, license)
  }

  /** Safety over whole runs, exactly: a license that starts within its seats stays within them
      throughout every interleaving if and only if no webhook ever lowers its seats below the number
      assigned at that moment. And no user ever holds two active seats on one license. */
  lemma {:induction false} SeatsNeverOversold(
      requests: seq<Request>, trace: seq<System>, actions: seq<Action>, license: int)
    requires Execution(requests, trace, actions) && Initial(requests, trace[0])
    requires license in trace[0].db.licenses && Within(trace[0].db, license)
    ensures (forall k :: 0 <= k < |trace| ==> Within(trace[k].db, license)) <==>
            (forall k :: 0 <= k < |actions| ==> !Overcuts(trace[k], actions[k], license))
    ensures forall k :: 0 <= k < |trace| ==> NoDoubleSeat(trace[k].db)
  {
    forall k | 0 <= k < |trace| ensures NoDoubleSeat(trace[k].db) {
      ExecutionKeepsInv(requests, trace, actions, k);
    }
    if forall k :: 0 <= k < |actions| ==> !Overcuts(trace[k], actions[k], license) {
      forall k | 0 <= k < |trace| ensures Within(trace[k].db, license) {
        StaysWithin(requests, trace, actions, license, k);
      }
    } else {
      var k :| 0 <= k < |actions| && Overcuts(trace[k], actions[k], license);
      assert Step(requests, trace[k], actions[k], trace[k + 1]);
      assert ActiveOn(trace[k + 1].db, license) == ActiveOn(trace[k].db, license);
      assert !Within(trace[k + 1].db, license);
    }
  }

  lemma {:induction false} StaysWithin(
      requests: seq<Request>, trace: seq<System>, actions: seq<Action>, license: int, k: nat)
    requires Execution(requests, trace, actions) && Initial(requests, trace[0]) && k < |trace|
    requires license in trace[0].db.licenses && Within(trace[0].db, license)
    requires forall j :: 0 <= j < |actions| ==> !Overcuts(trace[j], actions[j], license)
    ensures license in trace[k].db.licenses && Within(trace[k].db, license)
  {
    if k > 0 {
      StaysWithin(requests, trace, actions, license, k - 1);
      ExecutionKeepsInv(requests, trace, actions, k - 1);
      var sys, a, next := trace[k - 1], actions[k - 1], trace[k - 1 + 1];
      assert Step(requests, sys, a, next);
      CountRisesOnlyWithinSeats(requests, sys, a, next, license);
      assert !Overcuts(sys, a, license);
      if a.Webhook? {
        assert ActiveOn(next.db, license) == ActiveOn(sys.db, license);
      }
    }
  }

  // ---- Seat changes ----

  /** Active assignments on any of the listed licenses. */
  function AssignedOn(db: Db, listed: set<int>): nat {
    |set id | id in db.assignments && db.assignments[id].active && db.assignments[id].license in listed|
  }

  /** The guard of a seat change: not below the seats assigned on all active licenses together. The new
      quantity reaches the license row by webhook only, at some later time. */
  predicate SeatChangeAllowed(db: Db, listed: set<int>, seats: int) { seats >= AssignedOn(db, listed) }

  lemma AssignedCoversEach(db: Db, listed: set<int>, license: int)
    requires license in listed
    ensures CountActive(db, license) <= AssignedOn(db, listed)
  {
    SubsetCardinality(ActiveOn(db, license),
      set id | id in db.assignments && db.assignments[id].active && db.assignments[id].license in listed);
  }

  /** An allocation on the license commits with this action. */
  predicate Allocates(requests: seq<Request>, a: Action, license: int) {
    a.CommitTxn? && a.i < |requests| && requests[a.i].license == license
  }

  lemma OnlyAllocationsRaise(requests: seq<Request>, sys: System, a: Action, next: System, license: int)
    requires Inv(requests, sys) && Step(requests, sys, a, next) && !Allocates(requests, a, license)
    ensures CountActive(next.db, license) <= CountActive(sys.db, license)
  {
    match a {
      case CommitTxn(i) => InsertCounts(sys.db, requests[i], license);
      case Revoke(ids) => RevokeCounts(sys.db, ids, license);
      case _ => assert ActiveOn(next.db, license) == ActiveOn(sys.db, license);
    }
  }

  lemma CountFallsAt(requests: seq<Request>, trace: seq<System>, actions: seq<Action>, license: int, k: nat)
    requires Execution(requests, trace, actions) && Initial(requests, trace[0]) && k < |actions|
    requires !Allocates(requests, actions[k], license)
    ensures CountActive(trace[k + 1].db, license) <= CountActive(trace[k].db, license)
  {
    ExecutionKeepsInv(requests, trace, actions, k);
    assert Step(requests, trace[k], actions[k], trace[k + 1]);
    OnlyAllocationsRaise(requests, trace[k], actions[k], trace[k + 1], license);
  }

  lemma {:induction false} CountFallsBetween(
      requests: seq<Request>, trace: seq<System>, actions: seq<Action>, license: int, from: nat, to: nat)
    requires Execution(requests, trace, actions) && Initial(requests, trace[0]) && from <= to < |trace|
    requires forall k :: from <= k < to ==> !Allocates(requests, actions[k], license)
    ensures CountActive(trace[to].db, license) <= CountActive(trace[from].db, license)
  {
    if from < to {
      CountFallsBetween(requests, trace, actions, license, from, to - 1);
      CountFallsAt(requests, trace, actions, license, to - 1);
    }
  }

  /** A seat change that passed its guard oversells nothing unless an allocation on the license commits
      between the guard and the webhook that delivers the new quantity; the guard takes no lock. */
  lemma GuardedSeatChangeIsSafe(
      requests: seq<Request>, trace: seq<System>, actions: seq<Action>, listed: set<int>, license: int,
      guarded: nat, delivered: nat)
    requires Execution(requests, trace, actions) && Initial(requests, trace[0])
    requires guarded <= delivered < |actions| && license in listed
    requires actions[delivered].Webhook? && actions[delivered].license == license
    requires SeatChangeAllowed(trace[guarded].db, listed, actions[delivered].row.seats)
    ensures Overcuts(trace[delivered], actions[delivered], license) ==>
              exists k :: guarded <= k < delivered && Allocates(requests, actions[k], license)
  {
    AssignedCoversEach(trace[guarded].db, listed, license);
    if forall k :: guarded <= k < delivered ==> !Allocates(requests, actions[k], license) {
      CountFallsBetween(requests, trace, actions, license, guarded, delivered);
    }
  }

  // ---- One allocation, on the tables ----

  /** The user holds an active seat on the license. */
  predicate HoldsSeat(assignments: map<int, Assignment>, license: int, user: int) {
    exists id :: id in assignments &&
      assignments[id].license == license && assignments[id].user == user && assignments[id].active
  }

  /** The active seats taken on the license. */
  function Taken(assignments: map<int, Assignment>, license: int): set<int> {
    set id | id in assignments && assignments[id].license == license && assignments[id].active
  }

  lemma TableViews(db: Db, license: int, user: int)
    ensures CountActive(db, license) == |Taken(db.assignments, license)|
    ensures Seated(db, license, user) <==> HoldsSeat(db.assignments, license, user)
  {
    assert ActiveOn(db, license) == Taken(db.assignments, license);
    if HoldsSeat(db.assignments, license, user) {
      var id :| id in db.assignments && db.assignments[id].license == license && db.assignments[id].user == user &&
                db.assignments[id].active;
      assert db.assignments[id] == Assignment(license, user, true);
    }
  }

  /** The conditions an allocation depends on, in the order in which they are checked. */
  predicate Requirement(n: nat, db: Db, r: Request) {
    match n
    case 0 => r.license in db.licenses
    case 1 => r.license in db.licenses && db.licenses[r.license].organization == r.organization
    case 2 => r.license in db.licenses && db.licenses[r.license].status == "active"
    case 3 => !HoldsSeat(db.assignments, r.license, r.user)
    case 4 => r.license in db.licenses && |Taken(db.assignments, r.license)| < db.licenses[r.license].seats
    case _ => true
  }

  /** The refusal that says requirement `n` failed. */
  function Refusal(n: nat): Reason {
    match n
    case 0 => NotFound
    case 1 => WrongOrganization
    case 2 => NotActive
    case 3 => AlreadySeated
    case _ => NoSeats
  }

  /** An allocation succeeds exactly when the license exists, is the requester's own and active, the user has
      no active seat on it and a seat is free; it then adds that one active seat and nothing else. Any other
      outcome names exactly the first requirement that fails. */
  lemma AllocationExactly(db: Db, r: Request)
    requires r.newId !in db.assignments
    ensures (forall n: nat :: n < 5 ==> Requirement(n, db, r)) <==>
            Assign(db, r) == Assigned(Db(db.licenses, db.assignments[r.newId := Assignment(r.license, r.user, true)]))
    ensures forall n: nat :: n < 5 ==>
              ((Assign(db, r) == Rejected(Refusal(n))) <==>
               (!Requirement(n, db, r) && forall m: nat :: m < n ==> Requirement(m, db, r)))
  {
    TableViews(db, r.license, r.user);
    Unrolled(db, r);
    forall n: nat | n < 5
      ensures (Assign(db, r) == Rejected(Refusal(n))) <==>
              (!Requirement(n, db, r) && forall m: nat :: m < n ==> Requirement(m, db, r))
    {
      UnrolledBelow(db, r, n);
      assert n == 0 || n == 1 || n == 2 || n == 3 || n == 4;
    }
  }

  lemma Unrolled(db: Db, r: Request)
    ensures (forall n: nat :: n < 5 ==> Requirement(n, db, r)) <==>
            Requirement(0, db, r) && Requirement(1, db, r) && Requirement(2, db, r) && Requirement(3, db, r) &&
            Requirement(4, db, r)
  {
    if Requirement(0, db, r) && Requirement(1, db, r) && Requirement(2, db, r) && Requirement(3, db, r) &&
       Requirement(4, db, r)
    {
      forall n: nat | n < 5 ensures Requirement(n, db, r) {
        assert n == 0 || n == 1 || n == 2 || n == 3 || n == 4;
      }
    }
  }

  lemma UnrolledBelow(db: Db, r: Request, n: nat)
    requires n < 5
    ensures (forall m: nat :: m < n ==> Requirement(m, db, r)) <==>
            (n > 0 ==> Requirement(0, db, r)) && (n > 1 ==> Requirement(1, db, r)) &&
            (n > 2 ==> Requirement(2, db, r)) && (n > 3 ==> Requirement(3, db, r))
  {
    if (n > 0 ==> Requirement(0, db, r)) && (n > 1 ==> Requirement(1, db, r)) &&
       (n > 2 ==> Requirement(2, db, r)) && (n > 3 ==> Requirement(3, db, r))
    {
      forall m: nat | m < n ensures Requirement(m, db, r) {
        assert m == 0 || m == 1 || m == 2 || m == 3;
      }
    }
  }

  /** In every interleaving: a request that becomes done met all requirements on the committed tables of
      that moment and added its own seat; one that becomes failed met all but the one it names. */
  lemma RunsAllocateExactly(
      requests: seq<Request>, trace: seq<System>, actions: seq<Action>, k: nat, i: nat)
    requires Execution(requests, trace, actions) && Initial(requests, trace[0])
    requires k < |actions| && i < |requests| && trace[k].phases[i] != trace[k + 1].phases[i]
    ensures var db, r := trace[k].db, requests[i];
            match trace[k + 1].phases[i]
            case Done =>
              (forall n: nat :: n < 5 ==> Requirement(n, db, r)) &&
              trace[k + 1].db == Db(db.licenses, db.assignments[r.newId := Assignment(r.license, r.user, true)])
            case Failed(reason) =>
              trace[k + 1].db == db &&
              exists n: nat :: n < 5 && reason == Refusal(n) && !Requirement(n, db, r) &&
                               forall m: nat :: m < n ==> Requirement(m, db, r)
            case _ => trace[k + 1].db == db
  {
    ExecutionKeepsInv(requests, trace, actions, k);
    assert Step(requests, trace[k], actions[k], trace[k + 1]);
    StepAllocatesExactly(requests, trace[k], actions[k], trace[k + 1], i);
  }

  lemma OwnStep(requests: seq<Request>, sys: System, a: Action, next: System, i: nat)
    requires Inv(requests, sys) && Step(requests, sys, a, next)
    requires i < |requests| && sys.phases[i] != next.phases[i]
    ensures !sys.phases[i].Done? && !sys.phases[i].Failed? && !sys.phases[i].Aborted?
    ensures !next.phases[i].Done? ==> next.db == sys.db
  {
  }

  lemma StepAllocatesExactly(requests: seq<Request>, sys: System, a: Action, next: System, i: nat)
    requires Inv(requests, sys) && Step(requests, sys, a, next)
    requires i < |requests| && sys.phases[i] != next.phases[i]
    ensures var db, r := sys.db, requests[i];
            match next.phases[i]
            case Done =>
              (forall n: nat :: n < 5 ==> Requirement(n, db, r)) &&
              next.db == Db(db.licenses, db.assignments[r.newId := Assignment(r.license, r.user, true)])
            case Failed(reason) =>
              next.db == db &&
              exists n: nat :: n < 5 && reason == Refusal(n) && !Requirement(n, db, r) &&
                               forall m: nat :: m < n ==> Requirement(m, db, r)
            case _ => next.db == db
  {
    OwnStep(requests, sys, a, next, i);
    FinishesAsIfAlone(requests, sys, a, next, i);
    var r := requests[i];
    AllocationExactly(sys.db, r);
    if next.phases[i].Failed? { FailureNames(sys.db, r, next.phases[i].reason); }
  }

  lemma FailureNames(db: Db, r: Request, reason: Reason)
    requires r.newId !in db.assignments && Assign(db, r) == Rejected(reason)
    ensures exists n: nat :: n < 5 && reason == Refusal(n) && !Requirement(n, db, r) &&
                             forall m: nat :: m < n ==> Requirement(m, db, r)
  {
    AllocationExactly(db, r);
    var n: nat := if reason.NotFound? then 0 else if reason.WrongOrganization? then 1 else if reason.NotActive? then 2
                  else if reason.AlreadySeated? then 3 else 4;
    assert reason == Refusal(n);
  }

  /** Revoking seats deactivates exactly those: every other assignment and every license stays as it is, the
      seats come free again, and their holders may be seated anew. */
  lemma RevocationFreesSeats(db: Db, ids: set<int>, license: int)
    requires ids <= db.assignments.Keys
    ensures var after := Revoked(db, ids);
            && after.licenses == db.licenses && after.assignments.Keys == db.assignments.Keys
            && (forall id :: id in db.assignments ==>
                  after.assignments[id].license == db.assignments[id].license &&
                  after.assignments[id].user == db.assignments[id].user &&
                  (after.assignments[id].active <==> db.assignments[id].active && id !in ids))
            && |Taken(after.assignments, license)| ==
               |Taken(db.assignments, license)| - |Taken(db.assignments, license) * ids|
  {
    var before, after := Taken(db.assignments, license), Taken(Revoked(db, ids).assignments, license);
    assert after == before - ids;
    assert before == (before - ids) + (before * ids);
  }

  /** A revoked seat can be given out again, to the same user too. */
  lemma RevokedSeatIsFree(db: Db, id: int, r: Request)
    requires NoDoubleSeat(db) && id in db.assignments && db.assignments[id] == Assignment(r.license, r.user, true)
    requires Within(db, r.license) && r.newId !in db.assignments && Requirement(1, db, r) && Requirement(2, db, r)
    ensures Assign(db, r) == Rejected(AlreadySeated)
    ensures Assign(Revoked(db, {id}), r).Assigned?
  {
    AllocationExactly(db, r);
    var after := Revoked(db, {id});
    RevocationFreesSeats(db, {id}, r.license);
    TableViews(db, r.license, r.user);
    assert Taken(db.assignments, r.license) * {id} == {id};
    assert HoldsSeat(db.assignments, r.license, r.user);
    assert !Requirement(3, db, r) && forall m: nat :: m < 3 ==> Requirement(m, db, r);
    AllocationExactly(after, r);
    assert !HoldsSeat(after.assignments, r.license, r.user);
    assert forall n: nat :: n < 5 ==> Requirement(n, after, r);
  }

  // ---- Members who leave ----

  /** The user has premium access through some seat: an active one on a license that is active and not expired. */
  ghost predicate EntitledBy(db: Db, user: int, license: int, unexpired: set<int>) {
    license in db.licenses && db.licenses[license].status == "active" && license in unexpired &&
    HoldsSeat(db.assignments, license, user)
  }

  /** What a member who leaves keeps, exactly: on the organization's licenses an active seat survives if and
      only if its license was not active, or expired, at that moment; other users and other organizations
      are untouched. */
  lemma LeavingExactly(db: Db, organization: int, user: int, unexpired: set<int>, license: int, other: int)
    requires license in db.licenses
    ensures var after := Revoked(db, MemberSeats(db, organization, user, unexpired));
            var own := db.licenses[license].organization == organization;
            && after.licenses == db.licenses
            && (HoldsSeat(after.assignments, license, user) <==>
                HoldsSeat(db.assignments, license, user) &&
                !(own && db.licenses[license].status == "active" && license in unexpired))
            && (other != user ==>
                  (HoldsSeat(after.assignments, license, other) <==> HoldsSeat(db.assignments, license, other)))
            && (own ==> !EntitledBy(after, user, license, unexpired))
  {
    var after := Revoked(db, MemberSeats(db, organization, user, unexpired));
    forall u, id | id in db.assignments && db.assignments[id].license == license && db.assignments[id].user == u &&
                   db.assignments[id].active && id !in MemberSeats(db, organization, user, unexpired)
      ensures HoldsSeat(after.assignments, license, u)
    {
      assert after.assignments[id] == db.assignments[id];
    }
  }

  /** So access can come back to a member who left: if their seat was on a license that was not active when
      they left, they are entitled again as soon as that license is, with no new allocation. */
  lemma LeaverEntitledAgain(db: Db, organization: int, user: int, unexpired: set<int>, license: int, row: License)
    requires license in db.licenses && db.licenses[license].organization == organization == row.organization
    requires HoldsSeat(db.assignments, license, user) && license in unexpired
    requires row.status == "active"
    ensures var left := Revoked(db, MemberSeats(db, organization, user, unexpired));
            EntitledBy(left.(licenses := left.licenses[license := row]), user, license, unexpired) <==>
            db.licenses[license].status != "active"
  {
    LeavingExactly(db, organization, user, unexpired, license, user);
  }
}
