/** Concurrent requests on one session under optimistic versioning
    (backend/app/modules/runtime/service.py, backend/app/db/base.py). Each request reads the row,
    computes on a private copy and flushes; an UPDATE succeeds only while the row still has the version
    that was read. */
module SessionConcurrency {
  import opened Wrappers
  import opened Effects
  import opened Definition
  import opened EngineSafety
  import opened Sessions

  /** Where a request stands. `at` counts the updates committed when it read the row. */
  datatype Phase =
    | Waiting
    | Loaded(seen: Store, at: nat)
    | Updated(position: nat)   // its UPDATE is the position-th of the session
    | ReadOnly(at: nat)        // it succeeded without an UPDATE
    | Refused(seen: Store, at: nat, reason: Refusal)
    | Conflict(at: nat)        // StaleDataError, answered with 409

  /** `history` lists the committed rows, oldest first; `log` the requests whose updates produced them. */
  datatype System = System(
    row: Row, saves: map<int, SavePoint>, phases: seq<Phase>, history: seq<Row>, log: seq<nat>)

  /** The row a request wants to write, apart from its version, is the row it read: nothing to update. */
  predicate NothingDirty(seen: Row, written: Row) {
    written.(version := seen.version) == seen
  }

  ghost predicate LoadStep(sys: System, i: nat, next: System) {
    i < |sys.phases| && sys.phases[i].Waiting? &&
    next == sys.(phases := sys.phases[i := Loaded(Store(sys.row, sys.saves), |sys.log|)])
  }

  /** The request's flush and commit, as one atomic step. */
  ghost predicate FlushStep(d: GameDefinition, me: int, requests: seq<Timed>, sys: System, i: nat, next: System)
    requires |sys.phases| == |requests|
  {
    i < |sys.phases| && sys.phases[i].Loaded? &&
    var seen, at := sys.phases[i].seen, sys.phases[i].at;
    match Serve(d, me, seen, requests[i].request, requests[i].now)
    case Refuses(reason) => next == sys.(phases := sys.phases[i := Refused(seen, at, reason)])
    case Saves(id, save) =>
      // an INSERT of a fresh row; the session row is not dirty
      id !in sys.saves && next == sys.(saves := sys.saves[id := save], phases := sys.phases[i := ReadOnly(at)])
    case Writes(row) =>
      || (sys.row.version == seen.row.version &&
          next == sys.(row := row, history := sys.history + [row], log := sys.log + [i],
                       phases := sys.phases[i := Updated(|sys.log|)]))
      || (sys.row.version != seen.row.version && next == sys.(phases := sys.phases[i := Conflict(at)]))
      || (NothingDirty(seen.row, row) && next == sys.(phases := sys.phases[i := ReadOnly(at)]))
  }

  ghost predicate Step(d: GameDefinition, me: int, requests: seq<Timed>, sys: System, next: System)
    requires |sys.phases| == |requests|
  {
    exists i: nat :: LoadStep(sys, i, next) || FlushStep(d, me, requests, sys, i, next)
  }

  /** A schedule: any interleaving of loads and flushes. */
  ghost predicate Execution(d: GameDefinition, me: int, requests: seq<Timed>, trace: seq<System>)
  {
    |trace| > 0 && trace[0].log == [] && trace[0].history == [trace[0].row] &&
    trace[0].phases == seq(|requests|, i => Waiting) &&
    (forall k :: 0 <= k < |trace| ==> |trace[k].phases| == |requests|) &&
    forall k :: 0 <= k < |trace| - 1 ==> Step(d, me, requests, trace[k], trace[k + 1])
  }

  // ---- The invariant ----

  predicate Extends(small: map<int, SavePoint>, big: map<int, SavePoint>) {
    forall id :: id in small ==> id in big && big[id] == small[id]
  }

  /** `seen` was the state of the tables after `at` updates. */
  ghost predicate Snapshot(sys: System, seen: Store, at: nat) {
    at < |sys.history| && seen.row == sys.history[at] && Extends(seen.saves, sys.saves)
  }

  /** What is known of one request. */
  ghost predicate PhaseOk(d: GameDefinition, me: int, requests: seq<Timed>, sys: System, i: nat)
    requires i < |requests| == |sys.phases|
  {
    var request, now := requests[i].request, requests[i].now;
    match sys.phases[i]
    case Waiting => true
    case Loaded(seen, at) => Snapshot(sys, seen, at)
    case Updated(position) => position < |sys.log| && sys.log[position] == i
    case ReadOnly(at) =>
      at < |sys.history| &&
      (if request.SaveRequest?
       then request.id in sys.saves && sys.saves[request.id] == SavePoint(me, sys.history[at].state)
       else ServedAt(d, me, sys, requests[i], at) &&
            NothingDirty(sys.history[at], WrittenAt(d, me, sys, requests[i], at)))
    case Refused(seen, at, reason) => Snapshot(sys, seen, at) && Serve(d, me, seen, request, now) == Refuses(reason)
    case Conflict(at) => at < |sys.log|
  }

  /** Request `t`, served alone on the `at`-th committed row, writes the row. */
  predicate ServedAt(d: GameDefinition, me: int, sys: System, t: Timed, at: nat)
    requires at < |sys.history|
  {
    Serve(d, me, Store(sys.history[at], sys.saves), t.request, t.now).Writes?
  }

  function WrittenAt(d: GameDefinition, me: int, sys: System, t: Timed, at: nat): Row
    requires at < |sys.history| && ServedAt(d, me, sys, t, at)
  {
    Serve(d, me, Store(sys.history[at], sys.saves), t.request, t.now).row
  }

  ghost predicate LogEntryOk(d: GameDefinition, me: int, requests: seq<Timed>, sys: System, k: nat)
    requires k < |sys.log| && |sys.history| == |sys.log| + 1 && |sys.phases| == |requests|
  {
    sys.log[k] < |requests| && sys.phases[sys.log[k]] == Updated(k) &&
    ServedAt(d, me, sys, requests[sys.log[k]], k) &&
    sys.history[k + 1] == WrittenAt(d, me, sys, requests[sys.log[k]], k)
  }

  ghost predicate Inv(d: GameDefinition, me: int, requests: seq<Timed>, sys: System) {
    && |sys.phases| == |requests| && |sys.history| == |sys.log| + 1 && sys.history[|sys.log|] == sys.row
    && (forall k :: 0 <= k < |sys.history| ==> sys.history[k].version == sys.history[0].version + k)
    && (forall k :: 0 <= k < |sys.log| ==> LogEntryOk(d, me, requests, sys, k))
    && (forall i :: 0 <= i < |requests| ==> PhaseOk(d, me, requests, sys, i))
  }

  /** Adding save points never changes what an update request writes. */
  lemma MoreSaves(d: GameDefinition, me: int, row: Row, small: map<int, SavePoint>, big: map<int, SavePoint>, t: Timed)
    requires Extends(small, big) && Serve(d, me, Store(row, small), t.request, t.now).Writes?
    ensures Serve(d, me, Store(row, big), t.request, t.now) == Serve(d, me, Store(row, small), t.request, t.now)
  {
  }

  /** Growing the save table and the history, and moving request `i` to a new phase, keeps what is
      known about everyone else. */
  ghost predicate Grows(sys: System, next: System, i: nat) {
    && i < |sys.phases| == |next.phases| && |sys.history| == |sys.log| + 1 && |next.history| == |next.log| + 1
    && Extends(sys.saves, next.saves)
    && sys.log <= next.log && sys.history <= next.history
    && forall j :: 0 <= j < |sys.phases| && j != i ==> next.phases[j] == sys.phases[j]
  }

  lemma OthersKept(d: GameDefinition, me: int, requests: seq<Timed>, sys: System, next: System, i: nat, j: nat)
    requires Inv(d, me, requests, sys) && Grows(sys, next, i) && j < |requests| && j != i
    ensures PhaseOk(d, me, requests, next, j)
  {
    assert PhaseOk(d, me, requests, sys, j);
    if sys.phases[j].ReadOnly? && !requests[j].request.SaveRequest? {
      MoreSaves(d, me, sys.history[sys.phases[j].at], sys.saves, next.saves, requests[j]);
    }
  }

  lemma LogKept(d: GameDefinition, me: int, requests: seq<Timed>, sys: System, next: System, i: nat, k: nat)
    requires Inv(d, me, requests, sys) && Grows(sys, next, i) && !sys.phases[i].Updated? && k < |sys.log|
    ensures LogEntryOk(d, me, requests, next, k)
  {
    assert LogEntryOk(d, me, requests, sys, k);
    MoreSaves(d, me, sys.history[k], sys.saves, next.saves, requests[sys.log[k]]);
  }

  lemma LoadKeepsInv(d: GameDefinition, me: int, requests: seq<Timed>, sys: System, i: nat, next: System)
    requires Inv(d, me, requests, sys) && LoadStep(sys, i, next)
    ensures Inv(d, me, requests, next)
  {
    assert Grows(sys, next, i);
    forall j | 0 <= j < |requests| ensures PhaseOk(d, me, requests, next, j) {
      if j != i { OthersKept(d, me, requests, sys, next, i, j); }
    }
    forall k | 0 <= k < |sys.log| ensures LogEntryOk(d, me, requests, next, k) {
      LogKept(d, me, requests, sys, next, i, k);
    }
  }

  lemma FlushKeepsInv(d: GameDefinition, me: int, requests: seq<Timed>, sys: System, i: nat, next: System)
    requires Inv(d, me, requests, sys) && FlushStep(d, me, requests, sys, i, next)
    ensures Inv(d, me, requests, next)
  {
    assert PhaseOk(d, me, requests, sys, i);
    var seen, at := sys.phases[i].seen, sys.phases[i].at;
    var served := Serve(d, me, seen, requests[i].request, requests[i].now);
    assert Grows(sys, next, i);
    if served.Writes? {
      MoreSaves(d, me, seen.row, seen.saves, next.saves, requests[i]);
      // equal versions mean nothing was committed since the read
      assert sys.row.version == seen.row.version <==> at == |sys.log|;
    }
    forall j | 0 <= j < |requests| ensures PhaseOk(d, me, requests, next, j) {
      if j != i { OthersKept(d, me, requests, sys, next, i, j); }
    }
    forall k | 0 <= k < |next.log| ensures LogEntryOk(d, me, requests, next, k) {
      if k < |sys.log| { LogKept(d, me, requests, sys, next, i, k); }
    }
  }

  lemma {:induction false} ExecutionKeepsInv(d: GameDefinition, me: int, requests: seq<Timed>, trace: seq<System>)
    requires Execution(d, me, requests, trace)
    ensures Inv(d, me, requests, trace[|trace| - 1])
    decreases |trace|
  {
    if |trace| > 1 {
      var front := trace[..|trace| - 1];
      ExecutionKeepsInv(d, me, requests, front);
      var sys, next := trace[|trace| - 2], trace[|trace| - 1];
      assert Step(d, me, requests, trace[|trace| - 2], trace[|trace| - 2 + 1]);
      var i: nat :| LoadStep(sys, i, next) || FlushStep(d, me, requests, sys, i, next);
      if LoadStep(sys, i, next) {
        LoadKeepsInv(d, me, requests, sys, i, next);
      } else {
        FlushKeepsInv(d, me, requests, sys, i, next);
      }
    }
  }

  // ---- The serial order ----

  /** The requests served one after another, each on the row the previous one left. */
  function Serially(d: GameDefinition, me: int, row: Row, saves: map<int, SavePoint>, requests: seq<Timed>): Row {
    if requests == [] then row
    else
      var before := Serially(d, me, row, saves, requests[..|requests| - 1]);
      var served := Serve(d, me, Store(before, saves), requests[|requests| - 1].request, requests[|requests| - 1].now);
      if served.Writes? then served.row else before
  }

  function Logged(requests: seq<Timed>, log: seq<nat>): seq<Timed>
    requires forall k :: 0 <= k < |log| ==> log[k] < |requests|
  {
    seq(|log|, k requires 0 <= k < |log| => requests[log[k]])
  }

  lemma {:induction false} HistoryIsSerial(d: GameDefinition, me: int, requests: seq<Timed>, sys: System, n: nat)
    requires Inv(d, me, requests, sys) && n <= |sys.log|
    requires forall k :: 0 <= k < |sys.log| ==> sys.log[k] < |requests|
    ensures sys.history[n] == Serially(d, me, sys.history[0], sys.saves, Logged(requests, sys.log)[..n])
  {
    if n > 0 {
      HistoryIsSerial(d, me, requests, sys, n - 1);
      assert LogEntryOk(d, me, requests, sys, n - 1);
      assert Logged(requests, sys.log)[..n][..n - 1] == Logged(requests, sys.log)[..n - 1];
    }
  }

  /** No lost update: under every interleaving the session row is what a serial run of exactly the
      successful updates produces, in commit order, each of them once. A request that conflicted was
      truly overtaken by another update; a refused one is refused by the engine on the very row it
      read; and a save point holds a document that was committed. */
  lemma UpdatesAreSerializable(d: GameDefinition, me: int, requests: seq<Timed>, trace: seq<System>)
    requires Execution(d, me, requests, trace)
    ensures var sys := trace[|trace| - 1];
            && Inv(d, me, requests, sys)
            && (forall k :: 0 <= k < |sys.log| ==> sys.log[k] < |requests|)
            && sys.row == Serially(d, me, trace[0].row, sys.saves, Logged(requests, sys.log))
            && Distinct(sys.log)
            && (forall i :: 0 <= i < |requests| ==> (i in sys.log <==> sys.phases[i].Updated?))
            && (forall i :: 0 <= i < |requests| && sys.phases[i].Conflict? ==> sys.phases[i].at < |sys.log|)
  {
    ExecutionKeepsInv(d, me, requests, trace);
    var sys := trace[|trace| - 1];
    forall k | 0 <= k < |sys.log| ensures sys.log[k] < |requests| && sys.phases[sys.log[k]] == Updated(k) {
      assert LogEntryOk(d, me, requests, sys, k);
    }
    HistoryOrigin(d, me, requests, trace);
    HistoryIsSerial(d, me, requests, sys, |sys.log|);
    assert Logged(requests, sys.log)[..|sys.log|] == Logged(requests, sys.log);
    forall i | 0 <= i < |requests| ensures i in sys.log <==> sys.phases[i].Updated? {
      assert PhaseOk(d, me, requests, sys, i);
    }
    forall i | 0 <= i < |requests| && sys.phases[i].Conflict? ensures sys.phases[i].at < |sys.log| {
      assert PhaseOk(d, me, requests, sys, i);
    }
  }

  // ---- Soundness under concurrency ----

  /** Each committed row, with the saves committed by now, keeps the invariant of sequential sessions. */
  ghost predicate AllSound(d: GameDefinition, me: int, numeric: set<string>, typed: bool, sys: System) {
    forall k :: 0 <= k < |sys.history| ==> StoreInv(d, me, numeric, typed, Store(sys.history[k], sys.saves))
  }

  lemma SnapshotSound(
      d: GameDefinition, me: int, numeric: set<string>, typed: bool, sys: System, seen: Store, at: nat)
    requires AllSound(d, me, numeric, typed, sys) && Snapshot(sys, seen, at)
    ensures StoreInv(d, me, numeric, typed, seen)
  {
    assert StoreInv(d, me, numeric, typed, Store(sys.history[at], sys.saves));
  }

  /** Committing a sound outcome beside any other sound row. */
  lemma CommitBeside(
      d: GameDefinition, me: int, numeric: set<string>, typed: bool, seen: Store, served: Served, row: Row,
      saves: map<int, SavePoint>)
    requires StoreInv(d, me, numeric, typed, Commit(seen, served)) && StoreInv(d, me, numeric, typed, Store(row, saves))
    ensures StoreInv(d, me, numeric, typed, Commit(Store(row, saves), served))
  {
    match served {
      case Writes(_) =>
      case Saves(id, save) => assert Commit(seen, served).saves[id] == save;
      case Refuses(_) =>
    }
  }

  ghost predicate GracefulRefusals(typed: bool, sys: System) {
    forall i :: 0 <= i < |sys.phases| && sys.phases[i].Refused? ==> Graceful(typed, Refuses(sys.phases[i].reason))
  }

  /** A flush moves its own phase only, and refuses only what was refused to it. */
  lemma FlushRefusals(d: GameDefinition, me: int, typed: bool, requests: seq<Timed>, sys: System, i: nat, next: System)
    requires |sys.phases| == |requests| && FlushStep(d, me, requests, sys, i, next) && GracefulRefusals(typed, sys)
    requires Graceful(typed, Serve(d, me, sys.phases[i].seen, requests[i].request, requests[i].now))
    ensures GracefulRefusals(typed, next)
  {
  }

  /** What a flush leaves in the history and the save table. */
  lemma FlushCommits(d: GameDefinition, me: int, requests: seq<Timed>, sys: System, i: nat, next: System)
    requires |sys.phases| == |requests| && FlushStep(d, me, requests, sys, i, next)
    ensures var served := Serve(d, me, sys.phases[i].seen, requests[i].request, requests[i].now);
            (next.saves == sys.saves || (served.Saves? && next.saves == sys.saves[served.id := served.save])) &&
            (next.history == sys.history || (served.Writes? && next.history == sys.history + [served.row] &&
                                             next.saves == sys.saves))
  {
  }

  lemma FlushKeepsSound(
      d: GameDefinition, me: int, numeric: set<string>, typed: bool, requests: seq<Timed>, sys: System, i: nat,
      next: System, served: Served)
    requires |sys.phases| == |requests| && |sys.history| > 0 && FlushStep(d, me, requests, sys, i, next)
    requires AllSound(d, me, numeric, typed, sys)
    requires served == Serve(d, me, sys.phases[i].seen, requests[i].request, requests[i].now)
    requires StoreInv(d, me, numeric, typed, Commit(sys.phases[i].seen, served))
    ensures AllSound(d, me, numeric, typed, next)
  {
    FlushCommits(d, me, requests, sys, i, next);
    forall k | 0 <= k < |next.history| ensures StoreInv(d, me, numeric, typed, Store(next.history[k], next.saves)) {
      var j := if k < |sys.history| then k else 0;
      assert StoreInv(d, me, numeric, typed, Store(sys.history[j], sys.saves));
      CommitBeside(d, me, numeric, typed, sys.phases[i].seen, served, sys.history[j], sys.saves);
    }
  }

  lemma LoadKeepsSound(d: GameDefinition, me: int, numeric: set<string>, typed: bool, sys: System, i: nat, next: System)
    requires AllSound(d, me, numeric, typed, sys) && GracefulRefusals(typed, sys) && LoadStep(sys, i, next)
    ensures AllSound(d, me, numeric, typed, next) && GracefulRefusals(typed, next)
  {
    assert next.history == sys.history && next.saves == sys.saves;
  }

  lemma StepKeepsSound(
      d: GameDefinition, me: int, numeric: set<string>, typed: bool, requests: seq<Timed>, sys: System, i: nat,
      next: System)
    requires Accepted(d) && (typed ==> WellTyped(d, numeric)) && |sys.phases| == |requests| && |sys.history| > 0
    requires AllSound(d, me, numeric, typed, sys) && GracefulRefusals(typed, sys)
    requires FlushStep(d, me, requests, sys, i, next) && Snapshot(sys, sys.phases[i].seen, sys.phases[i].at)
    ensures AllSound(d, me, numeric, typed, next) && GracefulRefusals(typed, next)
  {
    var seen, t := sys.phases[i].seen, requests[i];
    SnapshotSound(d, me, numeric, typed, sys, seen, sys.phases[i].at);
    ServeKeepsInv(d, me, numeric, typed, seen, t.request, t.now);
    FlushKeepsSound(d, me, numeric, typed, requests, sys, i, next, Serve(d, me, seen, t.request, t.now));
    FlushRefusals(d, me, typed, requests, sys, i, next);
  }

  /** The sequential soundness theorem survives concurrency: in every interleaving each committed row and
      save satisfies the reachable-state invariant, and no request is refused because the interpreter
      broke. */
  lemma {:induction false} CommittedStatesAreSound(
      d: GameDefinition, me: int, numeric: set<string>, typed: bool, requests: seq<Timed>, trace: seq<System>)
    requires Accepted(d) && (typed ==> WellTyped(d, numeric)) && Execution(d, me, requests, trace)
    requires StoreInv(d, me, numeric, typed, Store(trace[0].row, trace[0].saves))
    ensures AllSound(d, me, numeric, typed, trace[|trace| - 1]) && GracefulRefusals(typed, trace[|trace| - 1])
    decreases |trace|
  {
    if |trace| > 1 {
      var front := trace[..|trace| - 1];
      CommittedStatesAreSound(d, me, numeric, typed, requests, front);
      ExecutionKeepsInv(d, me, requests, front);
      assert Step(d, me, requests, trace[|trace| - 2], trace[|trace| - 2 + 1]);
      var sys, next := trace[|trace| - 2], trace[|trace| - 1];
      var i: nat :| LoadStep(sys, i, next) || FlushStep(d, me, requests, sys, i, next);
      if LoadStep(sys, i, next) {
        LoadKeepsSound(d, me, numeric, typed, sys, i, next);
      } else {
        assert PhaseOk(d, me, requests, sys, i);
        StepKeepsSound(d, me, numeric, typed, requests, sys, i, next);
      }
    }
  }

  // ---- Restores under concurrency ----

  ghost predicate NoOwnSaves(me: int, saves: map<int, SavePoint>) {
    forall id :: id in saves ==> saves[id].session != me
  }

  /** `s` is the document of a committed row. */
  ghost predicate InHistory(sys: System, s: GameState) {
    exists k: nat :: k < |sys.history| && s == sys.history[k].state
  }

  ghost predicate SavesInHistory(me: int, sys: System) {
    forall id :: id in sys.saves && sys.saves[id].session == me ==> InHistory(sys, sys.saves[id].state)
  }

  /** A logged restore went back to the document of an earlier committed row. */
  ghost predicate RestoresEarlier(requests: seq<Timed>, sys: System, n: nat)
    requires n < |sys.log| && |sys.history| == |sys.log| + 1
  {
    sys.log[n] < |requests| && requests[sys.log[n]].request.RestoreRequest? ==>
      exists k: nat :: k <= n && sys.history[n + 1].state == sys.history[k].state
  }

  ghost predicate RewindsToHistory(me: int, requests: seq<Timed>, sys: System) {
    |sys.history| == |sys.log| + 1 && SavesInHistory(me, sys) &&
    forall n: nat {:trigger RestoresEarlier(requests, sys, n)} :: n < |sys.log| ==> RestoresEarlier(requests, sys, n)
  }

  /** A restore writes back the document of a save it read. */
  lemma RestoreWritesSave(d: GameDefinition, me: int, seen: Store, t: Timed)
    requires t.request.RestoreRequest? && Serve(d, me, seen, t.request, t.now).Writes?
    ensures t.request.id in seen.saves && seen.saves[t.request.id].session == me
    ensures Serve(d, me, seen, t.request, t.now).row.state == seen.saves[t.request.id].state
  {
  }

  lemma FlushKeepsSavesInHistory(
      d: GameDefinition, me: int, requests: seq<Timed>, sys: System, i: nat, next: System)
    requires |sys.phases| == |requests| && FlushStep(d, me, requests, sys, i, next)
    requires Snapshot(sys, sys.phases[i].seen, sys.phases[i].at) && SavesInHistory(me, sys)
    ensures SavesInHistory(me, next)
  {
    var seen, at := sys.phases[i].seen, sys.phases[i].at;
    FlushCommits(d, me, requests, sys, i, next);
    forall id | id in next.saves && next.saves[id].session == me
      ensures InHistory(next, next.saves[id].state)
    {
      if id in sys.saves && next.saves[id] == sys.saves[id] {
        var k: nat :| k < |sys.history| && sys.saves[id].state == sys.history[k].state;
        assert next.history[k] == sys.history[k];
      } else {
        assert next.saves[id].state == seen.row.state == next.history[at].state;
      }
    }
  }

  lemma FlushRewindsToHistory(
      d: GameDefinition, me: int, requests: seq<Timed>, sys: System, i: nat, next: System, n: nat)
    requires |sys.phases| == |requests| && FlushStep(d, me, requests, sys, i, next)
    requires Snapshot(sys, sys.phases[i].seen, sys.phases[i].at) && RewindsToHistory(me, requests, sys)
    requires n < |next.log| && |next.history| == |next.log| + 1
    ensures RestoresEarlier(requests, next, n)
  {
    if n < |sys.log| {
      assert RestoresEarlier(requests, sys, n);
      assert next.log[n] == sys.log[n] && next.history[..|sys.history|] == sys.history;
      assert forall k: nat :: k <= n + 1 ==> next.history[k] == sys.history[k];
    } else if requests[i].request.RestoreRequest? {
      var id := requests[i].request.id;
      RestoreWritesSave(d, me, sys.phases[i].seen, requests[i]);
      var k: nat :| k < |sys.history| && sys.saves[id].state == sys.history[k].state;
      assert next.history[n + 1].state == sys.saves[id].state && next.history[k] == sys.history[k];
    }
  }

  /** In every interleaving of a session that starts without saves, each save holds the document of a
      committed row, and each committed restore goes back to an earlier one. */
  lemma {:induction false} ExecutionRewindsToHistory(
      d: GameDefinition, me: int, requests: seq<Timed>, trace: seq<System>)
    requires Execution(d, me, requests, trace) && NoOwnSaves(me, trace[0].saves)
    ensures RewindsToHistory(me, requests, trace[|trace| - 1])
    decreases |trace|
  {
    if |trace| > 1 {
      var front := trace[..|trace| - 1];
      ExecutionRewindsToHistory(d, me, requests, front);
      ExecutionKeepsInv(d, me, requests, front);
      ExecutionKeepsInv(d, me, requests, trace);
      assert Step(d, me, requests, trace[|trace| - 2], trace[|trace| - 2 + 1]);
      var sys, next := trace[|trace| - 2], trace[|trace| - 1];
      var i: nat :| LoadStep(sys, i, next) || FlushStep(d, me, requests, sys, i, next);
      StepRewindsToHistory(d, me, requests, sys, i, next);
    }
  }

  lemma StepRewindsToHistory(d: GameDefinition, me: int, requests: seq<Timed>, sys: System, i: nat, next: System)
    requires Inv(d, me, requests, sys) && RewindsToHistory(me, requests, sys) && |next.history| == |next.log| + 1
    requires LoadStep(sys, i, next) || FlushStep(d, me, requests, sys, i, next)
    ensures RewindsToHistory(me, requests, next)
  {
    if LoadStep(sys, i, next) {
      assert next.history == sys.history && next.saves == sys.saves && next.log == sys.log;
      forall n: nat | n < |next.log| ensures RestoresEarlier(requests, next, n) {
        assert RestoresEarlier(requests, sys, n);
      }
      forall id | id in next.saves && next.saves[id].session == me
        ensures InHistory(next, next.saves[id].state)
      {
        assert InHistory(sys, sys.saves[id].state);
      }
    } else {
      assert PhaseOk(d, me, requests, sys, i);
      FlushKeepsSavesInHistory(d, me, requests, sys, i, next);
      forall n: nat | n < |next.log| ensures RestoresEarlier(requests, next, n) {
        FlushRewindsToHistory(d, me, requests, sys, i, next, n);
      }
    }
  }

  // ---- Where the history starts ----

  lemma {:induction false} HistoryOrigin(d: GameDefinition, me: int, requests: seq<Timed>, trace: seq<System>)
    requires Execution(d, me, requests, trace)
    ensures |trace[|trace| - 1].history| > 0 && trace[|trace| - 1].history[0] == trace[0].row
    decreases |trace|
  {
    if |trace| > 1 {
      HistoryOrigin(d, me, requests, trace[..|trace| - 1]);
      assert Step(d, me, requests, trace[|trace| - 2], trace[|trace| - 2 + 1]);
    }
  }
}
