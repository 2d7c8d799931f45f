/** Session rows, save points and the service methods that drive the engine over them
    (backend/app/modules/runtime/service.py). */
module Sessions {
  import opened Wrappers
  import opened Effects
  import opened Definition
  import opened Engine
  import opened EngineSafety
  import Progress

  /** One row of game_sessions, optimistic-lock version included. */
  datatype Row = Row(state: GameState, status: Status, endingId: Option<string>, completedAt: Option<int>, version: nat)

  datatype SavePoint = SavePoint(session: int, state: GameState)

  /** The tables one session touches. Save ids are chosen fresh by the caller. */
  datatype Store = Store(row: Row, saves: map<int, SavePoint>)

  datatype Request = PlayRequest(move: Move) | SaveRequest(id: int) | RestoreRequest(id: int)

  datatype Refusal = ByEngine(error: Failure) | SaveNotFound | SaveExists

  datatype Served = Writes(row: Row) | Saves(id: int, save: SavePoint) | Refuses(reason: Refusal)

  /** `_persist`: store the document and mirror its completion into the row. */
  function Persist(row: Row, state: GameState, now: int): Row {
    var finishing := state.status.Completed? && row.status != state.status;
    Row(state, state.status,
        if finishing then state.endingId else row.endingId,
        if finishing then Some(now) else row.completedAt,
        row.version + 1)
  }

  /** `restore_save` copies the completion fields by hand before persisting. */
  function Restored(row: Row, saved: GameState, now: int): Row {
    Persist(row.(status := saved.status, endingId := saved.endingId,
                 completedAt := if saved.status.Active? then None else row.completedAt),
            saved, now)
  }

  /** What a request does with the tables it reads. */
  function Serve(d: GameDefinition, me: int, st: Store, request: Request, now: int): Served {
    match request
    case PlayRequest(m) =>
      (match Play(d, st.row.state, m)
       case Done(s, _) => Writes(Persist(st.row, s, now))
       case Raised(error, _) => Refuses(ByEngine(error)))
    case SaveRequest(id) =>
      if id in st.saves then Refuses(SaveExists) else Saves(id, SavePoint(me, st.row.state))
    case RestoreRequest(id) =>
      if id !in st.saves || st.saves[id].session != me then Refuses(SaveNotFound)
      else Writes(Restored(st.row, st.saves[id].state, now))
  }

  function Commit(st: Store, served: Served): Store {
    match served
    case Writes(row) => st.(row := row)
    case Saves(id, save) => st.(saves := st.saves[id := save])
    case Refuses(_) => st
  }

  /** `start_session` on a fresh game. */
  function StartRow(state: GameState): Row { Row(state, Active, None, None, 1) }

  // ---- The service ----

  class GameSession {
    var state: GameState
    var status: Status
    var endingId: Option<string>
    var completedAt: Option<int>
    var version: nat

    function Value(): Row
      reads this
    {
      Row(state, status, endingId, completedAt, version)
    }

    constructor (state: GameState)
      ensures Value() == StartRow(state)
    {
      this.state, status, endingId, completedAt, version := state, Active, None, None, 1;
    }

    /** `_persist`, with the version bump the flush performs. */
    method PersistState(s: GameState, now: int)
      modifies this
      ensures Value() == Persist(old(Value()), s, now)
    {
      state := s;
      if s.status == Completed && status != s.status {
        completedAt := Some(now);
        endingId := s.endingId;
      }
      status := s.status;
      version := version + 1;
    }
  }

  class RuntimeService {
    const defn: GameDefinition
    const me: int
    const session: GameSession
    var saves: map<int, SavePoint>

    function Tables(): Store
      reads this, session
    {
      Store(session.Value(), saves)
    }

    constructor (defn: GameDefinition, me: int, session: GameSession, saves: map<int, SavePoint>)
      ensures this.defn == defn && this.me == me && this.session == session && this.saves == saves
    {
      this.defn, this.me, this.session, this.saves := defn, me, session, saves;
    }

    /** The engine runs on a deep copy: a raised call leaves the row exactly as it was. */
    method PlayMove(m: Move, now: int) returns (events: seq<Event>, refusal: Option<Refusal>)
      modifies session
      ensures var served := Serve(defn, me, old(Tables()), PlayRequest(m), now);
              Tables() == Commit(old(Tables()), served) &&
              (refusal == if served.Refuses? then Some(served.reason) else None) &&
              (refusal.None? ==> events == Play(defn, old(session.state), m).events)
    {
      var state := new StateDocument(session.state);
      var failure;
      match m {
        case MoveAdvance => events, failure := AdvanceInPlace(defn, state);
        case MoveChoose(element, option) => events, failure := ChooseInPlace(defn, state, element, option);
        case MoveAnswer(element, response) => events, failure := AnswerInPlace(defn, state, element, response);
      }
      if failure.Some? {
        return [], Some(ByEngine(failure.value));
      }
      session.PersistState(state.Value(), now);
      refusal := None;
    }

    method CreateSave(id: int) returns (refusal: Option<Refusal>)
      modifies this
      ensures var served := Serve(defn, me, old(Tables()), SaveRequest(id), 0);
              Tables() == Commit(old(Tables()), served) &&
              (refusal == if served.Refuses? then Some(served.reason) else None)
    {
      if id in saves {
        return Some(SaveExists);
      }
      saves := saves[id := SavePoint(me, session.state)];
      refusal := None;
    }

    method RestoreSave(id: int, now: int) returns (refusal: Option<Refusal>)
      modifies session
      ensures var served := Serve(defn, me, old(Tables()), RestoreRequest(id), now);
              Tables() == Commit(old(Tables()), served) &&
              (refusal == if served.Refuses? then Some(served.reason) else None)
    {
      if id !in saves || saves[id].session != me {
        return Some(SaveNotFound);
      }
      var restored := saves[id].state;
      session.status := restored.status;
      session.endingId := restored.endingId;
      if session.status == Active {
        session.completedAt := None;
      }
      session.PersistState(restored, now);
      refusal := None;
    }
  }

  // ---- What every run keeps ----

  /** The row mirrors its document, and a completion time only ever stands on a completed row. */
  ghost predicate RowInv(d: GameDefinition, row: Row) {
    StateInv(d, row.state) && row.status == row.state.status && row.endingId == row.state.endingId &&
    (row.completedAt.Some? ==> row.status.Completed?)
  }

  /** The row and every save of this session are in the document invariant (and, when typed, hold no
      string in an incremented variable). */
  ghost predicate StoreInv(d: GameDefinition, me: int, numeric: set<string>, typed: bool, st: Store) {
    && RowInv(d, st.row)
    && (typed ==> VarsOk(numeric, st.row.state.variables))
    && forall id :: id in st.saves && st.saves[id].session == me ==>
         StateInv(d, st.saves[id].state) && (typed ==> VarsOk(numeric, st.saves[id].state.variables))
  }

  /** The interpreter never breaks: no failed lookup, no bad config, no string arithmetic. */
  ghost predicate Graceful(typed: bool, served: Served) {
    served.Refuses? && served.reason.ByEngine? ==>
      !served.reason.error.KeyError? && !served.reason.error.InvalidConfig? &&
      (typed ==> !served.reason.error.TypeError?)
  }

  lemma ServeKeepsInv(
      d: GameDefinition, me: int, numeric: set<string>, typed: bool, st: Store, request: Request, now: int)
    requires Accepted(d) && (typed ==> WellTyped(d, numeric)) && StoreInv(d, me, numeric, typed, st)
    ensures var served := Serve(d, me, st, request, now);
            StoreInv(d, me, numeric, typed, Commit(st, served)) && Graceful(typed, served)
  {
    if request.PlayRequest? {
      PlaySafe(d, st.row.state, request.move, numeric, typed);
    }
  }

  datatype Timed = Timed(request: Request, now: int)

  function Run(d: GameDefinition, me: int, st: Store, requests: seq<Timed>): Store {
    if requests == [] then st
    else
      var before := Run(d, me, st, requests[..|requests| - 1]);
      var last := requests[|requests| - 1];
      Commit(before, Serve(d, me, before, last.request, last.now))
  }

  /** Reachable-state invariant: a session started on an accepted definition stays sound under every
      run of moves, saves and restores, whatever other sessions' saves the table holds; and the next
      request, whatever it is, is served without breaking the interpreter. */
  lemma {:induction false} ReachableSessionsAreSound(
      d: GameDefinition, me: int, numeric: set<string>, typed: bool, others: map<int, SavePoint>,
      requests: seq<Timed>, next: Request, now: int)
    requires Accepted(d) && (typed ==> WellTyped(d, numeric)) && NewState(d).Done?
    requires forall id :: id in others ==> others[id].session != me
    ensures var st := Run(d, me, Store(StartRow(NewState(d).state), others), requests);
            StoreInv(d, me, numeric, typed, st) && Graceful(typed, Serve(d, me, st, next, now))
    decreases |requests|
  {
    var start := Store(StartRow(NewState(d).state), others);
    if requests == [] {
      NewStateSafe(d, numeric, typed);
      EffectsKeepPosition(BlankState(d).(sceneId := d.startScene, elementIndex := 0), d.scenes[d.startScene].onEnter);
    } else {
      var last := requests[|requests| - 1];
      ReachableSessionsAreSound(d, me, numeric, typed, others, requests[..|requests| - 1], last.request, last.now);
      ServeKeepsInv(d, me, numeric, typed, Run(d, me, start, requests[..|requests| - 1]), last.request, last.now);
    }
    ServeKeepsInv(d, me, numeric, typed, Run(d, me, start, requests), next, now);
  }

  /** A typed game always gets off the ground, so the theorem above applies to it unconditionally. */
  lemma TypedGamesStart(d: GameDefinition, numeric: set<string>)
    requires Accepted(d) && WellTyped(d, numeric)
    ensures NewState(d).Done?
  {
    NewStateSafe(d, numeric, true);
  }

  /** Exactly when a restore leaves a completion time: the save is of a completed game and the row
      still had one. A move, by contrast, always stamps the completion it causes. */
  lemma CompletionTimeExactly(d: GameDefinition, row: Row, saved: GameState, m: Move, now: int)
    requires RowInv(d, row)
    ensures Restored(row, saved, now).completedAt.Some? <==> saved.status.Completed? && row.completedAt.Some?
    ensures Play(d, row.state, m).Done? && Play(d, row.state, m).state.status.Completed? ==>
              Persist(row, Play(d, row.state, m).state, now).completedAt == Some(now)
  {
    if Play(d, row.state, m).Done? {
      assert row.status.Active?;
    }
  }

  /** So the mirror is not complete: going back to an active save and forward again to a completed one
      yields a completed session without a completion time, in every game. */
  lemma RestoringTwiceLosesTheTime(d: GameDefinition, me: int, st: Store, active: int, completed: int, t: int, u: int)
    requires active in st.saves && st.saves[active].session == me && st.saves[active].state.status.Active?
    requires completed in st.saves && st.saves[completed].session == me && st.saves[completed].state.status.Completed?
    ensures var end := Run(d, me, st, [Timed(RestoreRequest(active), t), Timed(RestoreRequest(completed), u)]);
            end.row.status.Completed? && end.row.completedAt.None?
  {
    var a, b := Timed(RestoreRequest(active), t), Timed(RestoreRequest(completed), u);
    assert [a, b][..1] == [a] && [a][..0] == [];
    assert Run(d, me, st, [a]).saves == st.saves;
  }

  // ---- Playing and saving ----

  /** Requests that are all moves. */
  function Playing(moves: seq<Move>, now: int): seq<Timed> {
    seq(|moves|, i requires 0 <= i < |moves| => Timed(PlayRequest(moves[i]), now))
  }

  /** The service adds nothing to the game and takes nothing from it: a session that is only played holds the
      document the interpreter alone would reach. */
  lemma {:induction false} PlayingIsDriving(d: GameDefinition, me: int, st: Store, moves: seq<Move>, now: int)
    ensures Run(d, me, st, Playing(moves, now)).row.state == Progress.Drive(d, st.row.state, moves)
    ensures Run(d, me, st, Playing(moves, now)).saves == st.saves
  {
    if moves != [] {
      var front := moves[..|moves| - 1];
      PlayingIsDriving(d, me, st, front, now);
      assert Playing(moves, now)[..|moves| - 1] == Playing(front, now);
    }
  }

  lemma {:induction false} SavesStay(d: GameDefinition, me: int, st: Store, requests: seq<Timed>, id: int)
    requires id in st.saves
    ensures id in Run(d, me, st, requests).saves && Run(d, me, st, requests).saves[id] == st.saves[id]
  {
    if requests != [] { SavesStay(d, me, st, requests[..|requests| - 1], id); }
  }

  lemma {:induction false} RunConcat(d: GameDefinition, me: int, st: Store, a: seq<Timed>, b: seq<Timed>)
    ensures Run(d, me, st, a + b) == Run(d, me, Run(d, me, st, a), b)
  {
    if b == [] {
      assert a + b == a;
    } else {
      RunConcat(d, me, st, a, b[..|b| - 1]);
      assert (a + b)[..|a + b| - 1] == a + b[..|b| - 1];
    }
  }

  lemma RunOne(d: GameDefinition, me: int, st: Store, t: Timed)
    ensures Run(d, me, st, [t]) == Commit(st, Serve(d, me, st, t.request, t.now))
  {
    assert [t][..0] == [];
  }

  /** Round trip: whatever happens after a save, further saves and restores included, restoring it brings
      back the very document that was saved, status and ending included, and the save can be used again.
      A save that is not there, or belongs to another session, changes nothing. */
  lemma RestoringUndoes(d: GameDefinition, me: int, st: Store, id: int, between: seq<Timed>, t: int, u: int)
    requires id !in st.saves && st.row.status == st.row.state.status && st.row.endingId == st.row.state.endingId
    requires st.row.state.status.Active? ==> st.row.state.endingId.None?
    ensures var end := Run(d, me, st, [Timed(SaveRequest(id), t)] + between + [Timed(RestoreRequest(id), u)]);
            end.row.state == st.row.state && end.row.status == st.row.status && end.row.endingId == st.row.endingId &&
            id in end.saves && end.saves[id] == SavePoint(me, st.row.state)
    ensures Serve(d, me, st, RestoreRequest(id), t) == Refuses(SaveNotFound)
    ensures forall other :: other in st.saves && st.saves[other].session != me ==>
              Serve(d, me, st, RestoreRequest(other), t) == Refuses(SaveNotFound)
    ensures forall other :: other in st.saves ==> Serve(d, me, st, SaveRequest(other), t) == Refuses(SaveExists)
  {
    var save, restore := Timed(SaveRequest(id), t), Timed(RestoreRequest(id), u);
    var saved := Run(d, me, st, [save]);
    RunOne(d, me, st, save);
    var mid := Run(d, me, saved, between);
    SavesStay(d, me, saved, between, id);
    RunConcat(d, me, st, [save], between);
    RunConcat(d, me, st, [save] + between, [restore]);
    RunOne(d, me, mid, restore);
  }
}
