/** Every session is a chronicle, whether its requests came one at a time or concurrently, and restores
    included; so the durable ledgers differ from what the sessions hold by exactly what was rewound
    (backend/app/modules/runtime/service.py). */
module RestoredLedgers {
  import opened Wrappers
  import opened Conditions
  import opened Effects
  import opened Definition
  import opened Engine
  import opened EngineSafety
  import opened Sessions
  import opened Accounts
  import opened Chronicles
  import PlayerLedgers
  import SessionConcurrency

  /** The events a request returns. */
  function Emits(d: GameDefinition, s: GameState, request: Request): seq<Event> {
    if !request.PlayRequest? then []
    else
      var step := Play(d, s, request.move);
      if step.Done? then step.events else []
  }

  /** Only a restore changes the document without accounting for it. */
  lemma ServeTracks(d: GameDefinition, me: int, st: Store, request: Request, now: int)
    requires Accepted(d) && StateInv(d, st.row.state) && !request.RestoreRequest?
    ensures Tracks(st.row.state, Emits(d, st.row.state, request),
                   Commit(st, Serve(d, me, st, request, now)).row.state)
  {
    if request.PlayRequest? && Play(d, st.row.state, request.move).Done? {
      PlayTracks(d, st.row.state, request.move);
    } else {
      NothingTracks(st.row.state, st.row.state);
    }
  }

  lemma FreshOpens(d: GameDefinition)
    requires Accepted(d) && NewState(d).Done?
    ensures Opens(NewState(d).events, NewState(d).state)
  {
    forall item ensures Net(NewState(d).events, item) == CountOf(NewState(d).state.inventory, item) {
      StreamAccountsForHoldings(d, []);
    }
    StreamAccountsForHoldings(d, []);
  }

  // ---- Requests one at a time ----

  /** One session with all its requests; `others` are the saves of other sessions. */
  datatype Playthrough =
    Playthrough(defn: GameDefinition, me: int, others: map<int, SavePoint>, requests: seq<Timed>)

  ghost predicate Playable(p: Playthrough) {
    Accepted(p.defn) && NewState(p.defn).Done? && forall id :: id in p.others ==> p.others[id].session != p.me
  }

  /** The tables after the first `n` requests. */
  ghost function TablesAt(p: Playthrough, n: nat): Store
    requires Playable(p) && n <= |p.requests|
  {
    Run(p.defn, p.me, Store(StartRow(NewState(p.defn).state), p.others), p.requests[..n])
  }

  ghost function StateAt(p: Playthrough, n: nat): GameState
    requires Playable(p) && n <= |p.requests|
  {
    TablesAt(p, n).row.state
  }

  /** The tables after one more request. */
  lemma NextTables(p: Playthrough, n: nat, st: Store, next: Store)
    requires Playable(p) && n < |p.requests| && st == TablesAt(p, n) && next == TablesAt(p, n + 1)
    ensures next == Commit(st, Serve(p.defn, p.me, st, p.requests[n].request, p.requests[n].now))
  {
    assert p.requests[..n + 1][..n] == p.requests[..n];
  }

  lemma StateAtSound(p: Playthrough, n: nat)
    requires Playable(p) && n < |p.requests|
    ensures StateInv(p.defn, StateAt(p, n))
  {
    ReachableSessionsAreSound(p.defn, p.me, {}, false, p.others, p.requests[..n], p.requests[n].request, 0);
  }

  lemma StepTracks(p: Playthrough, n: nat)
    requires Playable(p) && n < |p.requests| && !p.requests[n].request.RestoreRequest?
    ensures Tracks(StateAt(p, n), Emits(p.defn, StateAt(p, n), p.requests[n].request), StateAt(p, n + 1))
  {
    StateAtSound(p, n);
    NextTables(p, n, TablesAt(p, n), TablesAt(p, n + 1));
    ServeTracks(p.defn, p.me, TablesAt(p, n), p.requests[n].request, p.requests[n].now);
  }

  /** `s` is a document the session had at one of its first `n` moments. */
  ghost predicate Moment(p: Playthrough, s: GameState, n: nat)
    requires Playable(p) && n <= |p.requests|
  {
    exists k: nat :: k <= n && s == StateAt(p, k)
  }

  /** A save of this session in `st` holds one of those documents. */
  ghost predicate SavesFrom(p: Playthrough, st: Store, n: nat)
    requires Playable(p) && n <= |p.requests|
  {
    forall id :: id in st.saves && st.saves[id].session == p.me ==> Moment(p, st.saves[id].state, n)
  }

  /** A request leaves an existing save alone and creates one from the current document. */
  lemma SavedFrom(d: GameDefinition, me: int, st: Store, t: Timed, next: Store, id: int)
    requires next == Commit(st, Serve(d, me, st, t.request, t.now)) && id in next.saves
    ensures if id in st.saves then next.saves[id] == st.saves[id] else next.saves[id].state == st.row.state
  {
  }

  lemma MomentsGrow(p: Playthrough, s: GameState, n: nat)
    requires Playable(p) && n < |p.requests|
    ensures Moment(p, s, n) ==> Moment(p, s, n + 1)
    ensures s == StateAt(p, n) ==> Moment(p, s, n + 1)
  {
  }

  lemma NextSavesFrom(p: Playthrough, n: nat, st: Store, next: Store)
    requires Playable(p) && n < |p.requests| && SavesFrom(p, st, n) && st.row.state == StateAt(p, n)
    requires next == Commit(st, Serve(p.defn, p.me, st, p.requests[n].request, p.requests[n].now))
    ensures SavesFrom(p, next, n + 1)
  {
    forall id | id in next.saves && next.saves[id].session == p.me ensures Moment(p, next.saves[id].state, n + 1) {
      SavedFrom(p.defn, p.me, st, p.requests[n], next, id);
      MomentsGrow(p, next.saves[id].state, n);
    }
  }

  lemma FirstTables(p: Playthrough)
    requires Playable(p)
    ensures SavesFrom(p, TablesAt(p, 0), 0)
  {
    assert TablesAt(p, 0).saves == p.others;
  }

  lemma SavesStayMoments(p: Playthrough, n: nat)
    requires Playable(p) && n < |p.requests| && SavesFrom(p, TablesAt(p, n), n)
    ensures SavesFrom(p, TablesAt(p, n + 1), n + 1)
  {
    NextTables(p, n, TablesAt(p, n), TablesAt(p, n + 1));
    NextSavesFrom(p, n, TablesAt(p, n), TablesAt(p, n + 1));
  }

  lemma {:induction false} SavesAreMoments(p: Playthrough, n: nat)
    requires Playable(p) && n <= |p.requests|
    ensures SavesFrom(p, TablesAt(p, n), n)
  {
    if n == 0 {
      FirstTables(p);
    } else {
      SavesAreMoments(p, n - 1);
      SavesStayMoments(p, n - 1);
    }
  }

  /** A restore goes back to a moment of the session, or is refused and changes nothing. */
  lemma RestoresAreMoments(p: Playthrough, n: nat)
    requires Playable(p) && n < |p.requests| && p.requests[n].request.RestoreRequest?
    ensures Moment(p, StateAt(p, n + 1), n)
  {
    var st := TablesAt(p, n);
    NextTables(p, n, st, TablesAt(p, n + 1));
    SavesAreMoments(p, n);
    var id := p.requests[n].request.id;
    if id in st.saves && st.saves[id].session == p.me {
      assert StateAt(p, n + 1) == st.saves[id].state;
    } else {
      assert StateAt(p, n + 1) == StateAt(p, n);
    }
  }

  ghost function PlayedStates(p: Playthrough): seq<GameState>
    requires Playable(p)
  {
    seq(|p.requests| + 1, n requires 0 <= n <= |p.requests| && Playable(p) => StateAt(p, n))
  }

  ghost function PlayedEntries(p: Playthrough): seq<Entry>
    requires Playable(p)
  {
    seq(|p.requests|, n requires 0 <= n < |p.requests| && Playable(p) =>
      Entry(Emits(p.defn, StateAt(p, n), p.requests[n].request), p.requests[n].request.RestoreRequest?))
  }

  ghost function Played(p: Playthrough): Chronicle
    requires Playable(p)
  {
    Chronicle(NewState(p.defn).events, PlayedStates(p), PlayedEntries(p))
  }

  lemma PlayedEntryOk(p: Playthrough, c: Chronicle, n: nat)
    requires Playable(p) && c == Played(p) && n < |p.requests|
    ensures EntryOk(c, n)
  {
    if p.requests[n].request.RestoreRequest? {
      RestoresAreMoments(p, n);
      var k: nat :| k <= n && StateAt(p, n + 1) == StateAt(p, k);
      assert c.states[n + 1] == c.states[k];
    } else {
      StepTracks(p, n);
    }
  }

  /** A session whose requests come one at a time is a chronicle. */
  lemma PlayedIsGenuine(p: Playthrough)
    requires Playable(p)
    ensures Genuine(Played(p)) && Played(p).states[|p.requests|] == TablesAt(p, |p.requests|).row.state
  {
    FreshOpens(p.defn);
    assert Played(p).states[0] == StateAt(p, 0) == NewState(p.defn).state;
    forall n: nat | n < |p.requests| ensures EntryOk(Played(p), n) {
      PlayedEntryOk(p, Played(p), n);
    }
  }

  // ---- Concurrent requests ----

  /** One session under concurrent requests; its log lists the requests that updated the row. */
  datatype Contest = Contest(defn: GameDefinition, me: int, requests: seq<Timed>, trace: seq<SessionConcurrency.System>)

  ghost predicate Held(x: Contest) {
    && Accepted(x.defn) && NewState(x.defn).Done?
    && SessionConcurrency.Execution(x.defn, x.me, x.requests, x.trace)
    && x.trace[0].row == StartRow(NewState(x.defn).state)
    && SessionConcurrency.NoOwnSaves(x.me, x.trace[0].saves)
  }

  ghost function End(x: Contest): SessionConcurrency.System
    requires Held(x)
  {
    x.trace[|x.trace| - 1]
  }

  /** What is known of the final system. */
  lemma ContestFacts(x: Contest)
    requires Held(x)
    ensures var sys := End(x);
            && SessionConcurrency.Inv(x.defn, x.me, x.requests, sys)
            && SessionConcurrency.AllSound(x.defn, x.me, {}, false, sys)
            && SessionConcurrency.RewindsToHistory(x.me, x.requests, sys)
            && sys.history[0] == x.trace[0].row
  {
    ReachableSessionsAreSound(x.defn, x.me, {}, false, x.trace[0].saves, [], PlayRequest(MoveAdvance), 0);
    SessionConcurrency.ExecutionKeepsInv(x.defn, x.me, x.requests, x.trace);
    SessionConcurrency.CommittedStatesAreSound(x.defn, x.me, {}, false, x.requests, x.trace);
    SessionConcurrency.ExecutionRewindsToHistory(x.defn, x.me, x.requests, x.trace);
    SessionConcurrency.HistoryOrigin(x.defn, x.me, x.requests, x.trace);
  }

  /** The log names requests. */
  ghost predicate LogOk(x: Contest, sys: SessionConcurrency.System) {
    NewState(x.defn).Done? && |sys.history| == |sys.log| + 1 &&
    forall k :: 0 <= k < |sys.log| ==> sys.log[k] < |x.requests|
  }

  ghost function CommittedEntry(x: Contest, sys: SessionConcurrency.System, n: nat): Entry
    requires LogOk(x, sys) && n < |sys.log|
  {
    var request := x.requests[sys.log[n]].request;
    Entry(Emits(x.defn, sys.history[n].state, request), request.RestoreRequest?)
  }

  /** The committed documents, and the events of the updates between them, in commit order. */
  ghost function Committed(x: Contest, sys: SessionConcurrency.System): Chronicle
    requires LogOk(x, sys)
  {
    Chronicle(
      NewState(x.defn).events,
      seq(|sys.history|, n requires 0 <= n < |sys.history| => sys.history[n].state),
      seq(|sys.log|, n requires 0 <= n < |sys.log| && LogOk(x, sys) => CommittedEntry(x, sys, n)))
  }

  lemma LogIsOk(x: Contest)
    requires Held(x)
    ensures LogOk(x, End(x))
  {
    ContestFacts(x);
    var sys := End(x);
    forall k | 0 <= k < |sys.log| ensures sys.log[k] < |x.requests| {
      assert SessionConcurrency.LogEntryOk(x.defn, x.me, x.requests, sys, k);
    }
  }

  /** An update serves its request on the row before it. */
  lemma UpdateTracks(d: GameDefinition, me: int, st: Store, t: Timed, row: Row)
    requires Accepted(d) && StateInv(d, st.row.state) && !t.request.RestoreRequest?
    requires Serve(d, me, st, t.request, t.now) == Writes(row)
    ensures Tracks(st.row.state, Emits(d, st.row.state, t.request), row.state)
  {
    ServeTracks(d, me, st, t.request, t.now);
  }

  lemma LogServes(x: Contest, sys: SessionConcurrency.System, n: nat)
    requires SessionConcurrency.Inv(x.defn, x.me, x.requests, sys) && n < |sys.log|
    ensures sys.log[n] < |x.requests|
    ensures var t := x.requests[sys.log[n]];
            Serve(x.defn, x.me, Store(sys.history[n], sys.saves), t.request, t.now) == Writes(sys.history[n + 1])
  {
    assert SessionConcurrency.LogEntryOk(x.defn, x.me, x.requests, sys, n);
  }

  lemma HistorySound(x: Contest, sys: SessionConcurrency.System, n: nat)
    requires SessionConcurrency.AllSound(x.defn, x.me, {}, false, sys) && n < |sys.history|
    ensures StateInv(x.defn, sys.history[n].state)
  {
    assert StoreInv(x.defn, x.me, {}, false, Store(sys.history[n], sys.saves));
  }

  lemma CommittedUpdateOk(x: Contest, sys: SessionConcurrency.System, c: Chronicle, n: nat)
    requires Accepted(x.defn) && LogOk(x, sys) && c == Committed(x, sys) && n < |sys.log| && !c.entries[n].restored
    requires var t := x.requests[sys.log[n]];
             Serve(x.defn, x.me, Store(sys.history[n], sys.saves), t.request, t.now) == Writes(sys.history[n + 1])
    requires StateInv(x.defn, sys.history[n].state)
    ensures EntryOk(c, n)
  {
    UpdateTracks(x.defn, x.me, Store(sys.history[n], sys.saves), x.requests[sys.log[n]], sys.history[n + 1]);
  }

  lemma CommittedRestoreOk(x: Contest, sys: SessionConcurrency.System, c: Chronicle, n: nat)
    requires LogOk(x, sys) && c == Committed(x, sys) && n < |sys.log| && c.entries[n].restored
    requires SessionConcurrency.RestoresEarlier(x.requests, sys, n)
    ensures EntryOk(c, n)
  {
    var k: nat :| k <= n && sys.history[n + 1].state == sys.history[k].state;
    assert c.states[n + 1] == c.states[k];
  }

  lemma CommittedEntryOk(x: Contest, sys: SessionConcurrency.System, c: Chronicle, n: nat)
    requires Accepted(x.defn) && LogOk(x, sys) && c == Committed(x, sys) && n < |sys.log|
    requires SessionConcurrency.Inv(x.defn, x.me, x.requests, sys)
    requires SessionConcurrency.AllSound(x.defn, x.me, {}, false, sys)
    requires SessionConcurrency.RewindsToHistory(x.me, x.requests, sys)
    ensures EntryOk(c, n)
  {
    if c.entries[n].restored {
      assert SessionConcurrency.RestoresEarlier(x.requests, sys, n);
      CommittedRestoreOk(x, sys, c, n);
    } else {
      LogServes(x, sys, n);
      HistorySound(x, sys, n);
      CommittedUpdateOk(x, sys, c, n);
    }
  }

  /** Under concurrent requests too, the committed updates in commit order are a chronicle that ends in the
      committed row. */
  lemma CommittedIsGenuine(x: Contest)
    requires Held(x)
    ensures LogOk(x, End(x)) && Genuine(Committed(x, End(x)))
    ensures Committed(x, End(x)).states[|End(x).log|] == End(x).row.state
  {
    ContestFacts(x);
    LogIsOk(x);
    FreshOpens(x.defn);
    var c := Committed(x, End(x));
    assert c.states[0] == End(x).history[0].state == NewState(x.defn).state;
    forall n: nat | n < |End(x).log| ensures EntryOk(c, n) {
      CommittedEntryOk(x, End(x), c, n);
    }
  }

  /** A request that succeeded without an update announces nothing on balance. */
  lemma UnwrittenAnnouncesNothing(x: Contest, i: nat, item: string)
    requires Held(x) && i < |x.requests| && x.requests[i].request.PlayRequest?
    requires |End(x).phases| == |x.requests| && End(x).phases[i].ReadOnly?
    ensures End(x).phases[i].at < |End(x).history|
    ensures var events := Emits(x.defn, End(x).history[End(x).phases[i].at].state, x.requests[i].request);
            XpSum(events) == 0 && Net(events, item) == 0 && Unlocks(events) == []
  {
    ContestFacts(x);
    var sys := End(x);
    assert SessionConcurrency.PhaseOk(x.defn, x.me, x.requests, sys, i);
    var st := Store(sys.history[sys.phases[i].at], sys.saves);
    assert StoreInv(x.defn, x.me, {}, false, st);
    var row := SessionConcurrency.WrittenAt(x.defn, x.me, sys, x.requests[i], sys.phases[i].at);
    assert row.state == st.row.state;
    UpdateTracks(x.defn, x.me, st, x.requests[i], row);
    var s := row.state;
    assert |s.achievements| == |s.achievements| + |Unlocks(Emits(x.defn, s, x.requests[i].request))|;
  }

  // ---- The ledgers of one user ----

  datatype Session = Sequential(play: Playthrough) | Concurrent(contest: Contest)

  ghost predicate SessionOk(s: Session) {
    match s
    case Sequential(p) => Playable(p)
    case Concurrent(x) => Held(x)
  }

  ghost function ChronicleOf(s: Session): Chronicle
    requires SessionOk(s)
  {
    match s
    case Sequential(p) => Played(p)
    case Concurrent(x) => LogIsOk(x); Committed(x, End(x))
  }

  /** The document the session row holds in the end. */
  ghost function FinalState(s: Session): GameState
    requires SessionOk(s)
  {
    match s
    case Sequential(p) => StateAt(p, |p.requests|)
    case Concurrent(x) => End(x).row.state
  }

  /** Every session, sequential or concurrent, is a chronicle that ends in its row's document. */
  lemma SessionsAreChronicles(s: Session)
    requires SessionOk(s)
    ensures var c := ChronicleOf(s); Genuine(c) && c.states[|c.entries|] == FinalState(s)
  {
    match s
    case Sequential(p) => PlayedIsGenuine(p);
    case Concurrent(x) => CommittedIsGenuine(x);
  }

  ghost predicate AllOk(sessions: seq<Session>) {
    forall k :: 0 <= k < |sessions| ==> SessionOk(sessions[k])
  }

  ghost function ChroniclesOf(sessions: seq<Session>): seq<Chronicle>
    requires AllOk(sessions)
  {
    seq(|sessions|, k requires 0 <= k < |sessions| && SessionOk(sessions[k]) => ChronicleOf(sessions[k]))
  }

  lemma ChroniclesAreGenuine(sessions: seq<Session>)
    requires AllOk(sessions)
    ensures AllGenuine(ChroniclesOf(sessions))
  {
    forall k | 0 <= k < |sessions| ensures Genuine(ChroniclesOf(sessions)[k]) {
      SessionsAreChronicles(sessions[k]);
    }
  }

  /** End to end, restores and concurrent requests included: the durable XP exceeds what the sessions hold,
      plus each granted achievement's reward once, by exactly what the restores rewound; and an
      achievement stays granted exactly when it is defined and some session held it at some moment. */
  lemma LedgerExceedsByRewound(catalog: map<string, int>, sessions: seq<Session>, order: seq<nat>)
    requires AllOk(sessions) && PlayerLedgers.Complete(Streams(ChroniclesOf(sessions)), order)
    ensures var cs := ChroniclesOf(sessions);
            var u := PlayerLedgers.ConsumeAll(catalog, PlayerLedgers.Delivered(Streams(cs), order));
            AllGenuine(cs) &&
            u.total == EarnedSum(cs) + RewoundSum(cs) + PlayerLedgers.RewardSum(catalog, u.grants) &&
            Distinct(u.grants) &&
            forall code :: code in u.grants <==> code != "" && code in catalog && SomeEverHeld(cs, code)
  {
    var cs := ChroniclesOf(sessions);
    ChroniclesAreGenuine(sessions);
    LedgerOfChronicles(catalog, cs, order);
  }

  /** The inventory mirror, likewise: once everything is delivered, the durable quantity is what the sessions
      hold plus what the restores rewound plus the debt forgiven on the way. */
  lemma MirrorWithRestores(sessions: seq<Session>, order: seq<nat>, user: int, slug: string, item: string)
    requires AllOk(sessions) && PlayerLedgers.Complete(Streams(ChroniclesOf(sessions)), order) && item != ""
    ensures var cs := ChroniclesOf(sessions);
            var events := PlayerLedgers.Delivered(Streams(cs), order);
            AllGenuine(cs) &&
            PlayerLedgers.Quantity(PlayerLedgers.MirrorAll(user, slug, events), PlayerLedgers.Key(user, slug, item)) ==
            HeldSum(cs, item) + ItemsRewoundSum(cs, item) + Debt(events, item)
  {
    ChroniclesAreGenuine(sessions);
    DurableItems(ChroniclesOf(sessions), order, user, slug, item);
  }
}
