# Verified model of the Tekaplay backend

Tekaplay plays games that are data: an author's scene graph is validated when it is published and then
interpreted for each player. This project models that runtime and the services that live off it, and
proves what they promise over whole runs.

* **Game runtime** (`Conditions`, `Challenges`, `Effects`, `Definition`, `Engine`): the condition tree,
  the graded challenges, the seven effects, the publish-time gate and the interpreter. The interpreter
  works in place on a mutable state document; every call on it is proved against a function on document
  values, and the theorems are about those functions.
* **Runs of a game** (`EngineSafety`, `ViewExactness`, `ViewContents`, `MoveLaws`, `CrashExactness`,
  `Progress`, `DeadlockFreedom`, `AnswerSecrecy`, `Journeys`): no accepted definition can make a lookup
  fail; what the player is shown is what the author wrote for that moment, and exactly what is accepted;
  every move does what its author wrote, and when it breaks can be told beforehand; runs on an acyclic
  graph are bounded; under stated authoring rules an ending is always within reach; the answer keys
  influence nothing but the verdicts; the event stream is a walk through the graph.
* **Sessions** (`Sessions`, `SessionConcurrency`): rows, save points and restore, and concurrent requests
  under optimistic versioning, shown serializable with no lost update.
* **Player ledgers** (`Accounts`, `PlayerLedgers`, `Chronicles`, `RestoredLedgers`, `Levels`, `Streaks`):
  inventory mirror, XP, achievements, levels and streaks, each shown equal to what the sessions that fed
  it hold, and with restores and concurrent requests in play, by how much they differ.
* **Commerce** (`Seats`, `SeatSummary`, `Webhooks`, `WebhookHistory`): row-locked seat allocation as
  interleaved transactions, the seat summary against the client's search, and the webhook projection under
  repeated and reordered delivery, every row of it told from the events about it.
* **Content, tokens, cache** (`Publishing`, `ReviewHistory`, `RefreshTokens`, `ResponseCache`): the
  authoring lifecycle with its live rows and the requests behind every status, refresh-token families (the
  rotation scheme of section 4.14 of RFC 9700), and the two-layer AI response cache.

Tables are maps or append-only sequences, a request is one transaction unless its steps are modelled,
time is a parameter, and a raised exception is an error value together with what is left behind.

## Where the code falls short of its comments

* `backend/app/modules/runtime/engine.py:130` says that validation guarantees an exit. The rule in
  `definition.py:122-133` asks only for one branch with a goto. `DeadlockFreedom.ExitRuleIsNotEnough`
  gives an accepted game that gets stuck after one move; `DeadlockFreedom.NeverStuck` proves progress
  under rules that suffice; `ViewExactness.StuckExactly` says for every state when play can continue.
* Attempts are counted per challenge id for the whole session, so going back to an exhausted challenge is
  a dead end: `DeadlockFreedom.ReentryIsStuck`.
* `inc_var` on a string raises a TypeError that nothing catches. `Effects.CrashesOnlyOnStrings` says
  exactly when, in terms of the stored variables and the effect list; `CrashExactness.MoveSucceedsExactly`
  does so for whole moves, and `EngineSafety.WellTyped` is a static rule under which it never happens.
* A text challenge whose accepted answers all begin or end with a space can be published but not passed,
  since only the response is stripped: `Challenges.SolvableExactly`.
* `restore_save` can leave a completed session without `completed_at`: `Sessions.CompletionTimeExactly`
  and `Sessions.RestoringTwiceLosesTheTime`.
* `restore_save` rewinds the document without compensating events. The XP ledger keeps exactly what was
  rewound (`RestoredLedgers.LedgerExceedsByRewound`); the inventory mirror keeps that too, plus the debts
  its clip at zero forgave (`RestoredLedgers.MirrorWithRestores`).
* A webhook may lower a license's seats below what is assigned. `Seats.SeatsNeverOversold` shows that
  this is the only way a license is ever oversold, and `Seats.GuardedSeatChangeIsSafe` that a seat change
  which passed its guard does it only if an allocation commits before the webhook arrives.
  `SeatSummary.SummaryAgreesExactly` says exactly when the summary and the client's search then still
  agree, and `SeatSummary.OverfullLicenseHidesSeats` is the smallest case in which they do not.
* `backend/app/modules/commerce/service.py:308-310` says that a removed member can never retain access. A
  seat on a license that is not active at the moment of removal is not revoked, and entitles its holder
  again as soon as the license is active: `Seats.LeavingExactly`, `Seats.LeaverEntitledAgain`.
* A subscription event may arrive before its checkout. If it carries no plan code, the row it adds is not
  flushed before its fields are read: without a status it is stored with the text "None", and for an
  organization it raises unless the quantity names the seats. With a plan code the lookup of the plan
  flushes the row first (SQLAlchemy's autoflush, on by default in `backend/app/db/session.py:40`), so the
  column defaults apply: "incomplete" for a subscription, "active" and one seat for a license, and the
  latter is not what a checkout writes. `Webhooks.PersonalConfluence` and `Webhooks.OrgConfluence` give
  the exact conditions under which the order does not matter.
* The fast cache layer is written before the transaction commits. `ResponseCache.RollbackHarmlessExactly`
  says which rolled-back steps do harm, `ResponseCache.CacheCoherent` that a run is coherent exactly when
  it has none, and `ResponseCache.HarmfulRollbackDiverges` that the harm shows a few steps later.
* Events with an empty item key or achievement code are dropped by their subscribers, so the ledgers
  agree with the sessions for non-empty keys: `PlayerLedgers.MirrorAgrees`.

## Model

| member | source | states |
|---|---|---|
| `Conditions.ComparisonsFailClosed` | backend/app/modules/runtime/conditions.py:63-75 | on a stored variable exactly one of lt, eq, gt holds for comparable values and none for incomparable ones; an absent variable fails every comparison, `ne` included |
| `Conditions.ComparisonsReadTheOrder` | backend/app/modules/runtime/conditions.py:24-75 | every operator reads the order of numbers, booleans counting as 0 and 1, or the first-difference order of strings; between a string and a number only `ne` holds |
| `Conditions.ConditionsCompose` | backend/app/modules/runtime/conditions.py:44-86 | a conjunction fails by one part, a disjunction by all, a negation by its part; leaves read the flag list and the item counts |
| `Challenges.GradingExact` | backend/app/modules/runtime/challenges/builtin.py:62-196 | for every type, response and rules for stripping and lower-casing text: a verdict exactly when the config is valid, score in 0..1, passed iff the score is 1 iff the response gives the answer key |
| `Challenges.ScoresAreShares` | backend/app/modules/runtime/challenges/builtin.py:62-196 | the score is the share of positions or items that are right, or all or nothing for a quiz and a text |
| `Challenges.SolvableExactly` | backend/app/modules/runtime/challenges/builtin.py:117-139 | every valid challenge can be passed, except a text one all of whose answers begin or end with a space |
| `Challenges.ValidIffProblemFree` | backend/app/modules/runtime/challenges/builtin.py:20-170 | a config is refused for one of the listed reasons and only for one |
| `Challenges.ProjectionHidesAnswers` | backend/app/modules/runtime/challenges/builtin.py:54-185 | two valid configs have the same public projection iff they differ in nothing but answers, answer options, case handling and explanation |
| `Challenges.ProjectionShowsTheQuestion` | backend/app/modules/runtime/challenges/builtin.py:54-185 | the client is sent the question, every option, item and category in order, and whether more than one selection is right |
| `Effects.ApplyInPlace` | backend/app/modules/runtime/effects.py:61-99 | the loop over effects leaves the document and the events of the ordered composition, or stops at the first failing effect with what was applied before it |
| `Effects.ApplyOne` | backend/app/modules/runtime/effects.py:67-98 | each of the seven operations changes the mutable document as the effect on values does |
| `Effects.CrashesOnlyOnStrings` | backend/app/modules/runtime/effects.py:70-71 | an effect list fails iff some increment follows a last assignment of a string to its variable, or with no assignment before it finds a stored string; and then with a TypeError |
| `Effects.EffectsComeTo` | backend/app/modules/runtime/effects.py:61-99 | a list of effects adds up its XP, gains exactly the codes it unlocks, leaves the last word on each flag, grants and removes items down to nothing, and gives a variable its last value plus what was added since |
| `Effects.EffectAnnounces` | backend/app/modules/runtime/effects.py:67-98 | the events of one effect, with the delta and the quantity after it, and a code only when it is new |
| `EngineSafety.ConditionsSeeEffects` | backend/app/modules/runtime/effects.py:67-90 | after an effect a condition on its key observes the new value, flag or quantity, and no other variable, flag or item has changed |
| `Definition.ValidateGraph` | backend/app/modules/runtime/definition.py:110-167 | the nested loops report every problem of the graph and nothing else |
| `Definition.CheckScene` | backend/app/modules/runtime/definition.py:120-163 | the problems of one scene, duplicate element ids included, both ways |
| `Definition.CheckElement` | backend/app/modules/runtime/definition.py:135-163 | the problems of one element given the ids seen before it, both ways |
| `Definition.GraphOkIffProblemFree` | backend/app/modules/runtime/definition.py:112-167 | no problem exists iff every target resolves, every scene has a way out, ids are distinct and configs are valid |
| `Definition.FieldsExactly` | backend/app/modules/runtime/definition.py:28-108 | the fields are in range iff no effect, condition (however deep), option list or attempt limit is out of range |
| `Definition.RulesSpelledOut` | backend/app/modules/runtime/definition.py:122-139 | a scene has a way out iff some element points, other than by a wrong answer, at a non-empty target; repeated ids likewise |
| `Definition.ParseDefinition` | backend/app/modules/runtime/definition.py:170-186 | the gate lets through exactly the accepted definitions |
| `Engine.ComputeView` | backend/app/modules/runtime/engine.py:63-112 | the rendering scan yields the passives up to the first interactive element and that element, or the ending |
| `Engine.PendingInteractive` | backend/app/modules/runtime/engine.py:203-212 | the guarding scan finds the first interactive element at or after the position |
| `Engine.CreateState` | backend/app/modules/runtime/engine.py:45-60 | a new document is the blank state that entered the start scene |
| `Engine.AdvanceInPlace` | backend/app/modules/runtime/engine.py:115-132 | the in-place call realises the advance step, refusals and crashes with the document they leave |
| `Engine.ChooseInPlace` | backend/app/modules/runtime/engine.py:135-150 | the in-place call realises the choose step |
| `Engine.AnswerInPlace` | backend/app/modules/runtime/engine.py:153-190 | the in-place call realises the answer step |
| `Engine.ResolveInPlace` | backend/app/modules/runtime/engine.py:215-222 | effects, then the position past the element, then the goto |
| `Engine.EnterSceneInPlace` | backend/app/modules/runtime/engine.py:225-231 | entering a scene resets the position and runs its effects; an unknown scene is a KeyError |
| `EngineSafety.PlaySafe` | backend/app/modules/runtime/engine.py:115-241 | every move keeps the document invariant or refuses and changes nothing; no lookup ever fails; well-typed games never crash |
| `EngineSafety.NewStateSafe` | backend/app/modules/runtime/engine.py:45-60 | a new game on an accepted definition starts in the invariant |
| `EngineSafety.ViewAlwaysSeen` | backend/app/modules/runtime/engine.py:63-112 | on an accepted definition a view can always be computed |
| `ViewExactness.ViewIsExact` | backend/app/modules/runtime/engine.py:63-212 | in every invariant state a move passes the guards iff the view offers it: listed option, challenge with attempts left, or can_advance with an ending or next |
| `CrashExactness.MoveSucceedsExactly` | backend/app/modules/runtime/engine.py:115-231 | in every invariant state a move succeeds iff the view offers it and no increment among the effects of its branch and of the scene it enters meets a string; an offered move that fails raises a TypeError |
| `CrashExactness.GameStartsExactly` | backend/app/modules/runtime/engine.py:45-60 | a game starts iff no increment of the entry effects of its first scene meets a string |
| `MoveLaws.MoveTakesEffect` | backend/app/modules/runtime/engine.py:115-231 | after every successful move variables, flags, items, achievements and XP are what the effects of its branch and of the scene it enters make of them, and the gains announced are theirs, in order |
| `MoveLaws.ChoiceTakesEffect` | backend/app/modules/runtime/engine.py:135-150 | an available option runs its effects, then the entry effects of its target; document, position and events are written out, and it fails iff an increment meets a string |
| `MoveLaws.RightAnswerTakesEffect` | backend/app/modules/runtime/engine.py:153-176 | a right answer: announced with its score and attempt, recorded, and carrying out what the author set for it |
| `MoveLaws.WrongAnswerTakesEffect` | backend/app/modules/runtime/engine.py:177-190 | a wrong answer, with attempts left or as the last one: announcement, book, branch, goto and position |
| `MoveLaws.AdvanceTakesEffect` | backend/app/modules/runtime/engine.py:115-132 | leaving a scene without an ending enters the next one |
| `MoveLaws.EndingTakesEffect` | backend/app/modules/runtime/engine.py:125-128 | leaving a scene with an ending completes the game and announces its XP and results |
| `MoveLaws.GameOpens` | backend/app/modules/runtime/engine.py:45-60 | a new document holds the declared variables and what the entry effects of the first scene make of them |
| `MoveLaws.FacingRefuses` | backend/app/modules/runtime/engine.py:119-165 | facing an element, each kind of request is refused for the first guard that fails |
| `MoveLaws.PastRefuses` | backend/app/modules/runtime/engine.py:119-132 | past the last element nothing can be chosen or answered, and without ending or next nothing can be left |
| `ViewExactness.PassivesAreWhatPrecedes` | backend/app/modules/runtime/engine.py:72-90 | the passives shown are exactly those of the elements between the position and the pending interaction whose conditions hold |
| `ViewContents.FacingView` | backend/app/modules/runtime/engine.py:63-112 | the player sees every line and image from the position to the pending element whose condition holds, one each, in order, with text, speaker and image; and the choice with its open options, or the challenge with its public config and attempts left |
| `ViewContents.PastView` | backend/app/modules/runtime/engine.py:72-112 | past the last element the player sees the rest of the scene and may advance |
| `ViewContents.CompletedView` | backend/app/modules/runtime/engine.py:65-68 | a completed game shows its ending and nothing else |
| `ViewExactness.StuckExactly` | backend/app/modules/runtime/engine.py:115-165 | a well-typed game accepts some move iff it is active and not at one of three dead ends |
| `Progress.DriveSafe` | backend/app/modules/runtime/service.py:125-156 | every run of requests, refused ones included, stays in the invariant and in the typing |
| `Progress.PlayLowersMeasure` | backend/app/modules/runtime/engine.py:115-241 | on an acyclic graph every accepted move lowers a measure of scene rank, elements and attempts left |
| `Progress.RunsAreBounded` | backend/app/modules/runtime/engine.py:115-241 | no run accepts more than (rank of start + 1) * k moves, k bounding one scene's interactions |
| `DeadlockFreedom.NeverStuck` | backend/app/modules/runtime/engine.py:115-190 | after any run of a playable well-typed game an active game accepts some move |
| `DeadlockFreedom.EndingAlwaysReachable` | backend/app/modules/runtime/engine.py:115-190 | from every state any run reaches, some accepted moves complete the game |
| `DeadlockFreedom.ExitRuleIsNotEnough` | backend/app/modules/runtime/definition.py:122-133 | an accepted acyclic game that is stuck after one move: the exit rule alone does not give progress |
| `DeadlockFreedom.ReentryIsStuck` | backend/app/modules/runtime/engine.py:160-165 | an accepted game that meets every authoring rule but acyclicity and is stuck on re-entering an exhausted challenge |
| `AnswerSecrecy.KeysLeakOnlyThroughVerdicts` | backend/app/modules/runtime/engine.py:63-190 | two games that differ only in answers show the same views and reach the same documents under the same requests and verdicts |
| `AnswerSecrecy.SamePlay` | backend/app/modules/runtime/engine.py:115-190 | one request does the same, events and refusals included, under both answer keys once the verdict is the same |
| `Journeys.StreamIsAWalk` | backend/app/modules/runtime/engine.py:125-231 | the scene events of a session are a walk through the graph from the start to the current scene, each scene left before the next, and there is one answer event per counted attempt |
| `Journeys.GradedBooks` | backend/app/modules/runtime/engine.py:164-190 | an answer raises exactly its own attempt counter by one, records the result exactly when the challenge is settled, and follows the branch of the verdict |
| `Sessions.GameSession.PersistState` | backend/app/modules/runtime/service.py:204-210 | the row takes the document, its status and, on completion, its ending and the time |
| `Sessions.RuntimeService.PlayMove` | backend/app/modules/runtime/service.py:125-156 | the engine runs on a copy: on success the row is persisted and the events returned, on a raise row and saves are untouched |
| `Sessions.RuntimeService.CreateSave` | backend/app/modules/runtime/service.py:159-168 | a save holds the current document; nothing else changes |
| `Sessions.RuntimeService.RestoreSave` | backend/app/modules/runtime/service.py:175-191 | only a save of this session is restored, with its completion fields |
| `Sessions.ReachableSessionsAreSound` | backend/app/modules/runtime/service.py:103-210 | over every run of moves, saves and restores the document invariant holds, the row mirrors the document, and the next request is served without breaking the interpreter |
| `Sessions.TypedGamesStart` | backend/app/modules/runtime/service.py:111-116 | a well-typed accepted game can always be started |
| `Sessions.CompletionTimeExactly` | backend/app/modules/runtime/service.py:182-210 | after a restore a completion time stands iff the save is completed and the row still had one; a completing move always stamps it |
| `Sessions.RestoringTwiceLosesTheTime` | backend/app/modules/runtime/service.py:182-187 | restoring an active and then a completed save leaves a completed session without a time |
| `Sessions.RestoringUndoes` | backend/app/modules/runtime/service.py:159-191 | whatever happens after a save, restoring it brings back the very document, status and ending; a foreign or missing save is refused |
| `Sessions.PlayingIsDriving` | backend/app/modules/runtime/service.py:125-156 | a session that is only played holds the document the interpreter alone would reach |
| `SessionConcurrency.UpdatesAreSerializable` | backend/app/modules/runtime/service.py:204-218 | under every interleaving the row is the serial run of exactly the successful updates, each once; conflicts were truly overtaken; refusals and read-only successes fit the row they read |
| `SessionConcurrency.CommittedStatesAreSound` | backend/app/modules/runtime/service.py:125-218 | in every interleaving each committed row and save satisfies the reachable-state invariant and no request is refused because the interpreter broke |
| `SessionConcurrency.ExecutionRewindsToHistory` | backend/app/modules/runtime/service.py:159-191 | in every interleaving of a session that starts without saves each save holds the document of a committed row and each committed restore goes back to an earlier one |
| `SessionConcurrency.FlushKeepsInv` | backend/app/db/base.py:47-61 | the version check admits an update only when nothing was committed since the read |
| `Accounts.PlayTracks` | backend/app/modules/runtime/effects.py:61-99 | the events of a move account exactly for the items, XP and achievements it changed, and no prefix of them owes an item |
| `Accounts.StreamAccountsForHoldings` | backend/app/modules/runtime/effects.py:77-98 | a restore-free session holds exactly what its event stream announced: items, XP, achievements |
| `PlayerLedgers.InventoryService.Change` | backend/app/modules/inventory/service.py:14-23 | one change moves one record by the delta, clipped at zero, creating it on demand |
| `PlayerLedgers.InventoryService.OnEvent` | backend/app/modules/inventory/events.py:5-25 | the subscriber applies inventory events with a non-empty key and ignores the rest |
| `PlayerLedgers.MirrorAgrees` | backend/app/modules/inventory/service.py:14-23 | at every moment of every interleaved delivery the mirror equals the sum delivered by the streams, so the clip never bites; an empty key is never mirrored |
| `PlayerLedgers.MirrorEqualsSessions` | backend/app/modules/inventory/service.py:14-23 | after delivery each item's durable quantity is the sum over the user's sessions of what they hold |
| `PlayerLedgers.MirrorKeepsApart` | backend/app/modules/inventory/service.py:14-23 | nothing a user plays in one mission reaches another user's or mission's inventory |
| `PlayerLedgers.PlayerLedger.ApplyAward` | backend/app/modules/xp/service.py:33-49 | the award enters the ledger and the total, and a rise in level is announced |
| `PlayerLedgers.PlayerLedger.UnlockCode` | backend/app/modules/achievements/service.py:37-55 | a defined code is granted once and pays a positive reward once |
| `PlayerLedgers.XpConserved` | backend/app/modules/achievements/service.py:37-55 | the total is the announced XP plus each granted reward once, the ledger adds up to it, and exactly the defined announced codes are granted, however often replayed |
| `PlayerLedgers.LedgerEqualsSessions` | backend/app/modules/xp/service.py:33-49 | end to end: durable XP is the sum of the sessions' XP plus one reward per granted achievement, granted iff defined and unlocked by some session |
| `PlayerLedgers.LevelUpsClimb` | backend/app/modules/xp/service.py:41-48 | the level is that of the total, announced levels strictly increase and the last one is the final level |
| `Chronicles.StreamBalancesWithRestores` | backend/app/modules/runtime/service.py:175-191 | with restores, what a session announced of XP and of each item is what it holds plus what its restores rewound |
| `Chronicles.AnnouncedIffEverHeld` | backend/app/modules/runtime/service.py:175-191 | an achievement is announced iff the session held it at some moment, rewound or not |
| `RestoredLedgers.SessionsAreChronicles` | backend/app/modules/runtime/service.py:125-218 | the requests of a session, or under concurrency its committed updates in commit order, account for its final document: each tracks what it changed or restores an earlier document |
| `RestoredLedgers.UnwrittenAnnouncesNothing` | backend/app/modules/runtime/service.py:204-218 | a move that succeeded without an UPDATE announces no XP, no achievement and no item on balance |
| `RestoredLedgers.LedgerExceedsByRewound` | backend/app/modules/xp/service.py:33-49 | end to end, restores and concurrent requests included: durable XP is the sessions' XP plus what was rewound plus one reward per grant; granted iff defined and ever held by some session |
| `Chronicles.MirrorForgivesDebt` | backend/app/modules/inventory/service.py:14-23 | for any event stream the mirror holds what was announced plus the deepest debt the clip forgave |
| `Chronicles.NoDebtIffSolvent` | backend/app/modules/inventory/service.py:14-23 | there is no such debt iff no prefix of the stream owes the item, so this is exactly when the clip never bites |
| `RestoredLedgers.MirrorWithRestores` | backend/app/modules/inventory/service.py:14-23 | end to end, likewise: an item's durable quantity is what the sessions hold plus what was rewound plus the debt forgiven |
| `Levels.LevelsGalois` | backend/app/modules/xp/service.py:17-22 | a total reaches a level, by the exact square root, iff it is at least the level's floor |
| `Levels.LevelIsTheBand` | backend/app/modules/xp/service.py:17-22 | the level by the exact square root is the one level whose band contains the total |
| `Levels.RoundingKeepsTheLevel` | backend/app/modules/xp/service.py:17-18 | for every total from 0 to 2^31-1 the level by a rounded quotient and root, accurate to one part in 10^12 and exact on whole results, is that of the exact root |
| `Streaks.PlayerStreak.BumpStreak` | backend/app/modules/progress/service.py:52-70 | one activity event updates the record by the day rule |
| `Streaks.StreakCountsRuns` | backend/app/modules/progress/service.py:52-70 | for every nondecreasing history current is the run of days ending at the last day and longest the longest run of all active days |
| `Seats.LicenseService.AssignLicense` | backend/app/modules/commerce/service.py:255-285 | one allocation alone: the refusal order and the single new active row |
| `Seats.LicenseService.RevokeAssignment` | backend/app/modules/commerce/service.py:287-303 | succeeds exactly for an active assignment of the organization, and deactivates only that row |
| `Seats.LicenseService.RevokeAllForUser` | backend/app/modules/commerce/service.py:305-318 | license by license the leaving member's active seats on the listed licenses are revoked, and nothing else |
| `Seats.AllocationExactly` | backend/app/modules/commerce/service.py:255-285 | an allocation succeeds iff the license exists, is the requester's own and active, the user has no active seat on it and one is free; else it names the first of these that fails |
| `Seats.RunsAllocateExactly` | backend/app/modules/commerce/service.py:255-285 | in every interleaving a request that becomes done met all five on the committed tables and added its own seat; one that fails met all but the one it names |
| `Seats.RevocationFreesSeats` | backend/app/modules/commerce/service.py:287-318 | exactly the named assignments become inactive and their seats come free |
| `Seats.RevokedSeatIsFree` | backend/app/modules/commerce/service.py:255-303 | a user refused for having a seat is seated again once it is revoked |
| `Seats.LeavingExactly` | backend/app/modules/commerce/service.py:305-318 | a leaving member keeps an active seat iff its license was not active, or expired, at that moment; others are untouched |
| `Seats.LeaverEntitledAgain` | backend/app/modules/commerce/service.py:185-197 | and is entitled again once such a license is active, iff it was not when they left |
| `Seats.StepKeepsInv` | backend/app/modules/commerce/service.py:263-278 | across every interleaved step, transactions that die included, what each open transaction has read under its lock still holds |
| `Seats.CountRisesOnlyWithinSeats` | backend/app/modules/commerce/service.py:270-278 | a step that raises a license's active count starts below its seats and ends within them |
| `Seats.FinishesAsIfAlone` | backend/app/modules/commerce/service.py:255-285 | linearizability: each request finishes with the outcome the whole allocation would have at that moment alone, or dies without a trace; the unique index is never what stops it |
| `Seats.SeatsNeverOversold` | backend/app/modules/commerce/service.py:255-333 | over every run a license stays within its seats iff no webhook lowers them below the assigned number; no user ever holds two active seats on a license |
| `Seats.GuardedSeatChangeIsSafe` | backend/app/modules/commerce/service.py:384-408 | a webhook whose quantity passed the guard of a seat change oversells the license only if an allocation on it committed between the guard and the webhook |
| `SeatSummary.PickLicenseWithFreeSeat` | frontend/src/lib/organizations.ts:80-89 | the first listed license with a free seat, null iff every license is full |
| `SeatSummary.SummaryAgreesExactly` | backend/app/modules/commerce/service.py:320-333 | the available count is the free seats less the overdrawn ones, unclipped iff no more are overdrawn than free, and agrees with the search iff nothing is free or more is free than overdrawn |
| `SeatSummary.SummaryAgreesWithSearch` | backend/app/modules/commerce/service.py:320-333 | in particular, while every license is within its seats the available count is unclipped and positive iff the search finds a license |
| `SeatSummary.TablesAgreeWithSearch` | backend/app/modules/commerce/repository.py:150-176 | for listings read from the tables nothing is overdrawn iff every license is within its seats, and then the available count is unclipped and positive iff a license has a free seat |
| `SeatSummary.OverfullLicenseHidesSeats` | backend/app/modules/commerce/service.py:324-330 | a concrete disagreement: with one license over its seats the summary offers none while the search finds one |
| `Webhooks.WebhookService.HandleWebhook` | backend/app/modules/commerce/service.py:410-436 | a replay or a missing id does nothing, a raised handler leaves the tables as they were, a success is recorded |
| `Webhooks.WebhookService.PersonalUpsertHandler` | backend/app/modules/commerce/service.py:494-523 | the stepwise fill-in of a subscription row equals its projection, column defaults included when the plan lookup flushes a new row |
| `Webhooks.WebhookService.OrgUpsertHandler` | backend/app/modules/commerce/service.py:525-553 | the stepwise fill-in of a seat license equals its projection, column defaults included when the plan lookup flushes a new row, or raises and stores nothing |
| `Webhooks.WebhookService.CheckoutCompletedHandler` | backend/app/modules/commerce/service.py:466-492 | a checkout creates at most one incomplete row |
| `Webhooks.WebhookService.InvoicePaidHandler` | backend/app/modules/commerce/service.py:577-597 | a paid invoice adds at most one payment per intent and announces it |
| `Webhooks.DeliveriesCountOnce` | backend/app/modules/commerce/service.py:410-436 | the tables are the plain handlers folded over the first successful deliveries, which have distinct ids and are what the ledger records |
| `Webhooks.ReplaysAreNoOps` | backend/app/modules/commerce/service.py:416-417 | any later redeliveries of processed events change nothing |
| `Webhooks.PaymentsBalance` | backend/app/modules/commerce/service.py:577-630 | one payment row per intent, and the announced purchase amounts sum to the stored ones |
| `Webhooks.StatusIsLastWritten` | backend/app/modules/commerce/service.py:494-609 | a known subscription keeps its user and has the status written by the last effective event about it |
| `WebhookHistory.PaymentHistory` | backend/app/modules/commerce/service.py:577-628 | over every run an intent has a payment iff an effective paid invoice bears it; it says what the first says, and is marked by the last effective refund of that intent after it |
| `WebhookHistory.SubscriptionTermsFollow` | backend/app/modules/commerce/service.py:494-523 | a known subscription has the period fields of the last update and the first known plan an update named |
| `WebhookHistory.LicenseTermsFollow` | backend/app/modules/commerce/service.py:525-553 | the same for a seat license, which belongs to one organization for good |
| `WebhookHistory.LicenseIsLastWritten` | backend/app/modules/commerce/service.py:525-609 | a known license has the status and the seats last written by an effective event about it |
| `WebhookHistory.RowsComeAbout` | backend/app/modules/commerce/service.py:466-553 | a row comes about iff a checkout or update names its owner, with what that event says; none is removed |
| `WebhookHistory.EffectiveExactly` | backend/app/modules/commerce/service.py:411-436 | a delivery is effective iff its id is new and no number it needs is unusable |
| `WebhookHistory.AnnouncesWhatItDid` | backend/app/modules/commerce/service.py:494-630 | what is announced is the new status, the stored amount or the refunded amount, and nothing when nothing changed |
| `Webhooks.PersonalConfluence` | backend/app/modules/commerce/service.py:466-523 | checkout and upsert of a personal subscription commute iff the row exists, the checkout is ignored, or both name the same user and the status or a plan code is present (or the upsert adds nothing) |
| `Webhooks.OrgConfluence` | backend/app/modules/commerce/service.py:466-553 | for organization seats they commute iff the row exists, the checkout is ignored, the quantity is unusable, an upsert that can create the row names the same organization and a status, or one that cannot adds nothing |
| `Publishing.ContentService.NextVersionNumber` | backend/app/modules/content/repository.py:69-74 | one more than the greatest number of the project |
| `Publishing.ContentService.PublishOrRollBack` | backend/app/modules/content/service.py:171-206 | the stepwise publish equals the publish transaction, or raises and changes nothing |
| `Publishing.ContentService.UpsertLiveDefinition` | backend/app/modules/runtime/service.py:62-91 | the live row is retired and a new immutable one created, only if the definition passes the gate |
| `Publishing.ContentService.SubmitDraft` | backend/app/modules/content/service.py:146-155 | only a draft that parses reaches review |
| `Publishing.LifecycleInvariant` | backend/app/modules/content/service.py:112-206 | in every reachable state published means live, one live row per slug carrying the published definition, everything past draft parses, numbers are 1..n |
| `Publishing.PublishSucceedsExactly` | backend/app/modules/content/service.py:171-185 | in every reachable state publishing succeeds iff the status allows it: the gate cannot fail then |
| `Publishing.HistoryIsKept` | backend/app/modules/content/service.py:129-136 | over every run versions and runtime rows are only appended and definitions never change after draft |
| `Publishing.StepPreserves` | backend/app/modules/content/service.py:146-206 | each operation moves statuses along lifecycle edges only |
| `Publishing.SessionsAreUndisturbed` | backend/app/modules/runtime/service.py:62-72 | any later publishing, rollback or editing leaves an in-flight session's views and moves unchanged |
| `Publishing.RollbackRestores` | backend/app/modules/content/service.py:171-206 | rolling back undoes a publish: the earlier version is live and served again and only the other version's status differs |
| `ReviewHistory.DraftingExactly` | backend/app/modules/content/service.py:112-155 | creating, editing and submitting drafts: when each succeeds and what it leaves |
| `ReviewHistory.ReviewingExactly` | backend/app/modules/content/service.py:157-169 | approving approves and rejecting rejects, a version in review and no other |
| `ReviewHistory.PublishingExactly` | backend/app/modules/content/service.py:171-206 | an approved or superseded version becomes the published one, the one before it in the project is superseded, and players get its definition in a new row |
| `ReviewHistory.NamingExactly` | backend/app/modules/runtime/service.py:50-72 | projects and games published directly take free slugs |
| `ReviewHistory.ApprovedOnlyByApproval` | backend/app/modules/content/service.py:157-185 | over every run nothing is approved, published or superseded without an earlier successful approval |
| `ReviewHistory.RejectedForGood` | backend/app/modules/content/service.py:164-169 | a rejected version stays rejected whatever is asked later |
| `ReviewHistory.RollbackOnlyOfReplaced` | backend/app/modules/content/service.py:171-185 | a rollback succeeds only on a version that an earlier request published and a later one replaced |
| `RefreshTokens.AuthService.RefreshToken` | backend/app/modules/auth/service.py:97-127 | the answer and the rows of a refresh, family revocation on reuse included |
| `RefreshTokens.AuthService.LogOut` | backend/app/modules/auth/service.py:129-133 | exactly the presented token is revoked |
| `RefreshTokens.OnlyTheNewestIsUsable` | backend/app/modules/auth/service.py:120-127 | in every run a family has at most one unrevoked token, its newest |
| `RefreshTokens.ExchangedAtMostOnce` | backend/app/modules/auth/service.py:97-127 | every token is exchanged successfully at most once |
| `RefreshTokens.ReuseKillsTheFamily` | backend/app/modules/auth/service.py:102-114 | once a revoked token is presented its family never has a usable token again and every later refresh in it reports reuse |
| `RefreshTokens.ResetEndsSessions` | backend/app/modules/auth/service.py:143-150 | after a password reset no token of the user is usable until the user logs in again |
| `RefreshTokens.RefreshGrantedExactly` | backend/app/modules/auth/service.py:97-127 | a refresh is granted iff the token is known, not revoked and not expired and the user active; a refusal names the first that fails |
| `RefreshTokens.StepExactly` | backend/app/modules/auth/service.py:97-222 | each request revokes exactly the tokens it should and adds at most the one it should |
| `RefreshTokens.UsableExactly` | backend/app/modules/auth/service.py:97-222 | over every run a token is usable iff it was issued and since then not exchanged, logged out, caught in a reuse of its family or reset |
| `ResponseCache.AIService.ProcessQueued` | backend/app/modules/ai/service.py:98-156 | fast layer, then durable layer, then provider; only a queued request is touched |
| `ResponseCache.CacheCoherent` | backend/app/modules/ai/service.py:98-156 | over every run, with any outages, expiries and rollbacks, all answers to a prompt agree, the fast layer is absent or equal, and each completed request has one response, at every moment, iff no rolled-back step stored a provider answer in the fast layer |
| `ResponseCache.RollbackHarmlessExactly` | backend/app/modules/ai/service.py:78-146 | a rolled-back step, inline in the submitting transaction or not, keeps coherence iff it would not have stored: the request is not queued, a layer answers, the provider fails or the fast layer is down |
| `ResponseCache.HarmfulRollbackDiverges` | backend/app/modules/ai/service.py:78-156 | from every coherent state, after any other rolled-back step a few committed steps give one prompt two different answers |
| `ResponseCache.RedeliveryIsANoOp` | backend/app/modules/ai/service.py:98-101 | a request that left the queue is never processed again |
| `ResponseCache.ProcessingExactly` | backend/app/modules/ai/service.py:98-156 | a prompt already answered gets the same answer marked cached, a new one the provider's, and a failing provider fails the request without a response |
| `ResponseCache.AnswersAreTraced` | backend/app/modules/ai/service.py:98-156 | over every coherent run each answer is what the provider said for its request or repeats an earlier answer to the prompt |
| `ResponseCache.SubmittedIsAnswered` | backend/app/modules/ai/service.py:59-156 | a submitted prompt that is processed while the provider answers is completed with one response of its own |
| `ResponseCache.RollbackBreaksCoherence` | backend/app/modules/ai/service.py:145-146 | a concrete run from the empty store in which a surviving write makes two answers disagree |

## Left out

* Transport, dependency injection, the ORM and migrations: a table is a map or a sequence and a flush is part of the step that performs it.
* Stripe, OAuth, mail, Redis, model providers, password hashing, JWT and HMAC are inputs; token and prompt hashes are taken as collision-free.
* Floating point: increments and scores are reals. The level uses an exact square root, which `Levels.RoundingKeepsTheLevel` relates to a rounded one.
- Levels.LevelsGalois: stated for the exact square root; that rounding changes no level is a separate lemma, for totals of up to 31 bits and under stated accuracy bounds, since IEEE arithmetic itself is not modelled.
- Levels.LevelIsTheBand: stated for the exact square root, for the same reason.
* Integer widths: totals and quantities are unbounded.
* Text answers: grading is proved exact for any stripping and lower-casing rules, but the interpreter is run with ASCII ones; the feedback text of a quiz is not returned.
* Fields that no rule reads (titles, descriptions, item catalogue, schema version) and the scene title and HUD of the session view.
* Responses of the wrong JSON type, which the backend leaves to Python to reject.
* SQLAlchemy may omit an UPDATE that changes no column; the concurrency model allows both behaviours.
* Concurrent refreshes of one token and concurrent first requests for one prompt: the code takes no lock there, so only sequential runs are modelled.
* Entitlement precedence, trials, the Stripe side of seat changes, plan creation, audit rows, mission progress counters, catalogue assembly and the event bus's subscriber lists would only add easier members.
* The expiry filter of the license listing: the summary takes the listings as given.
