/** Every status in the authoring lifecycle, in terms of the requests that led to it
    (backend/app/modules/content/service.py). Nothing here refers to the operations' own tests. */
module ReviewHistory {
  import opened Wrappers
  import opened Definition
  import opened Publishing

  const EMPTY := Db([], [], [])

  /** Everything but version `v` stays as it is, and `v` keeps its project and number. */
  ghost predicate OnlyVersion(db: Db, next: Db, v: nat) {
    && next.projects == db.projects && next.records == db.records && |next.versions| == |db.versions|
    && (forall u :: 0 <= u < |db.versions| && u != v ==> next.versions[u] == db.versions[u])
    && (v < |db.versions| ==>
          next.versions[v].project == db.versions[v].project && next.versions[v].number == db.versions[v].number)
  }

  /** `v` exists and has this status. */
  predicate Is(db: Db, v: nat, status: VersionStatus) { v < |db.versions| && db.versions[v].status == status }

  /** Drafts: created with the next number, edited while draft, submitted if they parse. */
  lemma DraftingExactly(db: Db, project: nat, v: nat, definition: GameDefinition)
    requires Inv(db)
    ensures match Apply(db, CreateDraft(project, definition))
            case None => project >= |db.projects|
            case Some(next) =>
              project < |db.projects| && next.projects == db.projects && next.records == db.records &&
              |next.versions| == |db.versions| + 1 && db.versions <= next.versions &&
              next.versions[|db.versions|] ==
                Version(project, CountVersions(db.versions, project) + 1, Draft, definition)
    ensures match Apply(db, UpdateDraft(v, definition))
            case None => !Is(db, v, Draft)
            case Some(next) =>
              Is(db, v, Draft) && OnlyVersion(db, next, v) && Is(next, v, Draft) &&
              next.versions[v].definition == definition
    ensures match Apply(db, Submit(v))
            case None => !Is(db, v, Draft) || !Accepted(db.versions[v].definition)
            case Some(next) =>
              Is(db, v, Draft) && Accepted(db.versions[v].definition) && OnlyVersion(db, next, v) &&
              Is(next, v, InReview) && next.versions[v].definition == db.versions[v].definition
  {
    MaxIsCount(db.versions, project);
  }

  /** Review: approving approves and rejecting rejects, a version in review and no other. */
  lemma ReviewingExactly(db: Db, v: nat)
    ensures match Apply(db, Approve(v))
            case None => !Is(db, v, InReview)
            case Some(next) =>
              Is(db, v, InReview) && OnlyVersion(db, next, v) && Is(next, v, Approved) &&
              next.versions[v].definition == db.versions[v].definition
    ensures match Apply(db, Reject(v))
            case None => !Is(db, v, InReview)
            case Some(next) =>
              Is(db, v, InReview) && OnlyVersion(db, next, v) && Is(next, v, Rejected) &&
              next.versions[v].definition == db.versions[v].definition
  {
  }

  /** The version of the same project that is published now, if any. */
  predicate PublishedBeside(db: Db, v: nat, u: nat) {
    u < |db.versions| && v < |db.versions| && u != v && db.versions[u].project == db.versions[v].project &&
    db.versions[u].status == Published
  }

  /** Publishing: an approved or a superseded version, for a rollback only a superseded one. It becomes the
      published one; the one published before it in the project is superseded; no other version changes; and
      players of the project get its definition, in a new row. */
  lemma PublishingExactly(db: Db, v: nat, isRollback: bool)
    requires Inv(db)
    ensures match Apply(db, Publish(v, isRollback))
            case None => !Is(db, v, Superseded) && (isRollback || !Is(db, v, Approved))
            case Some(next) =>
              && (Is(db, v, Superseded) || (!isRollback && Is(db, v, Approved)))
              && |next.versions| == |db.versions| && Is(next, v, Published)
              && (forall u :: 0 <= u < |db.versions| ==>
                    next.versions[u].definition == db.versions[u].definition &&
                    next.versions[u].project == db.versions[u].project &&
                    next.versions[u].number == db.versions[u].number &&
                    (u != v ==> next.versions[u].status ==
                                if PublishedBeside(db, v, u) then Superseded else db.versions[u].status))
              && (var p := db.versions[v].project;
                  next.projects == db.projects[p := db.projects[p].(live := Some(v))] &&
                  NewRow(db, next, db.projects[p].slug, db.versions[v].definition))
  {
    if v < |db.versions| && Publishable(db.versions[v].status, isRollback) {
      var next := PublishStep(db, v, isRollback);
      RetireProps(db.records, db.projects[db.versions[v].project].slug);
      forall u | 0 <= u < |db.versions| && u != v
        ensures PublishedBeside(db, v, u) <==> db.projects[db.versions[v].project].live == Some(u)
      {
        assert db.versions[u].status.Published? <==> db.projects[db.versions[u].project].live == Some(u);
      }
    }
  }

  /** One row was added, live under this slug; of the earlier rows those of the slug are live no more. */
  ghost predicate NewRow(db: Db, next: Db, slug: string, definition: GameDefinition) {
    && |next.records| == |db.records| + 1 && next.records[|db.records|] == Record(slug, true, definition)
    && forall i :: 0 <= i < |db.records| ==>
         next.records[i].slug == db.records[i].slug && next.records[i].definition == db.records[i].definition &&
         (next.records[i].live <==> db.records[i].live && db.records[i].slug != slug)
  }

  /** Projects take free slugs; a game published without the lifecycle takes a slug nobody is live under. */
  lemma NamingExactly(db: Db, slug: string, definition: GameDefinition)
    ensures match Apply(db, CreateProject(slug))
            case None => exists p :: 0 <= p < |db.projects| && db.projects[p].slug == slug
            case Some(next) =>
              (forall p :: 0 <= p < |db.projects| ==> db.projects[p].slug != slug) &&
              next == Db(db.projects + [Project(slug, None)], db.versions, db.records)
    ensures match Apply(db, PublishDirectly(slug, definition))
            case None =>
              !Accepted(definition) ||
              exists i :: 0 <= i < |db.records| && db.records[i].slug == slug && db.records[i].live
            case Some(next) =>
              Accepted(definition) &&
              (forall i :: 0 <= i < |db.records| && db.records[i].live ==> db.records[i].slug != slug) &&
              next == Db(db.projects, db.versions, db.records + [Record(slug, true, definition)])
  {
    var live := LiveBySlug(db.records, slug);
    if live.Some? { assert db.records[live.value].slug == slug && db.records[live.value].live; }
  }

  // ---- Whole runs ----

  /** The state before the k-th request, and whether that request was carried out. */
  function Before(ops: seq<Op>, k: nat): Db
    requires k <= |ops|
  {
    Run(EMPTY, ops[..k])
  }

  predicate Succeeds(ops: seq<Op>, k: nat)
    requires k < |ops|
  {
    Apply(Before(ops, k), ops[k]).Some?
  }

  lemma BeforeNext(ops: seq<Op>, k: nat)
    requires k < |ops|
    ensures Before(ops, k + 1) == Apply(Before(ops, k), ops[k]).GetOr(Before(ops, k)) && Inv(Before(ops, k))
  {
    assert ops[..k + 1][..k] == ops[..k];
    LifecycleInvariant(ops[..k]);
  }

  /** The k-th request is a successful one of this kind on `v`. */
  predicate DoneAt(ops: seq<Op>, k: nat, op: Op)
    requires k < |ops|
  {
    ops[k] == op && Succeeds(ops, k)
  }

  predicate PublishedAt(ops: seq<Op>, k: nat, v: nat)
    requires k < |ops|
  {
    (ops[k] == Publish(v, true) || ops[k] == Publish(v, false)) && Succeeds(ops, k)
  }

  /** The k-th request publishes another version of the project in which `v` was the published one. */
  predicate ReplacedAt(ops: seq<Op>, k: nat, v: nat)
    requires k < |ops|
  {
    ops[k].Publish? && Succeeds(ops, k) && PublishedBeside(Before(ops, k), ops[k].version, v)
  }

  /** One request moves one version, and a publication also the one it replaces. */
  lemma StatusMoves(db: Db, op: Op, next: Db, v: nat)
    requires Inv(db) && Apply(db, op) == Some(next) && v < |next.versions|
    ensures if v >= |db.versions| then next.versions[v].status == Draft && op.CreateDraft?
            else next.versions[v].status == db.versions[v].status ||
                 (op == Submit(v) && db.versions[v].status == Draft && next.versions[v].status == InReview) ||
                 (op == Approve(v) && db.versions[v].status == InReview && next.versions[v].status == Approved) ||
                 (op == Reject(v) && db.versions[v].status == InReview && next.versions[v].status == Rejected) ||
                 (op.Publish? && op.version == v && next.versions[v].status == Published) ||
                 (op.Publish? && PublishedBeside(db, op.version, v) && next.versions[v].status == Superseded)
  {
    match op {
      case Publish(u, isRollback) => PublishingExactly(db, u, isRollback);
      case Approve(u) => ReviewingExactly(db, u);
      case Reject(u) => ReviewingExactly(db, u);
      case Submit(u) => DraftingExactly(db, 0, u, db.versions[v].definition);
      case _ =>
    }
  }

  /** How version `v` came to its status with the request before moment `n`, if it did. */
  ghost predicate JustMoved(ops: seq<Op>, n: nat, v: nat, status: VersionStatus)
    requires 0 < n <= |ops|
  {
    match status
    case Approved => DoneAt(ops, n - 1, Approve(v))
    case Published =>
      PublishedAt(ops, n - 1, v) &&
      (Is(Before(ops, n - 1), v, Approved) || Is(Before(ops, n - 1), v, Superseded))
    case Superseded => ReplacedAt(ops, n - 1, v)
    case _ => true
  }

  lemma StatusJustMoved(ops: seq<Op>, n: nat, v: nat, status: VersionStatus)
    requires 0 < n <= |ops| && Is(Before(ops, n), v, status)
    ensures Is(Before(ops, n - 1), v, status) || JustMoved(ops, n, v, status)
  {
    BeforeNext(ops, n - 1);
    var db, op := Before(ops, n - 1), ops[n - 1];
    if Succeeds(ops, n - 1) {
      StatusMoves(db, op, Before(ops, n), v);
      if op.Publish? {
        PublishingExactly(db, op.version, op.isRollback);
        assert PublishedAt(ops, n - 1, op.version);
      }
    }
  }

  ghost predicate ApprovedBefore(ops: seq<Op>, n: nat, v: nat)
    requires n <= |ops|
  {
    exists k: nat :: k < n && DoneAt(ops, k, Approve(v))
  }

  lemma ApprovedStays(ops: seq<Op>, n: nat, v: nat)
    requires n < |ops| && (ApprovedBefore(ops, n, v) || DoneAt(ops, n, Approve(v)))
    ensures ApprovedBefore(ops, n + 1, v)
  {
  }

  /** Nothing is approved, published or superseded but by an approval earlier in the run. */
  lemma {:induction false} ApprovedOnlyByApproval(ops: seq<Op>, n: nat, v: nat, status: VersionStatus)
    requires n <= |ops| && Is(Before(ops, n), v, status)
    requires status == Approved || status == Published || status == Superseded
    ensures ApprovedBefore(ops, n, v)
  {
    if n > 0 {
      StatusJustMoved(ops, n, v, status);
      if Is(Before(ops, n - 1), v, status) {
        ApprovedOnlyByApproval(ops, n - 1, v, status);
      } else if status == Published {
        ApprovedOnlyByApproval(ops, n - 1, v, if Is(Before(ops, n - 1), v, Approved) then Approved else Superseded);
      } else if status == Superseded {
        ApprovedOnlyByApproval(ops, n - 1, v, Published);
      }
      ApprovedStays(ops, n - 1, v);
    }
  }

  lemma JustRejected(ops: seq<Op>, k: nat, v: nat)
    requires k < |ops| && DoneAt(ops, k, Reject(v))
    ensures Is(Before(ops, k + 1), v, Rejected)
  {
    BeforeNext(ops, k);
    ReviewingExactly(Before(ops, k), v);
  }

  lemma RejectedNext(ops: seq<Op>, n: nat, v: nat)
    requires n < |ops| && Is(Before(ops, n), v, Rejected)
    ensures Is(Before(ops, n + 1), v, Rejected)
  {
    BeforeNext(ops, n);
    if Succeeds(ops, n) { StaysRejected(Before(ops, n), ops[n], Before(ops, n + 1), v); }
  }

  /** A rejected version stays rejected, whatever is asked later. */
  lemma {:induction false} RejectedForGood(ops: seq<Op>, k: nat, n: nat, v: nat)
    requires k < n <= |ops| && DoneAt(ops, k, Reject(v))
    ensures Is(Before(ops, n), v, Rejected)
  {
    if n == k + 1 {
      JustRejected(ops, k, v);
    } else {
      RejectedForGood(ops, k, n - 1, v);
      RejectedNext(ops, n - 1, v);
    }
  }

  lemma StaysRejected(db: Db, op: Op, next: Db, v: nat)
    requires Inv(db) && Apply(db, op) == Some(next) && Is(db, v, Rejected)
    ensures Is(next, v, Rejected)
  {
    VersionsGrow(db, op, next);
    StatusMoves(db, op, next, v);
    if op.Publish? { PublishingExactly(db, op.version, op.isRollback); }
  }

  lemma VersionsGrow(db: Db, op: Op, next: Db)
    requires Inv(db) && Apply(db, op) == Some(next)
    ensures |db.versions| <= |next.versions|
  {
    StepPreserves(db, op);
  }

  /** What is published was published by a request. */
  lemma {:induction false} PublishedByPublication(ops: seq<Op>, n: nat, v: nat)
    requires n <= |ops| && Is(Before(ops, n), v, Published)
    ensures exists k: nat :: k < n && PublishedAt(ops, k, v)
  {
    if n > 0 {
      StatusJustMoved(ops, n, v, Published);
      if Is(Before(ops, n - 1), v, Published) { PublishedByPublication(ops, n - 1, v); }
    }
  }

  /** Before moment `n` version `v` was published, and later replaced. */
  ghost predicate PublishedThenReplaced(ops: seq<Op>, n: nat, v: nat)
    requires n <= |ops|
  {
    exists i: nat, j: nat :: i < j < n && PublishedAt(ops, i, v) && ReplacedAt(ops, j, v)
  }

  lemma JustReplaced(ops: seq<Op>, n: nat, v: nat)
    requires n < |ops| && ReplacedAt(ops, n, v)
    ensures PublishedThenReplaced(ops, n + 1, v)
  {
    PublishedByPublication(ops, n, v);
    var i: nat :| i < n && PublishedAt(ops, i, v);
  }

  lemma StaysReplaced(ops: seq<Op>, n: nat, v: nat)
    requires n < |ops| && PublishedThenReplaced(ops, n, v)
    ensures PublishedThenReplaced(ops, n + 1, v)
  {
  }

  /** A superseded version was published once and then replaced by another. */
  lemma {:induction false} SupersededByReplacement(ops: seq<Op>, n: nat, v: nat)
    requires n <= |ops| && Is(Before(ops, n), v, Superseded)
    ensures PublishedThenReplaced(ops, n, v)
  {
    if n > 0 {
      StatusJustMoved(ops, n, v, Superseded);
      if Is(Before(ops, n - 1), v, Superseded) {
        SupersededByReplacement(ops, n - 1, v);
        StaysReplaced(ops, n - 1, v);
      } else {
        JustReplaced(ops, n - 1, v);
      }
    }
  }

  /** A rollback succeeds only on a version that an earlier request published and a later one replaced. */
  lemma RollbackOnlyOfReplaced(ops: seq<Op>, k: nat, v: nat)
    requires k < |ops| && DoneAt(ops, k, Publish(v, true))
    ensures PublishedThenReplaced(ops, k, v)
  {
    BeforeNext(ops, k);
    PublishingExactly(Before(ops, k), v, true);
    SupersededByReplacement(ops, k, v);
  }
}
