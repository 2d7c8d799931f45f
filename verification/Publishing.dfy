/** The authoring lifecycle and the live rows it publishes into the runtime
    (backend/app/modules/content/service.py, backend/app/modules/runtime/service.py). Tables are
    append-only, so a row's id is its position. */
module Publishing {
  import opened Wrappers
  import opened Effects
  import opened Definition
  import opened Engine

  datatype VersionStatus = Draft | InReview | Approved | Rejected | Published | Superseded

  datatype Version = Version(project: nat, number: int, status: VersionStatus, definition: GameDefinition)

  datatype Project = Project(slug: string, live: Option<nat>)

  /** A runtime definition row: immutable but for its `live` flag. */
  datatype Record = Record(slug: string, live: bool, definition: GameDefinition)

  datatype Db = Db(projects: seq<Project>, versions: seq<Version>, records: seq<Record>)

  datatype Op =
    | CreateProject(slug: string)
    | CreateDraft(project: nat, definition: GameDefinition)
    | UpdateDraft(version: nat, definition: GameDefinition)
    | Submit(version: nat)
    | Approve(version: nat)
    | Reject(version: nat)
    | Publish(version: nat, isRollback: bool)
    | PublishDirectly(slug: string, definition: GameDefinition)

  // ---- Operations as functions; None means the operation raised and was rolled back ----

  function MaxNumber(versions: seq<Version>, project: nat): int {
    if versions == [] then 0
    else
      var rest := MaxNumber(versions[..|versions| - 1], project);
      var v := versions[|versions| - 1];
      if v.project == project && v.number > rest then v.number else rest
  }

  /** `get_live_by_slug`. */
  function LiveBySlug(records: seq<Record>, slug: string): (r: Option<nat>)
    ensures r.Some? ==> r.value < |records| && records[r.value].slug == slug && records[r.value].live
    ensures r.None? ==> forall i :: 0 <= i < |records| ==> !(records[i].slug == slug && records[i].live)
  {
    if records == [] then None
    else if records[|records| - 1].slug == slug && records[|records| - 1].live then Some(|records| - 1)
    else LiveBySlug(records[..|records| - 1], slug)
  }

  function Retire(records: seq<Record>, slug: string): seq<Record> {
    match LiveBySlug(records, slug)
    case None => records
    case Some(i) => records[i := records[i].(live := false)]
  }

  function UpsertLive(records: seq<Record>, slug: string, definition: GameDefinition): Option<seq<Record>> {
    if Accepted(definition) then Some(Retire(records, slug) + [Record(slug, true, definition)]) else None
  }

  function SetStatus(db: Db, v: nat, status: VersionStatus): Db
    requires v < |db.versions|
  {
    db.(versions := db.versions[v := db.versions[v].(status := status)])
  }

  /** A transition allowed from one status only. */
  function Transition(db: Db, v: nat, from: VersionStatus, to: VersionStatus): Option<Db> {
    if v < |db.versions| && db.versions[v].status == from then Some(SetStatus(db, v, to)) else None
  }

  predicate Publishable(status: VersionStatus, isRollback: bool) {
    status.Superseded? || (!isRollback && status.Approved?)
  }

  function PublishVersion(db: Db, v: nat, isRollback: bool): Option<Db> {
    if v >= |db.versions| || !Publishable(db.versions[v].status, isRollback) then None
    else
      var version := db.versions[v];
      if version.project >= |db.projects| then None
      else
        var project := db.projects[version.project];
        match UpsertLive(db.records, project.slug, version.definition)
        case None => None
        case Some(records) =>
          var demoted := if project.live.Some? && project.live.value != v && project.live.value < |db.versions|
                         then SetStatus(db, project.live.value, Superseded) else db;
          Some(SetStatus(demoted, v, Published)
               .(projects := db.projects[version.project := project.(live := Some(v))], records := records))
  }

  function Apply(db: Db, op: Op): Option<Db> {
    match op
    case CreateProject(slug) =>
      if exists i :: 0 <= i < |db.projects| && db.projects[i].slug == slug then None
      else Some(db.(projects := db.projects + [Project(slug, None)]))
    case CreateDraft(project, definition) =>
      if project >= |db.projects| then None
      else
        var draft := Version(project, MaxNumber(db.versions, project) + 1, Draft, definition);
        Some(db.(versions := db.versions + [draft]))
    case UpdateDraft(v, definition) =>
      if v >= |db.versions| || db.versions[v].status != Draft then None
      else Some(db.(versions := db.versions[v := db.versions[v].(definition := definition)]))
    case Submit(v) =>
      if v < |db.versions| && !Accepted(db.versions[v].definition) then None else Transition(db, v, Draft, InReview)
    case Approve(v) => Transition(db, v, InReview, Approved)
    case Reject(v) => Transition(db, v, InReview, Rejected)
    case Publish(v, isRollback) => PublishVersion(db, v, isRollback)
    case PublishDirectly(slug, definition) =>
      if LiveBySlug(db.records, slug).Some? || !Accepted(definition) then None
      else Some(db.(records := db.records + [Record(slug, true, definition)]))
  }

  // ---- The service ----

  class ContentService {
    var projects: seq<Project>
    var versions: seq<Version>
    var records: seq<Record>

    function Tables(): Db
      reads this
    {
      Db(projects, versions, records)
    }

    constructor ()
      ensures Tables() == Db([], [], [])
    {
      projects, versions, records := [], [], [];
    }

    method NextVersionNumber(project: nat) returns (n: int)
      ensures n == MaxNumber(versions, project) + 1
    {
      n := 0;
      for i := 0 to |versions|
        invariant n == MaxNumber(versions[..i], project)
      {
        assert versions[..i + 1][..i] == versions[..i];
        if versions[i].project == project && versions[i].number > n {
          n := versions[i].number;
        }
      }
      assert versions[..|versions|] == versions;
      n := n + 1;
    }

    method NewDraft(project: nat, definition: GameDefinition) returns (ok: bool)
      modifies this
      ensures ok <==> Apply(old(Tables()), CreateDraft(project, definition)).Some?
      ensures Tables() == Apply(old(Tables()), CreateDraft(project, definition)).GetOr(old(Tables()))
    {
      if project >= |projects| { return false; }
      var number := NextVersionNumber(project);
      versions := versions + [Version(project, number, Draft, definition)];
      return true;
    }

    method EditDraft(v: nat, definition: GameDefinition) returns (ok: bool)
      modifies this
      ensures ok <==> Apply(old(Tables()), UpdateDraft(v, definition)).Some?
      ensures Tables() == Apply(old(Tables()), UpdateDraft(v, definition)).GetOr(old(Tables()))
    {
      if v >= |versions| || versions[v].status != Draft { return false; }
      versions := versions[v := versions[v].(definition := definition)];
      return true;
    }

    method SubmitDraft(v: nat) returns (ok: bool)
      modifies this
      ensures ok <==> Apply(old(Tables()), Submit(v)).Some?
      ensures Tables() == Apply(old(Tables()), Submit(v)).GetOr(old(Tables()))
    {
      if v >= |versions| || versions[v].status != Draft { return false; }
      var parses := ParseDefinition(versions[v].definition);
      if !parses { return false; }
      versions := versions[v := versions[v].(status := InReview)];
      return true;
    }

    method Review(v: nat, approve: bool) returns (ok: bool)
      modifies this
      ensures ok <==> Apply(old(Tables()), if approve then Approve(v) else Reject(v)).Some?
      ensures Tables() == Apply(old(Tables()), if approve then Approve(v) else Reject(v)).GetOr(old(Tables()))
    {
      if v >= |versions| || versions[v].status != InReview { return false; }
      versions := versions[v := versions[v].(status := if approve then Approved else Rejected)];
      return true;
    }

    method UpsertLiveDefinition(slug: string, definition: GameDefinition) returns (ok: bool)
      modifies `records
      ensures ok <==> UpsertLive(old(records), slug, definition).Some?
      ensures records == UpsertLive(old(records), slug, definition).GetOr(old(records))
    {
      var parses := ParseDefinition(definition);
      if !parses { return false; }
      var current := LiveBySlug(records, slug);
      if current.Some? {
        records := records[current.value := records[current.value].(live := false)];
      }
      records := records + [Record(slug, true, definition)];
      return true;
    }

    method PublishOrRollBack(v: nat, isRollback: bool) returns (ok: bool)
      modifies this
      ensures ok <==> PublishVersion(old(Tables()), v, isRollback).Some?
      ensures Tables() == PublishVersion(old(Tables()), v, isRollback).GetOr(old(Tables()))
    {
      if v >= |versions| || !Publishable(versions[v].status, isRollback) { return false; }
      var p := versions[v].project;
      if p >= |projects| { return false; }
      var upserted := UpsertLiveDefinition(projects[p].slug, versions[v].definition);
      if !upserted { return false; }
      var live := projects[p].live;
      if live.Some? && live.value != v && live.value < |versions| {
        versions := versions[live.value := versions[live.value].(status := Superseded)];
      }
      versions := versions[v := versions[v].(status := Published)];
      projects := projects[p := projects[p].(live := Some(v))];
      return true;
    }
  }

  // ---- The lifecycle invariant ----

  ghost predicate ProjectsOk(db: Db) {
    (forall i, j :: 0 <= i < j < |db.projects| ==> db.projects[i].slug != db.projects[j].slug) &&
    forall p :: 0 <= p < |db.projects| && db.projects[p].live.Some? ==>
      db.projects[p].live.value < |db.versions| && db.versions[db.projects[p].live.value].project == p
  }

  /** A version is published exactly when it is its project's live version; everything that left draft
      passed the gate. */
  ghost predicate VersionsOk(db: Db) {
    forall v :: 0 <= v < |db.versions| ==>
      db.versions[v].project < |db.projects| &&
      (db.versions[v].status.Published? <==> db.projects[db.versions[v].project].live == Some(v)) &&
      (!db.versions[v].status.Draft? ==> Accepted(db.versions[v].definition))
  }

  ghost predicate OneLivePerSlug(records: seq<Record>) {
    forall i, j :: 0 <= i < j < |records| && records[i].live && records[j].live ==> records[i].slug != records[j].slug
  }

  ghost predicate Serves(records: seq<Record>, slug: string, definition: GameDefinition) {
    exists i :: 0 <= i < |records| && records[i].live && records[i].slug == slug && records[i].definition == definition
  }

  /** Players of a project with a live version get that version's definition. */
  ghost predicate RecordsOk(db: Db) {
    OneLivePerSlug(db.records) &&
    (forall i :: 0 <= i < |db.records| ==> Accepted(db.records[i].definition)) &&
    forall p :: 0 <= p < |db.projects| && db.projects[p].live.Some? && db.projects[p].live.value < |db.versions| ==>
      Serves(db.records, db.projects[p].slug, db.versions[db.projects[p].live.value].definition)
  }

  /** How many versions a project has. */
  function CountVersions(versions: seq<Version>, project: nat): nat {
    if versions == [] then 0
    else CountVersions(versions[..|versions| - 1], project) +
         if versions[|versions| - 1].project == project then 1 else 0
  }

  ghost predicate NumberOk(versions: seq<Version>, v: nat)
    requires v < |versions|
  {
    versions[v].number == CountVersions(versions[..v + 1], versions[v].project)
  }

  /** The k-th version created in a project has number k. */
  ghost predicate Numbered(versions: seq<Version>) {
    forall v: nat {:trigger NumberOk(versions, v)} :: v < |versions| ==> NumberOk(versions, v)
  }

  ghost predicate Inv(db: Db) { ProjectsOk(db) && VersionsOk(db) && RecordsOk(db) && Numbered(db.versions) }

  lemma {:induction false} MaxIsCount(versions: seq<Version>, project: nat)
    requires Numbered(versions)
    ensures MaxNumber(versions, project) == CountVersions(versions, project)
  {
    if versions != [] {
      var n := |versions| - 1;
      var front := versions[..n];
      forall v: nat | v < |front| ensures NumberOk(front, v) {
        assert NumberOk(versions, v) && front[..v + 1] == versions[..v + 1];
      }
      MaxIsCount(front, project);
      assert versions[..n + 1] == versions && NumberOk(versions, n);
    }
  }

  /** Changing statuses or definitions renumbers nothing. */
  ghost predicate SameNumbers(a: seq<Version>, b: seq<Version>) {
    |a| == |b| && forall v :: 0 <= v < |a| ==> a[v].project == b[v].project && a[v].number == b[v].number
  }

  lemma {:induction false} SameCounts(a: seq<Version>, b: seq<Version>, project: nat)
    requires SameNumbers(a, b)
    ensures CountVersions(a, project) == CountVersions(b, project)
  {
    if a != [] { SameCounts(a[..|a| - 1], b[..|b| - 1], project); }
  }

  lemma SameNumbersNumbered(a: seq<Version>, b: seq<Version>)
    requires SameNumbers(a, b) && Numbered(a)
    ensures Numbered(b)
  {
    forall v: nat | v < |b| ensures NumberOk(b, v) {
      assert NumberOk(a, v);
      SameCounts(a[..v + 1], b[..v + 1], b[v].project);
    }
  }

  lemma RetireProps(records: seq<Record>, slug: string)
    requires OneLivePerSlug(records)
    ensures var retired := Retire(records, slug);
            |retired| == |records| &&
            (forall i :: 0 <= i < |records| ==>
               retired[i].slug == records[i].slug && retired[i].definition == records[i].definition &&
               (retired[i].live <==> records[i].live && records[i].slug != slug))
  {
  }

  lemma UpsertProps(records: seq<Record>, slug: string, definition: GameDefinition)
    requires OneLivePerSlug(records) && Accepted(definition)
    requires forall i :: 0 <= i < |records| ==> Accepted(records[i].definition)
    ensures var next := UpsertLive(records, slug, definition).value;
            OneLivePerSlug(next) && Serves(next, slug, definition) &&
            (forall i :: 0 <= i < |next| ==> Accepted(next[i].definition)) &&
            (forall other, d :: other != slug && Serves(records, other, d) ==> Serves(next, other, d))
  {
    RetireProps(records, slug);
    var retired := Retire(records, slug);
    var next := retired + [Record(slug, true, definition)];
    assert next[|records|] == Record(slug, true, definition);
    forall other, d | other != slug && Serves(records, other, d) ensures Serves(next, other, d) {
      var i :| 0 <= i < |records| && records[i].live && records[i].slug == other && records[i].definition == d;
      assert next[i] == retired[i];
    }
  }

  /** What publishing `v` does to the tables, row by row. */
  ghost predicate PublishedTo(db: Db, v: nat, next: Db)
    requires v < |db.versions| && db.versions[v].project < |db.projects|
  {
    var p := db.versions[v].project;
    var project := db.projects[p];
    && |next.versions| == |db.versions|
    && (forall u :: 0 <= u < |db.versions| ==>
          next.versions[u] ==
          if u == v then db.versions[u].(status := Published)
          else if project.live == Some(u) then db.versions[u].(status := Superseded)
          else db.versions[u])
    && next.projects == db.projects[p := project.(live := Some(v))]
    && next.records == Retire(db.records, project.slug) + [Record(project.slug, true, db.versions[v].definition)]
  }

  lemma PublishEffect(db: Db, v: nat, isRollback: bool)
    requires PublishVersion(db, v, isRollback).Some?
    ensures PublishedTo(db, v, PublishVersion(db, v, isRollback).value)
  {
  }

  lemma PublishKeepsVersions(db: Db, v: nat, next: Db)
    requires ProjectsOk(db) && VersionsOk(db) && v < |db.versions| && !db.versions[v].status.Draft?
    requires PublishedTo(db, v, next)
    ensures ProjectsOk(next) && VersionsOk(next)
  {
    var p := db.versions[v].project;
    forall u | 0 <= u < |next.versions|
      ensures next.versions[u].project < |next.projects|
      ensures next.versions[u].status.Published? <==> next.projects[next.versions[u].project].live == Some(u)
      ensures !next.versions[u].status.Draft? ==> Accepted(next.versions[u].definition)
    {
      var old' := db.versions[u];
      assert next.versions[u].definition == old'.definition && next.versions[u].project == old'.project;
      if old'.project == p && u != v { assert old'.status.Published? <==> db.projects[p].live == Some(u); }
    }
    forall q | 0 <= q < |next.projects| && next.projects[q].live.Some?
      ensures next.projects[q].live.value < |next.versions| && next.versions[next.projects[q].live.value].project == q
    {
    }
    forall i, j | 0 <= i < j < |next.projects| ensures next.projects[i].slug != next.projects[j].slug {
      assert next.projects[i].slug == db.projects[i].slug && next.projects[j].slug == db.projects[j].slug;
    }
  }

  lemma PublishKeepsRecords(db: Db, v: nat, next: Db)
    requires ProjectsOk(db) && RecordsOk(db) && v < |db.versions| && db.versions[v].project < |db.projects|
    requires Accepted(db.versions[v].definition) && PublishedTo(db, v, next)
    ensures RecordsOk(next)
  {
    var p := db.versions[v].project;
    UpsertProps(db.records, db.projects[p].slug, db.versions[v].definition);
    forall q | 0 <= q < |next.projects| && next.projects[q].live.Some? && next.projects[q].live.value < |next.versions|
      ensures Serves(next.records, next.projects[q].slug, next.versions[next.projects[q].live.value].definition)
    {
      if q != p {
        assert next.projects[q] == db.projects[q];
        var u := db.projects[q].live.value;
        assert next.versions[u].definition == db.versions[u].definition;
        assert Serves(db.records, db.projects[q].slug, db.versions[u].definition);
      }
    }
  }

  lemma PublishedKeepsInv(db: Db, v: nat, next: Db)
    requires Inv(db) && v < |db.versions| && !db.versions[v].status.Draft? && PublishedTo(db, v, next)
    ensures Inv(next)
  {
    PublishKeepsVersions(db, v, next);
    PublishKeepsRecords(db, v, next);
    assert SameNumbers(db.versions, next.versions);
    SameNumbersNumbered(db.versions, next.versions);
  }

  /** In the invariant, publishing an eligible version cannot fail. */
  lemma PublishStep(db: Db, v: nat, isRollback: bool) returns (next: Db)
    requires Inv(db) && v < |db.versions| && Publishable(db.versions[v].status, isRollback)
    ensures PublishVersion(db, v, isRollback) == Some(next)
    ensures PublishedTo(db, v, next) && Inv(next)
  {
    next := PublishVersion(db, v, isRollback).value;
    PublishEffect(db, v, isRollback);
    PublishedKeepsInv(db, v, next);
  }

  lemma AppendedNumber(versions: seq<Version>, v: Version)
    requires Numbered(versions) && v.number == MaxNumber(versions, v.project) + 1
    ensures Numbered(versions + [v])
  {
    var all := versions + [v];
    MaxIsCount(versions, v.project);
    forall u: nat | u < |all| ensures NumberOk(all, u) {
      if u < |versions| {
        assert NumberOk(versions, u) && all[..u + 1] == versions[..u + 1];
      } else {
        assert all[..u + 1] == all && all[..|all| - 1] == versions;
      }
    }
  }

  /** A fresh draft is nobody's live version. */
  lemma AppendedDraft(db: Db, v: Version)
    requires ProjectsOk(db) && VersionsOk(db) && RecordsOk(db) && v.project < |db.projects| && v.status.Draft?
    ensures var next := db.(versions := db.versions + [v]); ProjectsOk(next) && VersionsOk(next) && RecordsOk(next)
  {
    var next := db.(versions := db.versions + [v]);
    forall p | 0 <= p < |db.projects| && db.projects[p].live.Some?
      ensures db.projects[p].live.value < |db.versions| &&
              next.versions[db.projects[p].live.value] == db.versions[db.projects[p].live.value]
    {
    }
  }

  lemma DraftKeepsInv(db: Db, v: Version)
    requires Inv(db) && v.project < |db.projects| && v.status.Draft? &&
             v.number == MaxNumber(db.versions, v.project) + 1
    ensures Inv(db.(versions := db.versions + [v]))
  {
    AppendedNumber(db.versions, v);
    AppendedDraft(db, v);
  }

  /** An edit of one version that keeps its project, number and published-ness. */
  lemma EditKeepsInv(db: Db, v: nat, edited: Version)
    requires Inv(db) && v < |db.versions| && !db.versions[v].status.Published? && !edited.status.Published?
    requires edited.project == db.versions[v].project && edited.number == db.versions[v].number
    requires !edited.status.Draft? ==> Accepted(edited.definition)
    ensures Inv(db.(versions := db.versions[v := edited]))
  {
    var next := db.(versions := db.versions[v := edited]);
    assert SameNumbers(db.versions, next.versions);
    SameNumbersNumbered(db.versions, next.versions);
    forall p | 0 <= p < |db.projects| && db.projects[p].live.Some?
      ensures db.projects[p].live.value != v
    {
    }
  }

  lemma ServesMore(records: seq<Record>, r: Record, slug: string, definition: GameDefinition)
    requires Serves(records, slug, definition)
    ensures Serves(records + [r], slug, definition)
  {
    var i :| 0 <= i < |records| && records[i].live && records[i].slug == slug && records[i].definition == definition;
    assert (records + [r])[i] == records[i];
  }

  lemma DirectKeepsInv(db: Db, slug: string, definition: GameDefinition)
    requires Inv(db) && LiveBySlug(db.records, slug).None? && Accepted(definition)
    ensures Inv(db.(records := db.records + [Record(slug, true, definition)]))
  {
    var r := Record(slug, true, definition);
    var next := db.(records := db.records + [r]);
    assert RecordsOk(next) by {
      forall p | 0 <= p < |db.projects| && db.projects[p].live.Some? && db.projects[p].live.value < |db.versions|
        ensures Serves(next.records, db.projects[p].slug, db.versions[db.projects[p].live.value].definition)
      {
        ServesMore(db.records, r, db.projects[p].slug, db.versions[db.projects[p].live.value].definition);
      }
    }
  }

  lemma ProjectKeepsInv(db: Db, slug: string)
    requires Inv(db) && Apply(db, CreateProject(slug)).Some?
    ensures Inv(db.(projects := db.projects + [Project(slug, None)]))
  {
    var next := db.(projects := db.projects + [Project(slug, None)]);
    forall p | 0 <= p < |next.projects| && next.projects[p].live.Some?
      ensures p < |db.projects| && next.projects[p] == db.projects[p]
    {
    }
  }

  lemma EditedKeepsInv(db: Db, op: Op, next: Db)
    requires Inv(db) && Apply(db, op) == Some(next)
    requires op.UpdateDraft? || op.Submit? || op.Approve? || op.Reject?
    ensures Inv(next)
  {
    var was := db.versions[op.version];
    var edited := match op
      case UpdateDraft(_, definition) => was.(definition := definition)
      case Submit(_) => was.(status := InReview)
      case Approve(_) => was.(status := Approved)
      case _ => was.(status := Rejected);
    assert next == db.(versions := db.versions[op.version := edited]);
    EditKeepsInv(db, op.version, edited);
  }

  lemma CreateProjectKeepsInv(db: Db, slug: string, next: Db)
    requires Inv(db) && Apply(db, CreateProject(slug)) == Some(next)
    ensures Inv(next)
  {
    assert next == db.(projects := db.projects + [Project(slug, None)]);
    ProjectKeepsInv(db, slug);
  }

  lemma CreateDraftKeepsInv(db: Db, project: nat, definition: GameDefinition, next: Db)
    requires Inv(db) && Apply(db, CreateDraft(project, definition)) == Some(next)
    ensures Inv(next)
  {
    var draft := Version(project, MaxNumber(db.versions, project) + 1, Draft, definition);
    assert next == db.(versions := db.versions + [draft]);
    DraftKeepsInv(db, draft);
  }

  lemma PublishDirectlyKeepsInv(db: Db, slug: string, definition: GameDefinition, next: Db)
    requires Inv(db) && Apply(db, PublishDirectly(slug, definition)) == Some(next)
    ensures Inv(next)
  {
    assert next == db.(records := db.records + [Record(slug, true, definition)]);
    DirectKeepsInv(db, slug, definition);
  }

  lemma ApplyKeepsInv(db: Db, op: Op, next: Db)
    requires Inv(db) && Apply(db, op) == Some(next)
    ensures Inv(next)
  {
    match op {
      case CreateProject(slug) => CreateProjectKeepsInv(db, slug, next);
      case CreateDraft(project, definition) => CreateDraftKeepsInv(db, project, definition, next);
      case PublishDirectly(slug, definition) => PublishDirectlyKeepsInv(db, slug, definition, next);
      case Publish(v, isRollback) => var published := PublishStep(db, v, isRollback);
      case _ => EditedKeepsInv(db, op, next);
    }
  }

  /** A sequence of requests; one that raises changes nothing. */
  function Run(db: Db, ops: seq<Op>): Db {
    if ops == [] then db
    else
      var before := Run(db, ops[..|ops| - 1]);
      Apply(before, ops[|ops| - 1]).GetOr(before)
  }

  /** In every state any sequence of requests reaches: published means live, one live row per slug, the
      live row carries the published definition, everything past draft passed the gate, and a project's
      version numbers are 1..n in order of creation. */
  lemma {:induction false} LifecycleInvariant(ops: seq<Op>)
    ensures Inv(Run(Db([], [], []), ops))
  {
    if ops != [] {
      var before := Run(Db([], [], []), ops[..|ops| - 1]);
      LifecycleInvariant(ops[..|ops| - 1]);
      var next := Apply(before, ops[|ops| - 1]);
      if next.Some? { ApplyKeepsInv(before, ops[|ops| - 1], next.value); }
    }
  }

  /** Review cannot be undone by the gate: in every reachable state publishing succeeds exactly when the
      status allows it. */
  lemma PublishSucceedsExactly(ops: seq<Op>, v: nat, isRollback: bool)
    ensures var db := Run(Db([], [], []), ops);
            Apply(db, Publish(v, isRollback)).Some? <==>
            v < |db.versions| && Publishable(db.versions[v].status, isRollback)
  {
    LifecycleInvariant(ops);
  }

  /** The edges of the lifecycle. */
  predicate Follows(from: VersionStatus, to: VersionStatus) {
    from == to
    || (from.Draft? && to.InReview?) || (from.InReview? && (to.Approved? || to.Rejected?))
    || (from.Approved? && to.Published?) || (from.Published? && to.Superseded?) || (from.Superseded? && to.Published?)
  }

  /** Rows are only appended, versions keep their project and number, move along lifecycle edges only,
      and keep their definition once they have left draft; runtime rows keep slug and definition. */
  ghost predicate Preserves(a: Db, b: Db) {
    && |a.versions| <= |b.versions| && |a.records| <= |b.records|
    && (forall v :: 0 <= v < |a.versions| ==>
          b.versions[v].project == a.versions[v].project && b.versions[v].number == a.versions[v].number &&
          (!a.versions[v].status.Draft? ==>
             b.versions[v].definition == a.versions[v].definition && !b.versions[v].status.Draft?))
    && (forall i :: 0 <= i < |a.records| ==>
          b.records[i].slug == a.records[i].slug && b.records[i].definition == a.records[i].definition)
  }

  lemma PublishPreserves(db: Db, v: nat, next: Db)
    requires OneLivePerSlug(db.records) && v < |db.versions| && db.versions[v].project < |db.projects|
    requires ProjectsOk(db) && VersionsOk(db) && (db.versions[v].status.Approved? || db.versions[v].status.Superseded?)
    requires PublishedTo(db, v, next)
    ensures Preserves(db, next)
    ensures forall u :: 0 <= u < |db.versions| ==> Follows(db.versions[u].status, next.versions[u].status)
  {
    RetireProps(db.records, db.projects[db.versions[v].project].slug);
    var live := db.projects[db.versions[v].project].live;
    forall u | 0 <= u < |db.versions|
      ensures Follows(db.versions[u].status, next.versions[u].status)
    {
      if live == Some(u) && u != v {
        assert db.versions[u].status.Published? <==> db.projects[db.versions[u].project].live == Some(u);
      }
    }
  }

  /** Every version follows a lifecycle edge. */
  ghost predicate AllFollow(a: Db, b: Db) {
    |a.versions| <= |b.versions| &&
    forall v :: 0 <= v < |a.versions| ==> Follows(a.versions[v].status, b.versions[v].status)
  }

  lemma AppendPreserves(db: Db, next: Db)
    requires db.versions <= next.versions && db.records <= next.records
    ensures Preserves(db, next) && AllFollow(db, next)
  {
  }

  lemma EditPreserves(db: Db, v: nat, edited: Version)
    requires v < |db.versions|
    requires edited.project == db.versions[v].project && edited.number == db.versions[v].number
    requires Follows(db.versions[v].status, edited.status)
    requires !db.versions[v].status.Draft? ==> edited.definition == db.versions[v].definition
    ensures var next := db.(versions := db.versions[v := edited]); Preserves(db, next) && AllFollow(db, next)
  {
  }

  lemma TransitionPreserves(db: Db, v: nat, status: VersionStatus)
    requires v < |db.versions| && Follows(db.versions[v].status, status) && !status.Draft?
    ensures Preserves(db, SetStatus(db, v, status)) && AllFollow(db, SetStatus(db, v, status))
  {
    EditPreserves(db, v, db.versions[v].(status := status));
  }

  lemma PublishStepPreserves(db: Db, v: nat, isRollback: bool)
    requires Inv(db) && PublishVersion(db, v, isRollback).Some?
    ensures var next := PublishVersion(db, v, isRollback).value; Preserves(db, next) && AllFollow(db, next)
  {
    var next := PublishStep(db, v, isRollback);
    PublishPreserves(db, v, next);
  }

  lemma StepPreserves(db: Db, op: Op)
    requires Inv(db) && Apply(db, op).Some?
    ensures Preserves(db, Apply(db, op).value) && AllFollow(db, Apply(db, op).value)
  {
    match op {
      case Publish(v, isRollback) =>
        PublishStepPreserves(db, v, isRollback);
      case UpdateDraft(v, definition) => EditPreserves(db, v, db.versions[v].(definition := definition));
      case Submit(v) => TransitionPreserves(db, v, InReview);
      case Approve(v) => TransitionPreserves(db, v, Approved);
      case Reject(v) => TransitionPreserves(db, v, Rejected);
      case _ => AppendPreserves(db, Apply(db, op).value);
    }
  }

  /** History is never rewritten, over whole runs from any reachable state. */
  lemma {:induction false} HistoryIsKept(earlier: seq<Op>, later: seq<Op>)
    ensures Preserves(Run(Db([], [], []), earlier), Run(Run(Db([], [], []), earlier), later))
  {
    var db := Run(Db([], [], []), earlier);
    if later != [] {
      HistoryIsKept(earlier, later[..|later| - 1]);
      var mid := Run(db, later[..|later| - 1]);
      RunConcat(Db([], [], []), earlier, later[..|later| - 1]);
      LifecycleInvariant(earlier + later[..|later| - 1]);
      if Apply(mid, later[|later| - 1]).Some? { StepPreserves(mid, later[|later| - 1]); }
    }
  }

  lemma {:induction false} RunConcat(db: Db, a: seq<Op>, b: seq<Op>)
    ensures Run(db, a + b) == Run(Run(db, a), b)
  {
    if b == [] {
      assert a + b == a;
    } else {
      RunConcat(db, a, b[..|b| - 1]);
      assert (a + b)[..|a + b| - 1] == a + b[..|b| - 1];
    }
  }

  /** A session keeps the row it started on. */
  datatype InFlight = InFlight(record: nat, state: GameState)

  /** Content changes never reach a running game: whatever is published, rolled back or edited after a
      session started, it sees the same view and every move does the same thing. */
  lemma SessionsAreUndisturbed(earlier: seq<Op>, later: seq<Op>, session: InFlight, m: Move)
    requires session.record < |Run(Db([], [], []), earlier).records|
    ensures var before := Run(Db([], [], []), earlier);
            var after := Run(before, later);
            session.record < |after.records| &&
            ViewOf(after.records[session.record].definition, session.state) ==
              ViewOf(before.records[session.record].definition, session.state) &&
            Play(after.records[session.record].definition, session.state, m) ==
              Play(before.records[session.record].definition, session.state, m)
  {
    HistoryIsKept(earlier, later);
  }

  /** Rollback undoes a publish: after publishing `w` over live version `v` of the same project and
      rolling back to `v`, version `v` is live and published again, `w` is superseded, and new players
      get `v`'s definition as before. */
  lemma RollbackRestores(db: Db, v: nat, w: nat) returns (mid: Db, end: Db)
    requires Inv(db) && v < |db.versions| && w < |db.versions| && db.versions[v].project == db.versions[w].project
    requires db.versions[v].status.Published? && Publishable(db.versions[w].status, false)
    ensures PublishVersion(db, w, false) == Some(mid) && PublishVersion(mid, v, true) == Some(end)
    ensures end.projects == db.projects && end.versions == db.versions[w := db.versions[w].(status := Superseded)]
    ensures Serves(end.records, db.projects[db.versions[v].project].slug, db.versions[v].definition)
    ensures Inv(end)
  {
    assert db.projects[db.versions[v].project].live == Some(v);
    mid := PublishStep(db, w, false);
    end := PublishStep(mid, v, true);
    RollbackRows(db, v, w, mid, end);
  }

  lemma RollbackRows(db: Db, v: nat, w: nat, mid: Db, end: Db)
    requires ProjectsOk(db) && VersionsOk(db) && v < |db.versions| && w < |db.versions| && v != w
    requires db.versions[v].project == db.versions[w].project && db.versions[v].status.Published?
    requires PublishedTo(db, w, mid) && |mid.versions| == |db.versions| && mid.versions[v].project < |mid.projects|
    requires PublishedTo(mid, v, end)
    ensures end.projects == db.projects
    ensures end.versions == db.versions[w := db.versions[w].(status := Superseded)]
    ensures Serves(end.records, db.projects[db.versions[v].project].slug, db.versions[v].definition)
  {
    var p := db.versions[v].project;
    assert end.projects == db.projects[p := db.projects[p].(live := Some(v))];
    assert end.records[|end.records| - 1] == Record(db.projects[p].slug, true, db.versions[v].definition);
  }
}
