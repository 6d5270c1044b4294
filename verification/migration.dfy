// The data part of the start-up migration as a whole: which steps there are, in which order, what they
// guarantee together, and that a second pass over the result of any first pass changes nothing.

module Migration {
  import opened JsText
  import SortOrders
  import IntakeLinks
  import AiConfigs
  import ChatMessages
  import ScanFiles

  datatype Project = Project(id: int, name: string, workspacePath: string, description: string, createdAt: int, updatedAt: int)

  /** The row of the older single-project table. */
  datatype LegacyState = LegacyState(
    workspacePath: string, phase: string, intervalSeconds: int, validationCommand: string,
    lastIssueHash: Option<string>, lastError: Option<string>, updatedAt: int)

  datatype ProjectState = ProjectState(
    projectId: int, running: bool, phase: string, intervalSeconds: int, validationCommand: string,
    lastIssueHash: Option<string>, lastError: Option<string>, updatedAt: int)

  /** A row of attachments or events. */
  datatype Owned = Owned(id: int, projectId: Option<int>, rest: string)

  datatype Base = Base(
    projects: seq<Project>, lastProjectId: int, legacy: Option<LegacyState>, states: seq<ProjectState>,
    settings: map<string, string>)

  datatype Work = Work(
    requirements: seq<IntakeLinks.Intake>, feedback: seq<IntakeLinks.Intake>,
    attachments: seq<Owned>, events: seq<Owned>, scanFiles: ScanFiles.ScanTable,
    plans: seq<SortOrders.Plan>, links: IntakeLinks.LinkTable)

  datatype ConfigTable = ConfigTable(rows: seq<AiConfigs.AiConfig>, lastId: int)

  datatype Db = Db(base: Base, work: Work, configs: ConfigTable, chats: ChatMessages.Chats)

  datatype Setting = Setting(key: string, value: string)

  /** What a pass takes from outside: the time, the default settings with a new token, and row picks. */
  datatype Pass = Pass(now: int, defaults: seq<Setting>, pick: ChatMessages.Pick)

  const PROJECT_NAME := "默认项目"
  const PROJECT_NOTE := "从旧版单项目数据自动迁移"
  const CONFIG_NAME := "默认配置"
  const CHAT_MODEL := "gpt-5.5"

  // Projects, project states and settings.

  /** SELECT id FROM projects ORDER BY id LIMIT 1. */
  function FirstProject(rows: seq<Project>): Option<int> {
    if rows == [] then None
    else
      var m := FirstProject(rows[..|rows| - 1]);
      if m.None? || rows[|rows| - 1].id < m.value then Some(rows[|rows| - 1].id) else m
  }

  function DefaultProject(b: Base): int {
    if FirstProject(b.projects).Some? then FirstProject(b.projects).value else b.lastProjectId + 1
  }

  function EnsureProject(b: Base, now: int): Base {
    if b.projects != [] then b
    else
      var path := if b.legacy.Some? then b.legacy.value.workspacePath else "";
      b.(projects := [Project(b.lastProjectId + 1, PROJECT_NAME, path, PROJECT_NOTE, now, now)],
         lastProjectId := b.lastProjectId + 1)
  }

  /** INSERT OR IGNORE of one setting after the other. */
  function WithDefaults(settings: map<string, string>, defaults: seq<Setting>): map<string, string> {
    if defaults == [] then settings
    else
      var front := WithDefaults(settings, defaults[..|defaults| - 1]);
      var d := defaults[|defaults| - 1];
      if d.key in front then front else front[d.key := d.value]
  }

  /** `value || null`. */
  function NonEmpty(s: Option<string>): Option<string> {
    if s == Some("") then None else s
  }

  function FreshState(legacy: Option<LegacyState>, project: int, now: int): ProjectState {
    match legacy
    case None => ProjectState(project, false, "idle", 5, "", None, None, now)
    case Some(l) =>
      ProjectState(project, false, if l.phase == "" then "idle" else l.phase,
                   if l.intervalSeconds == 0 then 5 else l.intervalSeconds, l.validationCommand,
                   NonEmpty(l.lastIssueHash), NonEmpty(l.lastError), l.updatedAt)
  }

  predicate HasState(states: seq<ProjectState>, project: int) {
    exists s | s in states :: s.projectId == project
  }

  function EnsureState(b: Base, project: int, now: int): Base {
    if HasState(b.states, project) then b else b.(states := b.states + [FreshState(b.legacy, project, now)])
  }

  function MigratedBase(b: Base, pass: Pass): Base {
    var housed := EnsureProject(b, pass.now);
    EnsureState(housed.(settings := WithDefaults(b.settings, pass.defaults)), DefaultProject(b), pass.now)
  }

  // Rows of the time before there were projects.

  function AssignIntakes(rows: seq<IntakeLinks.Intake>, project: int): (r: seq<IntakeLinks.Intake>)
    ensures |r| == |rows|
    ensures forall i | 0 <= i < |rows| :: r[i] == if rows[i].projectId.None? then rows[i].(projectId := Some(project)) else rows[i]
  {
    seq(|rows|, i requires 0 <= i < |rows| => if rows[i].projectId.None? then rows[i].(projectId := Some(project)) else rows[i])
  }

  function AssignOwned(rows: seq<Owned>, project: int): (r: seq<Owned>)
    ensures |r| == |rows|
    ensures forall i | 0 <= i < |rows| :: r[i] == if rows[i].projectId.None? then rows[i].(projectId := Some(project)) else rows[i]
  {
    seq(|rows|, i requires 0 <= i < |rows| => if rows[i].projectId.None? then rows[i].(projectId := Some(project)) else rows[i])
  }

  function AssignPlans(rows: seq<SortOrders.Plan>, project: int): (r: seq<SortOrders.Plan>)
    ensures |r| == |rows|
    ensures forall i | 0 <= i < |rows| :: r[i] == if rows[i].projectId.None? then rows[i].(projectId := Some(project)) else rows[i]
  {
    seq(|rows|, i requires 0 <= i < |rows| => if rows[i].projectId.None? then rows[i].(projectId := Some(project)) else rows[i])
  }

  function AssignFiles(rows: seq<ScanFiles.ScanFile>, project: int): (r: seq<ScanFiles.ScanFile>)
    ensures |r| == |rows|
    ensures forall i | 0 <= i < |rows| :: r[i] == ScanFiles.Housed(rows[i], project)
  {
    seq(|rows|, i requires 0 <= i < |rows| => ScanFiles.Housed(rows[i], project))
  }

  function Assigned(w: Work, project: int): Work {
    Work(AssignIntakes(w.requirements, project), AssignIntakes(w.feedback, project),
         AssignOwned(w.attachments, project), AssignOwned(w.events, project),
         w.scanFiles.(rows := AssignFiles(w.scanFiles.rows, project)),
         AssignPlans(w.plans, project), w.links)
  }

  function Rekeyed(w: Work, project: int): Work {
    w.(scanFiles := ScanFiles.Rekeyed(w.scanFiles, ChatMessages.Fallback(project)))
  }

  ghost function MigratedWork(w: Work, project: int, now: int): Work {
    var a := Assigned(Rekeyed(w, project), project);
    a.(links := IntakeLinks.Backfill(a.links, a.plans, a.requirements, a.feedback, now),
       plans := SortOrders.Backfilled(a.plans))
  }

  // Configurations and chats.

  /** `getSetting(key) || fallback`. */
  function SettingOr(settings: map<string, string>, key: string, fallback: string): string {
    if key in settings && settings[key] != "" then settings[key] else fallback
  }

  function DefaultConfig(settings: map<string, string>, id: int, now: int): AiConfigs.AiConfig {
    AiConfigs.AiConfig(
      id, None, CONFIG_NAME,
      SettingOr(settings, "chat.provider", "openai"), SettingOr(settings, "chat.baseUrl", ""),
      SettingOr(settings, "chat.apiKey", ""), SettingOr(settings, "chat.model", CHAT_MODEL),
      SettingOr(settings, "chat.temperature", "0.3"), None, None, now, now)
  }

  /** `migrateChatToAiConfigs`: a default configuration unless a global one exists. */
  function EnsureConfig(t: ConfigTable, settings: map<string, string>, now: int): ConfigTable {
    if exists c | c in t.rows :: c.projectId.None? then t
    else ConfigTable(t.rows + [DefaultConfig(settings, t.lastId + 1, now)], t.lastId + 1)
  }

  function MigratedConfigTable(t: ConfigTable, settings: map<string, string>, now: int): ConfigTable {
    EnsureConfig(t.(rows := AiConfigs.MigratedConfigs(t.rows)), settings, now)
  }

  function ProjectIds(rows: seq<Project>): (r: seq<int>)
    ensures |r| == |rows| && forall i | 0 <= i < |rows| :: r[i] == rows[i].id
  {
    seq(|rows|, i requires 0 <= i < |rows| => rows[i].id)
  }

  function Remapped(db: Db, now: int): ChatMessages.Chats {
    db.chats.(conversations := AiConfigs.MigratedReferences(db.configs.rows, db.chats.conversations, now))
  }

  ghost function MigratedChatTables(db: Db, base: Base, pass: Pass): ChatMessages.Chats {
    ChatMessages.MigratedChats(Remapped(db, pass.now), ProjectIds(base.projects), DefaultProject(db.base), pass.now, pass.pick)
  }

  /** The steps of `migrate` that touch data, in their order. */
  ghost function Migrated(db: Db, pass: Pass): Db {
    var base := MigratedBase(db.base, pass);
    Db(base,
       MigratedWork(db.work, DefaultProject(db.base), pass.now),
       MigratedConfigTable(db.configs, base.settings, pass.now),
       MigratedChatTables(db, base, pass))
  }

  /** What the tables guarantee by their keys: distinct identifiers, none beyond the last one handed out. */
  ghost predicate Valid(db: Db) {
    && SortOrders.DistinctIds(db.work.plans)
    && AiConfigs.DistinctIds(db.configs.rows)
    && (forall c | c in db.configs.rows :: c.id <= db.configs.lastId)
    && ChatMessages.Valid(db.chats)
  }

  /** The object that holds the tables. */
  class Migrator {
    var base: Base
    var work: Work
    var configs: ConfigTable
    var chats: ChatMessages.Chats

    constructor (db: Db)
      ensures State() == db
    {
      base, work, configs, chats := db.base, db.work, db.configs, db.chats;
    }

    ghost function State(): Db
      reads this
    {
      Db(base, work, configs, chats)
    }

    method EnsureDefaultProject(now: int) returns (project: int)
      modifies this`base
      ensures base == EnsureProject(old(base), now) && project == DefaultProject(old(base))
    {
      if base.projects != [] {
        FirstProjectExists(base.projects);
        project := FirstProject(base.projects).value;
      } else {
        project := base.lastProjectId + 1;
        base := EnsureProject(base, now);
      }
    }

    method EnsureDefaultSettings(defaults: seq<Setting>)
      modifies this`base
      ensures base == old(base).(settings := WithDefaults(old(base).settings, defaults))
    {
      ghost var before := base;
      for i := 0 to |defaults|
        invariant base == before.(settings := WithDefaults(before.settings, defaults[..i]))
      {
        assert defaults[..i + 1][..i] == defaults[..i];
        if defaults[i].key !in base.settings {
          base := base.(settings := base.settings[defaults[i].key := defaults[i].value]);
        }
      }
      assert defaults[..|defaults|] == defaults;
    }

    method MigrateScanFiles(project: int)
      modifies this`work
      ensures work == Rekeyed(old(work), project)
    {
      var table := ScanFiles.MigrateScanFilesTable(work.scanFiles, ChatMessages.Fallback(project));
      work := work.(scanFiles := table);
    }

    method AssignLegacyRows(project: int)
      modifies this`work
      ensures work == Assigned(old(work), project)
    {
      work := work.(requirements := AssignIntakes(work.requirements, project));
      work := work.(feedback := AssignIntakes(work.feedback, project));
      work := work.(attachments := AssignOwned(work.attachments, project));
      work := work.(plans := AssignPlans(work.plans, project));
      work := work.(events := AssignOwned(work.events, project));
      work := work.(scanFiles := work.scanFiles.(rows := AssignFiles(work.scanFiles.rows, project)));
    }

    method BackfillWork(now: int)
      requires SortOrders.DistinctIds(work.plans)
      modifies this`work
      ensures work.links
              == IntakeLinks.Backfill(old(work).links, old(work).plans, old(work).requirements, old(work).feedback, now)
      ensures work == old(work).(links := work.links, plans := SortOrders.Backfilled(old(work).plans))
    {
      var links := IntakeLinks.InsertLinks(work.links, work.plans, IntakeLinks.Requirement, work.requirements, now);
      links := IntakeLinks.InsertLinks(links, work.plans, IntakeLinks.Feedback, work.feedback, now);
      var plans := SortOrders.BackfillPlanSortOrders(work.plans);
      work := work.(links := links, plans := plans);
    }

    method EnsureProjectState(project: int, now: int)
      modifies this`base
      ensures base == EnsureState(old(base), project, now)
    {
      if !HasState(base.states, project) {
        base := base.(states := base.states + [FreshState(base.legacy, project, now)]);
      }
    }

    method MigrateConfigs(now: int)
      requires AiConfigs.DistinctIds(configs.rows)
      modifies this`configs, this`chats
      ensures configs == MigratedConfigTable(old(configs), base.settings, now)
      ensures chats == Remapped(old(State()), now)
    {
      var rows, conversations := AiConfigs.MigrateAiConfigsToGlobal(configs.rows, chats.conversations, now);
      configs := configs.(rows := rows);
      chats := chats.(conversations := conversations);
      if !exists c | c in configs.rows :: c.projectId.None? {
        configs := ConfigTable(configs.rows + [DefaultConfig(base.settings, configs.lastId + 1, now)], configs.lastId + 1);
      }
    }

    /** The end of `migrate`. */
    method Migrate(pass: Pass)
      requires Valid(State())
      modifies this
      ensures State() == Migrated(old(State()), pass)
    {
      var project := EnsureDefaultProject(pass.now);
      EnsureDefaultSettings(pass.defaults);
      MigrateScanFiles(project);
      AssignLegacyRows(project);
      BackfillWork(pass.now);
      EnsureProjectState(project, pass.now);
      MigrateConfigs(pass.now);
      chats := ChatMessages.MigrateChatMessagesToConversation(chats, ProjectIds(base.projects), project, pass.now, pass.pick);
    }
  }

  // Projects and settings after a pass.

  lemma {:induction false} FirstProjectExists(rows: seq<Project>)
    ensures rows != [] <==> FirstProject(rows).Some?
    ensures rows != [] ==> exists p | p in rows :: p.id == FirstProject(rows).value
    ensures forall p | p in rows :: FirstProject(rows).value <= p.id
  {
    if rows == [] {
    } else {
      FirstProjectExists(rows[..|rows| - 1]);
      assert rows == rows[..|rows| - 1] + [rows[|rows| - 1]];
    }
  }

  /** The default project exists after a pass, has a state, and is the default project from then on. */
  lemma DefaultProjectSettled(b: Base, pass: Pass)
    ensures var r := MigratedBase(b, pass);
            && DefaultProject(r) == DefaultProject(b) && DefaultProject(b) in ProjectIds(r.projects)
            && HasState(r.states, DefaultProject(b))
            && b.states <= r.states && (b.projects != [] ==> r.projects == b.projects)
  {
    var r := MigratedBase(b, pass);
    FirstProjectExists(b.projects);
    FirstProjectExists(r.projects);
    if b.projects == [] {
      assert r.projects[0] in r.projects && r.projects[..0] == [];
    }
    var p :| p in r.projects && p.id == DefaultProject(b);
    var i :| 0 <= i < |r.projects| && r.projects[i] == p;
    assert ProjectIds(r.projects)[i] == DefaultProject(b);
    var housed := EnsureProject(b, pass.now);
    if !HasState(housed.states, DefaultProject(b)) {
      assert r.states[|r.states| - 1] in r.states;
    }
  }

  predicate HasKey(defaults: seq<Setting>, key: string) {
    exists d | d in defaults :: d.key == key
  }

  /** Settings that are there keep their values; those of the list that are not are there afterwards. */
  lemma {:induction false} DefaultsOnlyFill(settings: map<string, string>, defaults: seq<Setting>, key: string)
    ensures var r := WithDefaults(settings, defaults);
            && (key in settings ==> key in r && r[key] == settings[key])
            && (key in r <==> key in settings || HasKey(defaults, key))
            && (key in r && key !in settings ==> Setting(key, r[key]) in defaults)
  {
    if defaults == [] {
    } else {
      var front, last := defaults[..|defaults| - 1], defaults[|defaults| - 1];
      assert defaults == front + [last];
      DefaultsOnlyFill(settings, front, key);
      assert HasKey(defaults, key) <==> HasKey(front, key) || last.key == key by {
        assert last in defaults;
      }
    }
  }

  lemma {:induction false} NothingToFill(settings: map<string, string>, defaults: seq<Setting>)
    requires forall d | d in defaults :: d.key in settings
    ensures WithDefaults(settings, defaults) == settings
  {
    if defaults == [] {
    } else {
      NothingToFill(settings, defaults[..|defaults| - 1]);
    }
  }

  lemma MigratedBaseIdempotent(b: Base, pass: Pass, later: Pass)
    requires forall d | d in later.defaults :: HasKey(pass.defaults, d.key)
    ensures MigratedBase(MigratedBase(b, pass), later) == MigratedBase(b, pass)
  {
    var once := MigratedBase(b, pass);
    DefaultProjectSettled(b, pass);
    forall d | d in later.defaults ensures d.key in once.settings {
      DefaultsOnlyFill(b.settings, pass.defaults, d.key);
    }
    NothingToFill(once.settings, later.defaults);
    assert once.projects != [];
  }

  // Rows of requirements, plans and the like after a pass.

  /** The project that a row without one is given. */
  function ProjectOr(projectId: Option<int>, project: int): Option<int> {
    if projectId.Some? then projectId else Some(project)
  }

  /** After a pass no row of the six tables is without a project, and the older scan table meets its new key. */
  lemma NoRowLeftBehind(db: Db, pass: Pass)
    ensures var r := Migrated(db, pass);
            && DefaultProject(db.base) in ProjectIds(r.base.projects)
            && (forall x | x in r.work.requirements :: x.projectId.Some?) && (forall x | x in r.work.feedback :: x.projectId.Some?)
            && (forall x | x in r.work.attachments :: x.projectId.Some?) && (forall x | x in r.work.events :: x.projectId.Some?)
            && (forall x | x in r.work.plans :: x.projectId.Some?) && (forall x | x in r.work.scanFiles.rows :: x.projectId.Some?)
            && (!db.work.scanFiles.keyed ==> ScanFiles.Keyed(r.work.scanFiles.rows))
  {
    DefaultProjectSettled(db.base, pass);
    var r := Migrated(db, pass);
    ScanFiles.RebuiltIsKeyed(db.work.scanFiles.rows, ChatMessages.Fallback(DefaultProject(db.base)));
    KeyedStaysKeyed(Rekeyed(db.work, DefaultProject(db.base)).scanFiles.rows, DefaultProject(db.base));
  }

  /**
   * In each table the rows stay in place: one without a project is given the default one, any other keeps its
   * own, and nothing else in a row changes but the position of a plan.
   */
  lemma RowsKeepTheirProject(db: Db, pass: Pass)
    ensures var r, project := Migrated(db, pass).work, DefaultProject(db.base);
            && |r.requirements| == |db.work.requirements| && |r.feedback| == |db.work.feedback|
            && |r.attachments| == |db.work.attachments| && |r.events| == |db.work.events| && |r.plans| == |db.work.plans|
            && (forall i | 0 <= i < |r.requirements| :: var x := db.work.requirements[i];
                  r.requirements[i] == x.(projectId := ProjectOr(x.projectId, project)))
            && (forall i | 0 <= i < |r.feedback| :: var x := db.work.feedback[i];
                  r.feedback[i] == x.(projectId := ProjectOr(x.projectId, project)))
            && (forall i | 0 <= i < |r.attachments| :: var x := db.work.attachments[i];
                  r.attachments[i] == x.(projectId := ProjectOr(x.projectId, project)))
            && (forall i | 0 <= i < |r.events| :: var x := db.work.events[i];
                  r.events[i] == x.(projectId := ProjectOr(x.projectId, project)))
            && (forall i | 0 <= i < |r.plans| :: var x := db.work.plans[i];
                  r.plans[i] == x.(projectId := ProjectOr(x.projectId, project), sortOrder := r.plans[i].sortOrder))
  {
  }

  /**
   * So do those of a scan table that has its key. Of an older one exactly the last row of each file remains, and
   * a row without a project is given the default one, 1 standing for 0.
   */
  lemma ScanFilesKeepTheirProject(db: Db, pass: Pass, x: ScanFiles.ScanFile)
    ensures var t, rows, project := db.work.scanFiles, Migrated(db, pass).work.scanFiles.rows, DefaultProject(db.base);
            && (t.keyed ==> |rows| == |t.rows| && forall i | 0 <= i < |rows| ::
                              rows[i] == t.rows[i].(projectId := ProjectOr(t.rows[i].projectId, project)))
            && (!t.keyed ==> var fallback := ChatMessages.Fallback(project);
                             x in rows <==> exists i: nat | i < |t.rows| ::
                               x == t.rows[i].(projectId := ProjectOr(t.rows[i].projectId, fallback))
                               && ScanFiles.LastOfFile(t.rows, fallback, i))
  {
    var t, project := db.work.scanFiles, DefaultProject(db.base);
    var fallback := ChatMessages.Fallback(project);
    if !t.keyed {
      ScanFiles.RebuiltIsKeyed(t.rows, fallback);
      KeyedStaysKeyed(ScanFiles.Rebuilt(t.rows, fallback), project);
      ScanFiles.LastOfFileRemainsExactly(t.rows, fallback, x);
    }
  }

  lemma KeyedStaysKeyed(rows: seq<ScanFiles.ScanFile>, project: int)
    ensures ScanFiles.Keyed(rows) ==> AssignFiles(rows, project) == rows
  {
    if ScanFiles.Keyed(rows) {
      assert forall i | 0 <= i < |rows| :: rows[i] in rows;
    }
  }

  /**
   * Links come after the assignment, so an intake and its plan of the time before there were projects find
   * each other: the intake is linked with the plan, or its first phase was taken.
   */
  lemma LegacyIntakesAreLinked(db: Db, pass: Pass, i: nat, k: nat)
    requires i < |db.work.requirements| && k < |db.work.plans|
    requires db.work.requirements[i].projectId.None? && db.work.plans[k].projectId.None?
    requires db.work.requirements[i].linkedPlanId == Some(db.work.plans[k].id) && db.work.plans[k].id > 0
    ensures var links := Migrated(db, pass).work.links.rows;
            var project, id := DefaultProject(db.base), db.work.requirements[i].id;
            || IntakeLinks.LinkedWith(links, IntakeLinks.Requirement, project, id, db.work.plans[k].id)
            || IntakeLinks.PhaseTaken(links, IntakeLinks.Requirement, project, id)
  {
    var project := DefaultProject(db.base);
    var a := Assigned(Rekeyed(db.work, project), project);
    var row := a.requirements[i];
    assert row in a.requirements && a.plans[k] in a.plans && IntakeLinks.HasPlan(a.plans, row);
    IntakeLinks.CandidatesAreIgnored(a.links, a.plans, IntakeLinks.Requirement, a.requirements, pass.now, row, pass.now);
    var half := IntakeLinks.Linked(a.links, a.plans, IntakeLinks.Requirement, a.requirements, pass.now);
    IntakeLinks.LinksOnlyGrow(half, a.plans, IntakeLinks.Feedback, a.feedback, pass.now);
    var l :| l in half.rows && IntakeLinks.Clash(l, IntakeLinks.FirstPhase(IntakeLinks.Requirement, row, pass.now));
    assert l in Migrated(db, pass).work.links.rows;
  }

  lemma AssignedIdempotent(w: Work, project: int, again: int)
    ensures Assigned(Assigned(w, project), again) == Assigned(w, project)
  {
  }

  /** Positions do not matter to the join of intakes with plans. */
  lemma PositionsDoNotMatter(plans: seq<SortOrders.Plan>, row: IntakeLinks.Intake)
    ensures IntakeLinks.HasPlan(SortOrders.Backfilled(plans), row) == IntakeLinks.HasPlan(plans, row)
  {
  }

  lemma {:induction false} SameLinks(t: IntakeLinks.LinkTable, plans: seq<SortOrders.Plan>, kind: IntakeLinks.IntakeKind,
                                     rows: seq<IntakeLinks.Intake>, now: int)
    ensures IntakeLinks.Linked(t, SortOrders.Backfilled(plans), kind, rows, now) == IntakeLinks.Linked(t, plans, kind, rows, now)
  {
    if rows == [] {
    } else {
      SameLinks(t, plans, kind, rows[..|rows| - 1], now);
      PositionsDoNotMatter(plans, rows[|rows| - 1]);
    }
  }

  lemma MigratedWorkIdempotent(w: Work, project: int, now: int, later: int)
    ensures var once := MigratedWork(w, project, now);
            MigratedWork(once, project, later) == once
  {
    var v := Rekeyed(w, project);
    var a, once := Assigned(v, project), MigratedWork(w, project, now);
    AssignedIdempotent(v, project, project);
    AssignedAfterBackfill(v, project);
    SortOrders.BackfillIdempotent(a.plans);
    SameLinks(once.links, a.plans, IntakeLinks.Requirement, a.requirements, later);
    SameLinks(IntakeLinks.Linked(once.links, a.plans, IntakeLinks.Requirement, a.requirements, later),
              a.plans, IntakeLinks.Feedback, a.feedback, later);
    IntakeLinks.BackfillLinksIdempotent(a.links, a.plans, a.requirements, a.feedback, now, later);
  }

  lemma AssignedAfterBackfill(w: Work, project: int)
    ensures var plans := SortOrders.Backfilled(Assigned(w, project).plans);
            AssignPlans(plans, project) == plans
  {
  }

  // Configurations and chats after a pass.

  /** There is a global configuration after a pass; a default one is made exactly if there was none at all. */
  lemma DefaultConfigExactly(t: ConfigTable, settings: map<string, string>, now: int)
    requires AiConfigs.DistinctIds(t.rows) && forall c | c in t.rows :: c.id <= t.lastId
    ensures var r := MigratedConfigTable(t, settings, now);
            && r.rows == (if t.rows == [] then [DefaultConfig(settings, t.lastId + 1, now)] else AiConfigs.MigratedConfigs(t.rows))
            && r.rows != [] && AiConfigs.DistinctKeys(r.rows) && (forall c | c in r.rows :: c.projectId.None?)
  {
    AiConfigs.MigratedConfigsSettled(t.rows);
    var rows := AiConfigs.MigratedConfigs(t.rows);
    if t.rows != [] {
      assert rows[0] in rows && rows[0].projectId.None?;
    }
  }

  lemma ConfigTableIdempotent(t: ConfigTable, settings: map<string, string>, now: int,
                              vs: seq<AiConfigs.Conversation>, again: map<string, string>, later: int)
    requires AiConfigs.DistinctIds(t.rows) && forall c | c in t.rows :: c.id <= t.lastId
    ensures var once := MigratedConfigTable(t, settings, now);
            && MigratedConfigTable(once, again, later) == once
            && AiConfigs.MigratedReferences(once.rows, vs, later) == vs
  {
    var once := MigratedConfigTable(t, settings, now);
    DefaultConfigExactly(t, settings, now);
    AiConfigs.SettledConfigsStay(once.rows, vs, later);
    assert once.rows[0] in once.rows;
  }

  lemma RemappedIsValid(db: Db, now: int)
    requires Valid(db)
    ensures ChatMessages.Valid(Remapped(db, now))
  {
  }

  /**
   * The migration is idempotent: at any later time, with other tokens and other row picks, a second pass
   * over the result of any first pass changes no row of any table.
   */
  lemma MigrationIdempotent(db: Db, pass: Pass, later: Pass)
    requires Valid(db) && ChatMessages.Picks(pass.pick)
    requires forall d | d in later.defaults :: HasKey(pass.defaults, d.key)
    ensures Migrated(Migrated(db, pass), later) == Migrated(db, pass)
  {
    var once := Migrated(db, pass);
    MigratedBaseIdempotent(db.base, pass, later);
    DefaultProjectSettled(db.base, pass);
    MigratedWorkIdempotent(db.work, DefaultProject(db.base), pass.now, later.now);
    ConfigTableIdempotent(db.configs, once.base.settings, pass.now, once.chats.conversations, once.base.settings, later.now);
    RemappedIsValid(db, pass.now);
    assert Remapped(once, later.now) == once.chats;
    ChatMessages.ChatsIdempotent(Remapped(db, pass.now), ProjectIds(once.base.projects), DefaultProject(db.base), pass.now, pass.pick,
                                 DefaultProject(db.base), later.now, later.pick);
  }

  /**
   * Through the whole pass, a conversation that pointed at a configuration keeps its identifier and points
   * at an existing configuration with the same identity.
   */
  lemma ReferencesSurviveMigration(db: Db, pass: Pass, i: nat, c: AiConfigs.AiConfig)
    requires Valid(db) && i < |db.chats.conversations|
    requires c in db.configs.rows && db.chats.conversations[i].aiConfigId == Some(c.id)
    ensures var r := Migrated(db, pass);
            && i < |r.chats.conversations| && r.chats.conversations[i].id == db.chats.conversations[i].id
            && exists d | d in r.configs.rows ::
                 AiConfigs.Key(d) == AiConfigs.Key(c) && r.chats.conversations[i].aiConfigId == Some(d.id)
  {
    var r := Migrated(db, pass);
    var all := AiConfigs.Globals(db.configs.rows);
    var j :| 0 <= j < |db.configs.rows| && db.configs.rows[j] == c;
    assert all[j] in all;
    var d := AiConfigs.ReferencesKeepMeaning(all, db.chats.conversations[i], pass.now, all[j]);
    DefaultConfigExactly(db.configs, r.base.settings, pass.now);
    var before := Remapped(db, pass.now);
    var settled := ChatMessages.Settled(before, ChatMessages.Fallback(DefaultProject(db.base)));
    ChatMessages.FiledOnlyAdds(settled, ProjectIds(r.base.projects), pass.now, pass.pick);
    assert settled.conversations[i].aiConfigId == before.conversations[i].aiConfigId;
    assert r.chats.conversations[i] == settled.conversations[i];
  }

  /** After a pass every message has a project, and every message of a project that exists a conversation. */
  lemma ChatsAreWhole(db: Db, pass: Pass)
    requires Valid(db) && ChatMessages.Picks(pass.pick)
    ensures var r := Migrated(db, pass);
            && Valid(r) && ChatMessages.Sound(r.chats)
            && forall m | m in r.chats.messages && m.projectId.value in ProjectIds(r.base.projects) :: m.conversationId.Some?
  {
    var r := Migrated(db, pass);
    RemappedIsValid(db, pass.now);
    ChatMessages.MessageIntegrity(Remapped(db, pass.now), ProjectIds(r.base.projects), DefaultProject(db.base), pass.now, pass.pick);
    DefaultConfigExactly(db.configs, r.base.settings, pass.now);
    AiConfigs.MigratedConfigsSettled(db.configs.rows);
    forall k | k in r.configs.rows ensures k.id <= r.configs.lastId {
      if db.configs.rows != [] {
        var e :| e in db.configs.rows && e.(projectId := None) == k;
      }
    }
  }
}
