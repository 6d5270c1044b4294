// What the migration carries over from the older single-project tables: each setting into its own column of
// the default configuration, each column of the older state row into its own of the new rows.

module MigrationCarries {
  import opened JsText
  import opened Migration
  import AiConfigs

  /** The value that a list of defaults has for a key. */
  function FirstDefault(defaults: seq<Setting>, key: string): Option<string> {
    if defaults == [] then None
    else if defaults[0].key == key then Some(defaults[0].value)
    else FirstDefault(defaults[1..], key)
  }

  lemma {:induction false} FirstDefaultOfMore(defaults: seq<Setting>, d: Setting, key: string)
    ensures FirstDefault(defaults + [d], key)
            == if FirstDefault(defaults, key).Some? then FirstDefault(defaults, key) else if d.key == key then Some(d.value) else None
  {
    if defaults == [] {
      assert defaults + [d] == [d] && [d][1..] == [];
    } else {
      FirstDefaultOfMore(defaults[1..], d, key);
      assert (defaults + [d])[1..] == defaults[1..] + [d];
    }
  }

  /** The value of a setting after the defaults were filled in. */
  function ValueAfter(settings: map<string, string>, defaults: seq<Setting>, key: string): Option<string> {
    if key in settings then Some(settings[key]) else FirstDefault(defaults, key)
  }

  /** A setting that is there keeps its value, one that is not is given the first default for it, if there is one. */
  lemma {:induction false} DefaultsExactly(settings: map<string, string>, defaults: seq<Setting>, key: string)
    ensures var r := WithDefaults(settings, defaults);
            (if key in r then Some(r[key]) else None) == ValueAfter(settings, defaults, key)
  {
    if defaults == [] {
    } else {
      var front, last := defaults[..|defaults| - 1], defaults[|defaults| - 1];
      assert defaults == front + [last];
      DefaultsExactly(settings, front, key);
      FirstDefaultOfMore(front, last, key);
    }
  }

  /** The setting of before the pass, or else its default, if that is not empty; the fallback otherwise. */
  function Carried(db: Db, pass: Pass, key: string, fallback: string): string {
    var v := ValueAfter(db.base.settings, pass.defaults, key);
    if v.Some? && v.value != "" then v.value else fallback
  }

  lemma SettingIsCarried(db: Db, pass: Pass, key: string, fallback: string)
    ensures SettingOr(Migrated(db, pass).base.settings, key, fallback) == Carried(db, pass, key, fallback)
  {
    DefaultsExactly(db.base.settings, pass.defaults, key);
  }

  /** The default configuration that a pass makes. */
  ghost function NewConfig(db: Db, pass: Pass): AiConfigs.AiConfig {
    DefaultConfig(Migrated(db, pass).base.settings, db.configs.lastId + 1, pass.now)
  }

  lemma EmptyTableIsFilled(db: Db, pass: Pass)
    requires db.configs.rows == []
    ensures Migrated(db, pass).configs == ConfigTable([NewConfig(db, pass)], db.configs.lastId + 1)
  {
    AiConfigs.MigratedConfigsSettled([]);
    DefaultConfigExactly(db.configs, Migrated(db, pass).base.settings, pass.now);
  }

  /** Where there was no configuration, the one made holds in each column what the settings have under its own key. */
  lemma SettingsGoToTheirColumns(db: Db, pass: Pass)
    requires db.configs.rows == []
    ensures var t := Migrated(db, pass).configs;
            && |t.rows| == 1 && t.rows[0].id == t.lastId == db.configs.lastId + 1
            && t.rows[0].projectId.None? && t.rows[0].name == "默认配置"
            && t.rows[0].provider == Carried(db, pass, "chat.provider", "openai")
            && t.rows[0].baseUrl == Carried(db, pass, "chat.baseUrl", "")
            && t.rows[0].apiKey == Carried(db, pass, "chat.apiKey", "")
            && t.rows[0].model == Carried(db, pass, "chat.model", "gpt-5.5")
            && t.rows[0].temperature == Carried(db, pass, "chat.temperature", "0.3")
            && t.rows[0].thinkingDepth.None? && t.rows[0].thinkingBudget.None?
            && t.rows[0].createdAt == t.rows[0].updatedAt == pass.now
  {
    EmptyTableIsFilled(db, pass);
    NewConfigExactly(db, pass);
  }

  function WithSetting(db: Db, key: string, value: string): Db {
    db.(base := db.base.(settings := db.base.settings[key := value]))
  }

  /** The configuration with these values of the settings. */
  function ConfigOf(id: int, now: int, provider: string, baseUrl: string, apiKey: string, model: string, temperature: string): AiConfigs.AiConfig {
    AiConfigs.AiConfig(id, None, "默认配置", provider, baseUrl, apiKey, model, temperature, None, None, now, now)
  }

  lemma NewConfigExactly(db: Db, pass: Pass)
    ensures NewConfig(db, pass)
            == ConfigOf(db.configs.lastId + 1, pass.now,
                        Carried(db, pass, "chat.provider", "openai"), Carried(db, pass, "chat.baseUrl", ""),
                        Carried(db, pass, "chat.apiKey", ""), Carried(db, pass, "chat.model", "gpt-5.5"),
                        Carried(db, pass, "chat.temperature", "0.3"))
  {
    SettingIsCarried(db, pass, "chat.provider", "openai");
    SettingIsCarried(db, pass, "chat.baseUrl", "");
    SettingIsCarried(db, pass, "chat.apiKey", "");
    SettingIsCarried(db, pass, "chat.model", "gpt-5.5");
    SettingIsCarried(db, pass, "chat.temperature", "0.3");
  }

  lemma CarriedWithSetting(db: Db, pass: Pass, key: string, value: string, other: string, fallback: string)
    requires value != ""
    ensures Carried(WithSetting(db, key, value), pass, other, fallback)
            == if other == key then value else Carried(db, pass, other, fallback)
  {
  }

  /** Another value of one setting changes the column of that setting and no other. */
  lemma OneSettingOneColumn(db: Db, pass: Pass, key: string, value: string)
    requires value != ""
    ensures var c := NewConfig(db, pass);
            NewConfig(WithSetting(db, key, value), pass)
            == ConfigOf(c.id, pass.now,
                        if key == "chat.provider" then value else c.provider,
                        if key == "chat.baseUrl" then value else c.baseUrl,
                        if key == "chat.apiKey" then value else c.apiKey,
                        if key == "chat.model" then value else c.model,
                        if key == "chat.temperature" then value else c.temperature)
  {
    NewConfigExactly(db, pass);
    NewConfigExactly(WithSetting(db, key, value), pass);
    CarriedWithSetting(db, pass, key, value, "chat.provider", "openai");
    CarriedWithSetting(db, pass, key, value, "chat.baseUrl", "");
    CarriedWithSetting(db, pass, key, value, "chat.apiKey", "");
    CarriedWithSetting(db, pass, key, value, "chat.model", "gpt-5.5");
    CarriedWithSetting(db, pass, key, value, "chat.temperature", "0.3");
  }

  /** The state row that the default project of `db` is given if it has none. */
  ghost predicate Carries(s: ProjectState, l: LegacyState) {
    && s.phase == (if l.phase != "" then l.phase else "idle")
    && s.intervalSeconds == (if l.intervalSeconds != 0 then l.intervalSeconds else 5)
    && s.validationCommand == l.validationCommand
    && s.lastIssueHash == (if l.lastIssueHash == Some("") then None else l.lastIssueHash)
    && s.lastError == (if l.lastError == Some("") then None else l.lastError)
    && s.updatedAt == l.updatedAt
  }

  /**
   * Where there were no projects, there is one afterwards, in the workspace of the older row; the default project
   * has a state that does not run, and one that is new has the older row's columns, or the values of a fresh start.
   */
  lemma LegacyRowIsCarried(db: Db, pass: Pass)
    ensures var b, r := db.base, Migrated(db, pass).base;
            && (b.projects == [] ==>
                  && |r.projects| == 1 && r.projects[0].id == r.lastProjectId == b.lastProjectId + 1
                  && r.projects[0].workspacePath == (if b.legacy.Some? then b.legacy.value.workspacePath else "")
                  && r.projects[0].name == "默认项目" && r.projects[0].description == "从旧版单项目数据自动迁移"
                  && r.projects[0].createdAt == r.projects[0].updatedAt == pass.now)
            && (b.projects != [] ==> r.projects == b.projects && r.lastProjectId == b.lastProjectId)
            && (HasState(b.states, DefaultProject(b)) ==> r.states == b.states)
            && (!HasState(b.states, DefaultProject(b)) ==>
                  && |r.states| == |b.states| + 1 && r.states[..|b.states|] == b.states
                  && var s := r.states[|b.states|];
                     && s.projectId == DefaultProject(b) && !s.running
                     && (b.legacy.Some? ==> Carries(s, b.legacy.value))
                     && (b.legacy.None? ==> Carries(s, LegacyState("", "", 0, "", None, None, pass.now))))
            && r.legacy == b.legacy
  {
  }
}
