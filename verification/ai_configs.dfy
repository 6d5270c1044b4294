// The AI configurations become global: duplicates by identity are removed, the smallest identifier of
// each group stays, and the conversations of the removed ones are pointed at it.

module AiConfigs {
  import opened JsText
  import Sorting

  /** A row of ai_configs; only the last two columns of its identity may be NULL. */
  datatype AiConfig = AiConfig(
    id: int, projectId: Option<int>,
    name: string, provider: string, baseUrl: string, apiKey: string, model: string, temperature: string,
    thinkingDepth: Option<string>, thinkingBudget: Option<int>,
    createdAt: int, updatedAt: int)

  datatype Conversation = Conversation(
    id: int, projectId: Option<int>, title: string, aiConfigId: Option<int>, createdAt: int, updatedAt: int, rest: string)

  /** The identity of a configuration; a depth of NULL counts as the empty text. */
  datatype ConfigKey = ConfigKey(
    name: string, provider: string, baseUrl: string, apiKey: string, model: string, temperature: string,
    depth: string, budget: Option<int>)

  function Key(c: AiConfig): ConfigKey {
    ConfigKey(c.name, c.provider, c.baseUrl, c.apiKey, c.model, c.temperature,
              if c.thinkingDepth.Some? then c.thinkingDepth.value else "", c.thinkingBudget)
  }

  predicate DistinctIds(rows: seq<AiConfig>) {
    forall i, j | 0 <= i < j < |rows| :: rows[i].id != rows[j].id
  }

  predicate DistinctKeys(rows: seq<AiConfig>) {
    forall i, j | 0 <= i < j < |rows| :: Key(rows[i]) != Key(rows[j])
  }

  /** All that two configurations hold is equal, a missing depth being an empty one; identifiers and times aside. */
  predicate HoldSame(a: AiConfig, b: AiConfig) {
    && a.name == b.name && a.provider == b.provider && a.baseUrl == b.baseUrl && a.apiKey == b.apiKey && a.model == b.model
    && a.temperature == b.temperature && a.thinkingBudget == b.thinkingBudget
    && a.thinkingDepth.UnwrapOr("") == b.thinkingDepth.UnwrapOr("")
  }

  lemma SameKeyExactly(a: AiConfig, b: AiConfig)
    ensures Key(a) == Key(b) <==> HoldSame(a, b)
  {
  }

  // What the migration means.

  /** UPDATE ai_configs SET project_id = NULL. */
  function Globals(rows: seq<AiConfig>): (r: seq<AiConfig>)
    ensures |r| == |rows|
    ensures forall i | 0 <= i < |rows| :: r[i] == rows[i].(projectId := None)
  {
    seq(|rows|, i requires 0 <= i < |rows| => rows[i].(projectId := None))
  }

  /** The smallest identifier under a key. */
  function Smallest(rows: seq<AiConfig>, key: ConfigKey): Option<int> {
    if rows == [] then None
    else
      var m := Smallest(rows[..|rows| - 1], key);
      var c := rows[|rows| - 1];
      if Key(c) == key && (m.None? || c.id < m.value) then Some(c.id) else m
  }

  predicate Kept(rows: seq<AiConfig>, c: AiConfig) {
    Smallest(rows, Key(c)) == Some(c.id)
  }

  /** The part of `some` that is kept in `rows`. */
  function KeptOf(rows: seq<AiConfig>, some: seq<AiConfig>): seq<AiConfig> {
    if some == [] then []
    else
      var front := KeptOf(rows, some[..|some| - 1]);
      var c := some[|some| - 1];
      if Kept(rows, c) then front + [c] else front
  }

  function Deduped(rows: seq<AiConfig>): seq<AiConfig> {
    KeptOf(rows, rows)
  }

  function Find(rows: seq<AiConfig>, id: int): Option<AiConfig> {
    if rows == [] then None
    else if rows[|rows| - 1].id == id then Some(rows[|rows| - 1])
    else Find(rows[..|rows| - 1], id)
  }

  /** Where a reference leads after the removal; None if it leads to no configuration. */
  function Target(rows: seq<AiConfig>, id: int): Option<int> {
    match Find(rows, id)
    case None => None
    case Some(c) => Smallest(rows, Key(c))
  }

  /** The reference is to a configuration that is removed. */
  predicate Stale(rows: seq<AiConfig>, v: Conversation) {
    v.aiConfigId.Some? && Target(rows, v.aiConfigId.value) !in {None, v.aiConfigId}
  }

  function Repointed(rows: seq<AiConfig>, v: Conversation, now: int): Conversation {
    if Stale(rows, v) then v.(aiConfigId := Target(rows, v.aiConfigId.value), updatedAt := now) else v
  }

  function RepointedAll(rows: seq<AiConfig>, vs: seq<Conversation>, now: int): (r: seq<Conversation>)
    ensures |r| == |vs|
    ensures forall i | 0 <= i < |vs| :: r[i] == Repointed(rows, vs[i], now)
  {
    seq(|vs|, i requires 0 <= i < |vs| => Repointed(rows, vs[i], now))
  }

  // Facts about the smallest identifier and about lookups.

  lemma {:induction false} SmallestIsLeast(rows: seq<AiConfig>, key: ConfigKey)
    ensures forall c | c in rows && Key(c) == key :: Smallest(rows, key).Some? && Smallest(rows, key).value <= c.id
    ensures Smallest(rows, key).Some? ==> exists c | c in rows :: Key(c) == key && c.id == Smallest(rows, key).value
  {
    if rows == [] {
    } else {
      SmallestIsLeast(rows[..|rows| - 1], key);
      assert rows == rows[..|rows| - 1] + [rows[|rows| - 1]];
    }
  }

  lemma {:induction false} KeptOfHas(rows: seq<AiConfig>, some: seq<AiConfig>, c: AiConfig)
    ensures c in KeptOf(rows, some) <==> c in some && Kept(rows, c)
  {
    if some == [] {
    } else {
      KeptOfHas(rows, some[..|some| - 1], c);
      assert some == some[..|some| - 1] + [some[|some| - 1]];
    }
  }

  lemma {:induction false} FindIsRow(rows: seq<AiConfig>, c: AiConfig)
    requires DistinctIds(rows) && c in rows
    ensures Find(rows, c.id) == Some(c)
  {
    var front, last := rows[..|rows| - 1], rows[|rows| - 1];
    assert rows == front + [last];
    forall i | 0 <= i < |front| ensures front[i].id != last.id {
      assert rows[i].id != rows[|rows| - 1].id;
    }
    if last.id != c.id {
      FindIsRow(front, c);
    }
  }

  lemma {:induction false} FindInRows(rows: seq<AiConfig>, id: int)
    ensures Find(rows, id).Some? ==> Find(rows, id).value in rows && Find(rows, id).value.id == id
    ensures Find(rows, id).None? ==> forall c | c in rows :: c.id != id
  {
    if rows == [] {
    } else {
      FindInRows(rows[..|rows| - 1], id);
      assert rows == rows[..|rows| - 1] + [rows[|rows| - 1]];
    }
  }

  lemma {:induction false} KeptOfIsDistinct(rows: seq<AiConfig>, some: seq<AiConfig>)
    requires DistinctIds(some)
    ensures DistinctIds(KeptOf(rows, some)) && DistinctKeys(KeptOf(rows, some))
  {
    if some == [] {
    } else {
      var front, last := some[..|some| - 1], some[|some| - 1];
      KeptOfIsDistinct(rows, front);
      forall c | c in KeptOf(rows, front) && Kept(rows, last) ensures c.id != last.id && Key(c) != Key(last) {
        KeptOfHas(rows, front, c);
        var i :| 0 <= i < |front| && front[i] == c;
        assert some[i].id != some[|some| - 1].id;
      }
    }
  }

  // Properties.

  /** Afterwards no two configurations hold the same, and identifiers stay distinct. */
  lemma NoTwoShareKey(rows: seq<AiConfig>)
    requires DistinctIds(rows)
    ensures DistinctKeys(Deduped(rows)) && DistinctIds(Deduped(rows))
    ensures forall i, j | 0 <= i < j < |Deduped(rows)| :: !HoldSame(Deduped(rows)[i], Deduped(rows)[j])
  {
    KeptOfIsDistinct(rows, rows);
    forall i, j | 0 <= i < j < |Deduped(rows)| ensures !HoldSame(Deduped(rows)[i], Deduped(rows)[j]) {
      SameKeyExactly(Deduped(rows)[i], Deduped(rows)[j]);
    }
  }

  /** Every key is still there, on the row that had the smallest identifier under it. */
  lemma EveryKeyKept(rows: seq<AiConfig>, c: AiConfig) returns (d: AiConfig)
    requires DistinctIds(rows) && c in rows
    ensures d in Deduped(rows) && d in rows && Key(d) == Key(c)
    ensures forall e | e in rows && Key(e) == Key(c) :: d.id <= e.id
  {
    SmallestIsLeast(rows, Key(c));
    d :| d in rows && Key(d) == Key(c) && d.id == Smallest(rows, Key(c)).value;
    KeptOfHas(rows, rows, d);
  }

  /** What remains are rows that were there, unchanged, and exactly those smallest under their key. */
  lemma RemainingExactly(rows: seq<AiConfig>, c: AiConfig)
    ensures c in Deduped(rows) <==> c in rows && forall e | e in rows && HoldSame(e, c) :: c.id <= e.id
  {
    forall e ensures Key(e) == Key(c) <==> HoldSame(e, c) {
      SameKeyExactly(e, c);
    }
    KeptOfHas(rows, rows, c);
    SmallestIsLeast(rows, Key(c));
  }

  /** A reference to a configuration leads afterwards to one that exists and has the same key. */
  lemma ReferencesKeepMeaning(rows: seq<AiConfig>, v: Conversation, now: int, c: AiConfig) returns (d: AiConfig)
    requires DistinctIds(rows) && c in rows && v.aiConfigId == Some(c.id)
    ensures d in Deduped(rows) && Key(d) == Key(c)
    ensures Repointed(rows, v, now).aiConfigId == Some(d.id)
  {
    FindIsRow(rows, c);
    d := EveryKeyKept(rows, c);
    SmallestIsLeast(rows, Key(c));
  }

  /** A conversation changes exactly if its configuration is removed, and then in two columns only. */
  lemma RepointedExactly(rows: seq<AiConfig>, v: Conversation, now: int)
    requires DistinctIds(rows)
    ensures Stale(rows, v) <==> exists c | c in rows :: v.aiConfigId == Some(c.id) && c !in Deduped(rows)
    ensures !Stale(rows, v) ==> Repointed(rows, v, now) == v
    ensures Repointed(rows, v, now).(aiConfigId := v.aiConfigId, updatedAt := v.updatedAt) == v
  {
    if v.aiConfigId.Some? {
      var id := v.aiConfigId.value;
      FindInRows(rows, id);
      match Find(rows, id)
      case None =>
      case Some(c) =>
        SmallestIsLeast(rows, Key(c));
        KeptOfHas(rows, rows, c);
        forall e | e in rows && e.id == id ensures e == c {
          FindIsRow(rows, e);
        }
    }
  }

  /** Where keys are distinct nothing is removed. */
  lemma {:induction false} NothingToRemove(rows: seq<AiConfig>, some: seq<AiConfig>)
    requires DistinctKeys(rows) && forall c | c in some :: c in rows
    ensures KeptOf(rows, some) == some
  {
    if some == [] {
    } else {
      var front, last := some[..|some| - 1], some[|some| - 1];
      assert some == front + [last];
      NothingToRemove(rows, front);
      SoleUnderKey(rows, last);
    }
  }

  lemma SoleUnderKey(rows: seq<AiConfig>, c: AiConfig)
    requires DistinctKeys(rows) && c in rows
    ensures Kept(rows, c)
  {
    SmallestIsLeast(rows, Key(c));
    var d :| d in rows && Key(d) == Key(c) && d.id == Smallest(rows, Key(c)).value;
    var i :| 0 <= i < |rows| && rows[i] == c;
    var j :| 0 <= j < |rows| && rows[j] == d;
    assert i < j || i == j || j < i;
  }

  /** Nor is any conversation changed. */
  lemma NothingStale(rows: seq<AiConfig>, v: Conversation)
    requires DistinctKeys(rows)
    ensures !Stale(rows, v)
  {
    if v.aiConfigId.Some? {
      FindInRows(rows, v.aiConfigId.value);
      if Find(rows, v.aiConfigId.value).Some? {
        SoleUnderKey(rows, Find(rows, v.aiConfigId.value).value);
      }
    }
  }

  // The migration as a whole.

  function MigratedConfigs(rows: seq<AiConfig>): seq<AiConfig> {
    Deduped(Globals(rows))
  }

  function MigratedReferences(rows: seq<AiConfig>, vs: seq<Conversation>, now: int): (r: seq<Conversation>)
    ensures |r| == |vs|
  {
    RepointedAll(Globals(rows), vs, now)
  }

  /** Where all rows are global and keys are distinct, a pass changes nothing at any time. */
  lemma SettledConfigsStay(rows: seq<AiConfig>, vs: seq<Conversation>, now: int)
    requires DistinctKeys(rows) && forall c | c in rows :: c.projectId.None?
    ensures MigratedConfigs(rows) == rows && MigratedReferences(rows, vs, now) == vs
  {
    assert forall i | 0 <= i < |rows| :: rows[i] in rows;
    assert Globals(rows) == rows;
    NothingToRemove(rows, rows);
    forall i | 0 <= i < |vs| ensures RepointedAll(rows, vs, now)[i] == vs[i] {
      NothingStale(rows, vs[i]);
    }
  }

  /** The result of a pass is of that kind. */
  lemma MigratedConfigsSettled(rows: seq<AiConfig>)
    requires DistinctIds(rows)
    ensures DistinctKeys(MigratedConfigs(rows)) && DistinctIds(MigratedConfigs(rows))
    ensures forall c | c in MigratedConfigs(rows) :: c.projectId.None? && exists e | e in rows :: e.(projectId := None) == c
    ensures MigratedConfigs(rows) == [] <==> rows == []
  {
    var all := Globals(rows);
    NoTwoShareKey(all);
    forall c | c in MigratedConfigs(rows) ensures c.projectId.None? && exists e | e in rows :: e.(projectId := None) == c {
      KeptOfHas(all, all, c);
      var i :| 0 <= i < |all| && all[i] == c;
      assert rows[i] in rows;
    }
    if rows != [] {
      assert all[0] in all;
      var d := EveryKeyKept(all, all[0]);
    }
  }

  // The loops.

  /** The configurations of one key, in table order. */
  function Under(rows: seq<AiConfig>, key: ConfigKey): seq<AiConfig> {
    if rows == [] then []
    else
      var front := Under(rows[..|rows| - 1], key);
      if Key(rows[|rows| - 1]) == key then front + [rows[|rows| - 1]] else front
  }

  lemma {:induction false} UnderHas(rows: seq<AiConfig>, key: ConfigKey, c: AiConfig)
    ensures c in Under(rows, key) <==> c in rows && Key(c) == key
  {
    if rows == [] {
    } else {
      UnderHas(rows[..|rows| - 1], key, c);
      assert rows == rows[..|rows| - 1] + [rows[|rows| - 1]];
    }
  }

  lemma {:induction false} UnderDistinct(rows: seq<AiConfig>, key: ConfigKey)
    requires DistinctIds(rows)
    ensures DistinctIds(Under(rows, key))
  {
    if rows == [] {
    } else {
      var front, last := rows[..|rows| - 1], rows[|rows| - 1];
      UnderDistinct(front, key);
      forall c | c in Under(front, key) ensures c.id != last.id {
        UnderHas(front, key, c);
        var i :| 0 <= i < |front| && front[i] == c;
        assert rows[i].id != rows[|rows| - 1].id;
      }
    }
  }

  /** Each key with its configurations, and the keys in order of insertion. */
  ghost predicate Grouped(rows: seq<AiConfig>, keys: seq<ConfigKey>, groups: map<ConfigKey, seq<AiConfig>>) {
    && (forall k :: k in groups <==> k in keys)
    && (forall k :: Under(rows, k) == if k in groups then groups[k] else [])
    && (forall k | k in groups :: groups[k] != [])
    && (forall a, b | 0 <= a < b < |keys| :: keys[a] != keys[b])
  }

  lemma GroupedGrows(rows: seq<AiConfig>, i: nat, keys: seq<ConfigKey>, groups: map<ConfigKey, seq<AiConfig>>)
    requires i < |rows| && Grouped(rows[..i], keys, groups)
    ensures var c := rows[i];
            if Key(c) in groups then Grouped(rows[..i + 1], keys, groups[Key(c) := groups[Key(c)] + [c]])
            else Grouped(rows[..i + 1], keys + [Key(c)], groups[Key(c) := []][Key(c) := [] + [c]])
  {
    var c := rows[i];
    assert rows[..i + 1][..i] == rows[..i];
    forall k ensures Under(rows[..i + 1], k) == if Key(c) == k then Under(rows[..i], k) + [c] else Under(rows[..i], k) {
    }
  }

  method GroupByKey(rows: seq<AiConfig>) returns (keys: seq<ConfigKey>, groups: map<ConfigKey, seq<AiConfig>>)
    ensures Grouped(rows, keys, groups)
  {
    keys, groups := [], map[];
    for i := 0 to |rows|
      invariant Grouped(rows[..i], keys, groups)
    {
      var key := Key(rows[i]);
      GroupedGrows(rows, i, keys, groups);
      if key !in groups {
        keys := keys + [key];
        groups := groups[key := []];
      }
      groups := groups[key := groups[key] + [rows[i]]];
    }
    assert rows[..|rows|] == rows;
  }

  function ById(): Sorting.Order<AiConfig> {
    (a: AiConfig, b: AiConfig) => a.id < b.id
  }

  /** `groupRows.sort((a, b) => a.id - b.id)`. */
  function SortById(rows: seq<AiConfig>): seq<AiConfig> {
    Sorting.Sort(ById(), rows)
  }

  predicate Ascending(rows: seq<AiConfig>) {
    forall i, j | 0 <= i < j < |rows| :: rows[i].id < rows[j].id
  }

  lemma SortHas(rows: seq<AiConfig>, x: AiConfig)
    ensures x in SortById(rows) <==> x in rows
    ensures |SortById(rows)| == |rows|
  {
    Sorting.SortHas(ById(), rows, x);
  }

  lemma SortAscends(rows: seq<AiConfig>)
    requires DistinctIds(rows)
    ensures Ascending(SortById(rows))
  {
    assert forall i, j | 0 <= i < j < |rows| :: rows[i].id != rows[j].id;
    Sorting.SortSorts(ById(), rows);
    assert Sorting.Ascending(ById(), SortById(rows));
  }

  /** The first of a sorted group is kept, the others are not. */
  lemma FirstIsKept(rows: seq<AiConfig>, key: ConfigKey, i: nat)
    requires DistinctIds(rows) && i < |SortById(Under(rows, key))|
    ensures var sorted := SortById(Under(rows, key));
            && sorted[i] in rows && Key(sorted[i]) == key
            && Target(rows, sorted[i].id) == Smallest(rows, key) == Some(sorted[0].id)
            && (sorted[i].id == sorted[0].id <==> i == 0)
  {
    var group := Under(rows, key);
    var sorted := SortById(group);
    UnderDistinct(rows, key);
    SortAscends(group);
    SmallestIsLeast(rows, key);
    forall c ensures c in sorted <==> c in rows && Key(c) == key {
      SortHas(group, c);
      UnderHas(rows, key, c);
    }
    assert sorted[i] in sorted && sorted[0] in sorted;
    FindIsRow(rows, sorted[i]);
    var d :| d in rows && Key(d) == key && d.id == Smallest(rows, key).value;
    assert d in sorted;
  }

  function Ids(rows: seq<AiConfig>): (r: seq<int>)
    ensures |r| == |rows| && forall i | 0 <= i < |rows| :: r[i] == rows[i].id
  {
    seq(|rows|, i requires 0 <= i < |rows| => rows[i].id)
  }

  /** UPDATE conversations SET ai_config_id = ?, updated_at = ? WHERE ai_config_id IN (...). */
  function Repoint(vs: seq<Conversation>, removeIds: seq<int>, keepId: int, now: int): (r: seq<Conversation>)
    ensures |r| == |vs|
    ensures forall i | 0 <= i < |vs| ::
              r[i] == if vs[i].aiConfigId.Some? && vs[i].aiConfigId.value in removeIds
                      then vs[i].(aiConfigId := Some(keepId), updatedAt := now) else vs[i]
  {
    seq(|vs|, i requires 0 <= i < |vs| =>
      if vs[i].aiConfigId.Some? && vs[i].aiConfigId.value in removeIds
      then vs[i].(aiConfigId := Some(keepId), updatedAt := now) else vs[i])
  }

  /** DELETE FROM ai_configs WHERE id IN (...). */
  function Delete(rows: seq<AiConfig>, ids: seq<int>): seq<AiConfig> {
    if rows == [] then []
    else
      var front := Delete(rows[..|rows| - 1], ids);
      if rows[|rows| - 1].id in ids then front else front + [rows[|rows| - 1]]
  }

  /** The identifier is of a duplicate in one of these groups. */
  ghost predicate Removed(rows: seq<AiConfig>, keys: seq<ConfigKey>, id: int) {
    Find(rows, id).Some? && Key(Find(rows, id).value) in keys && Target(rows, id) != Some(id)
  }

  /** The conversations of removed configurations of these groups point at the ones that stay. */
  ghost predicate Partly(rows: seq<AiConfig>, keys: seq<ConfigKey>, vs: seq<Conversation>, now: int, updated: seq<Conversation>) {
    && |updated| == |vs|
    && forall x | 0 <= x < |vs| ::
         updated[x] == if vs[x].aiConfigId.Some? && Removed(rows, keys, vs[x].aiConfigId.value)
                       then Repointed(rows, vs[x], now) else vs[x]
  }

  lemma GivenUpIsRemoved(rows: seq<AiConfig>, key: ConfigKey, i: nat)
    requires DistinctIds(rows) && 0 < i < |SortById(Under(rows, key))|
    ensures Removed(rows, [key], SortById(Under(rows, key))[i].id)
  {
    FirstIsKept(rows, key, i);
    FindIsRow(rows, SortById(Under(rows, key))[i]);
  }

  lemma RemovedIsGivenUp(rows: seq<AiConfig>, key: ConfigKey, id: int) returns (i: nat)
    requires DistinctIds(rows) && Removed(rows, [key], id)
    ensures 0 < i < |SortById(Under(rows, key))| && SortById(Under(rows, key))[i].id == id
  {
    var sorted := SortById(Under(rows, key));
    var c := Find(rows, id).value;
    FindInRows(rows, id);
    UnderHas(rows, key, c);
    SortHas(Under(rows, key), c);
    i :| 0 <= i < |sorted| && sorted[i] == c;
    FirstIsKept(rows, key, i);
  }

  /** The identifiers that a group gives up are exactly its removed ones. */
  lemma GroupRemoves(rows: seq<AiConfig>, key: ConfigKey, id: int)
    requires DistinctIds(rows) && Under(rows, key) != []
    ensures var sorted := SortById(Under(rows, key));
            |sorted| > 0 && (id in Ids(sorted[1..]) <==> Removed(rows, [key], id))
  {
    var sorted := SortById(Under(rows, key));
    SortHas(Under(rows, key), Under(rows, key)[0]);
    var given := Ids(sorted[1..]);
    if id in given {
      var i :| 0 <= i < |given| && given[i] == id;
      GivenUpIsRemoved(rows, key, i + 1);
    } else if Removed(rows, [key], id) {
      var i := RemovedIsGivenUp(rows, key, id);
    }
  }

  /** One group more. */
  lemma RepointGroup(rows: seq<AiConfig>, keys: seq<ConfigKey>, key: ConfigKey,
                     vs: seq<Conversation>, now: int, updated: seq<Conversation>)
    requires DistinctIds(rows) && Under(rows, key) != [] && key !in keys
    requires Partly(rows, keys, vs, now, updated)
    ensures var sorted := SortById(Under(rows, key));
            |sorted| > 0 && Partly(rows, keys + [key], vs, now, Repoint(updated, Ids(sorted[1..]), sorted[0].id, now))
  {
    var sorted := SortById(Under(rows, key));
    GroupRemoves(rows, key, 0);
    FirstIsKept(rows, key, 0);
    var r := Repoint(updated, Ids(sorted[1..]), sorted[0].id, now);
    forall x | 0 <= x < |vs| && vs[x].aiConfigId.Some?
      ensures r[x] == if Removed(rows, keys + [key], vs[x].aiConfigId.value) then Repointed(rows, vs[x], now) else vs[x]
    {
      var id := vs[x].aiConfigId.value;
      GroupRemoves(rows, key, id);
      if Removed(rows, keys, id) {
        TargetStays(rows, id);
        GroupRemoves(rows, key, Target(rows, id).value);
      }
    }
  }

  /** Where a reference leads to is not removed itself. */
  lemma TargetStays(rows: seq<AiConfig>, id: int)
    requires DistinctIds(rows) && Find(rows, id).Some?
    ensures var t := Target(rows, id);
            t.Some? && Target(rows, t.value) == t
  {
    FindInRows(rows, id);
    var c := Find(rows, id).value;
    SmallestIsLeast(rows, Key(c));
    var d :| d in rows && Key(d) == Key(c) && d.id == Smallest(rows, Key(c)).value;
    FindIsRow(rows, d);
  }

  /** A group of one has nothing to give up. */
  lemma SoleGroup(rows: seq<AiConfig>, key: ConfigKey, id: int)
    requires DistinctIds(rows) && |Under(rows, key)| == 1
    ensures !Removed(rows, [key], id)
  {
    GroupRemoves(rows, key, id);
    SortHas(Under(rows, key), Under(rows, key)[0]);
  }

  lemma {:induction false} DeleteIsKeptOf(rows: seq<AiConfig>, some: seq<AiConfig>, ids: seq<int>)
    requires forall c | c in some :: c.id in ids <==> !Kept(rows, c)
    ensures Delete(some, ids) == KeptOf(rows, some)
  {
    if some == [] {
    } else {
      assert some == some[..|some| - 1] + [some[|some| - 1]];
      DeleteIsKeptOf(rows, some[..|some| - 1], ids);
    }
  }

  /** The duplicates, group by group, with the conversations following. */
  method RemapDuplicates(rows: seq<AiConfig>, vs: seq<Conversation>, now: int)
    returns (duplicateIds: seq<int>, updated: seq<Conversation>)
    requires DistinctIds(rows)
    ensures forall c | c in rows :: c.id in duplicateIds <==> !Kept(rows, c)
    ensures updated == RepointedAll(rows, vs, now)
  {
    var keys, groups := GroupByKey(rows);
    duplicateIds, updated := [], vs;
    for n := 0 to |keys|
      invariant Partly(rows, keys[..n], vs, now, updated)
      invariant forall id :: id in duplicateIds <==> Removed(rows, keys[..n], id)
    {
      var key := keys[n];
      assert key in keys && keys[..n + 1] == keys[..n] + [key];
      ghost var before := duplicateIds;
      if |groups[key]| > 1 {
        var sorted := SortById(groups[key]);
        RepointGroup(rows, keys[..n], key, vs, now, updated);
        var removeIds := Ids(sorted[1..]);
        updated := Repoint(updated, removeIds, sorted[0].id, now);
        duplicateIds := duplicateIds + removeIds;
      }
      forall id ensures id in duplicateIds <==> id in before || Removed(rows, [key], id) {
        if |groups[key]| > 1 {
          GroupRemoves(rows, key, id);
        } else {
          SoleGroup(rows, key, id);
        }
      }
    }
    assert keys[..|keys|] == keys;
    AllGroupsDone(rows, keys, vs, now, updated);
  }

  lemma AllGroupsDone(rows: seq<AiConfig>, keys: seq<ConfigKey>, vs: seq<Conversation>, now: int, updated: seq<Conversation>)
    requires DistinctIds(rows) && Partly(rows, keys, vs, now, updated)
    requires forall k | k !in keys :: Under(rows, k) == []
    ensures updated == RepointedAll(rows, vs, now)
    ensures forall c | c in rows :: Removed(rows, keys, c.id) <==> !Kept(rows, c)
  {
    forall c | c in rows ensures Key(c) in keys && Find(rows, c.id) == Some(c) {
      UnderHas(rows, Key(c), c);
      FindIsRow(rows, c);
    }
    forall x | 0 <= x < |vs| && vs[x].aiConfigId.Some?
      ensures Removed(rows, keys, vs[x].aiConfigId.value) <==> Stale(rows, vs[x])
    {
      var id := vs[x].aiConfigId.value;
      FindInRows(rows, id);
      if Find(rows, id).Some? {
        TargetStays(rows, id);
      }
    }
  }

  /** `migrateAiConfigsToGlobal`. */
  method MigrateAiConfigsToGlobal(configs: seq<AiConfig>, conversations: seq<Conversation>, now: int)
    returns (rows: seq<AiConfig>, updated: seq<Conversation>)
    requires DistinctIds(configs)
    ensures rows == MigratedConfigs(configs)
    ensures updated == MigratedReferences(configs, conversations, now)
  {
    rows := Globals(configs);
    var duplicateIds;
    duplicateIds, updated := RemapDuplicates(rows, conversations, now);
    DeleteIsKeptOf(rows, rows, duplicateIds);
    if |duplicateIds| > 0 {
      rows := Delete(rows, duplicateIds);
    } else {
      DeleteNothing(rows);
    }
  }

  lemma {:induction false} DeleteNothing(rows: seq<AiConfig>)
    ensures Delete(rows, []) == rows
  {
    if rows == [] {
    } else {
      DeleteNothing(rows[..|rows| - 1]);
    }
  }
}
