// Every chat message gets a project and, in the projects that exist, a conversation: the projects of
// conversations and messages are filled in and aligned, and messages without a conversation go to the
// default conversation of their project, which is created where there is none.

module ChatMessages {
  import opened JsText
  import opened AiConfigs

  datatype Message = Message(id: int, projectId: Option<int>, conversationId: Option<int>, rest: string)

  /** The two tables and the last conversation identifier handed out. */
  datatype Chats = Chats(conversations: seq<Conversation>, lastId: int, messages: seq<Message>)

  const DEFAULT_TITLE := "默认对话"

  /** Which of several rows a SELECT without ORDER BY yields first. */
  type Pick = seq<Conversation> -> Conversation

  ghost predicate Picks(pick: Pick) {
    forall s: seq<Conversation> | s != [] :: pick(s) in s
  }

  function Fallback(defaultProject: int): int {
    if defaultProject == 0 then 1 else defaultProject
  }

  function Housed(vs: seq<Conversation>, fallback: int): (r: seq<Conversation>)
    ensures |r| == |vs|
    ensures forall i | 0 <= i < |vs| :: r[i] == if vs[i].projectId.None? then vs[i].(projectId := Some(fallback)) else vs[i]
  {
    seq(|vs|, i requires 0 <= i < |vs| => if vs[i].projectId.None? then vs[i].(projectId := Some(fallback)) else vs[i])
  }

  /** The project of the conversation with this identifier; None if there is no such conversation. */
  function ProjectOf(vs: seq<Conversation>, id: Option<int>): Option<int> {
    if vs == [] || id.None? then None
    else if vs[|vs| - 1].id == id.value then vs[|vs| - 1].projectId
    else ProjectOf(vs[..|vs| - 1], id)
  }

  /** The two updates of messages: fill in a missing project, then follow the conversation. */
  function Filled(vs: seq<Conversation>, m: Message, fallback: int): Message {
    if m.projectId.Some? then m
    else m.(projectId := if ProjectOf(vs, m.conversationId).Some? then ProjectOf(vs, m.conversationId) else Some(fallback))
  }

  function Aligned(vs: seq<Conversation>, m: Message): Message {
    var home := ProjectOf(vs, m.conversationId);
    if home.Some? && m.projectId.Some? && m.projectId != home then m.(projectId := home) else m
  }

  function FilledAll(vs: seq<Conversation>, ms: seq<Message>, fallback: int): (r: seq<Message>)
    ensures |r| == |ms|
    ensures forall i | 0 <= i < |ms| :: r[i] == Filled(vs, ms[i], fallback)
  {
    seq(|ms|, i requires 0 <= i < |ms| => Filled(vs, ms[i], fallback))
  }

  function AlignedAll(vs: seq<Conversation>, ms: seq<Message>): (r: seq<Message>)
    ensures |r| == |ms|
    ensures forall i | 0 <= i < |ms| :: r[i] == Aligned(vs, ms[i])
  {
    seq(|ms|, i requires 0 <= i < |ms| => Aligned(vs, ms[i]))
  }

  function Settled(c: Chats, fallback: int): Chats {
    var vs := Housed(c.conversations, fallback);
    Chats(vs, c.lastId, AlignedAll(vs, FilledAll(vs, c.messages, fallback)))
  }

  /** A message of the project without a conversation. */
  predicate Loose(m: Message, p: int) {
    m.projectId == Some(p) && m.conversationId.None?
  }

  predicate HasLoose(ms: seq<Message>, p: int) {
    exists m | m in ms :: Loose(m, p)
  }

  function Defaults(vs: seq<Conversation>, p: int): seq<Conversation> {
    if vs == [] then []
    else
      var front := Defaults(vs[..|vs| - 1], p);
      var v := vs[|vs| - 1];
      if v.projectId == Some(p) && v.title == DEFAULT_TITLE then front + [v] else front
  }

  function Attach(ms: seq<Message>, p: int, conversation: int): (r: seq<Message>)
    ensures |r| == |ms|
    ensures forall i | 0 <= i < |ms| :: r[i] == if Loose(ms[i], p) then ms[i].(conversationId := Some(conversation)) else ms[i]
  {
    seq(|ms|, i requires 0 <= i < |ms| => if Loose(ms[i], p) then ms[i].(conversationId := Some(conversation)) else ms[i])
  }

  function NewDefault(id: int, p: int, now: int): Conversation {
    Conversation(id, Some(p), DEFAULT_TITLE, None, now, now, "")
  }

  /** The turn of one project. */
  function FileProject(c: Chats, p: int, now: int, pick: Pick): Chats {
    if !HasLoose(c.messages, p) then c
    else if Defaults(c.conversations, p) != [] then
      c.(messages := Attach(c.messages, p, pick(Defaults(c.conversations, p)).id))
    else
      Chats(c.conversations + [NewDefault(c.lastId + 1, p, now)], c.lastId + 1, Attach(c.messages, p, c.lastId + 1))
  }

  function Filed(c: Chats, projects: seq<int>, now: int, pick: Pick): Chats {
    if projects == [] then c
    else FileProject(Filed(c, projects[..|projects| - 1], now, pick), projects[|projects| - 1], now, pick)
  }

  function MigratedChats(c: Chats, projects: seq<int>, defaultProject: int, now: int, pick: Pick): Chats {
    Filed(Settled(c, Fallback(defaultProject)), projects, now, pick)
  }

  /** `migrateChatMessagesToConversation`. */
  method MigrateChatMessagesToConversation(c: Chats, projects: seq<int>, defaultProject: int, now: int, pick: Pick)
    returns (r: Chats)
    ensures r == MigratedChats(c, projects, defaultProject, now, pick)
  {
    var fallback := if defaultProject == 0 then 1 else defaultProject;
    var conversations := Housed(c.conversations, fallback);
    var messages := FilledAll(conversations, c.messages, fallback);
    messages := AlignedAll(conversations, messages);
    var lastId := c.lastId;
    for i := 0 to |projects|
      invariant Chats(conversations, lastId, messages) == Filed(Settled(c, fallback), projects[..i], now, pick)
    {
      var p := projects[i];
      assert projects[..i + 1][..i] == projects[..i];
      if HasLoose(messages, p) {
        var found := Defaults(conversations, p);
        var conversation;
        if found != [] {
          conversation := pick(found).id;
        } else {
          lastId := lastId + 1;
          conversations := conversations + [NewDefault(lastId, p, now)];
          conversation := lastId;
        }
        messages := Attach(messages, p, conversation);
      }
    }
    assert projects[..|projects|] == projects;
    r := Chats(conversations, lastId, messages);
  }

  // Integrity.

  /** Identifiers are distinct and handed out, and messages name only identifiers that were handed out. */
  ghost predicate Valid(c: Chats) {
    && (forall i, j | 0 <= i < j < |c.conversations| :: c.conversations[i].id != c.conversations[j].id)
    && (forall v | v in c.conversations :: v.id <= c.lastId)
    && (forall m | m in c.messages && m.conversationId.Some? :: m.conversationId.value <= c.lastId)
  }

  /** Everything has a project, and a message that of its conversation if that exists. */
  ghost predicate Sound(c: Chats) {
    && (forall v | v in c.conversations :: v.projectId.Some?)
    && (forall m | m in c.messages :: m.projectId.Some?)
    && (forall m, v | m in c.messages && v in c.conversations :: m.conversationId == Some(v.id) ==> m.projectId == v.projectId)
  }

  lemma {:induction false} ProjectOfRow(vs: seq<Conversation>, v: Conversation)
    requires forall i, j | 0 <= i < j < |vs| :: vs[i].id != vs[j].id
    requires v in vs
    ensures ProjectOf(vs, Some(v.id)) == v.projectId
  {
    var front, last := vs[..|vs| - 1], vs[|vs| - 1];
    assert vs == front + [last];
    forall i | 0 <= i < |front| ensures front[i].id != last.id {
      assert vs[i].id != vs[|vs| - 1].id;
    }
    if v != last {
      ProjectOfRow(front, v);
    }
  }

  lemma {:induction false} ProjectOfFound(vs: seq<Conversation>, id: int)
    ensures ProjectOf(vs, Some(id)).Some? ==> exists v | v in vs :: v.id == id && v.projectId == ProjectOf(vs, Some(id))
  {
    if vs == [] {
    } else {
      ProjectOfFound(vs[..|vs| - 1], id);
      assert vs == vs[..|vs| - 1] + [vs[|vs| - 1]];
    }
  }

  lemma HousedKeeps(c: Chats, fallback: int)
    requires Valid(c)
    ensures Valid(c.(conversations := Housed(c.conversations, fallback)))
    ensures forall v | v in Housed(c.conversations, fallback) :: v.projectId.Some?
  {
  }

  lemma SettledIsSound(c: Chats, fallback: int)
    requires Valid(c)
    ensures Valid(Settled(c, fallback)) && Sound(Settled(c, fallback))
  {
    var r := Settled(c, fallback);
    HousedKeeps(c, fallback);
    forall m | m in r.messages
      ensures m.projectId.Some? && (m.conversationId.Some? ==> m.conversationId.value <= r.lastId)
      ensures forall v | v in r.conversations :: m.conversationId == Some(v.id) ==> m.projectId == v.projectId
    {
      var i :| 0 <= i < |r.messages| && r.messages[i] == m;
      assert c.messages[i] in c.messages;
      forall v | v in r.conversations && m.conversationId == Some(v.id) ensures m.projectId == v.projectId {
        ProjectOfRow(r.conversations, v);
      }
    }
  }

  lemma {:induction false} DefaultsHas(vs: seq<Conversation>, p: int, v: Conversation)
    ensures v in Defaults(vs, p) <==> v in vs && v.projectId == Some(p) && v.title == DEFAULT_TITLE
  {
    if vs == [] {
    } else {
      DefaultsHas(vs[..|vs| - 1], p, v);
      assert vs == vs[..|vs| - 1] + [vs[|vs| - 1]];
    }
  }

  /** Attaching to a conversation of the project keeps messages sound. */
  lemma AttachIsSound(c: Chats, p: int, v: Conversation)
    requires Valid(c) && Sound(c) && v in c.conversations && v.projectId == Some(p)
    ensures var r := c.(messages := Attach(c.messages, p, v.id));
            Valid(r) && Sound(r) && !HasLoose(r.messages, p)
  {
  }

  /** A new conversation has an identifier that nothing names yet. */
  lemma InsertIsSound(c: Chats, p: int, now: int)
    requires Valid(c) && Sound(c)
    ensures var r := Chats(c.conversations + [NewDefault(c.lastId + 1, p, now)], c.lastId + 1, c.messages);
            Valid(r) && Sound(r) && NewDefault(c.lastId + 1, p, now) in r.conversations
  {
  }

  lemma FileProjectIsSound(c: Chats, p: int, now: int, pick: Pick)
    requires Valid(c) && Sound(c) && Picks(pick)
    ensures var r := FileProject(c, p, now, pick);
            Valid(r) && Sound(r) && !HasLoose(r.messages, p)
  {
    var found := Defaults(c.conversations, p);
    if HasLoose(c.messages, p) && found != [] {
      DefaultsHas(c.conversations, p, pick(found));
      AttachIsSound(c, p, pick(found));
    } else if HasLoose(c.messages, p) {
      var v := NewDefault(c.lastId + 1, p, now);
      InsertIsSound(c, p, now);
      AttachIsSound(Chats(c.conversations + [v], c.lastId + 1, c.messages), p, v);
    }
  }

  /** A turn makes no message loose. */
  lemma NoneComesLoose(c: Chats, p: int, now: int, pick: Pick, q: int)
    requires !HasLoose(c.messages, q)
    ensures !HasLoose(FileProject(c, p, now, pick).messages, q)
  {
  }

  lemma {:induction false} FiledIsSound(c: Chats, projects: seq<int>, now: int, pick: Pick)
    requires Valid(c) && Sound(c) && Picks(pick)
    ensures var r := Filed(c, projects, now, pick);
            Valid(r) && Sound(r) && forall p | p in projects :: !HasLoose(r.messages, p)
  {
    if projects == [] {
    } else {
      var front, last := projects[..|projects| - 1], projects[|projects| - 1];
      assert projects == front + [last];
      FiledIsSound(c, front, now, pick);
      var before := Filed(c, front, now, pick);
      FileProjectIsSound(before, last, now, pick);
      forall p | p in front ensures !HasLoose(Filed(c, projects, now, pick).messages, p) {
        NoneComesLoose(before, last, now, pick, p);
      }
    }
  }

  /**
   * Afterwards every message has a project, a message whose conversation exists has that of the
   * conversation, and every message of a known project has a conversation.
   */
  lemma MessageIntegrity(c: Chats, projects: seq<int>, defaultProject: int, now: int, pick: Pick)
    requires Valid(c) && Picks(pick)
    ensures var r := MigratedChats(c, projects, defaultProject, now, pick);
            && Valid(r) && Sound(r)
            && forall m | m in r.messages && m.projectId.value in projects :: m.conversationId.Some?
  {
    SettledIsSound(c, Fallback(defaultProject));
    FiledIsSound(Settled(c, Fallback(defaultProject)), projects, now, pick);
    var r := MigratedChats(c, projects, defaultProject, now, pick);
    forall m | m in r.messages && m.projectId.value in projects ensures m.conversationId.Some? {
      assert !HasLoose(r.messages, m.projectId.value) && !Loose(m, m.projectId.value);
    }
  }

  // What is kept, and what is created.

  /** One turn changes of the messages only what was loose, and of the conversations nothing. */
  lemma {:induction false} FiledKeeps(c: Chats, projects: seq<int>, now: int, pick: Pick, i: nat)
    requires i < |c.messages|
    ensures var r := Filed(c, projects, now, pick);
            && c.conversations <= r.conversations && |r.messages| == |c.messages|
            && r.messages[i].(conversationId := c.messages[i].conversationId) == c.messages[i]
            && (c.messages[i].conversationId.Some? || c.messages[i].projectId.None? || c.messages[i].projectId.value !in projects
                ==> r.messages[i] == c.messages[i])
  {
    if projects == [] {
    } else {
      var front := projects[..|projects| - 1];
      assert projects == front + [projects[|projects| - 1]];
      FiledKeeps(c, front, now, pick, i);
    }
  }

  /**
   * No message is lost or otherwise changed: it keeps its conversation if it has one, and changes its
   * project exactly if it has none or its conversation, after the first update, has another.
   */
  lemma NoMessageLost(c: Chats, projects: seq<int>, defaultProject: int, now: int, pick: Pick, i: nat)
    requires Valid(c) && i < |c.messages|
    ensures var r := MigratedChats(c, projects, defaultProject, now, pick);
            var m := c.messages[i];
            var home := ProjectOf(Housed(c.conversations, Fallback(defaultProject)), m.conversationId);
            && |r.messages| == |c.messages|
            && r.messages[i].(projectId := m.projectId, conversationId := m.conversationId) == m
            && (m.conversationId.Some? ==> r.messages[i].conversationId == m.conversationId)
            && (r.messages[i].projectId == m.projectId <==> m.projectId.Some? && home in {None, m.projectId})
            && (home.Some? ==> r.messages[i].projectId == home)
  {
    HousedKeeps(c, Fallback(defaultProject));
    FiledKeeps(Settled(c, Fallback(defaultProject)), projects, now, pick, i);
  }

  /** Conversations stay, in front and unchanged but for a missing project. */
  lemma ConversationsStay(c: Chats, projects: seq<int>, defaultProject: int, now: int, pick: Pick)
    ensures Housed(c.conversations, Fallback(defaultProject))
            <= MigratedChats(c, projects, defaultProject, now, pick).conversations
  {
    FiledOnlyAdds(Settled(c, Fallback(defaultProject)), projects, now, pick);
  }

  /** The conversations that the turns of the projects add. */
  ghost function Added(c: Chats, projects: seq<int>, now: int, pick: Pick): seq<Conversation> {
    var r := Filed(c, projects, now, pick);
    if |r.conversations| < |c.conversations| then [] else r.conversations[|c.conversations|..]
  }

  ghost predicate Wanting(c: Chats, p: int) {
    HasLoose(c.messages, p) && Defaults(c.conversations, p) == []
  }

  lemma {:induction false} FiledOnlyAdds(c: Chats, projects: seq<int>, now: int, pick: Pick)
    ensures c.conversations <= Filed(c, projects, now, pick).conversations
  {
    if projects == [] {
    } else {
      FiledOnlyAdds(c, projects[..|projects| - 1], now, pick);
    }
  }

  /** Turns of other projects leave what a project lacks as it is. */
  lemma {:induction false} OthersLeaveWanting(c: Chats, projects: seq<int>, now: int, pick: Pick, p: int)
    requires p !in projects
    ensures Wanting(Filed(c, projects, now, pick), p) == Wanting(c, p)
  {
    if projects == [] {
    } else {
      var front, last := projects[..|projects| - 1], projects[|projects| - 1];
      assert projects == front + [last];
      OthersLeaveWanting(c, front, now, pick, p);
      TurnLeavesWanting(Filed(c, front, now, pick), last, now, pick, p);
    }
  }

  lemma TurnLeavesWanting(c: Chats, q: int, now: int, pick: Pick, p: int)
    requires p != q
    ensures Wanting(FileProject(c, q, now, pick), p) == Wanting(c, p)
  {
  }

  predicate Distinct(projects: seq<int>) {
    forall i, j | 0 <= i < j < |projects| :: projects[i] != projects[j]
  }

  lemma DistinctFront(projects: seq<int>)
    requires Distinct(projects) && projects != []
    ensures var front, last := projects[..|projects| - 1], projects[|projects| - 1];
            Distinct(front) && last !in front && projects == front + [last]
  {
  }

  /** One new default conversation for each of the projects that want one, and no other. */
  ghost predicate OnePerWanting(c: Chats, projects: seq<int>, now: int, added: seq<Conversation>) {
    && (forall v | v in added :: v.projectId.Some? && v == NewDefault(v.id, v.projectId.value, now))
    && (forall v | v in added :: v.projectId.value in projects && Wanting(c, v.projectId.value))
    && (forall p | p in projects && Wanting(c, p) :: exists v | v in added :: v.projectId == Some(p))
    && (forall a, b | 0 <= a < b < |added| :: added[a].projectId != added[b].projectId)
  }

  /**
   * A default conversation is created for a project exactly if it has a loose message and no default
   * conversation, and never two for one project.
   */
  lemma {:induction false} CreatedExactly(c: Chats, projects: seq<int>, now: int, pick: Pick)
    requires Distinct(projects)
    ensures OnePerWanting(c, projects, now, Added(c, projects, now, pick))
  {
    if projects == [] {
    } else {
      DistinctFront(projects);
      var front := projects[..|projects| - 1];
      CreatedExactly(c, front, now, pick);
      AddedStep(c, projects, now, pick);
      OneMoreProject(c, projects, now, Added(c, front, now, pick), Added(c, projects, now, pick),
                     Filed(c, front, now, pick).lastId + 1);
    }
  }

  lemma AddedStep(c: Chats, projects: seq<int>, now: int, pick: Pick)
    requires Distinct(projects) && projects != []
    ensures var front, last := projects[..|projects| - 1], projects[|projects| - 1];
            Added(c, projects, now, pick)
            == Added(c, front, now, pick)
               + if Wanting(c, last) then [NewDefault(Filed(c, front, now, pick).lastId + 1, last, now)] else []
  {
    var front, last := projects[..|projects| - 1], projects[|projects| - 1];
    DistinctFront(projects);
    FiledOnlyAdds(c, front, now, pick);
    OthersLeaveWanting(c, front, now, pick, last);
  }

  lemma OneMoreProject(c: Chats, projects: seq<int>, now: int, added: seq<Conversation>, more: seq<Conversation>, id: int)
    requires Distinct(projects) && projects != []
    requires OnePerWanting(c, projects[..|projects| - 1], now, added)
    requires var last := projects[|projects| - 1];
             more == added + if Wanting(c, last) then [NewDefault(id, last, now)] else []
    ensures OnePerWanting(c, projects, now, more)
  {
  }

  // A second pass.

  lemma {:induction false} NothingToFile(c: Chats, projects: seq<int>, now: int, pick: Pick)
    requires forall p | p in projects :: !HasLoose(c.messages, p)
    ensures Filed(c, projects, now, pick) == c
  {
    if projects == [] {
    } else {
      NothingToFile(c, projects[..|projects| - 1], now, pick);
    }
  }

  lemma SoundIsSettled(c: Chats, fallback: int)
    requires Sound(c)
    ensures Settled(c, fallback) == c
  {
    forall i | 0 <= i < |c.conversations| ensures Housed(c.conversations, fallback)[i] == c.conversations[i] {
      assert c.conversations[i] in c.conversations;
    }
    assert Housed(c.conversations, fallback) == c.conversations;
    forall i | 0 <= i < |c.messages| ensures Settled(c, fallback).messages[i] == c.messages[i] {
      assert c.messages[i] in c.messages;
      if c.messages[i].conversationId.Some? {
        ProjectOfFound(c.conversations, c.messages[i].conversationId.value);
      }
    }
  }

  /** Over the result of a pass a second one changes nothing, whatever its time, fallback and picks. */
  lemma ChatsIdempotent(c: Chats, projects: seq<int>, defaultProject: int, now: int, pick: Pick,
                        laterDefault: int, later: int, laterPick: Pick)
    requires Valid(c) && Picks(pick)
    ensures var once := MigratedChats(c, projects, defaultProject, now, pick);
            MigratedChats(once, projects, laterDefault, later, laterPick) == once
  {
    var once := MigratedChats(c, projects, defaultProject, now, pick);
    SettledIsSound(c, Fallback(defaultProject));
    FiledIsSound(Settled(c, Fallback(defaultProject)), projects, now, pick);
    SoundIsSettled(once, Fallback(laterDefault));
    NothingToFile(once, projects, later, laterPick);
  }
}
