// Where every chat message goes: its project and its conversation after the migration, told from the tables
// before it.

module ChatHomes {
  import opened JsText
  import opened AiConfigs
  import opened ChatMessages

  /** A default conversation of the project. */
  ghost predicate IsDefaultOf(v: Conversation, p: Option<int>) {
    v.projectId == p && v.title == "默认对话"
  }

  /** The messages keep their conversation, or get a default one of their project. */
  ghost predicate GoesTo(vs: seq<Conversation>, was: Message, m: Message) {
    || m == was
    || (was.conversationId.None? && exists v | v in vs :: IsDefaultOf(v, was.projectId) && m == was.(conversationId := Some(v.id)))
  }

  lemma MoreHomes(vs: seq<Conversation>, more: seq<Conversation>, was: Message, m: Message)
    requires vs <= more && GoesTo(vs, was, m)
    ensures GoesTo(more, was, m)
  {
    if m != was {
      var v :| v in vs && IsDefaultOf(v, was.projectId) && m == was.(conversationId := Some(v.id));
      assert v in more;
    }
  }

  /** The turn of a project sends its loose messages to a default conversation of it, and touches no other. */
  lemma TurnGoesTo(c: Chats, p: int, now: int, pick: Pick, i: nat)
    requires Picks(pick) && i < |c.messages|
    ensures var r := FileProject(c, p, now, pick);
            |r.messages| == |c.messages| && c.conversations <= r.conversations && GoesTo(r.conversations, c.messages[i], r.messages[i])
  {
    if HasLoose(c.messages, p) {
      var found := Defaults(c.conversations, p);
      if found != [] {
        DefaultsHas(c.conversations, p, pick(found));
        assert Loose(c.messages[i], p) ==> IsDefaultOf(pick(found), c.messages[i].projectId);
      } else {
        var v := NewDefault(c.lastId + 1, p, now);
        assert v in FileProject(c, p, now, pick).conversations;
        assert Loose(c.messages[i], p) ==> IsDefaultOf(v, c.messages[i].projectId);
      }
    }
  }

  lemma {:induction false} FiledGoesTo(c: Chats, projects: seq<int>, now: int, pick: Pick, i: nat)
    requires Picks(pick) && i < |c.messages|
    ensures var r := Filed(c, projects, now, pick);
            |r.messages| == |c.messages| && GoesTo(r.conversations, c.messages[i], r.messages[i])
  {
    if projects == [] {
    } else {
      var front, last := projects[..|projects| - 1], projects[|projects| - 1];
      FiledGoesTo(c, front, now, pick, i);
      var before := Filed(c, front, now, pick);
      TurnGoesTo(before, last, now, pick, i);
      MoreHomes(before.conversations, FileProject(before, last, now, pick).conversations, c.messages[i], before.messages[i]);
    }
  }

  /** The project that rows without one are given: the default one, 1 standing for 0. */
  function Given(defaultProject: int): Option<int> {
    if defaultProject != 0 then Some(defaultProject) else Some(1)
  }

  lemma ProjectIsHome(c: Chats, defaultProject: int, i: nat, v: Conversation)
    requires Valid(c) && i < |c.messages| && v in c.conversations && c.messages[i].conversationId == Some(v.id)
    ensures Settled(c, Fallback(defaultProject)).messages[i].projectId == if v.projectId.Some? then v.projectId else Given(defaultProject)
  {
    var vs := Housed(c.conversations, Fallback(defaultProject));
    var k :| 0 <= k < |c.conversations| && c.conversations[k] == v;
    HousedKeeps(c, Fallback(defaultProject));
    assert vs[k] in vs;
    ProjectOfRow(vs, vs[k]);
  }

  lemma ProjectWithoutHome(c: Chats, defaultProject: int, i: nat)
    requires i < |c.messages| && forall v | v in c.conversations :: c.messages[i].conversationId != Some(v.id)
    ensures Settled(c, Fallback(defaultProject)).messages[i].projectId
            == if c.messages[i].projectId.Some? then c.messages[i].projectId else Given(defaultProject)
  {
    HomeIsThere(c.conversations, Fallback(defaultProject), c.messages[i].conversationId);
  }

  lemma HomeIsThere(vs: seq<Conversation>, fallback: int, id: Option<int>)
    ensures ProjectOf(Housed(vs, fallback), id).Some? ==> exists v | v in vs :: id == Some(v.id)
  {
    if ProjectOf(Housed(vs, fallback), id).Some? {
      ProjectOfFound(Housed(vs, fallback), id.value);
      var v :| v in Housed(vs, fallback) && v.id == id.value;
      var k :| 0 <= k < |vs| && Housed(vs, fallback)[k] == v;
      assert vs[k] in vs;
    }
  }

  /**
   * A message ends in the project of its conversation, if that exists, and else in its own; one that has none of
   * its own, or a conversation that has none, in the default project. One without a conversation ends in a default
   * conversation of its project, if the project exists, and else without. Nothing else about it changes.
   */
  lemma MessageGoesHome(c: Chats, projects: seq<int>, defaultProject: int, now: int, pick: Pick, i: nat)
    requires Valid(c) && Picks(pick) && i < |c.messages|
    ensures var r := MigratedChats(c, projects, defaultProject, now, pick);
            |r.messages| == |c.messages| &&
            var was, m := c.messages[i], r.messages[i];
            && m.(projectId := was.projectId, conversationId := was.conversationId) == was && m.projectId.Some?
            && (forall v | v in c.conversations && was.conversationId == Some(v.id) ::
                  m.projectId == if v.projectId.Some? then v.projectId else Given(defaultProject))
            && ((forall v | v in c.conversations :: was.conversationId != Some(v.id)) ==>
                  m.projectId == if was.projectId.Some? then was.projectId else Given(defaultProject))
            && (was.conversationId.Some? ==> m.conversationId == was.conversationId)
            && (was.conversationId.None? && m.conversationId.Some? ==>
                  exists v | v in r.conversations :: IsDefaultOf(v, m.projectId) && m.conversationId == Some(v.id))
            && (was.conversationId.None? ==> (m.conversationId.Some? <==> m.projectId.value in projects))
  {
    var settled := Settled(c, Fallback(defaultProject));
    var was := c.messages[i];
    FiledGoesTo(settled, projects, now, pick, i);
    FiledKeeps(settled, projects, now, pick, i);
    SettledIsSound(c, Fallback(defaultProject));
    FiledIsSound(settled, projects, now, pick);
    LooseIsFiled(settled, projects, now, pick, i);
    forall v | v in c.conversations && was.conversationId == Some(v.id)
      ensures settled.messages[i].projectId == if v.projectId.Some? then v.projectId else Given(defaultProject)
    {
      ProjectIsHome(c, defaultProject, i, v);
    }
    if forall v | v in c.conversations :: was.conversationId != Some(v.id) {
      ProjectWithoutHome(c, defaultProject, i);
    }
  }

  lemma LooseIsFiled(c: Chats, projects: seq<int>, now: int, pick: Pick, i: nat)
    requires i < |c.messages| && c.messages[i].projectId.Some? && Picks(pick) && Valid(c) && Sound(c)
    ensures var r := Filed(c, projects, now, pick);
            |r.messages| == |c.messages| &&
            r.messages[i].projectId.Some? &&
            (c.messages[i].conversationId.None? ==> (r.messages[i].conversationId.Some? <==> r.messages[i].projectId.value in projects))
  {
    FiledKeeps(c, projects, now, pick, i);
    FiledIsSound(c, projects, now, pick);
    var r := Filed(c, projects, now, pick);
    var m := r.messages[i];
    assert m in r.messages;
    if m.projectId.value in projects && m.conversationId.None? {
      assert Loose(m, m.projectId.value);
      assert false;
    }
  }

  /** A new conversation is titled, numbered on from the last identifier, and of the time of the pass. */
  lemma {:induction false} NewConversation(c: Chats, projects: seq<int>, now: int, pick: Pick, k: nat)
    requires k < |Filed(c, projects, now, pick).conversations| - |c.conversations|
    ensures var r := Filed(c, projects, now, pick);
            var v := r.conversations[|c.conversations| + k];
            && r.lastId == c.lastId + |r.conversations| - |c.conversations| && v.id == c.lastId + 1 + k
            && v.projectId.Some? && v.projectId.value in projects && v.title == "默认对话"
            && v.aiConfigId.None? && v.createdAt == v.updatedAt == now && v.rest == ""
  {
    if projects == [] {
    } else {
      var front, last := projects[..|projects| - 1], projects[|projects| - 1];
      assert projects == front + [last];
      var before := Filed(c, front, now, pick);
      FiledOnlyAdds(c, front, now, pick);
      LastIdCounts(c, front, now, pick);
      LastIdCounts(c, projects, now, pick);
      if k < |before.conversations| - |c.conversations| {
        NewConversation(c, front, now, pick, k);
      }
    }
  }

  lemma {:induction false} LastIdCounts(c: Chats, projects: seq<int>, now: int, pick: Pick)
    ensures var r := Filed(c, projects, now, pick); r.lastId == c.lastId + |r.conversations| - |c.conversations|
  {
    if projects == [] {
    } else {
      LastIdCounts(c, projects[..|projects| - 1], now, pick);
    }
  }
}
