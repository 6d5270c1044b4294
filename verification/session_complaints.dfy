// When a resume is given up for a new session, said of the text that the program printed.

module SessionComplaints {
  import opened JsText
  import opened TextPatterns
  import opened TextSpelling
  import opened SessionProtocol
  import opened LineStream
  import Claude = ClaudeActivity
  import CodexSession

  /** What a program says of a session that it does not know, as words with blanks between them. */
  function PhrasesOf(p: Provider): seq<seq<string>> {
    match p
    case Codex =>
      [["thread/resume"], ["resume failed"], ["no rollout found"], ["session", "not", "found"], ["session", "missing"],
       ["conversation", "not", "found"], ["unknown", "session"], ["invalid", "session"]]
    case Claude =>
      [["session", "not", "found"], ["unknown", "session"], ["invalid", "session"], ["conversation", "not", "found"],
       ["no", "conversation"]]
    case OpenCode => [["session", "not", "found"], ["unknown", "session"], ["invalid", "session"]]
    case OhMyPi => []
  }

  /** At i the text has the words, in any letter case, with white space between them. */
  ghost predicate Said(words: seq<string>, text: string, i: nat)
    decreases |words|, 0
  {
    && words != [] && SpelledAt(text, i, words[0])
    && (|words| > 1 ==> SaidNext(words[1..], text, i + |words[0]|))
  }

  /** Some blanks, and then the words. */
  ghost predicate SaidNext(words: seq<string>, text: string, n: nat)
    decreases |words|, 2
  {
    exists j :: SaidOn(words, text, n, j)
  }

  /** Blanks from n to j, and the words from there. */
  ghost predicate SaidOn(words: seq<string>, text: string, n: nat, j: nat)
    decreases |words|, 1
  {
    n < j <= |text| && Blank(text[n..j]) && Said(words, text, j)
  }

  ghost predicate SaidSomewhere(words: seq<string>, text: string) {
    exists i :: Said(words, text, i)
  }

  /** The text says one of the phrases somewhere. */
  ghost predicate SaysOne(p: Provider, text: string) {
    exists words | words in PhrasesOf(p) :: SaidSomewhere(words, text)
  }

  // The expressions find exactly these phrases.

  function PatternOf(words: seq<string>): Pattern
    requires words != []
  {
    if |words| == 1 then One(words[0]) else Then(Word(words[0]), Then(Blanks(true), PatternOf(words[1..])))
  }

  ghost predicate AllSmall(words: seq<string>) {
    forall k | 0 <= k < |words| :: Small(words[k])
  }

  lemma MoreAreSmall(words: seq<string>)
    requires AllSmall(words) && words != []
    ensures Small(words[0]) && AllSmall(words[1..])
  {
  }

  /** The words are at i exactly if the pattern begins there. */
  lemma {:induction false} SaidExactly(words: seq<string>, text: string, i: nat)
    requires words != [] && AllSmall(words) && i <= |text|
    ensures Match(PatternOf(words), text, i).Some? <==> Said(words, text, i)
    decreases |words|
  {
    MoreAreSmall(words);
    AtExactly(text, i, words[0]);
    var n := i + |words[0]|;
    if |words| == 1 {
      LastWord(words[0], text, i);
    } else if At(text, i, words[0]) {
      SaidExactly(words[1..], text, SkipBlanks(text, n));
      BlanksBetween(words[1..], text, n);
      MoreWords(words, text, i);
    } else {
      MoreWords(words, text, i);
    }
  }

  lemma LastWord(w: string, text: string, i: nat)
    requires i <= |text|
    ensures Match(PatternOf([w]), text, i).Some? <==> At(text, i, w)
  {
    assert PatternOf([w]) == Then(Word(w), Done);
    if At(text, i, w) {
      assert Match(Done, text, i + |w|) == Some(i + |w|);
    }
  }

  lemma MoreWords(words: seq<string>, text: string, i: nat)
    requires |words| > 1 && i <= |text|
    ensures var n := i + |words[0]|;
            Match(PatternOf(words), text, i).Some?
            <==> At(text, i, words[0]) && SkipBlanks(text, n) > n && Match(PatternOf(words[1..]), text, SkipBlanks(text, n)).Some?
  {
    var rest := Then(Blanks(true), PatternOf(words[1..]));
    assert PatternOf(words) == Then(Word(words[0]), rest);
    if At(text, i, words[0]) {
      var n := i + |words[0]|;
      assert Match(PatternOf(words), text, i) == Match(rest, text, n);
    }
  }

  /** Blanks and words are there for some end of the blanks exactly if they are for the end of all of them. */
  lemma BlanksBetween(words: seq<string>, text: string, n: nat)
    requires words != [] && Small(words[0]) && n <= |text|
    ensures SaidNext(words, text, n) <==> SkipBlanks(text, n) > n && Said(words, text, SkipBlanks(text, n))
  {
    SkippedAreBlank(text, n);
    if j :| SaidOn(words, text, n, j) {
      assert Said(words, text, j) && SpelledAt(text, j, words[0]);
      SpelledIsNoSpace(text, j, words[0]);
      BlanksExactly(text, n, j);
    }
    if SkipBlanks(text, n) > n && Said(words, text, SkipBlanks(text, n)) {
      assert SaidOn(words, text, n, SkipBlanks(text, n));
    }
  }

  /** The expression for words finds them exactly if the text says them. */
  lemma MentionsExactly(words: seq<string>, text: string)
    requires words != [] && AllSmall(words)
    ensures Mentions(PatternOf(words), text) <==> SaidSomewhere(words, text)
  {
    if i: nat :| Begins(PatternOf(words), text, i) {
      SaidExactly(words, text, i);
    }
    if i :| Said(words, text, i) {
      SaidExactly(words, text, i);
      assert Begins(PatternOf(words), text, i);
    }
  }

  lemma ThreeWords(w1: string, w2: string, w3: string)
    ensures PatternOf([w1, w2, w3]) == Three(w1, w2, w3) && PatternOf([w1, w2]) == Two(w1, w2) && PatternOf([w1]) == One(w1)
  {
    assert [w1, w2, w3][1..] == [w2, w3] && [w2, w3][1..] == [w3] && [w1, w2][1..] == [w2];
    assert PatternOf([w2, w3]) == Two(w2, w3);
  }

  lemma ShortWordsAreSmall()
    ensures Small("not") && Small("found") && Small("no") && Small("session")
  {
  }

  lemma LongWordsAreSmall()
    ensures Small("missing") && Small("unknown") && Small("invalid")
  {
  }

  lemma ConversationIsSmall()
    ensures Small("conversation")
  {
  }

  lemma ResumeIsSmall()
    ensures Small("thread/resume")
  {
  }

  lemma FailedIsSmall()
    ensures Small("resume failed")
  {
  }

  lemma RolloutIsSmall()
    ensures Small("no rollout found")
  {
  }

  /** Expression number k is the one of phrase number k. */
  ghost predicate Agree(p: Provider, k: nat)
    requires k < |Complaints(p)| && k < |PhrasesOf(p)|
  {
    var words := PhrasesOf(p)[k];
    words != [] && AllSmall(words) && Complaints(p)[k] == PatternOf(words)
  }

  lemma OpenCodeAgrees()
    ensures |Complaints(OpenCode)| == |PhrasesOf(OpenCode)| == 3
    ensures Agree(OpenCode, 0) && Agree(OpenCode, 1) && Agree(OpenCode, 2)
  {
    ThreeWords("session", "not", "found");
    ThreeWords("unknown", "session", "");
    ThreeWords("invalid", "session", "");
    ShortWordsAreSmall();
    LongWordsAreSmall();
  }

  lemma ClaudeAgrees()
    ensures |Complaints(Claude)| == |PhrasesOf(Claude)| == 5
    ensures Agree(Claude, 0) && Agree(Claude, 1) && Agree(Claude, 2) && Agree(Claude, 3) && Agree(Claude, 4)
  {
    ThreeWords("session", "not", "found");
    ThreeWords("unknown", "session", "");
    ThreeWords("invalid", "session", "");
    ThreeWords("conversation", "not", "found");
    ThreeWords("no", "conversation", "");
    ShortWordsAreSmall();
    LongWordsAreSmall();
    ConversationIsSmall();
  }

  lemma CodexWordsAgree()
    ensures |Complaints(Codex)| == |PhrasesOf(Codex)| == 8
    ensures Agree(Codex, 0) && Agree(Codex, 1) && Agree(Codex, 2)
  {
    ThreeWords("thread/resume", "", "");
    ThreeWords("resume failed", "", "");
    ThreeWords("no rollout found", "", "");
    ResumeIsSmall();
    FailedIsSmall();
    RolloutIsSmall();
  }

  lemma CodexAgrees()
    ensures Agree(Codex, 3) && Agree(Codex, 4) && Agree(Codex, 5) && Agree(Codex, 6) && Agree(Codex, 7)
  {
    ThreeWords("session", "not", "found");
    ThreeWords("session", "missing", "");
    ThreeWords("conversation", "not", "found");
    ThreeWords("unknown", "session", "");
    ThreeWords("invalid", "session", "");
    ShortWordsAreSmall();
    LongWordsAreSmall();
    ConversationIsSmall();
  }

  lemma AllAgree(p: Provider)
    ensures |Complaints(p)| == |PhrasesOf(p)|
    ensures forall k | 0 <= k < |Complaints(p)| :: Agree(p, k)
  {
    match p
    case Codex =>
      CodexWordsAgree();
      CodexAgrees();
    case Claude => ClaudeAgrees();
    case OpenCode => OpenCodeAgrees();
    case OhMyPi =>
  }

  lemma ListsAgree(cs: seq<Pattern>, phrases: seq<seq<string>>, text: string)
    requires |cs| == |phrases|
    requires forall k | 0 <= k < |cs| :: phrases[k] != [] && AllSmall(phrases[k]) && cs[k] == PatternOf(phrases[k])
    ensures (exists c | c in cs :: Mentions(c, text)) <==> exists words | words in phrases :: SaidSomewhere(words, text)
  {
    if c :| c in cs && Mentions(c, text) {
      var k :| 0 <= k < |cs| && cs[k] == c;
      MentionsExactly(phrases[k], text);
      assert phrases[k] in phrases;
    }
    if words :| words in phrases && SaidSomewhere(words, text) {
      var k :| 0 <= k < |phrases| && phrases[k] == words;
      MentionsExactly(words, text);
      assert cs[k] in cs;
    }
  }

  /** A text complains exactly if it says one of the phrases, in any letter case and spacing. */
  lemma ComplainsExactly(p: Provider, text: string)
    ensures Complains(p, text) <==> SaysOne(p, text)
  {
    AllAgree(p);
    var cs, phrases := Complaints(p), PhrasesOf(p);
    forall k | 0 <= k < |cs| ensures phrases[k] != [] && AllSmall(phrases[k]) && cs[k] == PatternOf(phrases[k]) {
      assert Agree(p, k);
    }
    ListsAgree(cs, phrases, text);
  }

  /** The session that a run asks to resume; empty if none. */
  function Requested(p: Provider, planned: bool, sessionId: string, planSession: string): string {
    match p
    case Codex => sessionId
    case Claude => sessionId
    case OpenCode => if planned then Claude.NormalizeSessionId(planSession) else ""
    case OhMyPi => ""
  }

  /** The text in which the phrases are looked for. */
  function Printed(p: Provider, a: Attempt): string {
    match p
    case Claude => (if a.launched then Concat(a.chunks) else "") + a.rest + "\n" + a.errorMessage
    case _ => (if a.launched then Concat(a.chunks) else "") + a.rest
  }

  /**
   * The first start resumes the session that is asked for, or begins a new one, or one without sessions for
   * oh-my-pi; a second one always begins a new session. A run starts a second time exactly if it had a session to resume, the resume ended with an exit code that
   * is not 0 and was not cancelled, and what it printed says that the session is not known, for Codex without
   * naming any session.
   */
  lemma SecondStartExactly(p: Provider, planned: bool, sessionId: string, planSession: string, program: Program)
    ensures var op := OperationOf(p, planned, sessionId, planSession);
            var calls, a := CallsOf(op, planSession, program), program(0, First(op, planSession));
            && op.requested == Requested(p, planned, sessionId, planSession)
            && calls[0] == Invocation(if op.requested != "" then Resume else if p.OhMyPi? then Plain else New, op.requested, planSession)
            && 1 <= |calls| <= 2
            && (|calls| == 2 ==> calls[1] == Invocation(New, "", if p.OpenCode? && planned then "" else planSession))
            && (|calls| == 2 <==> op.requested != "" && a.exitCode != 0 && !a.cancelled && SaysOne(p, Printed(p, a))
                                  && (p.Codex? ==> CodexSession.NamesNoId(Printed(p, a))))
  {
    var op := OperationOf(p, planned, sessionId, planSession);
    var a := program(0, First(op, planSession));
    EvidenceIsPrinted(p, a);
    ComplainsExactly(p, Printed(p, a));
    CodexSession.ExtractsNothingExactly(Output(a));
    assert op.missing(a) == ResumeMissing(p, a);
  }

  /**
   * What a finished run of OpenCode or oh-my-pi names: the session that was resumed; after a new one of a plan that
   * was launched, the valid form of what the search by title found; otherwise none.
   */
  lemma NamedExactly(p: Provider, planned: bool, sessionId: string, planSession: string, events: Claude.Config, program: Program)
    requires p.OpenCode? || p.OhMyPi?
    ensures var op := OperationOf(p, planned, sessionId, planSession);
            var calls, r := CallsOf(op, planSession, program), RunResult(p, planned, op, planSession, events, program);
            var n := |calls| - 1;
            n >= 0 &&
            var call, last := calls[n], program(n, calls[n]);
            && (r.Cancelled? <==> last.cancelled)
            && (r.Finished? ==> r.mode == call.mode && r.timedOut == last.timedOut
                                && r.sessionId == if call.mode.Resume? then call.session
                                                  else if p.OpenCode? && planned && last.launched then Claude.NormalizeSessionId(last.lookup)
                                                  else "")
  {
    var op := OperationOf(p, planned, sessionId, planSession);
    if FallsBack(op, planSession, program) {
      TwoStarts(op, planSession, program);
    } else {
      OneStart(op, planSession, program);
    }
  }

  lemma EvidenceIsPrinted(p: Provider, a: Attempt)
    ensures Evidence(p, a) == Printed(p, a) && (p.Codex? ==> Output(a) == Printed(p, a))
  {
    assert Concat([]) == "";
  }

  lemma SpelledWithin(before: string, s: string, after: string, i: nat, w: string)
    requires SpelledAt(s, i, w)
    ensures SpelledAt(before + s + after, |before| + i, w)
  {
    assert (before + s + after)[|before| + i..|before| + i + |w|] == s[i..i + |w|];
  }

  lemma {:induction false} SaidWithin(before: string, s: string, after: string, i: nat, words: seq<string>)
    requires Said(words, s, i)
    ensures Said(words, before + s + after, |before| + i)
    decreases |words|
  {
    SpelledWithin(before, s, after, i, words[0]);
    if |words| > 1 {
      var n := i + |words[0]|;
      assert SaidNext(words[1..], s, n);
      var j: nat :| SaidOn(words[1..], s, n, j);
      SaidWithin(before, s, after, j, words[1..]);
      assert (before + s + after)[|before| + n..|before| + j] == s[n..j];
      assert SaidOn(words[1..], before + s + after, |before| + n, |before| + j);
    }
  }

  /** A text with a phrase in it complains, whatever is around it. */
  lemma PhraseComplains(p: Provider, words: seq<string>, before: string, phrase: string, after: string)
    requires words in PhrasesOf(p) && Said(words, phrase, 0)
    ensures Complains(p, before + phrase + after)
  {
    SaidWithin(before, phrase, after, 0, words);
    assert SaidSomewhere(words, before + phrase + after);
    ComplainsExactly(p, before + phrase + after);
  }
}
