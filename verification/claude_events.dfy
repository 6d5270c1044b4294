// What a printer of Claude's event stream holds in the end, told from the events alone: the lines shown, the
// answer and the session id.

module ClaudeEvents {
  import opened JsText
  import opened LineStream
  import opened DedupWindow
  import opened ClaudeActivity

  // Compacting a text.

  /** No white space but single blanks, and none at the ends. */
  predicate Compact(s: string) {
    && (forall k | 0 <= k < |s| && IsSpace(s[k]) :: s[k] == ' ' && 0 < k < |s| - 1 && !IsSpace(s[k + 1]))
  }

  lemma {:induction false} TrimStartOfBlank(s: string)
    ensures TrimStart(s) == "" <==> Blank(s)
    ensures TrimStart(s) != "" ==> !IsSpace(TrimStart(s)[0])
  {
    if s != "" && IsSpace(s[0]) {
      TrimStartOfBlank(s[1..]);
      assert s == [s[0]] + s[1..];
      if Blank(s) {
        assert forall k | 0 <= k < |s| - 1 :: s[1..][k] == s[k + 1];
      }
    }
  }

  /** What follows white space is no white space. */
  predicate Spread(s: string) {
    forall k | 0 <= k < |s| && IsSpace(s[k]) :: s[k] == ' ' && (k + 1 < |s| ==> !IsSpace(s[k + 1]))
  }

  lemma SpreadMore(c: char, s: string)
    requires Spread(s) && (IsSpace(c) ==> c == ' ' && (s != "" ==> !IsSpace(s[0])))
    ensures Spread([c] + s)
  {
    var t := [c] + s;
    forall k | 0 <= k < |t| && IsSpace(t[k]) ensures t[k] == ' ' && (k + 1 < |t| ==> !IsSpace(t[k + 1])) {
      if k > 0 {
        assert t[k] == s[k - 1];
      }
    }
  }

  lemma {:induction false} CollapsedIsSpread(s: string)
    ensures var t := CollapseSpaces(s); Spread(t) && (t == "" <==> s == "") && (s != "" && !IsSpace(s[0]) ==> t[0] == s[0])
    decreases |s|
  {
    if s == "" {
    } else if IsSpace(s[0]) {
      TrimStartOfBlank(s[1..]);
      CollapsedIsSpread(TrimStart(s[1..]));
      SpreadMore(' ', CollapseSpaces(TrimStart(s[1..])));
    } else {
      CollapsedIsSpread(s[1..]);
      SpreadMore(s[0], CollapseSpaces(s[1..]));
    }
  }

  lemma {:induction false} InkOfCollapsed(s: string)
    ensures Ink(CollapseSpaces(s)) == Ink(s)
    decreases |s|
  {
    if s == "" {
    } else if IsSpace(s[0]) {
      var rest := CollapseSpaces(TrimStart(s[1..]));
      InkOfTrimStart(s[1..]);
      InkOfCollapsed(TrimStart(s[1..]));
      assert (" " + rest)[1..] == rest;
    } else {
      var rest := CollapseSpaces(s[1..]);
      InkOfCollapsed(s[1..]);
      assert ([s[0]] + rest)[1..] == rest;
    }
  }

  lemma TrimStartOfSpread(s: string)
    requires Spread(s)
    ensures TrimStart(s) == if s != "" && IsSpace(s[0]) then s[1..] else s
  {
    if s != "" && IsSpace(s[0]) && |s| > 1 {
      assert !IsSpace(s[1..][0]);
    }
  }

  lemma TrimEndOfSpread(s: string)
    requires Spread(s)
    ensures TrimEnd(s) == if s != "" && IsSpace(s[|s| - 1]) then s[..|s| - 1] else s
  {
    if |s| > 1 && IsSpace(s[|s| - 1]) {
      var k := |s| - 2;
      assert !IsSpace(s[k]);
    }
  }

  lemma TrimmedSpreadIsCompact(s: string)
    requires Spread(s)
    ensures Compact(Trim(s))
  {
    TrimStartOfSpread(s);
    var t := TrimStart(s);
    SpreadRest(s);
    TrimEndOfSpread(t);
    if s != "" && IsSpace(s[0]) && |s| > 1 {
      assert !IsSpace(t[0]);
    }
  }

  lemma SpreadRest(s: string)
    requires Spread(s)
    ensures s != "" ==> Spread(s[1..])
  {
  }

  /** Compacting changes nothing but white space, and leaves single blanks between the words. */
  lemma CompactTextExactly(s: string)
    ensures Compact(CompactText(s)) && Ink(CompactText(s)) == Ink(s)
    ensures Compact(s) ==> CompactText(s) == s
  {
    CollapsedIsSpread(s);
    TrimmedSpreadIsCompact(CollapseSpaces(s));
    InkOfCollapsed(s);
    InkOfTrim(CollapseSpaces(s));
    if Compact(s) {
      CollapseOfCompact(s);
    }
  }

  lemma CollapseOfCompact(s: string)
    requires Compact(s)
    ensures CompactText(s) == s
  {
    CollapseOfSpread(s);
    TrimStartOfSpread(s);
    TrimEndOfSpread(s);
  }

  lemma {:induction false} CollapseOfSpread(s: string)
    requires Spread(s)
    ensures CollapseSpaces(s) == s
    decreases |s|
  {
    if s == "" {
    } else {
      SpreadRest(s);
      CollapseOfSpread(s[1..]);
      if IsSpace(s[0]) && |s| > 1 {
        assert !IsSpace(s[1]) && TrimStart(s[1..]) == s[1..];
      }
    }
  }

  /** Exactly a blank text compacts to nothing. */
  lemma CompactIsEmptyExactly(s: string)
    ensures CompactText(s) == "" <==> Blank(s)
  {
    CompactTextExactly(s);
    InkOfBlank(s);
    InkOfBlank(CompactText(s));
  }

  // What one event says.

  /** A shown line has at most 200 characters; a longer text ends in dots. */
  function Cut(text: string): string {
    if |text| > 200 then text[..197] + "..." else text
  }

  /** The line of a text, if it is not blank. */
  ghost function LineOf(role: Role, text: string): seq<Line> {
    if Blank(text) then [] else [Line(role, Cut(CompactText(text)))]
  }

  ghost function ShownByAnswer(b: Block): seq<Line> {
    match b
    case TextBlock(text) => LineOf(Codex, text)
    case ToolUse(name, summary) => LineOf(Exec, if summary == "" then name else name + " " + summary)
    case _ => []
  }

  ghost function ShownByTool(words: Wording, b: Block): seq<Line> {
    match b
    case ToolResult(failed, text) =>
      LineOf(Info, (if failed then words.failedMark else "") + if Blank(text) then words.toolResult else CompactText(text))
    case _ => []
  }

  ghost function TextOf(b: Block): seq<string> {
    if b.TextBlock? && !Blank(b.text) then [b.text] else []
  }

  /** The events of some lines: those that can be read as one. */
  function EventsOf(cfg: Config, lines: seq<string>): seq<Event> {
    if lines == [] then []
    else
      var last := Trim(lines[|lines| - 1]);
      EventsOf(cfg, lines[..|lines| - 1]) + if last == "" || cfg.decode(last).None? then [] else [cfg.decode(last).value]
  }

  // Lines shown, texts and the id of a run of events; each block and each event adds to them.

  ghost function ShownByAnswers(bs: seq<Block>): seq<Line> {
    if bs == [] then [] else ShownByAnswers(bs[..|bs| - 1]) + ShownByAnswer(bs[|bs| - 1])
  }

  ghost function ShownByTools(words: Wording, bs: seq<Block>): seq<Line> {
    if bs == [] then [] else ShownByTools(words, bs[..|bs| - 1]) + ShownByTool(words, bs[|bs| - 1])
  }

  ghost function TextsOf(bs: seq<Block>): seq<string> {
    if bs == [] then [] else TextsOf(bs[..|bs| - 1]) + TextOf(bs[|bs| - 1])
  }

  ghost function ShownByEvent(words: Wording, e: Event): seq<Line> {
    match e
    case Assistant(blocks) => ShownByAnswers(blocks)
    case User(blocks) => ShownByTools(words, blocks)
    case Result(_, _, failed) => LineOf(Info, if failed then words.finishedWithError else words.finished)
    case OtherEvent => []
  }

  ghost function Shown(words: Wording, es: seq<Event>): seq<Line> {
    if es == [] then [] else Shown(words, es[..|es| - 1]) + ShownByEvent(words, es[|es| - 1])
  }

  ghost function Texts(es: seq<Event>): seq<string> {
    if es == [] then []
    else Texts(es[..|es| - 1]) + if es[|es| - 1].Assistant? then TextsOf(es[|es| - 1].blocks) else []
  }

  /** The texts of the result events that have one. */
  ghost function Results(es: seq<Event>): seq<string> {
    if es == [] then []
    else
      var e := es[|es| - 1];
      Results(es[..|es| - 1]) + if e.Result? && e.result.Some? && !Blank(e.result.value) then [e.result.value] else []
  }

  /** The valid session ids of the result events. */
  ghost function Sessions(es: seq<Event>): seq<string> {
    if es == [] then []
    else
      var e := es[|es| - 1];
      Sessions(es[..|es| - 1]) + if e.Result? && NormalizeSessionId(e.sessionId) != "" then [NormalizeSessionId(e.sessionId)] else []
  }

  function LastOf(ts: seq<string>): string {
    if ts == [] then "" else ts[|ts| - 1]
  }

  function Lined(ts: seq<string>): string {
    if ts == [] then "" else JoinLines(ts)
  }

  /** What a printer holds after these lines were shown and these texts collected. */
  ghost function Holding(max: nat, lines: seq<Line>, texts: seq<string>, results: seq<string>, sessions: seq<string>): Printer {
    Printer(PushAll(max, lines), LastOf(results), Lined(texts), LastOf(sessions))
  }

  ghost predicate NoneEmpty(ts: seq<string>) {
    forall t | t in ts :: t != ""
  }

  lemma CutExactly(text: string)
    ensures TruncateText(text, LINE_LIMIT) == Cut(text)
  {
  }

  /** Pushing a line is one more line shown, if it is not blank. */
  lemma PushLineShows(cfg: Config, lines: seq<Line>, role: Role, text: string)
    ensures PushLine(cfg, PushAll(cfg.max, lines), role, text) == PushAll(cfg.max, lines + LineOf(role, text))
  {
    CompactIsEmptyExactly(text);
    CutExactly(CompactText(text));
    assert (lines + LineOf(role, text))[..|lines|] == lines;
    if Blank(text) {
      assert lines + [] == lines;
    }
  }

  lemma {:induction false} JoinOneMore(ts: seq<string>, t: string)
    requires ts != []
    ensures JoinLines(ts + [t]) == JoinLines(ts) + "\n" + t
  {
    if |ts| == 1 {
      assert (ts + [t])[1..] == [t];
    } else {
      JoinOneMore(ts[1..], t);
      assert (ts + [t])[1..] == ts[1..] + [t];
    }
  }

  lemma {:induction false} LinedIsEmptyExactly(ts: seq<string>)
    requires NoneEmpty(ts)
    ensures Lined(ts) == "" <==> ts == []
  {
    if ts != [] {
      assert ts[0] in ts;
    }
  }

  /** A text that is not blank is shown and collected. */
  lemma TextShows(cfg: Config, lines: seq<Line>, texts: seq<string>, text: string)
    requires NoneEmpty(texts) && !Blank(text)
    ensures PushLine(cfg, PushAll(cfg.max, lines), Codex, CompactText(text)) == PushAll(cfg.max, lines + LineOf(Codex, text))
    ensures Lined(texts) + (if Lined(texts) != "" then "\n" else "") + text == Lined(texts + [text])
  {
    PushLineShows(cfg, lines, Codex, CompactText(text));
    CompactTextExactly(text);
    CompactTextExactly(CompactText(text));
    CompactIsEmptyExactly(text);
    CompactIsEmptyExactly(CompactText(text));
    LinedIsEmptyExactly(texts);
    if texts != [] {
      JoinOneMore(texts, text);
    }
  }

  /** A block of an answer. */
  lemma AnswerShows(cfg: Config, lines: seq<Line>, texts: seq<string>, results: seq<string>, sessions: seq<string>, b: Block)
    requires NoneEmpty(texts)
    ensures NoneEmpty(texts + TextOf(b))
    ensures AssistantBlock(cfg, Holding(cfg.max, lines, texts, results, sessions), b)
            == Holding(cfg.max, lines + ShownByAnswer(b), texts + TextOf(b), results, sessions)
  {
    assert lines + [] == lines && texts + [] == texts;
    match b
    case TextBlock(text) =>
      CompactIsEmptyExactly(text);
      if !Blank(text) {
        TextShows(cfg, lines, texts, text);
      }
    case ToolUse(name, summary) => PushLineShows(cfg, lines, Exec, if summary != "" then name + " " + summary else name);
    case _ =>
  }

  lemma ToolShows(cfg: Config, lines: seq<Line>, texts: seq<string>, results: seq<string>, sessions: seq<string>, b: Block)
    ensures UserBlock(cfg, Holding(cfg.max, lines, texts, results, sessions), b)
            == Holding(cfg.max, lines + ShownByTool(cfg.words, b), texts, results, sessions)
  {
    match b
    case ToolResult(failed, text) =>
      CompactIsEmptyExactly(text);
      var shown := if Blank(text) then cfg.words.toolResult else CompactText(text);
      assert "" + shown == shown;
      PushLineShows(cfg, lines, Info, ToolResultLine(cfg.words, failed, CompactText(text)));
    case _ => assert lines + [] == lines;
  }

  lemma ShownOneMore(lines: seq<Line>, front: seq<Block>, b: Block)
    ensures lines + ShownByAnswers(front + [b]) == (lines + ShownByAnswers(front)) + ShownByAnswer(b)
  {
    assert (front + [b])[..|front|] == front;
  }

  lemma TextsOneMore(texts: seq<string>, front: seq<Block>, b: Block)
    ensures texts + TextsOf(front + [b]) == (texts + TextsOf(front)) + TextOf(b)
  {
    assert (front + [b])[..|front|] == front;
  }

  /** One block more. */
  lemma AnswerAdds(cfg: Config, lines: seq<Line>, texts: seq<string>, results: seq<string>, sessions: seq<string>,
                   front: seq<Block>, b: Block)
    requires NoneEmpty(texts + TextsOf(front))
    ensures NoneEmpty(texts + TextsOf(front + [b]))
    ensures AssistantBlock(cfg, Holding(cfg.max, lines + ShownByAnswers(front), texts + TextsOf(front), results, sessions), b)
            == Holding(cfg.max, lines + ShownByAnswers(front + [b]), texts + TextsOf(front + [b]), results, sessions)
  {
    var shown, collected := lines + ShownByAnswers(front), texts + TextsOf(front);
    ShownOneMore(lines, front, b);
    TextsOneMore(texts, front, b);
    AnswerShows(cfg, shown, collected, results, sessions, b);
  }

  lemma ToolAdds(cfg: Config, lines: seq<Line>, texts: seq<string>, results: seq<string>, sessions: seq<string>,
                 front: seq<Block>, b: Block)
    ensures UserBlock(cfg, Holding(cfg.max, lines + ShownByTools(cfg.words, front), texts, results, sessions), b)
            == Holding(cfg.max, lines + ShownByTools(cfg.words, front + [b]), texts, results, sessions)
  {
    ToolShows(cfg, lines + ShownByTools(cfg.words, front), texts, results, sessions, b);
    assert (front + [b])[..|front|] == front;
    assert lines + ShownByTools(cfg.words, front) + ShownByTool(cfg.words, b) == lines + ShownByTools(cfg.words, front + [b]);
  }

  lemma BlocksOneMore(step: (Printer, Block) -> Printer, s: Printer, front: seq<Block>, b: Block)
    ensures Blocks(step, s, front + [b]) == step(Blocks(step, s, front), b)
  {
    assert (front + [b])[..|front|] == front;
  }

  lemma {:induction false} AnswersShow(cfg: Config, lines: seq<Line>, texts: seq<string>, results: seq<string>, sessions: seq<string>,
                                       bs: seq<Block>)
    requires NoneEmpty(texts)
    ensures NoneEmpty(texts + TextsOf(bs))
    ensures Blocks(AssistantStep(cfg), Holding(cfg.max, lines, texts, results, sessions), bs)
            == Holding(cfg.max, lines + ShownByAnswers(bs), texts + TextsOf(bs), results, sessions)
  {
    if bs == [] {
      assert lines + [] == lines && texts + [] == texts;
    } else {
      var front, b := bs[..|bs| - 1], bs[|bs| - 1];
      assert bs == front + [b];
      AnswersShow(cfg, lines, texts, results, sessions, front);
      BlocksOneMore(AssistantStep(cfg), Holding(cfg.max, lines, texts, results, sessions), front, b);
      AnswerAdds(cfg, lines, texts, results, sessions, front, b);
    }
  }

  lemma {:induction false} ToolsShow(cfg: Config, lines: seq<Line>, texts: seq<string>, results: seq<string>, sessions: seq<string>,
                                     bs: seq<Block>)
    ensures Blocks(UserStep(cfg), Holding(cfg.max, lines, texts, results, sessions), bs)
            == Holding(cfg.max, lines + ShownByTools(cfg.words, bs), texts, results, sessions)
  {
    if bs == [] {
      assert lines + [] == lines;
    } else {
      var front, b := bs[..|bs| - 1], bs[|bs| - 1];
      assert bs == front + [b];
      ToolsShow(cfg, lines, texts, results, sessions, front);
      BlocksOneMore(UserStep(cfg), Holding(cfg.max, lines, texts, results, sessions), front, b);
      ToolAdds(cfg, lines, texts, results, sessions, front, b);
    }
  }

  /** What a printer holds after some events. */
  ghost function After(cfg: Config, es: seq<Event>): Printer {
    Holding(cfg.max, Shown(cfg.words, es), Texts(es), Results(es), Sessions(es))
  }

  lemma ResultShows(cfg: Config, lines: seq<Line>, texts: seq<string>, results: seq<string>, sessions: seq<string>, e: Event)
    requires e.Result?
    ensures HandleResult(cfg, Holding(cfg.max, lines, texts, results, sessions), e)
            == Holding(cfg.max, lines + ShownByEvent(cfg.words, e), texts,
                       results + (if e.result.Some? && !Blank(e.result.value) then [e.result.value] else []),
                       sessions + if NormalizeSessionId(e.sessionId) != "" then [NormalizeSessionId(e.sessionId)] else [])
  {
    PushLineShows(cfg, lines, Info, FinishLine(cfg.words, e.failed));
    if e.result.Some? {
      CompactIsEmptyExactly(e.result.value);
    }
    assert results + [] == results && sessions + [] == sessions;
  }

  lemma EventShows(cfg: Config, es: seq<Event>, e: Event)
    requires NoneEmpty(Texts(es))
    ensures NoneEmpty(Texts(es + [e])) && HandleEvent(cfg, After(cfg, es), e) == After(cfg, es + [e])
  {
    assert (es + [e])[..|es|] == es;
    var lines, texts, results, sessions := Shown(cfg.words, es), Texts(es), Results(es), Sessions(es);
    assert lines + [] == lines && texts + [] == texts && results + [] == results && sessions + [] == sessions;
    match e
    case Assistant(blocks) => AnswersShow(cfg, lines, texts, results, sessions, blocks);
    case User(blocks) => ToolsShow(cfg, lines, texts, results, sessions, blocks);
    case Result(_, _, _) => ResultShows(cfg, lines, texts, results, sessions, e);
    case OtherEvent =>
  }

  /**
   * After any lines, a fresh printer holds the lines that their events show, in order, through the window; the last
   * result that is not blank; the texts of the answers, one to a line; and the last valid session id.
   */
  lemma {:induction false} EventsExactly(cfg: Config, lines: seq<string>)
    ensures NoneEmpty(Texts(EventsOf(cfg, lines)))
    ensures Fold(Handler(cfg), FRESH, lines) == After(cfg, EventsOf(cfg, lines))
  {
    if lines == [] {
    } else {
      var front, last := lines[..|lines| - 1], lines[|lines| - 1];
      var es := EventsOf(cfg, front);
      EventsExactly(cfg, front);
      FoldSnoc(Handler(cfg), FRESH, lines);
      if Trim(last) == "" || cfg.decode(Trim(last)).None? {
        assert es + [] == es;
      } else {
        EventShows(cfg, es, cfg.decode(Trim(last)).value);
      }
    }
  }

  /** The final text is the last result; without one, the texts of the answers; trimmed. */
  lemma FinalText(cfg: Config, lines: seq<string>)
    ensures var es := EventsOf(cfg, lines);
            ResultText(Fold(Handler(cfg), FRESH, lines)) == Trim(if Results(es) != [] then LastOf(Results(es)) else Lined(Texts(es)))
  {
    EventsExactly(cfg, lines);
    ResultsAreThere(EventsOf(cfg, lines));
  }

  lemma {:induction false} ResultsAreThere(es: seq<Event>)
    ensures Results(es) != [] ==> Trim(LastOf(Results(es))) != ""
  {
    if es != [] {
      ResultsAreThere(es[..|es| - 1]);
      var e := es[|es| - 1];
      if e.Result? && e.result.Some? && !Blank(e.result.value) {
        InkOfBlank(e.result.value);
        InkOfTrim(e.result.value);
      }
    }
  }
}
