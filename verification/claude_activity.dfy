// ClaudeStreamJsonPrinter: turns the event stream of the Claude command line into activity lines,
// the final text and the session id, one chunk at a time.

module ClaudeActivity {
  import opened JsText
  import opened LineStream
  import opened DedupWindow

  const LINE_LIMIT := 200
  const RETURN_TAIL := 120
  const SESSION_MAX_LEN := 256
  /** A content block; the summary of a tool's input and the text of its result come already extracted. */
  datatype Block =
    | TextBlock(text: string)
    | ToolUse(name: string, summary: string)
    | ToolResult(failed: bool, text: string)
    | OtherBlock

  datatype Event =
    | Assistant(blocks: seq<Block>)
    | User(blocks: seq<Block>)
    | Result(result: Option<string>, sessionId: string, failed: bool)
    | OtherEvent

  /** The fixed texts of activity lines. */
  datatype Wording = Wording(failedMark: string, toolResult: string, finished: string, finishedWithError: string)

  /**
   * What a printer is given: its window size, the reading of a line as an event (JSON.parse and the
   * reading of its fields; None is a line that is no event), and its fixed texts.
   */
  datatype Config = Config(max: nat, decode: string -> Option<Event>, words: Wording)

  datatype Printer = Printer(window: Window, resultText: string, assistantText: string, sessionId: string)

  const FRESH := Printer(EMPTY, "", "", "")

  function CompactText(s: string): string {
    Trim(CollapseSpaces(s))
  }

  function TruncateText(s: string, limit: nat): string {
    if |s| <= limit then s else s[..if limit < 3 then 0 else limit - 3] + "..."
  }

  predicate IsSessionChar(c: char) {
    'A' <= c <= 'Z' || 'a' <= c <= 'z' || '0' <= c <= '9' || c == '.' || c == '_' || c == ':' || c == '-'
  }

  function NormalizeSessionId(value: string): string {
    var text := Trim(value);
    if |text| <= SESSION_MAX_LEN && (forall c | c in text :: IsSessionChar(c)) then text else ""
  }

  function PushLine(cfg: Config, w: Window, role: Role, line: string): Window {
    var text := TruncateText(CompactText(line), LINE_LIMIT);
    if text == "" then w else Push(cfg.max, w, Line(role, text))
  }

  function AssistantBlock(cfg: Config, s: Printer, b: Block): Printer {
    match b
    case TextBlock(text) =>
      if CompactText(text) == "" then s
      else s.(assistantText := s.assistantText + (if s.assistantText != "" then "\n" else "") + text,
              window := PushLine(cfg, s.window, Codex, CompactText(text)))
    case ToolUse(name, summary) =>
      s.(window := PushLine(cfg, s.window, Exec, if summary != "" then name + " " + summary else name))
    case _ => s
  }

  function UserBlock(cfg: Config, s: Printer, b: Block): Printer {
    match b
    case ToolResult(failed, text) =>
      s.(window := PushLine(cfg, s.window, Info, ToolResultLine(cfg.words, failed, CompactText(text))))
    case _ => s
  }

  function ToolResultLine(words: Wording, failed: bool, text: string): string {
    var shown := if text != "" then text else words.toolResult;
    if failed then words.failedMark + shown else shown
  }

  function FinishLine(words: Wording, failed: bool): string {
    if failed then words.finishedWithError else words.finished
  }

  function HandleResult(cfg: Config, s: Printer, e: Event): Printer
    requires e.Result?
  {
    var sid := NormalizeSessionId(e.sessionId);
    s.(resultText := if e.result.Some? && CompactText(e.result.value) != "" then e.result.value else s.resultText,
       sessionId := if sid != "" then sid else s.sessionId,
       window := PushLine(cfg, s.window, Info, FinishLine(cfg.words, e.failed)))
  }

  function AssistantStep(cfg: Config): (Printer, Block) -> Printer {
    (s, b) => AssistantBlock(cfg, s, b)
  }

  function UserStep(cfg: Config): (Printer, Block) -> Printer {
    (s, b) => UserBlock(cfg, s, b)
  }

  function Blocks(step: (Printer, Block) -> Printer, s: Printer, bs: seq<Block>): Printer {
    if bs == [] then s else step(Blocks(step, s, bs[..|bs| - 1]), bs[|bs| - 1])
  }

  function HandleEvent(cfg: Config, s: Printer, e: Event): Printer {
    match e
    case Assistant(blocks) => Blocks(AssistantStep(cfg), s, blocks)
    case User(blocks) => Blocks(UserStep(cfg), s, blocks)
    case Result(_, _, _) => HandleResult(cfg, s, e)
    case OtherEvent => s
  }

  function ProcessLine(cfg: Config, s: Printer, raw: string): Printer {
    var trimmed := Trim(raw);
    if trimmed == "" then s
    else
      match cfg.decode(trimmed)
      case None => s
      case Some(e) => HandleEvent(cfg, s, e)
  }

  function Handler(cfg: Config): (Printer, string) -> Printer {
    (s, line) => ProcessLine(cfg, s, line)
  }

  function Flush(cfg: Config, st: Stream<Printer>): Stream<Printer> {
    Stream("", if Trim(st.pending) == "" then st.inner else ProcessLine(cfg, st.inner, st.pending))
  }

  function ResultText(s: Printer): string {
    if Trim(s.resultText) != "" then Trim(s.resultText) else Trim(s.assistantText)
  }

  /**
   * However a stream is cut into chunks, and whatever unfinished line it goes on with, the printer ends as if
   * every line of the whole text had been handled in order: same window, same texts, same session id.
   */
  lemma AnyCutting(cfg: Config, pending: string, s: Printer, chunks: seq<string>)
    requires '\n' !in pending && '\r' !in pending
    ensures Flush(cfg, FeedChunks(Handler(cfg), Stream(pending, s), chunks))
            == Stream("", Fold(Handler(cfg), s, SplitLines(StripCr(pending + Concat(chunks)))))
  {
    var handle, text := Handler(cfg), pending + Concat(chunks);
    ChunkInvariance(handle, Stream(pending, s), chunks);
    GoesOnFrom(handle, pending, s, Concat(chunks));
    StreamIsLines(handle, s, text);
    FoldSnoc(handle, s, SplitLines(StripCr(text)));
  }

  /** An unfinished line is what is left of having been fed. */
  lemma GoesOnFrom(handle: (Printer, string) -> Printer, pending: string, s: Printer, text: string)
    requires '\n' !in pending && '\r' !in pending
    ensures Feed(handle, Stream(pending, s), text) == Feed(handle, Stream("", s), pending + text)
  {
    FeedConcat(handle, Stream("", s), pending, text);
    FeedWithinLine(handle, Stream("", s), pending);
    assert "" + pending == pending;
  }

  // The session id is that of the last result event that has one, whatever came before.

  lemma {:induction false} BlocksKeepSession(step: (Printer, Block) -> Printer, s: Printer, bs: seq<Block>)
    requires forall t: Printer, b: Block :: step(t, b).sessionId == t.sessionId
    ensures Blocks(step, s, bs).sessionId == s.sessionId
  {
    if bs == [] {
    } else {
      BlocksKeepSession(step, s, bs[..|bs| - 1]);
    }
  }

  lemma LineSession(cfg: Config, s: Printer, line: string)
    ensures var own := ProcessLine(cfg, FRESH, line).sessionId;
            ProcessLine(cfg, s, line).sessionId == if own != "" then own else s.sessionId
  {
    var trimmed := Trim(line);
    if trimmed != "" && cfg.decode(trimmed).Some? {
      match cfg.decode(trimmed).value
      case Assistant(blocks) =>
        BlocksKeepSession(AssistantStep(cfg), s, blocks);
        BlocksKeepSession(AssistantStep(cfg), FRESH, blocks);
      case User(blocks) =>
        BlocksKeepSession(UserStep(cfg), s, blocks);
        BlocksKeepSession(UserStep(cfg), FRESH, blocks);
      case _ =>
    }
  }

  /** A printer that goes on with further lines keeps its session id exactly if those lines have none. */
  lemma {:induction false} LinesSession(cfg: Config, s: Printer, lines: seq<string>)
    ensures var own := Fold(Handler(cfg), FRESH, lines).sessionId;
            Fold(Handler(cfg), s, lines).sessionId == if own != "" then own else s.sessionId
    decreases |lines|
  {
    if lines == [] {
    } else {
      var h := Handler(cfg);
      LineSession(cfg, s, lines[0]);
      LinesSession(cfg, h(s, lines[0]), lines[1..]);
      LinesSession(cfg, h(FRESH, lines[0]), lines[1..]);
    }
  }

  /** The session id that a text names by itself. */
  function SessionOf(cfg: Config, chunks: seq<string>): string {
    Flush(cfg, FeedChunks(Handler(cfg), Stream("", FRESH), chunks)).inner.sessionId
  }

  lemma ReadOnSession(cfg: Config, s: Printer, chunks: seq<string>)
    ensures var after := Flush(cfg, FeedChunks(Handler(cfg), Stream("", s), chunks));
            && after.pending == ""
            && after.inner.sessionId == if SessionOf(cfg, chunks) != "" then SessionOf(cfg, chunks) else s.sessionId
  {
    assert "" + Concat(chunks) == Concat(chunks);
    AnyCutting(cfg, "", s, chunks);
    AnyCutting(cfg, "", FRESH, chunks);
    LinesSession(cfg, s, SplitLines(StripCr(Concat(chunks))));
  }

  /** The characters of a session id by their codes: letters, digits, dot, underscore, colon and hyphen. */
  predicate IsIdCode(c: int) {
    48 <= c <= 57 || 65 <= c <= 90 || 97 <= c <= 122 || c == 45 || c == 46 || c == 58 || c == 95
  }

  /** A session id is at most 256 of these characters, between white space that is left out; anything else is none. */
  lemma SessionIdExactly(value: string)
    ensures var t := Trim(value);
            NormalizeSessionId(value)
            == if |t| <= 256 && forall k | 0 <= k < |t| :: IsIdCode(t[k] as int) then t else ""
  {
    var t := Trim(value);
    forall k | 0 <= k < |t| ensures t[k] in t && (IsSessionChar(t[k]) <==> IsIdCode(t[k] as int)) {
    }
  }

  /** Validating an id twice is validating it once. */
  lemma NormalSessionId(value: string)
    ensures NormalizeSessionId(NormalizeSessionId(value)) == NormalizeSessionId(value)
  {
    var id := NormalizeSessionId(value);
    if id != "" {
      assert id[0] in id && id[|id| - 1] in id;
      assert TrimStart(id) == id && TrimEnd(id) == id;
    }
  }

  lemma {:induction false} FoldSnoc(handle: (Printer, string) -> Printer, s: Printer, lines: seq<string>)
    requires lines != []
    ensures Fold(handle, s, lines) == handle(Fold(handle, s, lines[..|lines| - 1]), lines[|lines| - 1])
    decreases |lines|
  {
    if |lines| > 1 {
      FoldSnoc(handle, handle(s, lines[0]), lines[1..]);
      assert lines[1..][..|lines| - 2] == lines[..|lines| - 1][1..];
    }
  }

  lemma {:induction false} BlocksKeepReachable(cfg: Config, step: (Printer, Block) -> Printer, s: Printer, bs: seq<Block>)
    requires forall t: Printer, b: Block :: Reachable(cfg.max, t.window) ==> Reachable(cfg.max, step(t, b).window)
    requires Reachable(cfg.max, s.window)
    ensures Reachable(cfg.max, Blocks(step, s, bs).window)
  {
    if bs == [] {
    } else {
      BlocksKeepReachable(cfg, step, s, bs[..|bs| - 1]);
    }
  }

  lemma PushLineKeepsReachable(cfg: Config, w: Window, role: Role, line: string)
    requires Reachable(cfg.max, w)
    ensures Reachable(cfg.max, PushLine(cfg, w, role, line))
  {
    var text := TruncateText(CompactText(line), LINE_LIMIT);
    PushKeepsReachable(cfg.max, w, Line(role, text));
  }

  lemma AssistantKeepsReachable(cfg: Config, s: Printer, b: Block)
    requires Reachable(cfg.max, s.window)
    ensures Reachable(cfg.max, AssistantBlock(cfg, s, b).window)
  {
    match b
    case TextBlock(text) => PushLineKeepsReachable(cfg, s.window, Codex, CompactText(text));
    case ToolUse(name, summary) =>
      PushLineKeepsReachable(cfg, s.window, Exec, if summary != "" then name + " " + summary else name);
    case _ =>
  }

  lemma UserKeepsReachable(cfg: Config, s: Printer, b: Block)
    requires Reachable(cfg.max, s.window)
    ensures Reachable(cfg.max, UserBlock(cfg, s, b).window)
  {
    if b.ToolResult? {
      PushLineKeepsReachable(cfg, s.window, Info, ToolResultLine(cfg.words, b.failed, CompactText(b.text)));
    }
  }

  lemma EventKeepsReachable(cfg: Config, s: Printer, e: Event)
    requires Reachable(cfg.max, s.window)
    ensures Reachable(cfg.max, HandleEvent(cfg, s, e).window)
  {
    match e
    case Assistant(blocks) =>
      forall t: Printer, b | Reachable(cfg.max, t.window) ensures Reachable(cfg.max, AssistantBlock(cfg, t, b).window) {
        AssistantKeepsReachable(cfg, t, b);
      }
      BlocksKeepReachable(cfg, AssistantStep(cfg), s, blocks);
    case User(blocks) =>
      forall t: Printer, b | Reachable(cfg.max, t.window) ensures Reachable(cfg.max, UserBlock(cfg, t, b).window) {
        UserKeepsReachable(cfg, t, b);
      }
      BlocksKeepReachable(cfg, UserStep(cfg), s, blocks);
    case Result(_, _, failed) =>
      PushLineKeepsReachable(cfg, s.window, Info, FinishLine(cfg.words, failed));
    case OtherEvent =>
  }

  /**
   * Whatever the command line prints, the window is one that pushes alone lead to: bounded, and with
   * at most one line in it twice.
   */
  lemma WindowStaysBounded(cfg: Config, chunks: seq<string>)
    ensures var w := FeedChunks(Handler(cfg), Stream("", FRESH), chunks).inner.window;
            && Reachable(cfg.max, w)
            && |w.recent| <= 2 * cfg.max && |w.lines| <= Capacity(cfg.max) && AtMostOneRepeat(w.lines)
  {
    assert PushAll(cfg.max, []) == EMPTY;
    ChunkInvariance(Handler(cfg), Stream("", FRESH), chunks);
    FeedKeepsReachable(cfg, Stream("", FRESH), Concat(chunks));
    var w := FeedChunks(Handler(cfg), Stream("", FRESH), chunks).inner.window;
    var ls :| w == PushAll(cfg.max, ls);
    RunsStayAlmostDistinct(cfg.max, ls);
  }

  lemma LineKeepsReachable(cfg: Config, s: Printer, line: string)
    requires Reachable(cfg.max, s.window)
    ensures Reachable(cfg.max, ProcessLine(cfg, s, line).window)
  {
    var trimmed := Trim(line);
    if trimmed != "" && cfg.decode(trimmed).Some? {
      EventKeepsReachable(cfg, s, cfg.decode(trimmed).value);
    }
  }

  lemma {:induction false} FeedKeepsReachable(cfg: Config, st: Stream<Printer>, text: string)
    requires Reachable(cfg.max, st.inner.window)
    ensures Reachable(cfg.max, Feed(Handler(cfg), st, text).inner.window)
    decreases |text|
  {
    if text == "" {
    } else {
      LineKeepsReachable(cfg, st.inner, st.pending);
      FeedKeepsReachable(cfg, FeedChar(Handler(cfg), st, text[0]), text[1..]);
    }
  }

  class ClaudeStreamJsonPrinter {
    const cfg: Config
    const activity: ActivityWindow
    var pendingLine: string
    var resultText: string
    var assistantText: string
    var sessionId: string

    ghost predicate Tracked()
      reads this, activity
    {
      activity.Valid() && activity.maxLines == cfg.max
    }

    ghost predicate Valid()
      reads this, activity
    {
      Tracked() && '\n' !in pendingLine && '\r' !in pendingLine
    }

    ghost function State(): Printer
      reads this, activity
    {
      Printer(activity.View(), resultText, assistantText, sessionId)
    }

    ghost function Whole(): Stream<Printer>
      reads this, activity
    {
      Stream(pendingLine, State())
    }

    constructor (cfg: Config)
      ensures Valid() && Whole() == Stream("", FRESH) && this.cfg == cfg && fresh(activity)
    {
      this.cfg := cfg;
      activity := new ActivityWindow(cfg.max);
      pendingLine, resultText, assistantText, sessionId := "", "", "", "";
    }

    method Offer(rawChunk: string)
      requires Valid()
      modifies this, activity
      ensures Valid()
      ensures Whole() == Feed(Handler(cfg), old(Whole()), rawChunk)
    {
      ghost var handle := Handler(cfg);
      ghost var before := Whole();
      var text := StripCr(rawChunk);
      pendingLine := pendingLine + text;
      ghost var all := pendingLine;
      while true
        invariant Tracked() && '\r' !in pendingLine
        invariant Feed(handle, Stream("", State()), pendingLine) == Feed(handle, Stream("", before.inner), all)
        decreases |pendingLine|
      {
        var idx := IndexOf(pendingLine, '\n');
        if idx < 0 {
          break;
        }
        var line := pendingLine[..idx];
        FeedFirstLine(handle, State(), pendingLine, idx);
        pendingLine := pendingLine[idx + 1..];
        Process(line);
      }
      FeedWithinLine(handle, Stream("", State()), pendingLine);
      FeedWithinLine(handle, Stream("", before.inner), before.pending);
      assert "" + pendingLine == pendingLine && "" + before.pending == before.pending;
      FeedConcat(handle, Stream("", before.inner), before.pending, text);
      FeedStripCr(handle, before, rawChunk);
    }

    method FlushPending()
      requires Valid()
      modifies this, activity
      ensures Valid()
      ensures Whole() == Flush(cfg, old(Whole()))
    {
      var line := pendingLine;
      pendingLine := "";
      if Trim(line) != "" {
        Process(line);
      }
    }

    method Process(rawLine: string)
      requires Tracked()
      modifies this, activity
      ensures Tracked() && pendingLine == old(pendingLine)
      ensures State() == ProcessLine(cfg, old(State()), rawLine)
    {
      var trimmed := Trim(rawLine);
      if trimmed == "" {
        return;
      }
      match cfg.decode(trimmed) {
        case None =>
        case Some(event) =>
          match event {
            case Assistant(blocks) => HandleAssistant(blocks);
            case User(blocks) => HandleUser(blocks);
            case Result(_, _, _) => HandleResultEvent(event);
            case OtherEvent =>
          }
      }
    }

    method HandleResultEvent(event: Event)
      requires Tracked() && event.Result?
      modifies this, activity
      ensures Tracked() && pendingLine == old(pendingLine)
      ensures State() == HandleResult(cfg, old(State()), event)
    {
      if event.result.Some? && CompactText(event.result.value) != "" {
        resultText := event.result.value;
      }
      var sid := NormalizeSessionId(event.sessionId);
      if sid != "" {
        sessionId := sid;
      }
      PushActivity(Info, FinishLine(cfg.words, event.failed));
    }

    method HandleAssistant(content: seq<Block>)
      requires Tracked()
      modifies this, activity
      ensures Tracked() && pendingLine == old(pendingLine)
      ensures State() == HandleEvent(cfg, old(State()), Assistant(content))
    {
      ghost var step := AssistantStep(cfg);
      for i := 0 to |content|
        invariant Tracked() && pendingLine == old(pendingLine)
        invariant State() == Blocks(step, old(State()), content[..i])
      {
        assert content[..i + 1][..i] == content[..i];
        HandleAssistantItem(content[i]);
      }
      assert content[..|content|] == content;
    }

    method HandleUser(content: seq<Block>)
      requires Tracked()
      modifies this, activity
      ensures Tracked() && pendingLine == old(pendingLine)
      ensures State() == HandleEvent(cfg, old(State()), User(content))
    {
      ghost var step := UserStep(cfg);
      for i := 0 to |content|
        invariant Tracked() && pendingLine == old(pendingLine)
        invariant State() == Blocks(step, old(State()), content[..i])
      {
        assert content[..i + 1][..i] == content[..i];
        HandleUserItem(content[i]);
      }
      assert content[..|content|] == content;
    }

    method HandleAssistantItem(item: Block)
      requires Tracked()
      modifies this, activity
      ensures Tracked() && pendingLine == old(pendingLine)
      ensures State() == AssistantBlock(cfg, old(State()), item)
    {
      match item {
        case TextBlock(raw) =>
          var text := CompactText(raw);
          if text != "" {
            if assistantText != "" {
              assistantText := assistantText + "\n";
            }
            assistantText := assistantText + raw;
            PushActivity(Codex, text);
          }
        case ToolUse(name, summary) =>
          PushActivity(Exec, if summary != "" then name + " " + summary else name);
        case _ =>
      }
    }

    method HandleUserItem(item: Block)
      requires Tracked()
      modifies this, activity
      ensures Tracked() && pendingLine == old(pendingLine)
      ensures State() == UserBlock(cfg, old(State()), item)
    {
      if item.ToolResult? {
        PushActivity(Info, ToolResultLine(cfg.words, item.failed, CompactText(item.text)));
      }
    }

    method PushActivity(role: Role, line: string)
      requires Tracked()
      modifies this, activity
      ensures Tracked() && pendingLine == old(pendingLine)
      ensures State() == old(State()).(window := PushLine(cfg, old(State()).window, role, line))
    {
      var text := TruncateText(CompactText(line), LINE_LIMIT);
      if text == "" {
        return;
      }
      activity.Store(Line(role, text));
    }

    method GetLines() returns (r: seq<Line>)
      ensures r == Last(activity.lines, 120)
    {
      r := activity.Tail(RETURN_TAIL);
    }

    method GetResultText() returns (r: string)
      ensures r == ResultText(State())
    {
      if Trim(resultText) != "" {
        return Trim(resultText);
      }
      return Trim(assistantText);
    }
  }
}
