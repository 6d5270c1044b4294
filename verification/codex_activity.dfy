// CodexActivityPrinter: extracts activity lines from the plain text output of the Codex command line.
// Escape sequences are stripped chunk by chunk, which decides when chunk boundaries are harmless.

module Ansi {
  const ESC := '\U{1b}'

  /** What the text at hand does with an escape sequence that starts at its front. */
  datatype Scan = Complete(length: nat) | Open | Broken

  function Longer(s: Scan, n: nat): Scan {
    if s.Complete? then Complete(s.length + n) else s
  }

  /** `[0-?]*[ -/]*[@-~]`; `inter` is set once the second class has begun. */
  function ScanBody(s: string, inter: bool): (r: Scan)
    ensures r.Complete? ==> 1 <= r.length <= |s|
  {
    if s == "" then Open
    else if !inter && '0' <= s[0] <= '?' then Longer(ScanBody(s[1..], false), 1)
    else if ' ' <= s[0] <= '/' then Longer(ScanBody(s[1..], true), 1)
    else if '@' <= s[0] <= '~' then Complete(1)
    else Broken
  }

  function ScanEscape(s: string): (r: Scan)
    ensures r.Complete? ==> 1 <= r.length <= |s|
  {
    if s == "" || s[0] != ESC then Broken
    else if |s| == 1 then Open
    else if s[1] != '[' then Broken
    else Longer(ScanBody(s[2..], false), 2)
  }

  /** `replace(ANSI_RE, '')`. */
  function StripAnsi(s: string): string
    decreases |s|
  {
    if s == "" then ""
    else
      var scan := ScanEscape(s);
      if scan.Complete? then StripAnsi(s[scan.length..]) else [s[0]] + StripAnsi(s[1..])
  }

  /** The text ends inside an escape sequence that more text could complete. */
  predicate EndsInsideEscape(s: string)
    decreases |s|
  {
    s != "" &&
    match ScanEscape(s)
    case Complete(n) => EndsInsideEscape(s[n..])
    case Open => true
    case Broken => EndsInsideEscape(s[1..])
  }

  lemma {:induction false} ScanBodyPrefix(a: string, b: string, inter: bool)
    requires !ScanBody(a, inter).Open?
    ensures ScanBody(a + b, inter) == ScanBody(a, inter)
  {
    assert (a + b)[1..] == a[1..] + b;
    if !inter && '0' <= a[0] <= '?' {
      ScanBodyPrefix(a[1..], b, false);
    } else if ' ' <= a[0] <= '/' {
      ScanBodyPrefix(a[1..], b, true);
    }
  }

  lemma ScanPrefix(a: string, b: string)
    requires a != "" && !ScanEscape(a).Open?
    ensures ScanEscape(a + b) == ScanEscape(a)
  {
    if a[0] == ESC && a[1] == '[' {
      assert (a + b)[2..] == a[2..] + b;
      ScanBodyPrefix(a[2..], b, false);
    }
  }

  lemma StripStep(a: string, b: string)
    requires a != "" && !ScanEscape(a).Open?
    ensures ScanEscape(a).Complete? ==>
              var n := ScanEscape(a).length;
              StripAnsi(a) == StripAnsi(a[n..]) && StripAnsi(a + b) == StripAnsi(a[n..] + b)
    ensures ScanEscape(a).Broken? ==>
              StripAnsi(a) == [a[0]] + StripAnsi(a[1..]) && StripAnsi(a + b) == [a[0]] + StripAnsi(a[1..] + b)
  {
    ScanPrefix(a, b);
    if ScanEscape(a).Complete? {
      assert (a + b)[ScanEscape(a).length..] == a[ScanEscape(a).length..] + b;
    } else {
      assert (a + b)[1..] == a[1..] + b;
    }
  }

  /** Stripping a text whose first part is not cut inside an escape sequence is stripping both parts. */
  lemma {:induction false} StripConcat(a: string, b: string)
    requires !EndsInsideEscape(a)
    ensures StripAnsi(a + b) == StripAnsi(a) + StripAnsi(b)
    decreases |a|
  {
    if a == "" {
      assert a + b == b;
    } else {
      StripStep(a, b);
      match ScanEscape(a)
      case Complete(n) => StripConcat(a[n..], b);
      case Broken =>
        StripConcat(a[1..], b);
        assert [a[0]] + (StripAnsi(a[1..]) + StripAnsi(b)) == [a[0]] + StripAnsi(a[1..]) + StripAnsi(b);
      case Open =>
    }
  }

  lemma CompleteBody(a: string, inter: bool)
    requires ScanBody(a, inter).Open?
    ensures ScanBody(a + "m", inter) == Complete(|a| + 1)
    ensures '\n' !in a && '\r' !in a && StripAnsi(a) == a
  {
    BodyIsPlain(a, inter);
    PlainText(a);
    MCompletes(a, inter);
  }

  lemma {:induction false} MCompletes(a: string, inter: bool)
    requires ScanBody(a, inter).Open?
    ensures ScanBody(a + "m", inter) == Complete(|a| + 1)
  {
    if a == "" {
      assert a + "m" == "m";
    } else {
      assert (a + "m")[1..] == a[1..] + "m";
      MCompletes(a[1..], inter || !('0' <= a[0] <= '?'));
    }
  }

  lemma {:induction false} BodyIsPlain(a: string, inter: bool)
    requires ScanBody(a, inter).Open?
    ensures '\n' !in a && '\r' !in a && ESC !in a
  {
    if a != "" {
      BodyIsPlain(a[1..], inter || !('0' <= a[0] <= '?'));
    }
  }

  /** An escape sequence that has only begun stays as it is, and vanishes once it is completed. */
  lemma Completion(a: string) returns (b: string)
    requires ScanEscape(a).Open?
    ensures b == "m" || b == "[m"
    ensures StripAnsi(a) == a && StripAnsi(a + b) == ""
    ensures '\n' !in a && '\r' !in a
  {
    if |a| == 1 {
      b := "[m";
      assert a + b == [ESC, '[', 'm'];
      assert (a + b)[2..] == "m";
      assert ScanBody("m", false) == Complete(1);
    } else {
      b := "m";
      CompleteBody(a[2..], false);
      OpenIsPlain(a);
      assert (a + b)[2..] == a[2..] + b;
    }
  }

  lemma OpenIsPlain(a: string)
    requires |a| >= 2 && a[0] == ESC && a[1] == '[' && ScanEscape(a).Open?
    requires '\n' !in a[2..] && '\r' !in a[2..] && StripAnsi(a[2..]) == a[2..]
    ensures StripAnsi(a) == a && '\n' !in a && '\r' !in a
  {
  }

  lemma CompletionIsPlain(b: string)
    requires b == "m" || b == "[m"
    ensures StripAnsi(b) == b && '\n' !in b && '\r' !in b
  {
  }

  /**
   * A text cut inside an escape sequence has a continuation `b` whose sequence the whole text loses
   * and the parts keep: `u` is what the whole text leaves, `u + t` what the first part leaves.
   */
  lemma {:induction false} CutEscape(a: string) returns (b: string, u: string, t: string)
    requires EndsInsideEscape(a)
    ensures b == "m" || b == "[m"
    ensures StripAnsi(a) == u + t && StripAnsi(a + b) == u && '\n' !in t && '\r' !in t
    decreases |a|
  {
    match ScanEscape(a)
    case Complete(n) =>
      b, u, t := CutEscape(a[n..]);
      StripStep(a, b);
    case Broken =>
      b, u, t := CutEscape(a[1..]);
      StripStep(a, b);
      u := [a[0]] + u;
    case Open =>
      b := Completion(a);
      u, t := "", a;
  }

  /** The three classes of characters of an escape sequence behind `ESC [`. */
  predicate IsSequenceBody(params: string, inters: string, final: char) {
    && (forall k | 0 <= k < |params| :: '0' <= params[k] <= '?')
    && (forall k | 0 <= k < |inters| :: ' ' <= inters[k] <= '/')
    && '@' <= final <= '~'
  }

  lemma {:induction false} InterScan(inters: string, final: char, b: string)
    requires IsSequenceBody("", inters, final)
    ensures ScanBody(inters + [final] + b, true) == Complete(|inters| + 1)
  {
    var s := inters + [final] + b;
    if inters == "" {
    } else {
      InterScan(inters[1..], final, b);
      assert s[1..] == inters[1..] + [final] + b;
    }
  }

  lemma FinalScan(inters: string, final: char, b: string)
    requires IsSequenceBody("", inters, final)
    ensures ScanBody(inters + [final] + b, false) == Complete(|inters| + 1)
  {
    if inters == "" {
      assert inters + [final] + b == [final] + b;
    } else {
      InterScan(inters[1..], final, b);
      assert (inters + [final] + b)[1..] == inters[1..] + [final] + b;
    }
  }

  lemma {:induction false} ParamScan(params: string, rest: string)
    requires (forall k | 0 <= k < |params| :: '0' <= params[k] <= '?') && ScanBody(rest, false).Complete?
    ensures ScanBody(params + rest, false) == Complete(|params| + ScanBody(rest, false).length)
    decreases |params|
  {
    if params == "" {
      assert params + rest == rest;
    } else {
      ParamScan(params[1..], rest);
      assert (params + rest)[1..] == params[1..] + rest;
    }
  }

  /** A whole escape sequence disappears, wherever it stands outside another one, and nothing else does. */
  lemma SequenceIsStripped(a: string, params: string, inters: string, final: char, b: string)
    requires !EndsInsideEscape(a) && IsSequenceBody(params, inters, final)
    ensures StripAnsi(a + ([ESC, '['] + params + inters + [final] + b)) == StripAnsi(a) + StripAnsi(b)
  {
    var rest := inters + [final] + b;
    var s := [ESC, '['] + params + inters + [final] + b;
    FinalScan(inters, final, b);
    ParamScan(params, rest);
    assert s[2..] == params + rest && s[|params| + |inters| + 3..] == b;
    StripConcat(a, s);
  }

  /** A text without the escape character is never cut inside an escape sequence. */
  lemma {:induction false} PlainText(a: string)
    requires ESC !in a
    ensures !EndsInsideEscape(a) && StripAnsi(a) == a
    decreases |a|
  {
    if a == "" {
    } else {
      PlainText(a[1..]);
    }
  }
}

module CodexActivity {
  import opened JsText
  import opened LineStream
  import opened DedupWindow
  import opened Ansi

  const LINE_LIMIT := 200
  const RETURN_TAIL := 120

  /** Window size and the keyword tables: cleaning of a line, activity test, start of a model answer. */
  datatype Config = Config(
    max: nat,
    cleanLine: string -> Option<string>,
    isActivity: string -> bool,
    modelStart: string -> bool)

  datatype Printer = Printer(window: Window, skippingUserEcho: bool, currentRole: Role)

  const FRESH := Printer(EMPTY, false, Info)

  datatype Marker = UserEcho | Section(role: Role) | NoMarker

  function MarkerOf(trimmed: string): Marker {
    if trimmed == "user" then UserEcho
    else if trimmed == "codex" || trimmed == "assistant" then Section(Codex)
    else if trimmed == "exec" then Section(Exec)
    else if trimmed == "thinking" then Section(Thinking)
    else if trimmed == "system" then Section(System)
    else if trimmed == "error" then Section(Error)
    else NoMarker
  }

  function Compact(line: string): string {
    if |line| > LINE_LIMIT then line[..LINE_LIMIT - 3] + "..." else line
  }

  function ProcessLine(cfg: Config, s: Printer, raw: string): Printer {
    var trimmed := Trim(raw);
    match MarkerOf(trimmed)
    case UserEcho => s.(skippingUserEcho := true)
    case Section(role) => s.(skippingUserEcho := false, currentRole := role)
    case NoMarker =>
      if s.skippingUserEcho && !cfg.modelStart(trimmed) then s
      else
        var s' := s.(skippingUserEcho := false);
        match cfg.cleanLine(raw)
        case None => s'
        case Some(clean) =>
          if cfg.isActivity(clean)
          then s'.(window := Push(cfg.max, s.window, Line(s.currentRole, Compact(clean))))
          else s'
  }

  function Handler(cfg: Config): (Printer, string) -> Printer {
    (s, line) => ProcessLine(cfg, s, line)
  }

  function Offer(cfg: Config, st: Stream<Printer>, chunk: string): Stream<Printer> {
    Feed(Handler(cfg), st, StripAnsi(chunk))
  }

  function OfferAll(cfg: Config, st: Stream<Printer>, chunks: seq<string>): Stream<Printer>
    decreases |chunks|
  {
    if chunks == [] then st else OfferAll(cfg, Offer(cfg, st, chunks[0]), chunks[1..])
  }

  function Flush(cfg: Config, st: Stream<Printer>): Stream<Printer> {
    Stream("", if Trim(st.pending) == "" then st.inner else ProcessLine(cfg, st.inner, st.pending))
  }

  // What one line does.

  /** The lines that begin a section of this role. */
  predicate HeadsSection(line: string, role: Role) {
    match role
    case Info => false
    case Codex => line == "codex" || line == "assistant"
    case Exec => line == "exec"
    case Thinking => line == "thinking"
    case System => line == "system"
    case Error => line == "error"
  }

  predicate IsMarker(line: string) {
    line == "user" || exists role: Role :: HeadsSection(line, role)
  }

  lemma MarkersExactly(line: string)
    ensures MarkerOf(line) == UserEcho <==> line == "user"
    ensures forall role :: MarkerOf(line) == Section(role) <==> HeadsSection(line, role)
    ensures MarkerOf(line) == NoMarker <==> !IsMarker(line)
  {
    assert MarkerOf(line).Section? ==> HeadsSection(line, MarkerOf(line).role);
  }

  /** The line is none of the markers, and its cleaning leaves something that is to be shown. */
  ghost predicate IsShown(cfg: Config, raw: string, clean: string) {
    !IsMarker(Trim(raw)) && cfg.cleanLine(raw) == Some(clean) && cfg.isActivity(clean)
  }

  /**
   * Under the marker of a section lines are shown in its role, whatever came before, those of more than 200
   * characters with the first 197 and dots; the marker itself is not shown.
   */
  lemma SectionGivesRole(cfg: Config, s: Printer, header: string, role: Role, raw: string, clean: string)
    requires HeadsSection(Trim(header), role) && IsShown(cfg, raw, clean)
    ensures var under := ProcessLine(cfg, s, header);
            var shown := if |clean| > 200 then clean[..197] + "..." else clean;
            && under == Printer(s.window, false, role)
            && ProcessLine(cfg, under, raw) == under.(window := Push(cfg.max, s.window, Line(role, shown)))
  {
    MarkersExactly(Trim(header));
    MarkersExactly(Trim(raw));
  }

  /** The line ends an echo: it begins a section, or is no marker and looks like the start of an answer. */
  ghost predicate EndsEcho(cfg: Config, raw: string) {
    (exists role: Role :: HeadsSection(Trim(raw), role)) || (!IsMarker(Trim(raw)) && cfg.modelStart(Trim(raw)))
  }

  lemma {:induction false} EchoIsSkipped(cfg: Config, s: Printer, echo: seq<string>)
    requires s.skippingUserEcho && forall l | l in echo :: !EndsEcho(cfg, l)
    ensures Fold(Handler(cfg), s, echo) == s
    decreases |echo|
  {
    if echo != [] {
      var h := Handler(cfg);
      MarkersExactly(Trim(echo[0]));
      assert echo[0] in echo && h(s, echo[0]) == s;
      EchoIsSkipped(cfg, s, echo[1..]);
    }
  }

  lemma {:induction false} FoldJoined(handle: (Printer, string) -> Printer, s: Printer, a: seq<string>, b: seq<string>)
    ensures Fold(handle, s, a + b) == Fold(handle, Fold(handle, s, a), b)
    decreases |a|
  {
    if a == [] {
      assert a + b == b;
    } else {
      FoldJoined(handle, handle(s, a[0]), a[1..], b);
      assert (a + b)[1..] == a[1..] + b;
    }
  }

  lemma EchoEnds(cfg: Config, s: Printer, raw: string)
    requires EndsEcho(cfg, raw)
    ensures ProcessLine(cfg, s.(skippingUserEcho := true), raw) == ProcessLine(cfg, s.(skippingUserEcho := false), raw)
  {
    MarkersExactly(Trim(raw));
  }

  /** The echo of the user's input, from `user` to a section or the start of an answer, leaves no trace. */
  lemma EchoIsInvisible(cfg: Config, s: Printer, header: string, echo: seq<string>, rest: seq<string>)
    requires Trim(header) == "user" && (forall l | l in echo :: !EndsEcho(cfg, l)) && rest != [] && EndsEcho(cfg, rest[0])
    ensures Fold(Handler(cfg), s, [header] + echo + rest) == Fold(Handler(cfg), s.(skippingUserEcho := false), rest)
  {
    var h, skipping := Handler(cfg), s.(skippingUserEcho := true);
    assert ([header] + echo + rest)[1..] == echo + rest;
    assert h(s, header) == skipping;
    FoldJoined(h, skipping, echo, rest);
    EchoIsSkipped(cfg, skipping, echo);
    EchoEnds(cfg, s, rest[0]);
  }

  /** Cutting a text after `a` is harmless for every continuation exactly when `a` ends outside escape sequences. */
  lemma CutIsHarmlessIff(cfg: Config, st: Stream<Printer>, a: string)
    ensures (forall b :: Offer(cfg, Offer(cfg, st, a), b) == Offer(cfg, st, a + b)) <==> !EndsInsideEscape(a)
  {
    if EndsInsideEscape(a) {
      var b, u, t := CutEscape(a);
      CompletionIsPlain(b);
      var h := Handler(cfg);
      FeedConcat(h, st, u, t);
      FeedWithinLine(h, Feed(h, st, u), t);
      FeedWithinLine(h, Feed(h, Feed(h, st, u), t), b);
      assert |Offer(cfg, Offer(cfg, st, a), b).pending| > |Offer(cfg, st, a + b).pending|;
    } else {
      forall b ensures Offer(cfg, Offer(cfg, st, a), b) == Offer(cfg, st, a + b) {
        StripConcat(a, b);
        FeedConcat(Handler(cfg), st, StripAnsi(a), StripAnsi(b));
      }
    }
  }

  /** Every way of cutting a text outside escape sequences leaves the same state. */
  lemma {:induction false} AnyHarmlessCutting(cfg: Config, st: Stream<Printer>, chunks: seq<string>)
    requires forall c | c in chunks :: !EndsInsideEscape(c)
    ensures OfferAll(cfg, st, chunks) == Offer(cfg, st, Concat(chunks))
    decreases |chunks|
  {
    if chunks == [] {
    } else {
      CutIsHarmlessIff(cfg, st, chunks[0]);
      AnyHarmlessCutting(cfg, Offer(cfg, st, chunks[0]), chunks[1..]);
    }
  }

  /** Text without escape characters may be cut anywhere, and is handled line by line. */
  lemma PlainTextIsLines(cfg: Config, s: Printer, chunks: seq<string>)
    requires forall c | c in chunks :: ESC !in c
    ensures var ls := SplitLines(StripCr(Concat(chunks)));
            OfferAll(cfg, Stream("", s), chunks) == Stream(ls[|ls| - 1], Fold(Handler(cfg), s, ls[..|ls| - 1]))
  {
    forall c | c in chunks ensures !EndsInsideEscape(c) {
      PlainText(c);
    }
    AnyHarmlessCutting(cfg, Stream("", s), chunks);
    ConcatPlain(chunks);
    PlainText(Concat(chunks));
    StreamIsLines(Handler(cfg), s, Concat(chunks));
  }

  /** With the end of the output the unfinished line is handled too, unless it is blank. */
  lemma PlainTextIsHandled(cfg: Config, s: Printer, chunks: seq<string>)
    requires forall c | c in chunks :: ESC !in c
    ensures var ls := SplitLines(StripCr(Concat(chunks)));
            Flush(cfg, OfferAll(cfg, Stream("", s), chunks))
            == Stream("", Fold(Handler(cfg), s, if Blank(ls[|ls| - 1]) then ls[..|ls| - 1] else ls))
  {
    var ls := SplitLines(StripCr(Concat(chunks)));
    PlainTextIsLines(cfg, s, chunks);
    FoldSnoc(Handler(cfg), s, ls);
    BlankIsTrimmed(ls[|ls| - 1]);
  }

  lemma {:induction false} FoldSnoc(handle: (Printer, string) -> Printer, s: Printer, lines: seq<string>)
    requires lines != []
    ensures Fold(handle, s, lines) == handle(Fold(handle, s, lines[..|lines| - 1]), lines[|lines| - 1])
    decreases |lines|
  {
    if |lines| > 1 {
      FoldSnoc(handle, handle(s, lines[0]), lines[1..]);
      assert lines[1..][..|lines| - 2] == lines[..|lines| - 1][1..];
    }
  }

  lemma {:induction false} ConcatPlain(chunks: seq<string>)
    requires forall c | c in chunks :: ESC !in c
    ensures ESC !in Concat(chunks)
  {
    if chunks == [] {
    } else {
      ConcatPlain(chunks[1..]);
    }
  }

  lemma {:induction false} FeedKeepsReachable(cfg: Config, st: Stream<Printer>, text: string)
    requires Reachable(cfg.max, st.inner.window)
    ensures Reachable(cfg.max, Feed(Handler(cfg), st, text).inner.window)
    decreases |text|
  {
    if text == "" {
    } else {
      LineKeepsReachable(cfg, st.inner, st.pending);
      FeedKeepsReachable(cfg, FeedChar(Handler(cfg), st, text[0]), text[1..]);
    }
  }

  lemma LineKeepsReachable(cfg: Config, s: Printer, raw: string)
    requires Reachable(cfg.max, s.window)
    ensures Reachable(cfg.max, ProcessLine(cfg, s, raw).window)
  {
    if cfg.cleanLine(raw).Some? {
      PushKeepsReachable(cfg.max, s.window, Line(s.currentRole, Compact(cfg.cleanLine(raw).value)));
    }
  }

  lemma {:induction false} OffersKeepReachable(cfg: Config, st: Stream<Printer>, chunks: seq<string>)
    requires Reachable(cfg.max, st.inner.window)
    ensures Reachable(cfg.max, OfferAll(cfg, st, chunks).inner.window)
    decreases |chunks|
  {
    if chunks == [] {
    } else {
      FeedKeepsReachable(cfg, st, StripAnsi(chunks[0]));
      OffersKeepReachable(cfg, Offer(cfg, st, chunks[0]), chunks[1..]);
    }
  }

  /** Whatever is printed and however it is cut, the window stays bounded and repeats at most one line once. */
  lemma WindowStaysBounded(cfg: Config, chunks: seq<string>)
    ensures var w := OfferAll(cfg, Stream("", FRESH), chunks).inner.window;
            |w.recent| <= 2 * cfg.max && |w.lines| <= Capacity(cfg.max) && AtMostOneRepeat(w.lines)
  {
    assert PushAll(cfg.max, []) == EMPTY;
    OffersKeepReachable(cfg, Stream("", FRESH), chunks);
    var ls :| OfferAll(cfg, Stream("", FRESH), chunks).inner.window == PushAll(cfg.max, ls);
    RunsStayAlmostDistinct(cfg.max, ls);
  }

  class CodexActivityPrinter {
    const cfg: Config
    const activity: ActivityWindow
    var skippingUserEcho: bool
    var currentRole: Role
    var pendingLine: string

    ghost predicate Tracked()
      reads this, activity
    {
      activity.Valid() && activity.maxLines == cfg.max
    }

    ghost predicate Valid()
      reads this, activity
    {
      Tracked() && '\n' !in pendingLine && '\r' !in pendingLine
    }

    ghost function State(): Printer
      reads this, activity
    {
      Printer(activity.View(), skippingUserEcho, currentRole)
    }

    ghost function Whole(): Stream<Printer>
      reads this, activity
    {
      Stream(pendingLine, State())
    }

    constructor (cfg: Config)
      ensures Valid() && Whole() == Stream("", FRESH) && this.cfg == cfg && fresh(activity)
    {
      this.cfg := cfg;
      activity := new ActivityWindow(cfg.max);
      skippingUserEcho, currentRole, pendingLine := false, Info, "";
    }

    method OfferChunk(rawChunk: string)
      requires Valid()
      modifies this, activity
      ensures Valid()
      ensures Whole() == Offer(cfg, old(Whole()), rawChunk)
    {
      ghost var handle := Handler(cfg);
      ghost var before := Whole();
      var text := StripCr(StripAnsi(rawChunk));
      pendingLine := pendingLine + text;
      ghost var all := pendingLine;
      while true
        invariant Tracked() && '\r' !in pendingLine
        invariant Feed(handle, Stream("", State()), pendingLine) == Feed(handle, Stream("", before.inner), all)
        decreases |pendingLine|
      {
        var idx := IndexOf(pendingLine, '\n');
        if idx < 0 {
          break;
        }
        var line := pendingLine[..idx];
        FeedFirstLine(handle, State(), pendingLine, idx);
        pendingLine := pendingLine[idx + 1..];
        Process(line);
      }
      FeedWithinLine(handle, Stream("", State()), pendingLine);
      FeedWithinLine(handle, Stream("", before.inner), before.pending);
      assert "" + pendingLine == pendingLine && "" + before.pending == before.pending;
      FeedConcat(handle, Stream("", before.inner), before.pending, text);
      FeedStripCr(handle, before, StripAnsi(rawChunk));
    }

    method FlushPending()
      requires Valid()
      modifies this, activity
      ensures Valid()
      ensures Whole() == Flush(cfg, old(Whole()))
    {
      var line := pendingLine;
      pendingLine := "";
      if Trim(line) != "" {
        Process(line);
      }
    }

    method Process(rawLine: string)
      requires Tracked()
      modifies this, activity
      ensures Tracked() && pendingLine == old(pendingLine)
      ensures State() == ProcessLine(cfg, old(State()), rawLine)
    {
      var trimmed := Trim(rawLine);
      match MarkerOf(trimmed) {
        case UserEcho =>
          skippingUserEcho := true;
        case Section(role) =>
          skippingUserEcho := false;
          currentRole := role;
        case NoMarker =>
          if skippingUserEcho {
            if !cfg.modelStart(trimmed) {
              return;
            }
            skippingUserEcho := false;
          }
          var clean := cfg.cleanLine(rawLine);
          if clean.Some? && cfg.isActivity(clean.value) {
            activity.Store(Line(currentRole, Compact(clean.value)));
          }
      }
    }

    method GetLines() returns (r: seq<Line>)
      ensures r == Last(activity.lines, 120)
    {
      r := activity.Tail(RETURN_TAIL);
    }
  }
}
