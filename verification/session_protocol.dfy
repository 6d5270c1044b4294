// The session protocol of runCodex: resume the known session of an agent command line program, and
// fall back to a new one when the program no longer knows it.

module SessionProtocol {
  import opened JsText
  import opened LineStream
  import opened TextPatterns
  import Claude = ClaudeActivity
  import CodexSession

  datatype Provider = Codex | Claude | OpenCode | OhMyPi

  /** `Plain` is the mode of a provider without sessions. */
  datatype Mode = Resume | New | Plain

  /** A start of the program: the session it is given, and the plan's stored session at that time. */
  datatype Invocation = Invocation(mode: Mode, session: string, planSession: string)

  /**
   * What a start comes back with: the chunks it printed, `rest` for what its output has behind them, the
   * error message, and for OpenCode the session that a search by title found. An attempt that could not be
   * launched prints nothing. `cancelled` is whether the operation was cancelled or its target deleted.
   */
  datatype Attempt = Attempt(
    launched: bool, exitCode: int, chunks: seq<string>, rest: string, errorMessage: string, lookup: string,
    timedOut: bool, cancelled: bool)

  datatype Outcome = Cancelled | Finished(mode: Mode, sessionId: string, timedOut: bool)

  /** The command line program: what its i-th start in a run does. */
  type Program = (nat, Invocation) -> Attempt

  /**
   * An operation: the session it asks to resume, empty if none, whether that is its plan's to keep, the mode
   * without one, and which resumes are judged missing.
   */
  datatype Operation = Operation(ownsPlan: bool, requested: string, anew: Mode, missing: Attempt -> bool)

  function Heard(a: Attempt): seq<string> {
    if a.launched then a.chunks else []
  }

  function Output(a: Attempt): string {
    Concat(Heard(a)) + a.rest
  }

  // When a resume is judged missing.

  function One(w: string): Pattern {
    Then(Word(w), Done)
  }

  function Two(w1: string, w2: string): Pattern {
    Then(Word(w1), Then(Blanks(true), One(w2)))
  }

  function Three(w1: string, w2: string, w3: string): Pattern {
    Then(Word(w1), Then(Blanks(true), Two(w2, w3)))
  }

  function Complaints(p: Provider): seq<Pattern> {
    match p
    case Codex =>
      [One("thread/resume"), One("resume failed"), One("no rollout found"), Three("session", "not", "found"),
       Two("session", "missing"), Three("conversation", "not", "found"), Two("unknown", "session"), Two("invalid", "session")]
    case Claude =>
      [Three("session", "not", "found"), Two("unknown", "session"), Two("invalid", "session"),
       Three("conversation", "not", "found"), Two("no", "conversation")]
    case OpenCode => [Three("session", "not", "found"), Two("unknown", "session"), Two("invalid", "session")]
    case OhMyPi => []
  }

  /** The text that is searched: with Claude the error message as well. */
  function Evidence(p: Provider, a: Attempt): string {
    if p.Claude? then Output(a) + "\n" + a.errorMessage else Output(a)
  }

  predicate Complains(p: Provider, text: string) {
    exists c | c in Complaints(p) :: Mentions(c, text)
  }

  /** For Codex the whole output must name no session besides. */
  predicate ResumeMissing(p: Provider, a: Attempt) {
    && a.exitCode != 0
    && (p.Codex? ==> CodexSession.Extract(Output(a)).None?)
    && Complains(p, Evidence(p, a))
  }

  function Judge(p: Provider): Attempt -> bool {
    a => ResumeMissing(p, a)
  }

  // Which session id a result names, from all the attempts of the run.

  function Chunks(attempts: seq<Attempt>): seq<string> {
    if attempts == [] then [] else Chunks(attempts[..|attempts| - 1]) + Heard(attempts[|attempts| - 1])
  }

  /** The printer reads the chunks of an attempt and is flushed at its end. */
  function ReadOn(events: Claude.Config, st: Stream<Claude.Printer>, a: Attempt): Stream<Claude.Printer> {
    if a.launched then Claude.Flush(events, FeedChunks(Claude.Handler(events), st, a.chunks)) else st
  }

  /** One printer reads all attempts of a run. */
  function ReadBy(events: Claude.Config, attempts: seq<Attempt>): Stream<Claude.Printer> {
    if attempts == [] then Stream("", Claude.FRESH)
    else ReadOn(events, ReadBy(events, attempts[..|attempts| - 1]), attempts[|attempts| - 1])
  }

  /** The scan of chunks goes on from one attempt to the next. */
  function ScanBy(attempts: seq<Attempt>): CodexSession.Scan {
    CodexSession.ScanAll(CodexSession.START, Chunks(attempts))
  }

  lemma OneMoreRead(events: Claude.Config, before: seq<Attempt>, a: Attempt)
    ensures ReadBy(events, before + [a]) == ReadOn(events, ReadBy(events, before), a)
  {
    assert (before + [a])[..|before|] == before;
  }

  lemma OneMoreScanned(before: seq<Attempt>, a: Attempt)
    ensures ScanBy(before + [a]) == CodexSession.ScanAll(ScanBy(before), Heard(a))
  {
    assert (before + [a])[..|before|] == before;
    CodexSession.ScanOn(CodexSession.START, Chunks(before), Heard(a));
  }

  function Given(call: Invocation): string {
    if call.mode.Resume? then call.session else ""
  }

  function CodexId(call: Invocation, attempts: seq<Attempt>): string {
    ScanBy(attempts).captured.UnwrapOr(Given(call))
  }

  /** The printer's id counts if the last attempt was launched. */
  function ClaudeRead(events: Claude.Config, attempts: seq<Attempt>, given: string): string
    requires attempts != []
  {
    var read := ReadBy(events, attempts).inner.sessionId;
    if attempts[|attempts| - 1].launched && read != "" then read else given
  }

  function ClaudeId(events: Claude.Config, call: Invocation, attempts: seq<Attempt>): string
    requires attempts != []
  {
    ClaudeRead(events, attempts, Given(call))
  }

  /** A new session of a plan is searched for by its title. */
  function OpenCodeId(planned: bool, call: Invocation, last: Attempt): string {
    if Given(call) == "" && planned && last.launched then Claude.NormalizeSessionId(last.lookup) else Given(call)
  }

  /** The id in a result; there is none without sessions. */
  function ReportedId(p: Provider, planned: bool, events: Claude.Config, call: Invocation, attempts: seq<Attempt>): string
    requires attempts != []
  {
    match p
    case Codex => CodexId(call, attempts)
    case Claude => ClaudeId(events, call, attempts)
    case OpenCode => OpenCodeId(planned, call, attempts[|attempts| - 1])
    case OhMyPi => ""
  }

  // The protocol.

  function First(op: Operation, planSession: string): Invocation {
    Invocation(if op.requested != "" then Resume else op.anew, op.requested, planSession)
  }

  /** An operation with a session of its own, kept elsewhere than on the plan. */
  function SessionOperation(p: Provider, requested: string): Operation {
    Operation(false, requested, if p.OhMyPi? then Plain else New, Judge(p))
  }

  function Second(op: Operation, planSession: string): Invocation {
    Invocation(New, "", if op.ownsPlan then "" else planSession)
  }

  predicate FallsBack(op: Operation, planSession: string, program: Program) {
    var a := program(0, First(op, planSession));
    op.requested != "" && !a.cancelled && op.missing(a)
  }

  function LastCall(op: Operation, planSession: string, program: Program): Invocation {
    if FallsBack(op, planSession, program) then Second(op, planSession) else First(op, planSession)
  }

  function LastAttempt(op: Operation, planSession: string, program: Program): Attempt {
    if FallsBack(op, planSession, program) then program(1, Second(op, planSession)) else program(0, First(op, planSession))
  }

  function CallsOf(op: Operation, planSession: string, program: Program): seq<Invocation> {
    if FallsBack(op, planSession, program) then [First(op, planSession), Second(op, planSession)] else [First(op, planSession)]
  }

  lemma OneStart(op: Operation, planSession: string, program: Program)
    requires !FallsBack(op, planSession, program)
    ensures var call := First(op, planSession);
            && CallsOf(op, planSession, program) == [call]
            && LastCall(op, planSession, program) == call && LastAttempt(op, planSession, program) == program(0, call)
  {
  }

  lemma TwoStarts(op: Operation, planSession: string, program: Program)
    requires FallsBack(op, planSession, program)
    ensures var call := Second(op, planSession);
            && CallsOf(op, planSession, program) == [First(op, planSession), call]
            && LastCall(op, planSession, program) == call && LastAttempt(op, planSession, program) == program(1, call)
  {
  }

  /** The attempts before the last. */
  function Earlier(op: Operation, planSession: string, program: Program): seq<Attempt> {
    if FallsBack(op, planSession, program) then [program(0, First(op, planSession))] else []
  }

  function Concluded(call: Invocation, a: Attempt, id: string): Outcome {
    if a.cancelled then Cancelled else Finished(call.mode, id, a.timedOut)
  }

  /** What the starts of a run came back with. */
  function AttemptsOf(program: Program, calls: seq<Invocation>): (r: seq<Attempt>)
    ensures |r| == |calls| && forall i | 0 <= i < |calls| :: r[i] == program(i, calls[i])
  {
    seq(|calls|, i requires 0 <= i < |calls| => program(i, calls[i]))
  }

  /** What a run has started, in terms of what each start came back with. */
  ghost predicate AtMostOneFallback(op: Operation, planSession: string, program: Program, calls: seq<Invocation>) {
    && 1 <= |calls| <= 2
    && calls[0] == First(op, planSession)
    && (|calls| == 2 <==> calls[0].mode.Resume? && !program(0, calls[0]).cancelled
                          && op.missing(program(0, calls[0])))
    && (|calls| == 2 ==> calls[1].mode.New? && calls[1].session == ""
                         && calls[1].planSession == if op.ownsPlan then "" else planSession)
  }

  /** What a run returns, in terms of its last start. */
  ghost predicate NamesLast(program: Program, calls: seq<Invocation>, r: Outcome)
    requires calls != []
  {
    var n := |calls| - 1;
    var last := program(n, calls[n]);
    if last.cancelled then r.Cancelled? else r.Finished? && r.mode == calls[n].mode && r.timedOut == last.timedOut
  }

  /** What a run leaves on its plan. */
  ghost predicate LeavesOnPlan(calls: seq<Invocation>, r: Outcome, planSession: string)
    requires calls != []
  {
    planSession == if r.Finished? && r.timedOut then ""
                   else if r.Finished? && r.sessionId != "" then r.sessionId
                   else calls[|calls| - 1].planSession
  }

  /** A run, taken as a whole. */
  function RunResult(p: Provider, planned: bool, op: Operation, planSession: string, events: Claude.Config, program: Program): Outcome {
    var call, last := LastCall(op, planSession, program), LastAttempt(op, planSession, program);
    Concluded(call, last, ReportedId(p, planned, events, call, Earlier(op, planSession, program) + [last]))
  }

  lemma RunKeepsProtocol(p: Provider, planned: bool, op: Operation, planSession: string, events: Claude.Config, program: Program)
    requires !op.anew.Resume?
    ensures var calls, r := CallsOf(op, planSession, program), RunResult(p, planned, op, planSession, events, program);
            && AtMostOneFallback(op, planSession, program, calls)
            && NamesLast(program, calls, r)
            && (r.Finished? ==> r.sessionId == ReportedId(p, planned, events, calls[|calls| - 1], AttemptsOf(program, calls)))
  {
    var call, last := LastCall(op, planSession, program), LastAttempt(op, planSession, program);
    CallsKeepProtocol(op, planSession, program, ReportedId(p, planned, events, call, Earlier(op, planSession, program) + [last]));
  }

  lemma PlanRunLeaves(planSession: string, events: Claude.Config, program: Program)
    ensures var op := PlanOperation(planSession);
            LeavesOnPlan(CallsOf(op, planSession, program), RunResult(OpenCode, true, op, planSession, events, program),
                         PlanSessionAfter(planSession, program))
  {
  }

  lemma CallsKeepProtocol(op: Operation, planSession: string, program: Program, id: string)
    requires !op.anew.Resume?
    ensures var calls := CallsOf(op, planSession, program);
            var call, last := LastCall(op, planSession, program), LastAttempt(op, planSession, program);
            && AtMostOneFallback(op, planSession, program, calls)
            && NamesLast(program, calls, Concluded(call, last, id))
            && calls[|calls| - 1] == call && program(|calls| - 1, call) == last
            && AttemptsOf(program, calls) == Earlier(op, planSession, program) + [last]
  {
  }

  // A plan's session over one run.

  function PlanOperation(planSession: string): Operation {
    Operation(true, Claude.NormalizeSessionId(planSession), New, Judge(OpenCode))
  }

  function OpenCodeOperation(planned: bool, planSession: string): Operation {
    if planned then PlanOperation(planSession) else SessionOperation(OpenCode, "")
  }

  function OperationOf(p: Provider, planned: bool, sessionId: string, planSession: string): Operation {
    match p
    case OpenCode => OpenCodeOperation(planned, planSession)
    case OhMyPi => SessionOperation(OhMyPi, "")
    case _ => SessionOperation(p, sessionId)
  }

  /** A resume that succeeds is the last start, whatever it prints. */
  lemma SuccessIsKept(p: Provider, planned: bool, sessionId: string, planSession: string, program: Program)
    ensures var op := OperationOf(p, planned, sessionId, planSession);
            program(0, First(op, planSession)).exitCode == 0 ==> CallsOf(op, planSession, program) == [First(op, planSession)]
  {
    var op := OperationOf(p, planned, sessionId, planSession);
    var a := program(0, First(op, planSession));
    assert op.missing(a) ==> a.exitCode != 0;
  }

  /** The session stored on the plan afterwards. */
  function PlanSessionAfter(planSession: string, program: Program): string {
    var op := PlanOperation(planSession);
    PlanKept(LastCall(op, planSession, program), LastAttempt(op, planSession, program))
  }

  /** What the last start of a plan's run makes of the session that was stored when it began. */
  function PlanKept(call: Invocation, last: Attempt): string {
    if last.cancelled then call.planSession
    else if last.timedOut then ""
    else if OpenCodeId(true, call, last) != "" then OpenCodeId(true, call, last)
    else call.planSession
  }

  /**
   * The runs of a plan follow one another: a run that keeps the protocol leaves what PlanSessionAfter says, and
   * the next one asks for exactly the session that it returned, or for none after a timeout.
   */
  lemma NextRunResumesIt(planSession: string, program: Program, calls: seq<Invocation>, r: Outcome, left: string)
    requires AtMostOneFallback(PlanOperation(planSession), planSession, program, calls)
    requires NamesLast(program, calls, r) && LeavesOnPlan(calls, r, left)
    requires r.Finished? ==> var n := |calls| - 1; r.sessionId == OpenCodeId(true, calls[n], program(n, calls[n]))
    ensures left == PlanSessionAfter(planSession, program)
    ensures r.Finished? ==> PlanOperation(left).requested == if r.timedOut then "" else r.sessionId
  {
    var op := PlanOperation(planSession);
    var n := |calls| - 1;
    assert calls[n] == LastCall(op, planSession, program) && program(n, calls[n]) == LastAttempt(op, planSession, program);
    NoSessionIsValid();
    Claude.NormalSessionId(planSession);
    Claude.NormalSessionId(program(n, calls[n]).lookup);
  }

  lemma GivenIsValid(planned: bool, planSession: string)
    ensures var op := OpenCodeOperation(planned, planSession);
            Claude.NormalizeSessionId(op.requested) == op.requested && Claude.NormalizeSessionId("") == ""
  {
    Claude.NormalSessionId(planSession);
    NoSessionIsValid();
  }

  lemma NoSessionIsValid()
    ensures Claude.NormalizeSessionId("") == ""
  {
  }

  /** The part of the loop service that the protocol reads and changes. */
  class AgentRunner {
    var planSession: string
    var started: seq<Invocation>  // every start of a program, in order

    constructor (planSession: string)
      ensures this.planSession == planSession && started == []
    {
      this.planSession, started := planSession, [];
    }

    /** runAttempt: starts the program. `base` is the number of starts before this run. */
    method RunAttempt(program: Program, mode: Mode, session: string, base: nat) returns (a: Attempt)
      requires base <= |started|
      modifies `started
      ensures started == old(started) + [Invocation(mode, session, planSession)]
      ensures a == program(|old(started)| - base, Invocation(mode, session, planSession))
    {
      a := program(|started| - base, Invocation(mode, session, planSession));
      started := started + [Invocation(mode, session, planSession)];
    }

    /** updatePlanAgentCliSession: an id that is not valid is stored as none. */
    method UpdatePlanSession(id: string)
      modifies `planSession
      ensures planSession == Claude.NormalizeSessionId(id)
    {
      planSession := Claude.NormalizeSessionId(id);
    }

    /** The branches after an attempt of a plan: a timeout clears the session, an id is stored. */
    method StoreResult(result: Outcome)
      requires result.Finished? && result.sessionId == Claude.NormalizeSessionId(result.sessionId)
      modifies `planSession
      ensures planSession == if result.timedOut then "" else if result.sessionId != "" then result.sessionId else old(planSession)
    {
      if result.timedOut {
        NoSessionIsValid();
        UpdatePlanSession("");
      } else if result.sessionId != "" {
        UpdatePlanSession(result.sessionId);
      }
    }

    /** The first start of a run that has a session to resume; it is the last unless the resume is judged missing. */
    method TryResume(op: Operation, program: Program) returns (resume: Attempt, over: bool)
      requires op.requested != ""
      modifies `started
      ensures started == old(started) + [First(op, planSession)]
      ensures resume == program(0, First(op, planSession)) && (over <==> !FallsBack(op, planSession, program))
    {
      resume := RunAttempt(program, Resume, op.requested, |started|);
      over := resume.cancelled || !op.missing(resume);
    }

    /** After an attempt of OpenCode: the result, which a plan stores unless the run was cancelled. */
    method ConcludeOpenCode(planned: bool, call: Invocation, a: Attempt) returns (r: Outcome)
      requires call.planSession == planSession && Claude.NormalizeSessionId(Given(call)) == Given(call)
      modifies `planSession
      ensures r == Concluded(call, a, OpenCodeId(planned, call, a))
      ensures planSession == if planned then PlanKept(call, a) else old(planSession)
    {
      if a.cancelled {
        return Cancelled;
      }
      var id := Given(call);
      if id == "" && planned && a.launched {
        id := Claude.NormalizeSessionId(a.lookup);
        Claude.NormalSessionId(a.lookup);
      }
      r := Finished(call.mode, id, a.timedOut);
      if planned {
        StoreResult(r);
      }
    }

    /** The branch for OpenCode: the session is the plan's, and is cleared before the fresh attempt starts. */
    method RunOpenCode(planned: bool, program: Program) returns (r: Outcome)
      modifies this
      ensures var op, plan := OpenCodeOperation(planned, old(planSession)), old(planSession);
              var call, last := LastCall(op, plan, program), LastAttempt(op, plan, program);
              && started == old(started) + CallsOf(op, plan, program)
              && r == Concluded(call, last, OpenCodeId(planned, call, last))
              && planSession == if planned then PlanSessionAfter(plan, program) else plan
    {
      var op := OpenCodeOperation(planned, planSession);
      var base := |started|;
      GivenIsValid(planned, planSession);
      if op.requested != "" {
        var resume, over := TryResume(op, program);
        if over {
          OneStart(op, planSession, program);
          r := ConcludeOpenCode(planned, First(op, planSession), resume);
          return;
        }
        TwoStarts(op, planSession, program);
        if planned {
          UpdatePlanSession("");
        }
      }
      ghost var before := old(planSession);
      if op.requested == "" {
        OneStart(op, before, program);
      }
      r := StartOpenCode(planned, program, base);
    }

    /** The fresh attempt of OpenCode. */
    method StartOpenCode(planned: bool, program: Program, base: nat) returns (r: Outcome)
      requires base <= |started|
      modifies this
      ensures var call := Invocation(New, "", old(planSession));
              var a := program(|old(started)| - base, call);
              && started == old(started) + [call]
              && r == Concluded(call, a, OpenCodeId(planned, call, a))
              && planSession == if planned then PlanKept(call, a) else old(planSession)
    {
      NoSessionIsValid();
      var call := Invocation(New, "", planSession);
      var anew := RunAttempt(program, New, "", base);
      r := ConcludeOpenCode(planned, call, anew);
    }

    /** The printer hears what an attempt prints while it runs. */
    method Listen(printer: Claude.ClaudeStreamJsonPrinter, ghost before: seq<Attempt>, a: Attempt)
      requires printer.Valid() && printer.Whole() == ReadBy(printer.cfg, before)
      modifies printer, printer.activity
      ensures printer.Valid() && printer.Whole() == ReadBy(printer.cfg, before + [a])
    {
      OneMoreRead(printer.cfg, before, a);
      if !a.launched {
        return;
      }
      ghost var handle := Claude.Handler(printer.cfg);
      ghost var start := printer.Whole();
      for i := 0 to |a.chunks|
        invariant printer.Valid()
        invariant FeedChunks(handle, printer.Whole(), a.chunks[i..]) == FeedChunks(handle, start, a.chunks)
      {
        assert a.chunks[i..][0] == a.chunks[i] && a.chunks[i..][1..] == a.chunks[i + 1..];
        printer.Offer(a.chunks[i]);
      }
      printer.FlushPending();
    }

    /** The printer hears an attempt, and is asked for its id afterwards. */
    method ReadAttempt(printer: Claude.ClaudeStreamJsonPrinter, ghost before: seq<Attempt>, a: Attempt, given: string)
      returns (id: string)
      requires printer.Valid() && printer.Whole() == ReadBy(printer.cfg, before)
      modifies printer, printer.activity
      ensures printer.Valid() && printer.Whole() == ReadBy(printer.cfg, before + [a])
      ensures id == ClaudeRead(printer.cfg, before + [a], given)
    {
      Listen(printer, before, a);
      id := if a.launched && printer.sessionId != "" then printer.sessionId else given;
    }

    /** The scan sees what an attempt prints while it runs. */
    method ScanOutput(scan: CodexSession.Scan, ghost before: seq<Attempt>, a: Attempt)
      returns (after: CodexSession.Scan)
      requires scan == ScanBy(before)
      ensures after == ScanBy(before + [a])
    {
      OneMoreScanned(before, a);
      after := scan;
      if a.launched {
        after := CodexSession.ScanChunks(scan, a.chunks);
      }
    }

    /** The branch for Claude: one printer hears both attempts. */
    method RunClaude(op: Operation, events: Claude.Config, program: Program) returns (r: Outcome)
      requires !op.ownsPlan && op.anew.New?
      modifies `started
      ensures started == old(started) + CallsOf(op, planSession, program)
      ensures var call, last := LastCall(op, planSession, program), LastAttempt(op, planSession, program);
              r == Concluded(call, last, ClaudeId(events, call, Earlier(op, planSession, program) + [last]))
    {
      var base := |started|;
      var printer := new Claude.ClaudeStreamJsonPrinter(events);
      ghost var before := [];
      if op.requested != "" {
        var resume, over := TryResume(op, program);
        var read := ReadAttempt(printer, [], resume, op.requested);
        before := [resume];
        assert [] + [resume] == [resume];
        if over {
          return if resume.cancelled then Cancelled else Finished(Resume, read, resume.timedOut);
        }
      }
      var anew := RunAttempt(program, New, "", base);
      var read := ReadAttempt(printer, before, anew, "");
      return if anew.cancelled then Cancelled else Finished(New, read, anew.timedOut);
    }

    /** The branch for Codex: the buffer and the id found go on from one attempt to the other. */
    method RunCodexSession(op: Operation, program: Program) returns (r: Outcome)
      requires !op.ownsPlan && op.anew.New?
      modifies `started
      ensures started == old(started) + CallsOf(op, planSession, program)
      ensures var call, last := LastCall(op, planSession, program), LastAttempt(op, planSession, program);
              r == Concluded(call, last, CodexId(call, Earlier(op, planSession, program) + [last]))
    {
      var base := |started|;
      var scan := CodexSession.START;
      ghost var before := [];
      if op.requested != "" {
        var resume, over := TryResume(op, program);
        scan := ScanOutput(scan, [], resume);
        before := [resume];
        assert [] + [resume] == [resume];
        if over {
          return if resume.cancelled then Cancelled else Finished(Resume, scan.captured.UnwrapOr(op.requested), resume.timedOut);
        }
      }
      var anew := RunAttempt(program, New, "", base);
      scan := ScanOutput(scan, before, anew);
      return if anew.cancelled then Cancelled else Finished(New, scan.captured.UnwrapOr(""), anew.timedOut);
    }

    /** oh-my-pi: one start, and no session in its result. */
    method RunWithoutSession(program: Program) returns (r: Outcome)
      modifies `started
      ensures var call := Invocation(Plain, "", planSession);
              && started == old(started) + [call]
              && r == Concluded(call, program(0, call), "")
    {
      var attempt := RunAttempt(program, Plain, "", |started|);
      if attempt.cancelled {
        return Cancelled;
      }
      return Finished(Plain, "", attempt.timedOut);
    }

    method RunBranch(p: Provider, planned: bool, sessionId: string, events: Claude.Config, program: Program) returns (r: Outcome)
      modifies this
      ensures var plan := old(planSession);
              var op := OperationOf(p, planned, sessionId, plan);
              && started == old(started) + CallsOf(op, plan, program)
              && r == RunResult(p, planned, op, plan, events, program)
              && planSession == if p.OpenCode? && planned then PlanSessionAfter(plan, program) else plan
    {
      match p {
        case OpenCode => r := RunOpenCode(planned, program);
        case Claude => r := RunClaude(SessionOperation(Claude, sessionId), events, program);
        case Codex => r := RunCodexSession(SessionOperation(Codex, sessionId), program);
        case OhMyPi => r := RunWithoutSession(program);
      }
    }

    /** runCodex: what the branch of the provider has started, returned and left on the plan. */
    method RunAgent(p: Provider, planned: bool, sessionId: string, events: Claude.Config, program: Program)
      returns (r: Outcome, ghost calls: seq<Invocation>)
      modifies this
      ensures started == old(started) + calls
      ensures AtMostOneFallback(OperationOf(p, planned, sessionId, old(planSession)), old(planSession), program, calls)
      ensures calls[0].mode.Resume? && program(0, calls[0]).exitCode == 0 ==> |calls| == 1
      ensures NamesLast(program, calls, r)
      ensures r.Finished? ==>
                r.sessionId == ReportedId(p, planned, events, calls[|calls| - 1], AttemptsOf(program, calls))
      ensures if p.OpenCode? && planned then LeavesOnPlan(calls, r, planSession) else planSession == old(planSession)
    {
      ghost var op := OperationOf(p, planned, sessionId, planSession);
      calls := CallsOf(op, planSession, program);
      RunKeepsProtocol(p, planned, op, planSession, events, program);
      SuccessIsKept(p, planned, sessionId, planSession, program);
      PlanRunLeaves(planSession, events, program);
      r := RunBranch(p, planned, sessionId, events, program);
    }
  }

  // Runs of one plan, each with its own behaviour of the program.

  function PlanAfter(planSession: string, runs: seq<Program>): string {
    if runs == [] then planSession
    else PlanSessionAfter(PlanAfter(planSession, runs[..|runs| - 1]), runs[|runs| - 1])
  }

  /** Run number i reports the session: its last attempt was a new one, and the search by title found the session. */
  ghost predicate Reports(planSession: string, runs: seq<Program>, i: nat, session: string)
    requires i < |runs|
  {
    var before := PlanAfter(planSession, runs[..i]);
    var call, last := LastCall(PlanOperation(before), before, runs[i]), LastAttempt(PlanOperation(before), before, runs[i]);
    call.mode.New? && last.launched && !last.cancelled && !last.timedOut && Claude.NormalizeSessionId(last.lookup) == session
  }

  /** A run stores a valid id, and if it is not the one that was there, the run reports it. */
  lemma StoredByOneRun(planSession: string, program: Program)
    requires Claude.NormalizeSessionId(planSession) == planSession
    ensures var after := PlanSessionAfter(planSession, program);
            && Claude.NormalizeSessionId(after) == after
            && (after in {"", planSession} || (after != "" && Reports(planSession, [program], 0, after)))
  {
    var op := PlanOperation(planSession);
    NoSessionIsValid();
    Claude.NormalSessionId(LastAttempt(op, planSession, program).lookup);
    assert [program][..0] == [];
  }

  lemma {:induction false} PlanSessionIsValid(planSession: string, runs: seq<Program>)
    requires Claude.NormalizeSessionId(planSession) == planSession
    ensures Claude.NormalizeSessionId(PlanAfter(planSession, runs)) == PlanAfter(planSession, runs)
  {
    if runs == [] {
    } else {
      var before := runs[..|runs| - 1];
      PlanSessionIsValid(planSession, before);
      StoredByOneRun(PlanAfter(planSession, before), runs[|runs| - 1]);
    }
  }

  lemma ReportsAlone(planSession: string, runs: seq<Program>, i: nat, session: string)
    requires i < |runs|
    ensures Reports(planSession, runs, i, session) == Reports(PlanAfter(planSession, runs[..i]), [runs[i]], 0, session)
  {
    assert [runs[i]][..0] == [];
  }

  lemma ReportsPrefix(planSession: string, runs: seq<Program>, n: nat, i: nat, session: string)
    requires i < n <= |runs|
    ensures Reports(planSession, runs[..n], i, session) == Reports(planSession, runs, i, session)
  {
    assert runs[..n][..i] == runs[..i];
  }

  lemma RequestedIsStored(stored: string)
    requires Claude.NormalizeSessionId(stored) == stored && First(PlanOperation(stored), stored).mode.Resume?
    ensures stored != "" && First(PlanOperation(stored), stored).session == stored
  {
  }

  /** On a plan that starts without a session, whatever is ever resumed was reported by an earlier run. */
  lemma ResumedWasReported(runs: seq<Program>, next: Program)
    requires var stored := PlanAfter("", runs); First(PlanOperation(stored), stored).mode.Resume?
    ensures var stored := PlanAfter("", runs);
            exists i | 0 <= i < |runs| :: Reports("", runs, i, First(PlanOperation(stored), stored).session)
  {
    var stored := PlanAfter("", runs);
    assert Claude.NormalizeSessionId(stored) == stored by {
      NoSessionIsValid();
      PlanSessionIsValid("", runs);
    }
    RequestedIsStored(stored);
    var i := StoredWasReported(runs);
    assert Reports("", runs, i, First(PlanOperation(stored), stored).session);
  }

  lemma {:induction false} StoredWasReported(runs: seq<Program>) returns (i: nat)
    requires PlanAfter("", runs) != ""
    ensures i < |runs| && Reports("", runs, i, PlanAfter("", runs))
  {
    var n := |runs| - 1;
    var before := runs[..n];
    NoSessionIsValid();
    PlanSessionIsValid("", before);
    StoredByOneRun(PlanAfter("", before), runs[n]);
    if PlanAfter("", runs) == PlanAfter("", before) {
      i := StoredWasReported(before);
      assert runs[..i] == before[..i];
    } else {
      ReportsAlone("", runs, n, PlanAfter("", runs));
      i := n;
    }
  }

  lemma LostByOneRun(lost: string, program: Program)
    requires lost != "" && Claude.NormalizeSessionId(lost) == lost && !Reports(lost, [program], 0, lost)
    requires var op := PlanOperation(lost);
             FallsBack(op, lost, program) || (LastAttempt(op, lost, program).timedOut && !LastAttempt(op, lost, program).cancelled)
    ensures PlanSessionAfter(lost, program) != lost
  {
    assert [program][..0] == [];
  }

  /** A session judged missing, or lost to a timeout, is not resumed again unless a later run reports it. */
  lemma {:induction false} LostStaysLost(lost: string, runs: seq<Program>)
    requires lost != "" && Claude.NormalizeSessionId(lost) == lost && runs != []
    requires var op := PlanOperation(lost);
             FallsBack(op, lost, runs[0]) || (LastAttempt(op, lost, runs[0]).timedOut && !LastAttempt(op, lost, runs[0]).cancelled)
    requires forall i | 0 <= i < |runs| :: !Reports(lost, runs, i, lost)
    ensures PlanAfter(lost, runs) != lost
  {
    var n := |runs| - 1;
    var before := runs[..n];
    if n == 0 {
      assert before == [] && PlanAfter(lost, before) == lost;
      assert runs[..0] == [];
      ReportsAlone(lost, runs, 0, lost);
      LostByOneRun(lost, runs[0]);
    } else {
      forall i | 0 <= i < n ensures !Reports(lost, before, i, lost) {
        ReportsPrefix(lost, runs, n, i, lost);
      }
      LostStaysLost(lost, before);
      PlanSessionIsValid(lost, before);
      StoredByOneRun(PlanAfter(lost, before), runs[n]);
      ReportsAlone(lost, runs, n, lost);
    }
  }

  // When a fallback reports an id that the fresh attempt does not name.

  /** The session id that an attempt of Claude names by itself. */
  function OwnId(events: Claude.Config, a: Attempt): string {
    if a.launched then Claude.SessionOf(events, a.chunks) else ""
  }

  /**
   * After a fallback the reported Claude id is not that of the fresh attempt exactly if the fresh attempt was
   * launched and names none, and the failed resume had named one: the printer still holds it.
   */
  lemma ClaudeIdIsStaleExactly(events: Claude.Config, call: Invocation, resume: Attempt, anew: Attempt)
    requires call.mode.New?
    ensures var id := ClaudeId(events, call, [resume, anew]);
            && (id != OwnId(events, anew) <==> anew.launched && OwnId(events, anew) == "" && OwnId(events, resume) != "")
            && (id != OwnId(events, anew) ==> id == OwnId(events, resume))
  {
    var st := ReadBy(events, [resume]);
    assert [] + [resume] == [resume] && [resume] + [anew] == [resume, anew];
    OneMoreRead(events, [], resume);
    OneMoreRead(events, [resume], anew);
    Claude.ReadOnSession(events, Claude.FRESH, resume.chunks);
    Claude.ReadOnSession(events, st.inner, anew.chunks);
  }

  lemma CodexIdOfTwo(call: Invocation, resume: Attempt, anew: Attempt)
    ensures CodexId(call, [resume, anew])
            == CodexSession.ScanAll(CodexSession.START, Heard(resume) + Heard(anew)).captured.UnwrapOr(Given(call))
  {
    assert [] + [resume] == [resume] && [resume] + [anew] == [resume, anew];
    OneMoreScanned([], resume);
    OneMoreScanned([resume], anew);
    CodexSession.ScanOn(CodexSession.START, Heard(resume), Heard(anew));
  }

  /**
   * After a fallback, whatever both attempts print, Codex reports an id exactly if the window after some chunk
   * of either shows an occurrence; the buffer is one for both. Where the two outputs, read as one text, name no
   * id, that is exactly if some chunk or window was cut within a word next to an occurrence.
   */
  lemma CodexIdIsStaleExactly(call: Invocation, resume: Attempt, anew: Attempt)
    requires call.mode.New?
    ensures var id, all := CodexId(call, [resume, anew]), Heard(resume) + Heard(anew);
            && (id != "" <==> exists k :: CodexSession.ShownAfter(all, k))
            && (CodexSession.NamesNoId(Concat(all)) ==> (id != "" <==> exists k :: CodexSession.TornAfter(all, k)))
  {
    var all := Heard(resume) + Heard(anew);
    CodexIdOfTwo(call, resume, anew);
    CodexSession.CapturedByShownExactly(all);
    CodexSession.CapturedIsNotEmpty(all);
  }

  /**
   * A fallback reports an id although neither output names one only by an occurrence that a window has torn out
   * of a longer word, that reaches from the one output to the other, or that ends where the chunks end.
   */
  lemma IdOfNeitherIsCutOrJoined(call: Invocation, resume: Attempt, anew: Attempt)
    requires call.mode.New? && ResumeMissing(Codex, resume) && CodexSession.NamesNoId(Output(anew))
    requires CodexId(call, [resume, anew]) != ""
    ensures exists k :: CodexSession.CutOrJoinedAfter(Heard(resume) + Heard(anew), |Concat(Heard(resume))|, k)
  {
    var all, first, second := Heard(resume) + Heard(anew), Concat(Heard(resume)), Concat(Heard(anew));
    CodexIdIsStaleExactly(call, resume, anew);
    var k :| CodexSession.ShownAfter(all, k);
    ConcatSplit(Heard(resume), Heard(anew));
    CodexSession.ExtractsNothingExactly(Output(resume));
    assert (first + second)[..|first|] == first && (first + second)[|first|..] == second;
    CodexSession.ShownOfNeitherAfter(all, |first|, Output(resume), Output(anew), k);
  }

  // Inputs at which that happens.

  /** A program that comes back with `a` from its first start and with `b` from any later one. */
  function Scripted(a: Attempt, b: Attempt): Program {
    (i: nat, call: Invocation) => if i == 0 then a else b
  }

  lemma ScriptedFallback(p: Provider, known: string, planSession: string, events: Claude.Config, a: Attempt, b: Attempt)
    requires p.Codex? || p.Claude?
    requires known != "" && !a.cancelled && ResumeMissing(p, a) && !b.cancelled
    ensures var op, program := SessionOperation(p, known), Scripted(a, b);
            && CallsOf(op, planSession, program) == [First(op, planSession), Second(op, planSession)]
            && RunResult(p, false, op, planSession, events, program)
               == Finished(New, ReportedId(p, false, events, Second(op, planSession), [a, b]), b.timedOut)
  {
    var op, program := SessionOperation(p, known), Scripted(a, b);
    assert op.missing(a) && FallsBack(op, planSession, program);
    assert [a] + [b] == [a, b];
  }

  /** An attempt that prints these chunks. */
  function Printing(exitCode: int, chunks: seq<string>): Attempt {
    Attempt(true, exitCode, chunks, "", "", "", false, false)
  }

  /** A text without hyphens that says so is judged a missing session. */
  lemma FailedIsMissing(pre: string, post: string)
    requires '-' !in pre && '-' !in post
    ensures ResumeMissing(Codex, Printing(1, [pre + "resume failed" + post]))
  {
    var w, a := "resume failed", Printing(1, [pre + "resume failed" + post]);
    var text := pre + w + post;
    ConcatOne(text);
    assert text[|pre|..|pre| + |w|] == w;
    assert LowerAll(w) == w;
    assert forall c | c in text :: c in pre || c in w || c in post;
    CodexSession.NoHyphenNamesNoId(text);
    WordIsMentioned(text, |pre|, w);
    ComplaintOfCodex();
    assert Output(a) == text;
    MissingByText(a, text);
  }

  lemma RestComplains(id: string)
    requires IsUuid(id)
    ensures Complains(Codex, CodexSession.LABEL + id + CodexSession.REST)
  {
    var text := CodexSession.LABEL + id + CodexSession.REST;
    assert |text| == 63 && text[50..63] == CodexSession.REST[2..15];
    assert LowerAll(CodexSession.REST[2..15]) == "resume failed";
    WordIsMentioned(text, 50, "resume failed");
    ComplaintOfCodex();
  }

  lemma WordIsMentioned(text: string, i: nat, w: string)
    requires At(text, i, w)
    ensures Mentions(One(w), text)
  {
    assert Match(Done, text, i + |w|) == Some(i + |w|) && Begins(One(w), text, i);
  }

  lemma ComplaintOfCodex()
    ensures One("resume failed") in Complaints(Codex)
  {
    assert Complaints(Codex)[1] == One("resume failed");
  }

  lemma ComplaintOfClaude()
    ensures Two("no", "conversation") in Complaints(Claude)
  {
    assert Complaints(Claude)[4] == Two("no", "conversation");
  }

  lemma CutIsMissing(id: string)
    requires IsUuid(id)
    ensures ResumeMissing(Codex, Printing(1, [CodexSession.LABEL + id, CodexSession.REST]))
  {
    var a, text := Printing(1, [CodexSession.LABEL + id, CodexSession.REST]), CodexSession.LABEL + id + CodexSession.REST;
    assert Output(a) == text by {
      ConcatTwo(CodexSession.LABEL + id, CodexSession.REST);
    }
    assert CodexSession.Extract(text).None? by {
      CodexSession.LongerWordNamesNoId(id);
      CodexSession.ExtractsNothingExactly(text);
    }
    RestComplains(id);
    MissingByText(a, text);
  }

  lemma MissingByText(a: Attempt, text: string)
    requires Output(a) == text && a.exitCode != 0 && CodexSession.Extract(text).None? && Complains(Codex, text)
    ensures ResumeMissing(Codex, a)
  {
  }

  /** What Codex reports after a fallback between two scripted attempts is what the scan of both captures. */
  lemma ScriptedCodex(known: string, planSession: string, events: Claude.Config, a: Attempt, b: Attempt, id: string)
    requires known != "" && !a.cancelled && ResumeMissing(Codex, a) && !b.cancelled && !b.timedOut
    requires CodexSession.ScanAll(CodexSession.START, Heard(a) + Heard(b)).captured == Some(id)
    ensures RunResult(Codex, false, SessionOperation(Codex, known), planSession, events, Scripted(a, b)) == Finished(New, id, false)
  {
    ScriptedFallback(Codex, known, planSession, events, a, b);
    CodexIdOfTwo(Second(SessionOperation(Codex, known), planSession), a, b);
  }

  /**
   * A failed resume of Codex prints `session id: <36 characters>` and goes on with `0 resume failed` in the next
   * chunk; the fresh attempt prints nothing. The result names the 36 characters, which neither output does.
   */
  lemma CutIdIsReported(id: string, known: string, planSession: string, events: Claude.Config)
    requires IsUuid(id) && known != ""
    ensures var program := Scripted(Printing(1, [CodexSession.LABEL + id, CodexSession.REST]), Printing(0, []));
            RunResult(Codex, false, SessionOperation(Codex, known), planSession, events, program)
            == Finished(New, LowerAll(id), false)
  {
    var chunks := [CodexSession.LABEL + id, CodexSession.REST];
    CutIsMissing(id);
    CodexSession.CutChunkCaptures(id, [], "");
    assert [] + chunks == chunks && chunks + [] == chunks;
    ScriptedCodex(known, planSession, events, Printing(1, chunks), Printing(0, []), LowerAll(id));
  }

  lemma FailedNamesNoId()
    ensures ResumeMissing(Codex, Printing(1, [CodexSession.FAILED])) && CodexSession.NamesNoId(Output(Printing(1, [CodexSession.FAILED])))
  {
    assert "" + "resume failed" + "\n" == CodexSession.FAILED;
    FailedIsMissing("", "\n");
    CodexSession.ExtractsNothingExactly(Output(Printing(1, [CodexSession.FAILED])));
  }

  lemma CutNamesNoId(id: string)
    requires IsUuid(id)
    ensures CodexSession.NamesNoId(Output(Printing(0, [CodexSession.LABEL + id, CodexSession.REST])))
  {
    ConcatTwo(CodexSession.LABEL + id, CodexSession.REST);
    assert Output(Printing(0, [CodexSession.LABEL + id, CodexSession.REST])) == CodexSession.LABEL + id + CodexSession.REST;
    CodexSession.LongerWordNamesNoId(id);
  }

  /** The same two chunks, printed by the fresh attempt: the failed resume need not be cut anywhere. */
  lemma CutInFreshIsReported(id: string, known: string, planSession: string, events: Claude.Config)
    requires IsUuid(id) && known != ""
    ensures var a, b := Printing(1, [CodexSession.FAILED]), Printing(0, [CodexSession.LABEL + id, CodexSession.REST]);
            && CodexSession.NamesNoId(Output(a)) && CodexSession.NamesNoId(Output(b))
            && RunResult(Codex, false, SessionOperation(Codex, known), planSession, events, Scripted(a, b))
               == Finished(New, LowerAll(id), false)
  {
    var a, b := Printing(1, [CodexSession.FAILED]), Printing(0, [CodexSession.LABEL + id, CodexSession.REST]);
    CodexSession.NoHyphens();
    FailedNamesNoId();
    CutNamesNoId(id);
    ConcatOne(CodexSession.FAILED);
    CodexSession.CutChunkCaptures(id, [CodexSession.FAILED], CodexSession.FAILED);
    ScriptedCodex(known, planSession, events, a, b, LowerAll(id));
  }

  /** The failed resume ends in a label, and the fresh attempt begins with an id: together they name it. */
  lemma JoinedIdIsReported(id: string, known: string, planSession: string, events: Claude.Config)
    requires IsUuid(id) && known != ""
    ensures var a, b := Printing(1, [CodexSession.FAILED + CodexSession.LABEL]), Printing(0, [id]);
            && CodexSession.NamesNoId(Output(a)) && CodexSession.NamesNoId(Output(b))
            && RunResult(Codex, false, SessionOperation(Codex, known), planSession, events, Scripted(a, b))
               == Finished(New, LowerAll(id), false)
  {
    var c := CodexSession.FAILED + CodexSession.LABEL;
    var a, b := Printing(1, [c]), Printing(0, [id]);
    CodexSession.NoHyphens();
    ConcatOne(c);
    ConcatOne(id);
    assert Output(a) == c && Output(b) == id;
    CodexSession.NoHyphenNamesNoId(c);
    CodexSession.BareIdNamesNoId(id);
    assert "" + "resume failed" + ("\n" + CodexSession.LABEL) == c;
    FailedIsMissing("", "\n" + CodexSession.LABEL);
    CodexSession.LabelNamesId(CodexSession.FAILED, id);
    CodexSession.ScanOneMore([c], id);
    ConcatTwo(c, id);
    assert [c] + [id] == [c, id];
    ScriptedCodex(known, planSession, events, a, b, LowerAll(id));
  }

  const PHRASE := "No conversation"
  const TYPE_FIELD := "{\"type\":\"result\","
  const SESSION_FIELD := "\"session_id\":\"s1\","
  const RESULT_FIELD := "\"result\":\""
  const BEFORE_PHRASE := TYPE_FIELD + SESSION_FIELD + RESULT_FIELD
  const AFTER_PHRASE := "\"}"
  const RESULT_LINE := BEFORE_PHRASE + PHRASE + AFTER_PHRASE

  lemma PhraseComplains(before: string, after: string)
    ensures Mentions(Two("no", "conversation"), before + PHRASE + after)
  {
    var text, n := before + PHRASE + after, |before|;
    var c := Two("no", "conversation");
    assert text[n..n + 2] == PHRASE[..2] && text[n + 3..n + 15] == PHRASE[3..15];
    assert text[n + 2] == ' ' && text[n + 3] == 'c';
    assert LowerAll(text[n..n + 2]) == "no" && Step(Word("no"), text, n) == Some(n + 2);
    assert SkipBlanks(text, n + 3) == n + 3 && Step(Blanks(true), text, n + 2) == Some(n + 3);
    assert LowerAll(text[n + 3..n + 15]) == "conversation" && Step(Word("conversation"), text, n + 3) == Some(n + 15);
    assert Match(c.rest.rest, text, n + 3) == Some(n + 15);
    assert Match(c.rest, text, n + 2) == Some(n + 15);
    assert Begins(c, text, n);
  }

  lemma ResultLineIsOneLine()
    ensures '\n' !in RESULT_LINE && '\r' !in RESULT_LINE && Trim(RESULT_LINE) == RESULT_LINE != ""
  {
    assert OneLine(TYPE_FIELD) && OneLine(SESSION_FIELD) && OneLine(RESULT_FIELD) && OneLine(PHRASE) && OneLine(AFTER_PHRASE);
    assert OneLine(BEFORE_PHRASE);
    var s := RESULT_LINE;
    assert s[0] == TYPE_FIELD[0] == '{' && s[|s| - 1] == AFTER_PHRASE[1] == '}';
    assert !IsSpace('{') && !IsSpace('}');
    NothingToTrim(s);
  }

  predicate OneLine(s: string) {
    '\n' !in s && '\r' !in s
  }

  lemma NothingToTrim(s: string)
    requires s != "" && !IsSpace(s[0]) && !IsSpace(s[|s| - 1])
    ensures Trim(s) == s
  {
  }

  /**
   * A failed resume of Claude prints a result event with a session id and the complaint; the fresh attempt prints
   * nothing. The result names the session of the failed resume.
   */
  lemma FailedResumeIsReported(known: string, planSession: string, events: Claude.Config)
    requires known != "" && events.decode(RESULT_LINE) == Some(Claude.Result(Some("No conversation"), "s1", false))
    ensures var program := Scripted(Printing(1, [RESULT_LINE]), Printing(0, []));
            RunResult(Claude, false, SessionOperation(Claude, known), planSession, events, program)
            == Finished(New, "s1", false)
  {
    ResultLineIsOneLine();
    PhraseComplains(BEFORE_PHRASE, AFTER_PHRASE + "\n");
    assert BEFORE_PHRASE + PHRASE + (AFTER_PHRASE + "\n") == RESULT_LINE + "\n";
    ResumeWithLine(RESULT_LINE, Claude.Result(Some("No conversation"), "s1", false), known, planSession, events);
  }

  lemma ResumeWithLine(line: string, event: Claude.Event, known: string, planSession: string, events: Claude.Config)
    requires known != "" && '\n' !in line && '\r' !in line && Trim(line) == line != ""
    requires event.Result? && event.sessionId == "s1" && events.decode(line) == Some(event)
    requires Mentions(Two("no", "conversation"), line + "\n")
    ensures var program := Scripted(Printing(1, [line]), Printing(0, []));
            RunResult(Claude, false, SessionOperation(Claude, known), planSession, events, program)
            == Finished(New, "s1", false)
  {
    var a, b := Printing(1, [line]), Printing(0, []);
    LineIsMissing(line);
    ScriptedFallback(Claude, known, planSession, events, a, b);
    assert [] + [a] == [a] && [a] + [b] == [a, b];
    OneMoreRead(events, [], a);
    OneMoreRead(events, [a], b);
    LineNamesSession(line, event, events);
    assert ReadOn(events, ReadBy(events, [a]), b).inner == ReadBy(events, [a]).inner;
  }

  lemma LineIsMissing(line: string)
    requires Mentions(Two("no", "conversation"), line + "\n")
    ensures ResumeMissing(Claude, Printing(1, [line]))
  {
    ConcatOne(line);
    ComplaintOfClaude();
    var a := Printing(1, [line]);
    assert Output(a) == line && Evidence(Claude, a) == line + "\n";
  }

  lemma LineNamesSession(line: string, event: Claude.Event, events: Claude.Config)
    requires '\n' !in line && '\r' !in line && Trim(line) == line != ""
    requires event.Result? && event.sessionId == "s1" && events.decode(line) == Some(event)
    ensures var st := Claude.Flush(events, FeedChunks(Claude.Handler(events), Stream("", Claude.FRESH), [line]));
            st.pending == "" && st.inner.sessionId == "s1"
  {
    FeedWithinLine(Claude.Handler(events), Stream("", Claude.FRESH), line);
    assert "" + line == line;
    assert TrimStart("s1") == "s1" && TrimEnd("s1") == "s1" && Claude.NormalizeSessionId("s1") == "s1";
  }
}
