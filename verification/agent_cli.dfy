// Command lines for agent command line programs: quoting for cmd.exe, the length estimate, and the
// decision to hand a prompt over in a file instead of as an argument.

module WindowsCommandLine {
  import opened JsText

  predicate IsSpecial(c: char) {
    IsSpace(c) || c in "&()^%!\"<>|"
  }

  predicate NeedsQuotes(text: string) {
    exists i :: 0 <= i < |text| && IsSpecial(text[i])
  }

  function DoubleQuotes(text: string): string {
    if text == "" then ""
    else (if text[0] == '"' then "\"\"" else [text[0]]) + DoubleQuotes(text[1..])
  }

  function QuoteWindowsCmdArg(text: string): string {
    if text == "" then "\"\""
    else if !NeedsQuotes(text) then text
    else "\"" + DoubleQuotes(text) + "\""
  }

  function QuoteAll(args: seq<string>): seq<string> {
    if args == [] then [] else [QuoteWindowsCmdArg(args[0])] + QuoteAll(args[1..])
  }

  /** `join(' ')`. */
  function Join(parts: seq<string>): string {
    if parts == [] then ""
    else if |parts| == 1 then parts[0]
    else parts[0] + " " + Join(parts[1..])
  }

  function WindowsCmdLine(command: string, args: seq<string>): string {
    Join(["call", QuoteWindowsCmdArg(command)] + QuoteAll(args))
  }

  /** Reads the inside of a quoted argument up to the quote that is not doubled. */
  function ReadQuoted(s: string): (r: Option<(string, string)>)
    ensures r.Some? ==> |r.value.1| <= |s|
    decreases |s|
  {
    if s == "" then None
    else if s[0] == '"' && (|s| == 1 || s[1] != '"') then Some(("", s[1..]))
    else
      var n := if s[0] == '"' then 2 else 1;
      match ReadQuoted(s[n..])
      case None => None
      case Some((text, rest)) => Some(([s[0]] + text, rest))
  }

  /** Reads an argument without quotes up to the next blank. */
  function ReadPlain(s: string): (r: (string, string))
    ensures |r.1| <= |s|
  {
    if s == "" || s[0] == ' ' then ("", s)
    else
      var (text, rest) := ReadPlain(s[1..]);
      ([s[0]] + text, rest)
  }

  function ReadArg(s: string): (r: Option<(string, string)>)
    ensures r.Some? ==> |r.value.1| <= |s|
  {
    if s != "" && s[0] == '"' then ReadQuoted(s[1..]) else Some(ReadPlain(s))
  }

  /** A decoder for command lines, written without reference to the printer: arguments each after a blank. */
  function DecodeArgs(s: string): Option<seq<string>>
    decreases |s|
  {
    if s == "" then Some([])
    else if s[0] != ' ' then None
    else
      match ReadArg(s[1..])
      case None => None
      case Some((text, rest)) =>
        match DecodeArgs(rest)
        case None => None
        case Some(more) => Some([text] + more)
  }

  function Decode(line: string): Option<(string, seq<string>)> {
    if |line| < 4 || line[..4] != "call" then None
    else
      match DecodeArgs(line[4..])
      case None => None
      case Some(words) => if words == [] then None else Some((words[0], words[1..]))
  }

  predicate AtArgEnd(rest: string) {
    rest == "" || rest[0] == ' '
  }

  /** The arguments as the line holds them, each after its blank. */
  function Spaced(args: seq<string>): string {
    if args == [] then "" else " " + QuoteWindowsCmdArg(args[0]) + Spaced(args[1..])
  }

  lemma {:induction false} ReadQuotedInverts(text: string, rest: string)
    requires AtArgEnd(rest)
    ensures ReadQuoted(DoubleQuotes(text) + "\"" + rest) == Some((text, rest))
  {
    var s := DoubleQuotes(text) + "\"" + rest;
    if text == "" {
      assert s[1..] == rest;
    } else {
      var tail := DoubleQuotes(text[1..]) + "\"" + rest;
      assert s == (if text[0] == '"' then "\"\"" else [text[0]]) + tail;
      ReadQuotedInverts(text[1..], rest);
      assert s[if text[0] == '"' then 2 else 1..] == tail;
      assert [text[0]] + text[1..] == text;
    }
  }

  lemma {:induction false} ReadPlainInverts(text: string, rest: string)
    requires AtArgEnd(rest) && ' ' !in text
    ensures ReadPlain(text + rest) == (text, rest)
  {
    if text == "" {
      assert text + rest == rest;
    } else {
      assert (text + rest)[1..] == text[1..] + rest;
      ReadPlainInverts(text[1..], rest);
      assert [text[0]] + text[1..] == text;
    }
  }

  lemma ReadArgInverts(text: string, rest: string)
    requires AtArgEnd(rest)
    ensures ReadArg(QuoteWindowsCmdArg(text) + rest) == Some((text, rest))
  {
    if text != "" && !NeedsQuotes(text) {
      PlainHasNoDelimiter(text);
      ReadPlainInverts(text, rest);
    } else {
      ReadQuotedInverts(text, rest);
      QuotedTail(text, rest);
    }
  }

  lemma QuotedTail(text: string, rest: string)
    requires text == "" || NeedsQuotes(text)
    ensures var s := QuoteWindowsCmdArg(text) + rest;
            s != "" && s[0] == '"' && s[1..] == DoubleQuotes(text) + "\"" + rest
  {
    assert QuoteWindowsCmdArg(text) == "\"" + DoubleQuotes(text) + "\"";
  }

  lemma PlainHasNoDelimiter(text: string)
    requires !NeedsQuotes(text)
    ensures ' ' !in text && '"' !in text
  {
  }

  lemma DecodeStep(quoted: string, text: string, rest: string, more: seq<string>)
    requires ReadArg(quoted + rest) == Some((text, rest)) && DecodeArgs(rest) == Some(more)
    ensures DecodeArgs(" " + quoted + rest) == Some([text] + more)
  {
    assert (" " + quoted + rest)[1..] == quoted + rest;
  }

  lemma {:induction false} DecodeArgsInverts(args: seq<string>)
    ensures DecodeArgs(Spaced(args)) == Some(args)
  {
    if args == [] {
    } else {
      var rest := Spaced(args[1..]);
      ReadArgInverts(args[0], rest);
      DecodeArgsInverts(args[1..]);
      DecodeStep(QuoteWindowsCmdArg(args[0]), args[0], rest, args[1..]);
      assert [args[0]] + args[1..] == args;
    }
  }

  lemma JoinStep(head: string, next: string, parts: seq<string>)
    ensures Join([head] + ([next] + parts)) == head + (" " + Join([next] + parts))
  {
  }

  lemma {:induction false} JoinIsSpaced(head: string, args: seq<string>)
    ensures Join([head] + QuoteAll(args)) == head + Spaced(args)
    decreases |args|
  {
    if args == [] {
      assert [head] + QuoteAll(args) == [head];
    } else {
      JoinStep(head, QuoteWindowsCmdArg(args[0]), QuoteAll(args[1..]));
      JoinIsSpaced(QuoteWindowsCmdArg(args[0]), args[1..]);
      SpacedStep(args);
    }
  }

  lemma SpacedStep(args: seq<string>)
    requires args != []
    ensures Spaced(args) == " " + (QuoteWindowsCmdArg(args[0]) + Spaced(args[1..]))
  {
  }

  lemma CmdLineIsSpaced(command: string, args: seq<string>)
    ensures WindowsCmdLine(command, args) == "call" + Spaced([command] + args)
  {
    assert ([command] + args)[1..] == args;
    assert ["call", QuoteWindowsCmdArg(command)] + QuoteAll(args) == ["call"] + QuoteAll([command] + args);
    JoinIsSpaced("call", [command] + args);
  }

  /** The decoder inverts the printer on every command and argument list. */
  lemma DecodeInverts(command: string, args: seq<string>)
    ensures Decode(WindowsCmdLine(command, args)) == Some((command, args))
  {
    CmdLineIsSpaced(command, args);
    var words := [command] + args;
    DecodeArgsInverts(words);
    assert WindowsCmdLine(command, args)[4..] == Spaced(words);
    assert words[1..] == args;
  }

  /** Different commands or argument lists never give the same command line. */
  lemma Injective(command1: string, args1: seq<string>, command2: string, args2: seq<string>)
    requires WindowsCmdLine(command1, args1) == WindowsCmdLine(command2, args2)
    ensures command1 == command2 && args1 == args2
  {
    DecodeInverts(command1, args1);
    DecodeInverts(command2, args2);
  }

  lemma {:induction false} SpacedConcat(a: seq<string>, b: seq<string>)
    ensures Spaced(a + b) == Spaced(a) + Spaced(b)
  {
    if a == [] {
      assert a + b == b;
    } else {
      assert (a + b)[1..] == a[1..] + b;
      SpacedConcat(a[1..], b);
    }
  }

  /** An argument goes unquoted exactly if it is not empty and has none of the characters that cmd.exe treats specially. */
  lemma UnquotedExactly(text: string)
    ensures QuoteWindowsCmdArg(text) == text
            <==> text != "" && forall k | 0 <= k < |text| ::
                   && !IsSpace(text[k]) && text[k] != '&' && text[k] != '(' && text[k] != ')' && text[k] != '^' && text[k] != '%'
                   && text[k] != '!' && text[k] != '"' && text[k] != '<' && text[k] != '>' && text[k] != '|'
  {
    if text != "" && NeedsQuotes(text) {
      DoubledIsLonger(text);
    }
  }

  lemma {:induction false} DoubledIsLonger(text: string)
    ensures |DoubleQuotes(text)| >= |text|
  {
    if text != "" {
      DoubledIsLonger(text[1..]);
    }
  }

  function Lengths(parts: seq<string>): nat {
    if parts == [] then 0 else |parts[0]| + Lengths(parts[1..])
  }

  /** What is joined has all its parts and a blank between any two. */
  lemma {:induction false} JoinLength(parts: seq<string>)
    requires parts != []
    ensures |Join(parts)| == Lengths(parts) + |parts| - 1
  {
    if |parts| > 1 {
      JoinLength(parts[1..]);
    } else {
      assert parts[1..] == [];
    }
  }

  /** What one more argument adds to the line. */
  lemma CmdLineGrowth(command: string, args: seq<string>, more: seq<string>)
    ensures |WindowsCmdLine(command, args + more)| == |WindowsCmdLine(command, args)| + |Spaced(more)|
  {
    var words := [command] + args;
    assert |WindowsCmdLine(command, args + more)| == 4 + |Spaced(words + more)| by {
      CmdLineIsSpaced(command, args + more);
      assert [command] + (args + more) == words + more;
    }
    assert |WindowsCmdLine(command, args)| == 4 + |Spaced(words)| by {
      CmdLineIsSpaced(command, args);
    }
    SpacedConcat(words, more);
  }
}

module PromptDelivery {
  import opened JsText
  import opened WindowsCommandLine

  const WIN_CMD_LIMIT := 8191
  const WIN_CREATEPROCESS_LIMIT := 32767
  const PROMPT_ARG_SAFETY_MARGIN := 1024
  const MAX_SAFE_INTEGER := 9007199254740991

  /**
   * The machine a command is started on: `resolve` looks a command up on PATH, `pointer` is the
   * wording that refers a reader to the file with the prompt.
   */
  datatype Platform = Platform(
    windows: bool,
    comSpec: string,
    resolve: string -> string,
    pointer: string -> string)

  datatype SpawnSpec = SpawnSpec(command: string, args: seq<string>, useShell: bool, promptIsArgument: bool)

  datatype ExecutionSpec = ExecutionSpec(command: string, args: seq<string>, shell: bool, verbatim: bool)

  datatype Reason = CmdMultiline | CommandLineLimit

  datatype Spillover = NotNeeded | Spilled(filePath: string, pointer: string, reason: Reason) | WriteFailed

  datatype Launch = Spawned(args: seq<string>, exec: ExecutionSpec) | NotSpawned

  function LowerAscii(c: char): char {
    if 'A' <= c <= 'Z' then c - 'A' + 'a' else c
  }

  /** `/\.(?:bat|cmd)$/i`. */
  predicate IsBatch(path: string) {
    |path| >= 4 && path[|path| - 4] == '.' &&
    var ext := [LowerAscii(path[|path| - 3]), LowerAscii(path[|path| - 2]), LowerAscii(path[|path| - 1])];
    ext == "bat" || ext == "cmd"
  }

  predicate IsWindowsCmdShim(p: Platform, command: string) {
    p.windows && IsBatch(p.resolve(command))
  }

  predicate HasLineBreak(text: string) {
    '\r' in text || '\n' in text
  }

  function EffectiveCommandLineLimit(p: Platform, spec: SpawnSpec): nat {
    if !p.windows then MAX_SAFE_INTEGER
    else if spec.useShell || IsWindowsCmdShim(p, spec.command) then WIN_CMD_LIMIT
    else WIN_CREATEPROCESS_LIMIT
  }

  function EstimatedCommandLineChars(p: Platform, spec: SpawnSpec, extraPrompt: string): nat {
    var args := spec.args + if extraPrompt != "" then [extraPrompt] else [];
    if !p.windows || spec.useShell then |Join([spec.command] + args)|
    else
      var resolved := p.resolve(spec.command);
      if !IsBatch(resolved) then |Join([resolved] + args)| else |WindowsCmdLine(resolved, args)|
  }

  function AgentCliExecutionSpec(p: Platform, spec: SpawnSpec): ExecutionSpec {
    if !p.windows || spec.useShell then ExecutionSpec(spec.command, spec.args, p.windows && spec.useShell, false)
    else
      var resolved := p.resolve(spec.command);
      if !IsBatch(resolved) then ExecutionSpec(resolved, spec.args, false, false)
      else ExecutionSpec(if p.comSpec != "" then p.comSpec else "cmd.exe",
                         ["/d", "/s", "/c", WindowsCmdLine(resolved, spec.args)], false, true)
  }

  /** Why a prompt may not be an argument, if so. */
  function SpillReason(p: Platform, spec: SpawnSpec, prompt: string): Option<Reason> {
    if !spec.promptIsArgument then None
    else if IsWindowsCmdShim(p, spec.command) && HasLineBreak(prompt) then Some(CmdMultiline)
    else if EstimatedCommandLineChars(p, spec, prompt) > EffectiveCommandLineLimit(p, spec) - PROMPT_ARG_SAFETY_MARGIN
    then Some(CommandLineLimit)
    else None
  }

  /** What is started for a prompt, `filePath` being the prompt file's name and `writable` its fate. */
  function Deliver(p: Platform, spec: SpawnSpec, prompt: string, filePath: string, writable: bool): Launch {
    if !spec.promptIsArgument then Spawned(spec.args, AgentCliExecutionSpec(p, spec))
    else if SpillReason(p, spec, prompt).None? then WithArgs(p, spec, [prompt])
    else if !writable then NotSpawned
    else WithArgs(p, spec, [p.pointer(filePath), "-f", filePath])
  }

  function WithArgs(p: Platform, spec: SpawnSpec, more: seq<string>): Launch {
    Spawned(spec.args + more, AgentCliExecutionSpec(p, spec.(args := spec.args + more)))
  }

  /** The files of the prompt directory; `name -> content`. */
  class PromptFiles {
    var files: map<string, string>

    constructor ()
      ensures files == map[]
    {
      files := map[];
    }

    /** `writable` is whether directory and file can be written, `partial` what a failed write leaves. */
    method WritePromptSpilloverFile(p: Platform, spec: SpawnSpec, prompt: string, filePath: string,
                                    writable: bool, partial: Option<string>)
      returns (r: Spillover)
      modifies this
      ensures r.NotNeeded? <==> SpillReason(p, spec, prompt).None?
      ensures r.NotNeeded? ==> files == old(files)
      ensures r.Spilled? <==> SpillReason(p, spec, prompt).Some? && writable
      ensures r.Spilled? ==> r == Spilled(filePath, p.pointer(filePath), SpillReason(p, spec, prompt).value)
                             && files == old(files)[filePath := prompt]
      ensures r.WriteFailed? ==> files == old(files) - {filePath}
    {
      if !spec.promptIsArgument {
        return NotNeeded;
      }
      var limit := EffectiveCommandLineLimit(p, spec) - PROMPT_ARG_SAFETY_MARGIN;
      var estimated := EstimatedCommandLineChars(p, spec, prompt);
      var unsafeMultiline := IsWindowsCmdShim(p, spec.command) && HasLineBreak(prompt);
      if !unsafeMultiline && estimated <= limit {
        return NotNeeded;
      }
      if !writable {
        if partial.Some? {
          files := files[filePath := partial.value];
        }
        files := files - {filePath};
        return WriteFailed;
      }
      files := files[filePath := prompt];
      return Spilled(filePath, p.pointer(filePath), if unsafeMultiline then CmdMultiline else CommandLineLimit);
    }

    /** The part of an attempt that decides what is started. */
    method PrepareAttempt(p: Platform, spec: SpawnSpec, prompt: string, filePath: string,
                          writable: bool, partial: Option<string>)
      returns (launch: Launch)
      modifies this
      ensures launch == Deliver(p, spec, prompt, filePath, writable)
      ensures SpillReason(p, spec, prompt).Some? && writable ==> files == old(files)[filePath := prompt]
      ensures SpillReason(p, spec, prompt).Some? && !writable ==> files == old(files) - {filePath}
      ensures SpillReason(p, spec, prompt).None? ==> files == old(files)
    {
      var args := spec.args;
      if spec.promptIsArgument {
        var spill := WritePromptSpilloverFile(p, spec, prompt, filePath, writable, partial);
        match spill {
          case WriteFailed => return NotSpawned;
          case Spilled(path, pointer, _) => args := args + [pointer, "-f", path];
          case NotNeeded => args := args + [prompt];
        }
      }
      launch := Spawned(args, AgentCliExecutionSpec(p, spec.(args := args)));
    }
  }

  /**
   * On a batch shim every prompt is delivered whole or not at all. As an argument it is the last one,
   * has no line break, decodes back from the line that is run, and that line keeps to the limit of
   * cmd.exe, the estimate being exact for all prompts but the empty one. Otherwise the arguments end in
   * the pointer and the file, or nothing is started.
   */
  lemma ShimDelivery(p: Platform, spec: SpawnSpec, prompt: string, filePath: string, writable: bool)
    requires spec.promptIsArgument && !spec.useShell && IsWindowsCmdShim(p, spec.command)
    ensures match Deliver(p, spec, prompt, filePath, writable)
            case NotSpawned => !writable && SpillReason(p, spec, prompt).Some?
            case Spawned(args, exec) =>
              && |exec.args| == 4 && exec.args[..3] == ["/d", "/s", "/c"]
              && Decode(exec.args[3]) == Some((p.resolve(spec.command), args))
              && (SpillReason(p, spec, prompt).None? ==>
                    && args == spec.args + [prompt]
                    && !HasLineBreak(prompt)
                    && |exec.args[3]| == EstimatedCommandLineChars(p, spec, prompt) + (if prompt == "" then 3 else 0)
                    && |exec.args[3]| <= WIN_CMD_LIMIT)
              && (SpillReason(p, spec, prompt).Some? ==>
                    writable && args == spec.args + [p.pointer(filePath), "-f", filePath])
  {
    var resolved := p.resolve(spec.command);
    DecodeInverts(resolved, spec.args + [prompt]);
    DecodeInverts(resolved, spec.args + [p.pointer(filePath), "-f", filePath]);
    if prompt == "" {
      CmdLineGrowth(resolved, spec.args, [""]);
      assert Spaced([""]) == " \"\"";
      assert spec.args + [] == spec.args;
    }
  }

  /** A shim's prompt goes to a file exactly when it has a line break or would make the line too long. */
  lemma ShimSpillsExactly(p: Platform, spec: SpawnSpec, prompt: string)
    requires spec.promptIsArgument && !spec.useShell && IsWindowsCmdShim(p, spec.command) && prompt != ""
    ensures SpillReason(p, spec, prompt).Some?
            <==> HasLineBreak(prompt) || |WindowsCmdLine(p.resolve(spec.command), spec.args + [prompt])| > 7167
  {
  }

  /** The file does not help when the arguments before the prompt already overrun the limit. */
  lemma SpillCannotShorten(p: Platform, spec: SpawnSpec, prompt: string, filePath: string)
    requires spec.promptIsArgument && !spec.useShell && IsWindowsCmdShim(p, spec.command)
    requires |WindowsCmdLine(p.resolve(spec.command), spec.args)| > WIN_CMD_LIMIT
    ensures var launch := Deliver(p, spec, prompt, filePath, true);
            launch.Spawned? && |launch.exec.args| == 4 && |launch.exec.args[3]| > WIN_CMD_LIMIT
  {
    var resolved := p.resolve(spec.command);
    CmdLineGrowth(resolved, spec.args, [prompt]);
    CmdLineGrowth(resolved, spec.args, [p.pointer(filePath), "-f", filePath]);
    assert spec.args + [] == spec.args;
  }

  // Every other way of starting a program.

  /** The name ends in `.bat` or `.cmd`, in any letter case. */
  predicate NamesBatch(path: string) {
    var n := |path|;
    n >= 4 && path[n - 4] == '.'
    && ((SameLetter(path[n - 3], 'b') && SameLetter(path[n - 2], 'a') && SameLetter(path[n - 1], 't'))
        || (SameLetter(path[n - 3], 'c') && SameLetter(path[n - 2], 'm') && SameLetter(path[n - 1], 'd')))
  }

  lemma BatchExactly(path: string)
    ensures IsBatch(path) <==> NamesBatch(path)
  {
  }

  predicate BreaksLine(text: string) {
    exists k | 0 <= k < |text| :: text[k] == '\n' || text[k] == '\r'
  }

  lemma LineBreakExactly(text: string)
    ensures HasLineBreak(text) <==> BreaksLine(text)
  {
  }

  /** The characters of a command line: its words and a blank between any two. */
  function Characters(words: seq<string>): int {
    Lengths(words) + |words| - 1
  }

  /**
   * A prompt goes to a file exactly if it makes the line longer than the limit less 1024: 8191 characters in a
   * shell, 32767 for a program on Windows, and next to none elsewhere; on a batch shim, for a line break too.
   */
  lemma SpillsExactly(p: Platform, spec: SpawnSpec, prompt: string)
    requires prompt != ""
    ensures var resolved, words := p.resolve(spec.command), spec.args + [prompt];
            SpillReason(p, spec, prompt)
            == if !spec.promptIsArgument then None
               else if !p.windows then
                 if Characters([spec.command] + words) > 9007199254739967 then Some(CommandLineLimit) else None
               else if NamesBatch(resolved) && BreaksLine(prompt) then Some(CmdMultiline)
               else if spec.useShell then if Characters([spec.command] + words) > 7167 then Some(CommandLineLimit) else None
               else if NamesBatch(resolved) then if |WindowsCmdLine(resolved, words)| > 7167 then Some(CommandLineLimit) else None
               else if Characters([resolved] + words) > 31743 then Some(CommandLineLimit) else None
  {
    BatchExactly(p.resolve(spec.command));
    LineBreakExactly(prompt);
    JoinLength([spec.command] + (spec.args + [prompt]));
    JoinLength([p.resolve(spec.command)] + (spec.args + [prompt]));
  }

  /** A command that is started as it is, with these arguments, in a shell or without one. */
  ghost predicate StartedPlain(e: ExecutionSpec, command: string, args: seq<string>, shell: bool) {
    e.command == command && e.args == args && e.shell == shell && !e.verbatim
  }

  /** A batch file that is started through the command processor, on a line that decodes to it and these arguments. */
  ghost predicate StartedThroughCmd(e: ExecutionSpec, processor: string, resolved: string, args: seq<string>) {
    && e.command == processor && !e.shell && e.verbatim && |e.args| == 4 && e.args[..3] == ["/d", "/s", "/c"]
    && Decode(e.args[3]) == Some((resolved, args))
  }

  lemma ExecutedExactly(p: Platform, spec: SpawnSpec)
    ensures var e, resolved := AgentCliExecutionSpec(p, spec), p.resolve(spec.command);
            if !p.windows then StartedPlain(e, spec.command, spec.args, false)
            else if spec.useShell then StartedPlain(e, spec.command, spec.args, true)
            else if !NamesBatch(resolved) then StartedPlain(e, resolved, spec.args, false)
            else StartedThroughCmd(e, if p.comSpec == "" then "cmd.exe" else p.comSpec, resolved, spec.args)
  {
    BatchExactly(p.resolve(spec.command));
    DecodeInverts(p.resolve(spec.command), spec.args);
  }

  /**
   * Every prompt is delivered whole or not at all, whatever the platform: as the last argument, in the file that
   * the last three arguments name, or by other means where it is no argument; nothing is started exactly if the
   * file is needed and cannot be written. On Windows a program is started in a shell if it asks for one, or as what
   * its name resolves to, a batch file on a line from which command and arguments can be read back.
   */
  lemma DeliveredExactly(p: Platform, spec: SpawnSpec, prompt: string, filePath: string, writable: bool)
    ensures var launch := Deliver(p, spec, prompt, filePath, writable);
            && (launch.NotSpawned? <==> SpillReason(p, spec, prompt).Some? && !writable)
            && (launch.Spawned? ==>
                  && launch.args == spec.args + (if !spec.promptIsArgument then []
                                                 else if SpillReason(p, spec, prompt).None? then [prompt]
                                                 else [p.pointer(filePath), "-f", filePath])
                  && var e, resolved := launch.exec, p.resolve(spec.command);
                     if !p.windows then StartedPlain(e, spec.command, launch.args, false)
                     else if spec.useShell then StartedPlain(e, spec.command, launch.args, true)
                     else if !NamesBatch(resolved) then StartedPlain(e, resolved, launch.args, false)
                     else StartedThroughCmd(e, if p.comSpec == "" then "cmd.exe" else p.comSpec, resolved, launch.args))
  {
    assert spec.args + [] == spec.args;
    var launch := Deliver(p, spec, prompt, filePath, writable);
    if launch.Spawned? {
      ExecutedExactly(p, spec.(args := launch.args));
    }
  }
}
