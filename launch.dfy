/** `LaunchProcess`: checking a launch request, choosing how to start the
    debuggee (as a child process whose output is forwarded, or in a
    terminal the client opens), stopping it and feeding its stdin. The file
    system, `sys.executable` and the outcome of `Popen` are inputs; killing
    the process and writing to its stdin are recorded as ghost state. */
module Launch {
  import opened Common
  import opened Schema
  import opened Framing
  import opened Transport

  // The three console options. Only their being distinct matters below.
  const ConsoleNone: string := "internalConsole"
  const ConsoleIntegrated: string := "integratedTerminal"
  const ConsoleExternal: string := "externalTerminal"

  /** `console in VALID_CONSOLE_OPTIONS`; a missing console (None) is not. */
  predicate IsValidConsole(console: Option<string>) {
    console == Some(ConsoleNone) || console == Some(ConsoleIntegrated) || console == Some(ConsoleExternal)
  }

  /** `VALID_CONSOLE_OPTIONS` as `%s` renders it, taken to be a list. */
  const ConsoleOptionsText: string :=
    "['" + ConsoleNone + "', '" + ConsoleIntegrated + "', '" + ConsoleExternal + "']"

  /** What the adapter can observe of the machine: which paths exist
      (`os.path.exists`) and the running interpreter (`sys.executable`). */
  datatype Host = Host(existingPaths: set<string>, executable: string)

  /** `kwargs.get(key)` */
  function Lookup(kwargs: map<string, string>, key: string): (r: Option<string>)
    ensures r.Some? <==> key in kwargs
    ensures r.Some? ==> r.value == kwargs[key]
  {
    if key in kwargs then Some(kwargs[key]) else None
  }

  // ---------------------------------------------------------------------
  // __init__: the checks
  // ---------------------------------------------------------------------

  /** The check a launch request fails. */
  datatype LaunchFailure =
    | InvalidConsole(console: Option<string>)
    | CwdMissing(cwd: string)
    | ProgramMissing(program: string)

  /** The text put in the response's `message`. */
  function FailureMessage(f: LaunchFailure): string {
    match f
    case InvalidConsole(c) =>
      "Invalid console option: " + (if c.Some? then c.value else "None") +
      " (must be one of: " + ConsoleOptionsText + ")"
    case CwdMissing(cwd) => "cwd specified does not exist: " + cwd
    case ProgramMissing(program) => "File: " + program + " does not exist."
  }

  /** The outcome of `__init__`: the first failed check, `valid` and the
      command line; or the TypeError `os.path.exists(None)` raises when the
      cwd or the program is not given. */
  datatype Validation =
    | Validation(failure: Option<LaunchFailure>, valid: bool, cmdline: seq<string>)
    | ValidationRaised

  /** The checks of `__init__`, in their order: console, cwd, program. */
  function Validate(kwargs: map<string, string>, host: Host): (v: Validation)
    ensures v.Validation? ==> (!v.valid <==> v.failure.Some? && v.failure.value.ProgramMissing?)
    ensures v.Validation? ==> (v.cmdline != [] <==> v.failure.None?)
    ensures v.Validation? && v.failure.None? ==>
              "program" in kwargs && v.cmdline == [host.executable, "-u", kwargs["program"]]
  {
    var console := Lookup(kwargs, "console");
    var cwd := Lookup(kwargs, "cwd");
    var program := Lookup(kwargs, "program");
    if !IsValidConsole(console) then Validation(Some(InvalidConsole(console)), true, [])
    else if cwd.None? then ValidationRaised
    else if cwd.value !in host.existingPaths then Validation(Some(CwdMissing(cwd.value)), true, [])
    else if program.None? then ValidationRaised
    else if program.value !in host.existingPaths then Validation(Some(ProgramMissing(program.value)), false, [])
    else Validation(None, true, [host.executable, "-u", program.value])
  }

  /** The console is checked first: an invalid one is reported whatever
      the cwd and the program are. */
  lemma ConsoleCheckedFirst(kwargs: map<string, string>, host: Host)
    requires !IsValidConsole(Lookup(kwargs, "console"))
    ensures Validate(kwargs, host) == Validation(Some(InvalidConsole(Lookup(kwargs, "console"))), true, [])
  {
  }

  /** The cwd is checked before the program, and only a missing program
      makes the launch invalid. */
  lemma CwdCheckedBeforeProgram(kwargs: map<string, string>, host: Host)
    requires IsValidConsole(Lookup(kwargs, "console"))
    requires "cwd" in kwargs && kwargs["cwd"] !in host.existingPaths
    ensures Validate(kwargs, host) == Validation(Some(CwdMissing(kwargs["cwd"])), true, [])
  {
  }

  /** The program is checked last: with a valid console and an existing
      cwd, a missing program fails the launch and is named in the message. */
  lemma ProgramCheckedLast(kwargs: map<string, string>, host: Host)
    requires IsValidConsole(Lookup(kwargs, "console"))
    requires "cwd" in kwargs && kwargs["cwd"] in host.existingPaths
    requires "program" in kwargs && kwargs["program"] !in host.existingPaths
    ensures Validate(kwargs, host) == Validation(Some(ProgramMissing(kwargs["program"])), false, [])
    ensures FailureMessage(ProgramMissing(kwargs["program"])) == "File: " + kwargs["program"] + " does not exist."
  {
  }

  /** `os.path.exists(None)` raises exactly when a check reaches a value
      that was not given: the cwd after a valid console, or the program
      after an existing cwd. */
  lemma ValidationRaisesWhen(kwargs: map<string, string>, host: Host)
    ensures Validate(kwargs, host).ValidationRaised?
        <==> IsValidConsole(Lookup(kwargs, "console")) &&
             ("cwd" !in kwargs || (kwargs["cwd"] in host.existingPaths && "program" !in kwargs))
  {
  }

  /** A launch passes every check exactly when the console is valid and
      both the cwd and the program exist. */
  lemma ValidationSucceeds(kwargs: map<string, string>, host: Host)
    ensures Validate(kwargs, host).Validation? && Validate(kwargs, host).failure.None?
        <==> IsValidConsole(Lookup(kwargs, "console")) &&
             "cwd" in kwargs && kwargs["cwd"] in host.existingPaths &&
             "program" in kwargs && kwargs["program"] in host.existingPaths
  {
  }

  /** The response as `__init__` leaves it: unchanged, or failed with the
      message of the first failed check. */
  function Answered(response: Response, failure: Option<LaunchFailure>): (r: Response)
    ensures r.success == (response.success && failure.None?)
    ensures failure.None? ==> r == response
    ensures failure.Some? ==> r == response.(success := false, message := Some(FailureMessage(failure.value)))
  {
    match failure
    case None => response
    case Some(f) => response.(success := false, message := Some(FailureMessage(f)))
  }

  // ---------------------------------------------------------------------
  // launch(): the console policy
  // ---------------------------------------------------------------------

  /** What `launch` does. */
  datatype Policy =
    | Spawned(pid: nat)        // Popen in the "none" console
    | SpawnFails               // Popen raises
    | InTerminal(kind: string) // the client is asked to run it
    | NoLaunch                 // a console matching no branch

  /** Without terminal support in the client, the console falls back to
      the debug console. */
  function EffectiveConsole(console: Option<string>, supportsRunInTerminal: bool): (c: Option<string>)
    ensures !supportsRunInTerminal ==> c == Some(ConsoleNone)
    ensures supportsRunInTerminal ==> c == console
  {
    if supportsRunInTerminal then console else Some(ConsoleNone)
  }

  function TerminalKind(console: string): string {
    if console == ConsoleIntegrated then "internal" else "external"
  }

  /** The branch `launch` takes. `spawn` is what `Popen` yields for a
      non-empty command line: a process, or None when it raises. An empty
      command line always makes it raise. */
  function LaunchPolicy(console: Option<string>, supportsRunInTerminal: bool, cmdline: seq<string>,
                        spawn: Option<nat>): Policy
  {
    var c := EffectiveConsole(console, supportsRunInTerminal);
    if c == Some(ConsoleNone) then
      if cmdline == [] || spawn.None? then SpawnFails else Spawned(spawn.value)
    else if c == Some(ConsoleIntegrated) || c == Some(ConsoleExternal) then InTerminal(TerminalKind(c.value))
    else NoLaunch
  }

  /** A client without terminal support never gets a terminal request. */
  lemma NoTerminalWithoutSupport(console: Option<string>, cmdline: seq<string>, spawn: Option<nat>)
    ensures LaunchPolicy(console, false, cmdline, spawn).Spawned? ||
            LaunchPolicy(console, false, cmdline, spawn).SpawnFails?
  {
  }

  /** The terminal kind is 'internal' exactly for the integrated console,
      'external' for the external one. */
  lemma TerminalKindChoice(console: Option<string>, cmdline: seq<string>, spawn: Option<nat>)
    ensures LaunchPolicy(console, true, cmdline, spawn) == InTerminal("internal") <==> console == Some(ConsoleIntegrated)
    ensures LaunchPolicy(console, true, cmdline, spawn) == InTerminal("external") <==> console == Some(ConsoleExternal)
  {
    assert ConsoleIntegrated != ConsoleNone && ConsoleExternal != ConsoleNone;
    assert ConsoleIntegrated != ConsoleExternal;
  }

  /** A process is started only for a launch that passed every check. */
  lemma SpawnNeedsPassedChecks(kwargs: map<string, string>, host: Host, supportsRunInTerminal: bool, spawn: Option<nat>)
    requires Validate(kwargs, host).Validation?
    requires LaunchPolicy(Lookup(kwargs, "console"), supportsRunInTerminal, Validate(kwargs, host).cmdline, spawn).Spawned?
    ensures Validate(kwargs, host).failure.None?
  {
  }

  /** An invalid console or a missing cwd leaves the launch valid, so
      `launch` runs: with terminal support nothing is started, without it
      `Popen` is handed the empty command line and raises. */
  lemma FailedButValid(kwargs: map<string, string>, host: Host, spawn: Option<nat>)
    requires Validate(kwargs, host).Validation?
    requires Validate(kwargs, host).failure.Some? && !Validate(kwargs, host).failure.value.ProgramMissing?
    ensures Validate(kwargs, host).valid
    ensures LaunchPolicy(Lookup(kwargs, "console"), false, Validate(kwargs, host).cmdline, spawn) == SpawnFails
    ensures Validate(kwargs, host).failure.value.InvalidConsole? ==>
              LaunchPolicy(Lookup(kwargs, "console"), true, Validate(kwargs, host).cmdline, spawn) == NoLaunch
  {
  }

  /** The messages `launch` posts: for a terminal, the request to run the
      command line there, then the terminated event. */
  function PolicyItems(p: Policy, cwd: Option<string>, cmdline: seq<string>): seq<Item> {
    match p
    case InTerminal(kind) => [Protocol(RunInTerminalRequest(cwd, cmdline, kind)), Protocol(TerminatedEvent(false))]
    case _ => []
  }

  /** The background work `launch` starts for a spawned process. */
  datatype Task = ReadOutput(category: string) | WaitForExit

  const ProcessTasks: seq<Task> := [ReadOutput("stdout"), ReadOutput("stderr"), WaitForExit]

  // ---------------------------------------------------------------------
  // Stdin
  // ---------------------------------------------------------------------

  predicate EndsInTerminator(t: string) {
    t != [] && (t[|t| - 1] == '\r' || t[|t| - 1] == '\n')
  }

  /** What `write_to_stdin` writes for an expression: the expression, then
      '\n' unless it already ends in '\r' or '\n'. */
  function WithTerminator(e: string): (t: string)
    ensures EndsInTerminator(t)
    ensures |e| <= |t| <= |e| + 1 && t[..|e|] == e
    ensures |t| == |e| <==> EndsInTerminator(e)
  {
    if EndsInTerminator(e) then e else e + "\n"
  }

  /** Applying the rule twice adds nothing more. */
  lemma WithTerminatorIdempotent(e: string)
    ensures WithTerminator(WithTerminator(e)) == WithTerminator(e)
  {
  }

  // ---------------------------------------------------------------------
  // The LaunchProcess object
  // ---------------------------------------------------------------------

  /** A snapshot of a `LaunchProcess`'s fields. */
  datatype ProcessState = ProcessState(
    valid: bool, cmdline: seq<string>, console: Option<string>, cwd: Option<string>,
    runInDebugMode: bool, popen: Option<nat>, response: Response, killed: bool, stdinText: string)

  /** The state `__init__` leaves behind for a request whose checks do not
      raise. */
  function Initial(kwargs: map<string, string>, noDebug: bool, launchResponse: Response, host: Host): ProcessState
    requires Validate(kwargs, host).Validation?
  {
    var v := Validate(kwargs, host);
    ProcessState(v.valid, v.cmdline, Lookup(kwargs, "console"), Lookup(kwargs, "cwd"), !noDebug,
                 None, Answered(launchResponse, v.failure), false, [])
  }

  class LaunchProcess {
    /** The command processor's write queue, reached through the weak reference. */
    const queue: WriteQueue
    var valid: bool
    var cmdline: seq<string>
    var console: Option<string>
    var cwd: Option<string>
    var runInDebugMode: bool
    /** `_popen`: the spawned process, if any. */
    var popen: Option<nat>
    /** The launch response, as `__init__` updated it. */
    var response: Response
    /** Whether the process was killed. */
    ghost var killed: bool
    /** Everything written to the process's stdin. */
    ghost var stdinText: string

    ghost function State(): ProcessState
      reads this
    {
      ProcessState(valid, cmdline, console, cwd, runInDebugMode, popen, response, killed, stdinText)
    }

    /** `LaunchProcess(request, launch_response, command_processor)` for a
        request whose checks do not raise. */
    constructor (kwargs: map<string, string>, noDebug: bool, launchResponse: Response, queue: WriteQueue, host: Host)
      requires Validate(kwargs, host).Validation?
      ensures this.queue == queue
      ensures State() == Initial(kwargs, noDebug, launchResponse, host)
    {
      var fileToRun := Lookup(kwargs, "program");
      var isValid := true;
      var line: seq<string> := [];
      var answer := launchResponse;
      var givenCwd := Lookup(kwargs, "cwd");
      var givenConsole := Lookup(kwargs, "console");
      if !IsValidConsole(givenConsole) {
        answer := answer.(success := false, message := Some(FailureMessage(InvalidConsole(givenConsole))));
      } else if givenCwd.value !in host.existingPaths {
        answer := answer.(success := false, message := Some(FailureMessage(CwdMissing(givenCwd.value))));
      } else if fileToRun.value !in host.existingPaths {
        answer := answer.(success := false, message := Some(FailureMessage(ProgramMissing(fileToRun.value))));
        isValid := false;
      } else {
        line := [host.executable, "-u", fileToRun.value];
      }
      this.queue := queue;
      valid := isValid;
      cmdline := line;
      console := givenConsole;
      cwd := givenCwd;
      runInDebugMode := !noDebug;
      popen := None;
      response := answer;
      killed := false;
      stdinText := [];
    }

    /** `launch()`: the console policy. Returns the background tasks it
        starts, and whether it raised (Popen failing). */
    method Launch(supportsRunInTerminal: bool, spawn: Option<nat>) returns (tasks: seq<Task>, raised: bool)
      modifies this, queue
      ensures var p := LaunchPolicy(old(console), supportsRunInTerminal, old(cmdline), spawn);
              && raised == p.SpawnFails?
              && State() == old(State()).(popen := if p.Spawned? then Some(p.pid) else old(popen))
              && queue.items == old(queue.items) + PolicyItems(p, old(cwd), old(cmdline))
              && tasks == (if p.Spawned? then ProcessTasks else [])
    {
      var effective := console;
      if !supportsRunInTerminal {
        effective := Some(ConsoleNone);
      }
      tasks := [];
      raised := false;
      if effective == Some(ConsoleNone) {
        if cmdline == [] || spawn.None? {
          raised := true;
          return;
        }
        popen := spawn;
        tasks := [ReadOutput("stdout"), ReadOutput("stderr"), WaitForExit];
      } else if effective == Some(ConsoleIntegrated) || effective == Some(ConsoleExternal) {
        var kind := "external";
        if effective == Some(ConsoleIntegrated) {
          kind := "internal";
        }
        queue.Put(Protocol(RunInTerminalRequest(cwd, cmdline, kind)));
        NotifyExited(queue, true);
      }
    }

    /** `disconnect(request)`: kills the process if one was spawned. */
    method Disconnect()
      modifies this
      ensures State() == old(State()).(killed := old(killed) || popen.Some?)
    {
      if popen.Some? {
        killed := true;
      }
    }

    /** `send_to_stdin(expression)`: writes the expression, terminated, to
        the process's stdin if one was spawned. The expression is text
        decoded from JSON; writing it to the byte pipe encodes it as ASCII,
        so one with a non-ASCII character raises in the writing thread on
        the first write and nothing reaches the pipe. */
    method SendToStdin(expression: string)
      modifies this
      ensures State() == old(State()).(stdinText :=
                if popen.Some? && IsAsciiText(expression) then old(stdinText) + WithTerminator(expression)
                else old(stdinText))
    {
      if popen.Some? && IsAsciiText(expression) {
        stdinText := stdinText + expression;
        if !EndsInTerminator(expression) {
          stdinText := stdinText + "\n";
        }
      }
    }
  }

  // ---------------------------------------------------------------------
  // The background tasks
  // ---------------------------------------------------------------------

  /** `on_exited`: the terminated event, if the command processor is still
      alive. */
  method NotifyExited(queue: WriteQueue, alive: bool)
    modifies queue
    ensures queue.items == old(queue.items) + if alive then [Protocol(TerminatedEvent(false))] else []
  {
    if alive {
      queue.Put(Protocol(TerminatedEvent(false)));
    }
  }

  /** `on_output`: one output event per line, if the command processor is
      still alive. */
  method OnOutput(output: seq<byte>, category: string, queue: WriteQueue, alive: bool)
    modifies queue
    ensures queue.items == old(queue.items) + if alive then [Protocol(OutputEvent(output, category))] else []
  {
    if alive {
      queue.Put(Protocol(OutputEvent(output, category)));
    }
  }

  /** One output event per line, in order. */
  function OutputItems(lines: seq<seq<byte>>, category: string): (items: seq<Item>)
    ensures |items| == |lines|
    ensures forall k :: 0 <= k < |lines| ==> items[k] == Protocol(OutputEvent(lines[k], category))
  {
    if lines == [] then []
    else OutputItems(lines[..|lines| - 1], category) + [Protocol(OutputEvent(lines[|lines| - 1], category))]
  }

  /** The first line and the lines after it. */
  lemma LinesUnfold(s: seq<byte>)
    requires s != []
    ensures Lines(s) == [NextLine(s)] + Lines(s[LineLength(s)..])
  {
  }

  /** `_read_stream(stream, on_output, category)`: one `on_output` call
      per line until `readline` returns nothing. */
  method ReadStream(stream: ByteStream, category: string, queue: WriteQueue, alive: bool)
    requires stream.Valid()
    modifies stream, queue
    ensures stream.Valid() && stream.Remaining() == []
    ensures queue.items == old(queue.items) + if alive then OutputItems(Lines(old(stream.Remaining())), category) else []
  {
    ghost var start := stream.Remaining();
    ghost var q0 := queue.items;
    ghost var seen: seq<seq<byte>> := [];
    while true
      invariant stream.Valid()
      invariant Forwarded(start, seen, stream.Remaining(), category, q0, queue.items, alive)
      decreases |stream.data| - stream.pos
    {
      ghost var here := stream.Remaining();
      var output := stream.ReadLine();
      if |output| == 0 {
        assert here == [];
        assert seen + [] == seen;
        return;
      }
      ghost var q1 := queue.items;
      OnOutput(output, category, queue, alive);
      ghost var next := seen + [output];
      ReadStreamStep(start, seen, here, stream.Remaining(), next, category, q0, q1, queue.items, alive);
      seen := next;
    }
  }

  /** The invariant of `ReadStream`: the lines of the stream are the lines
      seen so far followed by those of what remains, and one output event
      was queued per line seen. */
  predicate Forwarded(start: seq<byte>, seen: seq<seq<byte>>, remaining: seq<byte>, category: string,
                      q0: seq<Item>, q: seq<Item>, alive: bool)
  {
    && Lines(start) == seen + Lines(remaining)
    && q == q0 + if alive then OutputItems(seen, category) else []
  }

  /** The invariant of `ReadStream` survives one more line. */
  lemma ReadStreamStep(start: seq<byte>, seen: seq<seq<byte>>, here: seq<byte>, rest: seq<byte>, next: seq<seq<byte>>,
                       category: string, q0: seq<Item>, q1: seq<Item>, q2: seq<Item>, alive: bool)
    requires Forwarded(start, seen, here, category, q0, q1, alive)
    requires here != [] && rest == here[LineLength(here)..] && next == seen + [NextLine(here)]
    requires q2 == q1 + if alive then [Protocol(OutputEvent(NextLine(here), category))] else []
    ensures Forwarded(start, next, rest, category, q0, q2, alive)
  {
    LinesUnfold(here);
    assert next[..|seen|] == seen;
  }

  /** The text an item carries to the client as debuggee output: that of
      an output event, none for anything else. */
  function EventOutput(item: Item): seq<byte> {
    if item.Protocol? && item.message.EventMessage? && item.message.event == "output" && item.message.body.OutputBody?
    then item.message.body.output
    else []
  }

  /** The debuggee output the items carry, in order. */
  function ForwardedText(items: seq<Item>): seq<byte> {
    if items == [] then [] else EventOutput(items[0]) + ForwardedText(items[1..])
  }

  /** The events for the lines after the first are those after the first
      event. */
  lemma OutputItemsTail(lines: seq<seq<byte>>, category: string)
    requires lines != []
    ensures OutputItems(lines, category)[1..] == OutputItems(lines[1..], category)
  {
    var items := OutputItems(lines, category);
    var tail := OutputItems(lines[1..], category);
    assert forall k :: 0 <= k < |tail| ==> items[1..][k] == tail[k];
  }

  /** The output events for some lines carry exactly those lines, put
      together. */
  lemma {:induction false} OutputItemsCarry(lines: seq<seq<byte>>, category: string)
    ensures ForwardedText(OutputItems(lines, category)) == Flatten(lines)
    decreases |lines|
  {
    if lines != [] {
      var items := OutputItems(lines, category);
      OutputItemsTail(lines, category);
      OutputItemsCarry(lines[1..], category);
      assert EventOutput(items[0]) == lines[0];
    }
  }

  /** `_read_stream` forwards the stream whole: the output events it queues
      carry, put together, exactly what the process wrote. */
  lemma ForwardedOutputIsStream(s: seq<byte>, category: string)
    ensures ForwardedText(OutputItems(Lines(s), category)) == s
  {
    OutputItemsCarry(Lines(s), category);
    LinesPartition(s);
  }
}
