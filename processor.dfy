/** `CommandProcessor`: dispatches each incoming request to its
    `on_<command>_request` handler, which answers through the write queue.
    Every handler builds its response with `build_response` first (the
    evaluate handler forwards the expression before), so a failing lookup
    leaves the queue as it was. An exception a handler raises is swallowed
    by the dispatcher; here each handler reports it as `raised`. */
module Processor {
  import opened Common
  import opened Schema
  import opened Transport
  import opened Launch

  datatype Handler =
    | OnInitialize | OnLaunch | OnConfigurationDone | OnThreads | OnDisconnect | OnPause | OnEvaluate

  /** The command a handler answers. */
  function CommandOf(h: Handler): string {
    match h
    case OnInitialize => "initialize"
    case OnLaunch => "launch"
    case OnConfigurationDone => "configurationDone"
    case OnThreads => "threads"
    case OnDisconnect => "disconnect"
    case OnPause => "pause"
    case OnEvaluate => "evaluate"
  }

  /** `'on_%s_request' % (command,)` */
  function MethodName(command: string): string {
    "on_" + command + "_request"
  }

  /** `getattr(self, method_name, None)`: the handler whose method is
      named after the command. Method names are compared through their
      commands, which `MethodNameInjective` justifies. */
  function HandlerFor(command: string): Option<Handler> {
    if command == "initialize" then Some(OnInitialize)
    else if command == "launch" then Some(OnLaunch)
    else if command == "configurationDone" then Some(OnConfigurationDone)
    else if command == "threads" then Some(OnThreads)
    else if command == "disconnect" then Some(OnDisconnect)
    else if command == "pause" then Some(OnPause)
    else if command == "evaluate" then Some(OnEvaluate)
    else None
  }

  /** Different commands name different methods. */
  lemma MethodNameInjective(a: string, b: string)
    ensures MethodName(a) == MethodName(b) <==> a == b
  {
    if MethodName(a) == MethodName(b) {
      var na := MethodName(a);
      assert |a| == |b|;
      assert a == na[3..3 + |a|];
      assert b == MethodName(b)[3..3 + |b|];
    }
  }

  /** Dispatch finds, for a command, exactly the handler whose method is
      named after it. */
  lemma DispatchRoundTrip(command: string, h: Handler)
    ensures HandlerFor(command) == Some(h) <==> MethodName(command) == MethodName(CommandOf(h))
  {
    MethodNameInjective(command, CommandOf(h));
  }

  /** The two threads the threads handler always reports. */
  const ReportedThreads: seq<Thread> := [Thread(0, "Main Thread"), Thread(1, "Thread 1")]

  /** The body of every evaluate response. */
  const EvaluateReply: Body := EvaluateBody("", 0)

  /** What answering a launch request puts on the queue, and what becomes
      of the new process, once its checks did not raise. */
  datatype LaunchOutcome = LaunchOutcome(items: seq<Item>, raised: bool, tasks: seq<Task>, popen: Option<nat>)

  /** `on_launch_request` after `build_response` and `__init__` succeeded:
      `launch()` only for a valid request, then the response, unless
      `launch()` raised. */
  function LaunchEffect(response: Response, kwargs: map<string, string>, host: Host,
                        supportsRunInTerminal: bool, spawn: Option<nat>): (o: LaunchOutcome)
    requires Validate(kwargs, host).Validation?
    ensures o.raised <==> o.items == []
    ensures !o.raised ==>
              o.items[|o.items| - 1] == Protocol(ResponseMessage(Answered(response, Validate(kwargs, host).failure)))
  {
    var v := Validate(kwargs, host);
    var answer := Protocol(ResponseMessage(Answered(response, v.failure)));
    if !v.valid then LaunchOutcome([answer], false, [], None)
    else
      var p := LaunchPolicy(Lookup(kwargs, "console"), supportsRunInTerminal, v.cmdline, spawn);
      if p.SpawnFails? then LaunchOutcome([], true, [], None)
      else
        LaunchOutcome(PolicyItems(p, Lookup(kwargs, "cwd"), v.cmdline) + [answer], false,
                      if p.Spawned? then ProcessTasks else [], if p.Spawned? then Some(p.pid) else None)
  }

  /** How many responses the items hold. */
  function ResponseCount(items: seq<Item>): nat {
    if items == [] then 0
    else ResponseCount(items[..|items| - 1]) +
         (if items[|items| - 1].Protocol? && items[|items| - 1].message.ResponseMessage? then 1 else 0)
  }

  /** A launch request is answered exactly once unless `launch()` raised,
      and the answer comes after whatever `launch()` posted. For a terminal,
      the run-in-terminal request comes first and the terminated event with
      `restart` false second. */
  lemma {:induction false} LaunchAnsweredOnce(response: Response, kwargs: map<string, string>, host: Host,
                                              supportsRunInTerminal: bool, spawn: Option<nat>)
    requires Validate(kwargs, host).Validation?
    ensures var o := LaunchEffect(response, kwargs, host, supportsRunInTerminal, spawn);
            ResponseCount(o.items) == if o.raised then 0 else 1
    ensures var o := LaunchEffect(response, kwargs, host, supportsRunInTerminal, spawn);
            |o.items| == 3 ==>
              o.items[0].message.RequestMessage? && o.items[0].message.request.command == "runInTerminal" &&
              o.items[1] == Protocol(TerminatedEvent(false))
  {
    var o := LaunchEffect(response, kwargs, host, supportsRunInTerminal, spawn);
    var xs := o.items;
    if |xs| == 1 {
      assert xs[..0] == [];
    } else if |xs| == 3 {
      assert ResponseCount(xs[..1]) == 0 by { assert xs[..1][..0] == []; }
      assert xs[..2][..1] == xs[..1];
      assert ResponseCount(xs[..2]) == 0;
    }
  }

  /** A launch that fails a check is still answered: valid or not, the
      response carries `success` false and the failure's message, unless
      `launch()` raised. */
  lemma FailedLaunchAnswered(response: Response, kwargs: map<string, string>, host: Host,
                             supportsRunInTerminal: bool, spawn: Option<nat>)
    requires Validate(kwargs, host).Validation? && Validate(kwargs, host).failure.Some?
    ensures var o := LaunchEffect(response, kwargs, host, supportsRunInTerminal, spawn);
            !o.raised ==> o.items[|o.items| - 1].message.response.success == false
    ensures var o := LaunchEffect(response, kwargs, host, supportsRunInTerminal, spawn);
            o.popen == None && o.tasks == []
  {
  }

  class CommandProcessor {
    const writeQueue: WriteQueue
    /** The `base_schema` dictionaries `build_response` consults. */
    const registry: Registry
    var supportsRunInTerminal: bool
    var launchProcess: LaunchProcess?

    /** The launch process posts to this processor's queue. */
    ghost predicate Valid()
      reads this, launchProcess
    {
      launchProcess != null ==> launchProcess.queue == writeQueue
    }

    constructor (writeQueue: WriteQueue, registry: Registry)
      ensures Valid()
      ensures this.writeQueue == writeQueue && this.registry == registry
      ensures launchProcess == null && !supportsRunInTerminal
    {
      this.writeQueue := writeQueue;
      this.registry := registry;
      launchProcess := null;
      supportsRunInTerminal := false;
    }

    /** `build_response(request, kwargs)` */
    function Reply(request: Request, kwargs: Kwargs): Result<Response, SchemaError>
      reads registry
    {
      BuildResponse(registry.allMessages, request, kwargs)
    }

    // -------------------------------------------------------------------
    // What each handler does, as a relation between the state before and
    // the state after
    // -------------------------------------------------------------------

    /** The launch process, if any, is as it was. */
    twostate predicate SameProcess()
      reads this, launchProcess
    {
      launchProcess == old(launchProcess) &&
      (launchProcess != null ==> launchProcess.State() == old(launchProcess.State()))
    }

    /** Nothing changed. */
    twostate predicate Quiet()
      reads this, writeQueue, launchProcess
    {
      && SameProcess()
      && supportsRunInTerminal == old(supportsRunInTerminal)
      && writeQueue.items == old(writeQueue.items)
    }

    /** The response, or nothing when `build_response` raised, was posted;
        nothing else changed. */
    twostate predicate Acknowledged(request: Request, kwargs: Kwargs)
      reads this, writeQueue, launchProcess, registry
    {
      && SameProcess()
      && supportsRunInTerminal == old(supportsRunInTerminal)
      && writeQueue.items == old(writeQueue.items) +
           match Reply(request, kwargs)
           case Ok(r) => [Protocol(ResponseMessage(r))]
           case Err(_) => []
    }

    twostate predicate Initialized(request: Request)
      reads this, writeQueue, launchProcess, registry
    {
      && SameProcess()
      && match Reply(request, NoKwargs)
         case Err(_) => Quiet()
         case Ok(r) =>
           if !request.arguments.InitializeArguments? then Quiet()
           else
             && supportsRunInTerminal == request.arguments.supportsRunInTerminalRequest
             && writeQueue.items == old(writeQueue.items) +
                  [Protocol(ResponseMessage(r.(body := Capabilities(true, true)))), Protocol(InitializedEvent)]
    }

    twostate predicate Launched(request: Request, host: Host, spawn: Option<nat>, tasks: seq<Task>)
      reads this, writeQueue, launchProcess, registry
    {
      match Reply(request, NoKwargs)
      case Err(_) => Quiet() && tasks == []
      case Ok(r) =>
        if !request.arguments.LaunchArguments? then Quiet() && tasks == []
        else
          var kwargs := request.arguments.kwargs;
          if Validate(kwargs, host).ValidationRaised? then Quiet() && tasks == []
          else
            Started(r, kwargs, request.arguments.noDebug, host, spawn, tasks)
    }

    /** A new launch process built from `kwargs` took the old one's place and
        did what `LaunchEffect` says. */
    twostate predicate Started(r: Response, kwargs: map<string, string>, noDebug: bool, host: Host,
                               spawn: Option<nat>, tasks: seq<Task>)
      requires Validate(kwargs, host).Validation?
      reads this, writeQueue, launchProcess
    {
      var o := LaunchEffect(r, kwargs, host, old(supportsRunInTerminal), spawn);
      && supportsRunInTerminal == old(supportsRunInTerminal)
      && launchProcess != null && fresh(launchProcess) && launchProcess.queue == writeQueue
      && launchProcess.State() == Initial(kwargs, noDebug, r, host).(popen := o.popen)
      && writeQueue.items == old(writeQueue.items) + o.items
      && tasks == o.tasks
    }

    twostate predicate Disconnected(request: Request)
      reads this, writeQueue, launchProcess, registry
    {
      match Reply(request, NoKwargs)
      case Err(_) => Quiet()
      case Ok(r) =>
        && launchProcess == old(launchProcess)
        && (launchProcess != null ==>
              launchProcess.State() ==
                old(launchProcess.State()).(killed := old(launchProcess.killed) || launchProcess.popen.Some?))
        && supportsRunInTerminal == old(supportsRunInTerminal)
        && writeQueue.items == old(writeQueue.items) + [Protocol(ResponseMessage(r))]
    }

    twostate predicate Evaluated(request: Request)
      reads this, writeQueue, launchProcess, registry
    {
      if launchProcess != null && !request.arguments.EvaluateArguments? then Quiet()
      else
        && launchProcess == old(launchProcess)
        && (launchProcess != null ==>
              var sent := request.arguments.context == Some("repl") && launchProcess.popen.Some? &&
                          IsAsciiText(request.arguments.expression);
              launchProcess.State() == old(launchProcess.State()).(stdinText :=
                if sent then old(launchProcess.stdinText) + WithTerminator(request.arguments.expression)
                else old(launchProcess.stdinText)))
        && supportsRunInTerminal == old(supportsRunInTerminal)
        && writeQueue.items == old(writeQueue.items) +
             match Reply(request, Kwargs(None, Some(EvaluateReply)))
             case Ok(r) => [Protocol(ResponseMessage(r))]
             case Err(_) => []
    }

    // -------------------------------------------------------------------
    // The handlers
    // -------------------------------------------------------------------

    /** `write_message(protocol_message)` */
    method WriteMessage(message: Message)
      modifies writeQueue
      ensures writeQueue.items == old(writeQueue.items) + [Protocol(message)]
    {
      writeQueue.Put(Protocol(message));
    }

    /** `on_initialize_request`: records whether the client can run a
        terminal, answers with both capabilities set, then announces
        `initialized`. */
    method HandleInitialize(request: Request) returns (raised: bool)
      modifies this, writeQueue
      ensures Initialized(request)
      ensures raised <==> Reply(request, NoKwargs).Err? || !request.arguments.InitializeArguments?
    {
      var response := Reply(request, NoKwargs);
      if response.Err? || !request.arguments.InitializeArguments? {
        return true;
      }
      supportsRunInTerminal := request.arguments.supportsRunInTerminalRequest;
      WriteMessage(ResponseMessage(response.value.(body := Capabilities(true, true))));
      WriteMessage(InitializedEvent);
      raised := false;
    }

    /** `on_launch_request`: a new launch process replaces the old one,
        `launch()` runs only when it is valid, and the response follows. */
    method HandleLaunch(request: Request, host: Host, spawn: Option<nat>) returns (tasks: seq<Task>, raised: bool)
      requires Valid()
      modifies this, writeQueue
      ensures Valid()
      ensures Launched(request, host, spawn, tasks)
      ensures raised <==>
                (Reply(request, NoKwargs).Ok? && request.arguments.LaunchArguments? &&
                 Validate(request.arguments.kwargs, host).Validation? ==>
                   LaunchEffect(Reply(request, NoKwargs).value, request.arguments.kwargs, host,
                                supportsRunInTerminal, spawn).raised)
    {
      tasks := [];
      var response := Reply(request, NoKwargs);
      if response.Err? || !request.arguments.LaunchArguments? {
        return [], true;
      }
      var kwargs := request.arguments.kwargs;
      if Validate(kwargs, host).ValidationRaised? {
        // os.path.exists(None)
        return [], true;
      }
      tasks, raised := StartProcess(kwargs, request.arguments.noDebug, response.value, host, spawn);
    }

    /** The part of `on_launch_request` after its checks passed: the new
        launch process, `launch()` when it is valid, then the response. */
    method StartProcess(kwargs: map<string, string>, noDebug: bool, response: Response, host: Host,
                        spawn: Option<nat>) returns (tasks: seq<Task>, raised: bool)
      requires Validate(kwargs, host).Validation?
      modifies this, writeQueue
      ensures Valid()
      ensures Started(response, kwargs, noDebug, host, spawn, tasks)
      ensures raised == LaunchEffect(response, kwargs, host, old(supportsRunInTerminal), spawn).raised
    {
      var process := new LaunchProcess(kwargs, noDebug, response, writeQueue, host);
      launchProcess := process;
      tasks := [];
      raised := false;
      if process.valid {
        tasks, raised := process.Launch(supportsRunInTerminal, spawn);
        if raised {
          return;
        }
      }
      WriteMessage(ResponseMessage(process.response));
    }

    /** `on_configurationDone_request` */
    method HandleConfigurationDone(request: Request) returns (raised: bool)
      modifies writeQueue
      ensures Acknowledged(request, NoKwargs)
      ensures raised <==> Reply(request, NoKwargs).Err?
    {
      var response := Reply(request, NoKwargs);
      if response.Err? {
        return true;
      }
      WriteMessage(ResponseMessage(response.value));
      raised := false;
    }

    /** `on_threads_request`: always the same two threads. */
    method HandleThreads(request: Request) returns (raised: bool)
      modifies writeQueue
      ensures Acknowledged(request, Kwargs(None, Some(ThreadsBody(ReportedThreads))))
      ensures raised <==> Reply(request, NoKwargs).Err?
    {
      var threads := [Thread(0, "Main Thread"), Thread(1, "Thread 1")];
      var response := Reply(request, Kwargs(None, Some(ThreadsBody(threads))));
      if response.Err? {
        return true;
      }
      WriteMessage(ResponseMessage(response.value));
      raised := false;
    }

    /** `on_disconnect_request`: kills a spawned process; the launch process
        stays in place. */
    method HandleDisconnect(request: Request) returns (raised: bool)
      modifies writeQueue, launchProcess
      ensures Disconnected(request)
      ensures raised <==> Reply(request, NoKwargs).Err?
    {
      var response := Reply(request, NoKwargs);
      if response.Err? {
        return true;
      }
      if launchProcess != null {
        launchProcess.Disconnect();
      }
      WriteMessage(ResponseMessage(response.value));
      raised := false;
    }

    /** `on_pause_request` */
    method HandlePause(request: Request) returns (raised: bool)
      modifies writeQueue
      ensures Acknowledged(request, NoKwargs)
      ensures raised <==> Reply(request, NoKwargs).Err?
    {
      var response := Reply(request, NoKwargs);
      if response.Err? {
        return true;
      }
      WriteMessage(ResponseMessage(response.value));
      raised := false;
    }

    /** `on_evaluate_request`: a REPL expression goes to the process's
        stdin; the answer is always an empty result. */
    method HandleEvaluate(request: Request) returns (raised: bool)
      modifies writeQueue, launchProcess
      ensures Evaluated(request)
      ensures raised <==>
                (launchProcess != null && !request.arguments.EvaluateArguments?) ||
                Reply(request, Kwargs(None, Some(EvaluateReply))).Err?
    {
      if launchProcess != null {
        if !request.arguments.EvaluateArguments? {
          return true;
        }
        if request.arguments.context == Some("repl") {
          launchProcess.SendToStdin(request.arguments.expression);
        }
      }
      var response := Reply(request, Kwargs(None, Some(EvaluateBody("", 0))));
      if response.Err? {
        return true;
      }
      WriteMessage(ResponseMessage(response.value));
      raised := false;
    }

    /** `__call__(protocol_message)`: only requests are acted on, only by a
        handler named after the command, and whatever the handler raises is
        swallowed. Returns the tasks a launch started. */
    method Call(message: Message, host: Host, spawn: Option<nat>) returns (tasks: seq<Task>)
      requires Valid()
      modifies this, writeQueue, launchProcess
      ensures Valid()
      ensures !message.RequestMessage? ==> Quiet() && tasks == []
      ensures message.RequestMessage? ==>
                var request := message.request;
                match HandlerFor(request.command)
                case None => Quiet() && tasks == []
                case Some(OnInitialize) => Initialized(request) && tasks == []
                case Some(OnLaunch) => Launched(request, host, spawn, tasks)
                case Some(OnConfigurationDone) => Acknowledged(request, NoKwargs) && tasks == []
                case Some(OnThreads) =>
                  Acknowledged(request, Kwargs(None, Some(ThreadsBody(ReportedThreads)))) && tasks == []
                case Some(OnDisconnect) => Disconnected(request) && tasks == []
                case Some(OnPause) => Acknowledged(request, NoKwargs) && tasks == []
                case Some(OnEvaluate) => Evaluated(request) && tasks == []
    {
      tasks := [];
      if !message.RequestMessage? {
        return;
      }
      var request := message.request;
      var handler := HandlerFor(request.command);
      var raised: bool;
      match handler {
        case None =>
        case Some(OnInitialize) => raised := HandleInitialize(request);
        case Some(OnLaunch) => tasks, raised := HandleLaunch(request, host, spawn);
        case Some(OnConfigurationDone) => raised := HandleConfigurationDone(request);
        case Some(OnThreads) => raised := HandleThreads(request);
        case Some(OnDisconnect) => raised := HandleDisconnect(request);
        case Some(OnPause) => raised := HandlePause(request);
        case Some(OnEvaluate) => raised := HandleEvaluate(request);
      }
    }
  }
}
