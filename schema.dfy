/** The message registry of `base_schema` and the protocol messages the
    adapter exchanges. The schema classes themselves (one per request,
    response and event of the Debug Adapter Protocol) are represented by
    `MessageClass` values; their fields by the datatypes below. */
module Schema {
  import opened Common

  /** A schema class: its `__name__`, and which definition it is, so that two
      classes declared with the same name stay apart. */
  datatype MessageClass = MessageClass(name: string, definition: nat)

  /** A decoded JSON value, as `json.loads` hands it to `from_dict`. */
  datatype Json =
    | JNull
    | JBool(b: bool)
    | JNumber(n: int)
    | JString(s: string)
    | JArray(items: seq<Json>)
    | JObject(fields: map<string, Json>)

  type Dict = map<string, Json>

  /** The Python exceptions the registry functions raise. */
  datatype SchemaError = ValueError | KeyError | TypeError | AssertionError

  /** The `seq` a message carries until the writer stamps it. */
  const DefaultSeq: int := -1

  datatype Thread = Thread(id: int, name: string)

  /** The `body` of a message. */
  datatype Body =
    | DefaultBody
    | Capabilities(supportsConfigurationDoneRequest: bool, supportsConditionalBreakpoints: bool)
    | ThreadsBody(threads: seq<Thread>)
    | EvaluateBody(result: string, variablesReference: int)
    | OutputBody(output: seq<byte>, category: string)
    | TerminatedBody(restart: bool)

  /** The `arguments` of a request. */
  datatype Arguments =
    | NoArguments
    | InitializeArguments(supportsRunInTerminalRequest: bool)
    | LaunchArguments(kwargs: map<string, string>, noDebug: bool)
    | EvaluateArguments(expression: string, context: Option<string>)
    | RunInTerminalArguments(cwd: Option<string>, args: seq<string>, kind: string)

  datatype Request = Request(seqNum: int, cls: MessageClass, command: string, arguments: Arguments)

  datatype Response = Response(
    seqNum: int, cls: MessageClass, requestSeq: int, success: bool,
    command: string, message: Option<string>, body: Body)

  /** A protocol message: what `to_json` can serialize. */
  datatype Message =
    | RequestMessage(request: Request)
    | ResponseMessage(response: Response)
    | EventMessage(seqNum: int, event: string, body: Body)
  {
    /** The message with its `seq` field set, as the writer does. */
    function WithSeq(n: int): (m: Message)
      ensures m.SeqOf() == n
      ensures RequestMessage? ==> m == RequestMessage(request.(seqNum := n))
      ensures ResponseMessage? ==> m == ResponseMessage(response.(seqNum := n))
      ensures EventMessage? ==> m == EventMessage(n, event, body)
    {
      match this
      case RequestMessage(r) => RequestMessage(r.(seqNum := n))
      case ResponseMessage(r) => ResponseMessage(r.(seqNum := n))
      case EventMessage(_, e, b) => EventMessage(n, e, b)
    }

    function SeqOf(): int {
      match this
      case RequestMessage(r) => r.seqNum
      case ResponseMessage(r) => r.seqNum
      case EventMessage(s, _, _) => s
    }

    /** Stamping only replaces the sequence number: stamping a message with
        its own number gives it back, and a later stamp overrides an earlier one. */
    lemma WithSeqOnlySeq(n: int, k: int)
      ensures WithSeq(SeqOf()) == this
      ensures WithSeq(n).WithSeq(k) == WithSeq(k)
      ensures WithSeq(n) == WithSeq(k) <==> n == k
    {
    }
  }

  /** `schema.InitializedEvent()` */
  const InitializedEvent: Message := EventMessage(DefaultSeq, "initialized", DefaultBody)

  /** `schema.TerminatedEvent(body=TerminatedEventBody(restart=restart))` */
  function TerminatedEvent(restart: bool): Message {
    EventMessage(DefaultSeq, "terminated", TerminatedBody(restart))
  }

  /** `schema.OutputEvent(OutputEventBody(output, category=category))` */
  function OutputEvent(output: seq<byte>, category: string): Message {
    EventMessage(DefaultSeq, "output", OutputBody(output, category))
  }

  const RunInTerminalRequestClass: MessageClass := MessageClass("RunInTerminalRequest", 0)

  /** `schema.RunInTerminalRequest(RunInTerminalRequestArguments(cwd=cwd, args=args, kind=kind))` */
  function RunInTerminalRequest(cwd: Option<string>, args: seq<string>, kind: string): Message {
    RequestMessage(Request(DefaultSeq, RunInTerminalRequestClass, "runInTerminal",
                           RunInTerminalArguments(cwd, args, kind)))
  }

  // ---------------------------------------------------------------------
  // register / register_request
  // ---------------------------------------------------------------------

  /** The two module-level dictionaries of `base_schema`. */
  class Registry {
    /** `all_messages`: class name to class. */
    var allMessages: map<string, MessageClass>
    /** `requests_to_types`: request command to class. */
    var requestsToTypes: map<string, MessageClass>

    constructor ()
      ensures allMessages == map[] && requestsToTypes == map[]
    {
      allMessages := map[];
      requestsToTypes := map[];
    }

    /** `@register`: files the class under its name, replacing any class
        filed under that name before, and hands the class back. */
    method Register(cls: MessageClass) returns (r: MessageClass)
      modifies this
      ensures allMessages == old(allMessages)[cls.name := cls]
      ensures requestsToTypes == old(requestsToTypes)
      ensures r == cls
    {
      allMessages := allMessages[cls.name := cls];
      r := cls;
    }

    /** `@register_request(command)`: files the class under the command. */
    method RegisterRequest(command: string, cls: MessageClass) returns (r: MessageClass)
      modifies this
      ensures requestsToTypes == old(requestsToTypes)[command := cls]
      ensures allMessages == old(allMessages)
      ensures r == cls
    {
      requestsToTypes := requestsToTypes[command := cls];
      r := cls;
    }
  }

  // ---------------------------------------------------------------------
  // from_dict
  // ---------------------------------------------------------------------

  /** `dct.get('type') is None`: the key is absent or holds JSON null. */
  predicate TypeMissing(dct: Dict) {
    "type" !in dct || dct["type"] == JNull
  }

  predicate IsRequestDict(dct: Dict) {
    "type" in dct && dct["type"] == JString("request")
  }

  /** What `from_dict` returns: an instance of a registered request class
      built from the dictionary's entries, or Python's None. */
  datatype Built = Instance(cls: MessageClass, fields: Dict) | NotBuilt

  /** `from_dict(dct)` against `requests_to_types`. */
  function FromDict(requestsToTypes: map<string, MessageClass>, dct: Dict): (r: Result<Built, SchemaError>)
    ensures r == Err(ValueError) <==> TypeMissing(dct)
    ensures r == Ok(NotBuilt) <==> !TypeMissing(dct) && !IsRequestDict(dct)
    ensures r.Ok? && r.value.Instance? <==>
              IsRequestDict(dct) && "command" in dct && dct["command"].JString? &&
              dct["command"].s in requestsToTypes
    ensures r.Ok? && r.value.Instance? ==>
              r.value == Instance(requestsToTypes[dct["command"].s], dct)
    ensures r == Err(TypeError) <==>
              IsRequestDict(dct) && "command" in dct && (dct["command"].JArray? || dct["command"].JObject?)
    ensures r == Err(KeyError) <==>
              IsRequestDict(dct) &&
              ("command" !in dct ||
               (!dct["command"].JArray? && !dct["command"].JObject? &&
                !(dct["command"].JString? && dct["command"].s in requestsToTypes)))
  {
    if TypeMissing(dct) then Err(ValueError)
    else if dct["type"] != JString("request") then Ok(NotBuilt)
    else if "command" !in dct then Err(KeyError)
    else match dct["command"]
      case JString(command) =>
        if command in requestsToTypes then Ok(Instance(requestsToTypes[command], dct))
        else Err(KeyError)
      // a list or an object cannot be a dictionary key
      case JArray(_) => Err(TypeError)
      case JObject(_) => Err(TypeError)
      case _ => Err(KeyError)
  }

  /** A request dictionary for `command`. */
  function RequestDict(command: string, rest: Dict): Dict {
    rest["type" := JString("request")]["command" := JString(command)]
  }

  /** Registering a class for a command makes `from_dict` build that class
      for requests with that command, whatever was registered before. */
  lemma RegisteredRequestBuilds(requestsToTypes: map<string, MessageClass>, command: string, cls: MessageClass, rest: Dict)
    ensures FromDict(requestsToTypes[command := cls], RequestDict(command, rest))
         == Ok(Instance(cls, RequestDict(command, rest)))
  {
    var dct := RequestDict(command, rest);
    assert dct["type"] == JString("request");
  }

  /** Registering a command leaves `from_dict` unchanged for every other
      command. */
  lemma RegisterOtherCommand(requestsToTypes: map<string, MessageClass>, command: string, cls: MessageClass, dct: Dict)
    requires !("command" in dct && dct["command"] == JString(command))
    ensures FromDict(requestsToTypes[command := cls], dct) == FromDict(requestsToTypes, dct)
  {
  }

  // ---------------------------------------------------------------------
  // build_response
  // ---------------------------------------------------------------------

  const RequestSuffix: string := "Request"
  const ResponseSuffix: string := "Response"

  predicate EndsWith(s: string, suffix: string) {
    |suffix| <= |s| && s[|s| - |suffix|..] == suffix
  }

  /** `name[:-7] + 'Response'` */
  function ResponseClassName(name: string): (r: string)
    requires EndsWith(name, RequestSuffix)
    ensures EndsWith(r, ResponseSuffix)
  {
    name[..|name| - |RequestSuffix|] + ResponseSuffix
  }

  /** The rewrite replaces exactly the suffix: `P + "Request"` becomes
      `P + "Response"`. */
  lemma ResponseNameOfRequestName(prefix: string)
    ensures EndsWith(prefix + RequestSuffix, RequestSuffix)
    ensures ResponseClassName(prefix + RequestSuffix) == prefix + ResponseSuffix
  {
    var name := prefix + RequestSuffix;
    assert name[|name| - |RequestSuffix|..] == RequestSuffix;
    assert name[..|name| - |RequestSuffix|] == prefix;
  }

  /** Distinct request classes find distinct response classes. */
  lemma ResponseNameInjective(a: string, b: string)
    requires EndsWith(a, RequestSuffix) && EndsWith(b, RequestSuffix)
    requires ResponseClassName(a) == ResponseClassName(b)
    ensures a == b
  {
    var pa := a[..|a| - |RequestSuffix|];
    var pb := b[..|b| - |RequestSuffix|];
    assert pa == ResponseClassName(a)[..|pa|];
    assert pb == ResponseClassName(b)[..|pb|];
    assert a == pa + RequestSuffix;
    assert b == pb + RequestSuffix;
  }

  /** The keyword arguments a handler passes to `build_response`; `None`
      is `Kwargs(None, None)`. */
  datatype Kwargs = Kwargs(seqNum: Option<int>, body: Option<Body>)

  const NoKwargs: Kwargs := Kwargs(None, None)

  /** `build_response(request, kwargs)` against `all_messages`: the class
      named after the request's class, built with the request's command and
      seq, `success` true and `seq` -1 unless the caller gives one. */
  function BuildResponse(allMessages: map<string, MessageClass>, request: Request, kwargs: Kwargs): (r: Result<Response, SchemaError>)
    ensures r == Err(AssertionError) <==> !EndsWith(request.cls.name, RequestSuffix)
    ensures r == Err(KeyError) <==>
              EndsWith(request.cls.name, RequestSuffix) && ResponseClassName(request.cls.name) !in allMessages
    ensures r.Ok? ==>
              && r.value.cls == allMessages[ResponseClassName(request.cls.name)]
              && r.value.requestSeq == request.seqNum
              && r.value.command == request.command
              && r.value.success
              && r.value.message == None
              && r.value.seqNum == (if kwargs.seqNum.Some? then kwargs.seqNum.value else DefaultSeq)
              && r.value.body == (if kwargs.body.Some? then kwargs.body.value else DefaultBody)
  {
    var name := request.cls.name;
    if !EndsWith(name, RequestSuffix) then Err(AssertionError)
    else
      var responseName := ResponseClassName(name);
      if responseName !in allMessages then Err(KeyError)
      else
        var seqNum := match kwargs.seqNum case Some(n) => n case None => DefaultSeq;
        var body := match kwargs.body case Some(b) => b case None => DefaultBody;
        Ok(Response(seqNum, allMessages[responseName], request.seqNum, true, request.command, None, body))
  }

  /** Registering `P + "Response"` makes `build_response` answer every
      `P + "Request"` with that class, acknowledging the request. */
  lemma RegisteredResponseAnswers(allMessages: map<string, MessageClass>, prefix: string, cls: MessageClass,
                                  seqNum: int, definition: nat, command: string, arguments: Arguments)
    requires cls.name == prefix + ResponseSuffix
    ensures BuildResponse(allMessages[cls.name := cls],
                          Request(seqNum, MessageClass(prefix + RequestSuffix, definition), command, arguments),
                          NoKwargs)
         == Ok(Response(DefaultSeq, cls, seqNum, true, command, None, DefaultBody))
  {
    ResponseNameOfRequestName(prefix);
  }
}
