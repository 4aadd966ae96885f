# A verified model of a tutorial Python debug adapter

This project models the core of a small debug adapter written in Python. It
speaks the Debug Adapter Protocol (DAP) to an editor over stdin/stdout and
starts the program being debugged. The model covers four parts:

- **Framing** (`framing.dfy`, module `Framing`). This is the Base Protocol of
  the Debug Adapter Protocol as `read` implements it:
  - header lines are read with `readline()`, stripped, decoded as ASCII and
    split on the first `": "`;
  - a blank line ends the headers;
  - exactly `Content-Length` bytes of body follow;
  - `Frame` is the byte image the writer produces for a body.

  `read` is a method over a `ByteStream` class and is proved equal to the
  function `Decode`. The properties proved about `Decode` are:
  - end of stream anywhere inside the header block means "no message";
  - a blank line before any header fails;
  - a missing Content-Length fails;
  - the last Content-Length wins;
  - reading back a frame gives exactly its body (`FrameRoundTrip`).
- **Transport** (`transport.dfy`, module `Transport`). The write queue and
  the body of `writer_thread`:
  - each protocol message is stamped with the next `seq` from a counter and
    serialized, and the result goes out framed;
  - raw byte strings go out unchanged, and text goes out UTF-8 encoded;
  - `Writer.Drain` is proved against the specification function `Output`.

  The properties proved about it are:
  - messages are numbered in dequeue order: the message at queue position
    `i` is stamped with `SeqAt(items, i, start)` before it is serialized,
    and what it contributes to the written bodies sits between the bodies
    of the items before it and those after it (`StampedAt`);
  - the written numbers are exactly the stamps of the messages that
    reached the output (`WrittenSeqsMembers`), and they strictly increase;
  - with no serialization failures the written numbers have no gaps;
  - a message that fails to serialize still uses up its number;
  - a peer reading the output receives exactly the written bodies, in order;
  - decoding the UTF-8 the writer produces for a text gives the text back.
- **Launch** (`launch.dfy`, module `Launch`). The `LaunchProcess` class:
  - its constructor runs the ordered checks (console option, then cwd, then
    program) and sets `success`/`message` on the launch response;
  - `Launch` applies the console policy: a fallback to the debug console
    without terminal support, a spawned child process, or a run-in-terminal
    request followed by a terminated event;
  - `Disconnect` kills a spawned process;
  - `SendToStdin` applies the line-terminator rule to an ASCII expression
    and writes nothing for any other;
  - `ReadStream` is the `_read_stream` loop, which forwards a child's output
    one line per output event.
- **Schema** (`schema.dfy`, module `Schema`). The `base_schema` registry:
  - `register` and `register_request` are methods of a `Registry` class
    holding the two dictionaries;
  - `from_dict` and `build_response` are functions. Their error cases are
    Python's ValueError, KeyError, TypeError and AssertionError, modelled as
    a `Result`.
- **Processor** (`processor.dfy`, module `Processor`). The `CommandProcessor`
  class:
  - dispatch by method name `on_<command>_request`;
  - one method per handler;
  - each handler's effect on the queue, on `supportsRunInTerminal` and on the
    launch process is stated as a two-state predicate.

  An exception a handler raises is swallowed by `__call__`. Each handler
  therefore reports it as a `raised` result. State changed before the raise
  stays changed.

The code is Python 2 in practice, and the model follows Python 2:
- header text is a byte string (`str`), decoded as ASCII after `strip()`;
- the REPL expression is text (`unicode`, as `json.loads` returns it). Writing
  it to the byte pipe of the child's stdin encodes it as ASCII, so an
  expression with a non-ASCII character raises in the writing thread and
  nothing is written;
- the writer hands a `str` header to the output stream;
- the `strip()` whitespace set is Python 2's;
- `int()` on the Content-Length text accepts what Python 2's `int()` accepts
  for a value that fits a machine integer: blanks, an optional sign, more
  blanks, decimal digits, then blanks.

The file system (`os.path.exists`), `sys.executable` and what `Popen` yields
are inputs: a `Host` value and a `spawn` parameter. Serialization (`to_json`)
is a function parameter that may fail. Whether the command processor is still
alive behind its weak reference is an `alive` flag.

Two behaviours of the code as written are worth knowing. Both are modelled as
they are (`FailedButValid`, `FailedLaunchAnswered`):
- An invalid console option or a missing cwd sets `success` to false but leaves
  the launch valid, with an empty command line. Without terminal support,
  `launch()` then hands `Popen` the empty command line, which raises, so the
  failed launch response is never posted.
- With terminal support and an invalid console, nothing is started and the
  failed response is posted.

Some functions are reference definitions: each gives the behaviour of a
piece of the source as an expression and carries no contract of its own.
The lemmas and methods named after each one state what it does:
- `Framing.ClassifyLine` (debug_adapter_main.py:29-35) is covered by
  `ClassifyHeaderLine`, `ClassifyNoSeparator` and `ScanBlankLine`;
- `Framing.AfterHeaders` (debug_adapter_main.py:38-44) by
  `AfterHeadersBounds`, `AfterHeadersWithLength`, `MissingLength` and
  `BlankLineFirst`;
- `Framing.Frame` (debug_adapter_main.py:84-91) by `FrameScan` and
  `FrameRoundTrip`;
- `Transport.Output` (debug_adapter_main.py:67-91) by `Writer.Drain`,
  `OutputFrames` and `WriterOutputReadsBack`;
- `Transport.ReadBodies` (debug_adapter_main.py:49-58) by `ReadFrames` and
  `WriterOutputReadsBack`;
- `Processor.HandlerFor` (debug_adapter_main.py:122-132) by
  `DispatchRoundTrip` and `CommandProcessor.Call`;
- `Launch.LaunchPolicy` and `Launch.TerminalKind` (launch_process.py:97-145)
  by `NoTerminalWithoutSupport`, `TerminalKindChoice`,
  `SpawnNeedsPassedChecks`, `FailedButValid` and `LaunchProcess.Launch`;
- `Launch.FailureMessage` and `Launch.Initial` (launch_process.py:38-81) by
  `Validate`, `ConsoleCheckedFirst`, `CwdCheckedBeforeProgram` and
  `LaunchProcess.constructor`.

## Model

| member | source | states |
|---|---|---|
| Common.AsciiRoundTrip | part2/debugger/debug_adapter_main.py:29 | decoding as ASCII the bytes of an ASCII text gives back that text |
| Framing.LineLength | part2/debugger/debug_adapter_main.py:22 | one `readline()` takes the bytes up to and including the first LF, or all that is left; it takes nothing only at end of stream |
| Framing.Lines | part2/debugger/debug_adapter/launch_process.py:6-10 | the successive `readline()` results are non-empty, and every one but the last ends in LF with no earlier LF |
| Framing.LinesPartition | part2/debugger/debug_adapter/launch_process.py:6-10 | the successive lines, concatenated, are exactly the stream |
| Framing.ByteStream.ReadLine | part2/debugger/debug_adapter_main.py:22 | returns the next line of the unread bytes and advances past it |
| Framing.ByteStream.Read | part2/debugger/debug_adapter_main.py:44 | returns the first `size` unread bytes (all of them when fewer remain or `size` is negative) and advances past them |
| Framing.Take | part2/debugger/debug_adapter_main.py:44 | a read of `n` bytes is a prefix of the stream of length `n`, or the whole stream when it is shorter |
| Framing.TrimStartRun | part2/debugger/debug_adapter_main.py:29 | `strip()` drops exactly the leading run of whitespace bytes: what is left is a suffix of the line that does not start with whitespace, and everything before it is whitespace |
| Framing.TrimEndRun | part2/debugger/debug_adapter_main.py:29 | `strip()` drops exactly the trailing run of whitespace bytes: what is left is a prefix of the line that does not end in whitespace, and everything after it is whitespace |
| Framing.StripKeepsCore | part2/debugger/debug_adapter_main.py:29 | stripping a header line and its CR LF leaves the header text unchanged |
| Framing.SeparatorFrom | part2/debugger/debug_adapter_main.py:33 | `split(': ', 1)` cuts at the first `": "` and only there, or finds none |
| Framing.ParseInt | part2/debugger/debug_adapter_main.py:41 | `int()` reads a string of decimal digits as their value |
| Framing.ParseDigits | part2/debugger/debug_adapter_main.py:41 | the digits after the sign are read exactly when they are a non-empty run of decimal digits |
| Framing.TrimTextStartSuffix | part2/debugger/debug_adapter_main.py:41 | the blanks `int()` skips at the front leave a suffix that does not start with a blank |
| Framing.TrimTextEndPrefix | part2/debugger/debug_adapter_main.py:41 | the blanks `int()` skips at the back leave a prefix that does not end in a blank |
| Framing.ParseIntSigned | part2/debugger/debug_adapter_main.py:41 | a sign, blanks and digits read as the signed value of the digits, so `int(u'- 5')` is -5 |
| Framing.ParseIntNeedsDigit | part2/debugger/debug_adapter_main.py:41 | a text without a decimal digit is a ValueError |
| Framing.Decimal | part2/debugger/debug_adapter_main.py:89 | the `%s` rendering of a length is a non-empty ASCII digit string whose value is the length |
| Framing.DecimalParses | part2/debugger/debug_adapter_main.py:41 | `int()` reads the rendered length back as the length |
| Framing.ContentLengthHeader | part2/debugger/debug_adapter_main.py:89 | the header the writer emits survives `strip()` and `split(': ', 1)` unchanged |
| Framing.ScanHeadersRest | part2/debugger/debug_adapter_main.py:20-36 | each header line the loop reads is consumed: unless the stream ends, the unread rest is a strictly shorter suffix of the input |
| Framing.Decode | part2/debugger/debug_adapter_main.py:19-46 | one `read` consumes a prefix of the stream; a message's body is the last bytes it consumed; at end of stream all is consumed |
| Framing.ReadHeaders | part2/debugger/debug_adapter_main.py:19-36 | the header loop method ends exactly as `ScanHeaders` on the unread bytes, leaving the stream after the lines it read |
| Framing.ReadMessage | part2/debugger/debug_adapter_main.py:9-46 | `read(stream)` returns `Decode` of the unread bytes and consumes exactly what `Decode` says |
| Framing.ScanHeaderLine | part2/debugger/debug_adapter_main.py:29-36 | a well-formed header line adds its name and value to the dictionary, replacing an earlier value for that name |
| Framing.HeaderLineLength | part2/debugger/debug_adapter_main.py:22 | `readline()` on a well-formed header line stops right after its CR LF |
| Framing.ClassifyHeaderLine | part2/debugger/debug_adapter_main.py:29-36 | stripping, decoding and splitting a well-formed header line gives back exactly its name and value |
| Framing.HeaderTextSplits | part2/debugger/debug_adapter_main.py:33-34 | `split(': ', 1)` cuts a header text at the end of its name, leaving the value whole even when it holds `": "` |
| Framing.NoSeparatorFails | part2/debugger/debug_adapter_main.py:29-35 | a non-blank ASCII header line without `": "` makes `read` fail with an invalid-header-line error naming the stripped text, after consuming that line |
| Framing.ScanNoSeparator | part2/debugger/debug_adapter_main.py:29-35 | the header loop stops at such a line with the invalid-header-line error, leaving the rest unread |
| Framing.ClassifyNoSeparator | part2/debugger/debug_adapter_main.py:29-35 | stripping, decoding and failing to split such a line gives the invalid-header-line error |
| Framing.ScanBlankLine | part2/debugger/debug_adapter_main.py:29-31 | a CR LF line ends the header block, leaving the rest unread |
| Framing.FrameScan | part2/debugger/debug_adapter_main.py:89 | the header block of a frame holds exactly its Content-Length and ends right before the body |
| Framing.FrameRoundTrip | part2/debugger/debug_adapter_main.py:84-91 | reading a frame the writer produced gives back exactly its body and consumes exactly the frame |
| Framing.EofInsideHeaders | part2/debugger/debug_adapter_main.py:20-28 | end of stream after any number of header lines ends the header loop with "no message" |
| Framing.EofInsideHeaderBlock | part2/debugger/debug_adapter_main.py:20-28 | `read` returns None when the stream ends inside the header block |
| Framing.BlankLineFirst | part2/debugger/debug_adapter_main.py:38-39 | a blank line before any header fails with "no headers" after consuming that line |
| Framing.MissingLength | part2/debugger/debug_adapter_main.py:38-41 | a header block without Content-Length fails |
| Framing.LastContentLengthWins | part2/debugger/debug_adapter_main.py:33-41 | with two Content-Length headers, the body length is the second one's |
| Framing.DecodeMessage | part2/debugger/debug_adapter_main.py:36-44 | once the header loop ends at the blank line with a Content-Length `int()` accepts, `read` returns the next that many bytes (or all that remain) and consumes through them |
| Framing.ScanRepeatedLength | part2/debugger/debug_adapter_main.py:36 | a second Content-Length line overwrites the first one's value in the dictionary |
| Schema.Message.WithSeq | part2/debugger/debug_adapter_main.py:74 | stamping a message sets its `seq` and leaves every other field of the request, response or event as it was |
| Schema.Message.WithSeqOnlySeq | part2/debugger/debug_adapter_main.py:74 | stamping a message with its own number gives it back, a later stamp overrides an earlier one, and two stamps agree exactly when their numbers do |
| Schema.Registry.constructor | part1/debugger/debug_adapter/base_schema.py:8-9 | both dictionaries start empty |
| Schema.Registry.Register | part1/debugger/debug_adapter/base_schema.py:12-14 | files the class under its name, overwriting, leaves the request table alone and returns the class |
| Schema.Registry.RegisterRequest | part1/debugger/debug_adapter/base_schema.py:17-23 | files the class under the command, overwriting, leaves the name table alone and returns the class |
| Schema.FromDict | part1/debugger/debug_adapter/base_schema.py:26-32 | ValueError exactly when `type` is absent or null; None exactly for a non-request type; an instance of the registered class exactly for a request whose command is registered; TypeError exactly for an unhashable command; KeyError exactly for a request whose command is absent or a hashable value that is not registered |
| Schema.RegisteredRequestBuilds | part1/debugger/debug_adapter/base_schema.py:19-32 | after registering a class for a command, requests with that command build that class |
| Schema.RegisterOtherCommand | part1/debugger/debug_adapter/base_schema.py:19-32 | registering a command does not change `from_dict` for any other command |
| Schema.ResponseClassName | part1/debugger/debug_adapter/base_schema.py:45 | the rewritten name ends in `Response` |
| Schema.ResponseNameOfRequestName | part1/debugger/debug_adapter/base_schema.py:43-45 | `P + "Request"` passes the assertion and maps to `P + "Response"` |
| Schema.ResponseNameInjective | part1/debugger/debug_adapter/base_schema.py:43-45 | different request class names give different response class names |
| Schema.BuildResponse | part1/debugger/debug_adapter/base_schema.py:40-48 | AssertionError exactly when the class name does not end in `Request`; KeyError exactly when the response class is unregistered; otherwise the registered response class with the request's seq and command, success true, seq -1 unless given and the given body |
| Schema.RegisteredResponseAnswers | part1/debugger/debug_adapter/base_schema.py:12-48 | once `P + "Response"` is registered, every `P + "Request"` is answered by that class |
| Transport.WriteQueue.Put | part2/debugger/debug_adapter_main.py:229 | the item is appended at the end of the queue |
| Transport.WriteQueue.Get | part2/debugger/debug_adapter_main.py:70 | the first item is taken from the front of the queue |
| Transport.Utf8Char | part2/debugger/debug_adapter_main.py:87 | one byte below U+0080, equal to the code; two below U+0800, three below U+10000, four above; continuation bytes lie in 0x80-0xBF |
| Transport.Utf8 | part2/debugger/debug_adapter_main.py:87 | the encoding takes between one and four bytes per character |
| Transport.Utf8OfAscii | part2/debugger/debug_adapter_main.py:87 | UTF-8 encodes ASCII text byte for byte |
| Transport.Utf8DecodeChar | part2/debugger/debug_adapter_main.py:46 | a decoded character has the length its lead byte announces and the code point its payload bits spell |
| Transport.Utf8Decode | part2/debugger/debug_adapter_main.py:46 | `body.decode('utf-8')` yields at most one character per byte |
| Transport.Utf8CharDecodes | part2/debugger/debug_adapter_main.py:87 | a character's encoding starts with a lead byte announcing its length and decodes back to the character |
| Transport.Utf8RoundTrip | part2/debugger/debug_adapter_main.py:46 | decoding the UTF-8 encoding of any text gives the text back |
| Transport.ProtocolCount | part2/debugger/debug_adapter_main.py:71-74 | at most one sequence number per item is used |
| Transport.Bodies | part2/debugger/debug_adapter_main.py:70-90 | at most one body is written per item |
| Transport.Writer.constructor | part2/debugger/debug_adapter_main.py:62 | the counter starts at 0 and nothing is written |
| Transport.Writer.Handle | part2/debugger/debug_adapter_main.py:70-91 | one item: a protocol message takes the next number; its serialization, the bytes or the encoded text go out framed; a failed serialization writes nothing |
| Transport.Writer.WriteFrame | part2/debugger/debug_adapter_main.py:89-91 | writes the Content-Length header, the blank line and the body |
| Transport.Writer.Drain | part2/debugger/debug_adapter_main.py:67-91 | the writer loop over the whole queue empties it, writes `Output` of the queued items and advances the counter once per protocol message |
| Transport.ProtocolCountFront | part2/debugger/debug_adapter_main.py:71-74 | the first item uses one number exactly when it is a protocol message, the rest use the others |
| Transport.OutputFrames | part2/debugger/debug_adapter_main.py:70-91 | the whole output is the frames of the written bodies, one after another, nothing between them |
| Transport.ProtocolCountAppend | part2/debugger/debug_adapter_main.py:74 | numbers used by two runs of items add up |
| Transport.Numbering | part2/debugger/debug_adapter_main.py:62-74 | messages are numbered in dequeue order; a later message's number exceeds an earlier one's by the number of messages taken in between |
| Transport.WrittenSeqsOrdered | part2/debugger/debug_adapter_main.py:72-90 | the numbers of written messages lie in the counter's range and strictly increase |
| Transport.NoGaps | part2/debugger/debug_adapter_main.py:62-90 | when every message serializes, the written numbers are start, start+1, ... with no gap |
| Transport.FailedLeavesGap | part2/debugger/debug_adapter_main.py:74-79 | a message whose serialization fails uses up its number, and no written message carries it |
| Transport.BodiesAppend | part2/debugger/debug_adapter_main.py:67-91 | handling two runs of items one after the other writes the bodies of the first run, then those of the second numbered from where the first left the counter |
| Transport.StampedAt | part2/debugger/debug_adapter_main.py:70-90 | the bodies written are those of the items before position `i`, then the body of item `i`, then those of the items after it; a message at `i` contributes exactly its serialization stamped with `SeqAt(items, i, start)` |
| Transport.WrittenSeqsLast | part2/debugger/debug_adapter_main.py:72-90 | the last item adds its stamp to the written numbers exactly when it is a message that serialized |
| Transport.WrittenSeqsMembers | part2/debugger/debug_adapter_main.py:72-90 | a number is among the written numbers exactly when some message at some position was stamped with it and serialized |
| Transport.FirstFrame | part2/debugger/debug_adapter_main.py:19-46 | `read` over consecutive frames returns the first body and consumes exactly the first frame, leaving the others |
| Transport.ReadFrames | part2/debugger/debug_adapter_main.py:49-56 | reading `read` after `read` over consecutive frames gives exactly their bodies, then end of stream |
| Transport.WriterOutputReadsBack | part2/debugger/debug_adapter_main.py:67-91 | a peer reading the writer's whole output receives exactly the bodies written, in queue order |
| Launch.Validate | part2/debugger/debug_adapter/launch_process.py:38-81 | the launch is invalid exactly when the program is missing; the command line is non-empty exactly when every check passed, and then it is `[executable, "-u", program]` |
| Launch.ConsoleCheckedFirst | part2/debugger/debug_adapter/launch_process.py:59-63 | an invalid console is reported whatever the cwd and program, leaving the launch valid with no command line |
| Launch.CwdCheckedBeforeProgram | part2/debugger/debug_adapter/launch_process.py:65-68 | with a valid console, a missing cwd is reported before the program is looked at, leaving the launch valid |
| Launch.ProgramCheckedLast | part2/debugger/debug_adapter/launch_process.py:70-74 | with a valid console and an existing cwd, a missing program fails the launch, makes it invalid and is reported as "File: <program> does not exist." |
| Launch.ValidationRaisesWhen | part2/debugger/debug_adapter/launch_process.py:65-70 | `os.path.exists(None)` raises exactly when the cwd is not given after a valid console, or the program is not given after an existing cwd |
| Launch.ValidationSucceeds | part2/debugger/debug_adapter/launch_process.py:59-81 | every check passes exactly when the console is valid and both the cwd and the program exist |
| Launch.NoTerminalWithoutSupport | part2/debugger/debug_adapter/launch_process.py:97-116 | without terminal support `launch` always takes the process branch |
| Launch.TerminalKindChoice | part2/debugger/debug_adapter/launch_process.py:128-131 | the terminal kind is 'internal' exactly for the integrated console and 'external' exactly for the external one |
| Launch.SpawnNeedsPassedChecks | part2/debugger/debug_adapter/launch_process.py:110-116 | a process is started only for a launch that passed every check |
| Launch.FailedButValid | part2/debugger/debug_adapter/launch_process.py:59-116 | an invalid console or missing cwd leaves the launch valid; without terminal support `Popen` then raises on the empty command line; with it an invalid console starts nothing |
| Launch.WithTerminator | part2/debugger/debug_adapter/launch_process.py:164-168 | the text sent always ends in CR or LF, starts with the expression, and is one byte longer exactly when the expression did not end in one |
| Launch.WithTerminatorIdempotent | part2/debugger/debug_adapter/launch_process.py:164-168 | applying the rule twice adds nothing more |
| Launch.LaunchProcess.constructor | part2/debugger/debug_adapter/launch_process.py:38-81 | the fields are those `Initial` gives: validity, command line, console, cwd, debug mode, no process, and the response as the checks left it |
| Launch.LaunchProcess.Launch | part2/debugger/debug_adapter/launch_process.py:87-151 | follows `LaunchPolicy`: raises exactly when `Popen` fails, records a spawned process, posts the run-in-terminal request and terminated event for a terminal, and starts the three reader/waiter tasks only for a process |
| Launch.LaunchProcess.Disconnect | part2/debugger/debug_adapter/launch_process.py:153-156 | the process is killed if one was spawned; nothing else changes |
| Launch.LaunchProcess.SendToStdin | part2/debugger/debug_adapter/launch_process.py:158-176 | the terminated expression is written to stdin when a process was spawned and the expression is ASCII; otherwise nothing is written; nothing else changes |
| Launch.NotifyExited | part2/debugger/debug_adapter/launch_process.py:102-107 | posts one terminated event with restart false, if the processor is alive |
| Launch.OnOutput | part2/debugger/debug_adapter/launch_process.py:118-122 | posts one output event with the line and its category, if the processor is alive |
| Launch.OutputItems | part2/debugger/debug_adapter/launch_process.py:118-122 | one output event per line, in order, each with the given category |
| Launch.ReadStream | part2/debugger/debug_adapter/launch_process.py:4-12 | reads the stream to its end and posts one output event per line, in order |
| Launch.OutputItemsCarry | part2/debugger/debug_adapter/launch_process.py:118-122 | the output events for some lines carry those lines, in order and put together |
| Launch.ForwardedOutputIsStream | part2/debugger/debug_adapter/launch_process.py:4-12 | the output events `_read_stream` queues carry, put together, exactly the bytes the process wrote: nothing lost, nothing added, nothing reordered |
| Processor.MethodNameInjective | part2/debugger/debug_adapter_main.py:124 | two commands name the same handler method exactly when they are equal |
| Processor.DispatchRoundTrip | part2/debugger/debug_adapter_main.py:123-127 | a command finds a handler exactly when that handler's method is named `on_<command>_request` |
| Processor.LaunchEffect | part2/debugger/debug_adapter_main.py:154-160 | the launch handler posts nothing exactly when `launch()` raised, and otherwise posts the response last |
| Processor.LaunchAnsweredOnce | part2/debugger/debug_adapter_main.py:154-160 | a launch request is answered exactly once unless `launch()` raised; for a terminal, the run-in-terminal request and the terminated event come before the answer |
| Processor.FailedLaunchAnswered | part2/debugger/debug_adapter_main.py:154-160 | a launch that failed a check is answered with success false unless `launch()` raised (an invalid console or a missing cwd without terminal support, where `Popen` is handed the empty command line), and no process is started |
| Processor.CommandProcessor.constructor | part2/debugger/debug_adapter_main.py:108-111 | no launch process and no terminal support at first |
| Processor.CommandProcessor.WriteMessage | part2/debugger/debug_adapter_main.py:224-229 | the message is appended to the write queue |
| Processor.CommandProcessor.HandleInitialize | part2/debugger/debug_adapter_main.py:134-146 | records the client's terminal support and posts the response with both capabilities true, then the initialized event; on an exception nothing changes |
| Processor.CommandProcessor.HandleLaunch | part2/debugger/debug_adapter_main.py:148-160 | replaces the launch process with a fresh one in its initial state, runs `launch()` only when valid, and posts the response after what `launch()` posted |
| Processor.CommandProcessor.StartProcess | part2/debugger/debug_adapter_main.py:156-160 | after `build_response` and the constructor's checks: the new launch process replaces the old, posts what `LaunchEffect` says, and raises exactly when `LaunchEffect` does |
| Processor.CommandProcessor.HandleConfigurationDone | part2/debugger/debug_adapter_main.py:163-169 | posts the response; nothing else changes |
| Processor.CommandProcessor.HandleThreads | part2/debugger/debug_adapter_main.py:171-185 | posts the response listing exactly threads (0, "Main Thread") and (1, "Thread 1") |
| Processor.CommandProcessor.HandleDisconnect | part2/debugger/debug_adapter_main.py:187-199 | disconnects the launch process if there is one, never clears it, and posts the response |
| Processor.CommandProcessor.HandlePause | part2/debugger/debug_adapter_main.py:201-207 | posts the response; nothing else changes |
| Processor.CommandProcessor.HandleEvaluate | part2/debugger/debug_adapter_main.py:211-221 | forwards the expression to stdin only with a launch process and context 'repl', and answers with result '' and variablesReference 0 |
| Processor.CommandProcessor.Call | part2/debugger/debug_adapter_main.py:117-132 | only requests are acted on, only by the handler named after the command; an unknown command changes nothing; a handler's exception is swallowed |

## Left out

- Threads: the reader, writer, stream-reader, exit-waiter and stdin-writer threads. Each loop is modelled as sequential processing of its input, so the interleaving of their queue writes is not captured.
- The blocking `Queue.get`: `Writer.Drain` processes the items queued so far and stops when the queue is empty.
- `main`, the binary-mode setup through msvcrt, and the `reader_thread` wrapper. The `from_dict` call of `reader_thread` is modelled as `Schema.FromDict`.
- Logging (`debug`, `debug_exception`) is left out, and the `if DEBUG:` branches are treated as doing nothing.
- JSON: `json.loads`, `json.dumps` and `to_dict` are not modelled. A body is opaque bytes, and `to_json` is the `serialize` parameter, which may fail.
- Schema.FromDict: `cls(**dct)` is modelled as an instance holding the dictionary. A constructor that rejects the dictionary's keys is not modelled.
- The generated `schema` module is not part of this model. Its message classes are `MessageClass` values, and their fields are the `Body` and `Arguments` datatypes. A request whose arguments do not have the shape its handler reads raises in the handler (`raised`).
- The `_constants` module is not part of this model. The console options are taken to be the three distinct strings `internalConsole`, `integratedTerminal` and `externalTerminal`. `VALID_CONSOLE_OPTIONS` is taken to be a list of them for the text of the failure message.
- `os.path.exists`, `sys.executable` and `subprocess.Popen` are inputs (`Host`, `spawn`). The process handle is a number. Killing the process and writing to its stdin are ghost facts (`killed`, `stdinText`), and the pipes are not modelled.
- The weak reference to the command processor is the `alive` flag of the background tasks. `launch()` itself always finds the processor alive.
- `supportsRunInTerminalRequest` is a boolean; a client that omits it is treated as sending false.
- Launch.LaunchProcess.constructor: the TypeError `os.path.exists(None)` raises for a missing cwd or program is modelled by `Validate` returning `ValidationRaised`. The handler then reports `raised` and does not construct the process.
- Processor.CommandProcessor.HandleLaunch: the processor is not handed to the launch process. The launch process gets the processor's write queue and, at `launch()`, its current terminal support.
- Schema.BuildResponse: `kwargs.setdefault('seq', -1)` writes into the caller's dictionary. No caller reuses that dictionary, so only the resulting response is modelled.
- Framing.ParseInt: a value too large for a machine integer becomes a Python 2 `long` of the same value; the unbounded `int` stands for both, so the int/long distinction is not modelled. Header text is ASCII after decoding, so no other digits or blanks arise.
- Transport.Utf8Decode: Python 2's decoder accepts encoded surrogates (U+D800 to U+DFFF), which a Dafny `char` cannot hold; the model rejects them. Narrow Unicode builds, which store characters above U+FFFF as two code units, are not modelled.
- Framing.Decode: the body is returned as the bytes read. `body.decode('utf-8')` is `Transport.Utf8Decode`, and a body it rejects would raise in `read`; that path and `json.loads` are not part of `Decode`.
