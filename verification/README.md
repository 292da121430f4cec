# A model of Outboard

Outboard is a framework for hosts and plugins that are separate executables. A host finds
plugin executables, asks each for a manifest, picks one, runs it with typed arguments or
keeps it alive as a worker, and then multiplexes requests to it over a pair of pipes. This
project models that path in Dafny and proves what it promises.

`dafny verify dfyconfig.toml` checks everything.

## How it is laid out

| files | what they hold |
|---|---|
| `Protocol.dfy`, `AsyncServer.dfy`, `ServerTheorems.dfy`, `ServerAccount.dfy` | the Tokio worker server as a transition system, what every schedule of it keeps, and what it sends told from the steps of the schedule |
| `SequentialWorker.dfy`, `ScheduleIndependence.dfy` | the blocking server and client as loops, and that the Tokio server agrees with them under every schedule |
| `AsyncClient.dfy` | the Tokio client as a transition system, against any plugin |
| `WorkerSystem.dfy`, `EndToEnd.dfy`, `CancelHook.dfy` | client, pipes and server composed; what `finish` returns, and what a failing cancel hook does to it |
| `HostStream.dfy`, `PluginStream.dfy`, `Progress.dfy` | what callers write and which task it reaches, what handlers do and what `finish` tells of it, and that both sides can always go on |
| `Capture.dfy` | `run_capture`: bounded pipes, two drain threads, a stdin thread and a polling loop |
| `Framing.dfy`, `OsStrings.dfy` | length-prefixed frames over a chunked byte stream; OS strings on the wire |
| `Words.dfy` | identifier renaming |
| `Argv.dfy`, `ArgvCompile.dfy` | the derive macro as a compiler from configured types to plans, and the code that pushes arguments |
| `ArgvGrammar.dfy`, `ArgvRoundTrip.dfy`, `ArgvAmbiguity.dfy` | the grammar of what is emitted, a reader that inverts it, and exactly when that can be done |
| `Manifest.dfy`, `Discovery.dfy`, `Sorting.dfy`, `Resolution.dfy` | validation, compatibility, the scan with shadowing, the choice of a winner |
| `Cache.dfy`, `Handshake.dfy`, `Registry.dfy` | the manifest cache, which must not be noticed; the opening exchange of a worker session; all of it from settings to session |

Loops that change variables are methods with invariants, and objects whose fields change are
classes. The two sides of the Tokio protocol and `run_capture` are concurrent, so they are
transition systems on values: a schedule is a list of atomic actions, `Exec` gives the state
it leads to if every action was enabled in turn, and a theorem about `Exec(acts)` for all
`acts` is a theorem about every reachable state of every interleaving. Where the source holds
a lock over two accesses, the model may let others in between; it has all the source's
schedules and some more.

## What is assumed

* Handlers do not panic and do not use their invocation context after `invoke` returns. The
  cancel hook may fail; the theorems say what it costs where it matters.
* No more than 2^64 requests are made on one client; then ids repeat.
* `canonicalize` answers the same for the same path throughout one discovery.
* A file that keeps its length and modification time at one place keeps its behaviour, path
  hashes do not collide, a rename is atomic, and one process writes the cache file.
* For resolution through the cache, an executable declares the same manifest by whatever link
  it is run. `Cache.TransparentIffLinkBlind` shows that the cache needs exactly this.
* JSON round-trips. SemVer matching is a parameter; the one fact asked of it is that 1.0.0
  satisfies `^1.0`.

## What turned out not to hold

* A client invocation can lose all its replies: the reader looks up, delivers and removes
  under separate locks, so a terminal frame of an id that is not yet registered removes the
  registration made meanwhile. `AsyncClient.ClientIsolation` says when exactly, and
  `AsyncClient.StaleRegistrationLosesReplies` gives the run. A plugin that only answers
  requests never causes it (`EndToEnd.NoReplyIsLost`).
* A failing cancel hook can end the invocation at the client, in place of the task's own
  outcome: `CancelHook.HookReplacesOutcome` gives the run, and `CancelHook.HookOrTask` says
  that it happens exactly when the hook failed for that id before the task reported.
* Pascal and camel case do not always split back into the same words: `a_b` becomes `AB`
  (`Words.PascalMerges`), `a_1` becomes `a1` (`Words.CamelMerges`). `Words.CaseMarkedRoundTrip`
  gives the exact condition.
* Arguments do not always determine the value they come from. They do exactly when, between
  two flags that are always there, at most one bare field is of open length
  (`ArgvAmbiguity.InjectiveIffUnambiguous`). So sources and then a destination can be read
  back, and two optional positionals in a row cannot.
* The cache shows when one executable is linked under two names and declares itself by the
  name it is run by: the second name is refused (`Cache.SecondNameRefused`).
* An executable replaced between being run and being fingerprinted leaves its old manifest in
  the cache under the new fingerprint (`Cache.StoredIsSoundIff`,
  `Cache.ReplacedDuringInspection`).
* The two servers word the error for a repeated hello differently; the agreement is up to
  that text.

## Model

| member | source | states |
|---|---|---|
| `ServerTheorems.ServerInvariant` | crates/outboard-tokio/src/lib.rs:536-625 | in every schedule `pending` maps exactly the ids of live tasks to them, what was emitted is what was written plus what is queued, and what was emitted for each task and each id is the blocks of those tasks in order |
| `ServerTheorems.PerIdGrammar` | crates/outboard-tokio/src/lib.rs:580-617 | even with reused ids, an id's frames minus duplicate-request rejections and cancel-hook errors form blocks Started (Progress or Output)* (Finished or Error), the last open exactly while a task of that id has started and not reported; no two tasks of an id are live together |
| `ServerTheorems.GracefulShutdown` | crates/outboard-tokio/src/lib.rs:572-579 | ShutdownAck is sent at most once and is the last frame of all; when it is sent nothing is pending and Started frames, task terminal frames and tasks are equally many |
| `ServerTheorems.CancellationIsolation` | crates/outboard-tokio/src/lib.rs:561-579 | unless the loop is about to cancel it, a live task is cancelled if and only if a Cancel of its own id or a Shutdown was read after its Invoke; no task is cancelled otherwise; while the server waits for its tasks every live one is cancelled; a finished task, cancelled or not, sent exactly one block |
| `ServerTheorems.CancellationIsPermanent` | crates/outboard-tokio/src/lib.rs:561-579 | a cancelled token stays cancelled in every continuation of the schedule |
| `ServerAccount.TaskSaysWhatItsHandlerDid` | crates/outboard-tokio/src/lib.rs:456-478 | in every schedule a started task has sent Started, then one frame for each event its handler emitted, Output with that payload or Progress with that fraction and message, then Finished with the result or Error with the error it returned, if it has; and those are all the frames sent for it |
| `ServerAccount.HandlersAreFree` | crates/outboard-tokio/src/lib.rs:601-617 | from any reachable state a running handler, cancelled or not, can emit any events and return anything, and its task tells of all of it |
| `ServerAccount.EveryRequestAccountedFor` | crates/outboard-tokio/src/lib.rs:580-595 | the tasks are the requests read while no live task had their id, in order; each request read while one had is answered by one duplicate-request error with its id, in order |
| `ServerAccount.EveryCancelReachesTheHook` | crates/outboard-tokio/src/lib.rs:561-571 | for each Cancel read, in order, the hook is called once with its id, and an error it returns is sent once under that id with that error |
| `Progress.ServerQuiesces` | crates/outboard-tokio/src/lib.rs:536-625 | from every reachable state in which no read has failed, the server can by its own steps read all there is, finish every task and write everything out; if a Shutdown was among what it read, it has then acknowledged |
| `SequentialWorker.ServeWorker` | crates/outboard/src/worker.rs:372-411 | the loop answers every host frame through the first Shutdown in order, and acknowledges exactly when there is one |
| `SequentialWorker.RunHandler` | crates/outboard/src/worker.rs:392-408 | a request yields Started, one frame for each event of the handler with that event's contents, in order, and the result or error it returned |
| `SequentialWorker.ReplyTells` | crates/outboard/src/worker.rs:392-408 | so does the answer of the sequential server to a request: between Started and the terminal frame, exactly the handler's events with their contents |
| `SequentialWorker.ReplyShape` | crates/outboard/src/worker.rs:373-410 | a request is answered by one whole block and any other frame by at most one; every answer bears the id its host frame is about; only Shutdown is acknowledged |
| `SequentialWorker.WorkerClient.Invoke` | crates/outboard/src/worker.rs:185-230 | ids count up from 1 and saturate; the frames received make a transcript or a worker error, and otherwise the call is incomplete or fails with the frame that could not be read |
| `SequentialWorker.Collect` | crates/outboard-tokio/src/lib.rs:404-426 | the receive loop stops at the frame that finishes or fails its id and keeps all before it |
| `SequentialWorker.ReceiveUpToTerminal` | crates/outboard/src/worker.rs:203-229 | on frames of one id a transcript is everything through the first terminal frame, and is interrupted exactly when there is none |
| `ScheduleIndependence.AnswerInvariant` | crates/outboard-tokio/src/lib.rs:548-620 | with distinct ids nothing is rejected and the tasks are the requests read, in order; the id-less frames are the answers to the hellos and pings read, in order |
| `ScheduleIndependence.AgreesWithSequential` | crates/outboard-tokio/src/lib.rs:515-625 | a server that acknowledged its shutdown, rejected nothing and had no failing hook sent, for each id and for no id, what the sequential server sends for the same stream |
| `ScheduleIndependence.ScheduleIndependent` | crates/outboard-tokio/src/lib.rs:515-625 | distinct ids suffice for that agreement, whatever the schedule |
| `AsyncClient.ClientInvariant` | crates/outboard-tokio/src/lib.rs:232-255 | every step of `invoke` and of the reader keeps ids distinct, `pending` right and each channel's contents as below |
| `AsyncClient.ClientIsolation` | crates/outboard-tokio/src/lib.rs:232-255 | against any plugin an invocation is given exactly the frames of its id routed since it was registered, through the first terminal one, if and only if it was not registered while the reader was discarding its id (or nothing of its id has come) |
| `AsyncClient.ReaderEndClosesChannels` | crates/outboard-tokio/src/lib.rs:254-255 | when the reader has ended, every invocation registered before its clear has its channel closed, holding its terminal frame if one was routed |
| `AsyncClient.GlobalsAreTheIdless` | crates/outboard-tokio/src/lib.rs:251-253 | the global channel is given exactly the id-less frames routed, in order |
| `AsyncClient.PendingAreWaiting` | crates/outboard-tokio/src/lib.rs:232-255 | an invocation not yet registered, or abandoned, is not in `pending`; one that listens is there exactly while no terminal frame has come for it, unless the reader has ended or was discarding its id |
| `AsyncClient.StaleRegistrationLosesReplies` | crates/outboard-tokio/src/lib.rs:243-250 | a run in which an unsolicited terminal frame makes a later reply undeliverable |
| `AsyncClient.UpToTerminalSnoc` | crates/outboard-tokio/src/lib.rs:239-250 | one more frame extends what an invocation should be given exactly while no terminal frame has come |
| `WorkerSystem.ClientView` | crates/outboard-tokio/src/lib.rs:275-308 | each run of the whole is a run of the client alone |
| `WorkerSystem.ServerView` | crates/outboard-tokio/src/lib.rs:515-625 | and of the server alone |
| `WorkerSystem.CauseInvariant` | crates/outboard-tokio/src/lib.rs:561-617 | every frame with an id answers an Invoke or Cancel of that id that was read |
| `WorkerSystem.SystemInvariant` | crates/outboard-tokio/src/lib.rs:275-308 | every host frame is about something sent, no id is sent twice, the reader is at a prefix of what was written, and no frame of an id was routed before its registration |
| `HostStream.PipeHoldsWhatWasWritten` | crates/outboard-tokio/src/lib.rs:275-398 | at every step the host's pipe, read or not, holds one frame for each thing written, in order: the request of the invocation sent, the id of the one cancelled, the nonce, the shutdown |
| `HostStream.WrittenIsOnThePipe` | crates/outboard-tokio/src/lib.rs:390-398 | so a Cancel of an invocation's own id is on the pipe once its owner has cancelled it |
| `HostStream.OnThePipeIsWritten` | crates/outboard-tokio/src/lib.rs:390-398 | and nothing is on the pipe that no caller wrote |
| `HostStream.RequestsAreSentOnce` | crates/outboard-tokio/src/lib.rs:275-308 | the Invokes on the pipe are the requests of exactly the sent invocations, each once, in the order they were written |
| `HostStream.CancelReachesItsTask` | crates/outboard-tokio/src/lib.rs:390-398 | in every run a task is cancelled only if a shutdown was asked for or the owner of its own request cancelled; once the server has dealt with all that was written, a live task is cancelled exactly when its owner did so |
| `EndToEnd.FinishReturnsTheWholeTask` | crates/outboard-tokio/src/lib.rs:404-426 | in every interleaving a `finish` that returns Ok holds exactly the frames of the one task that served that request, in order; with no failing hook for its id, all frames emitted under its id |
| `PluginStream.FinishTellsTheHandler` | crates/outboard-tokio/src/lib.rs:404-478 | in every interleaving a `finish` that returns Ok returns the result that the handler of that very request returned, and its events are Started, everything the handler emitted with its contents and in order, and that result |
| `EndToEnd.FramesAreConserved` | crates/outboard-tokio/src/lib.rs:536-543 | at every step, emitted frames are those routed, then those in the pipe, then those queued |
| `EndToEnd.NoReplyIsLost` | crates/outboard-tokio/src/lib.rs:275-308 | once nothing is under way an invocation holds everything emitted under its id through the first terminal frame, so its whole task if no hook failed for that id |
| `EndToEnd.SettledOutcome` | crates/outboard-tokio/src/lib.rs:404-426 | once nothing is under way `finish` reports the first terminal frame emitted under the id, and waits exactly when there is none |
| `Progress.SystemSettles` | crates/outboard-tokio/src/lib.rs:232-255 | from every reachable state in which neither side has failed to read, the two programs can go on, with no step of a caller, until nothing is under way |
| `Progress.EveryInvocationCanBeAnswered` | crates/outboard-tokio/src/lib.rs:275-308 | and if no shutdown was asked for, every `finish` of a request sent then has an answer |
| `CancelHook.HookOrTask` | crates/outboard-tokio/src/lib.rs:561-571 | once nothing is under way and the task has reported, the frame that ends the invocation is the task's if and only if no hook failed for its id before; then the invocation holds the whole task, and otherwise `finish` reports the hook's error |
| `CancelHook.WhoEnds` | crates/outboard-tokio/src/lib.rs:561-617 | of the task's terminal frame and the hook's errors, which comes first under an id |
| `CancelHook.UpToEnd` | crates/outboard-tokio/src/lib.rs:239-250 | what an invocation is given is everything under its id up to its first terminal emission |
| `CancelHook.HookReplacesOutcome` | crates/outboard-tokio/src/lib.rs:561-571 | a run in which the task finishes with a result and `finish` reports the hook's error |
| `EndToEnd.FinishAgreesWithSequential` | crates/outboard-tokio/src/lib.rs:404-426 | a completed multiplexed invocation has the transcript the blocking client would get from the sequential server |
| `Capture.CaptureNeverDeadlocks` | crates/outboard-core/src/process.rs:67-153 | for any pipe capacities of at least 1 and any finite child, until the child is gone it or an I/O thread can move, until the call has returned someone can, and the number of steps is bounded |
| `Capture.CaptureIsExact` | crates/outboard-core/src/process.rs:85-153 | an Ok or Timeout result holds exactly the bytes the child wrote to each stream before it was gone; Ok means it exited by itself with that status and its input was written whole |
| `Capture.StreamsAreTheChilds` | crates/outboard-core/src/process.rs:85-94 | at every step what has gone into each pipe is what the child's own operations wrote to that stream, in order; what its reads returned is what it consumed, then end of input, which comes only after the whole input |
| `Capture.TimeoutMeansWaited` | crates/outboard-core/src/process.rs:104-130 | a Timeout is returned only after every poll the timeout allows, one more than those waited for, found the child alive; so no child is killed earlier, and one that has exited by then is not reported as timed out |
| `Capture.NeverStuck` | crates/outboard-core/src/process.rs:67-153 | while the child is alive, a step of it or of an I/O thread is enabled |
| `Capture.ThreadsFinish` | crates/outboard-core/src/process.rs:67-153 | once the child is gone, every thread the call still joins on can finish |
| `Capture.RunCapture` | crates/outboard-core/src/process.rs:67-153 | under any scheduler that picks enabled steps the call returns; what it returns holds what the child's own operations wrote, and Timeout comes after all its polls found the child alive |
| `Capture.WithoutDrainingItDeadlocks` | crates/outboard-core/src/process.rs:85-94 | for every capacity, a child that writes one byte more than the pipe holds would be stuck without the drain threads |
| `Framing.BigEndian` | crates/outboard-protocol/src/lib.rs:347-363 | the length prefix is four bytes that read back as the length |
| `Framing.BigEndianOrders` | crates/outboard-protocol/src/lib.rs:347-363 | of two lengths the smaller has the prefix with the smaller byte where they first differ, and a length below 256 is its own last byte |
| `Framing.StreamRoundTrip` | crates/outboard-protocol/src/lib.rs:305-330 | a stream of frames within the limits reads as exactly its bodies, then UnexpectedEof |
| `Framing.TruncatedStream` | crates/outboard-protocol/src/lib.rs:305-330 | cut anywhere, it reads as its complete frames, then UnexpectedEof |
| `Framing.CompleteIsLongest` | crates/outboard-protocol/src/lib.rs:305-330 | those are the longest prefix of the bodies that fits in the bytes there are |
| `Framing.StreamsAreUnique` | crates/outboard-protocol/src/lib.rs:305-330 | no two lists of bodies have the same stream |
| `Framing.Source.ReadExact` | crates/outboard-protocol/src/lib.rs:305-330 | however the stream is chunked, a read of n bytes gets the next n or finds the end |
| `Framing.FramedReader.Read` | crates/outboard-protocol/src/lib.rs:305-330 | one frame, UnexpectedEof or TooLarge as the remaining bytes say, and no buffer beyond the maximum |
| `Framing.FramedReader.ReadAll` | crates/outboard-tokio/src/lib.rs:50-65 | a reader loop gets every frame of the stream and the error it ends in |
| `Framing.FramedWriter.Write` | crates/outboard-protocol/src/lib.rs:347-363 | a body is written exactly when both limits allow it; a rejected one adds no byte |
| `Framing.Transfer` | crates/outboard-tokio/src/lib.rs:50-108 | through any chunking the reader receives exactly the bodies written |
| `OsStrings.ScalarRoundTrip` | crates/outboard-protocol/src/lib.rs:25-72 | every scalar value encodes to one character of the grammar in section 4 of RFC 3629 and decodes to itself |
| `OsStrings.ToStrRoundTrip` | crates/outboard-protocol/src/lib.rs:25-43 | bytes convert to text exactly when they are well-formed UTF-8, and encode back to the same bytes |
| `OsStrings.FromStrRoundTrip` | crates/outboard-protocol/src/lib.rs:44-72 | every text encodes to well-formed bytes that convert back to it |
| `OsStrings.OsRoundTrip` | crates/outboard-protocol/src/lib.rs:25-72 | every Unix string survives the wire, in its Utf8 form exactly when it is well-formed UTF-8 |
| `OsStrings.ArgsOs` | crates/outboard-protocol/src/lib.rs:123-131 | arguments convert in order, and fail exactly when one is of another platform |
| `OsStrings.SendArgs` | crates/outboard-protocol/src/lib.rs:123-131 | any list of Unix strings comes back byte for byte |
| `Words.SplitWords` | crates/outboard-clap-derive/src/lib.rs:478-506 | the scanner computes the words defined position by position |
| `Words.WordsKeepLetters` | crates/outboard-clap-derive/src/lib.rs:478-506 | for every name the words joined are the lower-cased name without separators, and none is empty |
| `Words.SeparatedRoundTrip` | crates/outboard-clap-derive/src/lib.rs:460-477 | kebab, snake and screaming snake case split back into the same words |
| `Words.CaseMarkedRoundTrip` | crates/outboard-clap-derive/src/lib.rs:460-512 | Pascal and camel case split back into the same words if and only if every capital stands out: it is a letter, next to a lower-case one |
| `Words.TwoLettersSuffice` | crates/outboard-clap-derive/src/lib.rs:460-512 | so whenever every word starts with two lower-case letters |
| `Words.PascalMerges` | crates/outboard-clap-derive/src/lib.rs:460-512 | `a_b` in Pascal case is `AB`, which is one word |
| `Words.CamelMerges` | crates/outboard-clap-derive/src/lib.rs:460-512 | `a_1` in camel case is `a1`, which is one word |
| `Words.RunTogether` | crates/outboard-clap-derive/src/lib.rs:466-467 | lower and upper case without separators are one word |
| `Words.RenameKeepsWords` | crates/outboard-clap-derive/src/lib.rs:460-477 | for every name and each of the eight styles, exactly when the renamed form has the words of the name |
| `Words.RenameWrites` | crates/outboard-clap-derive/src/lib.rs:460-477 | what each style writes: every letter of every word in its case, the hyphen, underscore or nothing between two words, and nothing else |
| `Argv.ArgvBuilder.Push` | crates/outboard-clap/src/lib.rs:104-114 | a value is appended bare, after its flag, or joined to it by `=` |
| `Argv.ArgvBuilder.Vector` | crates/outboard-clap-derive/src/lib.rs:334-352 | a list is appended joined, behind `--`, or value by value |
| `Argv.ArgvBuilder.PushAll` | crates/outboard-clap-derive/src/lib.rs:347-351 | the loop that pushes every value of a list |
| `Argv.ArgvBuilder.Append` | crates/outboard-clap-derive/src/lib.rs:52-101 | the generated code appends the argument vector of the value and touches nothing before it |
| `Argv.ArgvBuilder.AppendAll` | crates/outboard-clap-derive/src/lib.rs:52-71 | fields append in declaration order |
| `Argv.ArgvBuilder.AppendItem` | crates/outboard-clap-derive/src/lib.rs:253-261 | flattened and subcommand fields, plain, optional or repeated |
| `Argv.ArgvBuilder.AppendSeveral` | crates/outboard-clap-derive/src/lib.rs:256-257 | the loop over a repeated one |
| `Argv.ArgvBuilder.AppendLeaf` | crates/outboard-clap-derive/src/lib.rs:262-332 | flags, counts, single values and lists, optional or not |
| `Argv.JoinTexts` | crates/outboard-clap-derive/src/lib.rs:334-352 | the joining loop puts the delimiter between the values |
| `ArgvCompile.FieldMeans` | crates/outboard-clap-derive/src/lib.rs:243-382 | what the compiled emitter of a field emits is what its configuration says: long before short, a plain bool with a flag a switch, a count repeated, lists joined by their delimiter, `--` before a last or trailing positional |
| `ArgvCompile.FieldCompilesIff` | crates/outboard-clap-derive/src/lib.rs:262-332 | a field compiles exactly when it is skipped, a switch that is a plain bool with a long or a short flag, a count with a long or a short flag, or a value field; otherwise, which error it is |
| `ArgvCompile.FieldTakes` | crates/outboard-clap-derive/src/lib.rs:243-332 | which values a compiled field takes, from its configuration and type |
| `ArgvCompile.CompilesIff` | crates/outboard-clap-derive/src/lib.rs:52-101 | a type compiles exactly when every leaf does and every flattened or subcommand field has a derived type that compiles |
| `ArgvCompile.FirstFieldFails` | crates/outboard-clap-derive/src/lib.rs:52-101 | and otherwise reports the error of its first field that does not, in declaration order |
| `ArgvCompile.CompiledMeans` | crates/outboard-clap-derive/src/lib.rs:52-101 | for every type and value, compiling and then emitting gives the arguments its configuration says, through flattened structs and subcommands |
| `ArgvCompile.CompiledIsFormed` | crates/outboard-clap-derive/src/lib.rs:52-382 | a configuration with distinct, well-spelled flags, its trailing or subcommand field last and distinct command names that are no flags compiles to a well-formed command |
| `ArgvCompile.CompiledUnambiguous` | crates/outboard-clap-derive/src/lib.rs:243-382 | the compiled type is unambiguous if and only if between any two positionals of open length stands a flag that is always there |
| `ArgvCompile.OneOpenIffFenced` | crates/outboard-clap-derive/src/lib.rs:243-382 | at most one open field per group, and a flag between any two, are the same |
| `ArgvCompile.ConfiguredRoundTrip` | crates/outboard-clap-derive/src/lib.rs:52-382 | the arguments of every value of a well-configured, unambiguous type are read back |
| `ArgvCompile.ConfiguredInjectiveIff` | crates/outboard-clap-derive/src/lib.rs:52-382 | among well-configured types, those whose arguments determine the value are exactly the unambiguous ones |
| `ArgvRoundTrip.RoundTrip` | crates/outboard-clap-derive/src/lib.rs:52-382 | for every well-formed, unambiguous command and every value its grammar can tell apart, reading the emitted arguments gives the value back, an empty optional list as none |
| `ArgvRoundTrip.BodyBack` | crates/outboard-clap-derive/src/lib.rs:243-382 | the fields of a command read back from their tokens: flags wherever they stand, bare values counted between two flags that are always there |
| `ArgvRoundTrip.LexGroup` | crates/outboard-clap-derive/src/lib.rs:243-382 | what a group of fields pushes is lexed into exactly its flags and bare values, ending where the group does |
| `ArgvRoundTrip.FlatEmits` | crates/outboard-clap-derive/src/lib.rs:253-261 | inlining flattened structs changes no token |
| `ArgvAmbiguity.InjectiveIffUnambiguous` | crates/outboard-clap-derive/src/lib.rs:243-382 | the arguments of a well-formed type determine its value if and only if no group of its commands has two open bare fields |
| `ArgvAmbiguity.AmbiguousClashes` | crates/outboard-clap-derive/src/lib.rs:243-382 | every ambiguous type, at any depth of subcommands, has two values with the same arguments |
| `ArgvAmbiguity.BodyClash` | crates/outboard-clap-derive/src/lib.rs:243-382 | a text given to one of two open fields of a group or to the other gives the same arguments |
| `ArgvRoundTrip.SplitJoin` | crates/outboard-clap-derive/src/lib.rs:334-352 | splitting a joined list of delimiter-free values gives the values |
| `Manifest.CheckIds` | crates/outboard-core/src/manifest.rs:123-152 | the loop stops at the first malformed or repeated identifier, and only there |
| `Manifest.Validate` | crates/outboard-core/src/manifest.rs:123-152 | a manifest passes exactly when it is valid; otherwise the error is that of the first check that fails, and what each error says is the case |
| `Manifest.FindInterface` | crates/outboard-core/src/manifest.rs:153-155 | an interface of the id, absent exactly when none has it |
| `Manifest.FindCapability` | crates/outboard-core/src/manifest.rs:156-158 | a capability of the id, absent exactly when none has it |
| `Manifest.FoundInterfaceIsFirst` | crates/outboard-core/src/manifest.rs:153-155 | of several, the first |
| `Manifest.FoundCapabilityIsFirst` | crates/outboard-core/src/manifest.rs:156-158 | of several, the first |
| `Manifest.CompatibilityIssues` | crates/outboard-core/src/manifest.rs:162-239 | nothing is reported exactly when the manifest meets the requirement |
| `Manifest.CheckIdentity` | crates/outboard-core/src/manifest.rs:163-189 | framework, name, kind and execution issues, in order; none exactly when those four requirements hold |
| `Manifest.CapabilityIssues` | crates/outboard-core/src/manifest.rs:203-228 | absence, version and property issues of one capability, in order |
| `Manifest.CheckCapabilities` | crates/outboard-core/src/manifest.rs:203-228 | those of all required capabilities, in order |
| `Manifest.NoIssuesIffCompatible` | crates/outboard-core/src/manifest.rs:162-239 | an empty report is the same as meeting every requirement |
| `Manifest.IssuesAreTheDefects` | crates/outboard-core/src/manifest.rs:162-239 | an issue is in the report if and only if the manifest has that defect, with the versions, names, ids and values at fault; and the report keeps the order of the requirement's parts |
| `Manifest.MoreCapabilitiesFewerManifests` | crates/outboard-core/src/manifest.rs:203-228 | one more required capability only rules manifests out |
| `Sorting.SortIsSorted` | crates/outboard-core/src/registry.rs:229 | sorting gives an ordered permutation |
| `Discovery.SameFileIsEquivalence` | crates/outboard-core/src/discovery.rs:154-159 | `same_file` is reflexive, symmetric and transitive |
| `Discovery.BuildRoots` | crates/outboard-core/src/discovery.rs:196-235 | every directory of the explicit list, the environment variable and PATH has the same directory among the roots, from a list no worse than its own; every root is a directory of one of the three lists, with that list's source; and exactly those that repeat an earlier directory are dropped |
| `Discovery.RootsSearchAll` | crates/outboard-core/src/discovery.rs:196-235 | the same of the specification, from the three lists alone |
| `Discovery.RootsKeepOrder` | crates/outboard-core/src/discovery.rs:196-235 | two roots stand in the order of their lists and, in one list, in its order |
| `Discovery.DeduplicatedDistinct` | crates/outboard-core/src/discovery.rs:228-234 | kept roots are given ones, no two the same directory |
| `Discovery.Representative` | crates/outboard-core/src/discovery.rs:228-234 | every given root has its earliest same directory kept |
| `Discovery.Discoverer.Insert` | crates/outboard-core/src/discovery.rs:137-153 | one candidate keeps the selected and shadowed maps those of the candidates seen so far |
| `Discovery.Discover` | crates/outboard-core/src/discovery.rs:54-136 | `selected` is the first-wins filter of the whole scan in scan order and `shadowed` the rest of each identity; it fails exactly when reading a root fails for another reason than its being absent or forbidden |
| `Discovery.ScanOverrides` | crates/outboard-core/src/discovery.rs:63-80 | overrides come first |
| `Discovery.ScanEntries` | crates/outboard-core/src/discovery.rs:95-127 | the sorted entries of a directory, those with the prefix and executable |
| `Discovery.NamesByCharacter` | crates/outboard-core/src/discovery.rs:95-97 | names compare at the first character where they differ, a prefix before what it begins |
| `Discovery.RootYields` | crates/outboard-core/src/discovery.rs:82-128 | a root yields exactly its executable entries whose names are the prefix and a valid plugin name, each with its own path and the root's source, names ascending |
| `Discovery.ScanRoot` | crates/outboard-core/src/discovery.rs:82-128 | an absent or forbidden root is skipped, any other failure ends the scan |
| `Discovery.ScanRoots` | crates/outboard-core/src/discovery.rs:81-128 | roots in order, precedence counting on |
| `Discovery.FirstWinsIsExact` | crates/outboard-core/src/discovery.rs:54-136 | `selected` rises in precedence and holds a candidate exactly when it is the first of its identity |
| `Discovery.EveryCandidateAccountedFor` | crates/outboard-core/src/discovery.rs:137-153 | each scanned candidate is exactly one of selected, shadowed, or dropped as the same file as the selected one; shadow lists rise and lie above it |
| `Discovery.SelectedIsOfBestTier` | crates/outboard-core/src/registry.rs:148-165 | the selected candidate comes from the best tier that has its identity: override, explicit, environment, PATH |
| `Discovery.NoTierIsLost` | crates/outboard-core/src/discovery.rs:196-235 | what any directory of the three lists offers is selected from a tier at least as good as its list, deduplication notwithstanding |
| `Resolution.ResolveBest` | crates/outboard-core/src/registry.rs:191-245 | through the cache and whatever it holds, the result is the candidate that none beats among those whose executables, run now, declare a compatible manifest; NoMatch exactly when there is none, with its rejections in order |
| `Registry.Resolve` | crates/outboard-core/src/registry.rs:148-245 | from the settings of a registry: the roots, the scan and the choice give the one best candidate of the first-wins scan, which comes from the settings, with the manifest its executable declares now; the scan fails exactly when reading a root does |
| `Registry.OfferedAreFromSettings` | crates/outboard-core/src/registry.rs:148-165 | every candidate is an override of the settings or an executable of its name in a directory of the list its source names |
| `Registry.ListedIsOffered` | crates/outboard-core/src/registry.rs:148-165 | and what a directory of any of the three lists offers is offered, from that list or a better one |
| `Registry.OverrideIsOffered` | crates/outboard-core/src/registry.rs:148-165 | the first override of a name is offered, before anything else of that name |
| `Registry.OfferedHaveOneBest` | crates/outboard-core/src/registry.rs:229-234 | the first-wins scan has at most one best candidate |
| `Resolution.FirstIsBest` | crates/outboard-core/src/registry.rs:229-234 | the head of the sorted ranking beats every accepted candidate |
| `Resolution.BestIsUnique` | crates/outboard-core/src/registry.rs:229-234 | greatest score and then least precedence leave one candidate |
| `Resolution.RejectionsCount` | crates/outboard-core/src/registry.rs:202-228 | on NoMatch there is one rejection for each name-matching candidate, in order, with the error of its inspection or exactly the defects of its manifest |
| `Resolution.MoreCapabilitiesNeverImprove` | crates/outboard-core/src/registry.rs:191-245 | one more required capability never gives a winner of better score and precedence |
| `Cache.InspectManifestAt` | crates/outboard-core/src/registry.rs:299-330 | the outcome of running the executable: its valid manifest, or which of command, JSON, validation and identity failed |
| `Cache.HitIsTrue` | crates/outboard-core/src/cache.rs:81-92 | a hit in a sound cache is what the executable there now declares |
| `Cache.StoredIsSoundIff` | crates/outboard-core/src/cache.rs:93-108 | storing keeps the cache sound if and only if the file fingerprinted still declares what is stored, or has no fingerprint |
| `Cache.ReplacedDuringInspection` | crates/outboard-core/src/registry.rs:169-175 | otherwise later inspections are answered with the old manifest while the file stays |
| `Cache.PersistIsAllOrNothing` | crates/outboard-core/src/cache.rs:130-153 | wherever a persist stops, the next load gets the old entries, none, or all the new ones; with no failure the new ones |
| `Cache.ManifestCache.constructor` | crates/outboard-core/src/cache.rs:46-80 | the modes, and loading: an absent, unreadable or other-format file is empty |
| `Cache.ManifestCache.Get` | crates/outboard-core/src/cache.rs:81-92 | a hit of a sound cache is what the executable declares now |
| `Cache.ManifestCache.Persist` | crates/outboard-core/src/cache.rs:130-153 | the cache file and its temporary after any combination of failing calls |
| `Cache.ManifestCache.Insert` | crates/outboard-core/src/cache.rs:93-108 | the entries and files after an insert |
| `Cache.ManifestCache.Invalidate` | crates/outboard-core/src/cache.rs:109-117 | the entries and files after an invalidation |
| `Cache.ManifestCache.Clear` | crates/outboard-core/src/cache.rs:118-126 | the entries and files after a clear |
| `Cache.VisitIsFresh` | crates/outboard-core/src/registry.rs:166-187 | an inspection through a sound cache answers as running the executable would, and keeps the cache and its file sound |
| `Cache.VisitIsRemembered` | crates/outboard-core/src/registry.rs:166-187 | in an unchanged world the next inspection finds what this one returned |
| `Cache.ClearForgetsAll` | crates/outboard-core/src/cache.rs:118-126 | after a clear nothing is found by any path, nor after a restart if the persist succeeded |
| `Cache.InvalidateForgetsOne` | crates/outboard-core/src/cache.rs:109-117 | after an invalidation nothing is found where the path led, and everything else is found as before; the same after a restart if the persist succeeded |
| `Cache.InsertRemembersOne` | crates/outboard-core/src/cache.rs:93-108 | after an insert the manifest is found by every path that leads there while the fingerprint stays, and everything else as before; the same after a restart if the persist succeeded |
| `Cache.ForeignFileIsIgnored` | crates/outboard-core/src/cache.rs:69-80 | an absent, unreadable or other-format file is an empty cache |
| `Cache.OnlyDiskModeWrites` | crates/outboard-core/src/cache.rs:46-68 | without the disk mode no sequence of events touches the files, and a disabled cache never finds anything |
| `Cache.PlayedIsUnnoticed` | crates/outboard-core/src/registry.rs:166-187 | over any sequence of inspections under any ids, invalidations, clears, replacements, restarts in any mode and persists cut short anywhere, every inspection answers as if there were no cache |
| `Cache.TransparentIffLinkBlind` | crates/outboard-core/src/cache.rs:172-178 | that holds for all sequences if and only if executables declare the same by every path that leads to them |
| `Cache.LinksShow` | crates/outboard-core/src/cache.rs:172-178 | two inspections that show the cache when one does not |
| `Cache.SecondNameRefused` | crates/outboard-core/src/cache.rs:172-178 | a multi-call executable linked under two names is refused under the second, where running it gives its manifest |
| `Cache.Inspect` | crates/outboard-core/src/registry.rs:166-187 | the method does what the specification of an inspection says, from any cache |
| `Cache.Run` | crates/outboard-core/src/registry.rs:166-187 | the life of a cache through any number of processes, event by event; unnoticed under the assumptions above |
| `Handshake.ValidateHello` | crates/outboard-tokio/src/lib.rs:627-655 | a hello passes exactly when framework, protocol and every requested interface match; otherwise the first failing check is reported and says what is wrong |
| `Handshake.Greet` | crates/outboard-tokio/src/lib.rs:515-534 | a server answers with its protocol version and manifest exactly to a hello that passes |
| `Handshake.CheckAnswer` | crates/outboard-tokio/src/lib.rs:204-223 | the client goes on exactly with the manifest it resolved and a protocol it accepts |
| `Handshake.Spawn` | crates/outboard-tokio/src/lib.rs:165-223 | the session opens exactly when all checks of both sides hold; a refused hello is seen as a closed stream |
| `Handshake.ResolvedHandshake` | crates/outboard-tokio/src/lib.rs:165-223 | for a resolved plugin and a server of the host's versions, exactly which requested interfaces let the session open; the one of a worker requirement always does |
| `Registry.ResolveAndSpawn` | crates/outboard-core/src/registry.rs:191-245 | resolving a worker requirement from a registry's settings and spawning the winner with its interface always opens the session |

## Left out

- JSON and its schemas: frame bodies and cache files are values or bytes; non-finite fractions in Progress are outside the model.
- SemVer parsing and matching, clap's own parser and its constraints, and the token-level work of the derive macro: the model starts from a parsed field configuration.
- Real time: a timeout may happen at any point where the source could take it; OS scheduling, futures dropped in the middle of a write and partial I/O failures are not modelled.
- Invocations registered after the client's reader has cleared `pending`: they wait forever; the model marks them late and the theorems on closed channels exclude them.
- The waits of `ping` and `shutdown` on the client side, and the sequential client's reader thread.
- Descendants of a captured child that keep its pipes open, and failures to spawn or wait in `run_capture`.
- Update in place on the two sides of the Tokio protocol and in `run_capture`: their shared maps, channels and buffers are fields of a state value, because the steps of several threads interleave on them.
- Windows: wide strings, executable extensions and path encodings.
- `ArgvRoundTrip.RoundTrip`: does not cover repeated or optional flattened structs and repeated subcommands, which are emitted (`Argv.ArgvBuilder.AppendItem`) but do not show where one ends; leaf values are their text, and a delimiter is one character.
- `Resolution.ResolveBest`: does not let executables be replaced while one resolution runs; between resolutions they may be.
- The metadata of the host's hello, which no check looks at.
- The management CLI, control dispatcher, conformance harness, demo host and plugin and doctor reports: I/O plumbing or one-branch logic.
- Builder setters and identifier constructors: easy members.
