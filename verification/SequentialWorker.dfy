/** The sequential worker server and client (crates/outboard/src/worker.rs). */
module SequentialWorker {
  import opened Common
  import opened Protocol

  /** What a handler emits and returns for one request. */
  datatype Answer = Answer(events: seq<Event>, outcome: Outcome)

  /** A handler determined by its request, and its cancel hook. */
  datatype Handler = Handler(run: InvokeRequest -> Answer, hook: RequestId -> Option<WorkerError>)

  function EventFrames(id: RequestId, es: seq<Event>): seq<PluginFrame> {
    seq(|es|, i requires 0 <= i < |es| => EventFrame(id, es[i]))
  }

  /** Everything sent for one request. */
  function Block(h: Handler, r: InvokeRequest): seq<PluginFrame> {
    var answer := h.run(r);
    [Started(r.id)] + EventFrames(r.id, answer.events) + [OutcomeFrame(r.id, answer.outcome)]
  }

  function Reply(h: Handler, f: HostFrame): seq<PluginFrame> {
    match f
    case RepeatedHello => [Error(None, DUPLICATE_HELLO_SYNC)]
    case Ping(nonce) => [Pong(nonce)]
    case Shutdown => [ShutdownAck]
    case Cancel(id) => if h.hook(id).Some? then [Error(Some(id), h.hook(id).value)] else []
    case Invoke(r) => Block(h, r)
  }

  function Replies(h: Handler, hs: seq<HostFrame>): seq<PluginFrame> {
    if hs == [] then [] else Replies(h, hs[..|hs| - 1]) + Reply(h, hs[|hs| - 1])
  }

  lemma {:induction false} RepliesSnoc(h: Handler, hs: seq<HostFrame>, f: HostFrame)
    ensures Replies(h, hs + [f]) == Replies(h, hs) + Reply(h, f)
  {
    assert (hs + [f])[..|hs|] == hs;
  }

  /** The host frames the server reads: up to the first Shutdown. */
  function Handled(hs: seq<HostFrame>): seq<HostFrame>
    decreases |hs|
  {
    if hs == [] then []
    else if hs[0] == Shutdown then [Shutdown]
    else [hs[0]] + Handled(hs[1..])
  }

  lemma {:induction false} HandledUntil(hs: seq<HostFrame>, n: nat)
    requires n <= |hs| && forall j :: 0 <= j < n ==> hs[j] != Shutdown
    ensures n == |hs| ==> Handled(hs) == hs
    ensures n < |hs| && hs[n] == Shutdown ==> Handled(hs) == hs[..n + 1]
  {
    if n > 0 {
      HandledUntil(hs[1..], n - 1);
    }
  }

  lemma {:induction false} RepliesNext(h: Handler, hs: seq<HostFrame>, n: nat)
    requires n < |hs| && forall j :: 0 <= j < n ==> hs[j] != Shutdown
    ensures Replies(h, hs[..n + 1]) == Replies(h, hs[..n]) + Reply(h, hs[n])
    ensures hs[n] == Shutdown ==> Replies(h, Handled(hs)) == Replies(h, hs[..n + 1])
  {
    assert hs[..n + 1] == hs[..n] + [hs[n]];
    RepliesSnoc(h, hs[..n], hs[n]);
    HandledUntil(hs, n);
  }

  /** The SyncResponder of one request, writing straight to the pipe. */
  method RunHandler(h: Handler, r: InvokeRequest) returns (out: seq<PluginFrame>)
    ensures out == Block(h, r)
    ensures Tells(out, r.id, h.run(r).events, [h.run(r).outcome])
  {
    out := [Started(r.id)];
    var answer := h.run(r);
    for i := 0 to |answer.events|
      invariant out == [Started(r.id)] + EventFrames(r.id, answer.events[..i])
    {
      out := out + [EventFrame(r.id, answer.events[i])];
    }
    assert answer.events[..|answer.events|] == answer.events;
    out := out + [OutcomeFrame(r.id, answer.outcome)];
  }

  method Respond(h: Handler, f: HostFrame) returns (out: seq<PluginFrame>)
    ensures out == Reply(h, f)
  {
    match f
    case RepeatedHello => out := [Error(None, DUPLICATE_HELLO_SYNC)];
    case Ping(nonce) => out := [Pong(nonce)];
    case Shutdown => out := [ShutdownAck];
    case Cancel(id) =>
      out := [];
      var hooked := h.hook(id);
      if hooked.Some? {
        out := [Error(Some(id), hooked.value)];
      }
    case Invoke(r) => out := RunHandler(h, r);
  }

  /** The answer to a request is what its handler emitted and returned, with nothing changed. */
  lemma {:induction false} ReplyTells(h: Handler, r: InvokeRequest)
    ensures Tells(Reply(h, Invoke(r)), r.id, h.run(r).events, [h.run(r).outcome])
  {
    var es := h.run(r).events;
    var block := Block(h, r);
    assert forall j :: 0 <= j < |es| ==> block[1 + j] == EventFrame(r.id, es[j]);
    assert block[1 + |es|] == OutcomeFrame(r.id, h.run(r).outcome);
  }

  /** The id a host frame is about. */
  function Subject(f: HostFrame): Option<RequestId> {
    match f
    case Invoke(r) => Some(r.id)
    case Cancel(id) => Some(id)
    case _ => None
  }

  /** A request is answered by one whole block, any other frame by at most one frame; every answer
      bears the id its host frame is about, and only Shutdown is acknowledged. */
  lemma {:induction false} ReplyShape(h: Handler, f: HostFrame)
    ensures f.Invoke? ==> ClosedBlock(Reply(h, f), f.request.id)
    ensures !f.Invoke? ==> |Reply(h, f)| <= 1
    ensures ShutdownAck in Reply(h, f) <==> f == Shutdown
    ensures forall i :: 0 <= i < |Reply(h, f)| ==> RequestIdOf(Reply(h, f)[i]) == Subject(f)
  {
    if f.Invoke? {
      var block := Block(h, f.request);
      var open := block[..|block| - 1];
      assert open == [Started(f.request.id)] + EventFrames(f.request.id, h.run(f.request).events);
      assert forall i :: 0 <= i < |open| ==> open[i] == block[i];
    }
  }

  /** `acknowledged` is false when the host stream ends first and reading it fails. */
  method ServeWorker(h: Handler, hs: seq<HostFrame>) returns (out: seq<PluginFrame>, acknowledged: bool)
    ensures out == Replies(h, Handled(hs))
    ensures acknowledged <==> Shutdown in hs
  {
    out := [];
    for i := 0 to |hs|
      invariant out == Replies(h, hs[..i])
      invariant forall j :: 0 <= j < i ==> hs[j] != Shutdown
    {
      var reply := Respond(h, hs[i]);
      RepliesNext(h, hs, i);
      out := out + reply;
      if hs[i] == Shutdown {
        return out, true;
      }
    }
    HandledUntil(hs, |hs|);
    assert hs[..|hs|] == hs;
    acknowledged := false;
  }

  // ---------- Receiving a transcript ----------

  /** What `invoke` and `finish` make of the frames they receive. */
  datatype Transcript =
    | Completed(events: seq<PluginFrame>, result: InvocationResult)
    | Refused(error: WorkerError)
    | Interrupted   // the frames ran out first

  function Receive(id: RequestId, before: seq<PluginFrame>, fs: seq<PluginFrame>): Transcript
    decreases |fs|
  {
    if fs == [] then Interrupted
    else if fs[0].Finished? && fs[0].id == id then Completed(before + [fs[0]], fs[0].result)
    else if fs[0].Error? && fs[0].errorId == Some(id) then Refused(fs[0].error)
    else Receive(id, before + [fs[0]], fs[1..])
  }

  /** Everything through the first frame that ends the invocation. */
  function UpToTerminal(fs: seq<PluginFrame>): seq<PluginFrame>
    decreases |fs|
  {
    if fs == [] then []
    else if IsTerminal(fs[0]) then [fs[0]]
    else [fs[0]] + UpToTerminal(fs[1..])
  }

  predicate HasTerminal(fs: seq<PluginFrame>) {
    exists i :: 0 <= i < |fs| && IsTerminal(fs[i])
  }

  /** How the frames of a stream end: with the stream, or with one that cannot be read. */
  datatype StreamEnd = EndOfStream | Broken(error: string)

  datatype Invoked =
    | Transcribed(id: RequestId, events: seq<PluginFrame>, result: InvocationResult)
    | WorkerRefused(error: WorkerError)
    | Incomplete(id: RequestId)
    | BrokenFrame(cause: string)

  /** The blocking client: its own loop over the frames the reader thread hands it. */
  class WorkerClient {
    var nextId: RequestId

    constructor ()
      ensures nextId == 1
    {
      nextId := 1;
    }

    /** `incoming` are the frames that can be read, and `end` what reading fails with after them. */
    method Invoke(incoming: seq<PluginFrame>, end: StreamEnd) returns (id: RequestId, r: Invoked)
      modifies this
      ensures id == old(nextId)
      ensures nextId == if old(nextId) == ID_SPACE - 1 then old(nextId) else old(nextId) + 1
      ensures match Receive(id, [], incoming)
        case Completed(events, result) => r == Transcribed(id, events, result)
        case Refused(error) => r == WorkerRefused(error)
        case Interrupted => r == if end.EndOfStream? then Incomplete(id) else BrokenFrame(end.error)
    {
      id := nextId;
      nextId := if nextId == ID_SPACE - 1 then nextId else nextId + 1;
      var t := Collect(id, incoming);
      match t
      case Completed(events, result) => r := Transcribed(id, events, result);
      case Refused(error) => r := WorkerRefused(error);
      case Interrupted => r := if end.EndOfStream? then Incomplete(id) else BrokenFrame(end.error);
    }
  }

  /** The receive loop that the blocking `invoke` and the multiplexed `finish` share. */
  method Collect(id: RequestId, incoming: seq<PluginFrame>) returns (t: Transcript)
    ensures t == Receive(id, [], incoming)
  {
    var events := [];
    var i := 0;
    while i < |incoming|
      invariant i <= |incoming|
      invariant Receive(id, [], incoming) == Receive(id, events, incoming[i..])
    {
      var frame := incoming[i];
      assert incoming[i..][1..] == incoming[i + 1..];
      if frame.Finished? && frame.id == id {
        return Completed(events + [frame], frame.result);
      }
      if frame.Error? && frame.errorId == Some(id) {
        return Refused(frame.error);
      }
      events := events + [frame];
      i := i + 1;
    }
    t := Interrupted;
  }

  /** What a transcript says of the frames it was received from. */
  ghost predicate Reports(id: RequestId, before: seq<PluginFrame>, fs: seq<PluginFrame>, t: Transcript) {
    match t
    case Completed(events, result) =>
      && HasTerminal(fs) && UpToTerminal(fs) != []
      && events == before + UpToTerminal(fs)
      && UpToTerminal(fs)[|UpToTerminal(fs)| - 1] == Finished(id, result)
    case Refused(error) =>
      && HasTerminal(fs) && UpToTerminal(fs) != []
      && UpToTerminal(fs)[|UpToTerminal(fs)| - 1] == Error(Some(id), error)
    case Interrupted => !HasTerminal(fs)
  }

  lemma {:induction false} HasTerminalFirst(fs: seq<PluginFrame>)
    requires fs != []
    ensures HasTerminal(fs) <==> IsTerminal(fs[0]) || HasTerminal(fs[1..])
  {
    if HasTerminal(fs[1..]) {
      var i :| 0 <= i < |fs[1..]| && IsTerminal(fs[1..][i]);
      assert IsTerminal(fs[i + 1]);
    }
    if HasTerminal(fs) && !IsTerminal(fs[0]) {
      var i :| 0 <= i < |fs| && IsTerminal(fs[i]);
      assert IsTerminal(fs[1..][i - 1]);
    }
  }

  lemma {:induction false} PrependLast(before: seq<PluginFrame>, f: PluginFrame, fs: seq<PluginFrame>)
    ensures before + [f] + fs == before + ([f] + fs)
    ensures fs != [] ==> ([f] + fs)[|[f] + fs| - 1] == fs[|fs| - 1]
  {
  }

  lemma {:induction false} ReportsLater(id: RequestId, before: seq<PluginFrame>, fs: seq<PluginFrame>, t: Transcript)
    requires fs != [] && !IsTerminal(fs[0]) && Reports(id, before + [fs[0]], fs[1..], t)
    ensures Reports(id, before, fs, t)
  {
    HasTerminalFirst(fs);
    PrependLast(before, fs[0], UpToTerminal(fs[1..]));
  }

  /** On frames of one id, a transcript is everything through the first terminal frame. */
  lemma {:induction false} ReceiveUpToTerminal(id: RequestId, before: seq<PluginFrame>, fs: seq<PluginFrame>)
    requires forall i :: 0 <= i < |fs| ==> RequestIdOf(fs[i]) == Some(id)
    ensures Reports(id, before, fs, Receive(id, before, fs))
    decreases |fs|
  {
    if fs != [] {
      if IsTerminal(fs[0]) {
        assert UpToTerminal(fs) == [fs[0]];
      } else {
        ReceiveUpToTerminal(id, before + [fs[0]], fs[1..]);
        ReportsLater(id, before, fs, Receive(id, before, fs));
      }
    }
  }
}
