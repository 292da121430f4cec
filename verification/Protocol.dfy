/** Worker wire types (crates/outboard-protocol/src/lib.rs). */
module Protocol {
  import opened Common

  const ID_SPACE: nat := 0x1_0000_0000_0000_0000

  /** `u64`. */
  type RequestId = n: nat | n < ID_SPACE

  datatype WorkerError = WorkerError(code: string, message: string, details: Option<Json>)

  datatype WireOsString = Utf8(scalars: seq<nat>) | Unix(bytes: seq<Byte>) | Windows(units: seq<nat>)

  datatype Payload = JsonPayload(json: Json) | Text(text: string) | Bytes(bytes: seq<Byte>) | File(path: WireOsString)

  datatype InvocationResult = InvocationResult(status: int, result: Option<Payload>, metadata: map<string, Json>)

  datatype InvokeRequest = InvokeRequest(
    id: RequestId, interface_: string, command: string, args: seq<WireOsString>, metadata: map<string, Json>)

  /** Frames after the handshake. The contents of a repeated hello are never looked at. */
  datatype HostFrame =
    | RepeatedHello
    | Invoke(request: InvokeRequest)
    | Cancel(id: RequestId)
    | Ping(nonce: nat)
    | Shutdown

  datatype PluginFrame =
    | RepeatedPluginHello
    | Started(id: RequestId)
    | Progress(id: RequestId, fraction: Option<real>, message: Option<string>)
    | Output(id: RequestId, payload: Payload)
    | Finished(id: RequestId, result: InvocationResult)
    | Error(errorId: Option<RequestId>, error: WorkerError)
    | Pong(nonce: nat)
    | ShutdownAck

  function RequestIdOf(f: PluginFrame): Option<RequestId> {
    match f
    case Started(id) => Some(id)
    case Progress(id, _, _) => Some(id)
    case Output(id, _) => Some(id)
    case Finished(id, _) => Some(id)
    case Error(id, _) => id
    case _ => None
  }

  /** What the client's reader treats as the end of an invocation. */
  predicate IsTerminal(f: PluginFrame) {
    f.Finished? || f.Error?
  }

  predicate IsEventOf(f: PluginFrame, id: RequestId) {
    (f.Progress? || f.Output?) && f.id == id
  }

  predicate IsTerminalOf(f: PluginFrame, id: RequestId) {
    IsTerminal(f) && RequestIdOf(f) == Some(id)
  }

  /** Started (Progress|Output)*, the terminal frame still to come. */
  predicate OpenBlock(fs: seq<PluginFrame>, id: RequestId) {
    && |fs| >= 1
    && fs[0] == Started(id)
    && forall i :: 1 <= i < |fs| ==> IsEventOf(fs[i], id)
  }

  /** Started (Progress|Output)* (Finished|Error). */
  predicate ClosedBlock(fs: seq<PluginFrame>, id: RequestId) {
    && |fs| >= 2
    && OpenBlock(fs[..|fs| - 1], id)
    && IsTerminalOf(fs[|fs| - 1], id)
  }

  /** The frames that bear an id, or that bear none. */
  function WithIdIn(fs: seq<PluginFrame>, id: Option<RequestId>): seq<PluginFrame> {
    if fs == [] then []
    else
      var f := fs[|fs| - 1];
      WithIdIn(fs[..|fs| - 1], id) + if RequestIdOf(f) == id then [f] else []
  }

  lemma {:induction false} WithIdConcat(a: seq<PluginFrame>, b: seq<PluginFrame>, id: Option<RequestId>)
    ensures WithIdIn(a + b, id) == WithIdIn(a, id) + WithIdIn(b, id)
  {
    if b == [] {
      assert a + b == a;
    } else {
      var n := |b| - 1;
      assert (a + b)[..|a + b| - 1] == a + b[..n];
      WithIdConcat(a, b[..n], id);
    }
  }

  lemma {:induction false} WithIdUniform(fs: seq<PluginFrame>, id: Option<RequestId>, own: Option<RequestId>)
    requires forall i :: 0 <= i < |fs| ==> RequestIdOf(fs[i]) == own
    ensures WithIdIn(fs, id) == if id == own then fs else []
  {
    if fs != [] {
      WithIdUniform(fs[..|fs| - 1], id, own);
    }
  }

  lemma {:induction false} WithIdSnoc(fs: seq<PluginFrame>, f: PluginFrame, id: Option<RequestId>)
    ensures WithIdIn(fs + [f], id) == WithIdIn(fs, id) + if RequestIdOf(f) == id then [f] else []
  {
    assert (fs + [f])[..|fs|] == fs;
  }

  /** What a handler may emit through its context, and what it returns. */
  datatype Event = ProgressEvent(fraction: Option<real>, message: Option<string>) | OutputEvent(payload: Payload)

  type Outcome = Result<InvocationResult, WorkerError>

  function EventFrame(id: RequestId, e: Event): PluginFrame {
    match e
    case ProgressEvent(fraction, message) => Progress(id, fraction, message)
    case OutputEvent(payload) => Output(id, payload)
  }

  function OutcomeFrame(id: RequestId, o: Outcome): PluginFrame {
    match o
    case Ok(result) => Finished(id, result)
    case Err(error) => Error(Some(id), error)
  }

  /** A frame carries what a handler emitted. */
  predicate Shows(f: PluginFrame, id: RequestId, e: Event) {
    match e
    case ProgressEvent(fraction, message) =>
      f.Progress? && f.id == id && f.fraction == fraction && f.message == message
    case OutputEvent(payload) => f.Output? && f.id == id && f.payload == payload
  }

  /** A frame carries what a handler returned. */
  predicate Concludes(f: PluginFrame, id: RequestId, o: Outcome) {
    match o
    case Ok(result) => f.Finished? && f.id == id && f.result == result
    case Err(error) => f.Error? && f.errorId == Some(id) && f.error == error
  }

  /** Started, one frame for each event of a handler, and one for what it returned, if it has. */
  predicate Tells(fs: seq<PluginFrame>, id: RequestId, es: seq<Event>, os: seq<Outcome>) {
    && |fs| == 1 + |es| + |os| && |os| <= 1
    && fs[0].Started? && fs[0].id == id
    && (forall j :: 0 <= j < |es| ==> Shows(fs[1 + j], id, es[j]))
    && (os != [] ==> Concludes(fs[1 + |es|], id, os[0]))
  }

  /** The requests of the Invoke frames of a host stream, in order. */
  function Invokes(hs: seq<HostFrame>): seq<InvokeRequest> {
    if hs == [] then []
    else
      var h := hs[|hs| - 1];
      Invokes(hs[..|hs| - 1]) + if h.Invoke? then [h.request] else []
  }

  predicate DistinctIds(rs: seq<InvokeRequest>) {
    forall i, j :: 0 <= i < j < |rs| ==> rs[i].id != rs[j].id
  }

  const DUPLICATE_REQUEST := WorkerError("duplicate_request", "request id is already active", None)
  const DUPLICATE_HELLO_ASYNC := WorkerError("duplicate_hello", "hello may only be sent once", None)
  const DUPLICATE_HELLO_SYNC := WorkerError("duplicate_hello", "host hello may only be sent once", None)
}
