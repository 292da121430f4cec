/**
 * The opening exchange of a worker session: the client checks of
 * crates/outboard-tokio/src/lib.rs and crates/outboard/src/worker.rs, which agree, and
 * the server's `validate_hello`.
 */
module Handshake {
  import opened Common
  import opened Manifest
  import opened Discovery
  import opened Resolution

  /** The protocol versions a host accepts. */
  const HOST_PROTOCOL := VersionReq("^1.0")

  datatype HostHello = HostHello(framework: Version, protocol: Version, requested: seq<InterfaceRequirement>)

  datatype PluginHello = PluginHello(protocol: Version, manifest: Manifest)

  /** The first frame each side reads; NoFrame is a closed stream, an unreadable frame or a timeout. */
  datatype HostOpening = HostGreets(hello: HostHello) | OtherHostFrame | NoHostFrame
  datatype PluginOpening = PluginGreets(hello: PluginHello) | OtherPluginFrame | NoPluginFrame

  datatype ServerError =
    | NoHello
    | ExpectedHostHello
    | FrameworkRefused(host: Version, accepted: VersionReq)
    | ProtocolRefused(host: Version, accepted: VersionReq)
    | InterfaceAbsent(id: string)
    | InterfaceRefused(id: string, required: VersionReq, provided: Version)

  datatype ClientError =
    | WorkerNotSupported
    | NoAnswer
    | ExpectedPluginHello
    | ManifestChanged
    | ProtocolNotAccepted(actual: Version)

  /** Every interface of a list is provided in a version that satisfies its requirement. */
  predicate AllMet(matches: Matches, m: Manifest, rs: seq<InterfaceRequirement>) {
    forall i :: 0 <= i < |rs| ==> InterfaceMet(matches, m, rs[i])
  }

  predicate HelloOk(matches: Matches, m: Manifest, h: HostHello) {
    matches(m.framework, h.framework) && matches(m.workerProtocol, h.protocol) && AllMet(matches, m, h.requested)
  }

  /** Whether a refusal of requirement `r` says what is wrong with it. */
  predicate Explains(matches: Matches, m: Manifest, r: InterfaceRequirement, e: ServerError) {
    match FindInterface(m.interfaces, r.id)
    case None => e == InterfaceAbsent(r.id)
    case Some(i) => !matches(r.version, i.version) && e == InterfaceRefused(r.id, r.version, i.version)
  }

  /** `validate_hello`: the first check that fails is the one reported. */
  method ValidateHello(matches: Matches, m: Manifest, h: HostHello) returns (r: Result<(), ServerError>)
    ensures r.Ok? <==> HelloOk(matches, m, h)
    ensures r == Err(FrameworkRefused(h.framework, m.framework)) <==> !matches(m.framework, h.framework)
    ensures r == Err(ProtocolRefused(h.protocol, m.workerProtocol)) <==>
      matches(m.framework, h.framework) && !matches(m.workerProtocol, h.protocol)
    ensures matches(m.framework, h.framework) && matches(m.workerProtocol, h.protocol) && r.Err? ==>
      exists k :: 0 <= k < |h.requested| && AllMet(matches, m, h.requested[..k])
        && Explains(matches, m, h.requested[k], r.error)
  {
    if !matches(m.framework, h.framework) {
      return Err(FrameworkRefused(h.framework, m.framework));
    }
    if !matches(m.workerProtocol, h.protocol) {
      return Err(ProtocolRefused(h.protocol, m.workerProtocol));
    }
    for k := 0 to |h.requested|
      invariant AllMet(matches, m, h.requested[..k])
    {
      var requirement := h.requested[k];
      var found := FindInterface(m.interfaces, requirement.id);
      if found.None? {
        assert Explains(matches, m, h.requested[k], InterfaceAbsent(requirement.id));
        return Err(InterfaceAbsent(requirement.id));
      }
      if !matches(requirement.version, found.value.version) {
        var refusal := InterfaceRefused(requirement.id, requirement.version, found.value.version);
        assert Explains(matches, m, h.requested[k], refusal);
        return Err(refusal);
      }
    }
    assert h.requested[..|h.requested|] == h.requested;
    r := Ok(());
  }

  /** The start of `serve_worker`, in a server built with protocol version `own`. */
  method Greet(matches: Matches, m: Manifest, own: Version, first: HostOpening)
    returns (r: Result<PluginHello, ServerError>)
    ensures r == Ok(PluginHello(own, m)) || r.Err?
    ensures r.Ok? <==> first.HostGreets? && HelloOk(matches, m, first.hello)
    ensures first.NoHostFrame? <==> r == Err(NoHello)
    ensures first.OtherHostFrame? <==> r == Err(ExpectedHostHello)
  {
    match first
    case NoHostFrame => r := Err(NoHello);
    case OtherHostFrame => r := Err(ExpectedHostHello);
    case HostGreets(hello) =>
      var valid := ValidateHello(matches, m, hello);
      r := if valid.Ok? then Ok(PluginHello(own, m)) else Err(valid.error);
  }

  function HelloFor(requested: seq<InterfaceRequirement>): HostHello {
    HostHello(FRAMEWORK_VERSION, PROTOCOL_VERSION, requested)
  }

  /** What the client makes of the worker's first frame. */
  method CheckAnswer(matches: Matches, plugin: Manifest, answer: PluginOpening) returns (r: Result<Manifest,
                     ClientError>)
    ensures r.Ok? <==>
      answer.PluginGreets? && answer.hello.manifest == plugin && matches(HOST_PROTOCOL, answer.hello.protocol)
    ensures r.Ok? ==> r.value == plugin
    ensures r == Err(ManifestChanged) <==> answer.PluginGreets? && answer.hello.manifest != plugin
    ensures r.Err? && r.error.ProtocolNotAccepted? ==> answer.PluginGreets? && r.error.actual == answer.hello.protocol
    ensures r == Err(NoAnswer) <==> answer.NoPluginFrame?
    ensures r == Err(ExpectedPluginHello) <==> answer.OtherPluginFrame?
    ensures r != Err(WorkerNotSupported)
  {
    match answer
    case NoPluginFrame => r := Err(NoAnswer);
    case OtherPluginFrame => r := Err(ExpectedPluginHello);
    case PluginGreets(hello) =>
      if hello.manifest != plugin {
        r := Err(ManifestChanged);
      } else if !matches(HOST_PROTOCOL, hello.protocol) {
        r := Err(ProtocolNotAccepted(hello.protocol));
      } else {
        r := Ok(hello.manifest);
      }
  }

  /** Everything the two sides check between them. */
  predicate Opens(matches: Matches, plugin: Manifest, requested: seq<InterfaceRequirement>, served: Manifest,
                  own: Version) {
    && Supports(plugin, Worker) && served == plugin && matches(HOST_PROTOCOL, own)
    && matches(plugin.framework, FRAMEWORK_VERSION) && matches(plugin.workerProtocol, PROTOCOL_VERSION)
    && AllMet(matches, plugin, requested)
  }

  /**
   * `spawn_with_interfaces` against a worker of protocol version `own` that serves
   * `served`. A server that refuses the hello ends, and the client sees its stream close.
   */
  method Spawn(matches: Matches, plugin: Manifest, requested: seq<InterfaceRequirement>, served: Manifest, own: Version)
    returns (r: Result<Manifest, ClientError>)
    ensures r.Ok? <==> Opens(matches, plugin, requested, served, own)
    ensures r.Ok? ==> r.value == plugin
    ensures r == Err(WorkerNotSupported) <==> !Supports(plugin, Worker)
    ensures r == Err(NoAnswer) <==> Supports(plugin, Worker) && !HelloOk(matches, served, HelloFor(requested))
  {
    if !Supports(plugin, Worker) {
      return Err(WorkerNotSupported);
    }
    var greeting := Greet(matches, served, own, HostGreets(HelloFor(requested)));
    r := CheckAnswer(matches, plugin, if greeting.Ok? then PluginGreets(greeting.value) else NoPluginFrame);
  }

  /**
   * The worker session of a resolved plugin opens, against a server of the host's own
   * versions that serves the manifest resolved, exactly when the manifest offers worker
   * execution, accepts the protocol and provides everything requested. The framework and
   * manifest checks never fail.
   */
  lemma {:induction false} ResolvedHandshake(q: Query, selected: seq<Candidate>, c: Candidate,
                                             requested: seq<InterfaceRequirement>)
    requires q.matches(HOST_PROTOCOL, PROTOCOL_VERSION)
    requires Best(q, selected, c)
    ensures var m := q.inspect(c).value;
      Opens(q.matches, m, requested, m, PROTOCOL_VERSION) <==>
        Supports(m, Worker) && q.matches(m.workerProtocol, PROTOCOL_VERSION) && AllMet(q.matches, m, requested)
    ensures q.req.execution == Some(Worker) ==>
      var m := q.inspect(c).value;
      Opens(q.matches, m, requested, m, PROTOCOL_VERSION) <==> AllMet(q.matches, m, requested)
    ensures q.req.execution == Some(Worker) && q.req.iface.Some? ==>
      var m := q.inspect(c).value;
      Opens(q.matches, m, [q.req.iface.value], m, PROTOCOL_VERSION)
  {
    assert Accepts(q, c);
  }
}
