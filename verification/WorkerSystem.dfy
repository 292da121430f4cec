/**
 Client, pipes and server together: one multiplexing client talking to one multiplexing
 server. The host's pipe is the server's inbox; the plugin's pipe is what the server
 has written and the client has not yet routed.
*/
module WorkerSystem {
  import opened Common
  import opened Protocol
  import opened SequentialWorker
  import C = AsyncClient
  import S = AsyncServer
  import T = ServerTheorems
  import A = ScheduleIndependence

  datatype System = System(client: C.Client, server: S.Server)

  const INITIAL := System(C.INITIAL, S.INITIAL)

  datatype Action =
    | ClientStep(client: C.Action)    // any but Write and Route
    | ServerStep(server: S.Action)    // any but Arrive
    | WriteInvoke(inv: nat)
    | WriteCancel(inv: nat)           // by the owner of an Invocation
    | WritePing(nonce: nat)
    | WriteShutdown
    | ReadFrame                       // the reader task takes the next frame off the pipe

  predicate Enabled(x: System, a: Action) {
    match a
    case ClientStep(ca) => !ca.Write? && !ca.Route? && C.Enabled(x.client, ca)
    case ServerStep(sa) => !sa.Arrive? && S.Enabled(x.server, sa)
    case WriteInvoke(i) => C.Enabled(x.client, C.Write(i))
    case WriteCancel(i) => C.InStage(x.client, i, C.Sent)
    case WritePing(_) => true
    case WriteShutdown => true
    case ReadFrame => |x.client.log| < |x.server.written| && x.client.reader.Idle?
  }

  /** What each side does in a step of the whole. */
  function ClientPart(x: System, a: Action): (part: seq<C.Action>)
    requires Enabled(x, a)
    ensures |part| <= 1 && (part != [] ==> C.Enabled(x.client, part[0]))
  {
    match a
    case ClientStep(ca) => [ca]
    case WriteInvoke(i) => [C.Write(i)]
    case ReadFrame => [C.Route(x.server.written[|x.client.log|])]
    case _ => []
  }

  function ServerPart(x: System, a: Action): (part: seq<S.Action>)
    requires Enabled(x, a)
    ensures |part| <= 1 && (part != [] ==> S.Enabled(x.server, part[0]))
  {
    match a
    case ServerStep(sa) => [sa]
    case WriteInvoke(i) => [S.Arrive(Invoke(x.client.invocations[i].request))]
    case WriteCancel(i) => [S.Arrive(Cancel(x.client.invocations[i].request.id))]
    case WritePing(nonce) => [S.Arrive(Ping(nonce))]
    case WriteShutdown => [S.Arrive(Shutdown)]
    case _ => []
  }

  function Apply(x: System, a: Action): System
    requires Enabled(x, a)
  {
    var cs, ss := ClientPart(x, a), ServerPart(x, a);
    System(
      if cs == [] then x.client else C.Apply(x.client, cs[0]),
      if ss == [] then x.server else S.Apply(x.server, ss[0]))
  }

  function Exec(acts: seq<Action>): Option<System> {
    if acts == [] then Some(INITIAL)
    else
      var before := Exec(acts[..|acts| - 1]);
      var a := acts[|acts| - 1];
      if before.Some? && Enabled(before.value, a) then Some(Apply(before.value, a)) else None
  }

  /** The schedule of each side within a schedule of the whole. */
  function ClientView(acts: seq<Action>): (view: seq<C.Action>)
    requires Exec(acts).Some?
    ensures C.Exec(view) == Some(Exec(acts).value.client)
  {
    if acts == [] then []
    else
      var n := |acts| - 1;
      var x := Exec(acts[..n]).value;
      var view := ClientView(acts[..n]);
      var part := ClientPart(x, acts[n]);
      if part == [] then view
      else
        assert (view + part)[..|view|] == view && (view + part)[|view|] == part[0];
        view + part
  }

  function ServerView(acts: seq<Action>): (view: seq<S.Action>)
    requires Exec(acts).Some?
    ensures S.Exec(view) == Some(Exec(acts).value.server)
  {
    if acts == [] then []
    else
      var n := |acts| - 1;
      var x := Exec(acts[..n]).value;
      var view := ServerView(acts[..n]);
      var part := ServerPart(x, acts[n]);
      if part == [] then view
      else
        assert (view + part)[..|view|] == view && (view + part)[|view|] == part[0];
        view + part
  }

  // ---------- Every frame of an id answers a host frame of that id ----------

  ghost predicate Mentions(hs: seq<HostFrame>, id: RequestId) {
    exists j :: 0 <= j < |hs| && ((hs[j].Invoke? && hs[j].request.id == id) || hs[j] == Cancel(id))
  }

  lemma {:induction false} MentionsSnoc(hs: seq<HostFrame>, h: HostFrame, id: RequestId)
    ensures Mentions(hs, id) ==> Mentions(hs + [h], id)
    ensures (h.Invoke? && h.request.id == id) || h == Cancel(id) ==> Mentions(hs + [h], id)
  {
    if Mentions(hs, id) {
      var j :| 0 <= j < |hs| && ((hs[j].Invoke? && hs[j].request.id == id) || hs[j] == Cancel(id));
      assert (hs + [h])[j] == hs[j];
    }
    assert (hs + [h])[|hs|] == h;
  }

  ghost predicate CauseInv(s: S.Server) {
    && (forall i :: 0 <= i < |s.emitted| && RequestIdOf(s.emitted[i].frame).Some? ==>
         Mentions(s.read, RequestIdOf(s.emitted[i].frame).value))
    && (forall i :: 0 <= i < |s.emitted| && (s.emitted[i].origin.FromRejection? || s.emitted[i].origin.FromHook?) ==>
         s.emitted[i].frame.Error?)
    && (forall k :: 0 <= k < |s.tasks| ==> Mentions(s.read, s.tasks[k].request.id))
    && (s.loop.Rejecting? || s.loop.Cancelling? || s.loop.Hooking? ==> Mentions(s.read, s.loop.id))
  }

  lemma {:induction false} CauseRead(s: S.Server)
    requires CauseInv(s) && S.Enabled(s, S.Read)
    ensures CauseInv(S.Apply(s, S.Read))
  {
    forall id: RequestId
      ensures Mentions(s.read, id) ==> Mentions(s.read + [s.inbox[0]], id)
    {
      MentionsSnoc(s.read, s.inbox[0], id);
    }
    if s.inbox[0].Invoke? {
      MentionsSnoc(s.read, s.inbox[0], s.inbox[0].request.id);
    } else if s.inbox[0].Cancel? {
      MentionsSnoc(s.read, s.inbox[0], s.inbox[0].id);
    }
  }

  /** At most one frame is sent, of a task or of what the loop is dealing with. */
  lemma {:induction false} CauseSent(s: S.Server, s': S.Server)
    requires CauseInv(s) && s'.read == s.read && |s'.tasks| == |s.tasks|
    requires forall k :: 0 <= k < |s.tasks| ==> s'.tasks[k].request == s.tasks[k].request
    requires s'.loop.Rejecting? || s'.loop.Cancelling? || s'.loop.Hooking? ==>
      (s.loop.Rejecting? || s.loop.Cancelling? || s.loop.Hooking?) && s'.loop.id == s.loop.id
    requires s'.emitted == s.emitted || (
      && |s'.emitted| == |s.emitted| + 1 && s'.emitted == s.emitted + [s'.emitted[|s.emitted|]]
      && var e := s'.emitted[|s.emitted|];
      && (e.origin.FromRejection? || e.origin.FromHook? ==> e.frame.Error?)
      && (RequestIdOf(e.frame).Some? ==> Mentions(s.read, RequestIdOf(e.frame).value)))
    ensures CauseInv(s')
  {
  }

  lemma {:induction false} CauseStep(s: S.Server, a: S.Action)
    requires CauseInv(s) && S.Enabled(s, a)
    ensures CauseInv(S.Apply(s, a))
  {
    if a.Read? {
      CauseRead(s);
    } else {
      var s' := S.Apply(s, a);
      assert forall k :: 0 <= k < |s.tasks| ==> s'.tasks[k].request == s.tasks[k].request;
      assert s'.emitted == s.emitted || s'.emitted == s.emitted + [s'.emitted[|s.emitted|]];
      CauseSent(s, s');
    }
  }

  lemma {:induction false} CauseInvariant(acts: seq<S.Action>)
    requires S.Exec(acts).Some?
    ensures CauseInv(S.Exec(acts).value)
  {
    if acts != [] {
      CauseInvariant(acts[..|acts| - 1]);
      CauseStep(S.Exec(acts[..|acts| - 1]).value, acts[|acts| - 1]);
    }
  }

  // ---------- What ties the two sides together ----------

  /** The invocation that was given an id. */
  function Index(id: RequestId): nat {
    (id + ID_SPACE - 1) % ID_SPACE
  }

  predicate WasSent(c: C.Client, id: RequestId) {
    && Index(id) < |c.invocations|
    && c.invocations[Index(id)].stage.Sent?
    && c.invocations[Index(id)].request.id == id
  }

  /** A host frame about something sent. */
  predicate Grounded(c: C.Client, h: HostFrame) {
    && (h.Invoke? ==> WasSent(c, h.request.id) && c.invocations[Index(h.request.id)].request == h.request)
    && (h.Cancel? ==> WasSent(c, h.id))
  }

  /** The client writes each request once, and cancels only what it wrote. */
  ghost predicate HostInv(x: System) {
    var hs := x.server.read + x.server.inbox;
    && (forall j :: 0 <= j < |hs| ==> Grounded(x.client, hs[j]))
    && DistinctIds(Invokes(hs))
  }

  /** The reader holds the last frame it took off the pipe. */
  ghost predicate ReaderInv(x: System) {
    && x.client.log <= x.server.written
    && (x.client.reader.Routing? ==> x.client.log != [] && x.client.log[|x.client.log| - 1] == x.client.reader.frame)
    && (x.client.reader.Forgetting? ==>
         x.client.log != [] && RequestIdOf(x.client.log[|x.client.log| - 1]) == Some(x.client.reader.id))
  }

  /** Registration comes before the first frame of an id, so none is missed. */
  ghost predicate EarlyInv(x: System) {
    forall i :: 0 <= i < |x.client.invocations| ==>
      var v := x.client.invocations[i];
      && !v.stale
      && v.since <= |x.client.log|
      && forall j :: 0 <= j < v.since ==> RequestIdOf(x.client.log[j]) != Some(v.request.id)
  }

  ghost predicate SystemInv(x: System) {
    HostInv(x) && ReaderInv(x) && EarlyInv(x)
  }

  lemma {:induction false} InvokesMember(hs: seq<HostFrame>, r: InvokeRequest)
    requires r in Invokes(hs)
    ensures exists j :: 0 <= j < |hs| && hs[j] == Invoke(r)
  {
    var n := |hs| - 1;
    if hs[n] != Invoke(r) {
      InvokesMember(hs[..n], r);
      var j :| 0 <= j < |hs[..n]| && hs[..n][j] == Invoke(r);
      assert hs[j] == Invoke(r);
    }
  }

  lemma {:induction false} DistinctSnoc(rs: seq<InvokeRequest>, r: InvokeRequest)
    requires DistinctIds(rs) && forall i :: 0 <= i < |rs| ==> rs[i].id != r.id
    ensures DistinctIds(rs + [r])
  {
  }

  lemma {:induction false} ArriveDistinct(x: System, r: InvokeRequest)
    requires HostInv(x) && !WasSent(x.client, r.id)
    ensures DistinctIds(Invokes(x.server.read + x.server.inbox) + [r])
  {
    var hs := x.server.read + x.server.inbox;
    forall i | 0 <= i < |Invokes(hs)| ensures Invokes(hs)[i].id != r.id {
      InvokesMember(hs, Invokes(hs)[i]);
    }
    DistinctSnoc(Invokes(hs), r);
  }

  lemma {:induction false} ArriveHost(x: System, x': System, h: HostFrame)
    requires HostInv(x) && x'.server == x.server.(inbox := x.server.inbox + [h])
    requires forall f :: Grounded(x.client, f) ==> Grounded(x'.client, f)
    requires Grounded(x'.client, h) && (h.Invoke? ==> !WasSent(x.client, h.request.id))
    ensures HostInv(x')
  {
    var hs := x.server.read + x.server.inbox;
    assert x'.server.read + x'.server.inbox == hs + [h];
    A.InvokesSnoc(hs, h);
    if h.Invoke? {
      ArriveDistinct(x, h.request);
    } else {
      assert Invokes(hs + [h]) == Invokes(hs);
    }
  }

  /** Steps of the server alone. */
  lemma {:induction false} ServerSide(x: System, a: S.Action)
    requires SystemInv(x) && S.Enabled(x.server, a) && !a.Arrive?
    ensures SystemInv(x.(server := S.Apply(x.server, a)))
  {
    var s, s' := x.server, S.Apply(x.server, a);
    assert s'.read + s'.inbox == s.read + s.inbox;
    assert s.written <= s'.written;
  }

  /** The client's records of what it has sent never change. */
  lemma {:induction false} SentStays(c: C.Client, a: C.Action)
    requires C.Enabled(c, a)
    ensures |C.Apply(c, a).invocations| >= |c.invocations|
    ensures forall i :: 0 <= i < |c.invocations| ==>
      && C.Apply(c, a).invocations[i].request == c.invocations[i].request
      && (c.invocations[i].stage.Sent? ==> C.Apply(c, a).invocations[i].stage.Sent?)
  {
  }

  lemma {:induction false} ClientHost(x: System, a: C.Action)
    requires HostInv(x) && C.Enabled(x.client, a)
    ensures HostInv(x.(client := C.Apply(x.client, a)))
  {
    SentStays(x.client, a);
  }

  lemma {:induction false} MentionedWasSent(x: System, id: RequestId)
    requires HostInv(x) && Mentions(x.server.read, id)
    ensures WasSent(x.client, id)
  {
    var hs := x.server.read + x.server.inbox;
    var m :| 0 <= m < |x.server.read|
      && ((x.server.read[m].Invoke? && x.server.read[m].request.id == id) || x.server.read[m] == Cancel(id));
    assert Grounded(x.client, hs[m]) && hs[m] == x.server.read[m];
  }

  /** Nothing of an unsent id is anywhere on its way. */
  lemma {:induction false} Unsent(x: System, i: nat)
    requires SystemInv(x) && C.IdInv(x.client) && |x.client.invocations| <= ID_SPACE
    requires CauseInv(x.server) && S.TraceInv(x.server)
    requires i < |x.client.invocations| && !x.client.invocations[i].stage.Sent?
    ensures forall j :: 0 <= j < |x.client.log| ==>
      RequestIdOf(x.client.log[j]) != Some(x.client.invocations[i].request.id)
  {
    var id := x.client.invocations[i].request.id;
    assert Index(id) == i;
    if Mentions(x.server.read, id) {
      MentionedWasSent(x, id);
    }
    forall j | 0 <= j < |x.client.log| ensures RequestIdOf(x.client.log[j]) != Some(id) {
      assert x.client.log[j] == S.Frames(x.server.emitted)[j] == x.server.emitted[j].frame;
    }
  }

  lemma {:induction false} ClientSide(x: System, a: C.Action)
    requires SystemInv(x) && C.ClientInv(x.client) && |x.client.invocations| <= ID_SPACE
    requires CauseInv(x.server) && S.TraceInv(x.server)
    requires C.Enabled(x.client, a) && !a.Write? && !a.Route?
    ensures SystemInv(x.(client := C.Apply(x.client, a)))
  {
    ClientHost(x, a);
    ClientReader(x, a);
    if a.Register? {
      Unsent(x, a.inv);
    }
    ClientEarly(x, a);
  }

  lemma {:induction false} ClientReader(x: System, a: C.Action)
    requires ReaderInv(x) && C.Enabled(x.client, a) && !a.Write? && !a.Route?
    ensures ReaderInv(x.(client := C.Apply(x.client, a)))
  {
  }

  lemma {:induction false} ClientEarly(x: System, a: C.Action)
    requires EarlyInv(x) && ReaderInv(x) && C.Enabled(x.client, a) && !a.Write? && !a.Route?
    requires a.Register? ==> var id := x.client.invocations[a.inv].request.id;
      forall j :: 0 <= j < |x.client.log| ==> RequestIdOf(x.client.log[j]) != Some(id)
    ensures EarlyInv(x.(client := C.Apply(x.client, a)))
  {
  }

  lemma {:induction false} RouteSide(x: System)
    requires SystemInv(x) && Enabled(x, ReadFrame)
    ensures SystemInv(Apply(x, ReadFrame))
  {
    var f := x.server.written[|x.client.log|];
    ClientHost(x, C.Route(f));
    var x' := Apply(x, ReadFrame);
    assert x'.client.log == x.client.log + [f];
    assert x'.client.invocations == x.client.invocations;
  }

  lemma {:induction false} InvokeSide(x: System, i: nat)
    requires SystemInv(x) && C.ClientInv(x.client) && |x.client.invocations| <= ID_SPACE && Enabled(x, WriteInvoke(i))
    ensures SystemInv(Apply(x, WriteInvoke(i)))
  {
    var x' := Apply(x, WriteInvoke(i));
    var r := x.client.invocations[i].request;
    assert Index(r.id) == i;
    assert forall f :: Grounded(x.client, f) ==> Grounded(x'.client, f);
    ArriveHost(x, x', Invoke(r));
    assert EarlyInv(x');
  }

  lemma {:induction false} WriteSide(x: System, a: Action)
    requires SystemInv(x) && C.ClientInv(x.client) && |x.client.invocations| <= ID_SPACE
    requires Enabled(x, a) && (a.WriteInvoke? || a.WriteCancel? || a.WritePing? || a.WriteShutdown?)
    ensures SystemInv(Apply(x, a))
  {
    var x' := Apply(x, a);
    match a {
      case WriteInvoke(i) => InvokeSide(x, i);
      case WriteCancel(i) =>
        assert Index(x.client.invocations[i].request.id) == i;
        ArriveHost(x, x', Cancel(x.client.invocations[i].request.id));
      case WritePing(nonce) => ArriveHost(x, x', Ping(nonce));
      case WriteShutdown => ArriveHost(x, x', Shutdown);
    }
  }

  lemma {:induction false} SystemStep(x: System, a: Action)
    requires SystemInv(x) && C.ClientInv(x.client) && |x.client.invocations| <= ID_SPACE
    requires CauseInv(x.server) && S.TraceInv(x.server) && Enabled(x, a)
    ensures SystemInv(Apply(x, a))
  {
    match a
    case ClientStep(ca) => ClientSide(x, ca);
    case ServerStep(sa) => ServerSide(x, sa);
    case ReadFrame => RouteSide(x);
    case _ => WriteSide(x, a);
  }

  lemma {:induction false} SystemInvariant(acts: seq<Action>)
    requires Exec(acts).Some? && |Exec(acts).value.client.invocations| <= ID_SPACE
    ensures SystemInv(Exec(acts).value)
  {
    if acts != [] {
      var n := |acts| - 1;
      var x := Exec(acts[..n]).value;
      if ClientPart(x, acts[n]) != [] {
        SentStays(x.client, ClientPart(x, acts[n])[0]);
      }
      SystemInvariant(acts[..n]);
      C.ClientInvariant(ClientView(acts[..n]));
      T.ServerInvariant(ServerView(acts[..n]));
      CauseInvariant(ServerView(acts[..n]));
      SystemStep(x, acts[n]);
    }
  }
}
