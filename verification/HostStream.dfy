/**
 What the callers of the client do, and what of it reaches the server: the host's pipe holds
 one frame for each thing written, and a task is cancelled for its own cancellation only.
*/
module HostStream {
  import opened Common
  import opened Protocol
  import opened SequentialWorker
  import opened WorkerSystem
  import opened EndToEnd
  import C = AsyncClient
  import S = AsyncServer
  import T = ServerTheorems
  import A = ScheduleIndependence
  import B = ServerAccount

  // ---------- Frame by frame ----------

  predicate IsWrite(a: Action) {
    a.WriteInvoke? || a.WriteCancel? || a.WritePing? || a.WriteShutdown?
  }

  /** What is written to the host's pipe in a run, in order. */
  function Writes(acts: seq<Action>): seq<Action> {
    if acts == [] then []
    else
      var a := acts[|acts| - 1];
      Writes(acts[..|acts| - 1]) + if IsWrite(a) then [a] else []
  }

  /** The host's pipe from its beginning: what the server has read and what it has not. */
  function HostPipe(x: System): seq<HostFrame> {
    x.server.read + x.server.inbox
  }

  /** A frame on the pipe is the one written. */
  predicate Means(c: C.Client, a: Action, h: HostFrame) {
    match a
    case WriteInvoke(i) => i < |c.invocations| && h.Invoke? && h.request == c.invocations[i].request
    case WriteCancel(i) => i < |c.invocations| && h.Cancel? && h.id == c.invocations[i].request.id
    case WritePing(nonce) => h.Ping? && h.nonce == nonce
    case WriteShutdown => h.Shutdown?
    case _ => false
  }

  ghost predicate PipeInv(x: System, writes: seq<Action>) {
    |HostPipe(x)| == |writes| && forall j :: 0 <= j < |writes| ==> Means(x.client, writes[j], HostPipe(x)[j])
  }

  ghost predicate RequestsKept(c: C.Client, c': C.Client) {
    && |c.invocations| <= |c'.invocations|
    && forall i :: 0 <= i < |c.invocations| ==> c'.invocations[i].request == c.invocations[i].request
  }

  lemma {:induction false} ClientKeepsRequests(c: C.Client, a: C.Action)
    requires C.Enabled(c, a)
    ensures RequestsKept(c, C.Apply(c, a))
  {
  }

  lemma {:induction false} RequestsStay(x: System, a: Action)
    requires Enabled(x, a)
    ensures RequestsKept(x.client, Apply(x, a).client)
  {
    var part := ClientPart(x, a);
    if part != [] {
      ClientKeepsRequests(x.client, part[0]);
    }
  }

  lemma {:induction false} ServerPipeGrows(s: S.Server, a: S.Action)
    requires S.Enabled(s, a)
    ensures var s' := S.Apply(s, a);
      s'.read + s'.inbox == s.read + s.inbox + if a.Arrive? then [a.frame] else []
  {
    if a.Read? {
      assert s.inbox == [s.inbox[0]] + s.inbox[1..];
    }
  }

  lemma {:induction false} PipeGrows(x: System, a: Action)
    requires Enabled(x, a)
    ensures var hs, hs' := HostPipe(x), HostPipe(Apply(x, a));
      if IsWrite(a) then |hs'| == |hs| + 1 && hs'[..|hs|] == hs && Means(x.client, a, hs'[|hs|]) else hs' == hs
  {
    var part := ServerPart(x, a);
    if part != [] {
      ServerPipeGrows(x.server, part[0]);
    }
  }

  lemma {:induction false} PipeStep(x: System, writes: seq<Action>, a: Action)
    requires PipeInv(x, writes) && Enabled(x, a)
    ensures PipeInv(Apply(x, a), writes + if IsWrite(a) then [a] else [])
  {
    RequestsStay(x, a);
    PipeGrows(x, a);
    var ws, hs, hs' := writes + (if IsWrite(a) then [a] else []), HostPipe(x), HostPipe(Apply(x, a));
    forall j | 0 <= j < |ws| ensures Means(Apply(x, a).client, ws[j], hs'[j]) {
      if j < |writes| {
        assert Means(x.client, writes[j], hs[j]) && hs'[j] == hs[j];
      }
    }
  }

  /** At every step of every run, what is on the host's pipe, read or not, is what was written to
      it, frame by frame: the request of the invocation sent, the id of the one cancelled. */
  lemma {:induction false} PipeHoldsWhatWasWritten(acts: seq<Action>)
    requires Exec(acts).Some?
    ensures PipeInv(Exec(acts).value, Writes(acts))
  {
    if acts != [] {
      var n := |acts| - 1;
      PipeHoldsWhatWasWritten(acts[..n]);
      PipeStep(Exec(acts[..n]).value, Writes(acts[..n]), acts[n]);
    }
  }

  lemma {:induction false} WritesMembers(acts: seq<Action>, a: Action)
    requires IsWrite(a)
    ensures a in Writes(acts) <==> a in acts
  {
    if acts != [] {
      var n := |acts| - 1;
      WritesMembers(acts[..n], a);
      assert acts == acts[..n] + [acts[n]];
    }
  }

  /** Whatever was written is on the pipe. */
  lemma {:induction false} WrittenIsOnThePipe(acts: seq<Action>, a: Action) returns (j: nat)
    requires Exec(acts).Some? && IsWrite(a) && a in acts
    ensures var x := Exec(acts).value; j < |HostPipe(x)| && Means(x.client, a, HostPipe(x)[j])
  {
    PipeHoldsWhatWasWritten(acts);
    WritesMembers(acts, a);
    j :| 0 <= j < |Writes(acts)| && Writes(acts)[j] == a;
  }

  /** And whatever is on the pipe was written. */
  lemma {:induction false} OnThePipeIsWritten(acts: seq<Action>, j: nat) returns (a: Action)
    requires Exec(acts).Some? && j < |HostPipe(Exec(acts).value)|
    ensures var x := Exec(acts).value; IsWrite(a) && a in acts && Means(x.client, a, HostPipe(x)[j])
  {
    PipeHoldsWhatWasWritten(acts);
    a := Writes(acts)[j];
    assert Means(Exec(acts).value.client, a, HostPipe(Exec(acts).value)[j]);
    WritesMembers(acts, a);
  }

  // ---------- The requests sent ----------

  /** The invocations written, in order. */
  function Invoked(acts: seq<Action>): seq<nat> {
    if acts == [] then []
    else
      var a := acts[|acts| - 1];
      Invoked(acts[..|acts| - 1]) + if a.WriteInvoke? then [a.inv] else []
  }

  /** The requests on the pipe are those of exactly the invocations sent, each once, in the order of sending. */
  ghost predicate SentInv(x: System, invoked: seq<nat>) {
    var c, rs := x.client, Invokes(HostPipe(x));
    && |rs| == |invoked|
    && (forall j :: 0 <= j < |invoked| ==> invoked[j] < |c.invocations| && rs[j] == c.invocations[invoked[j]].request)
    && (forall i :: 0 <= i < |c.invocations| ==> (c.invocations[i].stage.Sent? <==> i in invoked))
    && (forall j, k :: 0 <= j < k < |invoked| ==> invoked[j] != invoked[k])
  }

  lemma {:induction false} ClientStages(c: C.Client, a: C.Action)
    requires C.Enabled(c, a)
    ensures var c' := C.Apply(c, a);
      && |c.invocations| <= |c'.invocations|
      && (forall i :: |c.invocations| <= i < |c'.invocations| ==> !c'.invocations[i].stage.Sent?)
      && (forall i :: 0 <= i < |c.invocations| ==>
           (c'.invocations[i].stage.Sent? <==> c.invocations[i].stage.Sent? || a == C.Write(i)))
  {
  }

  lemma {:induction false} SentStages(x: System, a: Action)
    requires Enabled(x, a)
    ensures var c, c' := x.client, Apply(x, a).client;
      && |c.invocations| <= |c'.invocations|
      && (forall i :: |c.invocations| <= i < |c'.invocations| ==> !c'.invocations[i].stage.Sent?)
      && (forall i :: 0 <= i < |c.invocations| ==>
           (c'.invocations[i].stage.Sent? <==> c.invocations[i].stage.Sent? || a == WriteInvoke(i)))
      && (a.WriteInvoke? ==> a.inv < |c.invocations| && !c.invocations[a.inv].stage.Sent?)
  {
    var part := ClientPart(x, a);
    if part != [] {
      ClientStages(x.client, part[0]);
    }
  }

  lemma {:induction false} SentRequests(x: System, a: Action)
    requires Enabled(x, a)
    ensures Invokes(HostPipe(Apply(x, a)))
         == Invokes(HostPipe(x)) + if a.WriteInvoke? then [x.client.invocations[a.inv].request] else []
  {
    PipeGrows(x, a);
    var hs, hs' := HostPipe(x), HostPipe(Apply(x, a));
    if IsWrite(a) {
      assert hs' == hs + [hs'[|hs|]];
      A.InvokesSnoc(hs, hs'[|hs|]);
    }
  }

  lemma {:induction false} SentStep(x: System, invoked: seq<nat>, a: Action)
    requires SentInv(x, invoked) && Enabled(x, a)
    ensures SentInv(Apply(x, a), invoked + if a.WriteInvoke? then [a.inv] else [])
  {
    RequestsStay(x, a);
    SentStages(x, a);
    SentRequests(x, a);
  }

  lemma {:induction false} RequestsAreSentOnce(acts: seq<Action>)
    requires Exec(acts).Some?
    ensures SentInv(Exec(acts).value, Invoked(acts))
  {
    if acts != [] {
      var n := |acts| - 1;
      RequestsAreSentOnce(acts[..n]);
      SentStep(Exec(acts[..n]).value, Invoked(acts[..n]), acts[n]);
    }
  }

  // ---------- Cancellation, from the caller to the task ----------

  /** The owner of a request cancelled it. */
  ghost predicate Cancelled(acts: seq<Action>, c: C.Client, r: InvokeRequest) {
    exists a :: a in acts && a.WriteCancel? && a.inv < |c.invocations| && c.invocations[a.inv].request == r
  }

  /** `readAt` is right behind the Invoke of the task. */
  ghost predicate ReadAtExact(s: S.Server) {
    forall k :: 0 <= k < |s.tasks| ==>
      1 <= s.tasks[k].readAt <= |s.read| && s.read[s.tasks[k].readAt - 1] == Invoke(s.tasks[k].request)
  }

  lemma {:induction false} ReadAtStep(s: S.Server, a: S.Action)
    requires ReadAtExact(s) && S.Enabled(s, a)
    ensures ReadAtExact(S.Apply(s, a))
  {
    var s' := S.Apply(s, a);
    assert s.read <= s'.read;
    forall k | 0 <= k < |s'.tasks|
      ensures 1 <= s'.tasks[k].readAt <= |s'.read| && s'.read[s'.tasks[k].readAt - 1] == Invoke(s'.tasks[k].request)
    {
      if k < |s.tasks| {
        assert s'.tasks[k].readAt == s.tasks[k].readAt && s'.tasks[k].request == s.tasks[k].request;
      }
    }
  }

  lemma {:induction false} ReadAtInvariant(acts: seq<S.Action>)
    requires S.Exec(acts).Some?
    ensures ReadAtExact(S.Exec(acts).value)
  {
    if acts != [] {
      ReadAtInvariant(acts[..|acts| - 1]);
      ReadAtStep(S.Exec(acts[..|acts| - 1]).value, acts[|acts| - 1]);
    }
  }

  ghost predicate InvokedBefore(hs: seq<HostFrame>, j: nat, id: RequestId)
    requires j <= |hs|
  {
    exists m :: 0 <= m < j && hs[m].Invoke? && hs[m].request.id == id
  }

  /** On the pipe, the Cancel frames of an id come after its Invoke. */
  ghost predicate CancelsFollow(hs: seq<HostFrame>) {
    forall j :: 0 <= j < |hs| && hs[j].Cancel? ==> InvokedBefore(hs, j, hs[j].id)
  }

  lemma {:induction false} CancelsFollowStep(x: System, invoked: seq<nat>, a: Action)
    requires SentInv(x, invoked) && CancelsFollow(HostPipe(x)) && Enabled(x, a)
    ensures CancelsFollow(HostPipe(Apply(x, a)))
  {
    PipeGrows(x, a);
    var hs, hs' := HostPipe(x), HostPipe(Apply(x, a));
    forall j | 0 <= j < |hs'| && hs'[j].Cancel? ensures InvokedBefore(hs', j, hs'[j].id) {
      if j < |hs| {
        assert hs'[j] == hs[j];
        var m :| 0 <= m < j && hs[m].Invoke? && hs[m].request.id == hs[j].id;
        assert hs'[m] == hs[m];
      } else {
        var n :| 0 <= n < |invoked| && invoked[n] == a.inv;
        InvokesMember(hs, Invokes(hs)[n]);
        var m :| 0 <= m < |hs| && hs[m] == Invoke(Invokes(hs)[n]);
        assert hs'[m] == hs[m];
      }
    }
  }

  lemma {:induction false} CancelsFollowInvokes(acts: seq<Action>)
    requires Exec(acts).Some?
    ensures CancelsFollow(HostPipe(Exec(acts).value))
  {
    if acts != [] {
      var n := |acts| - 1;
      RequestsAreSentOnce(acts[..n]);
      CancelsFollowInvokes(acts[..n]);
      CancelsFollowStep(Exec(acts[..n]).value, Invoked(acts[..n]), acts[n]);
    }
  }

  /** An id is on the pipe in one Invoke only. */
  lemma {:induction false} OneInvoke(hs: seq<HostFrame>, m: nat, n: nat)
    requires DistinctIds(Invokes(hs)) && m < |hs| && n < |hs| && hs[m].Invoke? && hs[n].Invoke?
    requires hs[m].request.id == hs[n].request.id
    ensures m == n
  {
    var z := |hs| - 1;
    assert hs == hs[..z] + [hs[z]];
    if m != n && (m == z || n == z) {
      var y := if m == z then n else m;
      InvokesHas(hs[..z], y);
      A.DistinctPrefix(Invokes(hs[..z]), hs[z].request);
    } else if m != n {
      InvokesPrefix(hs[..z], [hs[z]]);
      OneInvoke(hs[..z], m, n);
    }
  }

  lemma {:induction false} InvokesHas(hs: seq<HostFrame>, y: nat)
    requires y < |hs| && hs[y].Invoke?
    ensures hs[y].request in Invokes(hs)
  {
    if y < |hs| - 1 {
      InvokesHas(hs[..|hs| - 1], y);
    }
  }

  lemma {:induction false} CancelBehind(hs: seq<HostFrame>, j: nat, p: nat)
    requires DistinctIds(Invokes(hs)) && CancelsFollow(hs)
    requires j < |hs| && p < |hs| && hs[j].Cancel? && hs[p].Invoke? && hs[p].request.id == hs[j].id
    ensures p < j
  {
    var m :| 0 <= m < j && hs[m].Invoke? && hs[m].request.id == hs[j].id;
    OneInvoke(hs, m, p);
  }

  /** The invocation a task serves is the one its Invoke was written for. */
  lemma {:induction false} Served(acts: seq<Action>, k: nat) returns (i: nat)
    requires Exec(acts).Some? && k < |Exec(acts).value.server.tasks|
    ensures var x := Exec(acts).value;
      i < |x.client.invocations| && x.client.invocations[i].request == x.server.tasks[k].request
  {
    TaskOnThePipe(acts, k);
    var x := Exec(acts).value;
    var p := x.server.tasks[k].readAt - 1;
    var a := OnThePipeIsWritten(acts, p);
    assert Means(x.client, a, HostPipe(x)[p]);
    i := a.inv;
  }

  /** The Invoke of a task is where it was read. */
  lemma {:induction false} TaskOnThePipe(acts: seq<Action>, k: nat)
    requires Exec(acts).Some? && k < |Exec(acts).value.server.tasks|
    ensures var x := Exec(acts).value; var t := x.server.tasks[k];
      1 <= t.readAt <= |x.server.read| && HostPipe(x)[t.readAt - 1] == Invoke(t.request)
  {
    ReadAtInvariant(ServerView(acts));
  }

  lemma {:induction false} ShutdownWasWritten(acts: seq<Action>, j: nat)
    requires Exec(acts).Some? && j < |Exec(acts).value.server.read| && Exec(acts).value.server.read[j] == Shutdown
    ensures WriteShutdown in acts
  {
    assert HostPipe(Exec(acts).value)[j] == Shutdown;
    var a := OnThePipeIsWritten(acts, j);
    assert a == WriteShutdown;
  }

  lemma {:induction false} CancelWasWritten(acts: seq<Action>, k: nat, j: nat)
    requires Exec(acts).Some? && |Exec(acts).value.client.invocations| <= ID_SPACE
    requires k < |Exec(acts).value.server.tasks| && j < |Exec(acts).value.server.read|
    requires Exec(acts).value.server.read[j] == Cancel(Exec(acts).value.server.tasks[k].request.id)
    ensures Cancelled(acts, Exec(acts).value.client, Exec(acts).value.server.tasks[k].request)
  {
    var x := Exec(acts).value;
    var i := Served(acts, k);
    assert HostPipe(x)[j] == x.server.read[j];
    var a := OnThePipeIsWritten(acts, j);
    C.ClientInvariant(ClientView(acts));
    C.IdsDistinct(x.client, i, a.inv);
  }

  lemma {:induction false} CancelWillBeRead(acts: seq<Action>, k: nat)
    requires Exec(acts).Some? && |Exec(acts).value.client.invocations| <= ID_SPACE
    requires k < |Exec(acts).value.server.tasks| && Exec(acts).value.server.inbox == []
    requires Cancelled(acts, Exec(acts).value.client, Exec(acts).value.server.tasks[k].request)
    ensures var s := Exec(acts).value.server; T.CancelRead(s.read, s.tasks[k].readAt, s.tasks[k].request.id)
  {
    var x := Exec(acts).value;
    var t, hs := x.server.tasks[k], HostPipe(x);
    assert hs == x.server.read;
    TaskOnThePipe(acts, k);
    var a :| a in acts && a.WriteCancel? && a.inv < |x.client.invocations|
             && x.client.invocations[a.inv].request == t.request;
    var j := WrittenIsOnThePipe(acts, a);
    assert hs[j] == Cancel(t.request.id);
    assert CancelsFollow(hs) && DistinctIds(Invokes(hs)) by {
      CancelsFollowInvokes(acts);
      SystemInvariant(acts);
    }
    CancelBehind(hs, j, t.readAt - 1);
  }

  /**
   In every run a task is cancelled only if a shutdown was asked for or the owner of its own
   request cancelled it, never for another one's; and once the server has dealt with all that
   was written to it, a live task is cancelled exactly when its owner did.
  */
  lemma {:induction false} CancelReachesItsTask(acts: seq<Action>, k: nat)
    requires Exec(acts).Some? && |Exec(acts).value.client.invocations| <= ID_SPACE
    requires k < |Exec(acts).value.server.tasks|
    ensures var x := Exec(acts).value; var t := x.server.tasks[k];
      && (t.cancelled ==> WriteShutdown in acts || Cancelled(acts, x.client, t.request))
      && (x.server.loop.Reading? && x.server.inbox == [] && !t.phase.Removed? ==>
           (t.cancelled <==> Cancelled(acts, x.client, t.request)))
  {
    var x := Exec(acts).value;
    var s, t := x.server, x.server.tasks[k];
    T.CancellationIsolation(ServerView(acts), k);
    if t.cancelled {
      var j :| t.readAt <= j < |s.read| && (s.read[j] == Cancel(t.request.id) || s.read[j] == Shutdown);
      if s.read[j] == Shutdown {
        ShutdownWasWritten(acts, j);
        A.AnswerInvariant(ServerView(acts));
      } else {
        CancelWasWritten(acts, k, j);
      }
    }
    if s.inbox == [] && Cancelled(acts, x.client, t.request) {
      CancelWillBeRead(acts, k);
    }
  }
}
