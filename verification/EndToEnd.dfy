/** What a caller of the multiplexing client may rely on, over every run of client and server. */
module EndToEnd {
  import opened Common
  import opened Protocol
  import opened SequentialWorker
  import opened WorkerSystem
  import C = AsyncClient
  import S = AsyncServer
  import T = ServerTheorems
  import A = ScheduleIndependence

  // ---------- Prefixes and projections ----------

  lemma {:induction false} WithIdFrames(es: seq<S.Emission>, id: RequestId)
    ensures WithIdIn(S.Frames(es), Some(id)) == S.Select(es, S.WithId(id))
  {
    if es != [] {
      var n := |es| - 1;
      assert S.Frames(es)[..n] == S.Frames(es[..n]);
      WithIdFrames(es[..n], id);
    }
  }

  lemma {:induction false} WithIdNone(fs: seq<PluginFrame>, id: RequestId)
    requires forall j :: 0 <= j < |fs| ==> RequestIdOf(fs[j]) != Some(id)
    ensures WithIdIn(fs, Some(id)) == []
  {
    if fs != [] {
      WithIdNone(fs[..|fs| - 1], id);
    }
  }

  lemma {:induction false} WithIdMembers(fs: seq<PluginFrame>, id: RequestId)
    ensures forall j :: 0 <= j < |WithIdIn(fs, Some(id))| ==> RequestIdOf(WithIdIn(fs, Some(id))[j]) == Some(id)
  {
    if fs != [] {
      WithIdMembers(fs[..|fs| - 1], id);
    }
  }

  /** UpToTerminal is a prefix with no terminal frame but possibly its last. */
  lemma {:induction false} UpToTerminalShape(fs: seq<PluginFrame>)
    ensures var u := UpToTerminal(fs);
      u <= fs && forall j :: 0 <= j < |u| - 1 ==> !IsTerminal(u[j])
    decreases |fs|
  {
    if fs != [] {
      UpToTerminalShape(fs[1..]);
      var u := UpToTerminal(fs);
      if !IsTerminal(fs[0]) {
        assert u[1..] == UpToTerminal(fs[1..]);
        assert fs == [fs[0]] + fs[1..];
      }
    }
  }

  /** Frames that some task did not send are errors, so an error-free prefix is all task's. */
  lemma {:induction false} ErrorFreePrefix(es: seq<S.Emission>, id: RequestId, p: seq<PluginFrame>)
    requires forall i :: 0 <= i < |es| && RequestIdOf(es[i].frame) == Some(id) && !es[i].origin.FromTask? ==>
      es[i].frame.Error?
    requires p <= S.Select(es, S.WithId(id)) && forall j :: 0 <= j < |p| ==> !p[j].Error?
    ensures |S.Select(es, S.OfInvocation(id))| <= |S.Select(es, S.WithId(id))|
    ensures p <= S.Select(es, S.OfInvocation(id))
  {
    if es != [] {
      var n := |es| - 1;
      var w, t := S.Select(es[..n], S.WithId(id)), S.Select(es[..n], S.OfInvocation(id));
      if |p| <= |w| {
        ErrorFreePrefix(es[..n], id, p);
      } else {
        assert forall j :: 0 <= j < |w| ==> w[j] == p[j];
        ErrorFreePrefix(es[..n], id, w);
        assert t == w && p == w + [es[n].frame];
        assert !p[|w|].Error?;
      }
    }
  }

  lemma {:induction false} BlocksOfUnknown(ts: seq<S.Task>, id: RequestId)
    requires forall j :: 0 <= j < |ts| ==> ts[j].request.id != id
    ensures S.Blocks(ts, id) == []
  {
    if ts != [] {
      BlocksOfUnknown(ts[..|ts| - 1], id);
    }
  }

  lemma {:induction false} BlocksOfOne(ts: seq<S.Task>, k: nat)
    requires k < |ts| && forall i, j :: 0 <= i < j < |ts| ==> ts[i].request.id != ts[j].request.id
    ensures S.Blocks(ts, ts[k].request.id) == ts[k].sent
  {
    var n := |ts| - 1;
    if k == n {
      BlocksOfUnknown(ts[..n], ts[k].request.id);
    } else {
      BlocksOfOne(ts[..n], k);
    }
  }

  // ---------- The state after any run ----------

  /** Everything established about a reachable state, in the form used below. */
  ghost predicate Good(x: System) {
    && |x.client.invocations| <= ID_SPACE
    && C.ClientInv(x.client) && SystemInv(x)
    && S.TraceInv(x.server) && CauseInv(x.server) && A.OriginInv(x.server)
    && A.Requests(x.server.tasks) == Invokes(x.server.read)
    && A.NothingFrom(x.server, S.FromRejection)
  }

  lemma {:induction false} InvokesPrefix(a: seq<HostFrame>, b: seq<HostFrame>)
    requires DistinctIds(Invokes(a + b))
    ensures DistinctIds(Invokes(a))
  {
    if b == [] {
      assert a + b == a;
    } else {
      var n := |b| - 1;
      assert a + b == (a + b[..n]) + [b[n]];
      A.InvokesSnoc(a + b[..n], b[n]);
      if b[n].Invoke? {
        A.DistinctPrefix(Invokes(a + b[..n]), b[n].request);
      } else {
        assert Invokes(a + b) == Invokes(a + b[..n]);
      }
      InvokesPrefix(a, b[..n]);
    }
  }

  lemma {:induction false} Reachable(acts: seq<Action>)
    requires Exec(acts).Some? && |Exec(acts).value.client.invocations| <= ID_SPACE
    ensures Good(Exec(acts).value)
  {
    var x := Exec(acts).value;
    SystemInvariant(acts);
    C.ClientInvariant(ClientView(acts));
    T.ServerInvariant(ServerView(acts));
    CauseInvariant(ServerView(acts));
    A.AnswerInvariant(ServerView(acts));
    InvokesPrefix(x.server.read, x.server.inbox);
  }

  /** Nothing of an invocation's id was routed before it was registered. */
  lemma {:induction false} HeardFromTheStart(x: System, i: nat)
    requires EarlyInv(x) && i < |x.client.invocations|
    ensures var v := x.client.invocations[i]; C.Heard(x.client, v) == WithIdIn(x.client.log, Some(v.request.id))
  {
    var v := x.client.invocations[i];
    var log := x.client.log;
    assert log == log[..v.since] + log[v.since..];
    WithIdConcat(log[..v.since], log[v.since..], Some(v.request.id));
    WithIdNone(log[..v.since], v.request.id);
  }

  lemma {:induction false} RoutedIsEmitted(x: System, id: RequestId)
    requires ReaderInv(x) && S.TraceInv(x.server)
    ensures WithIdIn(x.client.log, Some(id)) <= S.Select(x.server.emitted, S.WithId(id))
  {
    var log := x.client.log;
    var all := S.Frames(x.server.emitted);
    assert all == log + all[|log|..];
    WithIdConcat(log, all[|log|..], Some(id));
    WithIdFrames(x.server.emitted, id);
  }

  /** What an invocation has been given is the beginning of what was emitted under its id. */
  lemma {:induction false} GivenIsEmitted(x: System, i: nat)
    requires Good(x) && C.InStage(x.client, i, C.Sent)
    ensures var v := x.client.invocations[i]; var id := v.request.id;
      && C.Delivered(v) + C.InHand(x.client, i) == UpToTerminal(WithIdIn(x.client.log, Some(id)))
      && WithIdIn(x.client.log, Some(id)) <= S.Select(x.server.emitted, S.WithId(id))
  {
    assert C.ChannelInv(x.client, i);
    HeardFromTheStart(x, i);
    RoutedIsEmitted(x, x.client.invocations[i].request.id);
  }

  /** The task a request became, once the server has read it. */
  predicate Serves(s: S.Server, k: nat, r: InvokeRequest) {
    k < |s.tasks| && s.tasks[k].request == r
  }

  lemma {:induction false} TasksDistinct(x: System)
    requires Good(x)
    ensures forall i, j :: 0 <= i < j < |x.server.tasks| ==>
      x.server.tasks[i].request.id != x.server.tasks[j].request.id
  {
    InvokesPrefix(x.server.read, x.server.inbox);
    var rs := A.Requests(x.server.tasks);
    forall i, j | 0 <= i < j < |rs| ensures x.server.tasks[i].request.id != x.server.tasks[j].request.id {
      assert rs[i].id != rs[j].id;
    }
  }

  /** A task of an id serves the request that the client sent under that id. */
  lemma {:induction false} TaskServes(x: System, i: nat, k: nat)
    requires Good(x) && C.InStage(x.client, i, C.Sent) && k < |x.server.tasks|
    requires x.server.tasks[k].request.id == x.client.invocations[i].request.id
    ensures Serves(x.server, k, x.client.invocations[i].request)
  {
    var r := x.server.tasks[k].request;
    assert A.Requests(x.server.tasks)[k] == r;
    InvokesMember(x.server.read, r);
    var j :| 0 <= j < |x.server.read| && x.server.read[j] == Invoke(r);
    assert (x.server.read + x.server.inbox)[j] == Invoke(r);
    assert Grounded(x.client, Invoke(r));
    assert Index(r.id) == i;
  }

  /** No cancel hook has failed for an id. */
  predicate HookSilent(s: S.Server, id: RequestId) {
    forall i :: 0 <= i < |s.emitted| && s.emitted[i].origin.FromHook? ==> RequestIdOf(s.emitted[i].frame) != Some(id)
  }

  predicate Done(t: S.Task) {
    t.phase.Reported? || t.phase.Removed?
  }

  /** An error-free start of what was emitted under a sent id, ending in a result, is one whole task. */
  lemma {:induction false} ResultIsWholeTask(x: System, i: nat, p: seq<PluginFrame>) returns (k: nat)
    requires Good(x) && C.InStage(x.client, i, C.Sent)
    requires p <= S.Select(x.server.emitted, S.WithId(x.client.invocations[i].request.id))
    requires p != [] && p[|p| - 1].Finished? && forall j :: 0 <= j < |p| - 1 ==> !IsTerminal(p[j])
    ensures Serves(x.server, k, x.client.invocations[i].request)
    ensures Done(x.server.tasks[k])
    ensures var id := x.client.invocations[i].request.id;
      p == x.server.tasks[k].sent == S.Select(x.server.emitted, S.OfInvocation(id))
  {
    var s := x.server;
    var id := x.client.invocations[i].request.id;
    ErrorFreePrefix(s.emitted, id, p);
    if forall j :: 0 <= j < |s.tasks| ==> s.tasks[j].request.id != id {
      BlocksOfUnknown(s.tasks, id);
      assert false;
    }
    k :| 0 <= k < |s.tasks| && s.tasks[k].request.id == id;
    TasksDistinct(x);
    BlocksOfOne(s.tasks, k);
    TaskServes(x, i, k);
    ResultEndsTask(s.tasks[k], p);
  }

  /** A start of a task's frames that ends in a result is all of them. */
  lemma {:induction false} ResultEndsTask(t: S.Task, p: seq<PluginFrame>)
    requires S.SentShape(t) && p <= t.sent && p != [] && p[|p| - 1].Finished?
    ensures Done(t) && p == t.sent
  {
    assert t.sent[|p| - 1].Finished?;
  }

  /** Frames without a terminal one before the last are kept whole. */
  lemma {:induction false} UpToTerminalWhole(fs: seq<PluginFrame>)
    requires forall j :: 0 <= j < |fs| - 1 ==> !IsTerminal(fs[j])
    ensures UpToTerminal(fs) == fs
    decreases |fs|
  {
    if fs != [] {
      UpToTerminalWhole(fs[1..]);
      assert fs == [fs[0]] + fs[1..];
    }
  }

  /** A transcript that completes is all that the invocation was given. */
  lemma {:induction false} CompletedIsGiven(id: RequestId, heard: seq<PluginFrame>, d: seq<PluginFrame>)
    requires d <= UpToTerminal(heard) && Receive(id, [], d).Completed?
    requires forall j :: 0 <= j < |heard| ==> RequestIdOf(heard[j]) == Some(id)
    ensures Receive(id, [], d).events == d && d <= heard
    ensures d != [] && d[|d| - 1].Finished? && forall j :: 0 <= j < |d| - 1 ==> !IsTerminal(d[j])
  {
    var u := UpToTerminal(heard);
    UpToTerminalShape(heard);
    forall j | 0 <= j < |d| ensures RequestIdOf(d[j]) == Some(id) {
      assert d[j] == u[j] == heard[j];
    }
    forall j | 0 <= j < |d| - 1 ensures !IsTerminal(d[j]) {
      assert d[j] == u[j];
    }
    UpToTerminalWhole(d);
    var t := Receive(id, [], d);
    assert t.events == [] + d && d[|d| - 1] == Finished(id, t.result) by {
      ReceiveUpToTerminal(id, [], d);
    }
  }

  lemma {:induction false} CompletedIsWholeTask(x: System, i: nat) returns (k: nat)
    requires Good(x) && C.InStage(x.client, i, C.Sent)
    requires var v := x.client.invocations[i]; Receive(v.request.id, [], C.Delivered(v)).Completed?
    ensures var v := x.client.invocations[i]; var events := Receive(v.request.id, [], C.Delivered(v)).events;
      && Serves(x.server, k, v.request) && Done(x.server.tasks[k])
      && events == C.Delivered(v) == x.server.tasks[k].sent == S.Select(x.server.emitted, S.OfInvocation(v.request.id))
  {
    var v := x.client.invocations[i];
    var heard := WithIdIn(x.client.log, Some(v.request.id));
    GivenIsEmitted(x, i);
    WithIdMembers(x.client.log, v.request.id);
    CompletedIsGiven(v.request.id, heard, C.Delivered(v));
    k := ResultIsWholeTask(x, i, C.Delivered(v));
  }

  /**
   Over every run of the client and the server, and whatever the cancel hook returns: if
   `finish` completes an invocation, its events are exactly the frames of the task that
   served its request, all of them and in order. If the cancel hook has not failed for its
   id, they are all the frames emitted under the id.
  */
  lemma {:induction false} FinishReturnsTheWholeTask(acts: seq<Action>, i: nat) returns (k: nat)
    requires Exec(acts).Some? && |Exec(acts).value.client.invocations| <= ID_SPACE
    requires C.InStage(Exec(acts).value.client, i, C.Sent)
    requires var v := Exec(acts).value.client.invocations[i]; Receive(v.request.id, [], C.Delivered(v)).Completed?
    ensures var x := Exec(acts).value; var v := x.client.invocations[i];
      var events := Receive(v.request.id, [], C.Delivered(v)).events;
      && Serves(x.server, k, v.request) && Done(x.server.tasks[k])
      && events == x.server.tasks[k].sent == S.Select(x.server.emitted, S.OfInvocation(v.request.id))
      && (HookSilent(x.server, v.request.id) ==> events == S.Select(x.server.emitted, S.WithId(v.request.id)))
  {
    var x := Exec(acts).value;
    Reachable(acts);
    k := CompletedIsWholeTask(x, i);
    if HookSilent(x.server, x.client.invocations[i].request.id) {
      A.SelectWithId(x.server.emitted, x.client.invocations[i].request.id);
    }
  }

  /** At every step, what the server has emitted is what the client has routed, what is in
      the pipe and what is queued, in this order. */
  lemma {:induction false} FramesAreConserved(acts: seq<Action>)
    requires Exec(acts).Some? && |Exec(acts).value.client.invocations| <= ID_SPACE
    ensures var x := Exec(acts).value;
      && |x.client.log| <= |x.server.written|
      && S.Frames(x.server.emitted)
         == x.client.log + x.server.written[|x.client.log|..] + x.server.queue
  {
    Reachable(acts);
    var x := Exec(acts).value;
    assert x.server.written == x.client.log + x.server.written[|x.client.log|..];
  }

  /** With no failing hook for its id, a finished task is everything under its id, and ends it. */
  lemma {:induction false} DoneTaskIsEverything(x: System, k: nat)
    requires Good(x) && k < |x.server.tasks| && Done(x.server.tasks[k])
    requires HookSilent(x.server, x.server.tasks[k].request.id)
    ensures var t := x.server.tasks[k];
      UpToTerminal(S.Select(x.server.emitted, S.WithId(t.request.id))) == t.sent
  {
    var t := x.server.tasks[k];
    A.SelectWithId(x.server.emitted, t.request.id);
    TasksDistinct(x);
    BlocksOfOne(x.server.tasks, k);
    assert S.SentShape(t);
    SentWhole(t);
  }

  lemma {:induction false} SentWhole(t: S.Task)
    requires S.SentShape(t) && Done(t)
    ensures UpToTerminal(t.sent) == t.sent
  {
    assert forall j :: 1 <= j < |t.sent| - 1 ==> t.sent[j] == t.sent[..|t.sent| - 1][j];
    UpToTerminalWhole(t.sent);
  }

  /** Nothing is on its way from the server's tasks to the invocations. */
  predicate Settled(x: System) {
    x.client.reader.Idle? && x.client.log == x.server.written && x.server.queue == []
  }

  lemma {:induction false} SettledIsGiven(x: System, i: nat)
    requires Good(x) && C.InStage(x.client, i, C.Sent) && Settled(x)
    ensures var v := x.client.invocations[i];
      C.Delivered(v) == UpToTerminal(S.Select(x.server.emitted, S.WithId(v.request.id)))
  {
    var id := x.client.invocations[i].request.id;
    GivenIsEmitted(x, i);
    assert S.Frames(x.server.emitted) == x.client.log;
    WithIdFrames(x.server.emitted, id);
  }

  /** No reply is lost: once nothing is under way, an invocation holds everything emitted under
      its id through the first terminal frame; so its whole task, once that has reported and
      if the cancel hook has not failed for this id. */
  lemma {:induction false} NoReplyIsLost(acts: seq<Action>, i: nat)
    requires Exec(acts).Some? && |Exec(acts).value.client.invocations| <= ID_SPACE
    requires C.InStage(Exec(acts).value.client, i, C.Sent) && Settled(Exec(acts).value)
    ensures var x := Exec(acts).value; var v := x.client.invocations[i];
      && C.Delivered(v) == UpToTerminal(S.Select(x.server.emitted, S.WithId(v.request.id)))
      && (HookSilent(x.server, v.request.id) ==>
           forall k :: 0 <= k < |x.server.tasks| && Done(x.server.tasks[k]) ==>
             x.server.tasks[k].request.id == v.request.id ==> C.Delivered(v) == x.server.tasks[k].sent)
  {
    var x := Exec(acts).value;
    Reachable(acts);
    SettledIsGiven(x, i);
    var id := x.client.invocations[i].request.id;
    if HookSilent(x.server, id) {
      forall k | 0 <= k < |x.server.tasks| && x.server.tasks[k].request.id == id && Done(x.server.tasks[k])
        ensures UpToTerminal(S.Select(x.server.emitted, S.WithId(id))) == x.server.tasks[k].sent
      {
        DoneTaskIsEverything(x, k);
      }
    }
  }

  /** Once nothing is under way, `finish` reports the first terminal frame emitted under the id,
      and waits exactly when there is none. */
  lemma {:induction false} SettledOutcome(acts: seq<Action>, i: nat)
    requires Exec(acts).Some? && |Exec(acts).value.client.invocations| <= ID_SPACE
    requires C.InStage(Exec(acts).value.client, i, C.Sent) && Settled(Exec(acts).value)
    ensures var x := Exec(acts).value; var v := x.client.invocations[i]; var id := v.request.id;
      var under := UpToTerminal(S.Select(x.server.emitted, S.WithId(id)));
      match Receive(id, [], C.Delivered(v))
      case Completed(events, result) => under != [] && events == under && under[|under| - 1] == Finished(id, result)
      case Refused(error) => under != [] && under[|under| - 1] == Error(Some(id), error)
      case Interrupted => !HasTerminal(under)
  {
    var x := Exec(acts).value;
    var v := x.client.invocations[i];
    var id := v.request.id;
    Reachable(acts);
    SettledIsGiven(x, i);
    var all := S.Select(x.server.emitted, S.WithId(id));
    var under := UpToTerminal(all);
    WithIdFrames(x.server.emitted, id);
    WithIdMembers(S.Frames(x.server.emitted), id);
    UpToTerminalShape(all);
    assert forall j :: 0 <= j < |under| ==> under[j] == all[j];
    UpToTerminalWhole(under);
    ReceiveUpToTerminal(id, [], under);
  }

  lemma {:induction false} CompletedIsBlock(x: System, i: nat, h: Handler)
    requires Good(x) && C.InStage(x.client, i, C.Sent) && A.Follows(x.server, h)
    requires var v := x.client.invocations[i]; Receive(v.request.id, [], C.Delivered(v)).Completed?
    ensures C.Delivered(x.client.invocations[i]) == Block(h, x.client.invocations[i].request)
  {
    var k := CompletedIsWholeTask(x, i);
    var t := x.server.tasks[k];
    assert S.SentShape(t) && t.sent <= Block(h, t.request);
    A.DoneSentAll(h, t);
  }

  /** With a handler determined by its request, a completed multiplexed invocation is the
      transcript that the blocking client gets from the sequential server. */
  lemma {:induction false} FinishAgreesWithSequential(acts: seq<Action>, i: nat, h: Handler)
    requires Exec(acts).Some? && |Exec(acts).value.client.invocations| <= ID_SPACE
    requires C.InStage(Exec(acts).value.client, i, C.Sent) && A.Follows(Exec(acts).value.server, h)
    requires var v := Exec(acts).value.client.invocations[i]; Receive(v.request.id, [], C.Delivered(v)).Completed?
    ensures var v := Exec(acts).value.client.invocations[i];
      Receive(v.request.id, [], C.Delivered(v)) == Receive(v.request.id, [], Reply(h, Invoke(v.request)))
  {
    Reachable(acts);
    CompletedIsBlock(Exec(acts).value, i, h);
  }
}
