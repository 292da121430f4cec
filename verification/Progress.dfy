/**
 The two sides can always go on: from any state that any schedule reaches, the server can deal
 with all it was sent, and the client's reader with all it is sent back.
*/
module Progress {
  import opened Common
  import opened Protocol
  import opened SequentialWorker
  import opened WorkerSystem
  import opened EndToEnd
  import C = AsyncClient
  import S = AsyncServer
  import T = ServerTheorems
  import A = ScheduleIndependence
  import H = CancelHook
  import P = HostStream

  // ---------- The server ----------

  /** Nothing left to do: the queue is written, and the server has stopped or waits for the host with no task left. */
  predicate Quiet(s: S.Server) {
    && s.queue == []
    && (s.loop.Stopped? || (s.loop.Reading? && s.inbox == []))
    && forall k :: 0 <= k < |s.tasks| ==> s.tasks[k].phase.Removed?
  }

  function Rank(loop: S.Loop): nat {
    match loop
    case Announcing(_) => 2
    case Cancelling(_, _) => 2
    case Draining(_) => 2
    case Rejecting(_) => 1
    case Spawning(_) => 1
    case Hooking(_) => 1
    case Joining => 1
    case _ => 0
  }

  function Tokens(loop: S.Loop): nat {
    if loop.Draining? then |loop.tokens| else 0
  }

  function WorkOf(t: S.Task): nat {
    if t.phase.Removed? then 0 else if t.phase.Reported? then 1 else 2
  }

  function Work(ts: seq<S.Task>): nat {
    if ts == [] then 0 else Work(ts[..|ts| - 1]) + WorkOf(ts[|ts| - 1])
  }

  lemma {:induction false} WorkUpdate(ts: seq<S.Task>, k: nat, t: S.Task)
    requires k < |ts|
    ensures Work(ts[k := t]) + WorkOf(ts[k]) == Work(ts) + WorkOf(t)
  {
    var n := |ts| - 1;
    if k == n {
      assert ts[k := t][..n] == ts[..n];
    } else {
      assert ts[k := t][..n] == ts[..n][k := t];
      WorkUpdate(ts[..n], k, t);
    }
  }

  /** What is left for the server decreases, from the frames unread to those unwritten. */
  predicate LessLeft(s': S.Server, s: S.Server) {
    || |s'.inbox| < |s.inbox|
    || (|s'.inbox| == |s.inbox| &&
        (|| Rank(s'.loop) < Rank(s.loop)
         || (Rank(s'.loop) == Rank(s.loop) &&
             (|| Tokens(s'.loop) < Tokens(s.loop)
              || (Tokens(s'.loop) == Tokens(s.loop) &&
                  (|| Work(s'.tasks) < Work(s.tasks)
                   || (Work(s'.tasks) == Work(s.tasks) && |s'.queue| < |s.queue|)))))))
  }

  /** What the server does by itself, its handlers emitting nothing more and its hook returning. */
  predicate OwnStep(a: S.Action) {
    !a.Arrive? && !a.ReadFails? && !a.Emit?
  }

  lemma {:induction false} LoopMoves(s: S.Server) returns (a: S.Action)
    requires S.TasksInv(s) && Rank(s.loop) > 0 && !s.loop.Joining?
    ensures OwnStep(a) && S.Enabled(s, a) && LessLeft(S.Apply(s, a), s) && !S.Apply(s, a).loop.Failed?
  {
    match s.loop {
      case Rejecting(_) => a := S.Reject;
      case Announcing(_) => a := S.Announce;
      case Spawning(_) => a := S.Spawn;
      case Cancelling(_, _) => a := S.CancelToken;
      case Hooking(_) => a := S.HookReturns(None);
      case Draining(tokens) =>
        if tokens == {} {
          a := S.DrainDone;
        } else {
          var k :| k in tokens;
          a := S.DrainToken(k);
        }
    }
  }

  lemma {:induction false} TaskMoves(s: S.Server, k: nat, o: Outcome) returns (a: S.Action)
    requires S.TasksInv(s) && Rank(s.loop) <= 1 && !s.loop.Spawning? && !s.loop.Failed?
    requires k < |s.tasks| && !s.tasks[k].phase.Removed?
    ensures OwnStep(a) && S.Enabled(s, a) && LessLeft(S.Apply(s, a), s) && !S.Apply(s, a).loop.Failed?
  {
    a := if s.tasks[k].phase.Running? then S.Report(k, o) else S.Remove(k);
    WorkUpdate(s.tasks, k, S.Apply(s, a).tasks[k]);
  }

  /** Unless it has nothing left to do, the server can take a step of its own. */
  lemma {:induction false} ServerMoves(s: S.Server, o: Outcome) returns (a: S.Action)
    requires S.TasksInv(s) && !s.loop.Failed? && !Quiet(s)
    requires s.loop.Stopped? ==> forall k :: 0 <= k < |s.tasks| ==> s.tasks[k].phase.Removed?
    ensures OwnStep(a) && S.Enabled(s, a) && LessLeft(S.Apply(s, a), s) && !S.Apply(s, a).loop.Failed?
  {
    if s.queue != [] {
      a := S.WriteOut;
    } else if Rank(s.loop) > 0 && !s.loop.Joining? {
      a := LoopMoves(s);
    } else if s.loop.Reading? && s.inbox != [] {
      a := S.Read;
    } else if k :| 0 <= k < |s.tasks| && !s.tasks[k].phase.Removed? {
      a := TaskMoves(s, k, o);
    } else {
      a := S.Acknowledge;
    }
  }

  lemma {:induction false} ServerExecNext(acts: seq<S.Action>, a: S.Action)
    requires S.Exec(acts).Some? && S.Enabled(S.Exec(acts).value, a)
    ensures S.Exec(acts + [a]) == Some(S.Apply(S.Exec(acts).value, a))
  {
    assert (acts + [a])[..|acts|] == acts;
  }

  /** The server has stopped exactly if it was told to, has said so last, and was sent nothing meanwhile. */
  predicate Dealt(s: S.Server, s': S.Server) {
    && s'.read + s'.inbox == s.read + s.inbox
    && (s'.loop.Stopped? <==> Shutdown in s.read + s.inbox)
    && (s'.loop.Stopped? ==> s'.written != [] && s'.written[|s'.written| - 1] == ShutdownAck)
  }

  lemma {:induction false} QuietIsDealt(s: S.Server)
    requires Quiet(s) && S.TraceInv(s) && T.ShutdownInv(s) && A.ReadInv(s)
    ensures Dealt(s, s)
  {
    if s.loop.Stopped? {
      var n := |s.emitted| - 1;
      assert S.Frames(s.emitted) == s.written;
      assert s.written[n] == s.emitted[n].frame;
      assert s.read[|s.read| - 1] in s.read;
    } else {
      assert s.inbox == [] && Shutdown !in s.read;
    }
  }

  lemma {:induction false} Reached(acts: seq<S.Action>)
    requires S.Exec(acts).Some?
    ensures var s := S.Exec(acts).value;
      && S.TasksInv(s) && (Quiet(s) ==> Dealt(s, s))
      && (s.loop.Stopped? ==> forall k :: 0 <= k < |s.tasks| ==> s.tasks[k].phase.Removed?)
  {
    T.ServerInvariant(acts);
    T.ShutdownInvariant(acts);
    A.AnswerInvariant(acts);
    if Quiet(S.Exec(acts).value) {
      QuietIsDealt(S.Exec(acts).value);
    }
  }

  lemma {:induction false} OwnStepReadsOn(s: S.Server, a: S.Action)
    requires S.Enabled(s, a) && OwnStep(a)
    ensures S.Apply(s, a).read + S.Apply(s, a).inbox == s.read + s.inbox
  {
  }

  ghost predicate Quiesces(acts: seq<S.Action>, more: seq<S.Action>)
    requires S.Exec(acts).Some?
  {
    && (forall a :: a in more ==> OwnStep(a))
    && S.Exec(acts + more).Some? && Quiet(S.Exec(acts + more).value)
    && Dealt(S.Exec(acts).value, S.Exec(acts + more).value)
  }

  lemma {:induction false} QuiescesNow(acts: seq<S.Action>)
    requires S.Exec(acts).Some? && Quiet(S.Exec(acts).value) && Dealt(S.Exec(acts).value, S.Exec(acts).value)
    ensures Quiesces(acts, [])
  {
    assert acts + [] == acts;
  }

  lemma {:induction false} QuiescesLater(acts: seq<S.Action>, a: S.Action, rest: seq<S.Action>)
    requires S.Exec(acts).Some? && S.Exec(acts + [a]).Some? && OwnStep(a) && Quiesces(acts + [a], rest)
    requires var s, s' := S.Exec(acts).value, S.Exec(acts + [a]).value; s'.read + s'.inbox == s.read + s.inbox
    ensures Quiesces(acts, [a] + rest)
  {
    assert acts + [a] + rest == acts + ([a] + rest);
  }

  /**
   From every reachable state in which reading has not failed, the server can deal with all it was
   sent, with whatever its handlers return. If a Shutdown was read or is waiting, it acknowledges it
   and stops; otherwise it has read everything and waits for more, no task left.
  */
  lemma {:induction false} ServerQuiesces(acts: seq<S.Action>, o: Outcome) returns (more: seq<S.Action>)
    requires S.Exec(acts).Some? && !S.Exec(acts).value.loop.Failed?
    ensures Quiesces(acts, more)
    decreases |S.Exec(acts).value.inbox|, Rank(S.Exec(acts).value.loop), Tokens(S.Exec(acts).value.loop),
              Work(S.Exec(acts).value.tasks), |S.Exec(acts).value.queue|
  {
    var s := S.Exec(acts).value;
    Reached(acts);
    if Quiet(s) {
      more := [];
      QuiescesNow(acts);
    } else {
      var a := ServerMoves(s, o);
      ServerExecNext(acts, a);
      OwnStepReadsOn(s, a);
      var rest := ServerQuiesces(acts + [a], o);
      more := [a] + rest;
      QuiescesLater(acts, a, rest);
    }
  }

  // ---------- The server and the client's reader ----------

  /** The reader is still reading. */
  predicate Reads(c: C.Client) {
    !c.reader.Ending? && !c.reader.Ended?
  }

  /** What the server does by itself, and the reader taking frames off the pipe. */
  predicate OwnSystemStep(a: Action) {
    || (a.ServerStep? && OwnStep(a.server))
    || a.ReadFrame?
    || (a.ClientStep? && (a.client.Deliver? || a.client.Forget?))
  }

  function ReaderRank(r: C.Reader): nat {
    if r.Routing? then 2 else if r.Forgetting? then 1 else 0
  }

  function Unrouted(x: System): int {
    |x.server.written| - |x.client.log|
  }

  lemma {:induction false} ReaderMoves(x: System) returns (a: Action)
    requires C.PendingInv(x.client) && Reads(x.client)
    requires |x.client.log| < |x.server.written| || !x.client.reader.Idle?
    ensures OwnSystemStep(a) && Enabled(x, a) && Apply(x, a).server == x.server && Reads(Apply(x, a).client)
    ensures var x' := Apply(x, a);
      || Unrouted(x') < Unrouted(x)
      || (Unrouted(x') == Unrouted(x) && ReaderRank(x'.client.reader) < ReaderRank(x.client.reader))
    ensures |Apply(x, a).client.invocations| == |x.client.invocations|
    ensures forall i :: 0 <= i < |x.client.invocations| ==>
      && Apply(x, a).client.invocations[i].stage == x.client.invocations[i].stage
      && Apply(x, a).client.invocations[i].request == x.client.invocations[i].request
  {
    match x.client.reader {
      case Idle => a := ReadFrame;
      case Routing(_, _) => a := ClientStep(C.Deliver);
      case Forgetting(_) => a := ClientStep(C.Forget);
    }
  }

  lemma {:induction false} ExecNext(acts: seq<Action>, a: Action)
    requires Exec(acts).Some? && Enabled(Exec(acts).value, a)
    ensures Exec(acts + [a]) == Some(Apply(Exec(acts).value, a))
  {
    assert (acts + [a])[..|acts|] == acts;
  }

  /** The invocations are those there were, with the same requests, as far on as they were. */
  predicate SameInvocations(c: C.Client, c': C.Client) {
    && |c'.invocations| == |c.invocations|
    && forall i :: 0 <= i < |c.invocations| ==>
         && c'.invocations[i].stage == c.invocations[i].stage
         && c'.invocations[i].request == c.invocations[i].request
  }

  /** No caller has done anything in between. */
  predicate SameCallers(x: System, x': System) {
    P.HostPipe(x') == P.HostPipe(x) && SameInvocations(x.client, x'.client)
  }

  /** `x'` has nothing left to do of what its callers had asked in `x`. */
  predicate SettledFrom(x: System, x': System) {
    Quiet(x'.server) && Settled(x') && SameCallers(x, x')
  }

  lemma {:induction false} SettledEarlier(x: System, y: System, z: System)
    requires SameCallers(x, y) && SettledFrom(y, z)
    ensures SettledFrom(x, z)
  {
  }

  ghost predicate AllOwn(acts: seq<Action>) {
    forall a :: a in acts ==> OwnSystemStep(a)
  }

  lemma {:induction false} AllOwnCons(a: Action, rest: seq<Action>)
    requires OwnSystemStep(a) && AllOwn(rest)
    ensures AllOwn([a] + rest)
  {
    assert forall b :: b in [a] + rest ==> b == a || b in rest;
  }

  /** `all` goes on from `acts` by steps of the two programs until nothing is left to do. */
  ghost predicate Settles(acts: seq<Action>, all: seq<Action>)
    requires Exec(acts).Some?
  {
    && acts <= all && AllOwn(all[|acts|..])
    && Exec(all).Some? && SettledFrom(Exec(acts).value, Exec(all).value)
  }

  lemma {:induction false} SettlesLater(acts: seq<Action>, a: Action, all: seq<Action>)
    requires Exec(acts).Some? && Exec(acts + [a]).Some? && OwnSystemStep(a) && Settles(acts + [a], all)
    requires SameCallers(Exec(acts).value, Exec(acts + [a]).value)
    ensures Settles(acts, all)
  {
    SettledEarlier(Exec(acts).value, Exec(acts + [a]).value, Exec(all).value);
    assert all[|acts|..] == [a] + all[|acts + [a]|..];
    AllOwnCons(a, all[|acts + [a]|..]);
  }

  lemma {:induction false} SystemMoves(acts: seq<Action>, o: Outcome) returns (a: Action)
    requires Exec(acts).Some? && |Exec(acts).value.client.invocations| <= ID_SPACE
    requires !Exec(acts).value.server.loop.Failed? && Reads(Exec(acts).value.client)
    requires !Quiet(Exec(acts).value.server) || !Settled(Exec(acts).value)
    ensures var x := Exec(acts).value;
      && OwnSystemStep(a) && Enabled(x, a)
      && var x' := Apply(x, a);
      && !x'.server.loop.Failed? && Reads(x'.client)
      && SameCallers(x, x')
      && (|| LessLeft(x'.server, x.server)
          || (x'.server == x.server &&
              (|| Unrouted(x') < Unrouted(x)
               || (Unrouted(x') == Unrouted(x) && ReaderRank(x'.client.reader) < ReaderRank(x.client.reader)))))
  {
    var x := Exec(acts).value;
    if !Quiet(x.server) {
      Reached(ServerView(acts));
      var sa := ServerMoves(x.server, o);
      OwnStepReadsOn(x.server, sa);
      a := ServerStep(sa);
    } else {
      C.ClientInvariant(ClientView(acts));
      SystemInvariant(acts);
      a := ReaderMoves(x);
    }
  }

  /** From every reachable state in which neither side has failed to read, the server can deal with
      all it was sent and everything it sends can be delivered. */
  lemma {:induction false} SystemSettles(acts: seq<Action>, o: Outcome) returns (all: seq<Action>)
    requires Exec(acts).Some? && |Exec(acts).value.client.invocations| <= ID_SPACE
    requires !Exec(acts).value.server.loop.Failed? && Reads(Exec(acts).value.client)
    ensures Settles(acts, all)
    decreases |Exec(acts).value.server.inbox|, Rank(Exec(acts).value.server.loop),
              Tokens(Exec(acts).value.server.loop), Work(Exec(acts).value.server.tasks),
              |Exec(acts).value.server.queue|, Unrouted(Exec(acts).value), ReaderRank(Exec(acts).value.client.reader)
  {
    var x := Exec(acts).value;
    if Quiet(x.server) && Settled(x) {
      all := acts;
    } else {
      SystemInvariant(acts);
      var a := SystemMoves(acts, o);
      ExecNext(acts, a);
      all := SystemSettles(acts + [a], o);
      SettlesLater(acts, a, all);
    }
  }

  /** `finish` has an answer. */
  predicate IsAnswered(v: C.Invocation) {
    !Receive(v.request.id, [], C.Delivered(v)).Interrupted?
  }

  lemma {:induction false} ReadIsAnswered(acts: seq<Action>, i: nat)
    requires Exec(acts).Some? && |Exec(acts).value.client.invocations| <= ID_SPACE
    requires C.InStage(Exec(acts).value.client, i, C.Sent)
    requires Quiet(Exec(acts).value.server) && Settled(Exec(acts).value)
    requires Exec(acts).value.client.invocations[i].request in Invokes(Exec(acts).value.server.read)
    ensures IsAnswered(Exec(acts).value.client.invocations[i])
  {
    var x := Exec(acts).value;
    var id := x.client.invocations[i].request.id;
    Reachable(acts);
    var rs := A.Requests(x.server.tasks);
    var k :| 0 <= k < |rs| && rs[k] == x.client.invocations[i].request;
    H.WhoEnds(x, k);
    var es := x.server.emitted;
    H.UpToEnd(es, id, H.EndOf(es, id));
    SettledOutcome(acts, i);
    var under := UpToTerminal(S.Select(es, S.WithId(id)));
    assert IsTerminal(under[|under| - 1]);
  }

  lemma {:induction false} PipeRead(x: System, i: nat, invoked: seq<nat>)
    requires P.SentInv(x, invoked) && C.InStage(x.client, i, C.Sent) && x.server.inbox == []
    ensures x.client.invocations[i].request in Invokes(x.server.read)
  {
    assert P.HostPipe(x) == x.server.read;
    var j :| 0 <= j < |invoked| && invoked[j] == i;
    assert Invokes(x.server.read)[j] == x.client.invocations[i].request;
  }

  /**
   From every reachable state in which neither side has failed to read and no shutdown was asked
   for, the run can go on, with no further step of any caller, to a state in which every `finish`
   of a request sent has an answer.
  */
  lemma {:induction false} EveryInvocationCanBeAnswered(acts: seq<Action>, o: Outcome) returns (all: seq<Action>)
    requires Exec(acts).Some? && |Exec(acts).value.client.invocations| <= ID_SPACE
    requires !Exec(acts).value.server.loop.Failed? && Reads(Exec(acts).value.client)
    requires WriteShutdown !in acts
    ensures Settles(acts, all)
    ensures var c, c' := Exec(acts).value.client, Exec(all).value.client;
      forall i :: 0 <= i < |c.invocations| && c.invocations[i].stage.Sent? ==> IsAnswered(c'.invocations[i])
  {
    all := SystemSettles(acts, o);
    var x := Exec(all).value;
    NoShutdownAsked(acts, all);
    NotStopped(all);
    P.RequestsAreSentOnce(all);
    forall i | 0 <= i < |x.client.invocations| && x.client.invocations[i].stage.Sent?
      ensures IsAnswered(x.client.invocations[i])
    {
      PipeRead(x, i, P.Invoked(all));
      ReadIsAnswered(all, i);
    }
  }

  lemma {:induction false} NoShutdownAsked(acts: seq<Action>, all: seq<Action>)
    requires acts <= all && AllOwn(all[|acts|..]) && WriteShutdown !in acts
    ensures WriteShutdown !in all
  {
    assert all == acts + all[|acts|..];
  }

  lemma {:induction false} NotStopped(acts: seq<Action>)
    requires Exec(acts).Some? && WriteShutdown !in acts
    ensures !Exec(acts).value.server.loop.Stopped?
  {
    var s := Exec(acts).value.server;
    A.AnswerInvariant(ServerView(acts));
    if s.loop.Stopped? {
      var j := |s.read| - 1;
      assert s.read[j] == Shutdown;
      P.ShutdownWasWritten(acts, j);
    }
  }
}
