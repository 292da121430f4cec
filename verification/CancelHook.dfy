/**
 A cancel hook that fails, against the task it cancels: the server sends the hook's error
 under the id of the request, and the client ends the invocation at whichever terminal
 frame comes first.
*/
module CancelHook {
  import opened Common
  import opened Protocol
  import opened SequentialWorker
  import opened WorkerSystem
  import opened EndToEnd
  import C = AsyncClient
  import S = AsyncServer

  // ---------- Which emission ends an invocation ----------

  predicate EndsId(e: S.Emission, id: RequestId) {
    RequestIdOf(e.frame) == Some(id) && IsTerminal(e.frame)
  }

  /** The first terminal emission of an id. */
  function EndOf(es: seq<S.Emission>, id: RequestId): (n: nat)
    ensures n <= |es| && (n < |es| ==> EndsId(es[n], id))
    ensures forall j :: 0 <= j < n ==> !EndsId(es[j], id)
  {
    if es == [] || EndsId(es[0], id) then 0 else 1 + EndOf(es[1..], id)
  }

  predicate IsReport(e: S.Emission, k: nat) {
    e.origin == S.FromTask(k) && IsTerminal(e.frame)
  }

  /** The terminal emission of a task. */
  function ReportOf(es: seq<S.Emission>, k: nat): (n: nat)
    ensures n <= |es| && (n < |es| ==> IsReport(es[n], k))
    ensures forall j :: 0 <= j < n ==> !IsReport(es[j], k)
  {
    if es == [] || IsReport(es[0], k) then 0 else 1 + ReportOf(es[1..], k)
  }

  /** The cancel hook failed for an id before the n-th emission. */
  predicate HookFailedBefore(es: seq<S.Emission>, id: RequestId, n: nat)
    requires n <= |es|
  {
    exists j :: 0 <= j < n && es[j].origin.FromHook? && RequestIdOf(es[j].frame) == Some(id)
  }

  lemma {:induction false} SelectedFrom(es: seq<S.Emission>, p: S.Pick, j: nat)
    requires j < |es| && S.Picks(p, es[j])
    ensures es[j].frame in S.Select(es, p)
  {
    if j < |es| - 1 {
      SelectedFrom(es[..|es| - 1], p, j);
    }
  }

  /** What comes up to an id's first terminal emission is what an invocation is given. */
  lemma {:induction false} UpToEnd(es: seq<S.Emission>, id: RequestId, n: nat)
    requires n < |es| && EndsId(es[n], id) && forall j :: 0 <= j < n ==> !EndsId(es[j], id)
    ensures var given := S.Select(es[..n + 1], S.WithId(id));
      && given != [] && given[|given| - 1] == es[n].frame
      && UpToTerminal(S.Select(es, S.WithId(id))) == given
  {
    var m := |es| - 1;
    if n < m {
      UpToEnd(es[..m], id, n);
      assert es[..m][..n + 1] == es[..n + 1];
      var all := S.Select(es[..m], S.WithId(id));
      if RequestIdOf(es[m].frame) == Some(id) {
        C.UpToTerminalSnoc(all, es[m].frame);
        HasTerminalWhen(all, es[n].frame);
      } else {
        assert S.Select(es, S.WithId(id)) == all;
      }
    } else {
      assert es[..n + 1] == es;
      var before := S.Select(es[..m], S.WithId(id));
      NoneTerminal(es[..m], id);
      C.UpToTerminalSnoc(before, es[n].frame);
    }
  }

  lemma {:induction false} HasTerminalWhen(fs: seq<PluginFrame>, f: PluginFrame)
    requires UpToTerminal(fs) != [] && UpToTerminal(fs)[|UpToTerminal(fs)| - 1] == f && IsTerminal(f)
    ensures HasTerminal(fs)
  {
    UpToTerminalShape(fs);
    assert IsTerminal(fs[|UpToTerminal(fs)| - 1]);
  }

  lemma {:induction false} NoneTerminal(es: seq<S.Emission>, id: RequestId)
    requires forall j :: 0 <= j < |es| ==> !EndsId(es[j], id)
    ensures !HasTerminal(S.Select(es, S.WithId(id)))
  {
    if es != [] {
      var n := |es| - 1;
      NoneTerminal(es[..n], id);
      var before := S.Select(es[..n], S.WithId(id));
      assert S.Select(es, S.WithId(id))[..|before|] == before;
      assert forall i :: 0 <= i < |before| ==> !IsTerminal(before[i]);
    }
  }

  // ---------- Whose emission that is ----------

  lemma {:induction false} NoReport(es: seq<S.Emission>, k: nat)
    requires !HasTerminal(S.Select(es, S.OfTask(k)))
    ensures forall j :: 0 <= j < |es| ==> !IsReport(es[j], k)
  {
    forall j | 0 <= j < |es| ensures !IsReport(es[j], k) {
      if IsReport(es[j], k) {
        SelectedFrom(es, S.OfTask(k), j);
        assert false;
      }
    }
  }

  /** The one terminal emission of a task, and the last of its own. */
  ghost predicate ReportsAt(es: seq<S.Emission>, k: nat, t: nat) {
    && t < |es| && IsReport(es[t], k)
    && (forall j :: 0 <= j < |es| && IsReport(es[j], k) ==> j == t)
    && S.Select(es[..t + 1], S.OfTask(k)) == S.Select(es, S.OfTask(k))
  }

  lemma {:induction false} ReportIsLast(es: seq<S.Emission>, k: nat, id: RequestId)
    requires es != [] && es[|es| - 1].origin == S.FromTask(k) && ClosedBlock(S.Select(es, S.OfTask(k)), id)
    ensures ReportsAt(es, k, |es| - 1)
  {
    var n := |es| - 1;
    var all, before := S.Select(es, S.OfTask(k)), S.Select(es[..n], S.OfTask(k));
    assert all[..|all| - 1] == before;
    OpenHasNoTerminal(before, id);
    NoReport(es[..n], k);
    assert forall j :: 0 <= j < n ==> es[..n][j] == es[j];
    assert es[..n + 1] == es;
  }

  lemma {:induction false} ReportIsBefore(es: seq<S.Emission>, k: nat, t: nat)
    requires es != [] && es[|es| - 1].origin != S.FromTask(k) && ReportsAt(es[..|es| - 1], k, t)
    ensures ReportsAt(es, k, t)
  {
    var n := |es| - 1;
    assert forall j :: 0 <= j < n ==> es[..n][j] == es[j];
    assert es[..n][..t + 1] == es[..t + 1];
  }

  /** A task that is done reported once. */
  lemma {:induction false} OneReport(es: seq<S.Emission>, k: nat, id: RequestId)
    requires ClosedBlock(S.Select(es, S.OfTask(k)), id)
    ensures ReportsAt(es, k, ReportOf(es, k))
  {
    var n := |es| - 1;
    if es[n].origin == S.FromTask(k) {
      ReportIsLast(es, k, id);
    } else {
      assert S.Select(es[..n], S.OfTask(k)) == S.Select(es, S.OfTask(k));
      OneReport(es[..n], k, id);
      ReportIsBefore(es, k, ReportOf(es[..n], k));
    }
  }

  lemma {:induction false} OpenHasNoTerminal(fs: seq<PluginFrame>, id: RequestId)
    requires OpenBlock(fs, id)
    ensures !HasTerminal(fs)
  {
  }

  /** A task's emissions bear its own id. */
  lemma {:induction false} TaskEmission(s: S.Server, j: nat)
    requires S.TraceInv(s) && j < |s.emitted| && s.emitted[j].origin.FromTask?
    ensures var k := s.emitted[j].origin.task;
      k < |s.tasks| && RequestIdOf(s.emitted[j].frame) == Some(s.tasks[k].request.id)
  {
    var k := s.emitted[j].origin.task;
    SelectedFrom(s.emitted, S.OfTask(k), j);
    assert s.emitted[j].frame in S.SentBy(s, k);
    assert S.SentShape(s.tasks[k]);
    SentBears(s.tasks[k], s.emitted[j].frame);
  }

  lemma {:induction false} SentBears(t: S.Task, f: PluginFrame)
    requires S.SentShape(t) && f in t.sent
    ensures RequestIdOf(f) == Some(t.request.id)
  {
    var i :| 0 <= i < |t.sent| && t.sent[i] == f;
    if (t.phase.Reported? || t.phase.Removed?) && i < |t.sent| - 1 {
      assert t.sent[..|t.sent| - 1][i] == f;
    }
  }

  /** An emission of an id is of the one task with that id, or of the hook. */
  lemma {:induction false} OfTaskOrHook(x: System, k: nat, j: nat)
    requires Good(x) && k < |x.server.tasks| && j < |x.server.emitted|
    requires RequestIdOf(x.server.emitted[j].frame) == Some(x.server.tasks[k].request.id)
    ensures x.server.emitted[j].origin == S.FromTask(k) || x.server.emitted[j].origin == S.FromHook
  {
    if x.server.emitted[j].origin.FromTask? {
      TaskEmission(x.server, j);
      TasksDistinct(x);
    }
  }

  /** Whether the task or the hook ends its id. */
  lemma {:induction false} WhoEndsIn(es: seq<S.Emission>, id: RequestId, k: nat)
    requires ReportsAt(es, k, ReportOf(es, k)) && EndsId(es[ReportOf(es, k)], id)
    requires forall j :: 0 <= j < |es| && EndsId(es[j], id) ==> IsReport(es[j], k) || es[j].origin == S.FromHook
    requires forall j :: 0 <= j < |es| && es[j].origin.FromHook? && RequestIdOf(es[j].frame) == Some(id) ==>
      EndsId(es[j], id)
    ensures var end, t := EndOf(es, id), ReportOf(es, k);
      && end <= t < |es|
      && (end == t <==> !HookFailedBefore(es, id, t))
      && (es[end].origin == S.FromTask(k) <==> end == t)
      && (end < t ==> es[end].origin == S.FromHook)
  {
    var end, t := EndOf(es, id), ReportOf(es, k);
    if HookFailedBefore(es, id, t) {
      var j :| 0 <= j < t && es[j].origin.FromHook? && RequestIdOf(es[j].frame) == Some(id);
      assert EndsId(es[j], id);
    }
  }

  lemma {:induction false} TaskReported(x: System, k: nat)
    requires Good(x) && k < |x.server.tasks| && Done(x.server.tasks[k])
    ensures var es := x.server.emitted;
      ReportsAt(es, k, ReportOf(es, k)) && S.Select(es, S.OfTask(k)) == x.server.tasks[k].sent
  {
    assert S.SentShape(x.server.tasks[k]);
    assert S.Select(x.server.emitted, S.OfTask(k)) == S.SentBy(x.server, k);
    OneReport(x.server.emitted, k, x.server.tasks[k].request.id);
  }

  lemma {:induction false} WhoEnds(x: System, k: nat)
    requires Good(x) && k < |x.server.tasks| && Done(x.server.tasks[k])
    ensures var es, id := x.server.emitted, x.server.tasks[k].request.id; var end, t := EndOf(es, id), ReportOf(es, k);
      && end <= t < |es|
      && (end == t <==> !HookFailedBefore(es, id, t))
      && (es[end].origin == S.FromTask(k) <==> end == t)
      && (end < t ==> es[end].origin == S.FromHook)
  {
    var es, id := x.server.emitted, x.server.tasks[k].request.id;
    TaskReported(x, k);
    TaskEmission(x.server, ReportOf(es, k));
    forall j | 0 <= j < |es| && EndsId(es[j], id) ensures IsReport(es[j], k) || es[j].origin == S.FromHook {
      OfTaskOrHook(x, k, j);
    }
    WhoEndsIn(es, id, k);
  }

  /** Up to its report, a task that no hook anticipates is all there is of its id. */
  lemma {:induction false} OnlyTheTask(x: System, k: nat, n: nat)
    requires Good(x) && k < |x.server.tasks| && n <= |x.server.emitted|
    requires !HookFailedBefore(x.server.emitted, x.server.tasks[k].request.id, n)
    ensures S.Select(x.server.emitted[..n], S.WithId(x.server.tasks[k].request.id))
         == S.Select(x.server.emitted[..n], S.OfTask(k))
    decreases n
  {
    if n > 0 {
      var es, id := x.server.emitted, x.server.tasks[k].request.id;
      assert es[..n][..n - 1] == es[..n - 1];
      OnlyTheTask(x, k, n - 1);
      if RequestIdOf(es[n - 1].frame) == Some(id) {
        OfTaskOrHook(x, k, n - 1);
      } else if es[n - 1].origin == S.FromTask(k) {
        TaskEmission(x.server, n - 1);
      }
    }
  }

  /**
   Once nothing is under way and the task of an invocation has reported: the frame that ends
   the invocation is the task's own if and only if no cancel hook failed for its id before
   the task reported. Then the invocation holds the whole task. Otherwise `finish` reports
   the error of a hook, whatever the task's outcome.
  */
  lemma {:induction false} HookOrTask(acts: seq<Action>, i: nat, k: nat)
    requires Exec(acts).Some? && |Exec(acts).value.client.invocations| <= ID_SPACE
    requires C.InStage(Exec(acts).value.client, i, C.Sent) && Settled(Exec(acts).value)
    requires k < |Exec(acts).value.server.tasks| && Done(Exec(acts).value.server.tasks[k])
    requires Exec(acts).value.server.tasks[k].request.id == Exec(acts).value.client.invocations[i].request.id
    ensures var x := Exec(acts).value; var es, v := x.server.emitted, x.client.invocations[i]; var id := v.request.id;
      var end := EndOf(es, id);
      && end < |es|
      && (es[end].origin == S.FromTask(k) <==> !HookFailedBefore(es, id, ReportOf(es, k)))
      && (es[end].origin == S.FromTask(k) ==> C.Delivered(v) == x.server.tasks[k].sent)
      && (es[end].origin != S.FromTask(k) ==>
           && es[end].origin == S.FromHook && es[end].frame.Error?
           && Receive(id, [], C.Delivered(v)) == Refused(es[end].frame.error))
  {
    var x := Exec(acts).value;
    Reachable(acts);
    SettledIsGiven(x, i);
    SettledOutcome(acts, i);
    WhoEnds(x, k);
    var es, id := x.server.emitted, x.server.tasks[k].request.id;
    var end := EndOf(es, id);
    UpToEnd(es, id, end);
    if es[end].origin == S.FromTask(k) {
      WholeTask(x, k);
    }
  }

  lemma {:induction false} WholeTask(x: System, k: nat)
    requires Good(x) && k < |x.server.tasks| && Done(x.server.tasks[k])
    requires ReportOf(x.server.emitted, k) < |x.server.emitted|
    requires !HookFailedBefore(x.server.emitted, x.server.tasks[k].request.id, ReportOf(x.server.emitted, k))
    ensures S.Select(x.server.emitted[..ReportOf(x.server.emitted, k) + 1], S.WithId(x.server.tasks[k].request.id))
         == x.server.tasks[k].sent
  {
    TaskReported(x, k);
    NotYet(x.server.emitted, x.server.tasks[k].request.id, ReportOf(x.server.emitted, k));
    OnlyTheTask(x, k, ReportOf(x.server.emitted, k) + 1);
  }

  lemma {:induction false} NotYet(es: seq<S.Emission>, id: RequestId, t: nat)
    requires t < |es| && !es[t].origin.FromHook? && !HookFailedBefore(es, id, t)
    ensures !HookFailedBefore(es, id, t + 1)
  {
  }

  // ---------- A run in which the hook comes first ----------

  /** A request is sent, cancelled while it runs, and its hook fails; then it finishes, and all is delivered. */
  function HookRun(r: InvokeRequest, e: WorkerError, result: InvocationResult): seq<Action> {
    [ClientStep(C.Allocate(r)), ClientStep(C.Register(0)), WriteInvoke(0),
     ServerStep(S.Read), ServerStep(S.Announce), ServerStep(S.Spawn),
     WriteCancel(0), ServerStep(S.Read), ServerStep(S.CancelToken), ServerStep(S.HookReturns(Some(e))),
     ServerStep(S.Report(0, Ok(result))),
     ServerStep(S.WriteOut), ServerStep(S.WriteOut), ServerStep(S.WriteOut),
     ReadFrame, ClientStep(C.Deliver),
     ReadFrame, ClientStep(C.Deliver), ClientStep(C.Forget),
     ReadFrame, ClientStep(C.Deliver), ClientStep(C.Forget)]
  }

  /** The server once it has reported and written everything. */
  function ServerDone(r: InvokeRequest, e: WorkerError, result: InvocationResult): S.Server {
    var started, failed, finished := Started(1), Error(Some(1), e), Finished(1, result);
    S.Server([], [Invoke(r), Cancel(1)], S.Reading, map[1 := 0],
             [S.Task(r, 1, S.Reported, true, [started, finished])],
             [S.Emission(started, S.FromTask(0)), S.Emission(failed, S.FromHook), S.Emission(finished, S.FromTask(0))],
             [], [started, failed, finished])
  }

  function ServerAt(r: InvokeRequest, e: WorkerError, result: InvocationResult, n: nat): S.Server {
    var started, failed, finished := Started(1), Error(Some(1), e), Finished(1, result);
    var first, hook := S.Emission(started, S.FromTask(0)), S.Emission(failed, S.FromHook);
    var t := S.Task(r, 1, S.Running, false, [started]);
    var running := S.Server([], [Invoke(r)], S.Reading, map[1 := 0], [t], [first], [started], []);
    var done := ServerDone(r, e, result);
    if n >= 14 then done
    else if n <= 2 then S.INITIAL
    else if n == 3 then S.INITIAL.(inbox := [Invoke(r)])
    else if n == 4 then
      running.(loop := S.Announcing(0), tasks := [t.(phase := S.Inserted, sent := [])], emitted := [], queue := [])
    else if n == 5 then running.(loop := S.Spawning(0), tasks := [t.(phase := S.Announced)])
    else if n == 6 then running
    else if n == 7 then running.(inbox := [Cancel(1)])
    else if n == 8 then running.(read := [Invoke(r), Cancel(1)], loop := S.Cancelling(1, Some(0)))
    else if n == 9 then
      running.(read := [Invoke(r), Cancel(1)], loop := S.Hooking(1), tasks := [t.(cancelled := true)])
    else if n == 10 then
      running.(read := [Invoke(r), Cancel(1)], tasks := [t.(cancelled := true)],
               emitted := [first, hook], queue := [started, failed])
    else if n == 11 then done.(queue := [started, failed, finished], written := [])
    else if n == 12 then done.(queue := [failed, finished], written := [started])
    else done.(queue := [finished], written := [started, failed])
  }

  function ClientAt(r: InvokeRequest, e: WorkerError, result: InvocationResult, n: nat): C.Client {
    var started, failed, finished := Started(1), Error(Some(1), e), Finished(1, result);
    var v := C.Invocation(r, C.Sent, 0, false, false, [], []);
    var sent := C.Client(2, [v], map[1 := 0], C.Idle, [], []);
    if 3 <= n <= 14 then sent
    else if n == 0 then C.INITIAL
    else if n == 1 then C.Client(2, [v.(stage := C.Allocated)], map[], C.Idle, [], [])
    else if n == 2 then sent.(invocations := [v.(stage := C.Registered)])
    else if n == 15 then sent.(reader := C.Routing(started, Some(0)), log := [started])
    else if n == 16 then sent.(invocations := [v.(queue := [started])], log := [started])
    else if n == 17 then
      sent.(invocations := [v.(queue := [started])], reader := C.Routing(failed, Some(0)), log := [started, failed])
    else if n <= 19 then
      sent.(invocations := [v.(queue := [started, failed])], log := [started, failed],
            pending := if n == 18 then map[1 := 0] else map[], reader := if n == 18 then C.Forgetting(1) else C.Idle)
    else
      C.Client(2, [v.(queue := [started, failed])], map[],
               if n == 20 then C.Routing(finished, None) else if n == 21 then C.Forgetting(1) else C.Idle,
               [started, failed, finished], [])
  }

  function HookState(r: InvokeRequest, e: WorkerError, result: InvocationResult, n: nat): System {
    System(ClientAt(r, e, result, n), ServerAt(r, e, result, n))
  }

  /** A step of the run. */
  ghost predicate Steps(r: InvokeRequest, e: WorkerError, result: InvocationResult, n: nat)
    requires n < |HookRun(r, e, result)|
  {
    var a := HookRun(r, e, result)[n];
    Enabled(HookState(r, e, result, n), a) && Apply(HookState(r, e, result, n), a) == HookState(r, e, result, n + 1)
  }

  lemma {:induction false} SendingSteps(r: InvokeRequest, e: WorkerError, result: InvocationResult, n: nat)
    requires r.id == 1 && n < 3
    ensures Steps(r, e, result, n)
  {
  }

  lemma {:induction false} AcceptStep(r: InvokeRequest, e: WorkerError, result: InvocationResult)
    requires r.id == 1
    ensures Steps(r, e, result, 3)
  {
    var x, y := Apply(HookState(r, e, result, 3), HookRun(r, e, result)[3]), HookState(r, e, result, 4);
    assert x.server.tasks == y.server.tasks && x.server.inbox == y.server.inbox && x.server.read == y.server.read;
    assert x.server.pending == y.server.pending;
  }

  lemma {:induction false} AnnounceStep(r: InvokeRequest, e: WorkerError, result: InvocationResult)
    requires r.id == 1
    ensures Steps(r, e, result, 4)
  {
    var x, y := Apply(HookState(r, e, result, 4), HookRun(r, e, result)[4]), HookState(r, e, result, 5);
    assert x.server.tasks[0].sent == y.server.tasks[0].sent;
    assert x.server.tasks == y.server.tasks;
    assert x.server.emitted == y.server.emitted && x.server.queue == y.server.queue;
  }

  lemma {:induction false} SpawnSteps(r: InvokeRequest, e: WorkerError, result: InvocationResult, n: nat)
    requires r.id == 1 && 5 <= n < 7
    ensures Steps(r, e, result, n)
  {
    var x, y := Apply(HookState(r, e, result, n), HookRun(r, e, result)[n]), HookState(r, e, result, n + 1);
    assert x.server.tasks == y.server.tasks && x.server.inbox == y.server.inbox;
  }

  lemma {:induction false} CancellingSteps(r: InvokeRequest, e: WorkerError, result: InvocationResult, n: nat)
    requires r.id == 1 && 7 <= n < 9
    ensures Steps(r, e, result, n)
  {
    var x, y := Apply(HookState(r, e, result, n), HookRun(r, e, result)[n]), HookState(r, e, result, n + 1);
    assert x.server.tasks == y.server.tasks && x.server.read == y.server.read && x.server.inbox == y.server.inbox;
  }

  lemma {:induction false} HookStep(r: InvokeRequest, e: WorkerError, result: InvocationResult)
    requires r.id == 1
    ensures Steps(r, e, result, 9)
  {
    var x, y := Apply(HookState(r, e, result, 9), HookRun(r, e, result)[9]), HookState(r, e, result, 10);
    assert x.server.emitted == y.server.emitted && x.server.queue == y.server.queue;
  }

  lemma {:induction false} ReportStep(r: InvokeRequest, e: WorkerError, result: InvocationResult)
    requires r.id == 1
    ensures Steps(r, e, result, 10)
  {
    var x, y := Apply(HookState(r, e, result, 10), HookRun(r, e, result)[10]), HookState(r, e, result, 11);
    assert x.server.tasks[0].sent == y.server.tasks[0].sent;
    assert x.server.tasks == y.server.tasks;
    assert x.server.emitted == y.server.emitted && x.server.queue == y.server.queue;
  }

  lemma {:induction false} WritingSteps(r: InvokeRequest, e: WorkerError, result: InvocationResult, n: nat)
    requires r.id == 1 && 11 <= n < 14
    ensures Steps(r, e, result, n)
  {
  }

  lemma {:induction false} RouteStarted(r: InvokeRequest, e: WorkerError, result: InvocationResult)
    requires r.id == 1
    ensures Steps(r, e, result, 14)
  {
    var x, y := Apply(HookState(r, e, result, 14), HookRun(r, e, result)[14]), HookState(r, e, result, 15);
    assert x.client.log == y.client.log;
  }

  lemma {:induction false} DeliverStarted(r: InvokeRequest, e: WorkerError, result: InvocationResult)
    requires r.id == 1
    ensures Steps(r, e, result, 15)
  {
    var x, y := Apply(HookState(r, e, result, 15), HookRun(r, e, result)[15]), HookState(r, e, result, 16);
    assert x.client.invocations[0].queue == y.client.invocations[0].queue;
    assert x.client.invocations == y.client.invocations;
  }

  lemma {:induction false} RouteFailed(r: InvokeRequest, e: WorkerError, result: InvocationResult)
    requires r.id == 1
    ensures Steps(r, e, result, 16)
  {
    var x, y := Apply(HookState(r, e, result, 16), HookRun(r, e, result)[16]), HookState(r, e, result, 17);
    assert x.client.log == y.client.log;
  }

  lemma {:induction false} DeliverFailed(r: InvokeRequest, e: WorkerError, result: InvocationResult)
    requires r.id == 1
    ensures Steps(r, e, result, 17)
  {
    var x, y := Apply(HookState(r, e, result, 17), HookRun(r, e, result)[17]), HookState(r, e, result, 18);
    assert x.client.invocations[0].queue == y.client.invocations[0].queue;
    assert x.client.invocations == y.client.invocations;
  }

  lemma {:induction false} EndingSteps(r: InvokeRequest, e: WorkerError, result: InvocationResult, n: nat)
    requires r.id == 1 && 18 <= n < 22
    ensures Steps(r, e, result, n)
  {
  }

  lemma {:induction false} HookSteps(r: InvokeRequest, e: WorkerError, result: InvocationResult, n: nat)
    requires r.id == 1 && n < |HookRun(r, e, result)|
    ensures Steps(r, e, result, n)
  {
    if n < 3 {
      SendingSteps(r, e, result, n);
    } else if n == 3 {
      AcceptStep(r, e, result);
    } else if n == 4 {
      AnnounceStep(r, e, result);
    } else if n < 7 {
      SpawnSteps(r, e, result, n);
    } else if n < 9 {
      CancellingSteps(r, e, result, n);
    } else if n == 9 {
      HookStep(r, e, result);
    } else if n == 10 {
      ReportStep(r, e, result);
    } else if n < 14 {
      WritingSteps(r, e, result, n);
    } else if n == 14 {
      RouteStarted(r, e, result);
    } else if n == 15 {
      DeliverStarted(r, e, result);
    } else if n == 16 {
      RouteFailed(r, e, result);
    } else if n == 17 {
      DeliverFailed(r, e, result);
    } else {
      EndingSteps(r, e, result, n);
    }
  }

  lemma {:induction false} ExecSnoc(acts: seq<Action>, a: Action)
    requires Exec(acts).Some? && Enabled(Exec(acts).value, a)
    ensures Exec(acts + [a]) == Some(Apply(Exec(acts).value, a))
  {
    assert (acts + [a])[..|acts|] == acts;
  }

  lemma {:induction false} ExecNext(run: seq<Action>, n: nat, x: System, y: System)
    requires n < |run| && Exec(run[..n]) == Some(x) && Enabled(x, run[n]) && Apply(x, run[n]) == y
    ensures Exec(run[..n + 1]) == Some(y)
  {
    assert run[..n + 1] == run[..n] + [run[n]];
    ExecSnoc(run[..n], run[n]);
  }

  lemma {:induction false} HookExec(r: InvokeRequest, e: WorkerError, result: InvocationResult, n: nat)
    requires r.id == 1 && n <= |HookRun(r, e, result)|
    ensures Exec(HookRun(r, e, result)[..n]) == Some(HookState(r, e, result, n))
  {
    var run := HookRun(r, e, result);
    if n == 0 {
      assert run[..0] == [];
    } else {
      HookExec(r, e, result, n - 1);
      HookSteps(r, e, result, n - 1);
      ExecNext(run, n - 1, HookState(r, e, result, n - 1), HookState(r, e, result, n));
    }
  }

  lemma {:induction false} RefusedByHook(e: WorkerError)
    ensures Receive(1, [], [] + [Started(1), Error(Some(1), e)]) == Refused(e)
  {
    var given := [Started(1), Error(Some(1), e)];
    assert [] + given == given && given[1..][0] == Error(Some(1), e);
  }

  /** The task finished, and `finish` reports the hook's error. */
  lemma {:induction false} HookReplacesOutcome(r: InvokeRequest, e: WorkerError, result: InvocationResult)
    requires r.id == 1
    ensures Exec(HookRun(r, e, result)).Some?
    ensures var x := Exec(HookRun(r, e, result)).value;
      && Settled(x) && |x.server.tasks| == 1 && Serves(x.server, 0, r) && Done(x.server.tasks[0])
      && x.server.tasks[0].sent == [Started(1), Finished(1, result)]
      && C.InStage(x.client, 0, C.Sent) && x.client.invocations[0].request == r
      && Receive(1, [], C.Delivered(x.client.invocations[0])) == Refused(e)
  {
    HookExec(r, e, result, 22);
    assert HookRun(r, e, result)[..22] == HookRun(r, e, result);
    RefusedByHook(e);
  }
}
