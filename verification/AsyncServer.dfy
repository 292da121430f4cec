/**
 The multiplexing worker server (`serve_worker` of crates/outboard-tokio/src/lib.rs)
 as a transition system. Its atomic steps are the main loop between two of its
 shared-state accesses, one emission or state change of a request task, one
 frame taken by the writer task, and one frame arriving from the host.

 Frames carry the origin that sent them, which the wire does not.
*/
module AsyncServer {
  import opened Common
  import opened Protocol

  datatype Origin = FromLoop | FromTask(task: nat) | FromRejection | FromHook

  datatype Emission = Emission(frame: PluginFrame, origin: Origin)

  /** A request task, from the insertion of its token to its own removal from `pending`. */
  datatype Phase = Inserted | Announced | Running | Reported | Removed

  datatype Task = Task(
    request: InvokeRequest,
    readAt: nat,             // host frames read when its Invoke had been read
    phase: Phase,
    cancelled: bool,         // its CancellationToken
    sent: seq<PluginFrame>)

  datatype Loop =
    | Reading
    | Rejecting(id: RequestId)                        // id was active; the rejection is not sent yet
    | Announcing(task: nat)                           // token inserted; Started not sent yet
    | Spawning(task: nat)                             // Started sent; task not spawned yet
    | Cancelling(id: RequestId, token: Option<nat>)   // token looked up; not cancelled yet
    | Hooking(id: RequestId)                          // in `handler.cancel`
    | Draining(tokens: set<nat>)                      // Shutdown: tokens still to cancel
    | Joining                                         // waiting for every task
    | Stopped
    | Failed                                          // reading a host frame failed

  datatype Server = Server(
    inbox: seq<HostFrame>,
    read: seq<HostFrame>,
    loop: Loop,
    pending: map<RequestId, nat>,   // id to the task holding its token
    tasks: seq<Task>,
    emitted: seq<Emission>,
    queue: seq<PluginFrame>,        // the channel into the writer task
    written: seq<PluginFrame>)      // what the writer task has written to the pipe

  const INITIAL := Server([], [], Reading, map[], [], [], [], [])

  datatype Action =
    | Arrive(frame: HostFrame)
    | Read
    | ReadFails
    | Reject
    | Announce
    | Spawn
    | CancelToken
    | HookReturns(error: Option<WorkerError>)
    | DrainToken(task: nat)
    | DrainDone
    | Acknowledge
    | Emit(task: nat, event: Event)
    | Report(task: nat, outcome: Outcome)
    | Remove(task: nat)
    | WriteOut

  function Send(s: Server, frame: PluginFrame, origin: Origin): Server {
    s.(emitted := s.emitted + [Emission(frame, origin)], queue := s.queue + [frame])
  }

  function Update(s: Server, k: nat, t: Task): Server
    requires k < |s.tasks|
  {
    s.(tasks := s.tasks[k := t])
  }

  predicate InPhase(s: Server, k: nat, p: Phase) {
    k < |s.tasks| && s.tasks[k].phase == p
  }

  predicate Enabled(s: Server, a: Action) {
    match a
    case Arrive(_) => true
    case Read => s.loop.Reading? && s.inbox != []
    case ReadFails => s.loop.Reading?
    case Reject => s.loop.Rejecting?
    case Announce => s.loop.Announcing? && s.loop.task < |s.tasks|
    case Spawn => s.loop.Spawning? && s.loop.task < |s.tasks|
    case CancelToken => s.loop.Cancelling? && (s.loop.token.Some? ==> s.loop.token.value < |s.tasks|)
    case HookReturns(_) => s.loop.Hooking?
    case DrainToken(k) => s.loop.Draining? && k in s.loop.tokens && k < |s.tasks|
    case DrainDone => s.loop.Draining? && s.loop.tokens == {}
    case Acknowledge => s.loop.Joining? && forall k :: 0 <= k < |s.tasks| ==> s.tasks[k].phase.Removed?
    case Emit(k, _) => InPhase(s, k, Running)
    case Report(k, _) => InPhase(s, k, Running)
    case Remove(k) => InPhase(s, k, Reported)
    case WriteOut => s.queue != []
  }

  function HandleFrame(s: Server, f: HostFrame): Server {
    match f
    case RepeatedHello => Send(s, Error(None, DUPLICATE_HELLO_ASYNC), FromLoop)
    case Ping(nonce) => Send(s, Pong(nonce), FromLoop)
    case Cancel(id) => s.(loop := Cancelling(id, if id in s.pending then Some(s.pending[id]) else None))
    case Shutdown => s.(loop := Draining(s.pending.Values))
    case Invoke(request) =>
      if request.id in s.pending then s.(loop := Rejecting(request.id))
      else
        s.(pending := s.pending[request.id := |s.tasks|],
           tasks := s.tasks + [Task(request, |s.read|, Inserted, false, [])],
           loop := Announcing(|s.tasks|))
  }

  /** A task sends one frame and moves on. */
  function TaskSends(s: Server, k: nat, f: PluginFrame, next: Phase): Server
    requires k < |s.tasks|
  {
    var t := s.tasks[k];
    Send(Update(s, k, t.(phase := next, sent := t.sent + [f])), f, FromTask(k))
  }

  function CancelTask(s: Server, k: nat): Server
    requires k < |s.tasks|
  {
    Update(s, k, s.tasks[k].(cancelled := true))
  }

  function Apply(s: Server, a: Action): Server
    requires Enabled(s, a)
  {
    match a
    case Arrive(f) => s.(inbox := s.inbox + [f])
    case Read => HandleFrame(s.(inbox := s.inbox[1..], read := s.read + [s.inbox[0]]), s.inbox[0])
    case ReadFails => s.(loop := Failed)
    case Reject => Send(s, Error(Some(s.loop.id), DUPLICATE_REQUEST), FromRejection).(loop := Reading)
    case Announce =>
      var k := s.loop.task;
      TaskSends(s, k, Started(s.tasks[k].request.id), Announced).(loop := Spawning(k))
    case Spawn =>
      var k := s.loop.task;
      Update(s, k, s.tasks[k].(phase := Running)).(loop := Reading)
    case CancelToken =>
      var s1 := if s.loop.token.Some? then CancelTask(s, s.loop.token.value) else s;
      s1.(loop := Hooking(s.loop.id))
    case HookReturns(error) =>
      var s1 := if error.Some? then Send(s, Error(Some(s.loop.id), error.value), FromHook) else s;
      s1.(loop := Reading)
    case DrainToken(k) => CancelTask(s, k).(loop := Draining(s.loop.tokens - {k}))
    case DrainDone => s.(loop := Joining)
    case Acknowledge => Send(s, ShutdownAck, FromLoop).(loop := Stopped)
    case Emit(k, event) => TaskSends(s, k, EventFrame(s.tasks[k].request.id, event), Running)
    case Report(k, outcome) => TaskSends(s, k, OutcomeFrame(s.tasks[k].request.id, outcome), Reported)
    case Remove(k) =>
      Update(s, k, s.tasks[k].(phase := Removed)).(pending := s.pending - {s.tasks[k].request.id})
    case WriteOut => s.(queue := s.queue[1..], written := s.written + [s.queue[0]])
  }

  /** The state a schedule leads to, if each of its actions was enabled in turn. */
  function Exec(acts: seq<Action>): Option<Server> {
    if acts == [] then Some(INITIAL)
    else
      var before := Exec(acts[..|acts| - 1]);
      var a := acts[|acts| - 1];
      if before.Some? && Enabled(before.value, a) then Some(Apply(before.value, a)) else None
  }

  // ---------- Projections of what was emitted ----------

  datatype Pick =
    | OfTask(task: nat)
    | SentAs(origin: Origin)
    | OfInvocation(id: RequestId)   // frames of an id sent for one of its tasks
    | WithId(id: RequestId)         // frames of an id, whatever sent them
    | Idless
    | Acks
    | Starts
    | TaskTerminals

  predicate Picks(p: Pick, e: Emission) {
    match p
    case OfTask(k) => e.origin == FromTask(k)
    case SentAs(origin) => e.origin == origin
    case OfInvocation(id) => e.origin.FromTask? && RequestIdOf(e.frame) == Some(id)
    case WithId(id) => RequestIdOf(e.frame) == Some(id)
    case Idless => RequestIdOf(e.frame).None?
    case Acks => e.frame.ShutdownAck?
    case Starts => e.frame.Started?
    case TaskTerminals => e.origin.FromTask? && IsTerminal(e.frame)
  }

  function Select(es: seq<Emission>, p: Pick): seq<PluginFrame> {
    if es == [] then []
    else
      var e := es[|es| - 1];
      Select(es[..|es| - 1], p) + if Picks(p, e) then [e.frame] else []
  }

  lemma {:induction false} SelectSnoc(es: seq<Emission>, e: Emission, p: Pick)
    ensures Select(es + [e], p) == Select(es, p) + if Picks(p, e) then [e.frame] else []
  {
    assert (es + [e])[..|es|] == es;
  }

  function Frames(es: seq<Emission>): seq<PluginFrame> {
    seq(|es|, i requires 0 <= i < |es| => es[i].frame)
  }

  // ---------- Invariant 1: `pending` holds exactly the live tasks ----------

  ghost predicate PendingExact(s: Server) {
    && (forall id :: id in s.pending ==>
         && s.pending[id] < |s.tasks|
         && s.tasks[s.pending[id]].request.id == id
         && !s.tasks[s.pending[id]].phase.Removed?)
    && (forall k :: 0 <= k < |s.tasks| && !s.tasks[k].phase.Removed? ==>
         && s.tasks[k].request.id in s.pending
         && s.pending[s.tasks[k].request.id] == k)
  }

  /** A task is between insertion and spawning exactly while the loop is there with it. */
  ghost predicate LoopHoldsTask(s: Server) {
    && (s.loop.Announcing? ==> InPhase(s, s.loop.task, Inserted))
    && (s.loop.Spawning? ==> InPhase(s, s.loop.task, Announced))
    && (forall k :: 0 <= k < |s.tasks| ==>
         && (s.tasks[k].phase.Inserted? ==> s.loop == Announcing(k))
         && (s.tasks[k].phase.Announced? ==> s.loop == Spawning(k)))
  }

  /** Before a task with a reused id comes in, the earlier ones are gone. */
  ghost predicate ReuseIsSequential(s: Server) {
    forall j, k :: 0 <= j < k < |s.tasks| && s.tasks[j].request.id == s.tasks[k].request.id ==>
      s.tasks[j].phase.Removed?
  }

  ghost predicate TokensExist(s: Server) {
    && (s.loop.Cancelling? && s.loop.token.Some? ==> s.loop.token.value < |s.tasks|)
    && (s.loop.Draining? ==> forall k :: k in s.loop.tokens ==> k < |s.tasks|)
  }

  ghost predicate TasksInv(s: Server) {
    PendingExact(s) && LoopHoldsTask(s) && ReuseIsSequential(s) && TokensExist(s)
  }

  /** Replacing a task by one of the same request and phase. */
  lemma {:induction false} SamePhaseTasks(s: Server, k: nat, t: Task, loop: Loop)
    requires TasksInv(s) && k < |s.tasks| && t.request == s.tasks[k].request && t.phase == s.tasks[k].phase
    requires loop == s.loop || (!s.loop.Announcing? && !s.loop.Spawning? && !loop.Announcing? && !loop.Spawning?)
    requires TokensExist(s.(loop := loop))
    ensures TasksInv(Update(s, k, t).(loop := loop))
  {
    var s' := Update(s, k, t).(loop := loop);
    assert forall j :: 0 <= j < |s.tasks| ==>
        s'.tasks[j].phase == s.tasks[j].phase && s'.tasks[j].request == s.tasks[j].request;
    assert PendingExact(s');
    assert LoopHoldsTask(s');
    assert ReuseIsSequential(s');
  }

  /** A newly accepted task. */
  lemma {:induction false} AcceptTasks(s: Server, r: InvokeRequest, t: Task, s': Server)
    requires TasksInv(s) && s.loop.Reading? && r.id !in s.pending && t.request == r && t.phase.Inserted?
    requires s'.tasks == s.tasks + [t] && s'.pending == s.pending[r.id := |s.tasks|]
    requires s'.loop == Announcing(|s.tasks|)
    ensures TasksInv(s')
  {
    assert PendingExact(s');
    assert LoopHoldsTask(s');
  }

  lemma {:induction false} ReadTasks(s: Server)
    requires TasksInv(s) && Enabled(s, Read)
    ensures TasksInv(Apply(s, Read))
  {
    var s' := Apply(s, Read);
    match s.inbox[0]
    case Shutdown => assert forall k :: k in s.pending.Values ==> k < |s.tasks|;
    case Invoke(r) =>
      if r.id !in s.pending {
        AcceptTasks(s, r, Task(r, |s'.read|, Inserted, false, []), s');
      }
    case _ =>
  }

  /** A task moves to its next phase, the loop with it where it holds it. */
  lemma {:induction false} AdvanceTasks(s: Server, k: nat, t: Task, loop: Loop)
    requires TasksInv(s) && k < |s.tasks| && !s.tasks[k].phase.Removed? && !t.phase.Removed? && !t.phase.Inserted?
    requires t.request == s.tasks[k].request
    requires (s.loop == Announcing(k) && loop == Spawning(k) && t.phase.Announced?)
             || (s.loop == Spawning(k) && loop == Reading && t.phase.Running?)
             || (s.tasks[k].phase.Running? && loop == s.loop && t.phase.Reported?)
    ensures TasksInv(Update(s, k, t).(loop := loop))
  {
    var s' := Update(s, k, t).(loop := loop);
    assert PendingExact(s');
    assert LoopHoldsTask(s');
  }

  lemma {:induction false} RemoveTasks(s: Server, k: nat)
    requires TasksInv(s) && Enabled(s, Remove(k))
    ensures TasksInv(Apply(s, Remove(k)))
  {
    var s' := Apply(s, Remove(k));
    forall id | id in s'.pending
      ensures s'.pending[id] < |s.tasks| && s'.tasks[s'.pending[id]].request.id == id
      ensures !s'.tasks[s'.pending[id]].phase.Removed?
    {
      assert s'.pending[id] == s.pending[id] != k;
    }
    forall j | 0 <= j < |s.tasks| && !s'.tasks[j].phase.Removed?
      ensures s'.tasks[j].request.id in s'.pending && s'.pending[s'.tasks[j].request.id] == j
    {
      assert j != k && s'.tasks[j] == s.tasks[j];
    }
    assert PendingExact(s');
  }

  /** The loop moves while it holds no task. */
  lemma {:induction false} SameTasks(s: Server, s': Server)
    requires TasksInv(s) && s'.tasks == s.tasks && s'.pending == s.pending && TokensExist(s')
    requires s'.loop == s.loop
             || (!s.loop.Announcing? && !s.loop.Spawning? && !s'.loop.Announcing? && !s'.loop.Spawning?)
    ensures TasksInv(s')
  {
  }

  lemma {:induction false} TaskStepTasks(s: Server, a: Action)
    requires TasksInv(s) && Enabled(s, a) && (a.Emit? || a.Report? || a.Remove?)
    ensures TasksInv(Apply(s, a))
  {
    var t := s.tasks[a.task];
    match a
    case Emit(k, event) => SamePhaseTasks(s, k, t.(sent := t.sent + [EventFrame(t.request.id, event)]), s.loop);
    case Report(k, outcome) =>
      AdvanceTasks(s, k, t.(phase := Reported, sent := t.sent + [OutcomeFrame(t.request.id, outcome)]), s.loop);
    case Remove(k) => RemoveTasks(s, k);
  }

  lemma {:induction false} LaunchTasks(s: Server, a: Action)
    requires TasksInv(s) && Enabled(s, a) && (a.Announce? || a.Spawn?)
    ensures TasksInv(Apply(s, a))
  {
    var k := s.loop.task;
    var t := s.tasks[k];
    if a.Announce? {
      AdvanceTasks(s, k, t.(phase := Announced, sent := t.sent + [Started(t.request.id)]), Spawning(k));
    } else {
      AdvanceTasks(s, k, t.(phase := Running), Reading);
    }
  }

  lemma {:induction false} CancelTasks(s: Server, a: Action)
    requires TasksInv(s) && Enabled(s, a) && (a.CancelToken? || a.DrainToken?)
    ensures TasksInv(Apply(s, a))
  {
    match a
    case CancelToken =>
      if s.loop.token.Some? {
        var k := s.loop.token.value;
        SamePhaseTasks(s, k, s.tasks[k].(cancelled := true), Hooking(s.loop.id));
      }
    case DrainToken(k) =>
      SamePhaseTasks(s, k, s.tasks[k].(cancelled := true), Draining(s.loop.tokens - {k}));
  }

  lemma {:induction false} TasksInvStep(s: Server, a: Action)
    requires TasksInv(s) && Enabled(s, a)
    ensures TasksInv(Apply(s, a))
  {
    if a.Read? {
      ReadTasks(s);
    } else if a.Emit? || a.Report? || a.Remove? {
      TaskStepTasks(s, a);
    } else if a.Announce? || a.Spawn? {
      LaunchTasks(s, a);
    } else if a.CancelToken? || a.DrainToken? {
      CancelTasks(s, a);
    } else {
      SameTasks(s, Apply(s, a));
    }
  }

  // ---------- Invariant 2: what was emitted, task by task and id by id ----------

  ghost predicate SentShape(t: Task) {
    match t.phase
    case Inserted => t.sent == []
    case Announced => OpenBlock(t.sent, t.request.id)
    case Running => OpenBlock(t.sent, t.request.id)
    case _ => ClosedBlock(t.sent, t.request.id)
  }

  /** The blocks of the tasks of one id, in the order in which they were accepted. */
  function Blocks(ts: seq<Task>, id: RequestId): seq<PluginFrame> {
    if ts == [] then []
    else
      var t := ts[|ts| - 1];
      Blocks(ts[..|ts| - 1], id) + if t.request.id == id then t.sent else []
  }

  function SentBy(s: Server, k: nat): seq<PluginFrame> {
    if k < |s.tasks| then s.tasks[k].sent else []
  }

  ghost predicate TraceInv(s: Server) {
    && (forall k :: 0 <= k < |s.tasks| ==> SentShape(s.tasks[k]))
    && (forall k: nat :: Select(s.emitted, OfTask(k)) == SentBy(s, k))
    && (forall id: RequestId :: Select(s.emitted, OfInvocation(id)) == Blocks(s.tasks, id))
    && Frames(s.emitted) == s.written + s.queue
  }

  lemma {:induction false} BlocksSnoc(ts: seq<Task>, t: Task, id: RequestId)
    ensures Blocks(ts + [t], id) == Blocks(ts, id) + if t.request.id == id then t.sent else []
  {
    assert (ts + [t])[..|ts|] == ts;
  }

  /** A task that keeps its id and sends nothing leaves every block as it was. */
  lemma {:induction false} BlocksUnchanged(ts: seq<Task>, k: nat, t: Task, id: RequestId)
    requires k < |ts| && t.request == ts[k].request && t.sent == ts[k].sent
    ensures Blocks(ts[k := t], id) == Blocks(ts, id)
  {
    var n := |ts| - 1;
    if k == n {
      assert ts[k := t][..n] == ts[..n];
    } else {
      assert ts[k := t][..n] == ts[..n][k := t];
      BlocksUnchanged(ts[..n], k, t, id);
    }
  }

  /** The last task of its id extends that id's blocks at the end, and no other id's. */
  lemma {:induction false} BlocksExtended(ts: seq<Task>, k: nat, t: Task, f: PluginFrame, id: RequestId)
    requires k < |ts| && t.request == ts[k].request && t.sent == ts[k].sent + [f]
    requires forall j :: k < j < |ts| ==> ts[j].request.id != ts[k].request.id
    ensures Blocks(ts[k := t], id) == Blocks(ts, id) + if t.request.id == id then [f] else []
  {
    var n := |ts| - 1;
    if k == n {
      assert ts[k := t][..n] == ts[..n];
    } else {
      assert ts[k := t][..n] == ts[..n][k := t];
      BlocksExtended(ts[..n], k, t, f, id);
    }
  }

  lemma {:induction false} FramesSnoc(es: seq<Emission>, e: Emission)
    ensures Frames(es + [e]) == Frames(es) + [e.frame]
  {
  }

  /** A live task is the last one of its id. */
  lemma {:induction false} LiveIsLast(s: Server, k: nat)
    requires TasksInv(s) && k < |s.tasks| && !s.tasks[k].phase.Removed?
    ensures forall j :: k < j < |s.tasks| ==> s.tasks[j].request.id != s.tasks[k].request.id
  {
  }

  lemma {:induction false} TaskSendsTrace(s: Server, k: nat, f: PluginFrame, next: Phase)
    requires TasksInv(s) && TraceInv(s) && k < |s.tasks| && !s.tasks[k].phase.Removed?
    requires RequestIdOf(f) == Some(s.tasks[k].request.id)
    requires SentShape(s.tasks[k].(phase := next, sent := s.tasks[k].sent + [f]))
    ensures TraceInv(TaskSends(s, k, f, next))
  {
    var s' := TaskSends(s, k, f, next);
    var e := Emission(f, FromTask(k));
    forall j: nat ensures Select(s'.emitted, OfTask(j)) == SentBy(s', j) {
      SelectSnoc(s.emitted, e, OfTask(j));
    }
    forall id: RequestId ensures Select(s'.emitted, OfInvocation(id)) == Blocks(s'.tasks, id) {
      SelectSnoc(s.emitted, e, OfInvocation(id));
      LiveIsLast(s, k);
      BlocksExtended(s.tasks, k, s'.tasks[k], f, id);
    }
    FramesSnoc(s.emitted, e);
  }

  /** A frame that no task sends changes no task's trace. */
  lemma {:induction false} ForeignEmission(es: seq<Emission>, e: Emission, p: Pick)
    requires !e.origin.FromTask? && (p.OfTask? || p.OfInvocation?)
    ensures Select(es + [e], p) == Select(es, p)
  {
    SelectSnoc(es, e, p);
  }

  lemma {:induction false} SendTrace(s: Server, f: PluginFrame, o: Origin)
    requires TraceInv(s) && !o.FromTask?
    ensures TraceInv(Send(s, f, o))
  {
    var s' := Send(s, f, o);
    var e := Emission(f, o);
    forall j: nat ensures Select(s'.emitted, OfTask(j)) == SentBy(s', j) {
      ForeignEmission(s.emitted, e, OfTask(j));
    }
    forall id: RequestId ensures Select(s'.emitted, OfInvocation(id)) == Blocks(s'.tasks, id) {
      ForeignEmission(s.emitted, e, OfInvocation(id));
    }
    FramesSnoc(s.emitted, e);
  }

  lemma {:induction false} UpdateTrace(s: Server, k: nat, t: Task)
    requires TraceInv(s) && k < |s.tasks| && SentShape(t)
    requires t.request == s.tasks[k].request && t.sent == s.tasks[k].sent
    ensures TraceInv(Update(s, k, t))
  {
    forall id: RequestId ensures Blocks(s.tasks[k := t], id) == Blocks(s.tasks, id) {
      BlocksUnchanged(s.tasks, k, t, id);
    }
  }

  lemma {:induction false} AcceptTrace(s: Server, s': Server, t: Task)
    requires TraceInv(s) && t.phase.Inserted? && t.sent == []
    requires s'.tasks == s.tasks + [t] && s'.emitted == s.emitted && s'.written == s.written && s'.queue == s.queue
    ensures TraceInv(s')
  {
    forall id: RequestId ensures Blocks(s'.tasks, id) == Blocks(s.tasks, id) {
      BlocksSnoc(s.tasks, t, id);
    }
  }

  lemma {:induction false} ReadTrace(s: Server)
    requires TraceInv(s) && Enabled(s, Read)
    ensures TraceInv(Apply(s, Read))
  {
    var f := s.inbox[0];
    var s1 := s.(inbox := s.inbox[1..], read := s.read + [f]);
    assert TraceInv(s1);
    match f
    case RepeatedHello => SendTrace(s1, Error(None, DUPLICATE_HELLO_ASYNC), FromLoop);
    case Ping(nonce) => SendTrace(s1, Pong(nonce), FromLoop);
    case Cancel(_) =>
    case Shutdown =>
    case Invoke(request) =>
      if request.id !in s.pending {
        AcceptTrace(s1, Apply(s, Read), Task(request, |s1.read|, Inserted, false, []));
      }
  }

  lemma {:induction false} OutputTrace(s: Server, a: Action)
    requires TasksInv(s) && TraceInv(s) && Enabled(s, a) && (a.Announce? || a.Emit? || a.Report?)
    ensures TraceInv(Apply(s, a))
  {
    var k := if a.Announce? then s.loop.task else a.task;
    var t := s.tasks[k];
    match a {
      case Announce => TaskSendsTrace(s, k, Started(t.request.id), Announced);
      case Emit(_, event) => TaskSendsTrace(s, k, EventFrame(t.request.id, event), Running);
      case Report(_, outcome) =>
        var f := OutcomeFrame(t.request.id, outcome);
        assert (t.sent + [f])[..|t.sent|] == t.sent;
        TaskSendsTrace(s, k, f, Reported);
    }
  }

  lemma {:induction false} SilentTrace(s: Server, a: Action)
    requires TasksInv(s) && TraceInv(s) && Enabled(s, a) && (a.Spawn? || a.CancelToken? || a.DrainToken? || a.Remove?)
    ensures TraceInv(Apply(s, a))
  {
    match a {
      case Spawn => UpdateTrace(s, s.loop.task, s.tasks[s.loop.task].(phase := Running));
      case CancelToken =>
        if s.loop.token.Some? {
          UpdateTrace(s, s.loop.token.value, s.tasks[s.loop.token.value].(cancelled := true));
        }
      case DrainToken(k) => UpdateTrace(s, k, s.tasks[k].(cancelled := true));
      case Remove(k) => UpdateTrace(s, k, s.tasks[k].(phase := Removed));
    }
  }

  lemma {:induction false} SameTrace(s: Server, s': Server)
    requires TraceInv(s) && s'.tasks == s.tasks && s'.emitted == s.emitted
    requires s'.written + s'.queue == s.written + s.queue
    ensures TraceInv(s')
  {
    assert forall k: nat :: SentBy(s', k) == SentBy(s, k);
  }

  lemma {:induction false} LoopTrace(s: Server, a: Action)
    requires TraceInv(s) && Enabled(s, a) && (a.Reject? || a.HookReturns? || a.Acknowledge?)
    ensures TraceInv(Apply(s, a))
  {
    match a
    case Reject => SendTrace(s, Error(Some(s.loop.id), DUPLICATE_REQUEST), FromRejection);
    case HookReturns(error) =>
      if error.Some? {
        SendTrace(s, Error(Some(s.loop.id), error.value), FromHook);
      }
    case Acknowledge => SendTrace(s, ShutdownAck, FromLoop);
  }

  lemma {:induction false} TraceInvStep(s: Server, a: Action)
    requires TasksInv(s) && TraceInv(s) && Enabled(s, a)
    ensures TraceInv(Apply(s, a))
  {
    if a.Read? {
      ReadTrace(s);
    } else if a.Reject? || a.HookReturns? || a.Acknowledge? {
      LoopTrace(s, a);
    } else if a.Announce? || a.Emit? || a.Report? {
      OutputTrace(s, a);
    } else if a.Spawn? || a.CancelToken? || a.DrainToken? || a.Remove? {
      SilentTrace(s, a);
    } else {
      SameTrace(s, Apply(s, a));
    }
  }
}
