/** What every schedule of the multiplexing server keeps. */
module ServerTheorems {
  import opened Common
  import opened Protocol
  import opened AsyncServer

  lemma {:induction false} ServerInvariant(acts: seq<Action>)
    requires Exec(acts).Some?
    ensures TasksInv(Exec(acts).value) && TraceInv(Exec(acts).value)
  {
    if acts != [] {
      var s := Exec(acts[..|acts| - 1]).value;
      var a := acts[|acts| - 1];
      ServerInvariant(acts[..|acts| - 1]);
      TasksInvStep(s, a);
      TraceInvStep(s, a);
    }
  }

  // ---------- Grammar of the frames of one id ----------

  datatype Verdict = Closed | Open | Bad

  /** The automaton of (Started (Progress|Output)* (Finished|Error))*. */
  function Next(from: Verdict, f: PluginFrame, id: RequestId): Verdict {
    match from
    case Closed => if f == Started(id) then Open else Bad
    case Open => if IsEventOf(f, id) then Open else if IsTerminalOf(f, id) then Closed else Bad
    case Bad => Bad
  }

  function Scan(from: Verdict, fs: seq<PluginFrame>, id: RequestId): Verdict
    decreases |fs|
  {
    if fs == [] then from else Scan(Next(from, fs[0], id), fs[1..], id)
  }

  lemma {:induction false} ScanConcat(from: Verdict, a: seq<PluginFrame>, b: seq<PluginFrame>, id: RequestId)
    ensures Scan(from, a + b, id) == Scan(Scan(from, a, id), b, id)
    decreases |a|
  {
    if a == [] {
      assert a + b == b;
    } else {
      assert (a + b)[1..] == a[1..] + b;
      ScanConcat(Next(from, a[0], id), a[1..], b, id);
    }
  }

  lemma {:induction false} ScanEvents(fs: seq<PluginFrame>, id: RequestId)
    requires forall i :: 0 <= i < |fs| ==> IsEventOf(fs[i], id)
    ensures Scan(Open, fs, id) == Open
  {
    if fs != [] {
      ScanEvents(fs[1..], id);
    }
  }

  lemma {:induction false} ScanBlock(fs: seq<PluginFrame>, id: RequestId)
    ensures OpenBlock(fs, id) ==> Scan(Closed, fs, id) == Open
    ensures ClosedBlock(fs, id) ==> Scan(Closed, fs, id) == Closed
  {
    if OpenBlock(fs, id) {
      ScanEvents(fs[1..], id);
    }
    if ClosedBlock(fs, id) {
      var n := |fs| - 1;
      ScanEvents(fs[..n][1..], id);
      ScanConcat(Closed, fs[..n], fs[n..], id);
      assert fs == fs[..n] + fs[n..];
    }
  }

  predicate Active(t: Task) {
    t.phase.Announced? || t.phase.Running?
  }

  /** A task of this id has announced itself and not reported. */
  ghost predicate HasActive(ts: seq<Task>, id: RequestId) {
    exists k :: 0 <= k < |ts| && ts[k].request.id == id && Active(ts[k])
  }

  lemma {:induction false} HasActiveSnoc(ts: seq<Task>, t: Task, id: RequestId)
    ensures HasActive(ts + [t], id) <==> HasActive(ts, id) || (t.request.id == id && Active(t))
  {
    var us := ts + [t];
    if HasActive(ts, id) {
      var k :| 0 <= k < |ts| && ts[k].request.id == id && Active(ts[k]);
      assert us[k].request.id == id && Active(us[k]);
    }
    assert us[|ts|] == t;
  }

  lemma {:induction false} ScanTasks(ts: seq<Task>, id: RequestId)
    requires forall k :: 0 <= k < |ts| ==> SentShape(ts[k])
    requires forall j, k :: 0 <= j < k < |ts| && ts[j].request.id == ts[k].request.id ==> ts[j].phase.Removed?
    ensures Scan(Closed, Blocks(ts, id), id) == if HasActive(ts, id) then Open else Closed
  {
    if ts != [] {
      var n := |ts| - 1;
      ScanTasks(ts[..n], id);
      assert ts == ts[..n] + [ts[n]];
      HasActiveSnoc(ts[..n], ts[n], id);
      if ts[n].request.id == id {
        assert !HasActive(ts[..n], id);
        ScanConcat(Closed, Blocks(ts[..n], id), ts[n].sent, id);
        ScanBlock(ts[n].sent, id);
      } else {
        assert Blocks(ts, id) == Blocks(ts[..n], id);
      }
    }
  }

  /**
   In every schedule, reused ids included, the frames sent for one id's tasks form
   complete blocks, the last one open exactly while a task of that id has announced
   itself and not reported; and no two tasks of one id are live together.
  */
  lemma {:induction false} PerIdGrammar(acts: seq<Action>, id: RequestId)
    requires Exec(acts).Some?
    ensures var s := Exec(acts).value;
      && Scan(Closed, Select(s.emitted, OfInvocation(id)), id) == (if HasActive(s.tasks, id) then Open else Closed)
      && forall j, k :: 0 <= j < k < |s.tasks| && s.tasks[j].request.id == s.tasks[k].request.id ==>
           s.tasks[j].phase.Removed?
  {
    ServerInvariant(acts);
    ScanTasks(Exec(acts).value.tasks, id);
  }

  // ---------- Graceful shutdown ----------

  /** How many tasks have sent their Started frame, or their terminal frame. */
  function Count(ts: seq<Task>, terminal: bool): nat {
    if ts == [] then 0
    else
      Count(ts[..|ts| - 1], terminal) + if Reached(ts[|ts| - 1], terminal) then 1 else 0
  }

  predicate Reached(t: Task, terminal: bool) {
    if terminal then t.phase.Reported? || t.phase.Removed? else !t.phase.Inserted?
  }

  lemma {:induction false} CountUpdate(ts: seq<Task>, k: nat, t: Task, terminal: bool)
    requires k < |ts|
    ensures Count(ts[k := t], terminal) + (if Reached(ts[k], terminal) then 1 else 0)
         == Count(ts, terminal) + if Reached(t, terminal) then 1 else 0
  {
    var n := |ts| - 1;
    if k == n {
      assert ts[k := t][..n] == ts[..n];
    } else {
      assert ts[k := t][..n] == ts[..n][k := t];
      CountUpdate(ts[..n], k, t, terminal);
    }
  }

  lemma {:induction false} CountAll(ts: seq<Task>, terminal: bool)
    requires forall k :: 0 <= k < |ts| ==> ts[k].phase.Removed?
    ensures Count(ts, terminal) == |ts|
  {
    if ts != [] {
      CountAll(ts[..|ts| - 1], terminal);
    }
  }

  ghost predicate CountInv(s: Server) {
    && |Select(s.emitted, Starts)| == Count(s.tasks, false)
    && |Select(s.emitted, TaskTerminals)| == Count(s.tasks, true)
  }

  ghost predicate ShutdownInv(s: Server) {
    && Select(s.emitted, Acks) == (if s.loop.Stopped? then [ShutdownAck] else [])
    && (s.loop.Stopped? ==>
         && s.emitted != [] && s.emitted[|s.emitted| - 1].frame == ShutdownAck
         && (forall k :: 0 <= k < |s.tasks| ==> s.tasks[k].phase.Removed?))
  }

  lemma {:induction false} CountSend(s: Server, f: PluginFrame, o: Origin)
    ensures Select(Send(s, f, o).emitted, Starts) == Select(s.emitted, Starts) + if f.Started? then [f] else []
    ensures Select(Send(s, f, o).emitted, TaskTerminals)
         == Select(s.emitted, TaskTerminals) + if o.FromTask? && IsTerminal(f) then [f] else []
    ensures Select(Send(s, f, o).emitted, Acks) == Select(s.emitted, Acks) + if f.ShutdownAck? then [f] else []
  {
    SelectSnoc(s.emitted, Emission(f, o), Starts);
    SelectSnoc(s.emitted, Emission(f, o), TaskTerminals);
    SelectSnoc(s.emitted, Emission(f, o), Acks);
  }

  lemma {:induction false} CountTaskSends(s: Server, k: nat, f: PluginFrame, next: Phase)
    requires CountInv(s) && ShutdownInv(s) && k < |s.tasks| && !s.tasks[k].phase.Removed? && !f.ShutdownAck?
    requires f.Started? <==> s.tasks[k].phase.Inserted?
    requires IsTerminal(f) <==> next.Reported?
    requires !next.Inserted? && !next.Removed? && !s.tasks[k].phase.Reported?
    ensures CountInv(TaskSends(s, k, f, next)) && ShutdownInv(TaskSends(s, k, f, next))
  {
    var t := s.tasks[k].(phase := next, sent := s.tasks[k].sent + [f]);
    CountSend(Update(s, k, t), f, FromTask(k));
    CountUpdate(s.tasks, k, t, false);
    CountUpdate(s.tasks, k, t, true);
  }

  /** Nothing is sent and no task changes. */
  lemma {:induction false} CountSame(s: Server, s': Server)
    requires CountInv(s) && ShutdownInv(s) && s'.tasks == s.tasks && s'.emitted == s.emitted
    requires s'.loop.Stopped? <==> s.loop.Stopped?
    ensures CountInv(s') && ShutdownInv(s')
  {
  }

  /** The loop answers a frame before shutting down. */
  lemma {:induction false} CountAnswered(s: Server, s': Server, f: PluginFrame)
    requires CountInv(s) && ShutdownInv(s) && s'.tasks == s.tasks && s'.emitted == Send(s, f, FromLoop).emitted
    requires !s.loop.Stopped? && !s'.loop.Stopped? && !f.Started? && !f.ShutdownAck?
    ensures CountInv(s') && ShutdownInv(s')
  {
    CountSend(s, f, FromLoop);
  }

  lemma {:induction false} CountAccepted(s: Server, s': Server, t: Task)
    requires CountInv(s) && ShutdownInv(s) && s'.tasks == s.tasks + [t] && s'.emitted == s.emitted
    requires !s.loop.Stopped? && !s'.loop.Stopped? && t.phase.Inserted?
    ensures CountInv(s') && ShutdownInv(s')
  {
    assert s'.tasks[..|s.tasks|] == s.tasks;
  }

  lemma {:induction false} CountRead(s: Server)
    requires CountInv(s) && ShutdownInv(s) && Enabled(s, Read)
    ensures CountInv(Apply(s, Read)) && ShutdownInv(Apply(s, Read))
  {
    var s' := Apply(s, Read);
    match s.inbox[0]
    case RepeatedHello => CountAnswered(s, s', Error(None, DUPLICATE_HELLO_ASYNC));
    case Ping(nonce) => CountAnswered(s, s', Pong(nonce));
    case Cancel(_) => CountSame(s, s');
    case Shutdown => CountSame(s, s');
    case Invoke(r) =>
      if r.id in s.pending {
        CountSame(s, s');
      } else {
        CountAccepted(s, s', Task(r, |s'.read|, Inserted, false, []));
      }
  }

  lemma {:induction false} CountOutput(s: Server, a: Action)
    requires TasksInv(s) && CountInv(s) && ShutdownInv(s) && Enabled(s, a) && (a.Announce? || a.Emit? || a.Report?)
    ensures CountInv(Apply(s, a)) && ShutdownInv(Apply(s, a))
  {
    match a
    case Announce => CountTaskSends(s, s.loop.task, Started(s.tasks[s.loop.task].request.id), Announced);
      CountSame(TaskSends(s, s.loop.task, Started(s.tasks[s.loop.task].request.id), Announced), Apply(s, a));
    case Emit(k, event) => CountTaskSends(s, k, EventFrame(s.tasks[k].request.id, event), Running);
    case Report(k, outcome) => CountTaskSends(s, k, OutcomeFrame(s.tasks[k].request.id, outcome), Reported);
  }

  lemma {:induction false} CountStep(s: Server, a: Action)
    requires TasksInv(s) && CountInv(s) && ShutdownInv(s) && Enabled(s, a)
    ensures CountInv(Apply(s, a)) && ShutdownInv(Apply(s, a))
  {
    if a.Announce? || a.Emit? || a.Report? {
      CountOutput(s, a);
    } else if a.Read? {
      CountRead(s);
    } else if a.CancelToken? {
      CountCancelToken(s);
    } else if a.Spawn? || a.DrainToken? || a.Remove? {
      CountSilent(s, a);
    } else if a.Reject? || a.HookReturns? || a.Acknowledge? {
      CountLoop(s, a);
    } else {
      CountSame(s, Apply(s, a));
    }
  }

  lemma {:induction false} CountLoop(s: Server, a: Action)
    requires CountInv(s) && ShutdownInv(s) && Enabled(s, a) && (a.Reject? || a.HookReturns? || a.Acknowledge?)
    ensures CountInv(Apply(s, a)) && ShutdownInv(Apply(s, a))
  {
    match a
    case Reject => CountSend(s, Error(Some(s.loop.id), DUPLICATE_REQUEST), FromRejection);
    case HookReturns(error) =>
      if error.Some? {
        CountSend(s, Error(Some(s.loop.id), error.value), FromHook);
      }
    case Acknowledge => CountSend(s, ShutdownAck, FromLoop);
  }

  /** A task changes without sending: no count moves. */
  lemma {:induction false} CountUpdated(s: Server, k: nat, t: Task, s': Server)
    requires CountInv(s) && ShutdownInv(s) && k < |s.tasks|
    requires Reached(t, false) == Reached(s.tasks[k], false) && Reached(t, true) == Reached(s.tasks[k], true)
    requires s'.tasks == s.tasks[k := t] && s'.emitted == s.emitted
    requires s.tasks[k].phase.Removed? ==> t.phase.Removed?
    requires s'.loop.Stopped? <==> s.loop.Stopped?
    ensures CountInv(s') && ShutdownInv(s')
  {
    CountUpdate(s.tasks, k, t, false);
    CountUpdate(s.tasks, k, t, true);
  }

  lemma {:induction false} CountCancelToken(s: Server)
    requires CountInv(s) && ShutdownInv(s) && Enabled(s, CancelToken)
    ensures CountInv(Apply(s, CancelToken)) && ShutdownInv(Apply(s, CancelToken))
  {
    if s.loop.token.Some? {
      var k := s.loop.token.value;
      CountUpdated(s, k, s.tasks[k].(cancelled := true), Apply(s, CancelToken));
    }
  }

  lemma {:induction false} CountSilent(s: Server, a: Action)
    requires TasksInv(s) && CountInv(s) && ShutdownInv(s) && Enabled(s, a)
    requires a.Spawn? || a.DrainToken? || a.Remove?
    ensures CountInv(Apply(s, a)) && ShutdownInv(Apply(s, a))
  {
    match a
    case Spawn => CountUpdated(s, s.loop.task, s.tasks[s.loop.task].(phase := Running), Apply(s, a));
    case DrainToken(k) => CountUpdated(s, k, s.tasks[k].(cancelled := true), Apply(s, a));
    case Remove(k) => CountUpdated(s, k, s.tasks[k].(phase := Removed), Apply(s, a));
  }

  lemma {:induction false} ShutdownInvariant(acts: seq<Action>)
    requires Exec(acts).Some?
    ensures CountInv(Exec(acts).value) && ShutdownInv(Exec(acts).value)
  {
    if acts != [] {
      ServerInvariant(acts[..|acts| - 1]);
      ShutdownInvariant(acts[..|acts| - 1]);
      CountStep(Exec(acts[..|acts| - 1]).value, acts[|acts| - 1]);
    }
  }

  /**
   ShutdownAck is sent at most once and then is the last frame of all, whatever is
   scheduled afterwards; when it has been sent no request is pending and every Started
   frame has its terminal frame.
  */
  lemma {:induction false} GracefulShutdown(acts: seq<Action>)
    requires Exec(acts).Some?
    ensures var s := Exec(acts).value;
      && |Select(s.emitted, Acks)| <= 1
      && (Select(s.emitted, Acks) != [] ==>
           && s.emitted[|s.emitted| - 1].frame == ShutdownAck
           && s.pending == map[]
           && |Select(s.emitted, Starts)| == |Select(s.emitted, TaskTerminals)| == |s.tasks|)
  {
    ServerInvariant(acts);
    ShutdownInvariant(acts);
    var s := Exec(acts).value;
    if s.loop.Stopped? {
      CountAll(s.tasks, false);
      CountAll(s.tasks, true);
      assert s.pending.Keys == {};
    }
  }

  // ---------- Cancellation ----------

  /** A Cancel for `id`, or a Shutdown, was read after the first `from` host frames. */
  ghost predicate CancelRead(read: seq<HostFrame>, from: nat, id: RequestId) {
    exists j :: from <= j < |read| && (read[j] == Cancel(id) || read[j] == Shutdown)
  }

  ghost predicate ReadAtInv(s: Server) {
    forall k :: 0 <= k < |s.tasks| ==> s.tasks[k].readAt <= |s.read|
  }

  ghost predicate CancelInv(s: Server) {
    && ReadAtInv(s)
    && (forall k :: 0 <= k < |s.tasks| && s.tasks[k].cancelled ==>
         CancelRead(s.read, s.tasks[k].readAt, s.tasks[k].request.id))
    && (s.loop.Cancelling? && s.loop.token.Some? ==>
         var k := s.loop.token.value;
         k < |s.tasks| && CancelRead(s.read, s.tasks[k].readAt, s.tasks[k].request.id))
    && (s.loop.Draining? ==>
         && (forall k :: 0 <= k < |s.tasks| ==> CancelRead(s.read, s.tasks[k].readAt, s.tasks[k].request.id))
         && (forall k :: 0 <= k < |s.tasks| && !s.tasks[k].phase.Removed? ==>
              s.tasks[k].cancelled || k in s.loop.tokens))
    && (s.loop.Joining? ==>
         forall k :: 0 <= k < |s.tasks| && !s.tasks[k].phase.Removed? ==> s.tasks[k].cancelled)
  }

  lemma {:induction false} CancelReadSnoc(read: seq<HostFrame>, h: HostFrame, from: nat, id: RequestId)
    ensures CancelRead(read, from, id) ==> CancelRead(read + [h], from, id)
    ensures from <= |read| && (h == Cancel(id) || h == Shutdown) ==> CancelRead(read + [h], from, id)
  {
    if CancelRead(read, from, id) {
      var j :| from <= j < |read| && (read[j] == Cancel(id) || read[j] == Shutdown);
      assert (read + [h])[j] == read[j];
    }
    assert (read + [h])[|read|] == h;
  }

  lemma {:induction false} ReadCancels(s: Server)
    requires TasksInv(s) && CancelInv(s) && Enabled(s, Read)
    ensures CancelInv(Apply(s, Read))
  {
    var h := s.inbox[0];
    forall k | 0 <= k < |s.tasks|
      ensures var t := s.tasks[k];
        && (CancelRead(s.read, t.readAt, t.request.id) ==> CancelRead(s.read + [h], t.readAt, t.request.id))
        && (h == Cancel(t.request.id) || h == Shutdown ==> CancelRead(s.read + [h], t.readAt, t.request.id))
    {
      CancelReadSnoc(s.read, h, s.tasks[k].readAt, s.tasks[k].request.id);
    }
  }

  /** Steps that neither read nor cancel: requests stay, tasks only move on. */
  lemma {:induction false} OtherCancels(s: Server, s': Server)
    requires CancelInv(s) && s'.read == s.read && |s'.tasks| == |s.tasks|
    requires forall k :: 0 <= k < |s.tasks| ==>
      && s'.tasks[k].readAt == s.tasks[k].readAt && s'.tasks[k].request == s.tasks[k].request
      && s'.tasks[k].cancelled == s.tasks[k].cancelled
      && (s.tasks[k].phase.Removed? ==> s'.tasks[k].phase.Removed?)
    requires s'.loop == s.loop || !(s'.loop.Cancelling? || s'.loop.Draining? || s'.loop.Joining?)
    ensures CancelInv(s')
  {
  }

  lemma {:induction false} TokenCancels(s: Server, a: Action)
    requires TasksInv(s) && CancelInv(s) && Enabled(s, a) && (a.CancelToken? || a.DrainToken? || a.DrainDone?)
    ensures CancelInv(Apply(s, a))
  {
  }

  lemma {:induction false} CancelStep(s: Server, a: Action)
    requires TasksInv(s) && CancelInv(s) && Enabled(s, a)
    ensures CancelInv(Apply(s, a))
  {
    if a.Read? {
      ReadCancels(s);
    } else if !a.CancelToken? && !a.DrainToken? && !a.DrainDone? {
      OtherCancels(s, Apply(s, a));
    } else {
      TokenCancels(s, a);
    }
  }

  lemma {:induction false} CancelInvariant(acts: seq<Action>)
    requires Exec(acts).Some?
    ensures CancelInv(Exec(acts).value)
  {
    if acts != [] {
      ServerInvariant(acts[..|acts| - 1]);
      CancelInvariant(acts[..|acts| - 1]);
      CancelStep(Exec(acts[..|acts| - 1]).value, acts[|acts| - 1]);
    }
  }

  /** The loop is about to cancel this task. */
  predicate ToCancel(loop: Loop, k: nat) {
    (loop.Cancelling? && loop.token == Some(k)) || (loop.Draining? && k in loop.tokens)
  }

  /** A live task that was to be cancelled is, or is about to be. */
  ghost predicate Heeded(s: Server, k: nat)
    requires k < |s.tasks|
  {
    var t := s.tasks[k];
    !t.phase.Removed? && CancelRead(s.read, t.readAt, t.request.id) ==> t.cancelled || ToCancel(s.loop, k)
  }

  ghost predicate HeedInv(s: Server) {
    ReadAtInv(s) && forall k :: 0 <= k < |s.tasks| ==> Heeded(s, k)
  }

  /** What one more host frame asks of a task. */
  lemma {:induction false} CancelReadOneMore(read: seq<HostFrame>, h: HostFrame, from: nat, id: RequestId)
    requires CancelRead(read + [h], from, id)
    ensures CancelRead(read, from, id) || h == Cancel(id) || h == Shutdown
  {
    var j :| from <= j < |read + [h]| && ((read + [h])[j] == Cancel(id) || (read + [h])[j] == Shutdown);
    if j < |read| {
      assert read[j] == (read + [h])[j];
    }
  }

  lemma {:induction false} ReadHeeds(s: Server, k: nat)
    requires TasksInv(s) && HeedInv(s) && Enabled(s, Read) && k < |s.tasks|
    ensures k < |Apply(s, Read).tasks| && Heeded(Apply(s, Read), k)
  {
    var h, s', t := s.inbox[0], Apply(s, Read), s.tasks[k];
    assert s'.tasks[k] == t && Heeded(s, k);
    if !t.phase.Removed? && CancelRead(s'.read, t.readAt, t.request.id) {
      CancelReadOneMore(s.read, h, t.readAt, t.request.id);
      assert s.pending[t.request.id] == k;
      assert k in s.pending.Values;
    }
  }

  lemma {:induction false} ReadKeepsHeed(s: Server)
    requires TasksInv(s) && HeedInv(s) && Enabled(s, Read)
    ensures HeedInv(Apply(s, Read))
  {
    var s' := Apply(s, Read);
    forall k | 0 <= k < |s'.tasks| ensures Heeded(s', k) {
      if k < |s.tasks| {
        ReadHeeds(s, k);
      }
    }
  }

  /** Steps that read nothing, in which no task goes back on its token and the loop drops no task it was to cancel. */
  lemma {:induction false} OtherHeeds(s: Server, s': Server)
    requires HeedInv(s) && s'.read == s.read && |s'.tasks| == |s.tasks|
    requires forall k :: 0 <= k < |s.tasks| ==>
      && s'.tasks[k].readAt == s.tasks[k].readAt && s'.tasks[k].request == s.tasks[k].request
      && (s.tasks[k].phase.Removed? ==> s'.tasks[k].phase.Removed?)
      && (s.tasks[k].cancelled || ToCancel(s.loop, k) ==> s'.tasks[k].cancelled || ToCancel(s'.loop, k))
    ensures HeedInv(s')
  {
    forall k | 0 <= k < |s'.tasks| ensures Heeded(s', k) {
      assert Heeded(s, k);
    }
  }

  lemma {:induction false} HeedStep(s: Server, a: Action)
    requires TasksInv(s) && HeedInv(s) && Enabled(s, a)
    ensures HeedInv(Apply(s, a))
  {
    if a.Read? {
      ReadKeepsHeed(s);
    } else {
      OtherHeeds(s, Apply(s, a));
    }
  }

  lemma {:induction false} HeedInvariant(acts: seq<Action>)
    requires Exec(acts).Some?
    ensures HeedInv(Exec(acts).value)
  {
    if acts != [] {
      ServerInvariant(acts[..|acts| - 1]);
      HeedInvariant(acts[..|acts| - 1]);
      HeedStep(Exec(acts[..|acts| - 1]).value, acts[|acts| - 1]);
    }
  }

  /**
   Whenever the loop is not itself in the middle of cancelling, a live task is cancelled if
   and only if, after its own Invoke was read, a Cancel of its id or a Shutdown was read; and
   no task is ever cancelled for any other reason. A task that has gone, cancelled or not,
   sent exactly one block.
  */
  lemma {:induction false} CancellationIsolation(acts: seq<Action>, k: nat)
    requires Exec(acts).Some? && k < |Exec(acts).value.tasks|
    ensures var s := Exec(acts).value; var t := s.tasks[k];
      && (t.cancelled ==> CancelRead(s.read, t.readAt, t.request.id))
      && (!t.phase.Removed? && !ToCancel(s.loop, k) ==> (t.cancelled <==> CancelRead(s.read, t.readAt, t.request.id)))
      && (s.loop.Joining? && !t.phase.Removed? ==> t.cancelled)
      && (t.phase.Removed? ==> ClosedBlock(Select(s.emitted, OfTask(k)), t.request.id))
  {
    ServerInvariant(acts);
    CancelInvariant(acts);
    HeedInvariant(acts);
    assert Heeded(Exec(acts).value, k);
  }

  lemma {:induction false} CancelledStays(s: Server, a: Action, k: nat)
    requires Enabled(s, a) && k < |s.tasks| && s.tasks[k].cancelled
    ensures k < |Apply(s, a).tasks| && Apply(s, a).tasks[k].cancelled
    ensures Apply(s, a).tasks[k].request == s.tasks[k].request
  {
  }

  /** Cancellation is never withdrawn, however the schedule goes on. */
  lemma {:induction false} CancellationIsPermanent(acts: seq<Action>, more: seq<Action>, k: nat)
    requires Exec(acts).Some? && Exec(acts + more).Some?
    requires k < |Exec(acts).value.tasks| && Exec(acts).value.tasks[k].cancelled
    ensures k < |Exec(acts + more).value.tasks| && Exec(acts + more).value.tasks[k].cancelled
    ensures Exec(acts + more).value.tasks[k].request == Exec(acts).value.tasks[k].request
  {
    if more == [] {
      assert acts + more == acts;
    } else {
      var n := |more| - 1;
      assert (acts + more)[..|acts + more| - 1] == acts + more[..n];
      CancellationIsPermanent(acts, more[..n], k);
      CancelledStays(Exec(acts + more[..n]).value, more[n], k);
    }
  }
}
