/**
 Every schedule of the multiplexing server answers each request, and the host's
 id-less frames, as the sequential server does.
*/
module ScheduleIndependence {
  import opened Common
  import opened Protocol
  import opened AsyncServer
  import opened ServerTheorems
  import opened SequentialWorker

  // ---------- Which host frame each frame answers ----------

  function Requests(ts: seq<Task>): seq<InvokeRequest> {
    seq(|ts|, k requires 0 <= k < |ts| => ts[k].request)
  }

  predicate NothingFrom(s: Server, o: Origin) {
    forall i :: 0 <= i < |s.emitted| ==> s.emitted[i].origin != o
  }

  predicate NoRejection(s: Server) {
    !s.loop.Rejecting? && NothingFrom(s, FromRejection)
  }

  ghost predicate OriginInv(s: Server) {
    forall i :: 0 <= i < |s.emitted| ==>
      (s.emitted[i].origin.FromLoop? <==> RequestIdOf(s.emitted[i].frame).None?)
  }

  ghost predicate AcceptInv(s: Server) {
    && (NoRejection(s) ==> Requests(s.tasks) == Invokes(s.read))
    && (DistinctIds(Invokes(s.read)) ==> NoRejection(s))
  }

  function LoopReply(f: HostFrame): seq<PluginFrame> {
    match f
    case RepeatedHello => [Error(None, DUPLICATE_HELLO_ASYNC)]
    case Ping(nonce) => [Pong(nonce)]
    case _ => []
  }

  /** The id-less answers to what has been read, a Shutdown aside. */
  function LoopReplies(hs: seq<HostFrame>): seq<PluginFrame> {
    if hs == [] then [] else LoopReplies(hs[..|hs| - 1]) + LoopReply(hs[|hs| - 1])
  }

  predicate ShuttingDown(s: Server) {
    s.loop.Draining? || s.loop.Joining? || s.loop.Stopped?
  }

  ghost predicate ReadInv(s: Server) {
    && (forall j :: 0 <= j < |s.read| && s.read[j] == Shutdown ==> j == |s.read| - 1 && ShuttingDown(s))
    && (ShuttingDown(s) ==> s.read != [] && s.read[|s.read| - 1] == Shutdown)
    && Select(s.emitted, Idless) == LoopReplies(s.read) + if s.loop.Stopped? then [ShutdownAck] else []
  }

  lemma {:induction false} InvokesSnoc(hs: seq<HostFrame>, h: HostFrame)
    ensures Invokes(hs + [h]) == Invokes(hs) + if h.Invoke? then [h.request] else []
    ensures LoopReplies(hs + [h]) == LoopReplies(hs) + LoopReply(h)
  {
    assert (hs + [h])[..|hs|] == hs;
  }

  lemma {:induction false} DistinctPrefix(rs: seq<InvokeRequest>, r: InvokeRequest)
    requires DistinctIds(rs + [r])
    ensures DistinctIds(rs)
    ensures forall i :: 0 <= i < |rs| ==> rs[i].id != r.id
  {
    forall i, j | 0 <= i < j < |rs| ensures rs[i].id != rs[j].id {
      assert (rs + [r])[i] == rs[i] && (rs + [r])[j] == rs[j];
    }
    forall i | 0 <= i < |rs| ensures rs[i].id != r.id {
      assert (rs + [r])[i] == rs[i] && (rs + [r])[|rs|] == r;
    }
  }

  /** A step that reads no Invoke and sends no rejection. */
  lemma {:induction false} SameAccepts(s: Server, s': Server)
    requires AcceptInv(s) && Requests(s'.tasks) == Requests(s.tasks) && Invokes(s'.read) == Invokes(s.read)
    requires s.emitted <= s'.emitted
    requires forall i :: |s.emitted| <= i < |s'.emitted| ==> s'.emitted[i].origin != FromRejection
    requires s'.loop.Rejecting? <==> s.loop.Rejecting?
    ensures AcceptInv(s')
  {
    if NothingFrom(s', FromRejection) {
      forall i | 0 <= i < |s.emitted| ensures s.emitted[i].origin != FromRejection {
        assert s'.emitted[i] == s.emitted[i];
      }
    }
  }

  lemma {:induction false} AcceptedOne(s: Server, s': Server, r: InvokeRequest)
    requires AcceptInv(s) && !s.loop.Rejecting? && !s'.loop.Rejecting? && s'.emitted == s.emitted
    requires Requests(s'.tasks) == Requests(s.tasks) + [r] && Invokes(s'.read) == Invokes(s.read) + [r]
    ensures AcceptInv(s')
  {
    if DistinctIds(Invokes(s'.read)) {
      DistinctPrefix(Invokes(s.read), r);
    }
  }

  /** A request whose id is pending repeats the id of a request already read. */
  lemma {:induction false} DuplicateIsNotDistinct(s: Server, r: InvokeRequest)
    requires TasksInv(s) && AcceptInv(s) && r.id in s.pending
    ensures !DistinctIds(Invokes(s.read) + [r])
  {
    var before := Invokes(s.read);
    var all := before + [r];
    if NoRejection(s) {
      var k := s.pending[r.id];
      assert Requests(s.tasks)[k] == s.tasks[k].request;
      assert all[k].id == all[|before|].id;
    } else {
      var i, j :| 0 <= i < j < |before| && before[i].id == before[j].id;
      assert all[i].id == all[j].id;
    }
  }

  lemma {:induction false} RejectedOne(s: Server)
    requires s.loop.Rejecting? && !DistinctIds(Invokes(s.read))
    ensures AcceptInv(s)
  {
  }

  lemma {:induction false} InvokeAccepts(s: Server, r: InvokeRequest)
    requires TasksInv(s) && AcceptInv(s) && Enabled(s, Read) && s.inbox[0] == Invoke(r)
    ensures AcceptInv(Apply(s, Read))
  {
    var s' := Apply(s, Read);
    InvokesSnoc(s.read, Invoke(r));
    if r.id in s.pending {
      DuplicateIsNotDistinct(s, r);
      RejectedOne(s');
    } else {
      assert Requests(s'.tasks) == Requests(s.tasks) + [r];
      AcceptedOne(s, s', r);
    }
  }

  /** Any other frame is answered by at most one frame of the loop's own. */
  lemma {:induction false} ReadsOther(s: Server)
    requires Enabled(s, Read) && !s.inbox[0].Invoke?
    ensures var s' := Apply(s, Read);
      && s'.tasks == s.tasks && s'.read == s.read + [s.inbox[0]] && !s'.loop.Rejecting? && s.emitted <= s'.emitted
      && forall i :: |s.emitted| <= i < |s'.emitted| ==> s'.emitted[i].origin.FromLoop?
  {
  }

  lemma {:induction false} ReadAccepts(s: Server)
    requires TasksInv(s) && AcceptInv(s) && Enabled(s, Read)
    ensures AcceptInv(Apply(s, Read))
  {
    if s.inbox[0].Invoke? {
      InvokeAccepts(s, s.inbox[0].request);
    } else {
      InvokesSnoc(s.read, s.inbox[0]);
      ReadsOther(s);
      SameAccepts(s, Apply(s, Read));
    }
  }

  lemma {:induction false} AcceptStep(s: Server, a: Action)
    requires TasksInv(s) && AcceptInv(s) && Enabled(s, a)
    ensures AcceptInv(Apply(s, a))
  {
    var s' := Apply(s, a);
    if a.Read? {
      ReadAccepts(s);
    } else if a.Reject? {
      assert s'.emitted[|s.emitted|].origin == FromRejection;
    } else {
      SameAccepts(s, s');
    }
  }

  lemma {:induction false} OriginStep(s: Server, a: Action)
    requires OriginInv(s) && Enabled(s, a)
    ensures OriginInv(Apply(s, a))
  {
  }

  lemma {:induction false} IdlessSend(s: Server, f: PluginFrame, o: Origin)
    ensures Select(Send(s, f, o).emitted, Idless)
         == Select(s.emitted, Idless) + if RequestIdOf(f).None? then [f] else []
  {
    SelectSnoc(s.emitted, Emission(f, o), Idless);
  }

  /** A step that reads nothing and sends no id-less frame. */
  lemma {:induction false} SameRead(s: Server, s': Server)
    requires ReadInv(s) && s'.read == s.read && Select(s'.emitted, Idless) == Select(s.emitted, Idless)
    requires s'.loop == s.loop || ((ShuttingDown(s') <==> ShuttingDown(s)) && !s.loop.Stopped? && !s'.loop.Stopped?)
    ensures ReadInv(s')
  {
  }

  lemma {:induction false} ReadIdless(s: Server)
    requires Enabled(s, Read)
    ensures Select(Apply(s, Read).emitted, Idless) == Select(s.emitted, Idless) + LoopReply(s.inbox[0])
  {
    match s.inbox[0]
    case RepeatedHello => IdlessSend(s, Error(None, DUPLICATE_HELLO_ASYNC), FromLoop);
    case Ping(nonce) => IdlessSend(s, Pong(nonce), FromLoop);
    case _ =>
  }

  /** One more frame read, outside a shutdown. */
  lemma {:induction false} OneMoreRead(s: Server, s': Server, h: HostFrame)
    requires ReadInv(s) && s.loop.Reading? && s'.read == s.read + [h]
    requires Select(s'.emitted, Idless) == Select(s.emitted, Idless) + LoopReply(h)
    requires !s'.loop.Stopped? && (ShuttingDown(s') <==> h.Shutdown?)
    ensures ReadInv(s')
  {
    InvokesSnoc(s.read, h);
  }

  lemma {:induction false} ReadReads(s: Server)
    requires ReadInv(s) && Enabled(s, Read)
    ensures ReadInv(Apply(s, Read))
  {
    ReadIdless(s);
    OneMoreRead(s, Apply(s, Read), s.inbox[0]);
  }

  /** A frame with an id is sent. */
  lemma {:induction false} SentRead(s: Server, s': Server, f: PluginFrame, o: Origin)
    requires ReadInv(s) && s'.read == s.read && s'.emitted == s.emitted + [Emission(f, o)] && RequestIdOf(f).Some?
    requires s'.loop == s.loop || ((ShuttingDown(s') <==> ShuttingDown(s)) && !s.loop.Stopped? && !s'.loop.Stopped?)
    ensures ReadInv(s')
  {
    SelectSnoc(s.emitted, Emission(f, o), Idless);
    SameRead(s, s');
  }

  lemma {:induction false} TaskReads(s: Server, a: Action)
    requires ReadInv(s) && Enabled(s, a) && (a.Announce? || a.Emit? || a.Report?)
    ensures ReadInv(Apply(s, a))
  {
    match a
    case Announce => SentRead(s, Apply(s, a), Started(s.tasks[s.loop.task].request.id), FromTask(s.loop.task));
    case Emit(k, event) => SentRead(s, Apply(s, a), EventFrame(s.tasks[k].request.id, event), FromTask(k));
    case Report(k, outcome) => SentRead(s, Apply(s, a), OutcomeFrame(s.tasks[k].request.id, outcome), FromTask(k));
  }

  lemma {:induction false} LoopReads(s: Server, a: Action)
    requires ReadInv(s) && Enabled(s, a) && (a.Reject? || a.HookReturns? || a.Acknowledge?)
    ensures ReadInv(Apply(s, a))
  {
    match a
    case Reject => SentRead(s, Apply(s, a), Error(Some(s.loop.id), DUPLICATE_REQUEST), FromRejection);
    case HookReturns(error) =>
      if error.Some? {
        SentRead(s, Apply(s, a), Error(Some(s.loop.id), error.value), FromHook);
      } else {
        SameRead(s, Apply(s, a));
      }
    case Acknowledge => IdlessSend(s, ShutdownAck, FromLoop);
  }

  lemma {:induction false} ReadStep(s: Server, a: Action)
    requires ReadInv(s) && Enabled(s, a)
    ensures ReadInv(Apply(s, a))
  {
    if a.Read? {
      ReadReads(s);
    } else if a.Announce? || a.Emit? || a.Report? {
      TaskReads(s, a);
    } else if a.Reject? || a.HookReturns? || a.Acknowledge? {
      LoopReads(s, a);
    } else {
      SameRead(s, Apply(s, a));
    }
  }

  lemma {:induction false} AnswerInvariant(acts: seq<Action>)
    requires Exec(acts).Some?
    ensures var s := Exec(acts).value; AcceptInv(s) && OriginInv(s) && ReadInv(s)
  {
    if acts != [] {
      var s := Exec(acts[..|acts| - 1]).value;
      var a := acts[|acts| - 1];
      ServerInvariant(acts[..|acts| - 1]);
      AnswerInvariant(acts[..|acts| - 1]);
      AcceptStep(s, a);
      OriginStep(s, a);
      ReadStep(s, a);
    }
  }

  // ---------- Projections of the sequential server's output ----------

  /** The blocks of the requests of one id, in order. */
  function BlocksOf(h: Handler, rs: seq<InvokeRequest>, id: RequestId): seq<PluginFrame> {
    if rs == [] then []
    else
      var r := rs[|rs| - 1];
      BlocksOf(h, rs[..|rs| - 1], id) + if r.id == id then Block(h, r) else []
  }

  predicate HookOk(h: Handler) {
    forall id: RequestId :: h.hook(id).None?
  }

  lemma {:induction false} ReplyById(h: Handler, f: HostFrame, id: RequestId)
    requires HookOk(h)
    ensures WithIdIn(Reply(h, f), Some(id)) == if f.Invoke? && f.request.id == id then Block(h, f.request) else []
  {
    WithIdUniform(Reply(h, f), Some(id), if f.Invoke? then Some(f.request.id) else None);
  }

  lemma {:induction false} BlocksOfSnoc(h: Handler, rs: seq<InvokeRequest>, r: InvokeRequest, id: RequestId)
    ensures BlocksOf(h, rs + [r], id) == BlocksOf(h, rs, id) + if r.id == id then Block(h, r) else []
  {
    assert (rs + [r])[..|rs|] == rs;
  }

  lemma {:induction false} SequentialById(h: Handler, hs: seq<HostFrame>, id: RequestId)
    requires HookOk(h)
    ensures WithIdIn(Replies(h, hs), Some(id)) == BlocksOf(h, Invokes(hs), id)
  {
    if hs != [] {
      var n := |hs| - 1;
      SequentialById(h, hs[..n], id);
      WithIdConcat(Replies(h, hs[..n]), Reply(h, hs[n]), Some(id));
      ReplyById(h, hs[n], id);
      if hs[n].Invoke? {
        BlocksOfSnoc(h, Invokes(hs[..n]), hs[n].request, id);
      } else {
        assert Invokes(hs) == Invokes(hs[..n]);
      }
    }
  }

  /** The two servers word a repeated hello differently. */
  function Reword(f: PluginFrame): PluginFrame {
    if f == Error(None, DUPLICATE_HELLO_SYNC) then Error(None, DUPLICATE_HELLO_ASYNC) else f
  }

  function RewordAll(fs: seq<PluginFrame>): seq<PluginFrame> {
    seq(|fs|, i requires 0 <= i < |fs| => Reword(fs[i]))
  }

  lemma {:induction false} ReplyIdless(h: Handler, f: HostFrame)
    requires HookOk(h) && f != Shutdown
    ensures RewordAll(WithIdIn(Reply(h, f), None)) == LoopReply(f)
  {
    if f.Invoke? {
      WithIdUniform(Block(h, f.request), None, Some(f.request.id));
    } else if f.RepeatedHello? {
      WithIdUniform([Error(None, DUPLICATE_HELLO_SYNC)], None, None);
    } else if f.Ping? {
      WithIdUniform([Pong(f.nonce)], None, None);
    }
  }

  lemma {:induction false} RewordConcat(a: seq<PluginFrame>, b: seq<PluginFrame>)
    ensures RewordAll(a + b) == RewordAll(a) + RewordAll(b)
  {
  }

  lemma {:induction false} SequentialIdless(h: Handler, hs: seq<HostFrame>)
    requires HookOk(h) && forall j :: 0 <= j < |hs| ==> hs[j] != Shutdown
    ensures RewordAll(WithIdIn(Replies(h, hs), None)) == LoopReplies(hs)
  {
    if hs != [] {
      var n := |hs| - 1;
      SequentialIdless(h, hs[..n]);
      WithIdConcat(Replies(h, hs[..n]), Reply(h, hs[n]), None);
      RewordConcat(WithIdIn(Replies(h, hs[..n]), None), WithIdIn(Reply(h, hs[n]), None));
      ReplyIdless(h, hs[n]);
    }
  }

  lemma {:induction false} AckIdless(fs: seq<PluginFrame>)
    ensures RewordAll(WithIdIn(fs + [ShutdownAck], None)) == RewordAll(WithIdIn(fs, None)) + [ShutdownAck]
  {
    WithIdConcat(fs, [ShutdownAck], None);
    WithIdUniform([ShutdownAck], None, None);
    RewordConcat(WithIdIn(fs, None), [ShutdownAck]);
  }

  /** A complete host stream: one Shutdown, at its end. */
  lemma {:induction false} SequentialIdlessComplete(h: Handler, hs: seq<HostFrame>)
    requires HookOk(h) && forall j :: 0 <= j < |hs| ==> hs[j] != Shutdown
    ensures RewordAll(WithIdIn(Replies(h, hs + [Shutdown]), None)) == LoopReplies(hs + [Shutdown]) + [ShutdownAck]
  {
    SequentialIdless(h, hs);
    InvokesSnoc(hs, Shutdown);
    RepliesSnoc(h, hs, Shutdown);
    AckIdless(Replies(h, hs));
  }

  // ---------- The two agree ----------

  lemma {:induction false} BlocksAgree(h: Handler, ts: seq<Task>, id: RequestId)
    requires forall k :: 0 <= k < |ts| ==> ts[k].sent == Block(h, ts[k].request)
    ensures Blocks(ts, id) == BlocksOf(h, Requests(ts), id)
  {
    if ts != [] {
      var n := |ts| - 1;
      BlocksAgree(h, ts[..n], id);
      assert Requests(ts)[..n] == Requests(ts[..n]);
    }
  }

  /** A task that keeps to its handler's answer and is done has sent all of it. */
  lemma {:induction false} DoneSentAll(h: Handler, t: Task)
    requires ClosedBlock(t.sent, t.request.id) && t.sent <= Block(h, t.request)
    ensures t.sent == Block(h, t.request)
  {
    var b := Block(h, t.request);
    assert forall n :: 1 <= n < |b| - 1 ==> !IsTerminal(b[n]);
  }

  lemma {:induction false} SelectWithId(es: seq<Emission>, id: RequestId)
    requires forall i :: 0 <= i < |es| && RequestIdOf(es[i].frame) == Some(id) ==> es[i].origin.FromTask?
    ensures Select(es, WithId(id)) == Select(es, OfInvocation(id))
  {
    if es != [] {
      SelectWithId(es[..|es| - 1], id);
    }
  }

  /** Every task keeps to the answer its handler gives to its request. */
  predicate Follows(s: Server, h: Handler) {
    forall k :: 0 <= k < |s.tasks| ==> s.tasks[k].sent <= Block(h, s.tasks[k].request)
  }

  /** Each id's frames and the id-less frames are those of the sequential server. */
  ghost predicate AgreesWith(s: Server, sequential: seq<PluginFrame>) {
    && (forall id: RequestId :: Select(s.emitted, WithId(id)) == WithIdIn(sequential, Some(id)))
    && Select(s.emitted, Idless) == RewordAll(WithIdIn(sequential, None))
  }

  /** Every task has sent the whole of its handler's answer. */
  predicate Answered(s: Server, h: Handler) {
    forall k :: 0 <= k < |s.tasks| ==> s.tasks[k].sent == Block(h, s.tasks[k].request)
  }

  lemma {:induction false} AllAnswered(s: Server, h: Handler)
    requires TraceInv(s) && ShutdownInv(s) && s.loop.Stopped? && Follows(s, h)
    ensures Answered(s, h)
  {
    forall k | 0 <= k < |s.tasks| ensures s.tasks[k].sent == Block(h, s.tasks[k].request) {
      assert SentShape(s.tasks[k]);
      DoneSentAll(h, s.tasks[k]);
    }
  }

  lemma {:induction false} AgreeById(s: Server, h: Handler, id: RequestId)
    requires TraceInv(s) && OriginInv(s) && AcceptInv(s) && HookOk(h) && Answered(s, h)
    requires NoRejection(s) && NothingFrom(s, FromHook)
    ensures Select(s.emitted, WithId(id)) == WithIdIn(Replies(h, s.read), Some(id))
  {
    SelectWithId(s.emitted, id);
    BlocksAgree(h, s.tasks, id);
    SequentialById(h, s.read, id);
  }

  lemma {:induction false} AgreeIdless(s: Server, h: Handler)
    requires ReadInv(s) && s.loop.Stopped? && HookOk(h)
    ensures Select(s.emitted, Idless) == RewordAll(WithIdIn(Replies(h, s.read), None))
    ensures Handled(s.read + s.inbox) == s.read
  {
    var n := |s.read| - 1;
    var hs := s.read[..n];
    assert s.read == hs + [Shutdown];
    SequentialIdlessComplete(h, hs);
    var all := s.read + s.inbox;
    assert all[n] == Shutdown && all[..n + 1] == s.read;
    HandledUntil(all, n);
  }

  /**
   When the server has acknowledged its shutdown, its tasks followed a handler determined
   by their requests and nothing was rejected or failed in the cancel hook, it sent what
   the sequential server sends for the same host stream.
  */
  lemma {:induction false} AgreesWithSequential(acts: seq<Action>, h: Handler)
    requires Exec(acts).Some? && Exec(acts).value.loop.Stopped? && Follows(Exec(acts).value, h) && HookOk(h)
    requires NothingFrom(Exec(acts).value, FromRejection) && NothingFrom(Exec(acts).value, FromHook)
    ensures AgreesWith(Exec(acts).value, Replies(h, Handled(Exec(acts).value.read + Exec(acts).value.inbox)))
  {
    var s := Exec(acts).value;
    ServerInvariant(acts);
    ShutdownInvariant(acts);
    AnswerInvariant(acts);
    AllAnswered(s, h);
    AgreeIdless(s, h);
    forall id: RequestId ensures Select(s.emitted, WithId(id)) == WithIdIn(Replies(h, s.read), Some(id)) {
      AgreeById(s, h, id);
    }
  }

  /** Distinct ids are enough for nothing to be rejected, so for the agreement above. */
  lemma {:induction false} ScheduleIndependent(acts: seq<Action>, h: Handler)
    requires Exec(acts).Some? && Exec(acts).value.loop.Stopped? && Follows(Exec(acts).value, h) && HookOk(h)
    requires DistinctIds(Invokes(Exec(acts).value.read)) && NothingFrom(Exec(acts).value, FromHook)
    ensures AgreesWith(Exec(acts).value, Replies(h, Handled(Exec(acts).value.read + Exec(acts).value.inbox)))
  {
    AnswerInvariant(acts);
    AgreesWithSequential(acts, h);
  }
}
