/**
 The multiplexing client (`WorkerClient` and `Invocation` of
 crates/outboard-tokio/src/lib.rs) as a transition system. Its atomic steps are the
 parts of `invoke` between two shared-state accesses and those of the reader task,
 whose lookup, delivery and removal for one frame are three separate steps.
*/
module AsyncClient {
  import opened Common
  import opened Protocol
  import opened SequentialWorker

  datatype Stage = Allocated | Registered | Sent | WriteFailed | Abandoned

  datatype Invocation = Invocation(
    request: InvokeRequest,
    stage: Stage,
    since: nat,                 // frames routed when it was registered
    stale: bool,                // registered while the reader was about to remove its id
    late: bool,                 // registered after the reader's final clear
    queue: seq<PluginFrame>,    // its channel
    taken: seq<PluginFrame>)    // what its owner has received from the channel

  datatype Reader =
    | Idle
    | Routing(frame: PluginFrame, target: Option<nat>)   // sender looked up, frame not sent yet
    | Forgetting(id: RequestId)                          // terminal frame: about to remove its id
    | Ending                                             // left the loop, about to clear
    | Ended

  datatype Client = Client(
    nextId: RequestId,
    invocations: seq<Invocation>,
    pending: map<RequestId, nat>,      // id to the invocation holding the receiver
    reader: Reader,
    log: seq<PluginFrame>,             // frames routed so far
    globals: seq<PluginFrame>)

  const INITIAL := Client(1, [], map[], Idle, [], [])

  datatype Action =
    | Allocate(request: InvokeRequest)   // the id of `request` is the one allocated
    | Register(inv: nat)
    | Write(inv: nat)
    | FailWrite(inv: nat)
    | Abandon(inv: nat)
    | Route(frame: PluginFrame)
    | Deliver
    | Forget
    | End
    | Clear
    | Take(inv: nat)

  predicate InStage(c: Client, i: nat, s: Stage) {
    i < |c.invocations| && c.invocations[i].stage == s
  }

  predicate Enabled(c: Client, a: Action) {
    match a
    case Allocate(request) => request.id == c.nextId
    case Register(i) => InStage(c, i, Allocated)
    case Write(i) => InStage(c, i, Registered)
    case FailWrite(i) => InStage(c, i, Registered)
    case Abandon(i) => InStage(c, i, WriteFailed)
    case Route(_) => c.reader.Idle?
    case Deliver => c.reader.Routing? && (c.reader.target.Some? ==> c.reader.target.value < |c.invocations|)
    case Forget => c.reader.Forgetting?
    case End => c.reader.Idle?
    case Clear => c.reader.Ending?
    case Take(i) => i < |c.invocations| && c.invocations[i].queue != []
  }

  function Update(c: Client, i: nat, v: Invocation): Client
    requires i < |c.invocations|
  {
    c.(invocations := c.invocations[i := v])
  }

  /** The reader is between seeing a terminal frame of `id` and removing `id`. */
  predicate AboutToForget(r: Reader, id: RequestId) {
    || (r.Routing? && IsTerminal(r.frame) && RequestIdOf(r.frame) == Some(id))
    || r == Forgetting(id)
  }

  function Apply(c: Client, a: Action): Client
    requires Enabled(c, a)
  {
    match a
    case Allocate(request) =>
      c.(nextId := (c.nextId + 1) % ID_SPACE,
         invocations := c.invocations + [Invocation(request, Allocated, 0, false, false, [], [])])
    case Register(i) =>
      var v := c.invocations[i];
      Update(c, i, v.(stage := Registered, since := |c.log|,
                      stale := AboutToForget(c.reader, v.request.id), late := c.reader.Ended?))
        .(pending := c.pending[v.request.id := i])
    case Write(i) => Update(c, i, c.invocations[i].(stage := Sent))
    case FailWrite(i) => Update(c, i, c.invocations[i].(stage := WriteFailed))
    case Abandon(i) =>
      Update(c, i, c.invocations[i].(stage := Abandoned)).(pending := c.pending - {c.invocations[i].request.id})
    case Route(f) =>
      var c1 := c.(log := c.log + [f]);
      (match RequestIdOf(f)
       case Some(id) => c1.(reader := Routing(f, if id in c.pending then Some(c.pending[id]) else None))
       case None => c1.(globals := c.globals + [f]))
    case Deliver =>
      var f := c.reader.frame;
      var c1 :=
        if c.reader.target.None? then c
        else
          var i := c.reader.target.value;
          Update(c, i, c.invocations[i].(queue := c.invocations[i].queue + [f]));
      c1.(reader := if IsTerminal(f) && RequestIdOf(f).Some? then Forgetting(RequestIdOf(f).value) else Idle)
    case Forget => c.(pending := c.pending - {c.reader.id}, reader := Idle)
    case End => c.(reader := Ending)
    case Clear => c.(pending := map[], reader := Ended)
    case Take(i) =>
      var v := c.invocations[i];
      Update(c, i, v.(queue := v.queue[1..], taken := v.taken + [v.queue[0]]))
  }

  function Exec(acts: seq<Action>): Option<Client> {
    if acts == [] then Some(INITIAL)
    else
      var before := Exec(acts[..|acts| - 1]);
      var a := acts[|acts| - 1];
      if before.Some? && Enabled(before.value, a) then Some(Apply(before.value, a)) else None
  }

  /** Everything the reader has put into an invocation's channel. */
  function Delivered(v: Invocation): seq<PluginFrame> {
    v.taken + v.queue
  }

  /** The frame the reader is holding for an invocation. */
  function InHand(c: Client, i: nat): seq<PluginFrame> {
    if c.reader.Routing? && c.reader.target == Some(i) then [c.reader.frame] else []
  }

  predicate Listening(v: Invocation) {
    v.stage.Registered? || v.stage.Sent?
  }

  predicate Live(c: Client, i: nat)
    requires i < |c.invocations|
  {
    var id := c.invocations[i].request.id;
    id in c.pending && c.pending[id] == i
  }

  // ---------- Frames of one id ----------

  lemma {:induction false} UpToTerminalSnoc(fs: seq<PluginFrame>, f: PluginFrame)
    ensures UpToTerminal(fs + [f]) == if HasTerminal(fs) then UpToTerminal(fs) else fs + [f]
    ensures !HasTerminal(fs) ==> UpToTerminal(fs) == fs
    ensures HasTerminal(fs + [f]) <==> HasTerminal(fs) || IsTerminal(f)
    decreases |fs|
  {
    if fs == [] {
      assert fs + [f] == [f];
      assert [f][0] == f;
    } else {
      assert (fs + [f])[1..] == fs[1..] + [f];
      UpToTerminalSnoc(fs[1..], f);
      HasTerminalFirst(fs);
      HasTerminalFirst(fs + [f]);
    }
  }

  // ---------- Ids ----------

  /** Ids come in order from 1, wrapping to 0 after the last. */
  ghost predicate IdInv(c: Client) {
    && c.nextId == (|c.invocations| + 1) % ID_SPACE
    && forall i :: 0 <= i < |c.invocations| ==> c.invocations[i].request.id == (i + 1) % ID_SPACE
  }

  lemma {:induction false} IdsDistinct(c: Client, i: nat, j: nat)
    requires IdInv(c) && |c.invocations| <= ID_SPACE && i < |c.invocations| && j < |c.invocations|
    requires c.invocations[i].request.id == c.invocations[j].request.id
    ensures i == j
  {
  }

  // ---------- Routing ----------

  ghost predicate PendingInv(c: Client) {
    && (forall id :: id in c.pending ==>
         && c.pending[id] < |c.invocations|
         && c.invocations[c.pending[id]].request.id == id
         && (Listening(c.invocations[c.pending[id]]) || c.invocations[c.pending[id]].stage.WriteFailed?))
    && (c.reader.Routing? ==> RequestIdOf(c.reader.frame).Some?)
    && (c.reader.Routing? && c.reader.target.Some? ==>
         && c.reader.target.value < |c.invocations|
         && RequestIdOf(c.reader.frame) == Some(c.invocations[c.reader.target.value].request.id)
         && !c.invocations[c.reader.target.value].stage.Allocated?)
    && (c.reader.Ended? ==> forall id :: id in c.pending ==> c.invocations[c.pending[id]].late)
  }

  /** The frames routed since an invocation was registered that bear its id. */
  function Heard(c: Client, v: Invocation): seq<PluginFrame> {
    if v.since <= |c.log| then WithIdIn(c.log[v.since..], Some(v.request.id)) else []
  }

  /** What an invocation has been given, and when it stops being given anything. */
  ghost predicate ChannelInv(c: Client, i: nat)
    requires i < |c.invocations|
  {
    var v := c.invocations[i];
    v.since <= |c.log| && Given(c, i, Heard(c, v))
  }

  ghost predicate Given(c: Client, i: nat, heard: seq<PluginFrame>)
    requires i < |c.invocations|
  {
    var v := c.invocations[i];
    && (v.stage.Allocated? ==> Delivered(v) == [] && !v.stale && !Live(c, i))
    && (Listening(v) && v.stale ==>
         && Delivered(v) == [] && InHand(c, i) == []
         && (Live(c, i) ==> AboutToForget(c.reader, v.request.id)))
    && (Listening(v) && !v.stale ==>
         && Delivered(v) + InHand(c, i) == UpToTerminal(heard)
         && (HasTerminal(heard) ==> Live(c, i) ==> AboutToForget(c.reader, v.request.id))
         && (!HasTerminal(heard) ==> Live(c, i) || c.reader.Ended?)
         && (AboutToForget(c.reader, v.request.id) ==> HasTerminal(heard)))
  }

  ghost predicate ClientInv(c: Client) {
    && IdInv(c)
    && PendingInv(c)
    && forall i :: 0 <= i < |c.invocations| ==> ChannelInv(c, i)
  }

  // ---------- Every step keeps the invariant ----------

  lemma {:induction false} AllocateStep(c: Client, r: InvokeRequest)
    requires ClientInv(c) && Enabled(c, Allocate(r)) && |c.invocations| < ID_SPACE
    ensures ClientInv(Apply(c, Allocate(r)))
  {
    var c' := Apply(c, Allocate(r));
    forall i | 0 <= i < |c'.invocations| ensures ChannelInv(c', i) {
      if i < |c.invocations| {
        assert ChannelInv(c, i);
      }
    }
  }

  /** Changing one invocation leaves what the others were given. */
  lemma {:induction false} OtherChannel(c: Client, c': Client, i: nat)
    requires i < |c.invocations| && ChannelInv(c, i) && i < |c'.invocations| && c'.invocations[i] == c.invocations[i]
    requires c'.log == c.log && c'.reader == c.reader && Live(c', i) == Live(c, i)
    ensures ChannelInv(c', i)
  {
  }

  lemma {:induction false} RegisterStep(c: Client, k: nat)
    requires ClientInv(c) && Enabled(c, Register(k)) && |c.invocations| <= ID_SPACE
    ensures ClientInv(Apply(c, Register(k)))
  {
    var c' := Apply(c, Register(k));
    forall i | 0 <= i < |c.invocations| ensures ChannelInv(c', i) {
      if i == k {
        var v := c'.invocations[k];
        assert ChannelInv(c, k);
        assert c'.log[v.since..] == [];
        assert InHand(c', k) == [];
      } else {
        if c.invocations[i].request.id == c.invocations[k].request.id {
          IdsDistinct(c, i, k);
        }
        OtherChannel(c, c', i);
      }
    }
    assert PendingInv(c');
  }

  /** What the invocation that writes, or fails to, was given. */
  lemma {:induction false} OwnChannel(c: Client, a: Action)
    requires ClientInv(c) && Enabled(c, a) && (a.Write? || a.FailWrite? || a.Abandon?)
    ensures ChannelInv(Apply(c, a), a.inv)
  {
    var c' := Apply(c, a);
    assert ChannelInv(c, a.inv);
    if a.Write? {
      assert Heard(c', c'.invocations[a.inv]) == Heard(c, c.invocations[a.inv]);
    }
  }

  lemma {:induction false} WritePending(c: Client, a: Action)
    requires PendingInv(c) && Enabled(c, a) && (a.Write? || a.FailWrite? || a.Abandon?)
    ensures PendingInv(Apply(c, a))
  {
  }

  /** `Write`, `FailWrite` and `Abandon`. */
  lemma {:induction false} WriteStep(c: Client, a: Action)
    requires ClientInv(c) && Enabled(c, a) && |c.invocations| <= ID_SPACE && (a.Write? || a.FailWrite? || a.Abandon?)
    ensures ClientInv(Apply(c, a))
  {
    var c' := Apply(c, a);
    OwnChannel(c, a);
    WritePending(c, a);
    forall i | 0 <= i < |c.invocations| && i != a.inv ensures ChannelInv(c', i) {
      assert ChannelInv(c, i);
      if c.invocations[i].request.id == c.invocations[a.inv].request.id {
        IdsDistinct(c, i, a.inv);
      }
      OtherChannel(c, c', i);
    }
  }

  lemma {:induction false} TakeStep(c: Client, k: nat)
    requires ClientInv(c) && Enabled(c, Take(k))
    ensures ClientInv(Apply(c, Take(k)))
  {
    var c' := Apply(c, Take(k));
    var v := c.invocations[k];
    forall i | 0 <= i < |c.invocations| ensures ChannelInv(c', i) {
      assert ChannelInv(c, i);
      if i == k {
        assert v.taken + [v.queue[0]] + v.queue[1..] == Delivered(v);
        assert Heard(c', c'.invocations[k]) == Heard(c, v);
      } else {
        OtherChannel(c, c', i);
      }
    }
    assert PendingInv(c');
  }

  lemma {:induction false} HeardRoute(c: Client, f: PluginFrame, v: Invocation)
    requires Enabled(c, Route(f)) && v.since <= |c.log|
    ensures Heard(Apply(c, Route(f)), v) == Heard(c, v) + if RequestIdOf(f) == Some(v.request.id) then [f] else []
  {
    assert (c.log + [f])[v.since..] == c.log[v.since..] + [f];
    WithIdSnoc(c.log[v.since..], f, Some(v.request.id));
  }

  /** A frame of another id, or of none. */
  lemma {:induction false} RouteElsewhere(c: Client, f: PluginFrame, i: nat)
    requires ClientInv(c) && Enabled(c, Route(f)) && i < |c.invocations|
    requires RequestIdOf(f) != Some(c.invocations[i].request.id)
    ensures ChannelInv(Apply(c, Route(f)), i)
  {
    var c' := Apply(c, Route(f));
    var v := c.invocations[i];
    assert ChannelInv(c, i);
    HeardRoute(c, f, v);
    assert Heard(c', v) == Heard(c, v) && InHand(c', i) == [];
  }

  lemma {:induction false} RouteHere(c: Client, f: PluginFrame, i: nat, heard: seq<PluginFrame>)
    requires i < |c.invocations| && Given(c, i, heard) && Enabled(c, Route(f))
    requires RequestIdOf(f) == Some(c.invocations[i].request.id)
    requires c.invocations[i].request.id in c.pending ==> Live(c, i)
    ensures Given(Apply(c, Route(f)), i, heard + [f])
  {
    UpToTerminalSnoc(heard, f);
  }

  lemma {:induction false} RouteChannel(c: Client, f: PluginFrame, i: nat)
    requires ClientInv(c) && Enabled(c, Route(f)) && |c.invocations| <= ID_SPACE && i < |c.invocations|
    ensures ChannelInv(Apply(c, Route(f)), i)
  {
    var v := c.invocations[i];
    if RequestIdOf(f) == Some(v.request.id) {
      assert ChannelInv(c, i);
      HeardRoute(c, f, v);
      if v.request.id in c.pending {
        IdsDistinct(c, i, c.pending[v.request.id]);
      }
      RouteHere(c, f, i, Heard(c, v));
    } else {
      RouteElsewhere(c, f, i);
    }
  }

  lemma {:induction false} RouteStep(c: Client, f: PluginFrame)
    requires ClientInv(c) && Enabled(c, Route(f)) && |c.invocations| <= ID_SPACE
    ensures ClientInv(Apply(c, Route(f)))
  {
    forall i | 0 <= i < |c.invocations| ensures ChannelInv(Apply(c, Route(f)), i) {
      RouteChannel(c, f, i);
    }
  }

  lemma {:induction false} DeliverChannel(c: Client, i: nat)
    requires ClientInv(c) && Enabled(c, Deliver) && i < |c.invocations|
    ensures ChannelInv(Apply(c, Deliver), i)
  {
    var c' := Apply(c, Deliver);
    var v := c.invocations[i];
    var f := c.reader.frame;
    assert ChannelInv(c, i);
    assert Heard(c', c'.invocations[i]) == Heard(c, v);
    if c.reader.target == Some(i) {
      assert v.taken + (v.queue + [f]) == Delivered(v) + [f];
    }
  }

  lemma {:induction false} DeliverStep(c: Client)
    requires ClientInv(c) && Enabled(c, Deliver)
    ensures ClientInv(Apply(c, Deliver))
  {
    var c' := Apply(c, Deliver);
    forall i | 0 <= i < |c.invocations| ensures ChannelInv(c', i) {
      DeliverChannel(c, i);
    }
    assert IdInv(c');
    assert PendingInv(c');
  }

  /** `Forget`, `End` and `Clear`. */
  lemma {:induction false} CloseStep(c: Client, a: Action)
    requires ClientInv(c) && Enabled(c, a) && (a.Forget? || a.End? || a.Clear?)
    ensures ClientInv(Apply(c, a))
  {
    var c' := Apply(c, a);
    forall i | 0 <= i < |c.invocations| ensures ChannelInv(c', i) {
      assert ChannelInv(c, i);
      assert Heard(c', c.invocations[i]) == Heard(c, c.invocations[i]);
    }
    assert PendingInv(c');
  }

  lemma {:induction false} ClientStep(c: Client, a: Action)
    requires ClientInv(c) && Enabled(c, a) && |Apply(c, a).invocations| <= ID_SPACE
    ensures ClientInv(Apply(c, a))
  {
    match a
    case Allocate(r) => AllocateStep(c, r);
    case Register(k) => RegisterStep(c, k);
    case Write(_) => WriteStep(c, a);
    case FailWrite(_) => WriteStep(c, a);
    case Abandon(_) => WriteStep(c, a);
    case Route(f) => RouteStep(c, f);
    case Deliver => DeliverStep(c);
    case Forget => CloseStep(c, a);
    case End => CloseStep(c, a);
    case Clear => CloseStep(c, a);
    case Take(k) => TakeStep(c, k);
  }

  lemma {:induction false} InvocationsStay(c: Client, a: Action)
    requires Enabled(c, a)
    ensures |Apply(c, a).invocations| >= |c.invocations|
  {
  }

  lemma {:induction false} ClientInvariant(acts: seq<Action>)
    requires Exec(acts).Some? && |Exec(acts).value.invocations| <= ID_SPACE
    ensures ClientInv(Exec(acts).value)
  {
    if acts == [] {
      assert IdInv(INITIAL) && PendingInv(INITIAL);
    } else {
      var c := Exec(acts[..|acts| - 1]).value;
      InvocationsStay(c, acts[|acts| - 1]);
      ClientInvariant(acts[..|acts| - 1]);
      ClientStep(c, acts[|acts| - 1]);
    }
  }

  /** What the client should hand to an invocation, whatever the plugin sends. */
  predicate Isolated(c: Client, i: nat)
    requires i < |c.invocations|
  {
    Delivered(c.invocations[i]) + InHand(c, i) == UpToTerminal(Heard(c, c.invocations[i]))
  }

  /**
   Against any stream of plugin frames, an invocation is given exactly the frames of its
   id that are routed after it was registered, through the first terminal one. The one
   exception is an invocation registered while the reader was already discarding its id
   for an earlier terminal frame: that one is given nothing, so it is isolated exactly
   as long as nothing of its id has been routed.
  */
  lemma {:induction false} ClientIsolation(acts: seq<Action>, i: nat)
    requires Exec(acts).Some? && |Exec(acts).value.invocations| <= ID_SPACE
    requires i < |Exec(acts).value.invocations| && Listening(Exec(acts).value.invocations[i])
    ensures var c := Exec(acts).value; var v := c.invocations[i];
      && (Isolated(c, i) <==> !v.stale || Heard(c, v) == [])
      && (v.stale ==> Delivered(v) + InHand(c, i) == [])
  {
    ClientInvariant(acts);
    assert ChannelInv(Exec(acts).value, i);
  }

  /** When the reader has ended, every invocation registered before its clear has its channel
      closed, with its terminal frame in it if one was routed. */
  lemma {:induction false} ReaderEndClosesChannels(acts: seq<Action>, i: nat)
    requires Exec(acts).Some? && |Exec(acts).value.invocations| <= ID_SPACE
    requires i < |Exec(acts).value.invocations| && Listening(Exec(acts).value.invocations[i])
    requires Exec(acts).value.reader.Ended? && !Exec(acts).value.invocations[i].late
    ensures var c := Exec(acts).value; var v := c.invocations[i];
      && !Live(c, i)
      && (!v.stale ==> Delivered(v) == UpToTerminal(Heard(c, v)))
  {
    ClientInvariant(acts);
    assert ChannelInv(Exec(acts).value, i);
  }

  /** Until the reader ends, an invocation that listens is in `pending` exactly while it waits: from its
      registration until a terminal frame of its id has been dealt with. One that is not yet
      registered, or whose request could not be written, is not in `pending`. */
  lemma {:induction false} PendingAreWaiting(acts: seq<Action>, i: nat)
    requires Exec(acts).Some? && |Exec(acts).value.invocations| <= ID_SPACE
    requires i < |Exec(acts).value.invocations|
    ensures var c := Exec(acts).value; var v := c.invocations[i];
      && (v.stage.Allocated? || v.stage.Abandoned? ==> !Live(c, i))
      && (Listening(v) && !v.stale && !c.reader.Ended? && !AboutToForget(c.reader, v.request.id) ==>
           (Live(c, i) <==> !HasTerminal(Heard(c, v))))
  {
    ClientInvariant(acts);
    assert ChannelInv(Exec(acts).value, i);
  }

  /** The frames that bear no id go to the client's own channel, all of them and in order. */
  lemma {:induction false} GlobalsAreTheIdless(acts: seq<Action>)
    requires Exec(acts).Some?
    ensures Exec(acts).value.globals == WithIdIn(Exec(acts).value.log, None)
  {
    if acts != [] {
      var n := |acts| - 1;
      GlobalsAreTheIdless(acts[..n]);
      if acts[n].Route? {
        WithIdSnoc(Exec(acts[..n]).value.log, acts[n].frame, None);
      }
    }
  }

  /** A run in which an unsolicited terminal frame costs a new invocation its reply. */
  function StaleRun(r: InvokeRequest, e: WorkerError): seq<Action> {
    [Route(Error(Some(1), e)), Allocate(r), Register(0), Deliver, Forget, Write(0), Route(Started(1)), Deliver]
  }

  lemma {:induction false} ExecSnoc(acts: seq<Action>, a: Action)
    requires Exec(acts).Some? && Enabled(Exec(acts).value, a)
    ensures Exec(acts + [a]) == Some(Apply(Exec(acts).value, a))
  {
    assert (acts + [a])[..|acts|] == acts;
  }

  /** Its states: the terminal frame is routed before the registration and removes it afterwards. */
  function StaleState(r: InvokeRequest, e: WorkerError, n: nat): Client {
    var v := Invocation(r, if n < 6 then Registered else Sent, 1, true, false, [], []);
    var log := [Error(Some(1), e)];
    if n == 0 then INITIAL
    else if n == 1 then Client(1, [], map[], Routing(log[0], None), log, [])
    else if n == 2 then
      Client(2, [v.(stage := Allocated, since := 0, stale := false)], map[], Routing(log[0], None), log, [])
    else if n == 3 then Client(2, [v], map[1 := 0], Routing(log[0], None), log, [])
    else if n == 4 then Client(2, [v], map[1 := 0], Forgetting(1), log, [])
    else if n < 7 then Client(2, [v], map[], Idle, log, [])
    else Client(2, [v], map[], if n == 7 then Routing(Started(1), None) else Idle, log + [Started(1)], [])
  }

  lemma {:induction false} StaleNext(r: InvokeRequest, e: WorkerError, n: nat)
    requires r.id == 1 && n < |StaleRun(r, e)|
    ensures var a := StaleRun(r, e)[n];
      Enabled(StaleState(r, e, n), a) && Apply(StaleState(r, e, n), a) == StaleState(r, e, n + 1)
  {
    if n == 4 {
      assert map[1 := 0] - {1} == map[];
    }
  }

  lemma {:induction false} StaleExec(r: InvokeRequest, e: WorkerError, n: nat)
    requires r.id == 1 && n <= |StaleRun(r, e)|
    ensures Exec(StaleRun(r, e)[..n]) == Some(StaleState(r, e, n))
  {
    var run := StaleRun(r, e);
    if n == 0 {
      assert run[..0] == [];
    } else {
      StaleExec(r, e, n - 1);
      StaleNext(r, e, n - 1);
      ExecSnoc(run[..n - 1], run[n - 1]);
      assert run[..n] == run[..n - 1] + [run[n - 1]];
    }
  }

  lemma {:induction false} StaleEnd(r: InvokeRequest, e: WorkerError)
    requires r.id == 1
    ensures var c := StaleState(r, e, 8); Heard(c, c.invocations[0]) == [Started(1)] && !Isolated(c, 0)
  {
    var log := StaleState(r, e, 8).log;
    assert log[1..] == [] + [Started(1)];
    WithIdSnoc([], Started(1), Some(1));
    assert UpToTerminal([Started(1)]) != [];
  }

  lemma {:induction false} StaleRegistrationLosesReplies(r: InvokeRequest, e: WorkerError)
    requires r.id == 1
    ensures Exec(StaleRun(r, e)).Some?
    ensures var c := Exec(StaleRun(r, e)).value;
      && |c.invocations| == 1 && Listening(c.invocations[0])
      && Heard(c, c.invocations[0]) == [Started(1)] && !Isolated(c, 0)
  {
    StaleExec(r, e, 8);
    assert StaleRun(r, e)[..8] == StaleRun(r, e);
    StaleEnd(r, e);
  }
}
