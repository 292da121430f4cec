/** What a handler does, and what of it its caller is told. */
module PluginStream {
  import opened Common
  import opened Protocol
  import opened SequentialWorker
  import opened WorkerSystem
  import opened EndToEnd
  import C = AsyncClient
  import S = AsyncServer
  import B = ServerAccount

  /** What the handler of task `k` emits in a run of the whole, in order. */
  function Emitted(acts: seq<Action>, k: nat): seq<Event> {
    if acts == [] then []
    else
      var a := acts[|acts| - 1];
      Emitted(acts[..|acts| - 1], k)
      + if a.ServerStep? && a.server.Emit? && a.server.task == k then [a.server.event] else []
  }

  /** What it returns. */
  function Returned(acts: seq<Action>, k: nat): seq<Outcome> {
    if acts == [] then []
    else
      var a := acts[|acts| - 1];
      Returned(acts[..|acts| - 1], k)
      + if a.ServerStep? && a.server.Report? && a.server.task == k then [a.server.outcome] else []
  }

  lemma {:induction false} ServerViewTells(acts: seq<Action>, k: nat)
    requires Exec(acts).Some?
    ensures B.EventsOf(ServerView(acts), k) == Emitted(acts, k)
    ensures B.OutcomesOf(ServerView(acts), k) == Returned(acts, k)
  {
    if acts != [] {
      var n := |acts| - 1;
      ServerViewTells(acts[..n], k);
      var view, part := ServerView(acts[..n]), ServerPart(Exec(acts[..n]).value, acts[n]);
      if part != [] {
        assert (view + part)[..|view|] == view && (view + part)[|view|] == part[0];
      }
    }
  }

  /** A task done in a run has sent what its handler did in that run. */
  lemma {:induction false} DoneTells(acts: seq<Action>, k: nat)
    requires Exec(acts).Some? && k < |Exec(acts).value.server.tasks|
    ensures var t := Exec(acts).value.server.tasks[k];
      && (!t.phase.Inserted? ==> Tells(t.sent, t.request.id, Emitted(acts, k), Returned(acts, k)))
      && (Done(t) <==> Returned(acts, k) != [])
  {
    B.TaskSaysWhatItsHandlerDid(ServerView(acts), k);
    ServerViewTells(acts, k);
  }

  /**
   Over every run, a `finish` that completes returns the result that the handler of that very
   request returned, and its events are Started, everything the handler emitted in between,
   with its contents and in order, and that result.
  */
  lemma {:induction false} FinishTellsTheHandler(acts: seq<Action>, i: nat) returns (k: nat)
    requires Exec(acts).Some? && |Exec(acts).value.client.invocations| <= ID_SPACE
    requires C.InStage(Exec(acts).value.client, i, C.Sent)
    requires var v := Exec(acts).value.client.invocations[i]; Receive(v.request.id, [], C.Delivered(v)).Completed?
    ensures var x := Exec(acts).value; var v := x.client.invocations[i];
      var t := Receive(v.request.id, [], C.Delivered(v));
      && k < |x.server.tasks| && x.server.tasks[k].request == v.request
      && Returned(acts, k) == [Ok(t.result)]
      && Tells(t.events, v.request.id, Emitted(acts, k), [Ok(t.result)])
  {
    k := FinishReturnsTheWholeTask(acts, i);
    DoneTells(acts, k);
    var v := Exec(acts).value.client.invocations[i];
    CompletedEnds(v.request.id, [], C.Delivered(v));
    ReturnedResult(Receive(v.request.id, [], C.Delivered(v)), v.request.id, Emitted(acts, k), Returned(acts, k));
  }

  lemma {:induction false} CompletedEnds(id: RequestId, before: seq<PluginFrame>, fs: seq<PluginFrame>)
    requires Receive(id, before, fs).Completed?
    ensures var t := Receive(id, before, fs); t.events != [] && t.events[|t.events| - 1] == Finished(id, t.result)
    decreases |fs|
  {
    if !(fs[0].Finished? && fs[0].id == id) {
      CompletedEnds(id, before + [fs[0]], fs[1..]);
    }
  }

  lemma {:induction false} ReturnedResult(t: Transcript, id: RequestId, es: seq<Event>, os: seq<Outcome>)
    requires t.Completed? && t.events != [] && t.events[|t.events| - 1] == Finished(id, t.result)
    requires Tells(t.events, id, es, os) && os != []
    ensures os == [Ok(t.result)]
  {
  }
}
