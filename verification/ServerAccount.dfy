/**
 The server's output told from the steps of its schedule: what each task sent is what its
 handler did, each request read is served or rejected, each Cancel read reaches the hook.
*/
module ServerAccount {
  import opened Common
  import opened Protocol
  import opened AsyncServer
  import opened ServerTheorems

  // ---------- What a handler did ----------

  /** What a schedule has the handler of a task emit, in order. */
  function EventsOf(acts: seq<Action>, k: nat): seq<Event> {
    if acts == [] then []
    else
      var a := acts[|acts| - 1];
      EventsOf(acts[..|acts| - 1], k) + if a.Emit? && a.task == k then [a.event] else []
  }

  /** What it has it return. */
  function OutcomesOf(acts: seq<Action>, k: nat): seq<Outcome> {
    if acts == [] then []
    else
      var a := acts[|acts| - 1];
      OutcomesOf(acts[..|acts| - 1], k) + if a.Report? && a.task == k then [a.outcome] else []
  }

  ghost predicate TaskTells(t: Task, es: seq<Event>, os: seq<Outcome>) {
    && (t.phase.Inserted? ==> t.sent == [] && es == [] && os == [])
    && (!t.phase.Inserted? ==> Tells(t.sent, t.request.id, es, os))
    && (os != [] <==> t.phase.Reported? || t.phase.Removed?)
  }

  ghost predicate TellingInv(s: Server, acts: seq<Action>) {
    && (forall k :: 0 <= k < |s.tasks| ==> TaskTells(s.tasks[k], EventsOf(acts, k), OutcomesOf(acts, k)))
    && (forall k :: k >= |s.tasks| ==> EventsOf(acts, k) == [] && OutcomesOf(acts, k) == [])
  }

  lemma {:induction false} TellsEvent(fs: seq<PluginFrame>, id: RequestId, es: seq<Event>, e: Event)
    requires Tells(fs, id, es, [])
    ensures Tells(fs + [EventFrame(id, e)], id, es + [e], [])
  {
    var gs, ds := fs + [EventFrame(id, e)], es + [e];
    forall j | 0 <= j < |ds| ensures Shows(gs[1 + j], id, ds[j]) {
      if j < |es| {
        assert gs[1 + j] == fs[1 + j] && ds[j] == es[j];
      }
    }
  }

  lemma {:induction false} TellsOutcome(fs: seq<PluginFrame>, id: RequestId, es: seq<Event>, o: Outcome)
    requires Tells(fs, id, es, [])
    ensures Tells(fs + [OutcomeFrame(id, o)], id, es, [] + [o])
  {
    var gs := fs + [OutcomeFrame(id, o)];
    forall j | 0 <= j < |es| ensures Shows(gs[1 + j], id, es[j]) {
      assert gs[1 + j] == fs[1 + j];
    }
  }

  /** What a step that emits and reports nothing for a task leaves of it. */
  predicate SameSent(t: Task, u: Task) {
    && u.request == t.request && u.sent == t.sent
    && (u.phase.Inserted? <==> t.phase.Inserted?)
    && (u.phase.Reported? || u.phase.Removed? <==> t.phase.Reported? || t.phase.Removed?)
  }

  predicate MovesTask(s: Server, a: Action, k: nat) {
    || ((a.Emit? || a.Report?) && a.task == k)
    || (a.Announce? && s.loop == Announcing(k))
  }

  lemma {:induction false} OtherTask(s: Server, a: Action, k: nat)
    requires LoopHoldsTask(s) && Enabled(s, a) && k < |s.tasks| && !MovesTask(s, a, k)
    ensures k < |Apply(s, a).tasks| && SameSent(s.tasks[k], Apply(s, a).tasks[k])
  {
  }

  /** One more step, seen from one task. */
  lemma {:induction false} TaskStep(s: Server, es: seq<Event>, os: seq<Outcome>, a: Action, k: nat)
    requires LoopHoldsTask(s) && Enabled(s, a) && k < |s.tasks| && TaskTells(s.tasks[k], es, os)
    ensures k < |Apply(s, a).tasks|
    ensures TaskTells(Apply(s, a).tasks[k],
                      es + (if a.Emit? && a.task == k then [a.event] else []),
                      os + (if a.Report? && a.task == k then [a.outcome] else []))
  {
    var t := s.tasks[k];
    assert es + [] == es && os + [] == os;
    if !MovesTask(s, a, k) {
      OtherTask(s, a, k);
    } else if a.Emit? {
      TellsEvent(t.sent, t.request.id, es, a.event);
    } else if a.Report? {
      TellsOutcome(t.sent, t.request.id, es, a.outcome);
    } else {
      assert Apply(s, a).tasks[k].sent == [Started(t.request.id)];
    }
  }

  lemma {:induction false} TellingStep(s: Server, before: seq<Action>, a: Action)
    requires TasksInv(s) && TellingInv(s, before) && Enabled(s, a)
    ensures TellingInv(Apply(s, a), before + [a])
  {
    var acts, s' := before + [a], Apply(s, a);
    assert acts[..|before|] == before;
    forall k | 0 <= k < |s'.tasks| ensures TaskTells(s'.tasks[k], EventsOf(acts, k), OutcomesOf(acts, k)) {
      if k < |s.tasks| {
        TaskStep(s, EventsOf(before, k), OutcomesOf(before, k), a, k);
      } else {
        NewTask(s, a, k);
      }
    }
  }

  lemma {:induction false} NewTask(s: Server, a: Action, k: nat)
    requires Enabled(s, a) && |s.tasks| <= k < |Apply(s, a).tasks|
    ensures a.Read? && Apply(s, a).tasks[k].phase.Inserted? && Apply(s, a).tasks[k].sent == []
  {
  }

  lemma {:induction false} TellingInvariant(acts: seq<Action>)
    requires Exec(acts).Some?
    ensures TellingInv(Exec(acts).value, acts)
  {
    if acts != [] {
      var n := |acts| - 1;
      ServerInvariant(acts[..n]);
      TellingInvariant(acts[..n]);
      TellingStep(Exec(acts[..n]).value, acts[..n], acts[n]);
      assert acts[..n] + [acts[n]] == acts;
    }
  }

  /**
   In every schedule, a task that has started has sent Started, then one frame for each event
   its handler emitted, with that event's contents, then one for what the handler returned,
   if it has; and those are the frames sent for it.
  */
  lemma {:induction false} TaskSaysWhatItsHandlerDid(acts: seq<Action>, k: nat)
    requires Exec(acts).Some? && k < |Exec(acts).value.tasks|
    ensures var s := Exec(acts).value; var t := s.tasks[k]; var es, os := EventsOf(acts, k), OutcomesOf(acts, k);
      && (t.phase.Inserted? ==> t.sent == [] && es == [] && os == [])
      && (!t.phase.Inserted? ==> Tells(t.sent, t.request.id, es, os))
      && (os != [] <==> t.phase.Reported? || t.phase.Removed?)
      && Select(s.emitted, OfTask(k)) == t.sent
  {
    ServerInvariant(acts);
    TellingInvariant(acts);
    assert TaskTells(Exec(acts).value.tasks[k], EventsOf(acts, k), OutcomesOf(acts, k));
  }

  /** What a handler does: it emits events and returns. */
  function Doing(k: nat, es: seq<Event>): seq<Action> {
    if es == [] then [] else Doing(k, es[..|es| - 1]) + [Emit(k, es[|es| - 1])]
  }

  ghost predicate HasDone(acts: seq<Action>, acts': seq<Action>, k: nat, es: seq<Event>, os: seq<Outcome>) {
    EventsOf(acts', k) == EventsOf(acts, k) + es && OutcomesOf(acts', k) == OutcomesOf(acts, k) + os
  }

  lemma {:induction false} StepTaken(acts: seq<Action>, a: Action, k: nat)
    requires Exec(acts).Some? && Enabled(Exec(acts).value, a)
    ensures Exec(acts + [a]) == Some(Apply(Exec(acts).value, a))
    ensures HasDone(acts, acts + [a], k, if a.Emit? && a.task == k then [a.event] else [],
                    if a.Report? && a.task == k then [a.outcome] else [])
  {
    assert (acts + [a])[..|acts|] == acts;
  }

  lemma {:induction false} EmitsAll(acts: seq<Action>, k: nat, es: seq<Event>) returns (all: seq<Action>)
    requires Exec(acts).Some? && InPhase(Exec(acts).value, k, Running)
    ensures all == acts + Doing(k, es) && Exec(all).Some? && InPhase(Exec(all).value, k, Running)
    ensures HasDone(acts, all, k, es, [])
  {
    if es == [] {
      all := acts;
      assert acts + [] == acts;
    } else {
      var n := |es| - 1;
      var before := EmitsAll(acts, k, es[..n]);
      StepTaken(before, Emit(k, es[n]), k);
      all := before + [Emit(k, es[n])];
      assert es == es[..n] + [es[n]];
    }
  }

  lemma {:induction false} ReportsToo(acts: seq<Action>, k: nat, o: Outcome) returns (all: seq<Action>)
    requires Exec(acts).Some? && InPhase(Exec(acts).value, k, Running)
    ensures all == acts + [Report(k, o)] && Exec(all).Some? && k < |Exec(all).value.tasks|
    ensures EventsOf(all, k) == EventsOf(acts, k) && OutcomesOf(all, k) == [o]
    ensures Exec(all).value.tasks[k].phase.Reported?
  {
    StepTaken(acts, Report(k, o), k);
    all := acts + [Report(k, o)];
    TaskSaysWhatItsHandlerDid(acts, k);
  }

  /** Whatever the server is doing, and cancelled or not, a running handler may emit any events and
      return anything, and its task tells of all of it. */
  lemma {:induction false} HandlersAreFree(acts: seq<Action>, k: nat, es: seq<Event>, o: Outcome)
    returns (all: seq<Action>)
    requires Exec(acts).Some? && InPhase(Exec(acts).value, k, Running)
    ensures all == acts + Doing(k, es) + [Report(k, o)] && Exec(all).Some? && k < |Exec(all).value.tasks|
    ensures Tells(Exec(all).value.tasks[k].sent, Exec(all).value.tasks[k].request.id, EventsOf(acts, k) + es, [o])
  {
    var emitted := EmitsAll(acts, k, es);
    all := ReportsToo(emitted, k, o);
    TaskSaysWhatItsHandlerDid(all, k);
  }

  // ---------- What becomes of each request read ----------

  /** A task of this id has not been removed. */
  ghost predicate Serving(s: Server, id: RequestId) {
    exists k :: 0 <= k < |s.tasks| && s.tasks[k].request.id == id && !s.tasks[k].phase.Removed?
  }

  /** The requests that were read while their id was being served, or was not. */
  ghost function Asked(acts: seq<Action>, busy: bool): seq<InvokeRequest>
    requires Exec(acts).Some?
  {
    if acts == [] then []
    else
      var n := |acts| - 1;
      var s := Exec(acts[..n]).value;
      Asked(acts[..n], busy)
      + if acts[n].Read? && s.inbox[0].Invoke? && Serving(s, s.inbox[0].request.id) == busy
        then [s.inbox[0].request] else []
  }

  lemma {:induction false} ServingIffPending(s: Server, id: RequestId)
    requires PendingExact(s)
    ensures Serving(s, id) <==> id in s.pending
  {
    if id in s.pending {
      assert s.tasks[s.pending[id]].request.id == id;
    }
  }

  predicate RefusesAs(f: PluginFrame, id: RequestId) {
    f.Error? && f.errorId == Some(id) && f.error.code == "duplicate_request"
  }

  /** One duplicate-request error for each request that came too early, the last one perhaps still to be sent. */
  ghost predicate Refusals(s: Server, early: seq<InvokeRequest>) {
    var sent := Select(s.emitted, SentAs(FromRejection));
    && |early| == |sent| + (if s.loop.Rejecting? then 1 else 0)
    && (forall j :: 0 <= j < |sent| ==> RefusesAs(sent[j], early[j].id))
    && (s.loop.Rejecting? ==> s.loop.id == early[|sent|].id)
  }

  /** The tasks are those of the requests that came in time, in order. */
  ghost predicate Admissions(s: Server, inTime: seq<InvokeRequest>) {
    |s.tasks| == |inTime| && forall k :: 0 <= k < |s.tasks| ==> s.tasks[k].request == inTime[k]
  }

  lemma {:induction false} RefusalsStep(s: Server, early: seq<InvokeRequest>, a: Action)
    requires PendingExact(s) && Refusals(s, early) && Enabled(s, a)
    ensures var refused := a.Read? && s.inbox[0].Invoke? && Serving(s, s.inbox[0].request.id);
      Refusals(Apply(s, a), early + if refused then [s.inbox[0].request] else [])
  {
    if a.Read? && s.inbox[0].Invoke? {
      ServingIffPending(s, s.inbox[0].request.id);
    }
    RejectionsSent(s, a);
  }

  /** A step emits one frame or none, as a rejection exactly if it rejects, for the hook only when that returns. */
  lemma {:induction false} OneEmission(s: Server, a: Action) returns (more: seq<Emission>)
    requires Enabled(s, a)
    ensures Apply(s, a).emitted == s.emitted + more && |more| <= 1
    ensures a.Reject? ==> more == [Emission(Error(Some(s.loop.id), DUPLICATE_REQUEST), FromRejection)]
    ensures !a.Reject? && more != [] ==> !more[0].origin.FromRejection?
    ensures !a.HookReturns? && more != [] ==> !more[0].origin.FromHook?
  {
    more := Apply(s, a).emitted[|s.emitted|..];
  }

  lemma {:induction false} RejectionsSent(s: Server, a: Action)
    requires Enabled(s, a)
    ensures var sent := Select(s.emitted, SentAs(FromRejection));
      Select(Apply(s, a).emitted, SentAs(FromRejection)) ==
      sent + if a.Reject? then [Error(Some(s.loop.id), DUPLICATE_REQUEST)] else []
  {
    var more := OneEmission(s, a);
    if more == [] {
      assert s.emitted + more == s.emitted;
    } else {
      SelectSnoc(s.emitted, more[0], SentAs(FromRejection));
      assert s.emitted + more == s.emitted + [more[0]];
    }
  }

  lemma {:induction false} AdmissionsStep(s: Server, inTime: seq<InvokeRequest>, a: Action)
    requires PendingExact(s) && Admissions(s, inTime) && Enabled(s, a)
    ensures var admitted := a.Read? && s.inbox[0].Invoke? && !Serving(s, s.inbox[0].request.id);
      Admissions(Apply(s, a), inTime + if admitted then [s.inbox[0].request] else [])
  {
    if a.Read? && s.inbox[0].Invoke? {
      ServingIffPending(s, s.inbox[0].request.id);
    }
  }

  /**
   Every request read is accounted for: if no task of its id was live it became the next task,
   and otherwise it is answered by one duplicate-request error under its id, in order.
  */
  lemma {:induction false} EveryRequestAccountedFor(acts: seq<Action>)
    requires Exec(acts).Some?
    ensures var s := Exec(acts).value; Admissions(s, Asked(acts, false)) && Refusals(s, Asked(acts, true))
  {
    if acts != [] {
      var n := |acts| - 1;
      var s := Exec(acts[..n]).value;
      ServerInvariant(acts[..n]);
      EveryRequestAccountedFor(acts[..n]);
      AdmissionsStep(s, Asked(acts[..n], false), acts[n]);
      RefusalsStep(s, Asked(acts[..n], true), acts[n]);
    }
  }

  // ---------- What becomes of each Cancel read ----------

  /** The ids of the Cancel frames of a host stream. */
  function Cancels(hs: seq<HostFrame>): seq<RequestId> {
    if hs == [] then []
    else
      var h := hs[|hs| - 1];
      Cancels(hs[..|hs| - 1]) + if h.Cancel? then [h.id] else []
  }

  /** What a call of the cancel hook returned, in a schedule. */
  function HookResults(acts: seq<Action>): seq<Option<WorkerError>> {
    if acts == [] then []
    else
      var a := acts[|acts| - 1];
      HookResults(acts[..|acts| - 1]) + if a.HookReturns? then [a.error] else []
  }

  /** The errors among those results, each under the id its call was for. */
  function HookErrors(ids: seq<RequestId>, results: seq<Option<WorkerError>>): seq<PluginFrame>
    requires |ids| >= |results|
  {
    if results == [] then []
    else
      var n := |results| - 1;
      HookErrors(ids, results[..n]) + if results[n].Some? then [Error(Some(ids[n]), results[n].value)] else []
  }

  ghost predicate HookInv(s: Server, results: seq<Option<WorkerError>>) {
    var ids := Cancels(s.read);
    && |ids| == |results| + (if s.loop.Cancelling? || s.loop.Hooking? then 1 else 0)
    && (s.loop.Cancelling? || s.loop.Hooking? ==> s.loop.id == ids[|results|])
    && Select(s.emitted, SentAs(FromHook)) == HookErrors(ids, results)
  }

  lemma {:induction false} HookErrorsOf(ids: seq<RequestId>, more: seq<RequestId>, results: seq<Option<WorkerError>>)
    requires |ids| >= |results|
    ensures HookErrors(ids + more, results) == HookErrors(ids, results)
  {
    if results != [] {
      HookErrorsOf(ids, more, results[..|results| - 1]);
    }
  }

  lemma {:induction false} HookRead(s: Server, results: seq<Option<WorkerError>>)
    requires HookInv(s, results) && Enabled(s, Read)
    ensures HookInv(Apply(s, Read), results)
  {
    var s', h := Apply(s, Read), s.inbox[0];
    assert s'.read[..|s.read|] == s.read;
    HookErrorsOf(Cancels(s.read), if h.Cancel? then [h.id] else [], results);
    assert Cancels(s'.read) == Cancels(s.read) + if h.Cancel? then [h.id] else [];
    NothingForTheHook(s, Read);
  }

  lemma {:induction false} NothingForTheHook(s: Server, a: Action)
    requires Enabled(s, a) && !a.HookReturns?
    ensures Select(Apply(s, a).emitted, SentAs(FromHook)) == Select(s.emitted, SentAs(FromHook))
  {
    var more := OneEmission(s, a);
    if more == [] {
      assert s.emitted + more == s.emitted;
    } else {
      SelectSnoc(s.emitted, more[0], SentAs(FromHook));
      assert s.emitted + more == s.emitted + [more[0]];
    }
  }

  lemma {:induction false} HookReturned(s: Server, results: seq<Option<WorkerError>>, error: Option<WorkerError>)
    requires HookInv(s, results) && Enabled(s, HookReturns(error))
    ensures HookInv(Apply(s, HookReturns(error)), results + [error])
  {
    assert (results + [error])[..|results|] == results;
    if error.Some? {
      SelectSnoc(s.emitted, Emission(Error(Some(s.loop.id), error.value), FromHook), SentAs(FromHook));
    }
  }

  lemma {:induction false} HookOther(s: Server, results: seq<Option<WorkerError>>, a: Action)
    requires HookInv(s, results) && Enabled(s, a) && !a.Read? && !a.HookReturns?
    ensures HookInv(Apply(s, a), results)
  {
    NothingForTheHook(s, a);
  }

  /**
   The cancel hook is called once for each Cancel read, in order and with its id, the last call
   perhaps still to return; and what is sent for it is exactly the errors it returned, each
   under that id.
  */
  lemma {:induction false} EveryCancelReachesTheHook(acts: seq<Action>)
    requires Exec(acts).Some?
    ensures HookInv(Exec(acts).value, HookResults(acts))
  {
    if acts != [] {
      var n := |acts| - 1;
      var s := Exec(acts[..n]).value;
      EveryCancelReachesTheHook(acts[..n]);
      assert !acts[n].HookReturns? ==> HookResults(acts) == HookResults(acts[..n]);
      match acts[n]
      case Read => HookRead(s, HookResults(acts[..n]));
      case HookReturns(error) => HookReturned(s, HookResults(acts[..n]), error);
      case _ => HookOther(s, HookResults(acts[..n]), acts[n]);
    }
  }
}
