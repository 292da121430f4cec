/**
 `run_capture` (crates/outboard-core/src/process.rs): a child process, three bounded pipes,
 two drain threads, a stdin thread and the polling loop, as a transition system. No
 descendant of the child holds its pipes.
*/
module Capture {
  import opened Common

  datatype Op = WriteStdout(byte: Byte) | WriteStderr(byte: Byte) | ReadStdin | Exit(status: int)

  /** The child: its next operation, from how many it has done and what it has read
      (`None` for end of file). */
  type Program = (nat, seq<Option<Byte>>) -> Op

  datatype Config = Config(
    program: Program,
    bound: nat,                     // the child exits by itself after at most this many operations
    outCap: nat, errCap: nat, inCap: nat,
    input: Option<seq<Byte>>,
    polls: nat)                     // unsuccessful polls before the timeout has elapsed

  ghost predicate ValidConfig(cfg: Config) {
    && cfg.outCap >= 1 && cfg.errCap >= 1 && cfg.inCap >= 1
    && forall n: nat, heard: seq<Option<Byte>> :: n >= cfg.bound ==> cfg.program(n, heard).Exit?
  }

  datatype Child = Alive | Exited(status: int) | Killed

  datatype Feeder = Absent | Writing | Done | Broken

  datatype Result =
    | Captured(status: int, stdout: seq<Byte>, stderr: seq<Byte>)
    | Timeout(stdout: seq<Byte>, stderr: seq<Byte>)
    | StdinFailed

  datatype Main =
    | Polling(left: nat)
    | Killing
    | JoinIn(timedOut: bool)
    | JoinOut(timedOut: bool)
    | JoinErr(timedOut: bool)
    | Returned(result: Result)

  /** A pipe read to its end by a drain thread. */
  datatype Drain = Drain(written: seq<Byte>, pipe: seq<Byte>, bytes: seq<Byte>, done: bool)

  datatype State = State(
    child: Child,
    ops: nat,
    heard: seq<Option<Byte>>,
    out: Drain,
    err: Drain,
    feeder: Feeder,
    rest: seq<Byte>,       // input not yet in the pipe
    pipe: seq<Byte>,       // the stdin pipe
    consumed: seq<Byte>,   // input the child has read
    main: Main)

  function Initial(cfg: Config): State {
    var empty := Drain([], [], [], false);
    State(Alive, 0, [], empty, empty,
          if cfg.input.Some? then Writing else Absent,
          if cfg.input.Some? then cfg.input.value else [], [], [],
          Polling(cfg.polls))
  }

  datatype Action =
    | ChildOp
    | DrainOut(n: nat) | CloseOut
    | DrainErr(n: nat) | CloseErr
    | Feed(n: nat) | FinishFeed | BreakFeed
    | Poll | Kill | Join

  function NextOp(cfg: Config, s: State): Op {
    cfg.program(s.ops, s.heard)
  }

  predicate Enabled(cfg: Config, s: State, a: Action) {
    match a
    case ChildOp =>
      && s.child.Alive?
      && (match NextOp(cfg, s)
          case WriteStdout(_) => |s.out.pipe| < cfg.outCap
          case WriteStderr(_) => |s.err.pipe| < cfg.errCap
          case ReadStdin => s.pipe != [] || !s.feeder.Writing?
          case Exit(_) => true)
    case DrainOut(n) => 1 <= n <= |s.out.pipe| && !s.out.done
    case CloseOut => !s.child.Alive? && s.out.pipe == [] && !s.out.done
    case DrainErr(n) => 1 <= n <= |s.err.pipe| && !s.err.done
    case CloseErr => !s.child.Alive? && s.err.pipe == [] && !s.err.done
    case Feed(n) => s.feeder.Writing? && s.child.Alive? && 1 <= n <= |s.rest| && |s.pipe| + n <= cfg.inCap
    case FinishFeed => s.feeder.Writing? && s.rest == []
    case BreakFeed => s.feeder.Writing? && s.rest != [] && !s.child.Alive?
    case Poll => s.main.Polling? && !s.child.Killed?
    case Kill => s.main.Killing?
    case Join =>
      || (s.main.JoinIn? && !s.feeder.Writing?)
      || (s.main.JoinOut? && s.out.done)
      || (s.main.JoinErr? && s.err.done && (s.main.timedOut || s.child.Exited?))
  }

  function Put(d: Drain, b: Byte): Drain {
    d.(written := d.written + [b], pipe := d.pipe + [b])
  }

  function Pull(d: Drain, n: nat): Drain
    requires n <= |d.pipe|
  {
    d.(bytes := d.bytes + d.pipe[..n], pipe := d.pipe[n..])
  }

  function DoOp(cfg: Config, s: State): State {
    var s1 := s.(ops := s.ops + 1);
    match NextOp(cfg, s)
    case WriteStdout(b) => s1.(out := Put(s.out, b))
    case WriteStderr(b) => s1.(err := Put(s.err, b))
    case Exit(status) => s.(child := Exited(status))
    case ReadStdin =>
      if s.pipe == [] then s1.(heard := s.heard + [None])
      else s1.(heard := s.heard + [Some(s.pipe[0])], consumed := s.consumed + [s.pipe[0]], pipe := s.pipe[1..])
  }

  function Apply(cfg: Config, s: State, a: Action): State
    requires Enabled(cfg, s, a)
  {
    match a
    case ChildOp => DoOp(cfg, s)
    case DrainOut(n) => s.(out := Pull(s.out, n))
    case CloseOut => s.(out := s.out.(done := true))
    case DrainErr(n) => s.(err := Pull(s.err, n))
    case CloseErr => s.(err := s.err.(done := true))
    case Feed(n) => s.(rest := s.rest[n..], pipe := s.pipe + s.rest[..n])
    case FinishFeed => s.(feeder := Done)
    case BreakFeed => s.(feeder := Broken)
    case Poll =>
      if s.child.Exited? then s.(main := JoinIn(false))
      else if s.main.left == 0 then s.(main := Killing)
      else s.(main := Polling(s.main.left - 1))
    case Kill => s.(child := if s.child.Alive? then Killed else s.child, main := JoinIn(true))
    case Join =>
      match s.main
      case JoinIn(timedOut) =>
        s.(main := if !timedOut && s.feeder.Broken? then Returned(StdinFailed) else JoinOut(timedOut))
      case JoinOut(timedOut) => s.(main := JoinErr(timedOut))
      case JoinErr(timedOut) =>
        s.(main := Returned(
             if timedOut then Timeout(s.out.bytes, s.err.bytes)
             else Captured(if s.child.Exited? then s.child.status else 0, s.out.bytes, s.err.bytes)))
      case _ => s
  }

  // ---------- What every step keeps ----------

  ghost predicate DrainInv(d: Drain, child: Child) {
    d.written == d.bytes + d.pipe && (d.done ==> !child.Alive? && d.pipe == [])
  }

  ghost predicate MainInv(s: State) {
    match s.main
    case Polling(_) => !s.child.Killed?
    case Killing => !s.child.Killed?
    case JoinIn(timedOut) => if timedOut then !s.child.Alive? else s.child.Exited?
    case JoinOut(timedOut) =>
      && (if timedOut then !s.child.Alive? else s.child.Exited? && !s.feeder.Broken?) && !s.feeder.Writing?
    case JoinErr(timedOut) =>
      && (if timedOut then !s.child.Alive? else s.child.Exited? && !s.feeder.Broken?)
      && !s.feeder.Writing? && s.out.done
    case Returned(Captured(status, stdout, stderr)) =>
      && s.child == Exited(status) && !s.feeder.Broken? && !s.feeder.Writing?
      && stdout == s.out.written && stderr == s.err.written
    case Returned(Timeout(stdout, stderr)) =>
      !s.child.Alive? && stdout == s.out.written && stderr == s.err.written
    case Returned(StdinFailed) => s.child.Exited? && s.feeder.Broken?
  }

  ghost predicate Inv(cfg: Config, s: State) {
    && DrainInv(s.out, s.child) && DrainInv(s.err, s.child)
    && s.consumed + s.pipe + s.rest == (if cfg.input.Some? then cfg.input.value else [])
    && (s.feeder.Absent? <==> cfg.input.None?)
    && (s.feeder.Absent? || s.feeder.Done? ==> s.rest == [])
    && (s.feeder.Broken? ==> !s.child.Alive? && s.rest != [])
    && (s.child.Alive? ==> s.ops <= cfg.bound)
    && MainInv(s)
  }

  /** Strictly decreases with every step of anyone, so every schedule ends. */
  function Work(cfg: Config, s: State): int {
    (if s.child.Alive? then 3 * (cfg.bound - s.ops) + 1 else 0)
    + |s.out.pipe| + |s.err.pipe| + 2 * |s.rest| + |s.pipe|
    + (if s.out.done then 0 else 1) + (if s.err.done then 0 else 1) + (if s.feeder.Writing? then 1 else 0)
    + (match s.main
       case Polling(left) => left + 5
       case Killing => 4
       case JoinIn(_) => 3
       case JoinOut(_) => 2
       case JoinErr(_) => 1
       case Returned(_) => 0)
  }

  lemma {:induction false} ChildStep(cfg: Config, s: State)
    requires ValidConfig(cfg) && Inv(cfg, s) && Enabled(cfg, s, ChildOp)
    ensures Inv(cfg, Apply(cfg, s, ChildOp))
    ensures 0 <= Work(cfg, Apply(cfg, s, ChildOp)) < Work(cfg, s)
  {
    var s' := Apply(cfg, s, ChildOp);
    if NextOp(cfg, s).ReadStdin? && s.pipe != [] {
      assert s'.consumed + s'.pipe == s.consumed + s.pipe;
    }
  }

  lemma {:induction false} DrainOutStep(cfg: Config, s: State, n: nat)
    requires Inv(cfg, s) && Enabled(cfg, s, DrainOut(n))
    ensures Inv(cfg, Apply(cfg, s, DrainOut(n))) && 0 <= Work(cfg, Apply(cfg, s, DrainOut(n))) < Work(cfg, s)
  {
    assert s.out.pipe == s.out.pipe[..n] + s.out.pipe[n..];
  }

  lemma {:induction false} DrainStep(cfg: Config, s: State, a: Action)
    requires Inv(cfg, s) && Enabled(cfg, s, a) && (a.DrainOut? || a.DrainErr? || a.CloseOut? || a.CloseErr?)
    ensures Inv(cfg, Apply(cfg, s, a)) && 0 <= Work(cfg, Apply(cfg, s, a)) < Work(cfg, s)
  {
    if a.DrainOut? {
      DrainOutStep(cfg, s, a.n);
    } else if a.DrainErr? {
      assert s.err.pipe == s.err.pipe[..a.n] + s.err.pipe[a.n..];
    }
  }

  lemma {:induction false} FeedStep(cfg: Config, s: State, a: Action)
    requires Inv(cfg, s) && Enabled(cfg, s, a) && (a.Feed? || a.FinishFeed? || a.BreakFeed?)
    ensures Inv(cfg, Apply(cfg, s, a)) && 0 <= Work(cfg, Apply(cfg, s, a)) < Work(cfg, s)
  {
    if a.Feed? {
      assert s.rest == s.rest[..a.n] + s.rest[a.n..];
      assert s.consumed + (s.pipe + s.rest[..a.n]) + s.rest[a.n..] == s.consumed + s.pipe + s.rest;
    }
  }

  lemma {:induction false} MainStep(cfg: Config, s: State, a: Action)
    requires Inv(cfg, s) && Enabled(cfg, s, a) && (a.Poll? || a.Kill? || a.Join?)
    ensures Inv(cfg, Apply(cfg, s, a)) && 0 <= Work(cfg, Apply(cfg, s, a)) < Work(cfg, s)
  {
  }

  lemma {:induction false} Step(cfg: Config, s: State, a: Action)
    requires ValidConfig(cfg) && Inv(cfg, s) && Enabled(cfg, s, a)
    ensures Inv(cfg, Apply(cfg, s, a)) && 0 <= Work(cfg, Apply(cfg, s, a)) < Work(cfg, s)
  {
    if a.ChildOp? {
      ChildStep(cfg, s);
    } else if a.Poll? || a.Kill? || a.Join? {
      MainStep(cfg, s, a);
    } else if a.Feed? || a.FinishFeed? || a.BreakFeed? {
      FeedStep(cfg, s, a);
    } else {
      DrainStep(cfg, s, a);
    }
  }

  function Exec(cfg: Config, acts: seq<Action>): Option<State> {
    if acts == [] then Some(Initial(cfg))
    else
      var before := Exec(cfg, acts[..|acts| - 1]);
      var a := acts[|acts| - 1];
      if before.Some? && Enabled(cfg, before.value, a) then Some(Apply(cfg, before.value, a)) else None
  }

  lemma {:induction false} CaptureInvariant(cfg: Config, acts: seq<Action>)
    requires ValidConfig(cfg) && Exec(cfg, acts).Some?
    ensures Inv(cfg, Exec(cfg, acts).value)
    ensures 0 <= Work(cfg, Exec(cfg, acts).value) <= Work(cfg, Initial(cfg)) - |acts|
  {
    if acts != [] {
      var n := |acts| - 1;
      CaptureInvariant(cfg, acts[..n]);
      Step(cfg, Exec(cfg, acts[..n]).value, acts[n]);
    }
  }

  predicate ByChildOrThreads(a: Action) {
    !a.Poll? && !a.Kill? && !a.Join?
  }

  /** The child, or a thread it is waiting for, can always go on. */
  lemma {:induction false} NeverStuck(cfg: Config, s: State) returns (a: Action)
    requires ValidConfig(cfg) && Inv(cfg, s) && s.child.Alive?
    ensures ByChildOrThreads(a) && Enabled(cfg, s, a)
  {
    match NextOp(cfg, s)
    case Exit(_) => a := ChildOp;
    case WriteStdout(_) => a := if |s.out.pipe| < cfg.outCap then ChildOp else DrainOut(1);
    case WriteStderr(_) => a := if |s.err.pipe| < cfg.errCap then ChildOp else DrainErr(1);
    case ReadStdin =>
      a := if s.pipe != [] || !s.feeder.Writing? then ChildOp else if s.rest == [] then FinishFeed else Feed(1);
  }

  /** Once the child is gone, whatever the main thread joins on gets done. */
  lemma {:induction false} ThreadsFinish(cfg: Config, s: State) returns (a: Action)
    requires Inv(cfg, s) && !s.child.Alive? && (s.feeder.Writing? || !s.out.done || !s.err.done)
    ensures ByChildOrThreads(a) && Enabled(cfg, s, a)
  {
    a := if s.feeder.Writing? then (if s.rest == [] then FinishFeed else BreakFeed)
      else if !s.out.done then (if s.out.pipe == [] then CloseOut else DrainOut(1))
      else if s.err.pipe == [] then CloseErr else DrainErr(1);
  }

  /**
   In every schedule, at every point: no more steps are left than the work there was at
   the start; until the child is gone it or one of its threads can move, and until the call has
   returned someone can. What a call has returned is exactly what the child wrote before it was
   gone; when that is a captured output, the child exited by itself with that status and the
   whole input was written to it; what the child read is the beginning of the input.
  */
  lemma {:induction false} CaptureNeverDeadlocks(cfg: Config, acts: seq<Action>) returns (next: Action)
    requires ValidConfig(cfg) && Exec(cfg, acts).Some?
    ensures |acts| <= Work(cfg, Initial(cfg))
    ensures var s := Exec(cfg, acts).value;
      && (s.child.Alive? ==> ByChildOrThreads(next))
      && (s.child.Alive? || !s.main.Returned? ==> Enabled(cfg, s, next))
  {
    CaptureInvariant(cfg, acts);
    var s := Exec(cfg, acts).value;
    if s.child.Alive? {
      next := NeverStuck(cfg, s);
    } else if s.feeder.Writing? || !s.out.done || !s.err.done {
      next := ThreadsFinish(cfg, s);
    } else {
      next := if s.main.Polling? then Poll else if s.main.Killing? then Kill else Join;
    }
  }

  lemma {:induction false} CaptureIsExact(cfg: Config, acts: seq<Action>)
    requires ValidConfig(cfg) && Exec(cfg, acts).Some?
    ensures var s := Exec(cfg, acts).value; var input := if cfg.input.Some? then cfg.input.value else [];
      && s.consumed <= input
      && (s.main.Returned? ==>
           match s.main.result
           case Captured(status, stdout, stderr) =>
             && s.child == Exited(status) && stdout == s.out.written && stderr == s.err.written
             && s.consumed + s.pipe == input
           case Timeout(stdout, stderr) =>
             !s.child.Alive? && stdout == s.out.written && stderr == s.err.written
           case StdinFailed => s.child.Exited? && s.consumed + s.pipe < input)
  {
    CaptureInvariant(cfg, acts);
  }

  // ---------- What the child said and heard ----------

  /** What the operations of the child in a schedule wrote to stdout, or to stderr. */
  function Said(cfg: Config, acts: seq<Action>, toErr: bool): seq<Byte>
    requires Exec(cfg, acts).Some?
  {
    if acts == [] then []
    else
      var n := |acts| - 1;
      var op := NextOp(cfg, Exec(cfg, acts[..n]).value);
      Said(cfg, acts[..n], toErr)
      + if acts[n].ChildOp? && (if toErr then op.WriteStderr? else op.WriteStdout?) then [op.byte] else []
  }

  /** The child heard what it consumed, byte by byte, and the end of file only behind the whole input. */
  ghost predicate HeardExact(cfg: Config, s: State) {
    && |s.consumed| <= |s.heard|
    && (forall i :: 0 <= i < |s.consumed| ==> s.heard[i] == Some(s.consumed[i]))
    && (forall i :: |s.consumed| <= i < |s.heard| ==> s.heard[i] == None)
    && (|s.consumed| < |s.heard| ==> s.consumed == if cfg.input.Some? then cfg.input.value else [])
  }

  lemma {:induction false} HeardStep(cfg: Config, s: State, a: Action)
    requires Inv(cfg, s) && HeardExact(cfg, s) && Enabled(cfg, s, a)
    ensures HeardExact(cfg, Apply(cfg, s, a))
  {
    if a.ChildOp? && NextOp(cfg, s).ReadStdin? {
      if s.pipe == [] {
        assert s.consumed + s.pipe + s.rest == s.consumed;
      } else {
        assert s.consumed + s.pipe + s.rest == s.consumed + (s.pipe + s.rest);
      }
    }
  }

  /** In every schedule each stream holds exactly what the child's operations wrote to it, and the child
      heard exactly the input it consumed, the end of file only after all of it. */
  lemma {:induction false} StreamsAreTheChilds(cfg: Config, acts: seq<Action>)
    requires ValidConfig(cfg) && Exec(cfg, acts).Some?
    ensures var s := Exec(cfg, acts).value;
      && s.out.written == Said(cfg, acts, false) && s.err.written == Said(cfg, acts, true)
      && HeardExact(cfg, s)
  {
    if acts != [] {
      var n := |acts| - 1;
      StreamsAreTheChilds(cfg, acts[..n]);
      CaptureInvariant(cfg, acts[..n]);
      HeardStep(cfg, Exec(cfg, acts[..n]).value, acts[n]);
    }
  }

  // ---------- How long a call waits ----------

  /** How often a schedule polls, or how often it polls a living child. */
  function Polls(cfg: Config, acts: seq<Action>, alive: bool): nat
    requires Exec(cfg, acts).Some?
  {
    if acts == [] then 0
    else
      var n := |acts| - 1;
      Polls(cfg, acts[..n], alive)
      + if acts[n].Poll? && (alive ==> Exec(cfg, acts[..n]).value.child.Alive?) then 1 else 0
  }

  /** Every poll of a schedule finds the child alive. */
  ghost predicate PollsFindItAlive(cfg: Config, acts: seq<Action>) {
    forall n :: 0 <= n < |acts| && acts[n].Poll? ==>
      Exec(cfg, acts[..n]).Some? && Exec(cfg, acts[..n]).value.child.Alive?
  }

  predicate TimedOut(m: Main) {
    match m
    case Polling(_) => false
    case Killing => true
    case JoinIn(timedOut) => timedOut
    case JoinOut(timedOut) => timedOut
    case JoinErr(timedOut) => timedOut
    case Returned(r) => r.Timeout?
  }

  /** The polls made so far, those of a living child among them. */
  predicate Timed(cfg: Config, s: State, all: nat, alive: nat) {
    && (s.main.Polling? ==> all == alive && all + s.main.left == cfg.polls)
    && (TimedOut(s.main) ==> all == alive == cfg.polls + 1)
    && (!s.main.Polling? && !TimedOut(s.main) ==> all == alive + 1 && all <= cfg.polls + 1)
    && (s.child.Killed? ==> TimedOut(s.main) && !s.main.Killing?)
  }

  lemma {:induction false} TimedStep(cfg: Config, s: State, all: nat, alive: nat, a: Action)
    requires MainInv(s) && Timed(cfg, s, all, alive) && Enabled(cfg, s, a)
    ensures Timed(cfg, Apply(cfg, s, a),
                  all + (if a.Poll? then 1 else 0), alive + (if a.Poll? && s.child.Alive? then 1 else 0))
  {
  }

  lemma {:induction false} TimeInvariant(cfg: Config, acts: seq<Action>)
    requires ValidConfig(cfg) && Exec(cfg, acts).Some?
    ensures Timed(cfg, Exec(cfg, acts).value, Polls(cfg, acts, false), Polls(cfg, acts, true))
  {
    if acts != [] {
      var n := |acts| - 1;
      CaptureInvariant(cfg, acts[..n]);
      TimeInvariant(cfg, acts[..n]);
      TimedStep(cfg, Exec(cfg, acts[..n]).value, Polls(cfg, acts[..n], false), Polls(cfg, acts[..n], true), acts[n]);
    }
  }

  lemma {:induction false} AllPollsAlive(cfg: Config, acts: seq<Action>)
    requires Exec(cfg, acts).Some?
    ensures Polls(cfg, acts, true) <= Polls(cfg, acts, false)
    ensures Polls(cfg, acts, true) == Polls(cfg, acts, false) ==> PollsFindItAlive(cfg, acts)
  {
    if acts != [] {
      var n := |acts| - 1;
      AllPollsAlive(cfg, acts[..n]);
      if PollsFindItAlive(cfg, acts[..n]) {
        EarlierPollsAlive(cfg, acts, n);
      }
    }
  }

  lemma {:induction false} EarlierPollsAlive(cfg: Config, acts: seq<Action>, n: nat)
    requires n <= |acts| && PollsFindItAlive(cfg, acts[..n])
    ensures forall i :: 0 <= i < n && acts[i].Poll? ==>
      Exec(cfg, acts[..i]).Some? && Exec(cfg, acts[..i]).value.child.Alive?
  {
    forall i | 0 <= i < n && acts[i].Poll?
      ensures Exec(cfg, acts[..i]).Some? && Exec(cfg, acts[..i]).value.child.Alive?
    {
      assert acts[..n][i] == acts[i] && acts[..n][..i] == acts[..i];
    }
  }

  /**
   The child is killed, or the call times out, only after exactly one poll more than the timeout
   allows, every one of which found the child alive. A call that returns otherwise polled at
   least once and no more often than that, and only its last poll found that the child had exited.
  */
  lemma {:induction false} TimeoutMeansWaited(cfg: Config, acts: seq<Action>)
    requires ValidConfig(cfg) && Exec(cfg, acts).Some?
    ensures var s, all := Exec(cfg, acts).value, Polls(cfg, acts, false);
      && (s.child.Killed? || (s.main.Returned? && s.main.result.Timeout?) ==>
           all == cfg.polls + 1 && PollsFindItAlive(cfg, acts))
      && (s.main.Returned? && !s.main.result.Timeout? ==>
           1 <= all <= cfg.polls + 1 && Polls(cfg, acts, true) == all - 1)
      && (s.main.Polling? ==> all <= cfg.polls && PollsFindItAlive(cfg, acts))
  {
    TimeInvariant(cfg, acts);
    AllPollsAlive(cfg, acts);
  }

  /** Run to the end under any scheduler that picks among the enabled steps. */
  method RunCapture(cfg: Config, pick: State -> Action) returns (r: Result, s: State, ghost acts: seq<Action>)
    requires ValidConfig(cfg)
    requires forall t: State :: Inv(cfg, t) && !t.main.Returned? ==> Enabled(cfg, t, pick(t))
    ensures Exec(cfg, acts) == Some(s) && s.main == Returned(r)
    ensures r.Timeout? ==> r == Timeout(Said(cfg, acts, false), Said(cfg, acts, true))
    ensures r.Timeout? ==> Polls(cfg, acts, false) == cfg.polls + 1 && PollsFindItAlive(cfg, acts)
    ensures r.Captured? ==> s.child == Exited(r.status)
    ensures r.Captured? ==> r.stdout == Said(cfg, acts, false) && r.stderr == Said(cfg, acts, true)
  {
    s := Initial(cfg);
    acts := [];
    while !s.main.Returned?
      invariant Exec(cfg, acts) == Some(s) && Inv(cfg, s)
      decreases Work(cfg, s)
    {
      Step(cfg, s, pick(s));
      assert (acts + [pick(s)])[..|acts|] == acts;
      acts := acts + [pick(s)];
      s := Apply(cfg, s, pick(s));
    }
    r := s.main.result;
    StreamsAreTheChilds(cfg, acts);
    TimeoutMeansWaited(cfg, acts);
  }

  // ---------- Why both pipes are drained while waiting ----------

  function Chatty(b: Byte, total: nat): Program {
    (n: nat, heard: seq<Option<Byte>>) => if n < total then WriteStdout(b) else Exit(0)
  }

  function Repeat(a: Action, n: nat): seq<Action> {
    seq(n, i => a)
  }

  /** If nobody drained, a child that writes one byte more than its pipe holds would, for
      every capacity, come to a point where neither it nor its stdin thread can move. */
  lemma {:induction false} WithoutDrainingItDeadlocks(b: Byte, cap: nat, n: nat)
    requires 1 <= cap && n <= cap
    ensures var cfg := Config(Chatty(b, cap + 1), cap + 1, cap, 1, 1, None, 0);
      && ValidConfig(cfg)
      && Exec(cfg, Repeat(ChildOp, n)).Some?
      && (var s := Exec(cfg, Repeat(ChildOp, n)).value;
          && s.child.Alive? && s.ops == n && |s.out.pipe| == n && s.feeder.Absent?
          && (n == cap ==> !Enabled(cfg, s, ChildOp)))
  {
    if n > 0 {
      WithoutDrainingItDeadlocks(b, cap, n - 1);
      assert Repeat(ChildOp, n)[..n - 1] == Repeat(ChildOp, n - 1);
    }
  }
}
