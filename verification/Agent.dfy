/**
 * The agent (cmd/agent/main.go, internal/agent/agent.go): a poller, a reporter that submits send
 * tasks to the worker pool, and a shutdown sequence, all interleaved. Each access to *pollCounter
 * is one atomic step.
 */
module Agent {
  import opened Wrappers
  import opened Sender
  import P = WorkerPool

  // ---------- the transition system ----------

  /** Inside one call of SendWithRetry: errG is what the gauge batch of this attempt reported. */
  datatype Stage = BeforeGauges | SendingGauges | BeforeCounters(errG: Outcome) | SendingCounters(errG: Outcome)

  /** What a worker is doing within the submitted function. */
  datatype Task =
    | NoTask
    | Entered                                              // before the context check
    | Passed                                               // past it, before *pollCounter is read
    | Sending(attempt: nat, snapshot: nat, stage: Stage)
    | Succeeded(snapshot: nat)                             // nil returned, *pollCounter not yet zeroed
    | Leaving

  datatype State = State(
    pool: P.State,
    tasks: seq<Task>,       // one per worker
    cancelled: bool,
    pollerDone: bool,
    reporterDone: bool,
    polls: nat,             // polls made
    local: nat,             // *pollCounter
    applied: seq<nat>,      // per worker: poll counts its successful sends added at the server
    window: seq<nat>,       // per worker: polls since its latest snapshot
    lost: nat,              // polls that fell between a snapshot and the reset that follows it
    sends: nat)             // batch sends begun since the cancellation

  const REPORTER: nat := 0  // the only submitter

  datatype Action =
    | Poll
    | Cancel
    | PollerReturns
    | ReportCheck          // a report tick enters Submit
    | ReportSend           // and leaves it
    | ReporterReturns
    | MainLocks            // g.Wait has returned; Shutdown starts
    | MainCloses
    | MainWaits
    | Take(w: nat)
    | CheckContext(w: nat)
    | Snapshot(w: nat)
    | BeginGauges(w: nat)
    | EndGauges(w: nat, result: Outcome)
    | BeginCounters(w: nat)
    | EndCounters(w: nat, result: Outcome)
    | ResetCounter(w: nat)
    | Leave(w: nat)
    | Exit(w: nat)

  function Init(workers: int): State {
    var pool := P.Init(workers);
    var n := |pool.workers|;
    State(pool, seq(n, _ => NoTask), false, false, false, 0, 0, seq(n, _ => 0), seq(n, _ => 0), 0, 0)
  }

  predicate Has(s: State, w: nat) {
    w < |s.tasks| && w < |s.applied| && w < |s.window|
  }

  predicate Enabled(s: State, a: Action) {
    && !s.pool.panicked
    && match a
       case Poll => !s.pollerDone
       case Cancel => !s.cancelled
       case PollerReturns => s.cancelled && !s.pollerDone
       case ReportCheck => !s.reporterDone && P.Enabled(s.pool, P.Check(REPORTER))
       case ReportSend => P.Enabled(s.pool, P.Send(REPORTER))
       case ReporterReturns => s.cancelled && !s.reporterDone && REPORTER !in s.pool.pending
       case MainLocks => s.pollerDone && s.reporterDone && P.Enabled(s.pool, P.SetClosed)
       case MainCloses => P.Enabled(s.pool, P.CloseChannel)
       case MainWaits => P.Enabled(s.pool, P.WaitDone)
       case Take(w) => Has(s, w) && s.tasks[w].NoTask? && P.Enabled(s.pool, P.Take(w))
       case CheckContext(w) => Has(s, w) && s.tasks[w].Entered?
       case Snapshot(w) => Has(s, w) && s.tasks[w].Passed?
       case BeginGauges(w) => Has(s, w) && s.tasks[w].Sending? && s.tasks[w].stage.BeforeGauges?
       case EndGauges(w, _) => Has(s, w) && s.tasks[w].Sending? && s.tasks[w].stage.SendingGauges?
       case BeginCounters(w) => Has(s, w) && s.tasks[w].Sending? && s.tasks[w].stage.BeforeCounters?
       case EndCounters(w, _) => Has(s, w) && s.tasks[w].Sending? && s.tasks[w].stage.SendingCounters?
       case ResetCounter(w) => Has(s, w) && s.tasks[w].Succeeded?
       case Leave(w) => Has(s, w) && s.tasks[w].Leaving? && P.Enabled(s.pool, P.Done(w))
       case Exit(w) => Has(s, w) && s.tasks[w].NoTask? && P.Enabled(s.pool, P.Exit(w))
  }

  function Begun(s: State): nat {
    if s.cancelled then s.sends + 1 else s.sends
  }

  function Goto(s: State, w: nat, t: Task): State
    requires w < |s.tasks|
  {
    s.(tasks := s.tasks[w := t])
  }

  function Stepped(s: State, a: Action): State
    requires Enabled(s, a)
  {
    match a
    case Poll => s.(polls := s.polls + 1, local := s.local + 1, window := Ticked(s.window))
    case Cancel => s.(cancelled := true)
    case PollerReturns => s.(pollerDone := true)
    case ReportCheck => s.(pool := P.Step(s.pool, P.Check(REPORTER)))
    case ReportSend => s.(pool := P.Step(s.pool, P.Send(REPORTER)))
    case ReporterReturns => s.(reporterDone := true)
    case MainLocks => s.(pool := P.Step(s.pool, P.SetClosed))
    case MainCloses => s.(pool := P.Step(s.pool, P.CloseChannel))
    case MainWaits => s.(pool := P.Step(s.pool, P.WaitDone))
    case Take(w) => Goto(s.(pool := P.Step(s.pool, P.Take(w))), w, Entered)
    case CheckContext(w) => Goto(s, w, if s.cancelled then Leaving else Passed)
    case Snapshot(w) => Goto(s.(window := s.window[w := 0]), w, Sending(0, s.local, BeforeGauges))
    case BeginGauges(w) =>
      Goto(s.(sends := Begun(s)), w, s.tasks[w].(stage := SendingGauges))
    case EndGauges(w, errG) =>
      Goto(s, w, s.tasks[w].(stage := BeforeCounters(errG)))
    case BeginCounters(w) =>
      Goto(s.(sends := Begun(s)), w, s.tasks[w].(stage := SendingCounters(s.tasks[w].stage.errG)))
    case EndCounters(w, errC) =>
      var t := s.tasks[w];
      if errC.None? then
        Goto(s.(applied := s.applied[w := s.applied[w] + t.snapshot]), w, Succeeded(t.snapshot))
      else if t.attempt < MAX_RETRIES && TryAgain(Attempt(t.stage.errG, errC)) then
        Goto(s, w, Sending(t.attempt + 1, t.snapshot, BeforeGauges))
      else
        Goto(s, w, Leaving)
    case ResetCounter(w) => Goto(s.(local := 0, lost := s.lost + s.window[w]), w, Leaving)
    case Leave(w) => Goto(s.(pool := P.Step(s.pool, P.Done(w))), w, NoTask)
    case Exit(w) => s.(pool := P.Step(s.pool, P.Exit(w)))
  }

  function Ticked(ws: seq<nat>): seq<nat> {
    seq(|ws|, i requires 0 <= i < |ws| => ws[i] + 1)
  }

  function Step(s: State, a: Action): State {
    if Enabled(s, a) then Stepped(s, a) else s
  }

  function Exec(s: State, actions: seq<Action>): State {
    if actions == [] then s else Step(Exec(s, actions[..|actions| - 1]), actions[|actions| - 1])
  }

  /** The worker whose task an action advances. */
  function WorkerOf(a: Action): Option<nat> {
    match a
    case Take(w) => Some(w)
    case CheckContext(w) => Some(w)
    case Snapshot(w) => Some(w)
    case BeginGauges(w) => Some(w)
    case EndGauges(w, _) => Some(w)
    case BeginCounters(w) => Some(w)
    case EndCounters(w, _) => Some(w)
    case ResetCounter(w) => Some(w)
    case Leave(w) => Some(w)
    case _ => None
  }

  // ---------- lifecycle: the pool is never misused ----------

  ghost predicate Shape(s: State) {
    && |s.tasks| == |s.pool.workers| == |s.applied| == |s.window|
    && (forall i | 0 <= i < |s.tasks| :: s.tasks[i].NoTask? <==> !s.pool.workers[i].Running?)
    && (forall i | 0 <= i < |s.tasks| :: s.tasks[i].Sending? ==> s.tasks[i].attempt <= MAX_RETRIES)
  }

  /** The sole submitter has left its loop before Shutdown runs. */
  ghost predicate Lifecycle(s: State) {
    && !s.pool.panicked
    && (forall who <- s.pool.pending :: who == REPORTER)
    && (s.pool.Closed() ==> s.pollerDone && s.reporterDone)
    && (s.reporterDone ==> s.cancelled && s.pool.pending == map[])
    && (s.pollerDone ==> s.cancelled)
  }

  lemma LifecycleStep(s: State, a: Action)
    requires Lifecycle(s)
    ensures Lifecycle(Step(s, a))
  {
    if Enabled(s, a) && a.ReporterReturns? {
      assert s.pool.pending.Keys == {};
    }
  }

  lemma ShapeStep(s: State, a: Action)
    requires Shape(s)
    ensures Shape(Step(s, a))
  {
    hide Shape, Stepped;
    if Enabled(s, a) {
      match a
      case Take(w) => TakeShape(s, w);
      case Leave(w) => LeaveShape(s, w);
      case Exit(w) => ExitShape(s, w);
      case _ =>
        if WorkerOf(a).Some? {
          TaskShape(s, a);
        } else {
          CrewShape(s, a);
        }
    }
  }

  lemma TaskShape(s: State, a: Action)
    requires Shape(s) && Enabled(s, a) && WorkerOf(a).Some? && !a.Take? && !a.Leave?
    ensures Shape(Step(s, a))
  {
    hide P.Step, P.Enabled, TryAgain;
  }

  lemma CrewShape(s: State, a: Action)
    requires Shape(s) && Enabled(s, a) && WorkerOf(a).None? && !a.Exit?
    ensures Shape(Step(s, a))
  {
    hide P.Step, P.Enabled;
    match a
    case ReportCheck => SameCrew(s.pool, P.Check(REPORTER));
    case ReportSend => SameCrew(s.pool, P.Send(REPORTER));
    case MainLocks => SameCrew(s.pool, P.SetClosed);
    case MainCloses => SameCrew(s.pool, P.CloseChannel);
    case MainWaits => SameCrew(s.pool, P.WaitDone);
    case _ =>
  }

  /** Only receiving, finishing and exiting change what a worker is doing. */
  lemma SameCrew(p: P.State, a: P.Action)
    requires !a.Take? && !a.Done? && !a.Exit?
    ensures P.Step(p, a).workers == p.workers
  {
  }

  lemma TakeShape(s: State, w: nat)
    requires Shape(s) && Enabled(s, Take(w))
    ensures Shape(Step(s, Take(w)))
  {
    assert P.Step(s.pool, P.Take(w)).workers == s.pool.workers[w := P.Running(s.pool.queue[0])];
  }

  lemma LeaveShape(s: State, w: nat)
    requires Shape(s) && Enabled(s, Leave(w))
    ensures Shape(Step(s, Leave(w)))
  {
    assert P.Step(s.pool, P.Done(w)).workers == s.pool.workers[w := P.Waiting];
  }

  lemma ExitShape(s: State, w: nat)
    requires Shape(s) && Enabled(s, Exit(w))
    ensures Shape(Step(s, Exit(w)))
  {
    assert P.Step(s.pool, P.Exit(w)).workers == s.pool.workers[w := P.Exited];
  }

  lemma {:induction false} ExecLifecycle(workers: int, actions: seq<Action>)
    ensures Shape(Exec(Init(workers), actions)) && Lifecycle(Exec(Init(workers), actions))
  {
    if actions != [] {
      var k := |actions| - 1;
      ExecLifecycle(workers, actions[..k]);
      ShapeStep(Exec(Init(workers), actions[..k]), actions[k]);
      LifecycleStep(Exec(Init(workers), actions[..k]), actions[k]);
    }
  }

  /**
   * No reachable state of the agent sends on a closed channel, although Submit releases its lock
   * between the closed check and the send.
   */
  lemma {:induction false} NeverSendsOnClosed(workers: int, actions: seq<Action>)
    ensures var s := Exec(Init(workers), actions);
      && !s.pool.panicked
      && (s.pool.ChannelClosed() ==> s.pool.pending == map[])
      && (s.pool.Closed() ==> s.cancelled && s.pollerDone && s.reporterDone)
  {
    ExecLifecycle(workers, actions);
  }

  /** The pool steps an agent action performs. */
  function PoolActions(a: Action): seq<P.Action> {
    match a
    case ReportCheck => [P.Check(REPORTER)]
    case ReportSend => [P.Send(REPORTER)]
    case MainLocks => [P.SetClosed]
    case MainCloses => [P.CloseChannel]
    case MainWaits => [P.WaitDone]
    case Take(w) => [P.Take(w)]
    case Leave(w) => [P.Done(w)]
    case Exit(w) => [P.Exit(w)]
    case _ => []
  }

  /** Every run of the agent is a run of the worker pool, so the pool's theorems hold inside it. */
  lemma {:induction false} PoolRun(workers: int, actions: seq<Action>) returns (run: seq<P.Action>)
    ensures Exec(Init(workers), actions).pool == P.Exec(P.Init(workers), run)
  {
    if actions == [] {
      run := [];
    } else {
      var k := |actions| - 1;
      var before := PoolRun(workers, actions[..k]);
      var more := PoolStep(Exec(Init(workers), actions[..k]), actions[k]);
      run := before + more;
      assert more == [] ==> run == before;
      assert more != [] ==> run[..|run| - 1] == before;
    }
  }

  lemma PoolStep(s: State, a: Action) returns (more: seq<P.Action>)
    ensures |more| <= 1
    ensures Step(s, a).pool == if more == [] then s.pool else P.Step(s.pool, more[0])
  {
    hide P.Step, P.Enabled;
    more := if Enabled(s, a) then PoolActions(a) else [];
  }

  // ---------- sums over the workers ----------

  function Weigh<T>(f: T -> nat, xs: seq<T>): nat {
    if |xs| == 0 then 0 else Weigh(f, xs[..|xs| - 1]) + f(xs[|xs| - 1])
  }

  lemma {:induction false} WeighUpdate<T>(f: T -> nat, xs: seq<T>, i: nat, x: T)
    requires i < |xs|
    ensures Weigh(f, xs[i := x]) + f(xs[i]) == Weigh(f, xs) + f(x)
  {
    var k := |xs| - 1;
    if i == k {
      assert xs[i := x][..k] == xs[..k];
    } else {
      assert xs[i := x][..k] == xs[..k][i := x];
      WeighUpdate(f, xs[..k], i, x);
    }
  }

  lemma {:induction false} WeighBound<T>(f: T -> nat, xs: seq<T>, m: nat)
    requires forall i | 0 <= i < |xs| :: f(xs[i]) <= m
    ensures Weigh(f, xs) <= |xs| * m
  {
    if |xs| > 0 {
      WeighBound(f, xs[..|xs| - 1], m);
      assert |xs| * m == (|xs| - 1) * m + m;
    }
  }

  lemma {:induction false} WeighZero<T>(f: T -> nat, xs: seq<T>)
    requires forall i | 0 <= i < |xs| :: f(xs[i]) == 0
    ensures Weigh(f, xs) == 0
  {
    if |xs| > 0 {
      WeighZero(f, xs[..|xs| - 1]);
    }
  }

  /** Such an action changes the task, the snapshot window and the applied count of that worker only. */
  lemma WorkerLocal(s: State, a: Action)
    requires Shape(s) && Enabled(s, a) && WorkerOf(a).Some?
    ensures var t, w := Step(s, a), WorkerOf(a).value;
      && w < |s.tasks| && |t.tasks| == |s.tasks| && |t.applied| == |s.applied| && |t.window| == |s.window|
      && t.tasks == s.tasks[w := t.tasks[w]]
      && t.applied == s.applied[w := t.applied[w]]
      && t.window == s.window[w := t.window[w]]
      && t.polls == s.polls && t.cancelled == s.cancelled
      && (t.local == s.local || t.local == 0)
  {
    assert |s.tasks| == |s.applied| == |s.window|;
    hide P.Step, P.Enabled, TryAgain, Shape, Begun;
    var t, w := Step(s, a), WorkerOf(a).value;
    if a.EndCounters? {
      assert t.applied == s.applied[w := t.applied[w]];
    } else {
      assert t.applied == s.applied;
    }
  }

  /** Any other action leaves tasks and applied counts alone; only Poll touches the polls. */
  lemma NotWorkerLocal(s: State, a: Action)
    requires Shape(s) && Enabled(s, a) && WorkerOf(a).None?
    ensures var t := Step(s, a);
      && t.tasks == s.tasks && t.applied == s.applied && t.lost == s.lost && t.sends == s.sends
      && (a.Poll? ==> t.polls == s.polls + 1 && t.local == s.local + 1 && t.window == Ticked(s.window))
      && (!a.Poll? ==> t.polls == s.polls && t.local == s.local && t.window == s.window)
      && (!a.Cancel? ==> t.cancelled == s.cancelled)
      && (a.Cancel? ==> t.cancelled && !s.cancelled)
  {
    hide P.Step, P.Enabled, TryAgain;
  }

  // ---------- poll accounting ----------

  function Itself(n: nat): nat {
    n
  }

  /** A snapshot the server has added and the agent has not yet zeroed. */
  function Owes(t: Task): nat {
    if t.Succeeded? then t.snapshot else 0
  }

  /** The total the server's PollCount has received. */
  function AtServer(s: State): nat {
    Weigh(Itself, s.applied)
  }

  /** Where worker i stands with respect to the polls before the latest reset, polls - local. */
  predicate WorkerBound(s: State, i: nat)
    requires i < |s.tasks| && i < |s.applied| && i < |s.window| && s.local <= s.polls
  {
    match s.tasks[i]
    case Sending(_, snapshot, _) =>
      && s.applied[i] + snapshot <= s.polls
      && s.applied[i] <= s.polls - s.local
      && s.local <= snapshot + s.window[i]
    case Succeeded(snapshot) => s.applied[i] <= s.polls && s.local <= snapshot + s.window[i]
    case _ => s.applied[i] <= s.polls - s.local
  }

  ghost predicate Bounds(s: State) {
    && Shape(s) && s.local <= s.polls
    && forall i | 0 <= i < |s.tasks| :: WorkerBound(s, i)
  }

  /** Every poll a reset removed was either in a delivered snapshot or made after that snapshot. */
  ghost predicate Accounted(s: State) {
    s.polls - s.local + Weigh(Owes, s.tasks) <= AtServer(s) + s.lost
  }

  /** A single worker is the only one to zero the counter, so its snapshot and window add up to it. */
  ghost predicate Undisturbed(s: State) {
    |s.tasks| == 1 && |s.window| == 1 ==>
      match s.tasks[0]
      case Sending(_, snapshot, _) => s.local == snapshot + s.window[0]
      case Succeeded(snapshot) => s.local == snapshot + s.window[0]
      case _ => true
  }

  /** With a single worker nothing is counted twice. */
  ghost predicate Exact(s: State) {
    && Undisturbed(s)
    && (|s.tasks| == 1 ==> s.polls - s.local + Weigh(Owes, s.tasks) == AtServer(s) + s.lost)
  }

  lemma BoundsStep(s: State, a: Action)
    requires Bounds(s)
    ensures Bounds(Step(s, a))
  {
    ShapeStep(s, a);
    if Enabled(s, a) {
      var t := Step(s, a);
      if WorkerOf(a).Some? {
        WorkerLocal(s, a);
        OwnBound(s, a);
        OtherBounds(s, t, WorkerOf(a).value);
      } else {
        NotWorkerLocal(s, a);
        hide Step, Shape;
        forall i | 0 <= i < |t.tasks| ensures WorkerBound(t, i) {
          assert WorkerBound(s, i);
        }
      }
    }
  }

  lemma OwnBound(s: State, a: Action)
    requires Bounds(s) && Enabled(s, a) && WorkerOf(a).Some?
    requires WorkerOf(a).value < |s.tasks| == |Step(s, a).tasks| == |Step(s, a).applied| == |Step(s, a).window|
    requires Step(s, a).local <= Step(s, a).polls
    ensures WorkerBound(Step(s, a), WorkerOf(a).value)
  {
    hide P.Step, P.Enabled, TryAgain;
    assert WorkerBound(s, WorkerOf(a).value);
  }

  lemma OtherBounds(s: State, t: State, w: nat)
    requires Bounds(s) && w < |s.tasks| == |t.tasks| == |t.applied| == |t.window|
    requires t.tasks == s.tasks[w := t.tasks[w]] && t.applied == s.applied[w := t.applied[w]]
    requires t.window == s.window[w := t.window[w]] && t.polls == s.polls && t.local <= s.local
    requires WorkerBound(t, w)
    ensures forall i | 0 <= i < |t.tasks| :: WorkerBound(t, i)
  {
    forall i | 0 <= i < |t.tasks| ensures WorkerBound(t, i) {
      assert WorkerBound(s, i);
    }
  }

  lemma AccountedStep(s: State, a: Action)
    requires Bounds(s) && Accounted(s) && Exact(s)
    ensures Accounted(Step(s, a)) && Exact(Step(s, a))
  {
    if Enabled(s, a) {
      if WorkerOf(a).None? {
        NotWorkerLocal(s, a);
        hide Step, Shape;
      } else if a.EndCounters? {
        SendAccounted(s, a, a.w);
      } else if a.ResetCounter? {
        ResetAccounted(s, a.w);
      } else {
        WorkerLocal(s, a);
        QuietTask(s, a);
        WeighUpdate(Owes, s.tasks, WorkerOf(a).value, Step(s, a).tasks[WorkerOf(a).value]);
      }
    }
  }

  /** Between the snapshot and the counter send, only the task itself changes. */
  lemma QuietTask(s: State, a: Action)
    requires Bounds(s) && Undisturbed(s) && Enabled(s, a)
    requires WorkerOf(a).Some? && !a.EndCounters? && !a.ResetCounter?
    ensures var t, w := Step(s, a), WorkerOf(a).value;
      && w < |t.tasks| && Owes(t.tasks[w]) == Owes(s.tasks[w]) == 0
      && t.polls == s.polls && t.local == s.local && t.lost == s.lost && t.applied == s.applied
      && Undisturbed(t)
  {
    hide P.Step, P.Enabled, TryAgain, Weigh, WorkerBound;
  }

  lemma SendAccounted(s: State, a: Action, w: nat)
    requires Bounds(s) && Accounted(s) && Exact(s) && Enabled(s, a) && a.EndCounters? && a.w == w
    ensures Accounted(Step(s, a)) && Exact(Step(s, a))
  {
    hide P.Step, P.Enabled, TryAgain, Weigh, WorkerBound;
    var t := Step(s, a);
    WeighUpdate(Owes, s.tasks, w, t.tasks[w]);
    WeighUpdate(Itself, s.applied, w, t.applied[w]);
    assert t.applied == s.applied[w := t.applied[w]];
  }

  lemma ResetAccounted(s: State, w: nat)
    requires Bounds(s) && Accounted(s) && Exact(s) && Enabled(s, ResetCounter(w))
    ensures Accounted(Step(s, ResetCounter(w))) && Exact(Step(s, ResetCounter(w)))
  {
    hide P.Step, P.Enabled, TryAgain, Weigh;
    WeighUpdate(Owes, s.tasks, w, Leaving);
    assert WorkerBound(s, w);
  }

  lemma InitAccounted(workers: int)
    ensures Bounds(Init(workers)) && Accounted(Init(workers)) && Exact(Init(workers))
  {
    WeighZero(Owes, Init(workers).tasks);
    WeighZero(Itself, Init(workers).applied);
  }

  lemma {:induction false} ExecAccounted(workers: int, actions: seq<Action>)
    ensures var s := Exec(Init(workers), actions);
      Bounds(s) && Accounted(s) && Exact(s) && |s.tasks| == |Init(workers).tasks|
  {
    hide Bounds, Accounted, Exact;
    InitAccounted(workers);
    if actions != [] {
      var k := |actions| - 1;
      ExecAccounted(workers, actions[..k]);
      BoundsStep(Exec(Init(workers), actions[..k]), actions[k]);
      AccountedStep(Exec(Init(workers), actions[..k]), actions[k]);
      SameWorkers(Exec(Init(workers), actions[..k]), actions[k]);
    }
  }

  lemma SameWorkers(s: State, a: Action)
    ensures |Step(s, a).tasks| == |s.tasks|
  {
  }

  /**
   * Whatever the network does (a failed send not having been applied): the server's total is at
   * most every poll once per worker, and at least the polls made minus those still local and those
   * made between a snapshot and its reset.
   */
  lemma {:induction false} PollAccounting(workers: int, actions: seq<Action>)
    ensures var s := Exec(Init(workers), actions);
      && AtServer(s) <= (if workers <= 0 then 1 else workers) * s.polls
      && s.polls <= AtServer(s) + s.local + s.lost
  {
    var s := Exec(Init(workers), actions);
    ExecAccounted(workers, actions);
    forall i | 0 <= i < |s.applied| ensures Itself(s.applied[i]) <= s.polls {
      assert WorkerBound(s, i);
    }
    WeighBound(Itself, s.applied, s.polls);
  }

  /**
   * One worker: the server never counts a poll twice, and between tasks the polls made are exactly
   * those at the server, those still local, and those lost between a snapshot and its reset.
   */
  lemma {:induction false} SingleWorkerIsExact(workers: int, actions: seq<Action>)
    requires workers <= 1
    ensures var s := Exec(Init(workers), actions);
      && AtServer(s) <= s.polls
      && |s.tasks| == 1
      && (!s.tasks[0].Succeeded? ==> s.polls == AtServer(s) + s.local + s.lost)
  {
    var s := Exec(Init(workers), actions);
    PollAccounting(workers, actions);
    ExecAccounted(workers, actions);
    hide Exec, AtServer, Shape;
    if !s.tasks[0].Succeeded? {
      WeighZero(Owes, s.tasks);
    }
  }

  // ---------- the bound on double counting is attained ----------

  lemma {:induction false} ExecConcat(s: State, a: seq<Action>, b: seq<Action>)
    ensures Exec(s, a + b) == Exec(Exec(s, a), b)
  {
    hide Step;
    if b == [] {
      assert a + b == a;
    } else {
      assert (a + b)[..|a + b| - 1] == a + b[..|b| - 1];
      ExecConcat(s, a, b[..|b| - 1]);
    }
  }

  lemma ExecThen(s: State, before: seq<Action>, a: Action)
    ensures Exec(s, before + [a]) == Step(Exec(s, before), a)
  {
    assert (before + [a])[..|before|] == before;
  }

  /** The first i workers have all taken a snapshot of the one poll made; the others wait. */
  ghost predicate Primed(s: State, i: nat) {
    && i <= |s.tasks| == |s.pool.workers| == |s.applied| == |s.window|
    && !s.pool.panicked && s.pool.once == P.NotStarted && s.pool.pending == map[] && s.pool.queue == []
    && s.polls == 1 && s.local == 1 && s.lost == 0 && !s.cancelled && !s.pollerDone && !s.reporterDone
    && (forall j | 0 <= j < |s.tasks| ::
          && s.tasks[j] == (if j < i then Sending(0, 1, BeforeGauges) else NoTask)
          && (if j < i then s.window[j] == 0 else s.pool.workers[j].Waiting?)
          && s.applied[j] == 0)
  }

  lemma PrimeOne(s: State, i: nat)
    requires Primed(s, i) && i < |s.tasks|
    ensures Primed(Exec(s, [ReportCheck, ReportSend, Take(i), CheckContext(i), Snapshot(i)]), i + 1)
  {
    hide Step, Exec;
    FiveSteps(s, ReportCheck, ReportSend, Take(i), CheckContext(i), Snapshot(i));
    var s3 := Step(Step(Step(s, ReportCheck), ReportSend), Take(i));
    HandOver(s, i);
    EnterTask(s3, i);
    PrimedNext(s, s3.pool, Step(Step(s3, CheckContext(i)), Snapshot(i)), i);
  }

  lemma PrimedNext(s: State, pool: P.State, t: State, i: nat)
    requires Primed(s, i) && i < |s.tasks|
    requires t == s.(pool := pool, window := s.window[i := 0], tasks := s.tasks[i := Sending(0, 1, BeforeGauges)])
    requires !pool.panicked && pool.once == P.NotStarted && pool.pending == map[] && pool.queue == []
    requires |pool.workers| == |s.pool.workers|
    requires forall j | i < j < |s.tasks| :: pool.workers[j] == s.pool.workers[j]
    ensures Primed(t, i + 1)
  {
  }

  /** Past the context check, a task reads *pollCounter. */
  lemma EnterTask(s: State, i: nat)
    requires !s.pool.panicked && !s.cancelled && Has(s, i) && s.tasks[i].Entered?
    ensures Step(Step(s, CheckContext(i)), Snapshot(i))
         == s.(window := s.window[i := 0], tasks := s.tasks[i := Sending(0, s.local, BeforeGauges)])
  {
    hide P.Step, P.Enabled;
    assert Step(s, CheckContext(i)) == s.(tasks := s.tasks[i := Passed]);
  }

  /** A submitted task reaches an idle worker of an otherwise empty pool. */
  lemma HandOver(s: State, i: nat)
    requires Primed(s, i) && i < |s.tasks|
    ensures var s3 := Step(Step(Step(s, ReportCheck), ReportSend), Take(i));
      && s3 == s.(pool := s3.pool, tasks := s.tasks[i := Entered])
      && !s3.pool.panicked && s3.pool.once == P.NotStarted && s3.pool.pending == map[] && s3.pool.queue == []
      && |s3.pool.workers| == |s.pool.workers|
      && forall j | i < j < |s.tasks| :: s3.pool.workers[j] == s.pool.workers[j]
  {
    var s1 := Step(s, ReportCheck);
    assert s1.pool.pending == map[REPORTER := s.pool.next];
    var s2 := Step(s1, ReportSend);
    assert s2.pool.queue == [s.pool.next] && s2.pool.pending == map[];
  }

  lemma FiveSteps(s: State, a: Action, b: Action, c: Action, d: Action, e: Action)
    ensures Exec(s, [a, b, c, d]) == Step(Step(Step(Step(s, a), b), c), d)
    ensures Exec(s, [a, b, c, d, e]) == Step(Step(Step(Step(Step(s, a), b), c), d), e)
  {
    hide Step;
    ExecThen(s, [], a);
    assert [] + [a] == [a];
    ExecThen(s, [a], b);
    assert [a] + [b] == [a, b];
    ExecThen(s, [a, b], c);
    assert [a, b] + [c] == [a, b, c];
    hide Exec;
    ExecThen(s, [a, b, c], d);
    assert [a, b, c] + [d] == [a, b, c, d];
    ExecThen(s, [a, b, c, d], e);
    assert [a, b, c, d] + [e] == [a, b, c, d, e];
  }

  lemma {:induction false} Prime(workers: int, i: nat) returns (actions: seq<Action>)
    requires i <= |Init(workers).tasks|
    ensures Primed(Exec(Init(workers), actions), i)
    ensures |Exec(Init(workers), actions).tasks| == |Init(workers).tasks|
  {
    if i == 0 {
      actions := [Poll];
      ExecThen(Init(workers), [], Poll);
      assert [] + [Poll] == [Poll];
    } else {
      var before := Prime(workers, i - 1);
      hide Primed;
      actions := before + [ReportCheck, ReportSend, Take(i - 1), CheckContext(i - 1), Snapshot(i - 1)];
      PrimeOne(Exec(Init(workers), before), i - 1);
      ExecConcat(Init(workers), before, [ReportCheck, ReportSend, Take(i - 1), CheckContext(i - 1), Snapshot(i - 1)]);
      ExecAccounted(workers, actions);
    }
  }

  /** The first i workers have delivered their snapshot; none has reset the counter yet. */
  ghost predicate Counted(s: State, i: nat) {
    && i <= |s.tasks| == |s.applied| == |s.window|
    && !s.pool.panicked && s.polls == 1
    && (forall j | 0 <= j < |s.tasks| ::
          && s.applied[j] == (if j < i then 1 else 0)
          && (j >= i ==> s.tasks[j] == Sending(0, 1, BeforeGauges)))
  }

  lemma CountOne(s: State, i: nat)
    requires Counted(s, i) && i < |s.tasks|
    ensures Counted(Exec(s, [BeginGauges(i), EndGauges(i, None), BeginCounters(i), EndCounters(i, None)]), i + 1)
  {
    hide Step, Exec;
    FiveSteps(s, BeginGauges(i), EndGauges(i, None), BeginCounters(i), EndCounters(i, None), Poll);
    SendGauges(s, i);
    var mid := Step(Step(s, BeginGauges(i)), EndGauges(i, None));
    SendCounters(mid, i);
    CountedNext(s, Step(Step(mid, BeginCounters(i)), EndCounters(i, None)), i);
  }

  lemma CountedNext(s: State, t: State, i: nat)
    requires Counted(s, i) && i < |s.tasks|
    requires t == s.(sends := t.sends, tasks := s.tasks[i := Succeeded(1)], applied := s.applied[i := s.applied[i] + 1])
    ensures Counted(t, i + 1)
  {
  }

  lemma SendGauges(s: State, i: nat)
    requires !s.pool.panicked && Has(s, i) && s.tasks[i] == Sending(0, 1, BeforeGauges)
    ensures var t := Step(Step(s, BeginGauges(i)), EndGauges(i, None));
      t == s.(sends := t.sends, tasks := s.tasks[i := Sending(0, 1, BeforeCounters(None))])
  {
    hide P.Step, P.Enabled;
    var s1 := Step(s, BeginGauges(i));
    assert s1 == s.(sends := s1.sends, tasks := s.tasks[i := Sending(0, 1, SendingGauges)]);
  }

  lemma SendCounters(s: State, i: nat)
    requires !s.pool.panicked && Has(s, i) && s.tasks[i] == Sending(0, 1, BeforeCounters(None))
    ensures var t := Step(Step(s, BeginCounters(i)), EndCounters(i, None));
      t == s.(sends := t.sends, tasks := s.tasks[i := Succeeded(1)], applied := s.applied[i := s.applied[i] + 1])
  {
    hide P.Step, P.Enabled;
    var s1 := Step(s, BeginCounters(i));
    assert s1 == s.(sends := s1.sends, tasks := s.tasks[i := Sending(0, 1, SendingCounters(None))]);
  }

  lemma {:induction false} CountAll(s: State, i: nat) returns (actions: seq<Action>)
    requires Counted(s, 0) && i <= |s.tasks|
    ensures Counted(Exec(s, actions), i) && |Exec(s, actions).tasks| == |s.tasks|
  {
    if i == 0 {
      actions := [];
    } else {
      var before := CountAll(s, i - 1);
      var mid := Exec(s, before);
      var more := [BeginGauges(i - 1), EndGauges(i - 1, None), BeginCounters(i - 1), EndCounters(i - 1, None)];
      hide Counted;
      actions := before + more;
      CountOne(mid, i - 1);
      ExecConcat(s, before, more);
      SameAfter(mid, more);
    }
  }

  lemma {:induction false} SameAfter(s: State, actions: seq<Action>)
    ensures |Exec(s, actions).tasks| == |s.tasks|
  {
    hide Step;
    if actions != [] {
      SameAfter(s, actions[..|actions| - 1]);
      SameWorkers(Exec(s, actions[..|actions| - 1]), actions[|actions| - 1]);
    }
  }

  lemma {:induction false} WeighOnes(xs: seq<nat>)
    requires forall i | 0 <= i < |xs| :: xs[i] == 1
    ensures Weigh(Itself, xs) == |xs|
  {
    if xs != [] {
      WeighOnes(xs[..|xs| - 1]);
    }
  }

  /** With n workers a single poll can be counted n times: the bound of PollAccounting is exact. */
  lemma OnePollCountedByEveryWorker(workers: int) returns (actions: seq<Action>)
    ensures var s := Exec(Init(workers), actions);
      s.polls == 1 && AtServer(s) == if workers <= 0 then 1 else workers
  {
    var n := |Init(workers).tasks|;
    var first := Prime(workers, n);
    var s := Exec(Init(workers), first);
    var second := CountAll(s, n);
    actions := first + second;
    ExecConcat(Init(workers), first, second);
    WeighOnes(Exec(s, second).applied);
  }

  // ---------- polls can be lost ----------

  /** A poll made between a worker's snapshot and its reset is gone: two polls, one at the server, none left. */
  lemma PollsCanBeLost(workers: int) returns (actions: seq<Action>)
    ensures var s := Exec(Init(workers), actions);
      s.polls == 2 && AtServer(s) == 1 && s.local == 0 && s.lost == 1
  {
    var before := Prime(workers, 1);
    var s := Exec(Init(workers), before);
    var send := [BeginGauges(0), EndGauges(0, None), BeginCounters(0), EndCounters(0, None)];
    actions := before + [Poll] + send + [ResetCounter(0)];
    hide Step, Exec;
    ExecThen(Init(workers), before, Poll);
    ExecConcat(Init(workers), before + [Poll], send);
    ExecThen(Init(workers), before + [Poll] + send, ResetCounter(0));
    var polled := Step(s, Poll);
    FiveSteps(polled, BeginGauges(0), EndGauges(0, None), BeginCounters(0), EndCounters(0, None), Poll);
    LatePoll(s);
    SendGauges(polled, 0);
    var mid := Step(Step(polled, BeginGauges(0)), EndGauges(0, None));
    SendCounters(mid, 0);
    var sent := Step(Step(mid, BeginCounters(0)), EndCounters(0, None));
    LateReset(sent);
    WeighZero(Itself, s.applied);
    WeighUpdate(Itself, s.applied, 0, 1);
  }

  lemma LatePoll(s: State)
    requires Primed(s, 1)
    ensures var t := Step(s, Poll);
      && t == s.(polls := 2, local := 2, window := t.window) && |t.window| == |s.window| && t.window[0] == 1
  {
  }

  lemma LateReset(s: State)
    requires !s.pool.panicked && Has(s, 0) && s.tasks[0].Succeeded?
    ensures var t := Step(s, ResetCounter(0));
      t.polls == s.polls && t.applied == s.applied && t.local == 0 && t.lost == s.lost + s.window[0]
  {
  }

  // ---------- every call of the sender happens ----------

  /** The steps of a worker whose call makes these attempts. */
  function Call(w: nat, log: seq<Attempt>): seq<Action> {
    if log == [] then [] else Call(w, log[..|log| - 1]) + Sends(w, log[|log| - 1])
  }

  function Sends(w: nat, a: Attempt): seq<Action> {
    [BeginGauges(w), EndGauges(w, a.gauges), BeginCounters(w), EndCounters(w, a.counters)]
  }

  /** The state of a worker's task and of what is counted for it; sends are counted once cancelled. */
  function After(s: State, w: nat, t: Task, delivered: nat, sends: nat): State
    requires w < |s.tasks| && w < |s.applied|
  {
    s.(tasks := s.tasks[w := t],
       applied := s.applied[w := s.applied[w] + delivered],
       sends := s.sends + if s.cancelled then sends else 0)
  }

  lemma AfterAfter(s: State, w: nat, t: Task, u: Task, delivered: nat, m: nat, n: nat)
    requires w < |s.tasks| && w < |s.applied|
    ensures After(After(s, w, t, 0, m), w, u, delivered, n) == After(s, w, u, delivered, m + n)
  {
    assert s.applied[w := s.applied[w] + 0] == s.applied;
  }

  lemma GaugeSend(s: State, w: nat, k: nat, n: nat, errG: Outcome)
    requires !s.pool.panicked && Has(s, w) && s.tasks[w] == Sending(k, n, BeforeGauges)
    ensures Step(Step(s, BeginGauges(w)), EndGauges(w, errG)) == After(s, w, Sending(k, n, BeforeCounters(errG)), 0, 1)
  {
    hide P.Step, P.Enabled;
    var s1 := Step(s, BeginGauges(w));
    assert s1 == s.(sends := Begun(s), tasks := s.tasks[w := Sending(k, n, SendingGauges)]);
    assert s.applied[w := s.applied[w] + 0] == s.applied;
  }

  lemma CounterSend(s: State, w: nat, k: nat, n: nat, a: Attempt)
    requires !s.pool.panicked && Has(s, w) && s.tasks[w] == Sending(k, n, BeforeCounters(a.gauges))
    ensures Step(Step(s, BeginCounters(w)), EndCounters(w, a.counters))
         == if a.counters.None? then After(s, w, Succeeded(n), n, 1)
            else After(s, w, if k < MAX_RETRIES && TryAgain(a) then Sending(k + 1, n, BeforeGauges) else Leaving, 0, 1)
  {
    hide P.Step, P.Enabled, TryAgain;
    var s1 := Step(s, BeginCounters(w));
    assert s1 == s.(sends := Begun(s), tasks := s.tasks[w := Sending(k, n, SendingCounters(a.gauges))]);
    assert s.applied[w := s.applied[w] + 0] == s.applied;
    assert a == Attempt(a.gauges, a.counters);
  }

  lemma OneAttempt(s: State, w: nat, k: nat, n: nat, a: Attempt)
    requires !s.pool.panicked && Has(s, w) && s.tasks[w] == Sending(k, n, BeforeGauges)
    ensures Exec(s, Sends(w, a))
         == if a.counters.None? then After(s, w, Succeeded(n), n, 2)
            else After(s, w, if k < MAX_RETRIES && TryAgain(a) then Sending(k + 1, n, BeforeGauges) else Leaving, 0, 2)
  {
    hide Step, Exec, TryAgain;
    var sending := Sending(k, n, BeforeCounters(a.gauges));
    FiveSteps(s, BeginGauges(w), EndGauges(w, a.gauges), BeginCounters(w), EndCounters(w, a.counters), Poll);
    GaugeSend(s, w, k, n, a.gauges);
    CounterSend(After(s, w, sending, 0, 1), w, k, n, a);
    hide After;
    AfterAfter(s, w, sending, Succeeded(n), n, 1, 1);
    AfterAfter(s, w, sending, if k < MAX_RETRIES && TryAgain(a) then Sending(k + 1, n, BeforeGauges) else Leaving,
               0, 1, 1);
  }

  lemma MoreSends(s: State, w: nat, k: nat, n: nat, before: seq<Action>, a: Attempt)
    requires !s.pool.panicked && Has(s, w)
    requires Exec(s, before) == After(s, w, Sending(k, n, BeforeGauges), 0, 2 * k)
    ensures Exec(s, before + Sends(w, a))
         == if a.counters.None? then After(s, w, Succeeded(n), n, 2 * k + 2)
            else After(s, w, if k < MAX_RETRIES && TryAgain(a) then Sending(k + 1, n, BeforeGauges) else Leaving,
                       0, 2 * k + 2)
  {
    hide Exec, TryAgain;
    ExecConcat(s, before, Sends(w, a));
    var sending := Sending(k, n, BeforeGauges);
    OneAttempt(After(s, w, sending, 0, 2 * k), w, k, n, a);
    hide After, Sends;
    AfterAfter(s, w, sending, Succeeded(n), n, 2 * k, 2);
    AfterAfter(s, w, sending, if k < MAX_RETRIES && TryAgain(a) then Sending(k + 1, n, BeforeGauges) else Leaving,
               0, 2 * k, 2);
  }

  lemma NothingSent(s: State, w: nat)
    requires Has(s, w)
    ensures Exec(s, []) == After(s, w, s.tasks[w], 0, 0)
  {
    assert s.tasks[w := s.tasks[w]] == s.tasks && s.applied[w := s.applied[w] + 0] == s.applied;
  }

  /** One more attempt after some that were all retried. */
  lemma {:induction false} NextAttempt(s: State, w: nat, n: nat, log: seq<Attempt>)
    requires !s.pool.panicked && Has(s, w) && s.tasks[w] == Sending(0, n, BeforeGauges)
    requires 0 < |log| <= MAX_RETRIES + 1 && forall i | 0 <= i < |log| - 1 :: TryAgain(log[i])
    ensures var a := log[|log| - 1];
      Exec(s, Call(w, log))
      == if a.counters.None? then After(s, w, Succeeded(n), n, 2 * |log|)
         else After(s, w, if |log| <= MAX_RETRIES && TryAgain(a) then Sending(|log|, n, BeforeGauges) else Leaving,
                    0, 2 * |log|)
    decreases |log|
  {
    hide Exec, After, Sends;
    var k := |log| - 1;
    if k == 0 {
      NothingSent(s, w);
    } else {
      assert TryAgain(log[k - 1]);
      NextAttempt(s, w, n, log[..k]);
    }
    MoreSends(s, w, k, n, Call(w, log[..k]), log[k]);
  }

  /**
   * Whatever SendWithRetry can do, a worker can do, at any time and beside any others: for every log
   * of attempts of a whole call its steps are possible, and they deliver the snapshot, once, exactly
   * if the last counter batch gets through. Nothing else changes.
   */
  lemma {:induction false} EveryCallHappens(s: State, w: nat, n: nat, log: seq<Attempt>)
    requires !s.pool.panicked && Has(s, w) && s.tasks[w] == Sending(0, n, BeforeGauges) && Attempts(log)
    ensures Exec(s, Call(w, log))
         == if log[|log| - 1].counters.None? then After(s, w, Succeeded(n), n, 2 * |log|)
            else After(s, w, Leaving, 0, 2 * |log|)
  {
    NextAttempt(s, w, n, log);
  }

  /** A task calls with the polls counted so far, or does nothing if the context is cancelled. */
  lemma TaskStarts(s: State, w: nat)
    requires !s.pool.panicked && Has(s, w) && s.tasks[w].Entered?
    ensures if s.cancelled then Exec(s, [CheckContext(w)]) == s.(tasks := s.tasks[w := Leaving])
            else Exec(s, [CheckContext(w), Snapshot(w)])
                 == s.(window := s.window[w := 0], tasks := s.tasks[w := Sending(0, s.local, BeforeGauges)])
  {
    ExecThen(s, [], CheckContext(w));
    ExecThen(s, [CheckContext(w)], Snapshot(w));
    assert [] + [CheckContext(w)] == [CheckContext(w)];
    assert [CheckContext(w)] + [Snapshot(w)] == [CheckContext(w), Snapshot(w)];
    hide Exec, P.Step, P.Enabled;
    if !s.cancelled {
      EnterTask(s, w);
    }
  }

  // ---------- bounded shutdown ----------

  /** How many batch sends this task can still begin. */
  function Remaining(t: Task): nat {
    match t
    case Passed => 2 * (MAX_RETRIES + 1)
    case Sending(attempt, _, stage) =>
      if attempt > MAX_RETRIES then 0
      else
        (match stage
         case BeforeGauges => 2 * (MAX_RETRIES + 1 - attempt)
         case SendingGauges => 2 * (MAX_RETRIES + 1 - attempt) - 1
         case BeforeCounters(_) => 2 * (MAX_RETRIES + 1 - attempt) - 1
         case SendingCounters(_) => 2 * (MAX_RETRIES - attempt))
    case _ => 0
  }

  ghost predicate SendBudget(s: State) {
    && (!s.cancelled ==> s.sends == 0)
    && (s.cancelled ==> s.sends + Weigh(Remaining, s.tasks) <= 8 * |s.tasks|)
  }

  /** Beginning a send uses up one of those the task had left; nothing else adds any. */
  lemma RemainingStep(s: State, a: Action)
    requires Shape(s) && Enabled(s, a) && WorkerOf(a).Some?
    ensures var t, w := Step(s, a), WorkerOf(a).value;
      && w < |t.tasks|
      && (s.cancelled ==> t.sends + Remaining(t.tasks[w]) <= s.sends + Remaining(s.tasks[w]))
      && (!s.cancelled ==> t.sends == s.sends)
  {
    hide P.Step, P.Enabled, TryAgain;
  }

  lemma SendBudgetStep(s: State, a: Action)
    requires Shape(s) && SendBudget(s)
    ensures SendBudget(Step(s, a))
  {
    if Enabled(s, a) {
      var t := Step(s, a);
      if WorkerOf(a).Some? {
        WorkerLocal(s, a);
        RemainingStep(s, a);
        WeighUpdate(Remaining, s.tasks, WorkerOf(a).value, t.tasks[WorkerOf(a).value]);
        hide Step, Shape;
      } else {
        NotWorkerLocal(s, a);
        WeighBound(Remaining, s.tasks, 8);
        hide Step, Shape;
      }
    }
  }

  /** After the cancellation at most eight batch sends per worker can begin. */
  lemma {:induction false} BoundedSends(workers: int, actions: seq<Action>)
    ensures SendBudget(Exec(Init(workers), actions))
    ensures Exec(Init(workers), actions).sends <= 8 * if workers <= 0 then 1 else workers
  {
    ExecAccounted(workers, actions);
    if actions != [] {
      var k := |actions| - 1;
      BoundedSends(workers, actions[..k]);
      ExecLifecycle(workers, actions[..k]);
      SendBudgetStep(Exec(Init(workers), actions[..k]), actions[k]);
    }
  }

  /** Steps a task still has before it, from any point after the cancellation. */
  function Rank(t: Task): nat {
    match t
    case NoTask => 0
    case Leaving => 1
    case Entered => 2
    case Succeeded(_) => 2
    case Passed => 20
    case Sending(attempt, _, stage) =>
      if attempt > MAX_RETRIES then 0
      else
        2 + 4 * (MAX_RETRIES - attempt)
        + (match stage
           case BeforeGauges => 4
           case SendingGauges => 3
           case BeforeCounters(_) => 2
           case SendingCounters(_) => 1)
  }

  function Living(w: P.Worker): nat {
    if w.Exited? then 0 else 1
  }

  /** What is left of the drain: queued tasks, tasks under way, workers, and Wait itself. */
  function Measure(s: State): nat {
    3 * |s.pool.queue| + Weigh(Rank, s.tasks) + Weigh(Living, s.pool.workers)
    + if s.pool.once == P.Draining then 1 else 0
  }

  /** Shutdown has closed the channel. */
  ghost predicate ShuttingDown(s: State) {
    Shape(s) && Lifecycle(s) && s.pool.ChannelClosed()
  }

  lemma DrainStep(s: State, a: Action)
    requires ShuttingDown(s) && Enabled(s, a)
    ensures ShuttingDown(Step(s, a)) && Measure(Step(s, a)) < Measure(s)
  {
    ShapeStep(s, a);
    LifecycleStep(s, a);
    var t := Step(s, a);
    match a
    case Take(w) =>
      WeighUpdate(Rank, s.tasks, w, t.tasks[w]);
      WeighUpdate(Living, s.pool.workers, w, t.pool.workers[w]);
    case Leave(w) =>
      WeighUpdate(Rank, s.tasks, w, t.tasks[w]);
      WeighUpdate(Living, s.pool.workers, w, t.pool.workers[w]);
    case Exit(w) =>
      WeighUpdate(Living, s.pool.workers, w, t.pool.workers[w]);
    case MainWaits =>
    case _ =>
      TaskStep(s, a);
  }

  /** A step inside a task brings the task closer to its end and leaves the pool alone. */
  lemma TaskStep(s: State, a: Action)
    requires ShuttingDown(s) && Enabled(s, a)
    requires !a.Take? && !a.Leave? && !a.Exit? && !a.MainWaits?
    ensures Step(s, a).pool == s.pool && Weigh(Rank, Step(s, a).tasks) < Weigh(Rank, s.tasks)
  {
    WorkerActs(s, a);
    WorkerLocal(s, a);
    RankStep(s, a);
    WeighUpdate(Rank, s.tasks, WorkerOf(a).value, Step(s, a).tasks[WorkerOf(a).value]);
    hide Step, Shape;
  }

  lemma WorkerActs(s: State, a: Action)
    requires ShuttingDown(s) && Enabled(s, a)
    requires !a.Take? && !a.Leave? && !a.Exit? && !a.MainWaits?
    ensures WorkerOf(a).Some? && Step(s, a).pool == s.pool
  {
  }

  lemma RankStep(s: State, a: Action)
    requires ShuttingDown(s) && Enabled(s, a) && WorkerOf(a).Some? && !a.Take? && !a.Leave?
    ensures var w := WorkerOf(a).value;
      w < |Step(s, a).tasks| && w < |s.tasks| && Rank(Step(s, a).tasks[w]) < Rank(s.tasks[w])
  {
    hide P.Step, P.Enabled, TryAgain;
  }

  /** Every action of the schedule is enabled when it is taken. */
  ghost predicate AllEnabled(s: State, actions: seq<Action>) {
    forall j | 0 <= j < |actions| :: Enabled(Exec(s, actions[..j]), actions[j])
  }

  /** The drain terminates: from the close of the channel on, no run is longer than the measure. */
  lemma {:induction false} DrainTerminates(s: State, actions: seq<Action>)
    requires ShuttingDown(s) && AllEnabled(s, actions)
    ensures ShuttingDown(Exec(s, actions)) && |actions| + Measure(Exec(s, actions)) <= Measure(s)
  {
    hide Measure, ShuttingDown;
    if actions != [] {
      var k := |actions| - 1;
      assert forall j | 0 <= j < k :: actions[..k][..j] == actions[..j] && actions[..k][j] == actions[j];
      DrainTerminates(s, actions[..k]);
      DrainStep(Exec(s, actions[..k]), actions[k]);
    }
  }

  /** And it does not get stuck: until Shutdown returns, some step is possible. */
  lemma DrainProgress(s: State) returns (a: Action)
    requires ShuttingDown(s) && s.pool.once == P.Draining
    ensures Enabled(s, a)
  {
    if s.pool.AllExited() {
      return MainWaits;
    }
    var w: nat :| w < |s.pool.workers| && !s.pool.workers[w].Exited?;
    match s.tasks[w]
    case NoTask => a := if s.pool.queue == [] then Exit(w) else Take(w);
    case Entered => a := CheckContext(w);
    case Passed => a := Snapshot(w);
    case Succeeded(_) => a := ResetCounter(w);
    case Leaving => a := Leave(w);
    case Sending(_, _, stage) =>
      match stage {
        case BeforeGauges => a := BeginGauges(w);
        case SendingGauges => a := EndGauges(w, None);
        case BeforeCounters(_) => a := BeginCounters(w);
        case SendingCounters(_) => a := EndCounters(w, None);
      }
  }

  // ---------- every run can be shut down ----------

  lemma {:induction false} ExecCons(s: State, a: Action, more: seq<Action>)
    ensures Exec(s, [a] + more) == Exec(Step(s, a), more)
  {
    ExecConcat(s, [a], more);
    ExecThen(s, [], a);
    assert [] + [a] == [a] && Exec(s, []) == s;
  }

  /** How many steps of the shutdown sequence lie before the drain. */
  function Ahead(s: State): nat {
    (if s.cancelled then 0 else 1) + (if s.pollerDone then 0 else 1)
    + (if REPORTER in s.pool.pending then 1 else 0) + (if s.reporterDone then 0 else 1)
    + match s.pool.once
      case NotStarted => 2
      case Closing => 1
      case _ => 0
  }

  /** The next step of the shutdown sequence, up to the close of the channel. */
  function Towards(s: State): Action {
    if !s.cancelled then Cancel
    else if !s.pollerDone then PollerReturns
    else if REPORTER in s.pool.pending then ReportSend
    else if !s.reporterDone then ReporterReturns
    else if s.pool.once.NotStarted? then MainLocks
    else MainCloses
  }

  lemma TowardsStep(s: State)
    requires Shape(s) && Lifecycle(s) && !s.pool.ChannelClosed()
    ensures var t := Step(s, Towards(s)); Shape(t) && Lifecycle(t) && Ahead(t) < Ahead(s)
  {
    ShapeStep(s, Towards(s));
    LifecycleStep(s, Towards(s));
    hide Shape;
  }

  lemma DrainedAhead(s: State)
    requires Lifecycle(s) && s.pool.ChannelClosed()
    ensures Ahead(s) == 0
  {
  }

  lemma {:induction false} ShutdownFrom(s: State) returns (more: seq<Action>)
    requires Shape(s) && Lifecycle(s)
    ensures Exec(s, more).pool.once == P.Finished
    decreases Ahead(s), if s.pool.ChannelClosed() then Measure(s) else 0
  {
    if s.pool.once == P.Finished {
      return [];
    }
    var a := Towards(s);
    if s.pool.ChannelClosed() {
      a := DrainProgress(s);
      DrainStep(s, a);
      DrainedAhead(s);
      DrainedAhead(Step(s, a));
    } else {
      TowardsStep(s);
    }
    hide Shape, Lifecycle, Step, Measure, Ahead;
    more := ShutdownFrom(Step(s, a));
    ExecCons(s, a, more);
    more := [a] + more;
  }

  /**
   * From every reachable state the agent can be shut down: after the cancellation the poller and the
   * reporter return, Shutdown closes the pool and drains it, and in the end the queue is empty and
   * each accepted task has run exactly once.
   */
  lemma {:induction false} ShutdownCompletes(workers: int, actions: seq<Action>) returns (more: seq<Action>)
    ensures var s := Exec(Exec(Init(workers), actions), more);
      && s == Exec(Init(workers), actions + more)
      && s.pool.once == P.Finished && s.pool.queue == [] && s.pool.AllExited()
      && multiset(s.pool.finished) == multiset(s.pool.accepted)
      && forall t <- s.pool.accepted :: multiset(s.pool.finished)[t] == 1
  {
    ExecLifecycle(workers, actions);
    more := ShutdownFrom(Exec(Init(workers), actions));
    ExecConcat(Init(workers), actions, more);
    var run := PoolRun(workers, actions + more);
    P.ExecInv(workers, run);
    hide *;
    P.Drained(P.Exec(P.Init(workers), run));
  }

  // ---------- the two loops keep going until they return ----------

  /** Until the poller returns, every tick is a poll, cancelled or not. */
  lemma {:induction false} EveryTickPolls(workers: int, actions: seq<Action>)
    requires !Exec(Init(workers), actions).pollerDone
    ensures var s, t := Exec(Init(workers), actions), Exec(Init(workers), actions + [Poll]);
      t.polls == s.polls + 1 && t.local == s.local + 1
  {
    ExecLifecycle(workers, actions);
    ExecThen(Init(workers), actions, Poll);
  }

  /** Until the reporter returns, every tick submits one task, which the pool queues if it has room. */
  lemma {:induction false} EveryTickSubmits(workers: int, actions: seq<Action>)
    requires var s := Exec(Init(workers), actions); !s.reporterDone && REPORTER !in s.pool.pending
    ensures var s, t := Exec(Init(workers), actions), Exec(Init(workers), actions + [ReportCheck] + [ReportSend]);
      if |s.pool.queue| < 10 * (if workers <= 0 then 1 else workers)
      then t.pool.queue == s.pool.queue + [s.pool.next] && t.pool.accepted == s.pool.accepted + [s.pool.next]
      else t.pool.queue == s.pool.queue && t.pool.dropped == s.pool.dropped + {s.pool.next}
  {
    var s := Exec(Init(workers), actions);
    ExecLifecycle(workers, actions);
    ExecThen(Init(workers), actions, ReportCheck);
    ExecThen(Init(workers), actions + [ReportCheck], ReportSend);
    ExecAccounted(workers, actions);
    assert |s.pool.workers| == if workers <= 0 then 1 else workers;
    hide Shape, Bounds, Accounted, Exact;
    var s1 := Step(s, ReportCheck);
    assert s1.pool == s.pool.(pending := s.pool.pending[REPORTER := s.pool.next], next := s.pool.next + 1);
  }
}
