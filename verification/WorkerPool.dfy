/**
 * internal/agent/worker_pool.go as a transition system: any number of submitters and Shutdown
 * callers, one step per locked section, channel operation or task.
 */
module WorkerPool {
  import opened Wrappers

  type TaskId = nat

  datatype Worker = Waiting | Running(task: TaskId) | Exited

  /**
   * How far the sync.Once body of Shutdown has got: closed is set and the lock held, the channel is
   * closed, all workers are gone.
   */
  datatype Once = NotStarted | Closing | Draining | Finished

  datatype State = State(
    workers: seq<Worker>,
    queue: seq<TaskId>,
    once: Once,
    pending: map<nat, TaskId>,  // submitters past the closed check and before the send
    next: TaskId,               // identifies each submitted function
    accepted: seq<TaskId>,      // history: in the order they entered the queue
    started: seq<TaskId>,       // history: in the order workers took them
    finished: seq<TaskId>,      // history
    dropped: set<TaskId>,       // history: refused by a full queue
    returned: nat,              // history: Shutdown calls that returned
    panicked: bool)
  {
    predicate Closed() {
      once != NotStarted
    }

    predicate ChannelClosed() {
      once == Draining || once == Finished
    }

    predicate AllExited() {
      forall i | 0 <= i < |workers| :: workers[i].Exited?
    }

    function Capacity(): nat {
      10 * |workers|
    }
  }

  datatype Action =
    | Check(who: nat)   // Submit: RLock, read closed, RUnlock
    | Send(who: nat)    // Submit: the select
    | Take(w: nat)      // worker: receive a task
    | Done(w: nat)      // worker: the task returns
    | Exit(w: nat)      // worker: the range loop ends
    | SetClosed         // Shutdown: Lock, closed = true
    | CloseChannel      // Shutdown: close(taskQueue), Unlock
    | WaitDone          // Shutdown: wg.Wait returns
    | Return            // some Shutdown call returns from once.Do

  /** NewWorkerPool; a non-positive count means one worker. */
  function Init(workers: int): State {
    State(seq(if workers <= 0 then 1 else workers, _ => Waiting), [], NotStarted, map[], 0, [], [], [], {}, 0, false)
  }

  predicate Enabled(s: State, a: Action) {
    && !s.panicked
    && match a
       case Check(who) => who !in s.pending && s.once != Closing && !s.Closed()
       case Send(who) => who in s.pending
       case Take(w) => w < |s.workers| && s.workers[w].Waiting? && s.queue != []
       case Done(w) => w < |s.workers| && s.workers[w].Running?
       case Exit(w) => w < |s.workers| && s.workers[w].Waiting? && s.queue == [] && s.ChannelClosed()
       case SetClosed => s.once == NotStarted
       case CloseChannel => s.once == Closing
       case WaitDone => s.once == Draining && s.AllExited()
       case Return => s.once == Finished
  }

  function Step(s: State, a: Action): State {
    if !Enabled(s, a) then s
    else
      match a
      case Check(who) => s.(pending := s.pending[who := s.next], next := s.next + 1)
      case Send(who) =>
        var t, s' := s.pending[who], s.(pending := s.pending - {who});
        if s.ChannelClosed() then s'.(panicked := true)
        else if |s.queue| < s.Capacity() then s'.(queue := s.queue + [t], accepted := s.accepted + [t])
        else s'.(dropped := s.dropped + {t})
      case Take(w) =>
        s.(workers := s.workers[w := Running(s.queue[0])], queue := s.queue[1..], started := s.started + [s.queue[0]])
      case Done(w) => s.(workers := s.workers[w := Waiting], finished := s.finished + [s.workers[w].task])
      case Exit(w) => s.(workers := s.workers[w := Exited])
      case SetClosed => s.(once := Closing)
      case CloseChannel => s.(once := Draining)
      case WaitDone => s.(once := Finished)
      case Return => s.(returned := s.returned + 1)
  }

  function Exec(s: State, actions: seq<Action>): State {
    if actions == [] then s else Step(Exec(s, actions[..|actions| - 1]), actions[|actions| - 1])
  }

  // ---------- the invariant ----------

  /** The tasks being executed. */
  function Busy(workers: seq<Worker>): multiset<TaskId> {
    if workers == [] then multiset{}
    else Busy(workers[..|workers| - 1]) + Task(workers[|workers| - 1])
  }

  function Task(w: Worker): multiset<TaskId> {
    if w.Running? then multiset{w.task} else multiset{}
  }

  lemma {:induction false} BusyUpdate(workers: seq<Worker>, i: nat, w: Worker)
    requires i < |workers|
    ensures Busy(workers[i := w]) + Task(workers[i]) == Busy(workers) + Task(w)
  {
    var k := |workers| - 1;
    hide Task;
    if i == k {
      assert workers[i := w][..k] == workers[..k];
      assert Busy(workers[i := w]) == Busy(workers[..k]) + Task(w);
      assert Busy(workers) == Busy(workers[..k]) + Task(workers[i]);
    } else {
      assert workers[i := w][..k] == workers[..k][i := w];
      BusyUpdate(workers[..k], i, w);
      Swap(Busy(workers[..k][i := w]), Busy(workers[..k]), Task(workers[i]), Task(w), Task(workers[k]));
    }
  }

  lemma Swap(a: multiset<TaskId>, b: multiset<TaskId>, x: multiset<TaskId>, y: multiset<TaskId>, z: multiset<TaskId>)
    requires a + x == b + y
    ensures a + z + x == b + z + y
  {
    assert a + z + x == a + x + z;
  }

  /** First in, first out, and nothing lost: accepted = finished + running + queued. */
  ghost predicate Fifo(s: State) {
    && s.accepted == s.started + s.queue
    && |s.queue| <= s.Capacity()
    && multiset(s.started) == multiset(s.finished) + Busy(s.workers)
  }

  ghost predicate DistinctTasks(ts: seq<TaskId>) {
    forall i, j | 0 <= i < j < |ts| :: ts[i] != ts[j]
  }

  /** Every submission is a task of its own, on one side only. */
  ghost predicate Separate(s: State) {
    && DistinctTasks(s.accepted)
    && (forall t <- s.accepted :: t < s.next && t !in s.dropped)
    && (forall t <- s.dropped :: t < s.next)
    && (forall p <- s.pending :: s.pending[p] < s.next && s.pending[p] !in s.accepted && s.pending[p] !in s.dropped)
    && (forall p <- s.pending, q <- s.pending :: p != q ==> s.pending[p] != s.pending[q])
  }

  ghost predicate Closes(s: State) {
    && |s.workers| >= 1
    && ((exists i | 0 <= i < |s.workers| :: s.workers[i].Exited?) ==> s.ChannelClosed() && s.queue == [])
    && (s.once == Finished ==> s.AllExited())
    && (s.returned > 0 ==> s.once == Finished)
    && (s.panicked ==> s.ChannelClosed())
  }

  ghost predicate Inv(s: State) {
    Fifo(s) && Separate(s) && Closes(s)
  }

  lemma {:induction false} InitBusy(n: nat)
    ensures Busy(seq(n, _ => Waiting)) == multiset{}
  {
    if n > 0 {
      assert seq(n, _ => Waiting)[..n - 1] == seq(n - 1, _ => Waiting);
      InitBusy(n - 1);
    }
  }

  lemma InitInv(workers: int)
    ensures Inv(Init(workers))
  {
    InitBusy(|Init(workers).workers|);
    assert forall i | 0 <= i < |Init(workers).workers| :: Init(workers).workers[i] == Waiting;
  }

  lemma FifoStep(s: State, a: Action)
    requires Inv(s)
    ensures Fifo(Step(s, a))
  {
    if Enabled(s, a) {
      match a
      case Take(w) => TakeFifo(s, w);
      case Done(w) => DoneFifo(s, w);
      case Exit(w) => ExitFifo(s, w);
      case Send(who) => SendFifo(s, who);
      case _ => hide Busy;
    }
  }

  lemma SendFifo(s: State, who: nat)
    requires Inv(s) && Enabled(s, Send(who))
    ensures Fifo(Step(s, Send(who)))
  {
    hide Busy;
    assert s.started + (s.queue + [s.pending[who]]) == s.accepted + [s.pending[who]];
  }

  lemma DoneFifo(s: State, w: nat)
    requires Inv(s) && Enabled(s, Done(w))
    ensures Fifo(Step(s, Done(w)))
  {
    hide Busy;
    var t := Step(s, Done(w));
    BusyUpdate(s.workers, w, Waiting);
    assert Busy(t.workers) + multiset{s.workers[w].task} == Busy(s.workers);
    assert multiset(t.started) == multiset(s.finished) + multiset{s.workers[w].task} + Busy(t.workers);
  }

  lemma ExitFifo(s: State, w: nat)
    requires Inv(s) && Enabled(s, Exit(w))
    ensures Fifo(Step(s, Exit(w)))
  {
    hide Busy;
    var t := Step(s, Exit(w));
    BusyUpdate(s.workers, w, Exited);
    assert Busy(t.workers) + multiset{} == Busy(t.workers) && Busy(s.workers) + multiset{} == Busy(s.workers);
  }

  lemma TakeFifo(s: State, w: nat)
    requires Inv(s) && Enabled(s, Take(w))
    ensures Fifo(Step(s, Take(w)))
  {
    hide Busy;
    var t, q := Step(s, Take(w)), s.queue[0];
    BusyUpdate(s.workers, w, Running(q));
    assert s.queue == [q] + s.queue[1..];
    assert s.started + s.queue == t.started + t.queue;
    assert Busy(t.workers) == Busy(s.workers) + multiset{q};
    assert multiset(t.started) == multiset(s.finished) + Busy(s.workers) + multiset{q};
  }

  lemma StepInv(s: State, a: Action)
    requires Inv(s)
    ensures Inv(Step(s, a))
  {
    FifoStep(s, a);
    SeparateStep(s, a);
    ClosesStep(s, a);
  }

  lemma SeparateStep(s: State, a: Action)
    requires Separate(s)
    ensures Separate(Step(s, a))
  {
  }

  lemma ClosesStep(s: State, a: Action)
    requires Closes(s)
    ensures Closes(Step(s, a))
  {
    var t := Step(s, a);
    assert forall i | 0 <= i < |t.workers| :: t.workers[i].Exited? ==> s.workers[i].Exited? || a == Exit(i);
  }

  lemma {:induction false} ExecInv(workers: int, actions: seq<Action>)
    ensures Inv(Exec(Init(workers), actions))
  {
    InitInv(workers);
    if actions != [] {
      ExecInv(workers, actions[..|actions| - 1]);
      StepInv(Exec(Init(workers), actions[..|actions| - 1]), actions[|actions| - 1]);
    }
  }

  // ---------- the theorems ----------

  /**
   * In every interleaving: tasks start in the order they were accepted, the queue is bounded, the
   * accepted tasks are exactly those finished, running or queued, and a dropped task never starts.
   */
  lemma PoolSafety(workers: int, actions: seq<Action>)
    ensures var s := Exec(Init(workers), actions);
      && s.accepted == s.started + s.queue
      && |s.queue| <= 10 * (if workers <= 0 then 1 else workers)
      && multiset(s.accepted) == multiset(s.finished) + Busy(s.workers) + multiset(s.queue)
      && DistinctTasks(s.accepted)
      && forall t <- s.dropped :: t !in s.started
  {
    var s := Exec(Init(workers), actions);
    ExecInv(workers, actions);
    ExecSize(workers, actions);
    assert multiset(s.accepted) == multiset(s.started) + multiset(s.queue);
    assert forall t <- s.started :: t in s.accepted;
  }

  lemma {:induction false} ExecSize(workers: int, actions: seq<Action>)
    ensures |Exec(Init(workers), actions).workers| == |Init(workers).workers|
  {
    if actions != [] {
      ExecSize(workers, actions[..|actions| - 1]);
    }
  }

  lemma {:induction false} NobodyBusy(workers: seq<Worker>)
    requires forall i | 0 <= i < |workers| :: !workers[i].Running?
    ensures Busy(workers) == multiset{}
  {
    if workers != [] {
      NobodyBusy(workers[..|workers| - 1]);
    }
  }

  /** When the body of Shutdown is through, the queue is empty and each accepted task has run exactly once. */
  lemma Drained(s: State)
    requires Inv(s) && s.once == Finished
    ensures s.queue == [] && s.AllExited()
    ensures multiset(s.finished) == multiset(s.accepted)
    ensures forall t <- s.accepted :: multiset(s.finished)[t] == 1
  {
    NobodyBusy(s.workers);
    assert s.workers[0].Exited?;
    assert s.started + [] == s.accepted;
    forall t <- s.accepted ensures multiset(s.accepted)[t] == 1 {
      OnceOnly(s.accepted, t);
    }
  }

  /** When any Shutdown call has returned, the queue is empty and each accepted task has run exactly once. */
  lemma ShutdownDrains(workers: int, actions: seq<Action>)
    requires Exec(Init(workers), actions).returned > 0
    ensures var s := Exec(Init(workers), actions);
      && s.queue == []
      && s.AllExited()
      && multiset(s.finished) == multiset(s.accepted)
      && forall t <- s.accepted :: multiset(s.finished)[t] == 1
  {
    ExecInv(workers, actions);
    Drained(Exec(Init(workers), actions));
  }

  /** Once the body of Shutdown is through, every further call of Shutdown returns. */
  lemma ShutdownReturns(s: State)
    requires s.once == Finished && !s.panicked
    ensures Step(s, Return) == s.(returned := s.returned + 1)
  {
  }

  /**
   * After any run, a submitter that is past the closed check finds room exactly while fewer than ten
   * tasks per worker are queued; then its task goes last in the queue, otherwise it is dropped.
   */
  lemma {:induction false} AcceptedExactly(workers: int, actions: seq<Action>, who: nat)
    requires var s := Exec(Init(workers), actions); !s.panicked && who in s.pending && !s.ChannelClosed()
    ensures var s := Exec(Init(workers), actions);
      var t, task := Step(s, Send(who)), s.pending[who];
      && !t.panicked && t.pending == s.pending - {who}
      && if |s.queue| < 10 * (if workers <= 0 then 1 else workers)
         then t.queue == s.queue + [task] && t.accepted == s.accepted + [task] && t.dropped == s.dropped
         else t.queue == s.queue && t.accepted == s.accepted && t.dropped == s.dropped + {task}
  {
    ExecSize(workers, actions);
  }

  /** A submitter passes the closed check if and only if no Shutdown has begun. */
  lemma PassesExactly(s: State, who: nat)
    requires !s.panicked && who !in s.pending
    ensures who in Step(s, Check(who)).pending <==> s.once == NotStarted
  {
  }

  lemma {:induction false} OnceOnly(ts: seq<TaskId>, t: TaskId)
    requires DistinctTasks(ts)
    ensures multiset(ts)[t] == if t in ts then 1 else 0
  {
    if ts != [] {
      var k := |ts| - 1;
      assert ts == ts[..k] + [ts[k]];
      OnceOnly(ts[..k], t);
    }
  }

  /** No submitter is between its check and its send when the channel is closed. */
  ghost predicate Quiet(s: State, actions: seq<Action>) {
    forall j | 0 <= j < |actions| && actions[j] == CloseChannel ::
      Enabled(Exec(s, actions[..j]), CloseChannel) ==> Exec(s, actions[..j]).pending == map[]
  }

  ghost predicate NoPendingAfterClose(s: State) {
    !s.panicked && (s.ChannelClosed() ==> s.pending == map[])
  }

  lemma QuietStep(s: State, a: Action)
    requires NoPendingAfterClose(s)
    requires a == CloseChannel && Enabled(s, a) ==> s.pending == map[]
    ensures NoPendingAfterClose(Step(s, a))
  {
  }

  /** If the close never overlaps a Submit, nothing ever panics. */
  lemma {:induction false} QuietNeverPanics(workers: int, actions: seq<Action>)
    requires Quiet(Init(workers), actions)
    ensures NoPendingAfterClose(Exec(Init(workers), actions))
  {
    if actions != [] {
      var k := |actions| - 1;
      assert forall j | 0 <= j < k :: actions[..k][..j] == actions[..j] && actions[..k][j] == actions[j];
      QuietNeverPanics(workers, actions[..k]);
      QuietStep(Exec(Init(workers), actions[..k]), actions[k]);
    }
  }

  lemma {:induction false} ClosedStaysQuiet(s: State, more: seq<Action>)
    requires NoPendingAfterClose(s) && s.ChannelClosed()
    ensures NoPendingAfterClose(Exec(s, more)) && Exec(s, more).ChannelClosed()
  {
    if more != [] {
      ClosedStaysQuiet(s, more[..|more| - 1]);
      QuietStep(Exec(s, more[..|more| - 1]), more[|more| - 1]);
    }
  }

  /**
   * From the close of the channel on, some continuation panics if and only if a submitter was
   * caught between its check and its send.
   */
  lemma {:induction false} PanicExactly(s: State)
    requires !s.panicked && s.ChannelClosed()
    ensures (exists more :: Exec(s, more).panicked) <==> s.pending != map[]
  {
    if s.pending == map[] {
      forall more ensures !Exec(s, more).panicked {
        ClosedStaysQuiet(s, more);
      }
    } else {
      assert s.pending.Keys != {};
      var who: nat :| who in s.pending;
      var more: seq<Action> := [Send(who)];
      assert more[..0] == [] && Exec(s, []) == s;
      assert Exec(s, more).panicked;
      assert exists trouble :: Exec(s, trouble).panicked;
    }
  }

  /** Otherwise the pool can panic: the lock is released between the check and the send. */
  lemma OverlapPanics(workers: int)
    ensures Exec(Init(workers), [Check(0), SetClosed, CloseChannel, Send(0)]).panicked
  {
    var s := Init(workers);
    var actions := [Check(0), SetClosed, CloseChannel, Send(0)];
    assert actions[..3] == [Check(0), SetClosed, CloseChannel] && actions[..3][..2] == [Check(0), SetClosed];
    assert actions[..3][..2][..1] == [Check(0)] && actions[..3][..2][..1][..0] == [];
    var s1 := Step(s, Check(0));
    assert Exec(s, [Check(0)]) == s1 && 0 in s1.pending;
    assert Exec(s, [Check(0), SetClosed]) == Step(s1, SetClosed);
    assert Exec(s, [Check(0), SetClosed, CloseChannel]) == Step(Step(s1, SetClosed), CloseChannel);
  }

  // ---------- the class ----------

  /** What a single locked section or channel operation of the pool sees and changes. */
  class WorkerPool {
    const capacity: nat
    var taskQueue: seq<TaskId>
    var channelClosed: bool
    var closed: bool

    /** The shared fields are those of the transition system's state. */
    ghost predicate Shows(s: State)
      reads this
    {
      && capacity == s.Capacity() && taskQueue == s.queue
      && closed == s.Closed() && channelClosed == s.ChannelClosed()
    }

    constructor (workers: int)
      ensures Shows(Init(workers))
      ensures capacity == 10 * (if workers <= 0 then 1 else workers) && taskQueue == [] && !closed && !channelClosed
    {
      var count := if workers <= 0 then 1 else workers;
      capacity := 10 * count;
      taskQueue, channelClosed, closed := [], false, false;
    }

    /** The check at the head of Submit. */
    method MaySubmit(ghost s: State, ghost who: nat) returns (ok: bool)
      requires Shows(s) && who !in s.pending && !s.panicked && s.once != Closing
      ensures ok <==> !closed
      ensures ok <==> Enabled(s, Check(who))
      ensures Shows(Step(s, Check(who)))
    {
      ok := !closed;
    }

    /** The select at the end of Submit; the source panics where panic is reported here. */
    method Offer(ghost s: State, ghost who: nat, task: TaskId) returns (panic: bool)
      requires Shows(s) && Enabled(s, Send(who)) && s.pending[who] == task
      modifies this
      ensures Shows(Step(s, Send(who))) && panic == Step(s, Send(who)).panicked
      ensures panic == old(channelClosed)
      ensures taskQueue == if !panic && |old(taskQueue)| < capacity then old(taskQueue) + [task] else old(taskQueue)
    {
      if channelClosed {
        return true;
      }
      if |taskQueue| < capacity {
        taskQueue := taskQueue + [task];
      }
      panic := false;
    }

    /** One receive of a worker's range loop: a task, or None when the loop ends. */
    method Receive(ghost s: State, ghost w: nat) returns (task: Option<TaskId>)
      requires Shows(s) && w < |s.workers| && s.workers[w].Waiting? && !s.panicked
      requires s.queue != [] || s.ChannelClosed()  // otherwise the receive blocks
      modifies this
      ensures task.None? <==> Enabled(s, Exit(w))
      ensures task.None? ==> Shows(Step(s, Exit(w)))
      ensures task.Some? ==> Shows(Step(s, Take(w))) && Step(s, Take(w)).workers[w] == Running(task.value)
    {
      if taskQueue == [] {
        return None;
      }
      task := Some(taskQueue[0]);
      taskQueue := taskQueue[1..];
    }

    /** The locked section of Shutdown. */
    method Close(ghost s: State)
      requires Shows(s) && Enabled(s, SetClosed)
      modifies this
      ensures Shows(Step(Step(s, SetClosed), CloseChannel))
    {
      closed := true;
      channelClosed := true;
    }
  }
}
