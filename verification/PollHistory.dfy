/**
 * The agent with its history written out: polls are numbered, and for each worker it is recorded
 * which numbers its current task carries, which it has delivered, and how its attempts went.
 */
module PollHistory {
  import opened Wrappers
  import opened Sender
  import opened Agent

  datatype History = History(
    agent: State,
    pending: set<nat>,            // polls *pollCounter counts
    carried: seq<set<nat>>,       // per worker: polls in its latest snapshot
    delivered: seq<set<nat>>,     // per worker: polls its successful sends added at the server
    dropped: set<nat>,            // polls a reset removed without their being in the snapshot delivered before it
    attempts: seq<seq<Attempt>>)  // per worker: the attempts of its latest task

  function Start(workers: int): History {
    var n := |Init(workers).tasks|;
    History(Init(workers), {}, seq(n, _ => {}), seq(n, _ => {}), {}, seq(n, _ => []))
  }

  predicate Fits(h: History) {
    |h.carried| == |h.delivered| == |h.attempts| == |h.agent.tasks|
  }

  /** The agent's own step, with the history brought up to date. */
  function Record(h: History, a: Action): History {
    var s := h.agent;
    var h' := h.(agent := Agent.Step(s, a));
    if !Enabled(s, a) || !Fits(h) then h'
    else
      match a
      case Poll => h'.(pending := h.pending + {s.polls})
      case Take(w) => h'.(attempts := h.attempts[w := []])
      case Snapshot(w) => h'.(carried := h.carried[w := h.pending])
      case EndCounters(w, errC) =>
        var h2 := h'.(attempts := h.attempts[w := h.attempts[w] + [Attempt(s.tasks[w].stage.errG, errC)]]);
        if errC.None? then h2.(delivered := h.delivered[w := h.delivered[w] + h.carried[w]]) else h2
      case ResetCounter(w) => h'.(pending := {}, dropped := h.dropped + (h.pending - h.carried[w]))
      case _ => h'
  }

  function Recorded(h: History, actions: seq<Action>): History {
    if actions == [] then h else Record(Recorded(h, actions[..|actions| - 1]), actions[|actions| - 1])
  }

  /** The history only watches: underneath it the agent runs as before. */
  lemma {:induction false} OnlyWatches(h: History, actions: seq<Action>)
    ensures Recorded(h, actions).agent == Exec(h.agent, actions)
  {
    hide Agent.Step;
    if actions != [] {
      OnlyWatches(h, actions[..|actions| - 1]);
    }
  }

  // ---------- the invariant ----------

  /** Every poll is in a delivered snapshot, still counted, or dropped. */
  ghost predicate Covered(h: History) {
    forall x | 0 <= x < h.agent.polls ::
      x in h.pending || x in h.dropped || exists w | 0 <= w < |h.delivered| :: x in h.delivered[w]
  }

  /** The sets stand for the agent's numbers, and no worker carries what it has delivered before. */
  ghost predicate WorkerHistory(h: History, w: nat)
    requires Fits(h) && w < |h.agent.tasks| && w < |h.agent.applied|
  {
    && |h.delivered[w]| == h.agent.applied[w]
    && (forall x <- h.delivered[w] :: x < h.agent.polls)
    && (forall x <- h.carried[w] :: x < h.agent.polls)
    && match h.agent.tasks[w]
       case Sending(_, snapshot, _) =>
         |h.carried[w]| == snapshot && h.carried[w] !! h.delivered[w] && h.pending !! h.delivered[w]
       case Succeeded(_) => h.carried[w] <= h.delivered[w]
       case _ => h.pending !! h.delivered[w]
  }

  /** The attempts of a task are those of one call of SendWithRetry, finished or under way. */
  ghost predicate WorkerAttempts(h: History, w: nat)
    requires Fits(h) && w < |h.agent.tasks|
  {
    var log := h.attempts[w];
    match h.agent.tasks[w]
    case Entered => log == []
    case Passed => log == []
    case Sending(attempt, _, _) => |log| == attempt <= MAX_RETRIES && forall i | 0 <= i < |log| :: TryAgain(log[i])
    case Succeeded(_) => Attempts(log) && log[|log| - 1].counters.None?
    case _ => log == [] || Attempts(log)
  }

  ghost predicate Inv(h: History) {
    && Shape(h.agent) && Fits(h)
    && |h.pending| == h.agent.local && (forall x <- h.pending :: x < h.agent.polls)
    && (forall x <- h.dropped :: x < h.agent.polls)
    && (forall w | 0 <= w < |h.agent.tasks| :: WorkerHistory(h, w))
    && (forall w | 0 <= w < |h.agent.tasks| :: WorkerAttempts(h, w))
    && Covered(h)
  }

  lemma StartInv(workers: int)
    ensures Inv(Start(workers))
  {
  }

  lemma OwnHistory(h: History, a: Action, w: nat)
    requires Inv(h) && Enabled(h.agent, a) && WorkerOf(a) == Some(w)
    requires var t := Agent.Step(h.agent, a); Shape(t) && w < |t.tasks| == |h.agent.tasks|
    ensures WorkerHistory(Record(h, a), w)
  {
    match a
    case Snapshot(_) => SnapshotHistory(h, w);
    case EndCounters(_, errC) => EndHistory(h, w, errC);
    case ResetCounter(_) => ResetHistory(h, w);
    case _ => QuietHistory(h, a, w);
    hide WorkerHistory, Record, Agent.Step, Inv;
  }

  lemma SnapshotHistory(h: History, w: nat)
    requires Inv(h) && Enabled(h.agent, Snapshot(w)) && w < |h.agent.tasks|
    ensures WorkerHistory(Record(h, Snapshot(w)), w)
  {
    hide P.Step, P.Enabled, TryAgain, Covered, WorkerAttempts;
    assert WorkerHistory(h, w);
  }

  lemma EndHistory(h: History, w: nat, errC: Outcome)
    requires Inv(h) && Enabled(h.agent, EndCounters(w, errC)) && w < |h.agent.tasks|
    ensures WorkerHistory(Record(h, EndCounters(w, errC)), w)
  {
    hide P.Step, P.Enabled, TryAgain, Covered, WorkerAttempts;
    assert WorkerHistory(h, w);
    assert |h.delivered[w] + h.carried[w]| == |h.delivered[w]| + |h.carried[w]| - |h.delivered[w] * h.carried[w]|;
  }

  lemma ResetHistory(h: History, w: nat)
    requires Inv(h) && Enabled(h.agent, ResetCounter(w)) && w < |h.agent.tasks|
    ensures WorkerHistory(Record(h, ResetCounter(w)), w)
  {
    hide P.Step, P.Enabled, TryAgain, Covered, WorkerAttempts;
    assert WorkerHistory(h, w);
  }

  lemma QuietHistory(h: History, a: Action, w: nat)
    requires Inv(h) && Enabled(h.agent, a) && WorkerOf(a) == Some(w) && w < |h.agent.tasks|
    requires !a.Snapshot? && !a.EndCounters? && !a.ResetCounter?
    requires Shape(Agent.Step(h.agent, a)) && w < |Agent.Step(h.agent, a).tasks|
    ensures WorkerHistory(Record(h, a), w)
  {
    hide P.Step, P.Enabled, TryAgain, Covered, WorkerAttempts;
    assert WorkerHistory(h, w);
  }

  lemma OwnAttempts(h: History, a: Action, w: nat)
    requires Inv(h) && Enabled(h.agent, a) && WorkerOf(a) == Some(w)
    requires var t := Agent.Step(h.agent, a); Shape(t) && w < |t.tasks| == |h.agent.tasks|
    ensures WorkerAttempts(Record(h, a), w)
  {
    hide P.Step, P.Enabled, Covered, WorkerHistory;
    assert WorkerAttempts(h, w);
    if a.EndCounters? {
      EndAttempts(h, w, a.result);
    } else {
      hide TryAgain, Attempts;
      assert Record(h, a).attempts[w] == if a.Take? then [] else h.attempts[w];
    }
  }

  lemma EndAttempts(h: History, w: nat, errC: Outcome)
    requires Inv(h) && Enabled(h.agent, EndCounters(w, errC)) && w < |h.agent.tasks|
    ensures WorkerAttempts(Record(h, EndCounters(w, errC)), w)
  {
    hide P.Step, P.Enabled, Covered, WorkerHistory;
    assert WorkerAttempts(h, w);
  }

  /** The pending polls stay as they are, or a reset by w, whose snapshot is delivered, removes them. */
  ghost predicate Moved(h: History, g: History, w: nat)
    requires w < |h.carried| && w < |g.delivered|
  {
    if g.pending == h.pending then g.dropped == h.dropped
    else g.pending == {} && g.dropped == h.dropped + (h.pending - h.carried[w]) && h.carried[w] <= g.delivered[w]
  }

  /** What a worker's action leaves alone in the history. */
  lemma HistoryLocal(h: History, a: Action, w: nat)
    requires Inv(h) && Enabled(h.agent, a) && WorkerOf(a) == Some(w)
    ensures var g := Record(h, a);
      && g.agent == Agent.Step(h.agent, a) && w < |h.agent.tasks|
      && |g.carried| == |h.carried| && |g.delivered| == |h.delivered| && |g.attempts| == |h.attempts|
      && (forall v | 0 <= v < |h.carried| && v != w ::
            g.carried[v] == h.carried[v] && g.delivered[v] == h.delivered[v] && g.attempts[v] == h.attempts[v])
      && h.delivered[w] <= g.delivered[w]
      && Moved(h, g, w)
  {
    hide Agent.Step, Covered, WorkerAttempts;
    assert WorkerHistory(h, w);
  }

  lemma OtherWorkers(h: History, g: History, w: nat)
    requires Inv(h) && Shape(g.agent) && Fits(g) && w < |h.agent.tasks| == |g.agent.tasks|
    requires g.agent.tasks == h.agent.tasks[w := g.agent.tasks[w]]
    requires g.agent.applied == h.agent.applied[w := g.agent.applied[w]]
    requires g.agent.polls == h.agent.polls && (g.pending == h.pending || g.pending == {})
    requires forall v | 0 <= v < |h.carried| && v != w ::
      g.carried[v] == h.carried[v] && g.delivered[v] == h.delivered[v] && g.attempts[v] == h.attempts[v]
    ensures forall v | 0 <= v < |g.agent.tasks| && v != w :: WorkerHistory(g, v) && WorkerAttempts(g, v)
  {
    hide Covered, Attempts;
    forall v | 0 <= v < |g.agent.tasks| && v != w ensures WorkerHistory(g, v) && WorkerAttempts(g, v) {
      assert WorkerHistory(h, v) && WorkerAttempts(h, v);
    }
  }

  /** Every poll that leaves the pending ones is in the delivered snapshot or is dropped. */
  lemma StillCovered(h: History, g: History, w: nat)
    requires Covered(h) && w < |h.delivered| == |g.delivered| == |h.carried| && g.agent.polls == h.agent.polls
    requires forall v | 0 <= v < |h.delivered| :: h.delivered[v] <= g.delivered[v]
    requires Moved(h, g, w)
    ensures Covered(g)
  {
    forall x | 0 <= x < g.agent.polls
      ensures x in g.pending || x in g.dropped || exists v | 0 <= v < |g.delivered| :: x in g.delivered[v]
    {
      if v :| 0 <= v < |h.delivered| && x in h.delivered[v] {
        assert x in g.delivered[v];
      } else if x in h.pending && x in h.carried[w] && g.pending == {} {
        assert x in g.delivered[w];
      }
    }
  }

  lemma WorkerRecord(h: History, a: Action, w: nat)
    requires Inv(h) && Enabled(h.agent, a) && WorkerOf(a) == Some(w)
    ensures Inv(Record(h, a))
  {
    ShapeStep(h.agent, a);
    WorkerLocal(h.agent, a);
    HistoryLocal(h, a, w);
    OwnHistory(h, a, w);
    OwnAttempts(h, a, w);
    PendingCount(h, a);
    hide Record, Agent.Step, Shape, WorkerHistory, WorkerAttempts, Covered, Enabled;
    var g := Record(h, a);
    OtherWorkers(h, g, w);
    StillCovered(h, g, w);
  }

  lemma PendingCount(h: History, a: Action)
    requires Inv(h) && Enabled(h.agent, a)
    ensures |Record(h, a).pending| == Record(h, a).agent.local
    ensures forall x <- Record(h, a).pending :: x < Record(h, a).agent.polls
    ensures forall x <- Record(h, a).dropped :: x < Record(h, a).agent.polls
  {
    hide Covered, WorkerAttempts, WorkerHistory, Attempts, Agent.Step, Record, Enabled, Shape;
    PendingStep(h, a);
    var g := Record(h, a);
    if a.Poll? {
      assert h.agent.polls !in h.pending;
    }
  }

  lemma PendingStep(h: History, a: Action)
    requires Shape(h.agent) && Fits(h) && Enabled(h.agent, a)
    ensures var g := Record(h, a);
      match a
      case Poll =>
        && g.pending == h.pending + {h.agent.polls} && g.dropped == h.dropped
        && g.agent.local == h.agent.local + 1 && g.agent.polls == h.agent.polls + 1
      case ResetCounter(w) =>
        && g.pending == {} && w < |h.carried| && g.dropped == h.dropped + (h.pending - h.carried[w])
        && g.agent.local == 0 && g.agent.polls == h.agent.polls
      case _ =>
        && g.pending == h.pending && g.dropped == h.dropped
        && g.agent.local == h.agent.local && g.agent.polls == h.agent.polls
  {
    hide P.Step, P.Enabled, TryAgain;
  }

  lemma OtherRecord(h: History, a: Action)
    requires Inv(h) && Enabled(h.agent, a) && WorkerOf(a).None?
    ensures Inv(Record(h, a))
  {
    ShapeStep(h.agent, a);
    NotWorkerLocal(h.agent, a);
    PendingCount(h, a);
    var g := Record(h, a);
    hide Agent.Step, Shape, Covered, Attempts;
    forall w | 0 <= w < |g.agent.tasks| ensures WorkerHistory(g, w) && WorkerAttempts(g, w) {
      assert WorkerHistory(h, w) && WorkerAttempts(h, w);
    }
    hide WorkerHistory, WorkerAttempts;
    OtherCovered(h, a);
  }

  lemma OtherCovered(h: History, a: Action)
    requires Inv(h) && Enabled(h.agent, a) && WorkerOf(a).None?
    ensures Covered(Record(h, a))
  {
    NotWorkerLocal(h.agent, a);
    hide Agent.Step, Shape, WorkerHistory, WorkerAttempts;
  }

  lemma RecordInv(h: History, a: Action)
    requires Inv(h)
    ensures Inv(Record(h, a))
  {
    hide Inv;
    if !Enabled(h.agent, a) {
      assert Record(h, a) == h;
    } else if WorkerOf(a).Some? {
      WorkerRecord(h, a, WorkerOf(a).value);
    } else {
      OtherRecord(h, a);
    }
  }

  lemma {:induction false} RecordedInv(workers: int, actions: seq<Action>)
    ensures Inv(Recorded(Start(workers), actions))
  {
    hide Inv, Record;
    StartInv(workers);
    if actions != [] {
      RecordedInv(workers, actions[..|actions| - 1]);
      RecordInv(Recorded(Start(workers), actions[..|actions| - 1]), actions[|actions| - 1]);
    }
  }

  // ---------- what a reset drops ----------

  /** Whatever is pending and older than the polls since the worker's snapshot is in that snapshot. */
  ghost predicate Recent(h: History, w: nat)
    requires Fits(h) && w < |h.agent.tasks| && w < |h.agent.window|
  {
    h.agent.tasks[w].Sending? || h.agent.tasks[w].Succeeded? ==>
      forall x <- h.pending :: x < h.agent.polls - h.agent.window[w] ==> x in h.carried[w]
  }

  ghost predicate DropInv(h: History) {
    && Shape(h.agent) && Fits(h)
    && (forall w | 0 <= w < |h.agent.tasks| :: Recent(h, w))
    && |h.dropped| <= h.agent.lost
  }

  lemma {:induction false} AtMost(xs: set<nat>, lo: int, hi: nat)
    requires forall x <- xs :: lo <= x < hi
    ensures |xs| <= if lo <= hi then hi - lo else 0
    decreases xs
  {
    if xs != {} {
      var x :| x in xs;
      var last := Largest(xs, x);
      AtMost(xs - {last}, lo, last);
    }
  }

  lemma {:induction false} Largest(xs: set<nat>, x: nat) returns (y: nat)
    requires x in xs
    ensures y in xs && forall z <- xs :: z <= y
    decreases xs
  {
    y := x;
    assert forall z <- xs :: z == x || z in xs - {x};
    if xs != {x} {
      var z :| z in xs && z != x;
      y := Largest(xs - {x}, z);
      if y < x {
        y := x;
      }
    }
  }

  lemma DropsRecent(h: History, w: nat)
    requires Inv(h) && DropInv(h) && w < |h.agent.tasks| && h.agent.tasks[w].Succeeded?
    ensures |h.dropped + (h.pending - h.carried[w])| <= h.agent.lost + h.agent.window[w]
  {
    hide WorkerHistory, WorkerAttempts, Covered;
    var gone := h.pending - h.carried[w];
    assert Recent(h, w);
    AtMost(gone, h.agent.polls - h.agent.window[w], h.agent.polls);
    assert |h.dropped + gone| <= |h.dropped| + |gone|;
  }

  lemma RecentStep(h: History, a: Action, w: nat)
    requires Inv(h) && DropInv(h) && Enabled(h.agent, a)
    requires var t := Agent.Step(h.agent, a); Shape(t) && w < |t.tasks| == |h.agent.tasks|
    ensures Recent(Record(h, a), w)
  {
    match WorkerOf(a) {
      case None => OtherRecent(h, a, w);
      case Some(v) =>
        if a.Snapshot? {
          SnapshotRecent(h, v, w);
        } else if v == w {
          OwnRecent(h, a, w);
        } else {
          WorkerLocal(h.agent, a);
          HistoryLocal(h, a, v);
          hide Record, Agent.Step, Shape, WorkerHistory, WorkerAttempts, Covered;
          assert Recent(h, w);
        }
    }
    hide Record, Recent, Agent.Step, Inv, DropInv;
  }

  lemma OtherRecent(h: History, a: Action, w: nat)
    requires Inv(h) && DropInv(h) && Enabled(h.agent, a) && WorkerOf(a).None? && w < |h.agent.tasks|
    requires Shape(Agent.Step(h.agent, a)) && |Agent.Step(h.agent, a).tasks| == |h.agent.tasks|
    ensures Recent(Record(h, a), w)
  {
    NotWorkerLocal(h.agent, a);
    hide Agent.Step, WorkerHistory, WorkerAttempts, Covered;
    assert Recent(h, w);
  }

  lemma OwnRecent(h: History, a: Action, w: nat)
    requires Inv(h) && DropInv(h) && Enabled(h.agent, a) && WorkerOf(a) == Some(w) && !a.Snapshot?
    requires w < |h.agent.tasks| && Shape(Agent.Step(h.agent, a)) && |Agent.Step(h.agent, a).tasks| == |h.agent.tasks|
    ensures Recent(Record(h, a), w)
  {
    hide P.Step, P.Enabled, TryAgain, WorkerHistory, WorkerAttempts, Covered, Attempts;
    assert Recent(h, w);
  }

  lemma SnapshotRecent(h: History, v: nat, w: nat)
    requires Inv(h) && DropInv(h) && Enabled(h.agent, Snapshot(v)) && w < |h.agent.tasks| && v < |h.agent.tasks|
    ensures Recent(Record(h, Snapshot(v)), w)
  {
    hide P.Step, P.Enabled, TryAgain, WorkerHistory, WorkerAttempts, Covered, Attempts;
    assert Recent(h, w);
  }

  lemma DropStep(h: History, a: Action)
    requires Inv(h) && DropInv(h)
    ensures DropInv(Record(h, a))
  {
    ShapeStep(h.agent, a);
    RecordInv(h, a);
    if Enabled(h.agent, a) {
      if a.ResetCounter? {
        DropsRecent(h, a.w);
      }
      LostStep(h, a);
      SameWorkers(h.agent, a);
      var g := Record(h, a);
      forall w | 0 <= w < |g.agent.tasks| ensures Recent(g, w) {
        RecentStep(h, a, w);
      }
      hide Recent, Agent.Step, Shape, Inv;
    } else {
      assert Record(h, a) == h;
    }
  }

  lemma LostStep(h: History, a: Action)
    requires Inv(h) && Enabled(h.agent, a)
    ensures var g := Record(h, a);
      if a.ResetCounter? then
        g.agent.lost == h.agent.lost + h.agent.window[a.w] && g.dropped == h.dropped + (h.pending - h.carried[a.w])
      else g.agent.lost == h.agent.lost && g.dropped == h.dropped
  {
    hide P.Step, P.Enabled, TryAgain, WorkerHistory, WorkerAttempts, Covered;
  }

  lemma {:induction false} RecordedDrop(workers: int, actions: seq<Action>)
    ensures DropInv(Recorded(Start(workers), actions))
  {
    hide Inv, DropInv, Record;
    if actions == [] {
      StartDrop(workers);
    } else {
      var k := |actions| - 1;
      RecordedDrop(workers, actions[..k]);
      RecordedInv(workers, actions[..k]);
      DropStep(Recorded(Start(workers), actions[..k]), actions[k]);
    }
  }

  lemma StartDrop(workers: int)
    ensures DropInv(Start(workers))
  {
  }

  // ---------- the theorems ----------

  /**
   * In every run, whatever the network does, each single poll is in a snapshot some worker has
   * delivered, or still counted by *pollCounter, or was dropped by a reset. What the server has
   * received from a worker is the number of different polls that worker has delivered: no worker
   * delivers a poll twice.
   */
  lemma {:induction false} EveryPollAccounted(workers: int, actions: seq<Action>)
    ensures var h := Recorded(Start(workers), actions);
      var s := Exec(Init(workers), actions);
      && h.agent == s && Fits(h) && |s.applied| == |h.delivered|
      && Covered(h)
      && |h.pending| == s.local && |h.dropped| <= s.lost
      && (forall w | 0 <= w < |h.delivered| :: |h.delivered[w]| == s.applied[w])
      && (forall w | 0 <= w < |h.delivered| :: forall x <- h.delivered[w] :: x < s.polls)
  {
    RecordedInv(workers, actions);
    RecordedDrop(workers, actions);
    OnlyWatches(Start(workers), actions);
    hide Exec, Recorded, Covered, WorkerAttempts, Recent;
    var h := Recorded(Start(workers), actions);
    forall w | 0 <= w < |h.delivered|
      ensures |h.delivered[w]| == h.agent.applied[w] && forall x <- h.delivered[w] :: x < h.agent.polls
    {
      assert WorkerHistory(h, w);
    }
  }

  /** In particular what a successful send adds has never been delivered by that worker before. */
  lemma {:induction false} NeverDeliveredTwice(workers: int, actions: seq<Action>, w: nat)
    requires Enabled(Exec(Init(workers), actions), EndCounters(w, None))
    ensures var h := Recorded(Start(workers), actions);
      && Fits(h) && w < |h.delivered| && h.agent.tasks[w].Sending?
      && h.carried[w] !! h.delivered[w] && |h.carried[w]| == h.agent.tasks[w].snapshot
      && Record(h, EndCounters(w, None)).delivered[w] == h.delivered[w] + h.carried[w]
  {
    RecordedInv(workers, actions);
    OnlyWatches(Start(workers), actions);
    hide Exec, Recorded, Covered, WorkerAttempts;
    assert WorkerHistory(Recorded(Start(workers), actions), w);
  }

  /**
   * What the agent's tasks do is what SendWithRetry does: when a task has sent, its attempts are
   * those of one whole call, and it zeroes *pollCounter only after a call that returns nil.
   */
  lemma {:induction false} TasksFollowSender(workers: int, actions: seq<Action>, w: nat)
    requires w < |Exec(Init(workers), actions).tasks|
    ensures var h := Recorded(Start(workers), actions);
      && h.agent == Exec(Init(workers), actions) && Fits(h)
      && var log, task := h.attempts[w], h.agent.tasks[w];
      && (task.Sending? ==> |log| == task.attempt && forall i | 0 <= i < |log| :: TryAgain(log[i]))
      && (task.Leaving? && log != [] ==> Attempts(log))
      && (task.Succeeded? ==> Attempts(log) && log[|log| - 1].counters.None?)
  {
    RecordedInv(workers, actions);
    OnlyWatches(Start(workers), actions);
    hide Exec, Recorded, Covered, WorkerHistory;
    assert WorkerAttempts(Recorded(Start(workers), actions), w);
  }
}
