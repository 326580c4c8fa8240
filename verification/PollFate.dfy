/**
 * Which polls are counted how often, read off the run: time is divided into epochs by the resets of
 * *pollCounter, and it is recorded in which epoch each poll was made and up to which poll each
 * worker's delivered snapshots of an epoch reach.
 */
module PollFate {
  import opened Wrappers
  import opened Sender
  import opened Agent
  import opened PollHistory

  datatype Tale = Tale(
    history: History,
    epoch: nat,                  // resets so far
    born: seq<nat>,              // per poll: the epoch it was made in
    takenIn: seq<nat>,           // per worker: the epoch of its latest snapshot
    takenAt: seq<nat>,           // per worker: the polls made before its latest snapshot
    reach: seq<map<nat, nat>>)   // per worker: for each epoch of a delivered snapshot, the polls made before it

  function Begin(workers: int): Tale {
    var n := |Init(workers).tasks|;
    Tale(Start(workers), 0, [], seq(n, _ => 0), seq(n, _ => 0), seq(n, _ => map[]))
  }

  predicate Matches(t: Tale) {
    Fits(t.history) && |t.takenIn| == |t.takenAt| == |t.reach| == |t.history.agent.tasks|
  }

  function Tell(t: Tale, a: Action): Tale {
    var s, t' := t.history.agent, t.(history := Record(t.history, a));
    if !Enabled(s, a) || !Matches(t) then t'
    else
      match a
      case Poll => t'.(born := t.born + [t.epoch])
      case Snapshot(w) => t'.(takenIn := t.takenIn[w := t.epoch], takenAt := t.takenAt[w := s.polls])
      case EndCounters(w, None) => t'.(reach := t.reach[w := t.reach[w][t.takenIn[w] := t.takenAt[w]]])
      case ResetCounter(_) => t'.(epoch := t.epoch + 1)
      case _ => t'
  }

  function Told(t: Tale, actions: seq<Action>): Tale {
    if actions == [] then t else Tell(Told(t, actions[..|actions| - 1]), actions[|actions| - 1])
  }

  /** The epochs only watch: underneath them the history, and the agent, run as before. */
  lemma {:induction false} OnlyTells(t: Tale, actions: seq<Action>)
    ensures Told(t, actions).history == Recorded(t.history, actions)
  {
    hide Record;
    if actions != [] {
      OnlyTells(t, actions[..|actions| - 1]);
    }
  }

  /**
   * Worker w has delivered a snapshot taken after poll x and before the next reset: the condition,
   * in terms of the schedule, for w to count x.
   */
  predicate Counts(t: Tale, w: nat, x: nat)
    requires w < |t.reach| && x < |t.born|
  {
    t.born[x] in t.reach[w] && x < t.reach[w][t.born[x]]
  }

  // ---------- the invariant ----------

  /** What worker w carries and has delivered, by epochs. */
  ghost predicate WorkerTale(t: Tale, w: nat)
    requires Matches(t) && w < |t.reach|
  {
    && (forall x: nat | x < |t.born| :: x in t.history.delivered[w] <==> Counts(t, w, x))
    && (forall x <- t.history.delivered[w] :: x < |t.born|)
    && (forall e <- t.reach[w] :: t.reach[w][e] <= |t.born|)
    && match t.history.agent.tasks[w]
       case Sending(_, _, _) =>
         && t.takenIn[w] <= t.epoch && t.takenAt[w] <= |t.born|
         && (forall e <- t.reach[w] :: e < t.takenIn[w])
         && (forall x: nat | x < |t.born| ::
               x in t.history.carried[w] <==> t.born[x] == t.takenIn[w] && x < t.takenAt[w])
         && (forall x <- t.history.carried[w] :: x < |t.born|)
       case Succeeded(_) => forall e <- t.reach[w] :: e <= t.epoch
       case _ => forall e <- t.reach[w] :: e < t.epoch
  }

  ghost predicate TaleInv(t: Tale) {
    && Matches(t) && Shape(t.history.agent)
    && |t.born| == t.history.agent.polls
    && (forall x: nat | x < |t.born| :: t.born[x] <= t.epoch)
    && (forall x: nat | x < |t.born| :: x in t.history.pending <==> t.born[x] == t.epoch)
    && (forall x <- t.history.pending :: x < |t.born|)
    && (forall w: nat | w < |t.reach| :: WorkerTale(t, w))
  }

  lemma BeginInv(workers: int)
    ensures TaleInv(Begin(workers))
  {
  }

  /** What a step does to the tale as a whole. */
  lemma TellStep(t: Tale, a: Action)
    requires TaleInv(t) && Enabled(t.history.agent, a)
    ensures var u := Tell(t, a);
      && Matches(u) && Shape(u.history.agent) && |u.reach| == |t.reach|
      && (match a
          case Poll =>
            && u == t.(history := u.history, born := t.born + [t.epoch])
            && u.history.pending == t.history.pending + {|t.born|} && u.history.agent.polls == |t.born| + 1
          case ResetCounter(_) =>
            && u == t.(history := u.history, epoch := t.epoch + 1)
            && u.history.pending == {} && u.history.agent.polls == |t.born|
          case _ =>
            && u.epoch == t.epoch && u.born == t.born
            && u.history.pending == t.history.pending && u.history.agent.polls == |t.born|)
  {
    ShapeStep(t.history.agent, a);
    SameWorkers(t.history.agent, a);
    PendingStep(t.history, a);
    hide Agent.Step, Shape, WorkerTale;
  }

  lemma PollTale(t: Tale, w: nat)
    requires TaleInv(t) && Enabled(t.history.agent, Poll) && w < |t.reach|
    requires var u := Tell(t, Poll); Matches(u) && w < |u.reach| && u.history.agent.tasks == t.history.agent.tasks
    ensures WorkerTale(Tell(t, Poll), w)
  {
    hide Agent.Step, Shape;
    var u := Tell(t, Poll);
    assert WorkerTale(t, w);
    assert forall x: nat | x < |t.born| :: u.born[x] == t.born[x];
    assert forall x: nat | x < |t.born| :: Counts(u, w, x) == Counts(t, w, x);
  }

  /** A worker that does not act keeps its tale; the epoch can only grow. */
  lemma SameTale(t: Tale, u: Tale, w: nat)
    requires Matches(t) && Matches(u) && w < |t.reach| == |u.reach| && WorkerTale(t, w)
    requires u.born == t.born && t.epoch <= u.epoch
    requires u.takenIn[w] == t.takenIn[w] && u.takenAt[w] == t.takenAt[w] && u.reach[w] == t.reach[w]
    requires u.history.carried[w] == t.history.carried[w] && u.history.delivered[w] == t.history.delivered[w]
    requires u.history.agent.tasks[w] == t.history.agent.tasks[w]
    ensures WorkerTale(u, w)
  {
    assert forall x: nat | x < |t.born| :: Counts(u, w, x) == Counts(t, w, x);
  }

  lemma SnapshotTale(t: Tale, w: nat)
    requires TaleInv(t) && Enabled(t.history.agent, Snapshot(w)) && w < |t.reach|
    requires Matches(Tell(t, Snapshot(w)))
    ensures WorkerTale(Tell(t, Snapshot(w)), w)
  {
    hide P.Step, P.Enabled, TryAgain;
    var u := Tell(t, Snapshot(w));
    assert WorkerTale(t, w);
    assert forall x: nat | x < |t.born| :: Counts(u, w, x) == Counts(t, w, x);
  }

  lemma DeliveryTale(t: Tale, w: nat)
    requires TaleInv(t) && Enabled(t.history.agent, EndCounters(w, None)) && w < |t.reach|
    requires Matches(Tell(t, EndCounters(w, None)))
    ensures WorkerTale(Tell(t, EndCounters(w, None)), w)
  {
    hide P.Step, P.Enabled, TryAgain;
    var u := Tell(t, EndCounters(w, None));
    assert WorkerTale(t, w);
    var e, k := t.takenIn[w], t.takenAt[w];
    assert u.reach[w] == t.reach[w][e := k] && e !in t.reach[w];
    forall x: nat | x < |t.born| ensures x in u.history.delivered[w] <==> Counts(u, w, x) {
      assert Counts(u, w, x) <==> Counts(t, w, x) || (t.born[x] == e && x < k);
    }
  }

  lemma OwnTale(t: Tale, a: Action, w: nat)
    requires TaleInv(t) && Enabled(t.history.agent, a) && WorkerOf(a) == Some(w) && w < |t.reach|
    requires !a.Snapshot? && a != EndCounters(w, None)
    requires Matches(Tell(t, a))
    ensures WorkerTale(Tell(t, a), w)
  {
    hide P.Step, P.Enabled, TryAgain;
    var u := Tell(t, a);
    assert WorkerTale(t, w);
    assert u.history.delivered == t.history.delivered && u.history.carried == t.history.carried && u.reach == t.reach;
    assert forall x: nat | x < |t.born| :: Counts(u, w, x) == Counts(t, w, x);
  }

  /** A worker's action leaves the tales of the others alone. */
  lemma OthersKept(t: Tale, a: Action, v: nat, w: nat)
    requires TaleInv(t) && Enabled(t.history.agent, a) && WorkerOf(a) == Some(v) && v != w
    requires Matches(Tell(t, a)) && w < |t.reach| && w < |Tell(t, a).reach|
    ensures var u := Tell(t, a);
      && u.takenIn[w] == t.takenIn[w] && u.takenAt[w] == t.takenAt[w] && u.reach[w] == t.reach[w]
      && u.history.carried[w] == t.history.carried[w] && u.history.delivered[w] == t.history.delivered[w]
      && u.history.agent.tasks[w] == t.history.agent.tasks[w]
  {
    WorkerLocal(t.history.agent, a);
    hide Agent.Step, Shape, WorkerTale;
  }

  lemma WorkerTaleStep(t: Tale, a: Action, w: nat)
    requires TaleInv(t) && Enabled(t.history.agent, a) && w < |t.reach|
    requires Matches(Tell(t, a)) && w < |Tell(t, a).reach|
    ensures WorkerTale(Tell(t, a), w)
  {
    TellStep(t, a);
    match WorkerOf(a) {
      case None =>
        NotWorkerLocal(t.history.agent, a);
        if a.Poll? {
          PollTale(t, w);
        } else {
          OthersQuiet(t, a, w);
          hide Tell, Record;
          SameTale(t, Tell(t, a), w);
        }
      case Some(v) =>
        if v != w {
          OthersKept(t, a, v, w);
          hide Tell, Record;
          SameTale(t, Tell(t, a), w);
        } else if a.Snapshot? {
          SnapshotTale(t, w);
        } else if a == EndCounters(w, None) {
          DeliveryTale(t, w);
        } else {
          OwnTale(t, a, w);
        }
    }
    hide Tell, Record, WorkerTale, Agent.Step;
  }

  lemma OthersQuiet(t: Tale, a: Action, w: nat)
    requires TaleInv(t) && Enabled(t.history.agent, a) && WorkerOf(a).None? && !a.Poll?
    requires Matches(Tell(t, a)) && w < |t.reach|
    ensures var u := Tell(t, a);
      && u == t.(history := u.history) && u.history.carried == t.history.carried
      && u.history.delivered == t.history.delivered && u.history.agent.tasks == t.history.agent.tasks
  {
    NotWorkerLocal(t.history.agent, a);
    hide Agent.Step, Shape, WorkerTale;
  }

  lemma TellInv(t: Tale, a: Action)
    requires TaleInv(t)
    ensures TaleInv(Tell(t, a))
  {
    if Enabled(t.history.agent, a) {
      TellStep(t, a);
      hide Tell, WorkerTale, Shape;
      var u := Tell(t, a);
      forall w: nat | w < |u.reach| ensures WorkerTale(u, w) {
        WorkerTaleStep(t, a, w);
      }
    } else {
      assert Tell(t, a) == t;
    }
  }

  lemma {:induction false} ToldInv(workers: int, actions: seq<Action>)
    ensures TaleInv(Told(Begin(workers), actions))
  {
    hide TaleInv, Tell;
    BeginInv(workers);
    if actions != [] {
      ToldInv(workers, actions[..|actions| - 1]);
      TellInv(Told(Begin(workers), actions[..|actions| - 1]), actions[|actions| - 1]);
    }
  }

  // ---------- who counts a poll ----------

  /** The state of a run, told: the agent's own state with history and epochs. */
  lemma {:induction false} ToldRun(workers: int, actions: seq<Action>)
    ensures var t := Told(Begin(workers), actions);
      TaleInv(t) && Inv(t.history) && t.history.agent == Exec(Init(workers), actions)
  {
    ToldInv(workers, actions);
    OnlyTells(Begin(workers), actions);
    RecordedInv(workers, actions);
    OnlyWatches(Start(workers), actions);
    hide TaleInv, Inv, Told, Recorded, Exec;
  }

  /**
   * In every run a worker has delivered a poll if and only if it has delivered a snapshot taken
   * after the poll and before the next reset. So a poll is counted once for each such worker; and it
   * is neither counted nor pending if and only if there is none and a reset has passed.
   */
  lemma {:induction false} CountedExactly(workers: int, actions: seq<Action>, x: nat)
    requires x < Exec(Init(workers), actions).polls
    ensures var t := Told(Begin(workers), actions);
      && Matches(t) && t.history.agent == Exec(Init(workers), actions) && |t.born| == t.history.agent.polls
      && (forall w: nat | w < |t.reach| :: x in t.history.delivered[w] <==> Counts(t, w, x))
      && (x in t.history.pending <==> t.born[x] == t.epoch) && t.born[x] <= t.epoch
  {
    ToldRun(workers, actions);
    var t := Told(Begin(workers), actions);
    hide Told, Exec, Inv, Counts;
    forall w: nat | w < |t.reach| ensures x in t.history.delivered[w] <==> Counts(t, w, x) {
      assert WorkerTale(t, w);
    }
  }

  // ---------- the server's total ----------

  /** How many of the first n workers count poll x. */
  function Times(t: Tale, x: nat, n: nat): nat
    requires n <= |t.reach| && x < |t.born|
  {
    if n == 0 then 0 else Times(t, x, n - 1) + if Counts(t, n - 1, x) then 1 else 0
  }

  /** That, summed over the first m polls. */
  function AllTimes(t: Tale, m: nat, n: nat): nat
    requires n <= |t.reach| && m <= |t.born|
  {
    if m == 0 then 0 else AllTimes(t, m - 1, n) + Times(t, m - 1, n)
  }

  /** How many of the first m polls worker w counts. */
  function ByWorker(t: Tale, w: nat, m: nat): nat
    requires w < |t.reach| && m <= |t.born|
  {
    if m == 0 then 0 else ByWorker(t, w, m - 1) + if Counts(t, w, m - 1) then 1 else 0
  }

  lemma {:induction false} OneMoreWorker(t: Tale, m: nat, n: nat)
    requires 0 < n <= |t.reach| && m <= |t.born|
    ensures AllTimes(t, m, n) == AllTimes(t, m, n - 1) + ByWorker(t, n - 1, m)
  {
    if m > 0 {
      OneMoreWorker(t, m - 1, n);
    }
  }

  lemma {:induction false} NobodyCounts(t: Tale, m: nat)
    requires m <= |t.born|
    ensures AllTimes(t, m, 0) == 0
  {
    if m > 0 {
      NobodyCounts(t, m - 1);
    }
  }

  lemma {:induction false} ByWorkerIs(t: Tale, w: nat, m: nat, xs: set<nat>)
    requires w < |t.reach| && m <= |t.born|
    requires forall x: nat :: x in xs <==> x < m && Counts(t, w, x)
    ensures |xs| == ByWorker(t, w, m)
  {
    if m > 0 {
      var last: nat := m - 1;
      ByWorkerIs(t, w, last, xs - {last});
      if last in xs {
        assert |xs| == |xs - {last}| + 1;
      } else {
        assert xs - {last} == xs;
      }
    } else {
      assert xs == {};
    }
  }

  lemma {:induction false} ServerSum(t: Tale, n: nat)
    requires TaleInv(t) && Inv(t.history) && n <= |t.reach| && n <= |t.history.agent.applied|
    ensures Weigh(Itself, t.history.agent.applied[..n]) == AllTimes(t, |t.born|, n)
  {
    if n == 0 {
      NobodyCounts(t, |t.born|);
    } else {
      var applied, w := t.history.agent.applied, n - 1;
      ServerSum(t, w);
      OneMoreWorker(t, |t.born|, n);
      assert applied[..n][..w] == applied[..w] && applied[..n][w] == applied[w];
      assert WorkerTale(t, w) && WorkerHistory(t.history, w);
      hide Counts, Covered, WorkerAttempts, Shape;
      ByWorkerIs(t, w, |t.born|, t.history.delivered[w]);
    }
  }

  /** The server has received every poll exactly as many times as there are workers that count it. */
  lemma {:induction false} ServerTotal(workers: int, actions: seq<Action>)
    ensures var t := Told(Begin(workers), actions);
      && t.history.agent == Exec(Init(workers), actions)
      && AtServer(t.history.agent) == AllTimes(t, |t.born|, |t.reach|)
  {
    ToldRun(workers, actions);
    var t := Told(Begin(workers), actions);
    hide Told, Exec, WorkerTale, WorkerHistory, WorkerAttempts, Covered;
    ServerSum(t, |t.reach|);
    assert t.history.agent.applied[..|t.reach|] == t.history.agent.applied;
  }

  // ---------- when two workers count the same poll ----------

  /** The polls of one epoch in a delivered snapshot of worker w. */
  function OfEpoch(t: Tale, w: nat, e: nat): set<nat>
    requires w < |t.reach| && e in t.reach[w]
  {
    set x: nat | x < |t.born| && t.born[x] == e && x < t.reach[w][e]
  }

  /**
   * Two workers have no poll in common if and only if between no two resets both delivered a
   * snapshot that held any poll.
   */
  lemma {:induction false} DisjointExactly(workers: int, actions: seq<Action>, v: nat, w: nat)
    requires var t := Told(Begin(workers), actions); v < |t.reach| && w < |t.reach|
    ensures var t := Told(Begin(workers), actions);
      && Matches(t)
      && (t.history.delivered[v] !! t.history.delivered[w]
          <==> forall e | e in t.reach[v] && e in t.reach[w] :: OfEpoch(t, v, e) == {} || OfEpoch(t, w, e) == {})
  {
    ToldRun(workers, actions);
    var t := Told(Begin(workers), actions);
    hide Told, Inv;
    assert WorkerTale(t, v) && WorkerTale(t, w);
    if e :| e in t.reach[v] && e in t.reach[w] && OfEpoch(t, v, e) != {} && OfEpoch(t, w, e) != {} {
      var x :| x in OfEpoch(t, v, e);
      var y :| y in OfEpoch(t, w, e);
      var first := if x < y then x else y;
      assert Counts(t, v, first) && Counts(t, w, first);
      assert first in t.history.delivered[v] && first in t.history.delivered[w];
    }
    if x :| x in t.history.delivered[v] && x in t.history.delivered[w] {
      assert Counts(t, v, x) && Counts(t, w, x);
      assert x in OfEpoch(t, v, t.born[x]) && x in OfEpoch(t, w, t.born[x]);
    }
  }

  // ---------- lost for good ----------

  /** Worker w is sending a snapshot that holds poll x. */
  predicate Underway(t: Tale, w: nat, x: nat)
    requires Matches(t) && w < |t.reach|
  {
    t.history.agent.tasks[w].Sending? && x in t.history.carried[w]
  }

  lemma LateStep(t: Tale, a: Action, w: nat, x: nat)
    requires TaleInv(t) && w < |t.reach| && x < |t.born| && t.born[x] < t.epoch
    requires !Counts(t, w, x) && !Underway(t, w, x)
    ensures var u := Tell(t, a);
      && TaleInv(u) && w < |u.reach| && x < |u.born| && u.born[x] < u.epoch
      && !Counts(u, w, x) && !Underway(u, w, x)
  {
    TellInv(t, a);
    if Enabled(t.history.agent, a) {
      TellStep(t, a);
      var u := Tell(t, a);
      assert WorkerTale(t, w) && WorkerTale(u, w);
      LateWorker(t, a, w, x);
      hide Tell, WorkerTale;
    }
  }

  lemma LateWorker(t: Tale, a: Action, w: nat, x: nat)
    requires TaleInv(t) && Enabled(t.history.agent, a) && w < |t.reach| && x < |t.born| && t.born[x] < t.epoch
    requires !Counts(t, w, x) && !Underway(t, w, x)
    requires TaleInv(Tell(t, a)) && w < |Tell(t, a).reach|
    ensures x !in Tell(t, a).history.delivered[w] && !Underway(Tell(t, a), w, x)
  {
    assert WorkerTale(t, w);
    if WorkerOf(a) == Some(w) {
      hide P.Step, P.Enabled, TryAgain;
    } else if WorkerOf(a).Some? {
      OthersKept(t, a, WorkerOf(a).value, w);
      hide Tell;
    } else {
      NotWorkerLocal(t.history.agent, a);
      hide Agent.Step;
    }
  }

  /** A poll whose epoch is over and that w neither counts nor is sending: w will never count it. */
  lemma {:induction false} NeverCounted(t: Tale, more: seq<Action>, w: nat, x: nat)
    requires TaleInv(t) && w < |t.reach| && x < |t.born| && t.born[x] < t.epoch
    requires !Counts(t, w, x) && !Underway(t, w, x)
    ensures var u := Told(t, more);
      && TaleInv(u) && w < |u.reach| && x < |u.born| && u.born[x] < u.epoch
      && !Counts(u, w, x) && !Underway(u, w, x)
  {
    hide TaleInv, Tell, Counts, Underway;
    if more != [] {
      NeverCounted(t, more[..|more| - 1], w, x);
      LateStep(Told(t, more[..|more| - 1]), more[|more| - 1], w, x);
    }
  }

  /** One step of worker w towards the delivery of what it is sending, the network being up. */
  function Onward(t: Tale, w: nat): Action
    requires Matches(t) && w < |t.reach| && t.history.agent.tasks[w].Sending?
  {
    match t.history.agent.tasks[w].stage
    case BeforeGauges => BeginGauges(w)
    case SendingGauges => EndGauges(w, None)
    case BeforeCounters(_) => BeginCounters(w)
    case SendingCounters(_) => EndCounters(w, None)
  }

  function ToGo(t: Tale, w: nat): nat
    requires Matches(t) && w < |t.reach| && t.history.agent.tasks[w].Sending?
  {
    match t.history.agent.tasks[w].stage
    case BeforeGauges => 4
    case SendingGauges => 3
    case BeforeCounters(_) => 2
    case SendingCounters(_) => 1
  }

  lemma OnwardStep(t: Tale, w: nat, x: nat)
    requires TaleInv(t) && !t.history.agent.pool.panicked && w < |t.reach| && x < |t.born| && Underway(t, w, x)
    ensures var u := Tell(t, Onward(t, w));
      && TaleInv(u) && !u.history.agent.pool.panicked && w < |u.reach| && x < |u.born|
      && if ToGo(t, w) == 1 then Counts(u, w, x) else Underway(u, w, x) && ToGo(u, w) == ToGo(t, w) - 1
  {
    var a := Onward(t, w);
    var u := Tell(t, a);
    TellInv(t, a);
    TellStep(t, a);
    assert WorkerTale(t, w) && WorkerTale(u, w);
    OnwardHistory(t, w);
    hide Tell, Agent.Step, Shape;
  }

  lemma OnwardHistory(t: Tale, w: nat)
    requires Matches(t) && Shape(t.history.agent) && !t.history.agent.pool.panicked && w < |t.reach|
    requires t.history.agent.tasks[w].Sending?
    ensures Enabled(t.history.agent, Onward(t, w))
    ensures var g := Record(t.history, Onward(t, w));
      && g == Tell(t, Onward(t, w)).history && !g.agent.pool.panicked
      && w < |g.delivered| && w < |g.carried| && w < |g.agent.tasks|
      && if ToGo(t, w) == 1 then g.delivered[w] == t.history.delivered[w] + t.history.carried[w]
         else g.carried == t.history.carried && g.agent.tasks[w].Sending?
              && g.agent.tasks[w].stage == match t.history.agent.tasks[w].stage
                 case BeforeGauges => SendingGauges
                 case SendingGauges => BeforeCounters(None)
                 case BeforeCounters(e) => SendingCounters(e)
                 case SendingCounters(e) => SendingCounters(e)
  {
    hide P.Step, P.Enabled, TryAgain;
  }

  lemma {:induction false} ToldCons(t: Tale, a: Action, more: seq<Action>)
    ensures Told(t, [a] + more) == Told(Tell(t, a), more)
  {
    hide Tell;
    if more == [] {
      assert [a] + more == [a] && [a][..0] == [];
      assert Told(t, [a]) == Tell(Told(t, []), a);
    } else {
      assert ([a] + more)[..|more|] == [a] + more[..|more| - 1];
      ToldCons(t, a, more[..|more| - 1]);
    }
  }

  lemma {:induction false} Delivering(t: Tale, w: nat, x: nat) returns (more: seq<Action>)
    requires TaleInv(t) && !t.history.agent.pool.panicked && w < |t.reach| && x < |t.born| && Underway(t, w, x)
    ensures var u := Told(t, more); w < |u.reach| && x < |u.born| && Counts(u, w, x)
    decreases ToGo(t, w)
  {
    var a := Onward(t, w);
    hide TaleInv, Tell, Counts;
    OnwardStep(t, w, x);
    hide Underway;
    if ToGo(t, w) == 1 {
      more := [];
    } else {
      more := Delivering(Tell(t, a), w, x);
    }
    ToldCons(t, a, more);
    more := [a] + more;
  }

  /** At the end of this continuation worker w counts poll x. */
  ghost predicate EndsCounted(t: Tale, more: seq<Action>, w: nat, x: nat) {
    var u := Told(t, more);
    w < |u.reach| && x < |u.born| && Counts(u, w, x)
  }

  /**
   * After any run, once a reset has passed: a worker can still come to count a poll if and only if it
   * counts it already or is sending a snapshot that holds it. A poll of which neither is true of any
   * worker is lost for good.
   */
  lemma {:induction false} LostExactly(workers: int, actions: seq<Action>, w: nat, x: nat)
    requires var t := Told(Begin(workers), actions); w < |t.reach| && x < |t.born| && t.born[x] < t.epoch
    ensures var t := Told(Begin(workers), actions);
      && Matches(t)
      && ((exists more :: EndsCounted(t, more, w, x)) <==> Counts(t, w, x) || Underway(t, w, x))
  {
    ToldRun(workers, actions);
    ExecLifecycle(workers, actions);
    var t := Told(Begin(workers), actions);
    assert !t.history.agent.pool.panicked && Matches(t);
    hide Inv, TaleInv, Counts, Underway, Shape, Lifecycle;
    if Counts(t, w, x) {
      assert Told(t, []) == t;
      assert EndsCounted(t, [], w, x);
    } else if Underway(t, w, x) {
      var more := Delivering(t, w, x);
      assert EndsCounted(t, more, w, x);
    } else {
      forall more ensures !EndsCounted(t, more, w, x) {
        NeverCounted(t, more, w, x);
      }
    }
  }
}
