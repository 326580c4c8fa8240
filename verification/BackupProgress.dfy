/**
 * The steps of overlapping backup runs (OverlappingBackups) against what the runs are for: which
 * schedules finish, and that a run nobody disturbs is performBackup itself.
 */
module BackupProgress {
  import opened Storage
  import opened Codec
  import opened FileSystem
  import opened Journal
  import opened Backup
  import opened OverlappingBackups

  // ---------- which schedules finish ----------

  /** The turns run r still needs: remove, rename, open, and one for each record. */
  function TurnsLeft(p: Setup, r: nat, run: Run): nat {
    match run
    case Start => 3 + |p.dumps(r)|
    case Removed => 2 + |p.dumps(r)|
    case Renamed => 1 + |p.dumps(r)|
    case Writing(_, k) => if k < |p.dumps(r)| then |p.dumps(r)| - k else 0
  }

  function Minus(a: nat, b: nat): nat {
    if a < b then 0 else a - b
  }

  lemma TurnStep(p: Setup, s: State, q: nat, r: nat)
    requires p.Ok() && Inv(p, s) && r < |s.runs|
    ensures |p.Step(s, q).runs| == |s.runs|
    ensures TurnsLeft(p, r, p.Step(s, q).runs[r]) == Minus(TurnsLeft(p, r, s.runs[r]), if q == r then 1 else 0)
  {
    hide Shuffle, Count, Text;
    if q == r && s.runs[r].Writing? {
      assert s.runs[r].inode in s.log && s.runs[r].inode in s.disk.data;
    }
  }

  /** Each turn of a run that is not finished brings it one step on, whatever the other runs did before. */
  lemma {:induction false} EveryTurnCounts(p: Setup, s: State, schedule: seq<nat>, r: nat)
    requires p.Ok() && Inv(p, s) && r < |s.runs|
    ensures var t := p.Exec(s, schedule);
      |t.runs| == |s.runs| && TurnsLeft(p, r, t.runs[r]) == Minus(TurnsLeft(p, r, s.runs[r]), Count(schedule, r))
  {
    hide Inv, TurnsLeft, Setup.Step;
    if schedule != [] {
      var k := |schedule| - 1;
      EveryTurnCounts(p, s, schedule[..k], r);
      ExecInv(p, s, schedule[..k]);
      TurnStep(p, p.Exec(s, schedule[..k]), schedule[k], r);
    }
  }

  /**
   * No run ever waits for another: from any reachable state, exactly those schedules finish all runs
   * that give each of them the turns it still needs.
   */
  lemma {:induction false} FinishesExactly(p: Setup, s: State, schedule: seq<nat>)
    requires p.Ok() && Inv(p, s)
    ensures p.Finished(p.Exec(s, schedule))
       <==> forall r | 0 <= r < |s.runs| :: Count(schedule, r) >= TurnsLeft(p, r, s.runs[r])
  {
    hide Inv, Setup.Exec, Setup.Done, TurnsLeft, Count;
    var t := p.Exec(s, schedule);
    ExecInv(p, s, schedule);
    forall r | 0 <= r < |s.runs|
      ensures p.Done(t, r) <==> Count(schedule, r) >= TurnsLeft(p, r, s.runs[r])
    {
      EveryTurnCounts(p, s, schedule, r);
      DoneIsZero(p, t, r);
    }
  }

  lemma DoneIsZero(p: Setup, s: State, r: nat)
    requires r < |s.runs|
    ensures p.Done(s, r) <==> TurnsLeft(p, r, s.runs[r]) == 0
  {
  }

  /** The same for runs that have not begun: three turns, and one for each record. */
  lemma AllRunsFinishExactly(p: Setup, d: Disk, n: nat, schedule: seq<nat>)
    requires p.Ok() && d.Valid()
    ensures p.Finished(p.Exec(p.Init(d, n), schedule))
       <==> forall r | 0 <= r < n :: Count(schedule, r) >= 3 + |p.dumps(r)|
  {
    InitInv(p, d, n);
    FinishesExactly(p, p.Init(d, n), schedule);
  }

  /** One run after the other, each with the turns it still needs. */
  function OneByOne(p: Setup, runs: seq<Run>): seq<nat> {
    if runs == [] then []
    else
      var r := |runs| - 1;
      OneByOne(p, runs[..r]) + seq(TurnsLeft(p, r, runs[r]), _ => r)
  }

  lemma {:induction false} CountMore(w: seq<nat>, q: nat, k: nat, r: nat)
    ensures Count(w + seq(k, _ => q), r) == Count(w, r) + if q == r then k else 0
  {
    var more := seq(k, _ => q);
    if k == 0 {
      assert w + more == w;
    } else {
      assert (w + more)[..|w| + k - 1] == w + seq(k - 1, _ => q);
      CountMore(w, q, k - 1, r);
    }
  }

  lemma {:induction false} CountOneByOne(p: Setup, runs: seq<Run>, r: nat)
    requires r < |runs|
    ensures Count(OneByOne(p, runs), r) >= TurnsLeft(p, r, runs[r])
  {
    hide TurnsLeft, Count;
    var q := |runs| - 1;
    CountMore(OneByOne(p, runs[..q]), q, TurnsLeft(p, q, runs[q]), r);
    if r < q {
      CountOneByOne(p, runs[..q], r);
    }
  }

  /** Whatever has happened so far, all runs can still finish. */
  lemma CanFinish(p: Setup, d: Disk, n: nat, schedule: seq<nat>)
    requires p.Ok() && d.Valid()
    ensures exists more :: p.Finished(p.Exec(p.Exec(p.Init(d, n), schedule), more))
  {
    var s := p.Exec(p.Init(d, n), schedule);
    InitInv(p, d, n);
    ExecInv(p, p.Init(d, n), schedule);
    hide *;
    FinishesExactly(p, s, OneByOne(p, s.runs));
    forall r | 0 <= r < |s.runs| ensures Count(OneByOne(p, s.runs), r) >= TurnsLeft(p, r, s.runs[r]) {
      CountOneByOne(p, s.runs, r);
    }
  }

  // ---------- a run nobody disturbs ----------

  /** The disk under a lone run, step by step. */
  ghost predicate LoneDisk(p: Setup, d: Disk, s: State)
    requires p.Ok() && d.Valid()
  {
    && |s.runs| == 1
    && match s.runs[0]
       case Start => s.disk == d
       case Removed => s.disk == d.Unlink(OldPath(p.path))
       case Renamed => s.disk == Rotated(d, p.path) && s.log == map[]
       case Writing(i, k) =>
         var (ready, j) := Rotated(d, p.path).Open(p.path);
         && i == j && i in ready.data && i in s.log && k <= |p.dumps(0)|
         && AllWritable(p.dumps(0)[..k])
         && s.disk == ready.Append(i, Text(p.codec, p.dumps(0)[..k]))
  }

  lemma LoneStep(p: Setup, d: Disk, s: State, r: nat)
    requires p.Ok() && d.Valid() && LoneDisk(p, d, s) && (s.runs[0].Writing? || s.log == map[])
    ensures LoneDisk(p, d, p.Step(s, r)) && (p.Step(s, r).runs[0].Writing? || p.Step(s, r).log == map[])
  {
    hide Text, Shuffle;
    if r == 0 {
      match s.runs[0]
      case Renamed =>
        var (ready, i) := Rotated(d, p.path).Open(p.path);
        assert p.dumps(0)[..0] == [];
        TextNone(p.codec);
        AppendNothing(ready, i);
      case Writing(i, k) =>
        if k < |p.dumps(0)| {
          var (ready, _) := Rotated(d, p.path).Open(p.path);
          assert p.dumps(0)[k] in p.dumps(0) && p.dumps(0)[..k] + [p.dumps(0)[k]] == p.dumps(0)[..k + 1];
          TextWritten(p.codec, ready, i, p.dumps(0)[..k], p.dumps(0)[k]);
        }
      case _ =>
    }
  }

  lemma {:induction false} LoneExec(p: Setup, d: Disk, schedule: seq<nat>)
    requires p.Ok() && d.Valid()
    ensures var s := p.Exec(p.Init(d, 1), schedule);
      LoneDisk(p, d, s) && (s.runs[0].Writing? || s.log == map[])
  {
    hide Setup.Step;
    if schedule != [] {
      LoneExec(p, d, schedule[..|schedule| - 1]);
      hide LoneDisk;
      LoneStep(p, d, p.Exec(p.Init(d, 1), schedule[..|schedule| - 1]), schedule[|schedule| - 1]);
    }
  }

  /**
   * The steps are those of performBackup: for any store with finite gauges, a lone run that has
   * finished leaves the very disk that the method leaves, and it has finished after three turns and
   * one for each metric.
   */
  lemma {:induction false} LoneRunIsPerformBackup(c: Codec, path: string, store: Store, d: Disk, schedule: seq<nat>)
    requires Sound(c) && d.Valid() && FiniteGauges(store)
    ensures AllWritable(Dump(store))
    ensures var p := Setup(c, path, Same(Dump(store)));
      var s := p.Exec(p.Init(d, 1), schedule);
      && (Count(schedule, 0) >= 3 + |store.gauges| + |store.counters| <==> p.Finished(s))
      && (p.Finished(s) ==> s.disk == BackedUp(c, d, path, store))
  {
    DumpWritable(store);
    var p := Setup(c, path, Same(Dump(store)));
    var s := p.Exec(p.Init(d, 1), schedule);
    AllRunsFinishExactly(p, d, 1, schedule);
    LoneExec(p, d, schedule);
    hide Setup.Exec, Dump, Text, Rotated;
    DumpEvents(store);
    if p.Finished(s) {
      LoneEnd(p, d, s, store);
    }
  }

  lemma LoneEnd(p: Setup, d: Disk, s: State, store: Store)
    requires p.Ok() && d.Valid() && LoneDisk(p, d, s) && p.Finished(s) && p.dumps(0) == Dump(store)
    ensures s.disk == BackedUp(p.codec, d, p.path, store)
  {
    hide Text, Dump, Rotated;
    assert p.Done(s, 0);
    var dump := Dump(store);
    assert dump[..|dump|] == dump && AllWritable(dump) && WrittenPart(dump) == dump;
    hide WrittenPart;
  }
}
