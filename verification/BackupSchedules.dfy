/** Which schedules of overlapping backups are safe: serial ones are, overlapping ones need not be. */
module BackupSchedules {
  import opened Wrappers
  import opened Numbers
  import opened Storage
  import opened Codec
  import opened FileSystem
  import opened Journal
  import opened Backup
  import opened Recovery
  import opened OverlappingBackups

  /** 2^64 divides (k - 1) times every counter. */
  ghost predicate Unnoticed(s: Store, k: nat) {
    forall i | 0 <= i < |s.counters| :: ((k - 1) * s.counters[i].value) % TWO_64 == 0
  }

  /**
   * k whole dumps in one file restore the storage if and only if 2^64 divides (k - 1) times
   * every counter.
   */
  lemma RestoredExactly(s: Store, k: nat)
    ensures Scaled(s, k) == s
       <==> Unnoticed(s, k)
  {
    forall i | 0 <= i < |s.counters|
      ensures Scaled(s, k).counters[i] == s.counters[i] <==> ((k - 1) * s.counters[i].value) % TWO_64 == 0
    {
      var v := s.counters[i].value;
      assert k * v - v == (k - 1) * v;
      if (k * v - v) % TWO_64 == 0 {
        WrapUnique(k * v, v);
      }
    }
    if Scaled(s, k) == s {
      assert forall i | 0 <= i < |s.counters| :: Scaled(s, k).counters[i] == s.counters[i];
    }
  }

  // ---------- how many dumps, read off the schedule ----------

  /** How many runs opened the path since the last rename that moved a file away from it. */
  function Opens(p: Setup, s: State, schedule: seq<nat>): nat
    requires p.Ok()
  {
    if schedule == [] then 0
    else
      var k := |schedule| - 1;
      var before, r, n := p.Exec(s, schedule[..k]), schedule[k], Opens(p, s, schedule[..k]);
      if r >= |before.runs| then n
      else
        match before.runs[r]
        case Removed => if p.path in before.disk.names then 0 else n
        case Renamed => n + 1
        case _ => n
  }

  function AtPath(p: Setup, s: State): nat {
    if p.path in s.disk.names then Landed(s.runs, s.disk.names[p.path]) else 0
  }

  function Lands(r: Run, i: Inode): nat {
    if r.Writing? && r.inode == i then 1 else 0
  }

  lemma {:induction false} LandedUpdate(runs: seq<Run>, r: nat, x: Run, i: Inode)
    requires r < |runs|
    ensures Landed(runs[r := x], i) + Lands(runs[r], i) == Landed(runs, i) + Lands(x, i)
  {
    var k := |runs| - 1;
    if r == k {
      assert runs[r := x][..k] == runs[..k];
    } else {
      assert runs[r := x][..k] == runs[..k][r := x];
      LandedUpdate(runs[..k], r, x, i);
    }
  }

  lemma {:induction false} NoneLanded(runs: seq<Run>, i: Inode)
    requires forall r | 0 <= r < |runs| && runs[r].Writing? :: runs[r].inode != i
    ensures Landed(runs, i) == 0
  {
    if runs != [] {
      NoneLanded(runs[..|runs| - 1], i);
    }
  }

  lemma OpensStep(p: Setup, s: State, r: nat)
    requires p.Ok() && Inv(p, s)
    ensures AtPath(p, p.Step(s, r))
         == if r >= |s.runs| then AtPath(p, s)
            else match s.runs[r]
              case Removed => if p.path in s.disk.names then 0 else AtPath(p, s)
              case Renamed => AtPath(p, s) + 1
              case _ => AtPath(p, s)
  {
    OldPathDiffers(p.path);
    hide Landed, LineOf;
    var t := p.Step(s, r);
    if r < |s.runs| && t != s {
      if p.path in t.disk.names {
        LandedUpdate(s.runs, r, t.runs[r], t.disk.names[p.path]);
      }
      if s.runs[r].Renamed? && p.path !in s.disk.names {
        assert forall q | 0 <= q < |s.runs| && s.runs[q].Writing? :: s.runs[q].inode in s.log;
        NoneLanded(s.runs, s.disk.next);
      }
    }
  }

  /** The number of dumps in the file at the path is the number of opens since it was last moved away. */
  lemma {:induction false} OpensAreDumps(p: Setup, d: Disk, n: nat, schedule: seq<nat>)
    requires p.Ok() && d.Valid()
    ensures AtPath(p, p.Exec(p.Init(d, n), schedule)) == Opens(p, p.Init(d, n), schedule)
  {
    InitInv(p, d, n);
    if schedule == [] {
      forall i | true ensures Landed(p.Init(d, n).runs, i) == 0 {
        NoneLanded(p.Init(d, n).runs, i);
      }
    } else {
      var k := |schedule| - 1;
      OpensAreDumps(p, d, n, schedule[..k]);
      ExecInv(p, p.Init(d, n), schedule[..k]);
      OpensStep(p, p.Exec(p.Init(d, n), schedule[..k]), schedule[k]);
      hide AtPath, Inv;
    }
  }

  lemma {:induction false} DumpsAtPath(p: Setup, d: Disk, n: nat, schedule: seq<nat>)
    requires p.Ok() && d.Valid() && p.path in p.Exec(p.Init(d, n), schedule).disk.names
    ensures var end := p.Exec(p.Init(d, n), schedule);
      Landed(end.runs, end.disk.names[p.path]) == Opens(p, p.Init(d, n), schedule)
  {
    hide Opens, Setup.Exec;
    OpensAreDumps(p, d, n, schedule);
  }

  /**
   * Any number of overlapping runs over a frozen storage, in any interleaving: once all are done,
   * the path restores the storage if and only if 2^64 divides every counter times one less than
   * the number of opens since the last rename that moved a file.
   */
  lemma {:induction false} PathRestoresExactly(c: Codec, path: string, s: Store, d: Disk, n: nat, schedule: seq<nat>)
    requires Sound(c) && d.Valid() && WellFormed(s) && AllWritable(Dump(s)) && n >= 1
    requires var p := Setup(c, path, Same(Dump(s))); p.Finished(p.Exec(p.Init(d, n), schedule))
    ensures var p := Setup(c, path, Same(Dump(s)));
      var text := p.Exec(p.Init(d, n), schedule).disk.Content(path).GetOr("");
      var k := Opens(p, p.Init(d, n), schedule);
      && k >= 1 && Restorable(c, text)
      && Replay(EMPTY, Restored(c, text)) == Scaled(s, k)
      && (Replay(EMPTY, Restored(c, text)) == s
          <==> Unnoticed(s, k))
  {
    var p := Setup(c, path, Same(Dump(s)));
    assert p.Ok();
    hide *;
    OverlappingRuns(c, path, s, d, n, schedule);
    DumpsAtPath(p, d, n, schedule);
    RestoredExactly(s, Opens(p, p.Init(d, n), schedule));
  }

  // ---------- serial runs ----------

  /** No other run is under way. */
  ghost predicate Alone(p: Setup, s: State, r: nat) {
    forall q | 0 <= q < |s.runs| && q != r :: s.runs[q].Start? || p.Done(s, q)
  }

  /** Each run is finished before the next one starts. */
  ghost predicate Serial(p: Setup, s: State, schedule: seq<nat>)
    requires p.Ok()
  {
    forall j | 0 <= j < |schedule| :: Alone(p, p.Exec(s, schedule[..j]), schedule[j])
  }

  /** Every run writes to an inode of its own. */
  ghost predicate OwnInodes(p: Setup, s: State) {
    && (forall q, r | 0 <= q < r < |s.runs| && s.runs[q].Writing? && s.runs[r].Writing? ::
          s.runs[q].inode != s.runs[r].inode)
    && ((exists r | 0 <= r < |s.runs| :: s.runs[r].Renamed?) ==> p.path !in s.disk.names)
  }

  lemma {:induction false} SerialOwnInodes(p: Setup, s: State, schedule: seq<nat>)
    requires p.Ok() && Inv(p, s) && OwnInodes(p, s) && Serial(p, s, schedule)
    ensures Inv(p, p.Exec(s, schedule)) && OwnInodes(p, p.Exec(s, schedule))
  {
    hide Inv, OwnInodes, Alone;
    if schedule != [] {
      var k := |schedule| - 1;
      assert forall j | 0 <= j < k :: schedule[..k][..j] == schedule[..j];
      SerialOwnInodes(p, s, schedule[..k]);
      var before := p.Exec(s, schedule[..k]);
      StepInv(p, before, schedule[k]);
      OwnInodesStep(p, before, schedule[k]);
    }
  }

  lemma OwnInodesStep(p: Setup, s: State, r: nat)
    requires p.Ok() && Inv(p, s) && OwnInodes(p, s) && Alone(p, s, r)
    ensures OwnInodes(p, p.Step(s, r))
  {
    OldPathDiffers(p.path);
    hide Shuffle, Count, Contribution, Text, NameInv;
    var t := p.Step(s, r);
    if r < |s.runs| && t != s {
      assert forall q | 0 <= q < |s.runs| && q != r :: t.runs[q] == s.runs[q] && !t.runs[q].Renamed?;
      if s.runs[r].Renamed? {
        assert t.runs[r].inode == s.disk.next;
        assert forall q | 0 <= q < |s.runs| && s.runs[q].Writing? :: s.runs[q].inode in s.log;
      }
    }
  }

  lemma {:induction false} LandedOnce(runs: seq<Run>, i: Inode)
    requires forall q, r | 0 <= q < r < |runs| && runs[q].Writing? && runs[r].Writing? :: runs[q].inode != runs[r].inode
    ensures Landed(runs, i) <= 1
  {
    if runs != [] {
      var k := |runs| - 1;
      LandedOnce(runs[..k], i);
      if runs[k].Writing? && runs[k].inode == i {
        NoneLanded(runs[..k], i);
      }
    }
  }

  /** Serial runs always leave one whole dump: restoring it gives the storage back. */
  lemma SerialRunsRestore(c: Codec, path: string, s: Store, d: Disk, n: nat, schedule: seq<nat>)
    requires Sound(c) && d.Valid() && WellFormed(s) && AllWritable(Dump(s)) && n >= 1
    requires var p := Setup(c, path, Same(Dump(s)));
      p.Finished(p.Exec(p.Init(d, n), schedule)) && Serial(p, p.Init(d, n), schedule)
    ensures var p := Setup(c, path, Same(Dump(s)));
      var text := p.Exec(p.Init(d, n), schedule).disk.Content(path).GetOr("");
      Restorable(c, text) && Replay(EMPTY, Restored(c, text)) == s
  {
    var p := Setup(c, path, Same(Dump(s)));
    InitInv(p, d, n);
    assert OwnInodes(p, p.Init(d, n));
    hide Inv, OwnInodes, Scaled, Restored, Restorable, Setup.Step, Replay;
    SerialOwnInodes(p, p.Init(d, n), schedule);
    ExecInv(p, p.Init(d, n), schedule);
    OneDump(p, s, p.Exec(p.Init(d, n), schedule));
  }

  lemma OneDump(p: Setup, s: Store, end: State)
    requires p.Ok() && Inv(p, end) && OwnInodes(p, end) && p.Finished(end) && |end.runs| >= 1
    requires WellFormed(s) && p.dumps == Same(Dump(s))
    ensures var text := end.disk.Content(p.path).GetOr("");
      Restorable(p.codec, text) && Replay(EMPTY, Restored(p.codec, text)) == s
  {
    hide Inv, Restored, Restorable, Replay, Scaled, Text, Dump;
    EndState(p, s, end);
    LandedOnce(end.runs, end.disk.names[p.path]);
    OnceIsSame(s);
  }

  lemma OnceIsSame(s: Store)
    ensures Scaled(s, 1) == s
  {
    RestoredExactly(s, 1);
  }

  // ---------- what overlap can do ----------

  /**
   * Two overlapping runs stopped at the wrong moment: the new file is still empty and the previous
   * backup has been removed.
   */
  lemma OverlapCanLoseBoth(p: Setup, d: Disk, previous: string)
    requires p.Ok() && d.Valid() && d.Content(p.path) == Some(previous)
    ensures var s := p.Exec(p.Init(d, 2), [0, 0, 0, 1]);
      s.disk.Content(p.path) == Some("") && s.disk.Content(OldPath(p.path)) == None
  {
    OldPathDiffers(p.path);
    Unfold4(p, p.Init(d, 2), 0, 0, 0, 1);
  }

  lemma Unfold4(p: Setup, s: State, a: nat, b: nat, c: nat, d: nat)
    requires p.Ok()
    ensures p.Exec(s, [a, b, c, d]) == p.Step(p.Step(p.Step(p.Step(s, a), b), c), d)
  {
    assert [a, b, c, d][..3] == [a, b, c] && [a, b, c][..2] == [a, b] && [a, b][..1] == [a] && [a][..0] == [];
    assert p.Exec(s, [a]) == p.Step(s, a);
    assert p.Exec(s, [a, b]) == p.Step(p.Step(s, a), b);
    assert p.Exec(s, [a, b, c]) == p.Step(p.Step(p.Step(s, a), b), c);
  }

  lemma {:induction false} ExecConcat(p: Setup, s: State, a: seq<nat>, b: seq<nat>)
    requires p.Ok()
    ensures p.Exec(s, a + b) == p.Exec(p.Exec(s, a), b)
  {
    if b == [] {
      assert a + b == a;
    } else {
      assert (a + b)[..|a + b| - 1] == a + b[..|b| - 1];
      ExecConcat(p, s, a, b[..|b| - 1]);
    }
  }

  /**
   * The restored counters can be wrong: with one counter at 1, two runs that both rename before
   * either opens leave a backup from which the counter comes back as 2.
   */
  lemma OverlapCanDouble(c: Codec, path: string, d: Disk)
    requires Sound(c) && d.Valid()
    ensures var s := Store([], [Entry("PollCount", 1)]);
      var p := Setup(c, path, Same(Dump(s)));
      var text := p.Exec(p.Init(d, 2), [0, 0, 1, 1, 0, 1, 0, 1]).disk.Content(path).GetOr("");
      Restorable(c, text) && Replay(EMPTY, Restored(c, text)) == Store([], [Entry("PollCount", 2)])
  {
    var s := Store([], [Entry("PollCount", 1)]);
    var p := Setup(c, path, Same(Dump(s)));
    InitInv(p, d, 2);
    var mid := p.Exec(p.Init(d, 2), [0, 0, 1, 1]);
    BothRenamed(p, d);
    BothWrite(p, mid);
    ExecConcat(p, p.Init(d, 2), [0, 0, 1, 1], [0, 1, 0, 1]);
    assert [0, 0, 1, 1] + [0, 1, 0, 1] == [0, 0, 1, 1, 0, 1, 0, 1];
    hide Inv, Setup.Exec, Setup.Step, Restored, Restorable, Replay;
    ExecInv(p, p.Init(d, 2), [0, 0, 1, 1, 0, 1, 0, 1]);
    DoubledEnd(p, s, p.Exec(mid, [0, 1, 0, 1]), mid.disk.next);
  }

  lemma DoubledEnd(p: Setup, s: Store, end: State, i: Inode)
    requires p.Ok() && Inv(p, end) && s == Store([], [Entry("PollCount", 1)]) && p.dumps == Same(Dump(s))
    requires end.runs == [Writing(i, 1), Writing(i, 1)] && p.path in end.disk.names && end.disk.names[p.path] == i
    ensures var text := end.disk.Content(p.path).GetOr("");
      && Restorable(p.codec, text)
      && Replay(EMPTY, Restored(p.codec, text)) == Store([], [Entry("PollCount", 2)])
  {
    TwiceOne(s);
    LandedTwo(Writing(i, 1), Writing(i, 1), i);
    hide Inv, Restored, Restorable, Replay, Text, Scaled, Landed;
    EndState(p, s, end);
  }

  lemma TwiceOne(s: Store)
    requires s == Store([], [Entry("PollCount", 1)])
    ensures Scaled(s, 2) == Store([], [Entry("PollCount", 2)])
  {
    assert Scaled(s, 2).counters == [Entry("PollCount", 2)];
  }

  lemma BothRenamed(p: Setup, d: Disk)
    requires p.Ok() && d.Valid()
    ensures var mid := p.Exec(p.Init(d, 2), [0, 0, 1, 1]);
      mid.runs == [Renamed, Renamed] && p.path !in mid.disk.names && mid.log == map[]
  {
    OldPathDiffers(p.path);
    Unfold4(p, p.Init(d, 2), 0, 0, 1, 1);
  }

  lemma BothWrite(p: Setup, mid: State)
    requires p.Ok() && (forall r: nat :: |p.dumps(r)| == 1)
    requires mid.runs == [Renamed, Renamed] && p.path !in mid.disk.names && mid.log == map[]
    ensures var end, i := p.Exec(mid, [0, 1, 0, 1]), mid.disk.next;
      end.runs == [Writing(i, 1), Writing(i, 1)] && p.path in end.disk.names && end.disk.names[p.path] == i
  {
    Unfold4(p, mid, 0, 1, 0, 1);
  }

  lemma LandedTwo(a: Run, b: Run, i: Inode)
    requires a.Writing? && b.Writing? && a.inode == i && b.inode == i
    ensures Landed([a, b], i) == 2
  {
    assert [a, b][..1] == [a] && [a][..0] == [];
    assert Landed([a], i) == 1;
  }
}
