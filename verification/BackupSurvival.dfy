/**
 * When the previous backup outlives the runs that replace it: an exact condition on the schedule
 * of any number of runs, and its two main cases, a lone run and serial runs.
 */
module BackupSurvival {
  import opened Wrappers
  import opened Numbers
  import opened Storage
  import opened Codec
  import opened FileSystem
  import opened Journal
  import opened Backup
  import opened Recovery
  import opened OverlappingBackups
  import opened BackupSchedules

  // ---------- following one file ----------

  predicate Links(d: Disk, path: string, i: Inode) {
    path in d.names && d.names[path] == i
  }

  /** The file can still be found, at path or at path_old. */
  predicate Reachable(p: Setup, s: State, i: Inode) {
    Links(s.disk, p.path, i) || Links(s.disk, OldPath(p.path), i)
  }

  /** No run will write to this file: whoever has it open is done, and nobody is about to open it. */
  ghost predicate Frozen(p: Setup, s: State, i: Inode) {
    && s.disk.Valid() && i in s.disk.data
    && (forall r | 0 <= r < |s.runs| && s.runs[r].Writing? && s.runs[r].inode == i :: p.Done(s, r))
    && (Links(s.disk, p.path, i) ==> forall r | 0 <= r < |s.runs| :: !s.runs[r].Renamed?)
  }

  /**
   * The two ways a step takes the last name from a file that is only at path_old: a run removes
   * path_old, or it renames a newer file over it.
   */
  predicate Destroys(p: Setup, s: State, i: Inode, r: nat) {
    && Links(s.disk, OldPath(p.path), i) && !Links(s.disk, p.path, i)
    && r < |s.runs|
    && (s.runs[r].Start? || (s.runs[r].Removed? && p.path in s.disk.names))
  }

  lemma SurvivalStep(p: Setup, s: State, i: Inode, r: nat)
    requires p.Ok() && Frozen(p, s, i)
    ensures var t := p.Step(s, r);
      && Frozen(p, t, i) && t.disk.data[i] == s.disk.data[i]
      && (Reachable(p, t, i) <==> Reachable(p, s, i) && !Destroys(p, s, i, r))
  {
    OldPathDiffers(p.path);
    hide LineOf;
    var t := p.Step(s, r);
    if r < |s.runs| && t != s {
      assert forall q | 0 <= q < |s.runs| && q != r :: t.runs[q] == s.runs[q];
    }
  }

  ghost predicate NoneDestroys(p: Setup, s: State, i: Inode, schedule: seq<nat>)
    requires p.Ok()
  {
    forall j | 0 <= j < |schedule| :: !Destroys(p, p.Exec(s, schedule[..j]), i, schedule[j])
  }

  lemma {:induction false} FrozenExec(p: Setup, s: State, i: Inode, schedule: seq<nat>)
    requires p.Ok() && Frozen(p, s, i)
    ensures var t := p.Exec(s, schedule);
      && Frozen(p, t, i) && t.disk.data[i] == s.disk.data[i]
      && (Reachable(p, t, i) <==> Reachable(p, s, i) && NoneDestroys(p, s, i, schedule))
  {
    hide Frozen, Reachable, Destroys, Setup.Step;
    if schedule != [] {
      var k := |schedule| - 1;
      FrozenExec(p, s, i, schedule[..k]);
      SurvivalStep(p, p.Exec(s, schedule[..k]), i, schedule[k]);
      NoneSnoc(p, s, i, schedule);
      hide NoneDestroys;
    }
  }

  lemma NoneSnoc(p: Setup, s: State, i: Inode, schedule: seq<nat>)
    requires p.Ok() && schedule != []
    ensures var k := |schedule| - 1;
      NoneDestroys(p, s, i, schedule)
      <==> NoneDestroys(p, s, i, schedule[..k]) && !Destroys(p, p.Exec(s, schedule[..k]), i, schedule[k])
  {
    hide Destroys, Setup.Exec;
    var k := |schedule| - 1;
    assert forall j | 0 <= j < k :: schedule[..k][..j] == schedule[..j] && schedule[..k][j] == schedule[j];
  }

  /**
   * For any number of runs and any schedule: the file that was at path or path_old is still at one
   * of them, text unchanged, if and only if no step of the schedule takes its last name.
   */
  lemma {:induction false} SurvivesExactly(p: Setup, d: Disk, n: nat, i: Inode, schedule: seq<nat>)
    requires p.Ok() && d.Valid() && (Links(d, p.path, i) || Links(d, OldPath(p.path), i))
    ensures var t := p.Exec(p.Init(d, n), schedule);
      && i in t.disk.data && t.disk.data[i] == d.data[i]
      && (Reachable(p, t, i) <==> NoneDestroys(p, p.Init(d, n), i, schedule))
  {
    FrozenExec(p, p.Init(d, n), i, schedule);
  }

  // ---------- one run at a time ----------

  /** Where the file i that was at path is, and what is at path, while run r alone makes steps. */
  ghost predicate Position(p: Setup, s: State, r: nat, i: Inode)
    requires p.Ok() && r < |s.runs|
  {
    match s.runs[r]
    case Start => Links(s.disk, p.path, i)
    case Removed => Links(s.disk, p.path, i)
    case Renamed => Links(s.disk, OldPath(p.path), i) && p.path !in s.disk.names
    case Writing(j, k) =>
      && Links(s.disk, OldPath(p.path), i) && Links(s.disk, p.path, j) && j != i && j in s.disk.data
      && k <= |p.dumps(r)| && AllWritable(p.dumps(r)[..k]) && s.disk.data[j] == Text(p.codec, p.dumps(r)[..k])
  }

  /** Steps of r only; a number that names no run does nothing. */
  predicate Only(s: State, r: nat, schedule: seq<nat>) {
    forall q <- schedule :: q == r || q >= |s.runs|
  }

  lemma PositionStep(p: Setup, s: State, r: nat, i: Inode, q: nat)
    requires p.Ok() && r < |s.runs| && Frozen(p, s, i) && Position(p, s, r, i) && (q == r || q >= |s.runs|)
    ensures var t := p.Step(s, q);
      t.runs == s.runs[r := t.runs[r]] && Position(p, t, r, i) && !Destroys(p, s, i, q)
  {
    OldPathDiffers(p.path);
    TextNone(p.codec);
    assert p.dumps(r)[..0] == [];
    var t := p.Step(s, q);
    if q == r && s.runs[r].Writing? && t != s {
      var k := s.runs[r].written;
      assert p.dumps(r)[..k + 1] == p.dumps(r)[..k] + [p.dumps(r)[k]];
      TextConcat(p.codec, p.dumps(r)[..k], [p.dumps(r)[k]]);
      TextOne(p.codec, p.dumps(r)[k]);
    }
  }

  lemma {:induction false} OneRun(p: Setup, s: State, r: nat, i: Inode, schedule: seq<nat>)
    requires p.Ok() && r < |s.runs| && Frozen(p, s, i) && Position(p, s, r, i) && Only(s, r, schedule)
    ensures var t := p.Exec(s, schedule);
      && |t.runs| == |s.runs| && t.runs == s.runs[r := t.runs[r]] && Position(p, t, r, i)
      && NoneDestroys(p, s, i, schedule)
  {
    hide Frozen, Position, Destroys, Setup.Step;
    if schedule != [] {
      var k := |schedule| - 1;
      assert schedule[k] in schedule && forall q <- schedule[..k] :: q in schedule;
      OneRun(p, s, r, i, schedule[..k]);
      FrozenExec(p, s, i, schedule[..k]);
      PositionStep(p, p.Exec(s, schedule[..k]), r, i, schedule[k]);
      NoneSnoc(p, s, i, schedule);
      hide NoneDestroys;
    } else {
      assert s.runs == s.runs[r := s.runs[r]];
    }
  }

  // ---------- crash points of a lone run ----------

  /** Where the previous backup is, and what is at path, when a lone run is stopped here. */
  ghost predicate PreviousSafe(p: Setup, s: State, previous: string)
    requires p.Ok() && |s.runs| == 1
  {
    && s.disk.Valid()
    && match s.runs[0]
       case Start => s.disk.Content(p.path) == Some(previous) && s.log == map[]
       case Removed => s.disk.Content(p.path) == Some(previous) && s.log == map[]
       case Renamed => s.disk.Content(OldPath(p.path)) == Some(previous) && p.path !in s.disk.names && s.log == map[]
       case Writing(i, k) =>
         && s.disk.Content(OldPath(p.path)) == Some(previous)
         && p.path in s.disk.names && s.disk.names[p.path] == i && s.disk.names[OldPath(p.path)] != i
         && k <= |p.dumps(0)| && AllWritable(p.dumps(0)[..k])
         && s.disk.Content(p.path) == Some(Text(p.codec, p.dumps(0)[..k]))
  }

  /**
   * A lone run stopped anywhere leaves the complete previous backup on disk: at path before the
   * rename, at path_old from the rename on.
   */
  lemma {:induction false} CrashPoints(p: Setup, d: Disk, previous: string, schedule: seq<nat>)
    requires p.Ok() && d.Valid() && d.Content(p.path) == Some(previous)
    ensures |p.Exec(p.Init(d, 1), schedule).runs| == 1
    ensures PreviousSafe(p, p.Exec(p.Init(d, 1), schedule), previous)
  {
    var i, t := d.names[p.path], p.Exec(p.Init(d, 1), schedule);
    OneRun(p, p.Init(d, 1), 0, i, schedule);
    SurvivesExactly(p, d, 1, i, schedule);
    InitInv(p, d, 1);
    ExecInv(p, p.Init(d, 1), schedule);
    NothingLogged(p, t);
    hide Setup.Exec, Inv, Text, Destroys, NoneDestroys;
  }

  lemma NothingLogged(p: Setup, s: State)
    requires p.Ok() && Inv(p, s)
    ensures s.disk.Valid() && ((forall r | 0 <= r < |s.runs| :: !s.runs[r].Writing?) ==> s.log == map[])
  {
    if forall r | 0 <= r < |s.runs| :: !s.runs[r].Writing? {
      assert s.log.Keys == {};
    }
  }

  // ---------- crash points of serial runs ----------

  /** The previous backup, or everything some run writes. */
  ghost predicate Whole(p: Setup, text: string, previous: string)
    requires p.Ok()
  {
    text == previous || exists r: nat :: text == Text(p.codec, p.dumps(r))
  }

  /** Between runs: the file at path is complete, the previous backup or a whole dump. */
  ghost predicate Rest(p: Setup, s: State, previous: string)
    requires p.Ok()
  {
    && s.disk.Valid()
    && (forall r | 0 <= r < |s.runs| :: s.runs[r].Start? || p.Done(s, r))
    && s.disk.Content(p.path).Some? && Whole(p, s.disk.Content(p.path).value, previous)
  }

  lemma RestFrozen(p: Setup, s: State, previous: string, r: nat)
    requires p.Ok() && Rest(p, s, previous)
    ensures p.path in s.disk.names && Frozen(p, s, s.disk.names[p.path])
    ensures r < |s.runs| && s.runs[r].Start? ==> Position(p, s, r, s.disk.names[p.path])
  {
  }

  /** After a run is done, path holds its whole dump. */
  lemma RestAgain(p: Setup, s: State, t: State, r: nat, i: Inode, previous: string)
    requires p.Ok() && Rest(p, s, previous) && r < |s.runs| == |t.runs| && Frozen(p, t, i)
    requires t.runs == s.runs[r := t.runs[r]] && Position(p, t, r, i)
    requires t.disk.data[i] == s.disk.Content(p.path).value
    requires t.runs[r].Start? || p.Done(t, r)
    ensures Rest(p, t, previous)
  {
    assert p.dumps(r)[..|p.dumps(r)|] == p.dumps(r);
    hide Text;
  }

  /** A complete backup, the previous one or a whole dump, is at path or at path_old. */
  ghost predicate Backed(p: Setup, s: State, previous: string)
    requires p.Ok()
  {
    || (s.disk.Content(p.path).Some? && Whole(p, s.disk.Content(p.path).value, previous))
    || (s.disk.Content(OldPath(p.path)).Some? && Whole(p, s.disk.Content(OldPath(p.path)).value, previous))
  }

  /** The schedule was last between runs after j steps; from there on only run r makes steps. */
  ghost predicate Split(p: Setup, s: State, previous: string, schedule: seq<nat>, j: nat, r: nat)
    requires p.Ok()
  {
    && j <= |schedule| && Rest(p, p.Exec(s, schedule[..j]), previous)
    && (j < |schedule| ==>
          var mid := p.Exec(s, schedule[..j]);
          r < |mid.runs| && mid.runs[r].Start? && Only(mid, r, schedule[j..]))
  }

  /** A run under way has destroyed nothing, and once it is done all is at rest again. */
  lemma {:induction false} UnderWay(p: Setup, s: State, previous: string, schedule: seq<nat>, j: nat, r: nat)
    requires p.Ok() && Split(p, s, previous, schedule, j, r) && j < |schedule|
    ensures var mid, now := p.Exec(s, schedule[..j]), p.Exec(s, schedule);
      && |now.runs| == |mid.runs| && r < |now.runs|
      && (now.runs[r].Start? || p.Done(now, r) ==> Rest(p, now, previous))
      && Backed(p, now, previous)
  {
    var mid, now := p.Exec(s, schedule[..j]), p.Exec(s, schedule);
    hide Setup.Exec, Setup.Step, Text;
    RestFrozen(p, mid, previous, r);
    var i := mid.disk.names[p.path];
    ExecConcat(p, s, schedule[..j], schedule[j..]);
    assert schedule[..j] + schedule[j..] == schedule;
    OneRun(p, mid, r, i, schedule[j..]);
    FrozenExec(p, mid, i, schedule[j..]);
    hide NoneDestroys, Only, Position;
    if now.runs[r].Start? || p.Done(now, r) {
      RestAgain(p, mid, now, r, i, previous);
    }
  }

  lemma SplitLonger(p: Setup, s: State, previous: string, schedule: seq<nat>, j: nat, r: nat)
    requires p.Ok() && schedule != [] && schedule[|schedule| - 1] == r
    requires j < |schedule| - 1 && Split(p, s, previous, schedule[..|schedule| - 1], j, r)
    ensures Split(p, s, previous, schedule, j, r)
  {
    hide Rest, Setup.Exec;
    var k := |schedule| - 1;
    assert schedule[..k][..j] == schedule[..j];
    assert schedule[j..] == schedule[..k][j..] + [schedule[k]];
  }

  lemma {:induction false} SplitStep(p: Setup, s: State, previous: string, schedule: seq<nat>, j0: nat, r0: nat)
    returns (j: nat, r: nat)
    requires p.Ok() && schedule != []
    requires var k := |schedule| - 1;
      Split(p, s, previous, schedule[..k], j0, r0) && Alone(p, p.Exec(s, schedule[..k]), schedule[k])
    ensures Split(p, s, previous, schedule, j, r)
  {
    var k := |schedule| - 1;
    var q, now := schedule[k], p.Exec(s, schedule[..k]);
    assert schedule[..k][..j0] == schedule[..j0];
    if j0 < k {
      UnderWay(p, s, previous, schedule[..k], j0, r0);
    } else {
      assert schedule[..k][..j0] == schedule[..k];
    }
    hide Setup.Exec, Position, Frozen, Backed, Text;
    if j0 < k && !now.runs[r0].Start? && !p.Done(now, r0) {
      assert q == r0;
      hide Split, Rest;
      SplitLonger(p, s, previous, schedule, j0, r0);
      j, r := j0, r0;
    } else if q < |now.runs| && now.runs[q].Start? {
      assert schedule[k..] == [q];
      j, r := k, q;
    } else {
      StillNow(p, s, schedule);
      assert schedule[..|schedule|] == schedule;
      j, r := |schedule|, 0;
    }
  }

  /** A step of a finished run, or of none, changes nothing. */
  lemma StillNow(p: Setup, s: State, schedule: seq<nat>)
    requires p.Ok() && schedule != []
    requires var now, q := p.Exec(s, schedule[..|schedule| - 1]), schedule[|schedule| - 1];
      q < |now.runs| ==> p.Done(now, q)
    ensures p.Exec(s, schedule) == p.Exec(s, schedule[..|schedule| - 1])
  {
  }

  lemma {:induction false} LastRest(p: Setup, s: State, previous: string, schedule: seq<nat>) returns (j: nat, r: nat)
    requires p.Ok() && Rest(p, s, previous) && Serial(p, s, schedule)
    ensures Split(p, s, previous, schedule, j, r)
  {
    hide Rest, Setup.Step, Alone, Only;
    if schedule == [] {
      j, r := 0, 0;
    } else {
      var k := |schedule| - 1;
      assert forall m | 0 <= m < k :: schedule[..k][..m] == schedule[..m] && schedule[..k][m] == schedule[m];
      j, r := LastRest(p, s, previous, schedule[..k]);
      assert Alone(p, p.Exec(s, schedule[..k]), schedule[k]);
      hide Split, Setup.Exec;
      j, r := SplitStep(p, s, previous, schedule, j, r);
    }
  }

  /**
   * Any number of runs, each finished before the next one starts, stopped after any step: a
   * complete backup, the one from before or a whole dump, is at path or at path_old.
   */
  lemma {:induction false} SerialCrashPoints(p: Setup, d: Disk, n: nat, previous: string, schedule: seq<nat>)
    requires p.Ok() && d.Valid() && d.Content(p.path) == Some(previous)
    requires Serial(p, p.Init(d, n), schedule)
    ensures Backed(p, p.Exec(p.Init(d, n), schedule), previous)
  {
    var j, r := LastRest(p, p.Init(d, n), previous, schedule);
    if j < |schedule| {
      UnderWay(p, p.Init(d, n), previous, schedule, j, r);
    } else {
      assert schedule[..j] == schedule;
    }
    hide Setup.Exec, Text;
  }

  // ---------- when any complete backup is left ----------

  /** Equal as int64, where arithmetic is modulo 2^64. */
  predicate Congruent(x: int, y: int) {
    (x - y) % TWO_64 == 0
  }

  /**
   * The file to which the runs of w wrote is worth a backup of s: its furthest run got to the end,
   * and what all of them added to each counter is its value, modulo 2^64.
   */
  ghost predicate WorthBackup(s: Store, w: seq<nat>, n: nat) {
    && Furthest(w) == |Dump(s)|
    && forall i | 0 <= i < |s.counters| ::
      Congruent(Contributed(Same(Dump(s)), w, s.counters[i].name, n), s.counters[i].value)
  }

  /** A file that has not got to the end of the dump lacks a name. */
  lemma NotWorth(s: Store, w: seq<nat>)
    requires WellFormed(s) && (forall r :: Count(w, r) <= |Dump(s)|)
    requires Replay(EMPTY, Shuffle(Same(Dump(s)), w)) == s
    ensures Furthest(w) == |Dump(s)|
  {
    var us := Shuffle(Same(Dump(s)), w);
    ReplayNames(EMPTY, us);
    DumpMeaning(s, "");
    assert Names(EMPTY.gauges) == [] && Names(EMPTY.counters) == [];
    assert |Dump(s)| == |s.gauges| + |s.counters|;
    hide Dump, Shuffle, Count, Replay;
    NamesShuffle(Dump(s), w);
    NamesLength(Dump(s)[..Furthest(w)]);
  }

  lemma SameCounter(s: Store, w: seq<nat>, n: nat, i: nat)
    requires Covers(s, w) && (forall r <- w :: r < n) && i < |s.counters|
    ensures var c := s.counters[i].name;
      var sum := Contributed(Same(Dump(s)), w, c, n);
      && Lookup<int64>(Replay(EMPTY, Shuffle(Same(Dump(s)), w)).counters, c) == Some(Wrap(sum))
      && Lookup<int64>(s.counters, c) == Some(s.counters[i].value)
      && (Wrap(sum) == s.counters[i].value <==> Congruent(sum, s.counters[i].value))
  {
    var c := s.counters[i].name;
    assert Unique(s.counters);
    hide *;
    LookupAt<int64>(s.counters, i);
    CounterRestored(s, w, n, c);
    WrapsTo(Contributed(Same(Dump(s)), w, c, n), s.counters[i].value);
  }

  lemma WrapsTo(x: int, v: int64)
    ensures Wrap(x) == v <==> Congruent(x, v)
  {
    if Congruent(x, v) {
      WrapUnique(x, v);
    }
  }

  lemma CounterRestored(s: Store, w: seq<nat>, n: nat, c: string)
    requires Covers(s, w) && forall r <- w :: r < n
    ensures Lookup<int64>(Replay(EMPTY, Shuffle(Same(Dump(s)), w)).counters, c)
         == if Lookup<int64>(s.counters, c).Some? then Some(Wrap(Contributed(Same(Dump(s)), w, c, n))) else None
  {
    hide *;
    SumShuffle(Same(Dump(s)), w, c, n);
    CounterKnown(s, w, c);
    FromEmpty(Shuffle(Same(Dump(s)), w), c);
  }

  /** Whatever the runs have written to a file so far restores the storage exactly if it is worth a backup. */
  lemma {:induction false} WorthExactly(s: Store, w: seq<nat>, n: nat)
    requires WellFormed(s) && (forall r <- w :: r < n) && (forall r :: Count(w, r) <= |Dump(s)|)
    ensures Replay(EMPTY, Shuffle(Same(Dump(s)), w)) == s <==> WorthBackup(s, w, n)
  {
    var got := Replay(EMPTY, Shuffle(Same(Dump(s)), w));
    hide Shuffle, Replay, Dump, Contributed, Count, Furthest, Wrap;
    if got == s {
      NotWorth(s, w);
      forall i | 0 <= i < |s.counters|
        ensures Congruent(Contributed(Same(Dump(s)), w, s.counters[i].name, n), s.counters[i].value)
      {
        SameCounter(s, w, n, i);
      }
    } else if WorthBackup(s, w, n) {
      WorthRestores(s, w, n);
    }
  }

  lemma WorthRestores(s: Store, w: seq<nat>, n: nat)
    requires (forall r <- w :: r < n) && Covers(s, w) && WorthBackup(s, w, n)
    ensures Replay(EMPTY, Shuffle(Same(Dump(s)), w)) == s
  {
    var got := Replay(EMPTY, Shuffle(Same(Dump(s)), w));
    forall c ensures Lookup<int64>(got.counters, c) == Lookup<int64>(s.counters, c) {
      WorthCounter(s, w, n, c);
    }
    hide *;
    forall g ensures Lookup(got.gauges, g) == Lookup(s.gauges, g) {
      RestoredGauge(s, w, g);
    }
    RestoredInOrder(s, w);
    Extensional(got.gauges, s.gauges);
    Extensional<int64>(got.counters, s.counters);
  }

  lemma WorthCounter(s: Store, w: seq<nat>, n: nat, c: string)
    requires (forall r <- w :: r < n) && Covers(s, w) && WorthBackup(s, w, n)
    ensures Lookup<int64>(Replay(EMPTY, Shuffle(Same(Dump(s)), w)).counters, c) == Lookup<int64>(s.counters, c)
  {
    hide Shuffle, Replay, Dump, Contributed, Count, Furthest, Wrap, Lookup;
    CounterRestored(s, w, n, c);
    LookupKnown<int64>(s.counters, c);
    if Lookup<int64>(s.counters, c).Some? {
      var i :| 0 <= i < |s.counters| && Names(s.counters)[i] == c;
      SameCounter(s, w, n, i);
    }
  }

  lemma RestoredGauge(s: Store, w: seq<nat>, g: string)
    requires Covers(s, w)
    ensures Lookup(Replay(EMPTY, Shuffle(Same(Dump(s)), w)).gauges, g) == Lookup(s.gauges, g)
  {
    hide *;
    GaugeOfShuffle(s, w, g);
    FromEmpty(Shuffle(Same(Dump(s)), w), g);
  }

  lemma RestoredInOrder(s: Store, w: seq<nat>)
    requires Covers(s, w)
    ensures var got := Replay(EMPTY, Shuffle(Same(Dump(s)), w));
      && Unique(got.gauges) && Unique(got.counters) && Unique(s.gauges) && Unique(s.counters)
      && Names(got.gauges) == Names(s.gauges) && Names(got.counters) == Names(s.counters)
  {
    assert Names(EMPTY.gauges) == [] && Names(EMPTY.counters) == [];
    hide Shuffle, Replay, Dump, Names, Count, Furthest;
    WholeNames(s, w);
    ReplayNames(EMPTY, Shuffle(Same(Dump(s)), w));
  }

  /** Restoring this text gives the storage back. */
  ghost predicate GivesBack(c: Codec, text: string, s: Store) {
    Restorable(c, text) && Replay(EMPTY, Restored(c, text)) == s
  }

  lemma LogBounds(p: Setup, s: Store, t: State, i: Inode)
    requires p.dumps == Same(Dump(s)) && CountInv(p.dumps, t) && i in t.log
    ensures (forall r <- t.log[i] :: r < |t.runs|) && forall r :: Count(t.log[i], r) <= |Dump(s)|
  {
    hide Dump;
    forall r: nat ensures Count(t.log[i], r) <= |Dump(s)| {
      if r < |t.runs| {
        assert Count(t.log[i], r) == Contribution(t, r, i);
      } else {
        CountAbsent(t.log[i], r);
      }
    }
  }

  /**
   * After any step of any overlapping runs, finished or not: a file made by the runs gives the
   * storage back if and only if its log says so.
   */
  lemma {:induction false} FileExactly(c: Codec, path: string, s: Store, d: Disk, n: nat, schedule: seq<nat>, i: Inode)
    requires Sound(c) && d.Valid() && WellFormed(s) && AllWritable(Dump(s))
    requires var p := Setup(c, path, Same(Dump(s))); i in p.Exec(p.Init(d, n), schedule).log
    ensures var p := Setup(c, path, Same(Dump(s)));
      var t := p.Exec(p.Init(d, n), schedule);
      i in t.disk.data && (GivesBack(c, t.disk.data[i], s) <==> WorthBackup(s, t.log[i], n))
  {
    var p := Setup(c, path, Same(Dump(s)));
    var t := p.Exec(p.Init(d, n), schedule);
    InitInv(p, d, n);
    ExecInv(p, p.Init(d, n), schedule);
    hide Setup.Exec, Restored, Restorable, Replay, Shuffle, WorthBackup;
    FileRestores(p, t, i);
    LogBounds(p, s, t, i);
    WorthExactly(s, t.log[i], n);
  }

  /** At path or path_old there is the file from before, or one made by the runs that gives the storage back. */
  ghost predicate CompleteLeft(p: Setup, s: Store, t: State, previous: Inode) {
    exists i | Reachable(p, t, i) ::
      i == previous || (i in t.log && i in t.disk.data && GivesBack(p.codec, t.disk.data[i], s))
  }

  /**
   * After any step of any overlapping runs over a frozen storage: a complete backup is left if and
   * only if no step took the last name from the previous one, or path or path_old names a file of
   * the runs that is worth a backup.
   */
  lemma {:induction false} CompleteLeftExactly(
    c: Codec, path: string, s: Store, d: Disk, n: nat, previous: Inode, schedule: seq<nat>)
    requires Sound(c) && d.Valid() && WellFormed(s) && AllWritable(Dump(s))
    requires Links(d, path, previous) || Links(d, OldPath(path), previous)
    ensures var p := Setup(c, path, Same(Dump(s)));
      var t := p.Exec(p.Init(d, n), schedule);
      CompleteLeft(p, s, t, previous)
      <==> NoneDestroys(p, p.Init(d, n), previous, schedule)
           || exists i | Reachable(p, t, i) :: i in t.log && WorthBackup(s, t.log[i], n)
  {
    var p := Setup(c, path, Same(Dump(s)));
    var t := p.Exec(p.Init(d, n), schedule);
    hide Setup.Exec, GivesBack, WorthBackup, NoneDestroys;
    SurvivesExactly(p, d, n, previous, schedule);
    hide Reachable;
    forall i <- t.log
      ensures i in t.disk.data && (GivesBack(c, t.disk.data[i], s) <==> WorthBackup(s, t.log[i], n))
    {
      FileExactly(c, path, s, d, n, schedule, i);
    }
  }
}
