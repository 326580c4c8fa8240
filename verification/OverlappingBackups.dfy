/**
 * Several performBackup runs at once, as at shutdown (cmd/server/main.go): the mutex inside
 * performBackup is local to the call, so only its file-system steps are atomic.
 */
module OverlappingBackups {
  import opened Wrappers
  import opened Numbers
  import opened Storage
  import opened Codec
  import opened FileSystem
  import opened Journal
  import opened Backup
  import opened Recovery

  // ---------- the transition system ----------

  /** Where a run is: before the remove, before the rename, before the open, or k records written. */
  datatype Run = Start | Removed | Renamed | Writing(inode: Inode, written: nat)

  /** The disk, the runs, and (history only) for each inode they created, who wrote each record. */
  datatype State = State(disk: Disk, runs: seq<Run>, log: map<Inode, seq<nat>>)

  /** The records each run writes if it gets to its end; runs may find the storage changed. */
  type Dumps = nat -> seq<Update>

  /** Over a frozen storage all runs write the same dump. */
  function Same(dump: seq<Update>): Dumps {
    (r: nat) => dump
  }

  /** What stays fixed: the codec, the path and what each run writes. */
  datatype Setup = Setup(codec: Codec, path: string, dumps: Dumps) {
    ghost predicate Ok() {
      Sound(codec) && forall r: nat :: AllWritable(dumps(r))
    }

    function Init(d: Disk, n: nat): State {
      State(d, seq(n, _ => Start), map[])
    }

    predicate Done(s: State, r: nat)
      requires r < |s.runs|
    {
      s.runs[r].Writing? && s.runs[r].written >= |dumps(r)|
    }

    /** One step of run r; a finished run does nothing. */
    function Step(s: State, r: nat): State
      requires Ok()
    {
      if r >= |s.runs| then s
      else
        match s.runs[r]
        case Start => s.(disk := s.disk.Unlink(OldPath(path)), runs := s.runs[r := Removed])
        case Removed => s.(disk := s.disk.Move(path, OldPath(path)), runs := s.runs[r := Renamed])
        case Renamed =>
          var (d, i) := s.disk.Open(path);
          State(d, s.runs[r := Writing(i, 0)], if i in s.log then s.log else s.log[i := []])
        case Writing(i, k) =>
          if k >= |dumps(r)| || i !in s.disk.data || i !in s.log then s
          else
            assert dumps(r)[k] in dumps(r);
            State(s.disk.Append(i, LineOf(codec, dumps(r)[k]) + "\n"),
                  s.runs[r := Writing(i, k + 1)], s.log[i := s.log[i] + [r]])
    }

    /** The state after the runs are scheduled in this order. */
    function Exec(s: State, schedule: seq<nat>): State
      requires Ok()
    {
      if schedule == [] then s else Step(Exec(s, schedule[..|schedule| - 1]), schedule[|schedule| - 1])
    }

    ghost predicate Finished(s: State) {
      forall r | 0 <= r < |s.runs| :: Done(s, r)
    }
  }

  // ---------- shuffles ----------

  function Count(w: seq<nat>, r: nat): nat {
    if w == [] then 0 else Count(w[..|w| - 1], r) + if w[|w| - 1] == r then 1 else 0
  }

  /** The records in a file to which the runs of w each wrote, in turn, their next record. */
  function Shuffle(dumps: Dumps, w: seq<nat>): seq<Update> {
    if w == [] then []
    else
      var r := w[|w| - 1];
      var k := Count(w[..|w| - 1], r);
      Shuffle(dumps, w[..|w| - 1]) + if k < |dumps(r)| then [dumps(r)[k]] else []
  }

  lemma {:induction false} ShuffleWritable(dumps: Dumps, w: seq<nat>)
    requires forall r: nat :: AllWritable(dumps(r))
    ensures AllWritable(Shuffle(dumps, w))
  {
    if w != [] {
      ShuffleWritable(dumps, w[..|w| - 1]);
    }
  }

  // ---------- the invariant ----------

  /** The number of runs writing to inode i. */
  function Landed(runs: seq<Run>, i: Inode): nat {
    if runs == [] then 0
    else Landed(runs[..|runs| - 1], i)
         + if runs[|runs| - 1].Writing? && runs[|runs| - 1].inode == i then 1 else 0
  }

  predicate PastRename(r: Run) {
    r.Renamed? || r.Writing?
  }

  /** What run r contributed to inode i so far. */
  function Contribution(s: State, r: nat, i: Inode): nat
    requires r < |s.runs|
  {
    if s.runs[r].Writing? && s.runs[r].inode == i then s.runs[r].written else 0
  }

  /** Every inode made by the runs holds the shuffle its log describes. */
  ghost predicate TextInv(p: Setup, s: State)
    requires p.Ok()
  {
    && s.disk.Valid()
    && (forall i <- s.log ::
          && i in s.disk.data
          && AllWritable(Shuffle(p.dumps, s.log[i]))
          && s.disk.data[i] == Text(p.codec, Shuffle(p.dumps, s.log[i])))
  }

  /** The log of an inode holds exactly the records its runs have written. */
  ghost predicate CountInv(dumps: Dumps, s: State) {
    && (forall r | 0 <= r < |s.runs| && s.runs[r].Writing? ::
          s.runs[r].inode in s.log && s.runs[r].written <= |dumps(r)|)
    && (forall i <- s.log ::
          && (forall r <- s.log[i] :: r < |s.runs|)
          && (forall r | 0 <= r < |s.runs| :: Count(s.log[i], r) == Contribution(s, r, i)))
  }

  /** Once a run has renamed, path can only name an inode that some run has opened. */
  ghost predicate NameInv(p: Setup, s: State) {
    && (forall i <- s.log :: exists r | 0 <= r < |s.runs| :: s.runs[r].Writing? && s.runs[r].inode == i)
    && ((exists r | 0 <= r < |s.runs| :: PastRename(s.runs[r])) && p.path in s.disk.names
        ==> s.disk.names[p.path] in s.log)
    && (p.path !in s.disk.names && (exists r | 0 <= r < |s.runs| :: s.runs[r].Writing?)
        ==> exists r | 0 <= r < |s.runs| :: s.runs[r].Renamed?)
  }

  ghost predicate Inv(p: Setup, s: State)
    requires p.Ok()
  {
    TextInv(p, s) && CountInv(p.dumps, s) && NameInv(p, s)
  }

  lemma InitInv(p: Setup, d: Disk, n: nat)
    requires p.Ok() && d.Valid()
    ensures Inv(p, p.Init(d, n)) && |p.Init(d, n).runs| == n
  {
  }

  lemma NameStep(p: Setup, s: State, r: nat)
    requires p.Ok() && Inv(p, s)
    ensures NameInv(p, p.Step(s, r))
  {
    hide Shuffle, Count, Contribution;
    OldPathDiffers(p.path);
    var t := p.Step(s, r);
    if r < |s.runs| && t != s {
      assert PastRename(s.runs[r]) || s.runs[r].Start? || s.runs[r].Removed?;
      assert forall q | 0 <= q < |s.runs| && q != r :: t.runs[q] == s.runs[q];
      forall i <- t.log ensures exists q | 0 <= q < |t.runs| :: t.runs[q].Writing? && t.runs[q].inode == i {
        if i in s.log {
          var q :| 0 <= q < |s.runs| && s.runs[q].Writing? && s.runs[q].inode == i;
          assert t.runs[q].Writing? && t.runs[q].inode == i;
        } else {
          assert t.runs[r].Writing? && t.runs[r].inode == i;
        }
      }
      if p.path !in t.disk.names && !s.runs[r].Removed? {
        assert p.path !in s.disk.names && !s.runs[r].Renamed?;
        if exists q | 0 <= q < |t.runs| :: t.runs[q].Writing? {
          var q :| 0 <= q < |t.runs| && t.runs[q].Writing?;
          assert s.runs[q].Writing?;
          var z :| 0 <= z < |s.runs| && s.runs[z].Renamed?;
          assert t.runs[z].Renamed?;
        }
      } else if s.runs[r].Removed? {
        assert t.runs[r].Renamed?;
      }
    }
  }

  lemma CountStep(p: Setup, s: State, r: nat)
    requires p.Ok() && Inv(p, s)
    ensures CountInv(p.dumps, p.Step(s, r))
  {
    hide CountInv;
    var t := p.Step(s, r);
    if r < |s.runs| && t != s {
      if s.runs[r].Renamed? {
        CountOpen(p, s, r);
      } else if s.runs[r].Writing? {
        CountWrite(p, s, r);
      } else {
        CountBefore(p, s, r);
      }
    }
  }

  lemma CountBefore(p: Setup, s: State, r: nat)
    requires p.Ok() && Inv(p, s) && r < |s.runs| && (s.runs[r].Start? || s.runs[r].Removed?)
    ensures CountInv(p.dumps, p.Step(s, r))
  {
    hide Shuffle, Count, TextInv, NameInv;
    var t := p.Step(s, r);
    assert t.log == s.log && |t.runs| == |s.runs|;
    forall i <- t.log, q | 0 <= q < |t.runs| ensures Count(t.log[i], q) == Contribution(t, q, i) {
      assert Count(s.log[i], q) == Contribution(s, q, i);
    }
  }

  lemma CountOpen(p: Setup, s: State, r: nat)
    requires p.Ok() && Inv(p, s) && r < |s.runs| && s.runs[r].Renamed?
    ensures CountInv(p.dumps, p.Step(s, r))
  {
    hide Shuffle;
    var t := p.Step(s, r);
    var i := t.runs[r].inode;
    forall j <- t.log, q | 0 <= q < |t.runs| ensures Count(t.log[j], q) == Contribution(t, q, j) {
      if j in s.log {
        assert Count(s.log[j], q) == Contribution(s, q, j);
      } else {
        assert q != r && s.runs[q].Writing? ==> s.runs[q].inode in s.log;
      }
    }
  }

  lemma {:induction false} CountWrite(p: Setup, s: State, r: nat)
    requires p.Ok() && Inv(p, s) && r < |s.runs| && s.runs[r].Writing? && p.Step(s, r) != s
    ensures CountInv(p.dumps, p.Step(s, r))
  {
    hide Shuffle, TextInv, NameInv;
    var t, i := p.Step(s, r), s.runs[r].inode;
    assert t.log == s.log[i := s.log[i] + [r]];
    assert t.runs == s.runs[r := Writing(i, s.runs[r].written + 1)];
    hide Count, Contribution;
    forall j <- t.log, q | 0 <= q < |t.runs| ensures Count(t.log[j], q) == Contribution(t, q, j) {
      CountOne(p.dumps, s, t, r, j, q);
    }
  }

  /** One write moves one run by one record, and its inode's log with it. */
  lemma CountOne(dumps: Dumps, s: State, t: State, r: nat, j: Inode, q: nat)
    requires CountInv(dumps, s) && r < |s.runs| && s.runs[r].Writing? && j in s.log && q < |s.runs|
    requires s.runs[r].inode in s.log && t.log == s.log[s.runs[r].inode := s.log[s.runs[r].inode] + [r]]
    requires t.runs == s.runs[r := Writing(s.runs[r].inode, s.runs[r].written + 1)]
    ensures Count(t.log[j], q) == Contribution(t, q, j)
  {
    var i := s.runs[r].inode;
    assert (s.log[i] + [r])[..|s.log[i]|] == s.log[i];
    assert Count(s.log[j], q) == Contribution(s, q, j);
  }

  lemma TextStep(p: Setup, s: State, r: nat)
    requires p.Ok() && Inv(p, s)
    ensures TextInv(p, p.Step(s, r))
  {
    hide Text;
    var t := p.Step(s, r);
    if r < |s.runs| && t != s {
      match s.runs[r]
      case Start =>
      case Removed =>
      case Renamed =>
        TextNone(p.codec);
      case Writing(i, k) =>
        var w := s.log[i];
        assert (w + [r])[..|w|] == w;
        assert Count(w, r) == k;
        assert Shuffle(p.dumps, w + [r]) == Shuffle(p.dumps, w) + [p.dumps(r)[k]];
        TextConcat(p.codec, Shuffle(p.dumps, w), [p.dumps(r)[k]]);
        TextOne(p.codec, p.dumps(r)[k]);
    }
  }

  lemma {:induction false} ExecInv(p: Setup, s: State, schedule: seq<nat>)
    requires p.Ok() && Inv(p, s)
    ensures Inv(p, p.Exec(s, schedule)) && |p.Exec(s, schedule).runs| == |s.runs|
  {
    hide Inv;
    if schedule != [] {
      var k := |schedule| - 1;
      ExecInv(p, s, schedule[..k]);
      StepInv(p, p.Exec(s, schedule[..k]), schedule[k]);
    }
  }

  lemma StepInv(p: Setup, s: State, r: nat)
    requires p.Ok() && Inv(p, s)
    ensures Inv(p, p.Step(s, r)) && |p.Step(s, r).runs| == |s.runs|
  {
    hide TextInv, CountInv, NameInv;
    NameStep(p, s, r);
    CountStep(p, s, r);
    TextStep(p, s, r);
  }

  // ---------- what a shuffle restores to ----------

  /** The sum of the counter's deltas over what each of the first n runs contributed. */
  function Contributed(dumps: Dumps, w: seq<nat>, c: string, n: nat): int {
    if n == 0 then 0
    else Contributed(dumps, w, c, n - 1) + Sum(Prefix(dumps(n - 1), Count(w, n - 1)), c)
  }

  function Prefix(dump: seq<Update>, k: nat): seq<Update> {
    if k < |dump| then dump[..k] else dump
  }

  lemma {:induction false} ContributedSnoc(dumps: Dumps, w: seq<nat>, r: nat, c: string, n: nat)
    ensures var k := Count(w, r);
      Contributed(dumps, w + [r], c, n)
      == Contributed(dumps, w, c, n) + if r < n && k < |dumps(r)| then DeltaFor(dumps(r)[k], c) else 0
  {
    assert (w + [r])[..|w|] == w;
    if n > 0 {
      ContributedSnoc(dumps, w, r, c, n - 1);
      if r == n - 1 {
        PrefixSum(dumps(r), Count(w, r), c);
      }
    }
  }

  lemma PrefixSum(dump: seq<Update>, k: nat, c: string)
    ensures Sum(Prefix(dump, k + 1), c) == Sum(Prefix(dump, k), c) + if k < |dump| then DeltaFor(dump[k], c) else 0
  {
    if k < |dump| {
      assert Prefix(dump, k + 1)[..k] == Prefix(dump, k) && Prefix(dump, k + 1)[k] == dump[k];
    }
  }

  /** Each run's contribution is summed on its own: the interleaving does not matter. */
  lemma {:induction false} SumShuffle(dumps: Dumps, w: seq<nat>, c: string, n: nat)
    requires forall r <- w :: r < n
    ensures Sum(Shuffle(dumps, w), c) == Contributed(dumps, w, c, n)
  {
    if w == [] {
      NothingContributed(dumps, c, n);
    } else {
      var w', r := w[..|w| - 1], w[|w| - 1];
      var k := Count(w', r);
      assert w == w' + [r];
      assert forall q <- w' :: q in w;
      SumShuffle(dumps, w', c, n);
      ContributedSnoc(dumps, w', r, c, n);
      SumConcat(Shuffle(dumps, w'), if k < |dumps(r)| then [dumps(r)[k]] else [], c);
      assert k < |dumps(r)| ==> [dumps(r)[k]][..0] == [];
      assert r in w;
    }
  }

  lemma {:induction false} NothingContributed(dumps: Dumps, c: string, n: nat)
    ensures Contributed(dumps, [], c, n) == 0
  {
    if n > 0 {
      NothingContributed(dumps, c, n - 1);
      assert Prefix(dumps(n - 1), 0) == [];
    }
  }

  /** How far the run that is furthest ahead has got. */
  function Furthest(w: seq<nat>): nat {
    if w == [] then 0
    else
      var w', r := w[..|w| - 1], w[|w| - 1];
      if Count(w', r) + 1 > Furthest(w') then Count(w', r) + 1 else Furthest(w')
  }

  lemma {:induction false} FurthestBounds(w: seq<nat>, m: nat)
    requires forall r :: Count(w, r) <= m
    ensures forall r :: Count(w, r) <= Furthest(w)
    ensures Furthest(w) <= m
  {
    if w != [] {
      var w' := w[..|w| - 1];
      assert forall r :: Count(w', r) <= Count(w, r);
      FurthestBounds(w', m);
      assert Count(w, w[|w| - 1]) == Count(w', w[|w| - 1]) + 1;
    }
  }

  lemma {:induction false} KnownName(us: seq<Update>, i: nat)
    requires i < |us|
    ensures us[i].SetGauge? ==> us[i].name in GaugeNames(us)
    ensures us[i].AddDelta? ==> us[i].name in CounterNames(us)
  {
    if i < |us| - 1 {
      KnownName(us[..|us| - 1], i);
    }
  }

  /** In a dump no name occurs twice. */
  ghost predicate Once(dump: seq<Update>) {
    Distinct(GaugeNames(dump)) && Distinct(CounterNames(dump))
  }

  lemma OncePrefix(dump: seq<Update>, k: nat)
    requires Once(dump) && k < |dump|
    ensures Once(dump[..k + 1])
  {
    assert dump == dump[..k + 1] + dump[k + 1..];
    NamesConcat(dump[..k + 1], dump[k + 1..]);
    var a, b := GaugeNames(dump[..k + 1]), CounterNames(dump[..k + 1]);
    assert forall i | 0 <= i < |a| :: a[i] == GaugeNames(dump)[i];
    assert forall i | 0 <= i < |b| :: b[i] == CounterNames(dump)[i];
  }

  /** A shuffle introduces the names in dump order, up to where the furthest run has got. */
  lemma {:induction false} NamesShuffle(dump: seq<Update>, w: seq<nat>)
    requires Once(dump) && forall r :: Count(w, r) <= |dump|
    ensures Furthest(w) <= |dump|
    ensures Extend([], GaugeNames(Shuffle(Same(dump), w))) == GaugeNames(dump[..Furthest(w)])
    ensures Extend([], CounterNames(Shuffle(Same(dump), w))) == CounterNames(dump[..Furthest(w)])
  {
    FurthestBounds(w, |dump|);
    if w != [] {
      var w', r := w[..|w| - 1], w[|w| - 1];
      var k, m := Count(w', r), Furthest(w');
      assert forall q :: Count(w', q) <= Count(w, q);
      NamesShuffle(dump, w');
      FurthestBounds(w', |dump|);
      assert Count(w, r) == k + 1;
      NamesGrow(dump, Shuffle(Same(dump), w'), k, m);
    }
  }

  /** Appending record k to records that cover the first m names covers the first max(k + 1, m). */
  lemma {:induction false} NamesGrow(dump: seq<Update>, us: seq<Update>, k: nat, m: nat)
    requires Once(dump) && k <= m <= |dump| && k < |dump|
    requires Extend([], GaugeNames(us)) == GaugeNames(dump[..m])
    requires Extend([], CounterNames(us)) == CounterNames(dump[..m])
    ensures var m' := if k == m then m + 1 else m;
      && Extend([], GaugeNames(us + [dump[k]])) == GaugeNames(dump[..m'])
      && Extend([], CounterNames(us + [dump[k]])) == CounterNames(dump[..m'])
  {
    hide GaugeNames, CounterNames, Extend;
    NamesConcat(us, [dump[k]]);
    OneName(dump[k]);
    ExtendOne([], GaugeNames(us), dump[k]);
    ExtendOne([], CounterNames(us), dump[k]);
    if k == m {
      OncePrefix(dump, m);
      assert dump[..m + 1] == dump[..m] + [dump[m]];
      NamesConcat(dump[..m], [dump[m]]);
      LastIsNew(GaugeNames(dump[..m]), dump[m].name);
      LastIsNew(CounterNames(dump[..m]), dump[m].name);
      assert GaugeNames(dump[..m]) + [] == GaugeNames(dump[..m]);
      assert CounterNames(dump[..m]) + [] == CounterNames(dump[..m]);
    } else {
      KnownName(dump[..m], k);
    }
  }

  lemma OneName(u: Update)
    ensures GaugeNames([u]) == if u.SetGauge? then [u.name] else []
    ensures CounterNames([u]) == if u.AddDelta? then [u.name] else []
  {
    assert [u][..0] == [];
  }

  lemma ExtendOne(ns: seq<string>, ms: seq<string>, u: Update)
    ensures Extend(ns, ms + [u.name]) == Add(Extend(ns, ms), u.name) && Extend(ns, ms + []) == Extend(ns, ms)
  {
    ExtendSnoc(ns, ms, u.name);
    assert ms + [] == ms;
  }

  lemma LastIsNew(ns: seq<string>, n: string)
    ensures Distinct(ns + [n]) ==> n !in ns
  {
    if n in ns {
      var i :| 0 <= i < |ns| && ns[i] == n;
      assert (ns + [n])[i] == (ns + [n])[|ns|];
    }
  }

  lemma {:induction false} LastGaugeMember(us: seq<Update>, n: string)
    ensures LastGauge(us, n).Some? <==> n in GaugeNames(us)
    ensures LastGauge(us, n).Some? ==> SetGauge(n, LastGauge(us, n).value) in us
  {
    if us != [] {
      var k := |us| - 1;
      LastGaugeMember(us[..k], n);
      assert us == us[..k] + [us[k]];
      assert us[k] in us;
      assert forall u <- us[..k] :: u in us;
    }
  }

  lemma {:induction false} OnlyGauge(us: seq<Update>, n: string, v: Float64)
    requires Once(us) && SetGauge(n, v) in us
    ensures LastGauge(us, n) == Some(v)
  {
    var k := |us| - 1;
    assert us == us[..k] + [us[k]];
    if us[k] != SetGauge(n, v) {
      if k > 0 {
        OncePrefix(us, k - 1);
      }
      OnlyGauge(us[..k], n, v);
      LastGaugeMember(us[..k], n);
      LastIsNew(GaugeNames(us[..k]), us[k].name);
    }
  }

  /** Every record of a shuffle is one of some run that wrote to the file. */
  lemma {:induction false} ShuffleMember(dumps: Dumps, w: seq<nat>, u: Update) returns (r: nat)
    requires u in Shuffle(dumps, w)
    ensures r in w && u in dumps(r)
  {
    r := w[|w| - 1];
    if u !in Shuffle(dumps, w[..|w| - 1]) {
      assert u == dumps(r)[Count(w[..|w| - 1], r)];
    } else {
      r := ShuffleMember(dumps, w[..|w| - 1], u);
    }
  }

  /** And every record a run has got to is in it. */
  lemma {:induction false} MemberShuffle(dumps: Dumps, w: seq<nat>, r: nat, k: nat)
    requires k < Count(w, r) && k < |dumps(r)|
    ensures dumps(r)[k] in Shuffle(dumps, w)
  {
    if k < Count(w[..|w| - 1], r) {
      MemberShuffle(dumps, w[..|w| - 1], r, k);
    }
  }

  /** The sum of what the runs that landed on the inode each hold for the counter. */
  function LandedSum(dumps: Dumps, runs: seq<Run>, i: Inode, c: string): int {
    if runs == [] then 0
    else
      var r := |runs| - 1;
      LandedSum(dumps, runs[..r], i, c)
      + if runs[r].Writing? && runs[r].inode == i then Sum(dumps(r), c) else 0
  }

  lemma {:induction false} WholeDumps(s: State, dumps: Dumps, i: Inode, c: string, n: nat)
    requires n <= |s.runs| && i in s.log
    requires forall r | 0 <= r < |s.runs| :: s.runs[r].Writing? && s.runs[r].written == |dumps(r)|
    requires forall r | 0 <= r < |s.runs| :: Count(s.log[i], r) == Contribution(s, r, i)
    ensures Contributed(dumps, s.log[i], c, n) == LandedSum(dumps, s.runs[..n], i, c)
  {
    if n > 0 {
      WholeDumps(s, dumps, i, c, n - 1);
      assert s.runs[..n][..n - 1] == s.runs[..n - 1];
      assert Prefix(dumps(n - 1), 0) == [] && Sum([], c) == 0;
      hide Sum;
    }
  }

  lemma {:induction false} SameSums(dump: seq<Update>, runs: seq<Run>, i: Inode, c: string)
    ensures LandedSum(Same(dump), runs, i, c) == Landed(runs, i) * Sum(dump, c)
  {
    if runs != [] {
      var k := |runs| - 1;
      SameSums(dump, runs[..k], i, c);
      var before := Landed(runs[..k], i);
      assert (before + 1) * Sum(dump, c) == before * Sum(dump, c) + Sum(dump, c);
    }
  }

  lemma {:induction false} SomeoneLanded(runs: seq<Run>, i: Inode, r: nat)
    requires r < |runs| && runs[r].Writing? && runs[r].inode == i
    ensures Landed(runs, i) >= 1
  {
    if r < |runs| - 1 {
      SomeoneLanded(runs[..|runs| - 1], i, r);
    }
  }

  // ---------- the theorems ----------

  /** The store with every counter multiplied by k, wrapped. */
  function Scaled(s: Store, k: nat): Store {
    s.(counters := seq(|s.counters|, i requires 0 <= i < |s.counters| =>
      Entry(s.counters[i].name, Wrap(k * s.counters[i].value))))
  }

  lemma ScaledLookup(s: Store, k: nat, n: string)
    requires WellFormed(s)
    ensures Unique(Scaled(s, k).counters) && Names(Scaled(s, k).counters) == Names(s.counters)
    ensures Lookup(Scaled(s, k).counters, n)
         == if Lookup(s.counters, n).Some? then Some(Wrap(k * CounterValue(s.counters, n))) else None
  {
    var cs := Scaled(s, k).counters;
    assert forall i | 0 <= i < |cs| :: cs[i].name == s.counters[i].name;
    assert Names(cs) == Names(s.counters);
    LookupKnown<int64>(cs, n);
    LookupKnown<int64>(s.counters, n);
    if n in Names(cs) {
      var i :| 0 <= i < |cs| && Names(cs)[i] == n;
      LookupAt<int64>(cs, i);
      LookupAt<int64>(s.counters, i);
    }
  }

  /**
   * Any number of overlapping runs over a frozen storage, in any interleaving: once all are done,
   * the path holds a shuffle of k whole dumps, k >= 1 being the number of runs that opened its
   * inode, and restoring it multiplies every counter by k and changes nothing else.
   */
  lemma OverlappingRuns(c: Codec, path: string, s: Store, d: Disk, n: nat, schedule: seq<nat>)
    requires Sound(c) && d.Valid() && WellFormed(s) && AllWritable(Dump(s)) && n >= 1
    requires var p := Setup(c, path, Same(Dump(s))); p.Finished(p.Exec(p.Init(d, n), schedule))
    ensures var p := Setup(c, path, Same(Dump(s)));
      var end := p.Exec(p.Init(d, n), schedule);
      && path in end.disk.names
      && var k, text := Landed(end.runs, end.disk.names[path]), end.disk.Content(path).GetOr("");
      && 1 <= k <= n
      && Restorable(c, text)
      && Replay(EMPTY, Restored(c, text)) == Scaled(s, k)
  {
    var p := Setup(c, path, Same(Dump(s)));
    InitInv(p, d, n);
    ExecInv(p, p.Init(d, n), schedule);
    EndState(p, s, p.Exec(p.Init(d, n), schedule));
  }

  lemma {:induction false} EndState(p: Setup, s: Store, end: State)
    requires p.Ok() && Inv(p, end) && p.Finished(end) && |end.runs| >= 1
    requires WellFormed(s) && p.dumps == Same(Dump(s))
    ensures p.path in end.disk.names
    ensures var k, text := Landed(end.runs, end.disk.names[p.path]), end.disk.Content(p.path).GetOr("");
      && 1 <= k <= |end.runs|
      && Restorable(p.codec, text)
      && Replay(EMPTY, Restored(p.codec, text)) == Scaled(s, k)
  {
    var i, w, r := FinalInode(p, end);
    hide Setup.Done, Setup.Finished, Text, Restorable, Restored, Shuffle, TextInv, NameInv;
    SomeoneLanded(end.runs, i, r);
    LandedBound(end.runs, i);
    ShuffleRestores(s, end, i);
  }

  /** When all runs are done, the path names a file made by them, and restoring it replays its shuffle. */
  lemma FinalInode(p: Setup, end: State) returns (i: Inode, w: seq<nat>, r: nat)
    requires p.Ok() && Inv(p, end) && p.Finished(end) && |end.runs| >= 1
    ensures p.path in end.disk.names && i == end.disk.names[p.path] && i in end.log && w == end.log[i]
    ensures r < |end.runs| && end.runs[r].Writing? && end.runs[r].inode == i
    ensures forall q | 0 <= q < |end.runs| :: end.runs[q].Writing? && end.runs[q].written == |p.dumps(q)|
    ensures var text := end.disk.Content(p.path).GetOr("");
      Restorable(p.codec, text) && Restored(p.codec, text) == Shuffle(p.dumps, w)
  {
    forall q | 0 <= q < |end.runs| ensures end.runs[q].Writing? && end.runs[q].written == |p.dumps(q)| {
      assert p.Done(end, q);
    }
    hide TextInv, Setup.Finished, Setup.Done, Count, Shuffle;
    PathNamed(p, end);
    i := end.disk.names[p.path];
    w := end.log[i];
    r :| 0 <= r < |end.runs| && end.runs[r].Writing? && end.runs[r].inode == i;
    FileRestores(p, end, i);
  }

  lemma PathNamed(p: Setup, s: State)
    requires NameInv(p, s) && |s.runs| >= 1 && forall r | 0 <= r < |s.runs| :: s.runs[r].Writing?
    ensures p.path in s.disk.names && s.disk.names[p.path] in s.log
  {
    assert PastRename(s.runs[0]) && s.runs[0].Writing?;
  }

  /** Restoring any file made by the runs, at any moment, replays the shuffle its log describes. */
  lemma FileRestores(p: Setup, s: State, i: Inode)
    requires p.Ok() && TextInv(p, s) && i in s.log
    ensures i in s.disk.data && AllWritable(Shuffle(p.dumps, s.log[i]))
    ensures var text := s.disk.data[i];
      Restorable(p.codec, text) && Restored(p.codec, text) == Shuffle(p.dumps, s.log[i])
  {
    hide Shuffle, Text;
    var us := Shuffle(p.dumps, s.log[i]);
    ReadBack(p.codec, us, "");
    assert Text(p.codec, us) + "" == Text(p.codec, us);
  }

  lemma {:induction false} LandedBound(runs: seq<Run>, i: Inode)
    ensures Landed(runs, i) <= |runs|
  {
    if runs != [] {
      LandedBound(runs[..|runs| - 1], i);
    }
  }

  /** All runs are done with the dump of s, and at least one of them wrote to inode i. */
  ghost predicate AllDone(s: Store, end: State, i: Inode) {
    && WellFormed(s) && i in end.log && Landed(end.runs, i) >= 1 && CountInv(Same(Dump(s)), end)
    && forall r | 0 <= r < |end.runs| :: end.runs[r].Writing? && end.runs[r].written == |Dump(s)|
  }

  lemma {:induction false} LandedWitness(runs: seq<Run>, i: Inode) returns (r: nat)
    requires Landed(runs, i) >= 1
    ensures r < |runs| && runs[r].Writing? && runs[r].inode == i
  {
    r := |runs| - 1;
    if !(runs[r].Writing? && runs[r].inode == i) {
      r := LandedWitness(runs[..r], i);
    }
  }

  lemma {:induction false} CountAbsent(w: seq<nat>, r: nat)
    requires r !in w
    ensures Count(w, r) == 0
  {
    if w != [] {
      CountAbsent(w[..|w| - 1], r);
    }
  }

  /** No run has written more than a whole dump to the inode, and one has written all of it. */
  lemma WholeCounts(s: Store, end: State, i: Inode)
    requires AllDone(s, end, i)
    ensures forall r :: Count(end.log[i], r) <= |Dump(s)|
    ensures exists r :: Count(end.log[i], r) == |Dump(s)|
  {
    hide Dump;
    var w := end.log[i];
    forall r: nat ensures Count(w, r) <= |Dump(s)| {
      if r < |end.runs| {
        assert Count(w, r) == Contribution(end, r, i);
      } else {
        CountAbsent(w, r);
      }
    }
    var r := LandedWitness(end.runs, i);
    assert Count(w, r) == Contribution(end, r, i);
  }

  /** No run has written more than a whole dump, and one of them has written all of it. */
  ghost predicate Covers(s: Store, w: seq<nat>) {
    WellFormed(s) && Furthest(w) == |Dump(s)| && forall r :: Count(w, r) <= |Dump(s)|
  }

  lemma AllDoneCovers(s: Store, end: State, i: Inode)
    requires AllDone(s, end, i)
    ensures Covers(s, end.log[i])
  {
    WholeCounts(s, end, i);
    hide Dump, Count;
    FurthestBounds(end.log[i], |Dump(s)|);
  }

  lemma WholeNames(s: Store, w: seq<nat>)
    requires Covers(s, w)
    ensures var us := Shuffle(Same(Dump(s)), w);
      && Extend([], GaugeNames(us)) == Names(s.gauges)
      && Extend([], CounterNames(us)) == Names(s.counters)
  {
    var dump := Dump(s);
    DumpMeaning(s, "");
    hide Dump, Shuffle, Count;
    NamesShuffle(dump, w);
    assert dump[..|dump|] == dump;
  }

  lemma GaugeOfShuffle(s: Store, w: seq<nat>, n: string)
    requires Covers(s, w)
    ensures LastGauge(Shuffle(Same(Dump(s)), w), n) == Lookup(s.gauges, n)
  {
    var dump, us := Dump(s), Shuffle(Same(Dump(s)), w);
    DumpMeaning(s, n);
    WholeNames(s, w);
    ExtendMembers([], GaugeNames(us), n);
    LookupKnown(s.gauges, n);
    LastGaugeMember(us, n);
    if LastGauge(us, n).Some? {
      var v := LastGauge(us, n).value;
      var r := ShuffleMember(Same(dump), w, SetGauge(n, v));
      OnlyGauge(dump, n, v);
    }
  }

  lemma CounterKnown(s: Store, w: seq<nat>, n: string)
    requires Covers(s, w)
    ensures n in CounterNames(Shuffle(Same(Dump(s)), w)) <==> Lookup(s.counters, n).Some?
  {
    WholeNames(s, w);
    ExtendMembers([], CounterNames(Shuffle(Same(Dump(s)), w)), n);
    LookupKnown(s.counters, n);
  }

  lemma CounterOfShuffle(s: Store, end: State, i: Inode, n: string)
    requires AllDone(s, end, i)
    ensures Sum(Shuffle(Same(Dump(s)), end.log[i]), n) == Landed(end.runs, i) * CounterValue(s.counters, n)
    ensures n in CounterNames(Shuffle(Same(Dump(s)), end.log[i])) <==> Lookup(s.counters, n).Some?
  {
    DumpMeaning(s, n);
    SumShuffle(Same(Dump(s)), end.log[i], n, |end.runs|);
    WholeDumps(end, Same(Dump(s)), i, n, |end.runs|);
    SameSums(Dump(s), end.runs, i, n);
    assert end.runs[..|end.runs|] == end.runs;
    AllDoneCovers(s, end, i);
    CounterKnown(s, end.log[i], n);
  }

  /** A shuffle of k whole dumps restores to the store with its counters multiplied by k. */
  lemma ShuffleRestores(s: Store, end: State, i: Inode)
    requires AllDone(s, end, i)
    ensures Replay(EMPTY, Shuffle(Same(Dump(s)), end.log[i])) == Scaled(s, Landed(end.runs, i))
  {
    var us, k := Shuffle(Same(Dump(s)), end.log[i]), Landed(end.runs, i);
    var got := Replay(EMPTY, us);
    hide Shuffle, AllDone, Replay, Scaled, GaugeNames, CounterNames;
    AllDoneCovers(s, end, i);
    WholeNames(s, end.log[i]);
    ReplayNames(EMPTY, us);
    ScaledLookup(s, k, "");
    forall n ensures Lookup(got.gauges, n) == Lookup(s.gauges, n)
             ensures Lookup(got.counters, n) == Lookup(Scaled(s, k).counters, n)
    {
      LookupsOfShuffle(s, end, i, n);
    }
    assert WellFormed(s) && Scaled(s, k).gauges == s.gauges by {
      ScaledGauges(s, end, i);
    }
    Extensional(got.gauges, s.gauges);
    Extensional<int64>(got.counters, Scaled(s, k).counters);
  }

  lemma ScaledGauges(s: Store, end: State, i: Inode)
    requires AllDone(s, end, i)
    ensures WellFormed(s) && Scaled(s, Landed(end.runs, i)).gauges == s.gauges
  {
  }

  lemma LookupsOfShuffle(s: Store, end: State, i: Inode, n: string)
    requires AllDone(s, end, i)
    ensures var got := Replay(EMPTY, Shuffle(Same(Dump(s)), end.log[i]));
      && Lookup(got.gauges, n) == Lookup(s.gauges, n)
      && Lookup(got.counters, n) == Lookup(Scaled(s, Landed(end.runs, i)).counters, n)
  {
    var us := Shuffle(Same(Dump(s)), end.log[i]);
    hide Shuffle, Replay, Dump, Scaled;
    AllDoneCovers(s, end, i);
    GaugeOfShuffle(s, end.log[i], n);
    ReplayGauge(EMPTY, us, n);
    CounterLookup(s, end, i, n);
  }

  lemma CounterLookup(s: Store, end: State, i: Inode, n: string)
    requires AllDone(s, end, i)
    ensures Lookup<int64>(Replay(EMPTY, Shuffle(Same(Dump(s)), end.log[i])).counters, n)
         == Lookup<int64>(Scaled(s, Landed(end.runs, i)).counters, n)
  {
    assert WellFormed(s);
    hide *;
    CounterOfShuffle(s, end, i, n);
    FromEmpty(Shuffle(Same(Dump(s)), end.log[i]), n);
    ScaledLookup(s, Landed(end.runs, i), n);
  }

  // ---------- every run with a dump of its own ----------

  ghost predicate LandedOn(runs: seq<Run>, r: nat, i: Inode) {
    r < |runs| && runs[r].Writing? && runs[r].inode == i
  }

  /** All runs are done, each with what it had to write. */
  ghost predicate AllWrote(dumps: Dumps, end: State, i: Inode) {
    && i in end.log && CountInv(dumps, end)
    && forall r | 0 <= r < |end.runs| :: end.runs[r].Writing? && end.runs[r].written == |dumps(r)|
  }

  lemma {:induction false} CountPresent(w: seq<nat>, r: nat)
    requires r in w
    ensures Count(w, r) > 0
  {
    if w[|w| - 1] != r {
      CountPresent(w[..|w| - 1], r);
    }
  }

  /** The file holds exactly the records of the runs that landed on it. */
  lemma LandedRecords(dumps: Dumps, end: State, i: Inode, u: Update)
    requires AllWrote(dumps, end, i)
    ensures u in Shuffle(dumps, end.log[i]) <==> exists r: nat :: LandedOn(end.runs, r, i) && u in dumps(r)
  {
    var w := end.log[i];
    hide Shuffle, Count;
    if u in Shuffle(dumps, w) {
      var r := ShuffleMember(dumps, w, u);
      CountPresent(w, r);
      assert Count(w, r) == Contribution(end, r, i);
      assert LandedOn(end.runs, r, i);
    }
    if r: nat :| LandedOn(end.runs, r, i) && u in dumps(r) {
      var k :| 0 <= k < |dumps(r)| && dumps(r)[k] == u;
      assert Count(w, r) == Contribution(end, r, i);
      MemberShuffle(dumps, w, r, k);
    }
  }

  lemma CounterOfLanded(dumps: Dumps, end: State, i: Inode, c: string)
    requires AllWrote(dumps, end, i)
    ensures Sum(Shuffle(dumps, end.log[i]), c) == LandedSum(dumps, end.runs, i, c)
    ensures c in CounterNames(Shuffle(dumps, end.log[i]))
       <==> exists r: nat :: LandedOn(end.runs, r, i) && c in CounterNames(dumps(r))
  {
    var us := Shuffle(dumps, end.log[i]);
    SumShuffle(dumps, end.log[i], c, |end.runs|);
    WholeDumps(end, dumps, i, c, |end.runs|);
    assert end.runs[..|end.runs|] == end.runs;
    hide Shuffle, Sum, LandedSum, CounterNames, AllWrote;
    CounterNamesMember(us, c);
    forall r: nat ensures c in CounterNames(dumps(r)) <==> exists d: int64 :: AddDelta(c, d) in dumps(r) {
      CounterNamesMember(dumps(r), c);
    }
    forall d: int64
      ensures AddDelta(c, d) in us <==> exists r: nat :: LandedOn(end.runs, r, i) && AddDelta(c, d) in dumps(r)
    {
      LandedRecords(dumps, end, i, AddDelta(c, d));
    }
  }

  /** What a restored file tells of gauge g: nothing, or a value that some landed run wrote. */
  ghost predicate GaugeFromLanded(dumps: Dumps, runs: seq<Run>, i: Inode, g: string, got: Option<Float64>) {
    if got.None? then forall r: nat | LandedOn(runs, r, i) :: g !in GaugeNames(dumps(r))
    else exists r: nat :: LandedOn(runs, r, i) && SetGauge(g, got.value) in dumps(r)
  }

  lemma GaugeOfLanded(dumps: Dumps, end: State, i: Inode, g: string)
    requires AllWrote(dumps, end, i)
    ensures GaugeFromLanded(dumps, end.runs, i, g, LastGauge(Shuffle(dumps, end.log[i]), g))
  {
    var us := Shuffle(dumps, end.log[i]);
    hide Shuffle, GaugeNames, LastGauge, AllWrote;
    LastGaugeMember(us, g);
    if LastGauge(us, g).Some? {
      LandedRecords(dumps, end, i, SetGauge(g, LastGauge(us, g).value));
    } else {
      forall r: nat | LandedOn(end.runs, r, i) ensures g !in GaugeNames(dumps(r)) {
        LastGaugeMember(dumps(r), g);
        if LastGauge(dumps(r), g).Some? {
          var u := SetGauge(g, LastGauge(dumps(r), g).value);
          LandedRecords(dumps, end, i, u);
          var k :| 0 <= k < |us| && us[k] == u;
          KnownName(us, k);
        }
      }
    }
  }

  /** What restoring the file of inode i gives when each run wrote a dump of its own. */
  ghost predicate SumOfDumps(dumps: Dumps, runs: seq<Run>, i: Inode, got: Store) {
    && (forall c :: Lookup(got.counters, c)
                    == if exists r: nat :: LandedOn(runs, r, i) && c in CounterNames(dumps(r))
                       then Some(Wrap(LandedSum(dumps, runs, i, c))) else None)
    && (forall g :: GaugeFromLanded(dumps, runs, i, g, Lookup(got.gauges, g)))
  }

  lemma LandedRestores(dumps: Dumps, end: State, i: Inode)
    requires AllWrote(dumps, end, i)
    ensures SumOfDumps(dumps, end.runs, i, Replay(EMPTY, Shuffle(dumps, end.log[i])))
  {
    var us := Shuffle(dumps, end.log[i]);
    var got := Replay(EMPTY, us);
    hide Shuffle, Replay, Lookup, LastGauge, Sum, Wrap, CounterNames, AllWrote, LandedSum, GaugeFromLanded;
    forall c
      ensures Lookup(got.counters, c)
           == if exists r: nat :: LandedOn(end.runs, r, i) && c in CounterNames(dumps(r))
              then Some(Wrap(LandedSum(dumps, end.runs, i, c))) else None
    {
      CounterOfLanded(dumps, end, i, c);
      FromEmpty(us, c);
    }
    forall g ensures GaugeFromLanded(dumps, end.runs, i, g, Lookup(got.gauges, g)) {
      GaugeOfLanded(dumps, end, i, g);
      FromEmpty(us, g);
    }
  }

  /**
   * Any number of overlapping runs, each writing what it finds (the storage may change between and
   * during them), in any interleaving: once all are done, restoring the path gives each counter the
   * wrapped sum of what the runs that opened its file hold for it, and each gauge a value that one
   * of them wrote.
   */
  lemma {:induction false} OverlappingDumps(p: Setup, d: Disk, n: nat, schedule: seq<nat>)
    requires p.Ok() && d.Valid() && n >= 1 && p.Finished(p.Exec(p.Init(d, n), schedule))
    ensures var end := p.Exec(p.Init(d, n), schedule);
      && p.path in end.disk.names
      && var i, text := end.disk.names[p.path], end.disk.Content(p.path).GetOr("");
      && Landed(end.runs, i) >= 1
      && Restorable(p.codec, text)
      && SumOfDumps(p.dumps, end.runs, i, Replay(EMPTY, Restored(p.codec, text)))
  {
    InitInv(p, d, n);
    ExecInv(p, p.Init(d, n), schedule);
    var end := p.Exec(p.Init(d, n), schedule);
    var i, w, r := FinalInode(p, end);
    SomeoneLanded(end.runs, i, r);
    LandedRestores(p.dumps, end, i);
    hide SumOfDumps, Shuffle, Setup.Exec;
  }
}
