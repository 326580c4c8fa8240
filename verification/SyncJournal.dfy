/**
 * Synchronous mode: each accepted update goes to memory under the mutex and, later, to the file
 * under the mutex again (internal/handler/handlers.go, PostUpdateSyncBackup), so concurrent
 * requests interleave between the two steps.
 */
module SyncJournal {
  import opened Wrappers
  import opened Numbers
  import opened Storage
  import opened Codec
  import opened Journal
  import opened Recovery
  import opened Handlers

  // ---------- the transition system ----------

  /** inflight: requests between AddX and WriteEvent. begun and logged are history only. */
  datatype State = State(mem: Store, file: string, inflight: seq<Update>, begun: seq<Update>, logged: seq<Update>)

  datatype Action = Begin(u: Update) | Commit(i: nat)

  predicate Enabled(s: State, a: Action) {
    match a
    case Begin(u) => Writable(u)
    case Commit(i) => i < |s.inflight| && Writable(s.inflight[i])
  }

  /** One locked section of one request. A request's gauge came through JSON, so it is finite. */
  function Step(c: Codec, s: State, a: Action): State
    requires Sound(c)
  {
    if !Enabled(s, a) then s
    else
      match a
      case Begin(u) => s.(mem := Apply(s.mem, u), inflight := s.inflight + [u], begun := s.begun + [u])
      case Commit(i) =>
        s.(file := s.file + (LineOf(c, s.inflight[i]) + "\n"),
           inflight := s.inflight[..i] + s.inflight[i + 1..],
           logged := s.logged + [s.inflight[i]])
  }

  function Exec(c: Codec, s: State, actions: seq<Action>): State
    requires Sound(c)
  {
    if actions == [] then s else Step(c, Exec(c, s, actions[..|actions| - 1]), actions[|actions| - 1])
  }

  /** What a restart would restore from the file. */
  function OnDisk(c: Codec, file: string): Store
    requires Restorable(c, file)
  {
    Replay(EMPTY, Restored(c, file))
  }

  /** cmd/server/main.go: restore into an empty storage, then open the same file for appending. */
  function Init(c: Codec, file: string): State
    requires Restorable(c, file)
  {
    State(OnDisk(c, file), file, [], [], [])
  }

  ghost predicate Startable(c: Codec, file: string) {
    Sound(c) && Restorable(c, file) && Complete(c, file)
  }

  /** The request an action begins; NaN and the infinities do not come through JSON. */
  function RequestOf(a: Action): seq<Update> {
    match a
    case Begin(SetGauge(n, v)) => if v % TWO_63 < INFINITY then [SetGauge(n, v)] else []
    case Begin(AddDelta(n, d)) => [AddDelta(n, d)]
    case Commit(_) => []
  }

  /** The requests that begin in a run, in order. */
  function Requests(actions: seq<Action>): seq<Update> {
    if actions == [] then [] else Requests(actions[..|actions| - 1]) + RequestOf(actions[|actions| - 1])
  }

  /** Every request takes effect in memory, in the order of the first steps. */
  lemma {:induction false} EveryRequestApplies(c: Codec, s: State, actions: seq<Action>)
    requires Sound(c)
    ensures var t := Exec(c, s, actions);
      t.begun == s.begun + Requests(actions) && t.mem == Replay(s.mem, Requests(actions))
  {
    hide Step, Replay, RequestOf;
    if actions == [] {
      assert Replay(s.mem, []) == s.mem by { NothingReplayed(s.mem); }
    } else {
      var k := |actions| - 1;
      EveryRequestApplies(c, s, actions[..k]);
      RequestApplies(c, Exec(c, s, actions[..k]), actions[k]);
      ReplayConcat(s.mem, Requests(actions[..k]), RequestOf(actions[k]));
    }
  }

  lemma NothingReplayed(s: Store)
    ensures Replay(s, []) == s
  {
  }

  lemma RequestApplies(c: Codec, s: State, a: Action)
    requires Sound(c)
    ensures var t := Step(c, s, a); t.begun == s.begun + RequestOf(a) && t.mem == Replay(s.mem, RequestOf(a))
  {
    hide Apply, LineOf;
    NothingReplayed(s.mem);
    if a.Begin? {
      BeginsExactly(a.u);
      assert [a.u][..0] == [];
    }
  }

  lemma BeginsExactly(u: Update)
    ensures Writable(u) <==> u.AddDelta? || u.value % TWO_63 < INFINITY
  {
    if u.SetGauge? {
      FiniteExactly(u.value);
    }
  }

  /** The two steps of a request, nothing else between them, do what PostUpdateSyncBackup does. */
  lemma TwoStepsServe(c: Codec, s: State, body: Option<Metrics>)
    requires Sound(c) && Requested(body).Some?
    requires body.value.mtype == "gauge" ==> body.value.value.value % TWO_63 < INFINITY
    ensures var m := body.value;
      var u := if m.mtype == "gauge" then SetGauge(m.id, m.value.value) else AddDelta(m.id, m.delta.value);
      var record := if m.mtype == "gauge" then Metrics(m.id, "gauge", None, m.value)
                    else Metrics(m.id, "counter", m.delta, None);
      && c.encode(record).Some?
      && Exec(c, s, [Begin(u), Commit(|s.inflight|)])
         == State(Apply(s.mem, u), s.file + (c.encode(record).value + "\n"), s.inflight, s.begun + [u], s.logged + [u])
  {
    hide Apply;
    var u := Requested(body).value;
    BeginsExactly(u);
    var t := Step(c, s, Begin(u));
    assert t.inflight[..|s.inflight|] + t.inflight[|s.inflight| + 1..] == s.inflight;
    var actions := [Begin(u), Commit(|s.inflight|)];
    assert actions[..1] == [Begin(u)] && [Begin(u)][..0] == [];
    assert Exec(c, s, actions[..1]) == Step(c, Exec(c, s, []), Begin(u));
  }

  // ---------- the invariant ----------

  ghost predicate Inv(c: Codec, file: string, s: State)
    requires Startable(c, file)
  {
    && AllWritable(s.logged) && AllWritable(s.inflight)
    && s.file == file + Text(c, s.logged)
    && s.mem == Replay(OnDisk(c, file), s.begun)
    && multiset(s.begun) == multiset(s.logged + s.inflight)
  }

  lemma {:induction false} StepInv(c: Codec, file: string, s: State, a: Action)
    requires Startable(c, file) && Inv(c, file, s)
    ensures Inv(c, file, Step(c, s, a))
  {
    if Enabled(s, a) {
      match a {
        case Begin(u) => BeginInv(c, file, s, u);
        case Commit(i) => CommitInv(c, file, s, i);
      }
    }
  }

  lemma BeginInv(c: Codec, file: string, s: State, u: Update)
    requires Startable(c, file) && Inv(c, file, s) && Writable(u)
    ensures Inv(c, file, Step(c, s, Begin(u)))
  {
    hide Apply, Text, OnDisk;
    assert (s.begun + [u])[..|s.begun|] == s.begun;
    assert s.logged + (s.inflight + [u]) == s.logged + s.inflight + [u];
  }

  lemma CommitInv(c: Codec, file: string, s: State, i: nat)
    requires Startable(c, file) && Inv(c, file, s) && i < |s.inflight|
    ensures Inv(c, file, Step(c, s, Commit(i)))
  {
    hide Replay, Text, OnDisk, LineOf;
    var u, rest := s.inflight[i], s.inflight[..i] + s.inflight[i + 1..];
    RemoveAt(s.inflight, i);
    assert u in s.inflight && AllWritable(rest);
    Moved(s.logged, s.inflight, i);
    TextConcat(c, s.logged, [u]);
    TextOne(c, u);
    assert file + Text(c, s.logged) + (LineOf(c, u) + "\n") == file + (Text(c, s.logged) + (LineOf(c, u) + "\n"));
  }

  lemma Moved(logged: seq<Update>, inflight: seq<Update>, i: nat)
    requires i < |inflight|
    ensures multiset(logged + [inflight[i]] + (inflight[..i] + inflight[i + 1..])) == multiset(logged + inflight)
  {
    var u, rest := inflight[i], inflight[..i] + inflight[i + 1..];
    RemoveAt(inflight, i);
    assert multiset(logged + [u] + rest) == multiset(logged) + multiset{u} + multiset(rest);
    assert multiset(logged + inflight) == multiset(logged) + multiset(inflight);
  }

  lemma {:induction false} ExecInv(c: Codec, file: string, actions: seq<Action>)
    requires Startable(c, file)
    ensures Inv(c, file, Exec(c, Init(c, file), actions))
  {
    if actions == [] {
      assert Text(c, []) == "" && file + "" == file;
    } else {
      var k := |actions| - 1;
      ExecInv(c, file, actions[..k]);
      StepInv(c, file, Exec(c, Init(c, file), actions[..k]), actions[k]);
    }
  }

  /** The file restores to the initial store with the logged updates replayed. */
  lemma DiskIsReplay(c: Codec, file: string, s: State)
    requires Startable(c, file) && Inv(c, file, s)
    ensures Restorable(c, s.file) && OnDisk(c, s.file) == Replay(OnDisk(c, file), s.logged)
  {
    ReadAppended(c, file, Text(c, s.logged));
    assert Text(c, s.logged) + "" == Text(c, s.logged);
    ReadBack(c, s.logged, "");
    UpdatesConcat(Records(c, file), Records(c, Text(c, s.logged)));
    ReplayConcat(EMPTY, Restored(c, file), s.logged);
  }

  // ---------- counters: every interleaving ----------

  /**
   * Always: a counter in memory is its value on disk plus the deltas in flight, wrapped; and it
   * exists in memory exactly if it exists on disk or is in flight.
   */
  lemma {:induction false} CounterLag(c: Codec, file: string, actions: seq<Action>, n: string)
    requires Startable(c, file)
    ensures var s := Exec(c, Init(c, file), actions);
      && Restorable(c, s.file)
      && var disk := OnDisk(c, s.file);
      && CounterValue(s.mem.counters, n) == Wrap(CounterValue(disk.counters, n) + Sum(s.inflight, n))
      && (Lookup(s.mem.counters, n).Some? <==> Lookup(disk.counters, n).Some? || n in CounterNames(s.inflight))
  {
    hide Exec, Inv, OnDisk, Wrap;
    ExecInv(c, file, actions);
    StateCounterLag(c, file, Exec(c, Init(c, file), actions), n);
  }

  lemma StateCounterLag(c: Codec, file: string, s: State, n: string)
    requires Startable(c, file) && Inv(c, file, s)
    ensures Restorable(c, s.file)
    ensures var disk := OnDisk(c, s.file);
      && CounterValue(s.mem.counters, n) == Wrap(CounterValue(disk.counters, n) + Sum(s.inflight, n))
      && (Lookup(s.mem.counters, n).Some? <==> Lookup(disk.counters, n).Some? || n in CounterNames(s.inflight))
  {
    hide Replay, Wrap, Sum, CounterNames, CounterValue, Records, Updates;
    DiskIsReplay(c, file, s);
    Lag(OnDisk(c, file), s.begun, s.logged, s.inflight, n);
  }

  /** Updates applied in any order differ from those logged by exactly the ones in flight. */
  lemma {:induction false} Lag(start: Store, begun: seq<Update>, logged: seq<Update>, inflight: seq<Update>, n: string)
    requires multiset(begun) == multiset(logged + inflight)
    ensures var mem, disk := Replay(start, begun).counters, Replay(start, logged).counters;
      && CounterValue(mem, n) == Wrap(CounterValue(disk, n) + Sum(inflight, n))
      && (Lookup(mem, n).Some? <==> Lookup(disk, n).Some? || n in CounterNames(inflight))
  {
    hide Replay, Sum, CounterNames, Lookup, Wrap;
    CountersCommute(start, begun, logged + inflight, n);
    ReplayConcat(start, logged, inflight);
    Added(Replay(start, logged), inflight, n);
  }

  lemma Added(s: Store, us: seq<Update>, n: string)
    ensures var t := Replay(s, us);
      && CounterValue(t.counters, n) == Wrap(CounterValue(s.counters, n) + Sum(us, n))
      && (Lookup(t.counters, n).Some? <==> Lookup(s.counters, n).Some? || n in CounterNames(us))
  {
    hide Replay, Sum, CounterNames;
    ReplayCounter(s, us, n);
    if n !in CounterNames(us) {
      SumUntouched(us, n);
      WrapUnique(CounterValue(s.counters, n), CounterValue(s.counters, n));
    }
  }

  /** Whenever no request is in flight, memory and disk have the same counters and the same gauge names. */
  lemma IdleAgreement(c: Codec, file: string, actions: seq<Action>, n: string)
    requires Startable(c, file) && Exec(c, Init(c, file), actions).inflight == []
    ensures var s := Exec(c, Init(c, file), actions);
      && Restorable(c, s.file)
      && Lookup(s.mem.counters, n) == Lookup(OnDisk(c, s.file).counters, n)
      && (Lookup(s.mem.gauges, n).Some? <==> Lookup(OnDisk(c, s.file).gauges, n).Some?)
  {
    var s := Exec(c, Init(c, file), actions);
    var start := OnDisk(c, file);
    ExecInv(c, file, actions);
    DiskIsReplay(c, file, s);
    assert s.logged + [] == s.logged;
    CountersCommute(start, s.begun, s.logged, n);
    ReplayGauge(start, s.begun, n);
    ReplayGauge(start, s.logged, n);
    GaugeNamesMember(s.begun, n);
    GaugeNamesMember(s.logged, n);
    assert forall u: Update :: u in s.begun <==> u in multiset(s.begun);
    assert forall u: Update :: u in s.logged <==> u in multiset(s.logged);
  }

  lemma {:induction false} GaugeNamesMember(us: seq<Update>, n: string)
    ensures LastGauge(us, n).Some? <==> exists v: Float64 :: SetGauge(n, v) in us
    ensures LastGauge(us, n).Some? ==> SetGauge(n, LastGauge(us, n).value) in us
  {
    if us != [] {
      var k := |us| - 1;
      GaugeNamesMember(us[..k], n);
      assert us == us[..k] + [us[k]];
      if us[k].SetGauge? && us[k].name == n {
        assert SetGauge(n, us[k].value) in us;
      }
    }
  }

  // ---------- gauges and order: only without overlap ----------

  function Filter(p: Update -> bool, us: seq<Update>): seq<Update> {
    if us == [] then []
    else Filter(p, us[..|us| - 1]) + if p(us[|us| - 1]) then [us[|us| - 1]] else []
  }

  /** No update of this kind begins while another one is in flight. */
  ghost predicate NoOverlap(c: Codec, s: State, actions: seq<Action>, p: Update -> bool)
    requires Sound(c)
  {
    forall j | 0 <= j < |actions| && actions[j].Begin? && p(actions[j].u) ::
      Filter(p, Exec(c, s, actions[..j]).inflight) == []
  }

  /** Updates of this kind are logged in the order they were applied. */
  ghost predicate InOrder(s: State, p: Update -> bool) {
    && Filter(p, s.begun) == Filter(p, s.logged) + Filter(p, s.inflight)
    && |Filter(p, s.inflight)| <= 1
  }

  lemma {:induction false} FilterConcat(p: Update -> bool, us: seq<Update>, vs: seq<Update>)
    ensures Filter(p, us + vs) == Filter(p, us) + Filter(p, vs)
  {
    if vs == [] {
      assert us + vs == us;
    } else {
      assert (us + vs)[..|us + vs| - 1] == us + vs[..|vs| - 1];
      FilterConcat(p, us, vs[..|vs| - 1]);
    }
  }

  lemma FilterOne(p: Update -> bool, u: Update)
    ensures Filter(p, [u]) == if p(u) then [u] else []
  {
    assert [u][..0] == [];
  }

  lemma InOrderStep(c: Codec, s: State, a: Action, p: Update -> bool)
    requires Sound(c) && InOrder(s, p)
    requires a.Begin? && p(a.u) ==> Filter(p, s.inflight) == []
    ensures InOrder(Step(c, s, a), p)
  {
    hide Filter, Apply, LineOf;
    if Enabled(s, a) {
      match a {
        case Begin(u) =>
          FilterConcat(p, s.begun, [u]);
          FilterConcat(p, s.inflight, [u]);
          FilterOne(p, u);
        case Commit(i) =>
          FilterConcat(p, s.logged, [s.inflight[i]]);
          FilterOne(p, s.inflight[i]);
          FilterRemove(p, s.inflight, i);
      }
    }
  }

  lemma FilterRemove(p: Update -> bool, us: seq<Update>, i: nat)
    requires i < |us| && |Filter(p, us)| <= 1
    ensures Filter(p, us) == (if p(us[i]) then [us[i]] else []) + Filter(p, us[..i] + us[i + 1..])
  {
    hide Filter;
    assert us == us[..i] + [us[i]] + us[i + 1..];
    FilterConcat(p, us[..i] + [us[i]], us[i + 1..]);
    FilterConcat(p, us[..i], [us[i]]);
    FilterConcat(p, us[..i], us[i + 1..]);
    FilterOne(p, us[i]);
  }

  lemma {:induction false} ExecInOrder(c: Codec, s: State, actions: seq<Action>, p: Update -> bool)
    requires Sound(c) && InOrder(s, p) && NoOverlap(c, s, actions, p)
    ensures InOrder(Exec(c, s, actions), p)
  {
    hide Step, InOrder;
    if actions != [] {
      var k := |actions| - 1;
      assert forall j | 0 <= j < k :: actions[..k][..j] == actions[..j] && actions[..k][j] == actions[j];
      ExecInOrder(c, s, actions[..k], p);
      InOrderStep(c, Exec(c, s, actions[..k]), actions[k], p);
    }
  }

  function Sets(n: string): Update -> bool {
    (u: Update) => u.SetGauge? && u.name == n
  }

  lemma {:induction false} LastOfFilter(us: seq<Update>, n: string)
    ensures var f := Filter(Sets(n), us);
      && (f != [] ==> f[|f| - 1].SetGauge?)
      && LastGauge(us, n) == if f == [] then None else Some(f[|f| - 1].value)
  {
    if us != [] {
      LastOfFilter(us[..|us| - 1], n);
    }
  }

  /**
   * If requests for gauge n never overlap each other (whatever other requests do), memory agrees
   * with the disk on n whenever none of them is in flight, and otherwise holds the one in flight.
   */
  lemma {:induction false} GaugeAgreement(c: Codec, file: string, actions: seq<Action>, n: string)
    requires Startable(c, file) && NoOverlap(c, Init(c, file), actions, Sets(n))
    ensures var s := Exec(c, Init(c, file), actions);
      && Restorable(c, s.file)
      && Lookup(s.mem.gauges, n)
         == if LastGauge(s.inflight, n).Some? then LastGauge(s.inflight, n) else Lookup(OnDisk(c, s.file).gauges, n)
  {
    hide Exec, Replay, Records, Updates, LastGauge, Lookup;
    var s := Exec(c, Init(c, file), actions);
    var start := OnDisk(c, file);
    ExecInv(c, file, actions);
    DiskIsReplay(c, file, s);
    ExecInOrder(c, Init(c, file), actions, Sets(n));
    ReplayGauge(start, s.begun, n);
    ReplayGauge(start, s.logged, n);
    LastOfFilter(s.begun, n);
    LastOfFilter(s.logged, n);
    LastOfFilter(s.inflight, n);
  }

  function Any(): Update -> bool {
    _ => true
  }

  lemma {:induction false} FilterAll(us: seq<Update>)
    ensures Filter(Any(), us) == us
  {
    if us != [] {
      FilterAll(us[..|us| - 1]);
      assert us == us[..|us| - 1] + [us[|us| - 1]];
    }
  }

  /** If no two requests overlap, then after each one the whole store equals what the file restores to. */
  lemma {:induction false} SerialAgreement(c: Codec, file: string, actions: seq<Action>)
    requires Startable(c, file) && NoOverlap(c, Init(c, file), actions, Any())
    requires Exec(c, Init(c, file), actions).inflight == []
    ensures var s := Exec(c, Init(c, file), actions);
      Restorable(c, s.file) && s.mem == OnDisk(c, s.file)
  {
    hide Exec, Replay, Filter, Restorable;
    var s := Exec(c, Init(c, file), actions);
    ExecInv(c, file, actions);
    DiskIsReplay(c, file, s);
    FilterAll([]);
    ExecInOrder(c, Init(c, file), actions, Any());
    FilterAll(s.begun);
    FilterAll(s.logged);
    assert s.begun == s.logged + [] == s.logged;
  }

  // ---------- when a gauge settles ----------

  /** Memory and disk hold the same value of gauge n, or neither has it. */
  ghost predicate Agrees(c: Codec, s: State, n: string) {
    Restorable(c, s.file) && Lookup(s.mem.gauges, n) == Lookup(OnDisk(c, s.file).gauges, n)
  }

  /** The requests in flight finish, in this order, and none begins. */
  ghost predicate Drains(c: Codec, s: State, commits: seq<Action>)
    requires Sound(c)
  {
    (forall a <- commits :: a.Commit?) && Exec(c, s, commits).inflight == []
  }

  /** Each request in flight for gauge n carries the value memory holds; with none, memory and disk agree. */
  ghost predicate WillSettle(c: Codec, s: State, n: string) {
    if LastGauge(s.inflight, n).Some?
    then forall u <- s.inflight :: u.SetGauge? && u.name == n ==> Lookup(s.mem.gauges, n) == Some(u.value)
    else Agrees(c, s, n)
  }

  /** Commits move records from flight to the log and leave memory alone. */
  lemma {:induction false} Committed(c: Codec, s: State, commits: seq<Action>) returns (done: seq<Update>)
    requires Sound(c) && forall a <- commits :: a.Commit?
    ensures var t := Exec(c, s, commits);
      && t.mem == s.mem && t.begun == s.begun && t.logged == s.logged + done
      && multiset(done) + multiset(t.inflight) == multiset(s.inflight)
  {
    if commits == [] {
      done := [];
    } else {
      var k := |commits| - 1;
      assert commits[k] in commits && forall a <- commits[..k] :: a in commits;
      var before := Committed(c, s, commits[..k]);
      var more := CommittedOne(c, Exec(c, s, commits[..k]), commits[k]);
      hide Step;
      done := before + more;
      assert s.logged + done == s.logged + before + more;
      assert multiset(done) == multiset(before) + multiset(more);
    }
  }

  lemma CommittedOne(c: Codec, s: State, a: Action) returns (done: seq<Update>)
    requires Sound(c) && a.Commit?
    ensures var t := Step(c, s, a);
      && t.mem == s.mem && t.begun == s.begun && t.logged == s.logged + done
      && multiset(done) + multiset(t.inflight) == multiset(s.inflight)
  {
    hide LineOf, Apply;
    done := [];
    if Enabled(s, a) {
      RemoveAt(s.inflight, a.i);
      done := [s.inflight[a.i]];
    }
  }

  /** Where the gauge ends up on disk: at the request committed last, if any was for it. */
  lemma DiskAfter(c: Codec, file: string, s: State, t: State, done: seq<Update>, n: string)
    requires Startable(c, file) && Inv(c, file, s) && Inv(c, file, t)
    requires t.mem == s.mem && t.logged == s.logged + done
    ensures Restorable(c, s.file) && Restorable(c, t.file)
    ensures Lookup(OnDisk(c, t.file).gauges, n)
         == if LastGauge(done, n).Some? then LastGauge(done, n) else Lookup(OnDisk(c, s.file).gauges, n)
  {
    hide Inv, Lookup, LastGauge, Replay, Restored, Restorable;
    DiskIsReplay(c, file, s);
    DiskIsReplay(c, file, t);
    var start := OnDisk(c, file);
    ReplayGauge(start, s.logged, n);
    ReplayGauge(start, t.logged, n);
    LastGaugeConcat(s.logged, done, n);
  }

  lemma {:induction false} RunInv(c: Codec, file: string, s: State, actions: seq<Action>)
    requires Startable(c, file) && Inv(c, file, s)
    ensures Inv(c, file, Exec(c, s, actions))
  {
    hide Inv, Step;
    if actions != [] {
      RunInv(c, file, s, actions[..|actions| - 1]);
      StepInv(c, file, Exec(c, s, actions[..|actions| - 1]), actions[|actions| - 1]);
    }
  }

  lemma {:induction false} ExecCons(c: Codec, s: State, a: Action, more: seq<Action>)
    requires Sound(c)
    ensures Exec(c, s, [a] + more) == Exec(c, Step(c, s, a), more)
  {
    hide Step;
    if more == [] {
      assert [a] + more == [a] && [a][..0] == [];
      assert Exec(c, s, [a]) == Step(c, Exec(c, s, []), a);
    } else {
      var k := |more| - 1;
      assert ([a] + more)[..k + 1] == [a] + more[..k] && ([a] + more)[k + 1] == more[k];
      ExecCons(c, s, a, more[..k]);
    }
  }

  /** The requests in flight can finish in an order that leaves request i for last. */
  lemma {:induction false} DrainLeavingLast(c: Codec, s: State, i: nat) returns (commits: seq<Action>)
    requires Sound(c) && i < |s.inflight| && AllWritable(s.inflight)
    ensures Drains(c, s, commits)
    ensures var t := Exec(c, s, commits); t.logged != [] && t.logged[|t.logged| - 1] == s.inflight[i]
    decreases |s.inflight|
  {
    hide LineOf;
    assert forall j | 0 <= j < |s.inflight| :: s.inflight[j] in s.inflight;
    var j := if |s.inflight| == 1 || i != 0 then 0 else 1;
    var t := Step(c, s, Commit(j));
    assert t.inflight == s.inflight[..j] + s.inflight[j + 1..] && t.logged == s.logged + [s.inflight[j]];
    hide Step;
    if |s.inflight| == 1 {
      commits := [];
    } else {
      commits := DrainLeavingLast(c, t, if i == 0 then 0 else i - 1);
    }
    ExecCons(c, s, Commit(j), commits);
    commits := [Commit(j)] + commits;
  }

  /** What a drain leads to, from a state in which every request for the gauge carries memory's value. */
  lemma {:induction false} SettledDrain(c: Codec, file: string, s: State, n: string, commits: seq<Action>)
    requires Startable(c, file) && Inv(c, file, s) && WillSettle(c, s, n) && Drains(c, s, commits)
    ensures Agrees(c, Exec(c, s, commits), n)
  {
    hide Inv, Exec, Restorable, Restored, Replay, Lookup, LastGauge;
    var done := Committed(c, s, commits);
    var t := Exec(c, s, commits);
    RunInv(c, file, s, commits);
    DiskAfter(c, file, s, t, done, n);
    SameMembers(done, s.inflight);
    GaugeNamesMember(done, n);
    GaugeNamesMember(s.inflight, n);
  }

  lemma SameMembers(us: seq<Update>, vs: seq<Update>)
    requires multiset(us) == multiset(vs)
    ensures forall u :: u in us <==> u in vs
  {
    assert forall u :: u in us <==> u in multiset(us);
    assert forall u :: u in vs <==> u in multiset(vs);
  }

  /**
   * If some request carries another value, or nothing is in flight to repair a difference, a drain
   * ends in disagreement.
   */
  lemma {:induction false} UnsettledDrain(c: Codec, file: string, s: State, n: string) returns (commits: seq<Action>)
    requires Startable(c, file) && Inv(c, file, s) && !WillSettle(c, s, n)
    ensures Drains(c, s, commits) && !Agrees(c, Exec(c, s, commits), n)
  {
    hide Exec, Restorable, Restored, Replay, Lookup;
    GaugeNamesMember(s.inflight, n);
    var i := 0;
    if LastGauge(s.inflight, n).Some? {
      var u :| u in s.inflight && u.SetGauge? && u.name == n && Lookup(s.mem.gauges, n) != Some(u.value);
      i :| 0 <= i < |s.inflight| && s.inflight[i] == u;
    }
    if s.inflight == [] {
      commits := [];
      DrainedAlready(c, s);
    } else {
      commits := DrainLeavingLast(c, s, i);
    }
    hide LastGauge, Inv;
    var t := LastCommitted(c, file, s, n, commits);
  }

  /** What a drain leaves on disk for the gauge: the request logged last, if that was for it. */
  lemma {:induction false} LastCommitted(c: Codec, file: string, s: State, n: string, commits: seq<Action>)
    returns (t: State)
    requires Startable(c, file) && Inv(c, file, s) && Drains(c, s, commits)
    ensures t == Exec(c, s, commits) && t.mem == s.mem && Restorable(c, s.file) && Restorable(c, t.file)
    ensures LastGauge(s.inflight, n).None? ==>
      Lookup(OnDisk(c, t.file).gauges, n) == Lookup(OnDisk(c, s.file).gauges, n)
    ensures s.inflight != [] ==>
      t.logged != []
      && var u := t.logged[|t.logged| - 1];
      u.SetGauge? && u.name == n ==> Lookup(OnDisk(c, t.file).gauges, n) == Some(u.value)
  {
    t := Exec(c, s, commits);
    var done := Committed(c, s, commits);
    RunInv(c, file, s, commits);
    DiskAfter(c, file, s, t, done, n);
    hide Inv, Restorable, Restored, Replay, Lookup, Exec;
    SameMembers(done, s.inflight);
    GaugeNamesMember(s.inflight, n);
    GaugeNamesMember(done, n);
    if s.inflight != [] {
      assert s.inflight[0] in done;
      assert t.logged[|t.logged| - 1] == done[|done| - 1];
    }
  }

  lemma DrainedAlready(c: Codec, s: State)
    requires Sound(c) && s.inflight == []
    ensures Drains(c, s, [])
  {
  }

  /**
   * From any reachable state: however the requests in flight finish, memory and disk end up
   * agreeing on gauge n, if and only if every request in flight for n carries the value memory
   * holds or, with none in flight, they agree already.
   */
  lemma {:induction false} SettlesExactly(c: Codec, file: string, s: State, n: string)
    requires Startable(c, file) && Inv(c, file, s)
    ensures (forall commits | Drains(c, s, commits) :: Agrees(c, Exec(c, s, commits), n)) <==> WillSettle(c, s, n)
  {
    hide Drains, Agrees, WillSettle, Exec, Inv;
    if WillSettle(c, s, n) {
      forall commits | Drains(c, s, commits) ensures Agrees(c, Exec(c, s, commits), n) {
        SettledDrain(c, file, s, n, commits);
      }
    } else {
      var commits := UnsettledDrain(c, file, s, n);
      assert Drains(c, s, commits) && !Agrees(c, Exec(c, s, commits), n);
    }
  }

  /**
   * With overlap a gauge can stay wrong on disk for good: two requests reach memory in one order
   * and the file in the other, and nothing is in flight any more.
   */
  lemma OverlapCanDisagree(c: Codec)
    requires Sound(c)
    ensures var actions := [Begin(SetGauge("g", 1)), Begin(SetGauge("g", 2)), Commit(1), Commit(0)];
      && Restorable(c, "")
      && var s := Exec(c, Init(c, ""), actions);
      && s.inflight == [] && Restorable(c, s.file)
      && Lookup(s.mem.gauges, "g") == Some(2)
      && Lookup(OnDisk(c, s.file).gauges, "g") == Some(1)
  {
    var a, b := SetGauge("g", 1), SetGauge("g", 2);
    var actions := [Begin(a), Begin(b), Commit(1), Commit(0)];
    Unfold4(c, Init(c, ""), Begin(a), Begin(b), Commit(1), Commit(0));
    var s := Exec(c, Init(c, ""), actions);
    SwappedCommits(c, Init(c, ""), a, b);
    ExecInv(c, "", actions);
    DiskIsReplay(c, "", s);
    assert [a, b][..1] == [a] && [b, a][..1] == [b];
    hide Exec, Step, Restorable, Restored;
    ReplayGauge(EMPTY, [a, b], "g");
    ReplayGauge(EMPTY, [b, a], "g");
  }

  lemma SwappedCommits(c: Codec, s: State, a: Update, b: Update)
    requires Sound(c) && Writable(a) && Writable(b) && s.inflight == s.begun == s.logged == []
    ensures var t := Step(c, Step(c, Step(c, Step(c, s, Begin(a)), Begin(b)), Commit(1)), Commit(0));
      t.inflight == [] && t.begun == [a, b] && t.logged == [b, a]
  {
    hide LineOf, Apply;
    var s2 := Step(c, Step(c, s, Begin(a)), Begin(b));
    assert s2.inflight == [a, b] && s2.begun == [a, b];
    assert Step(c, s2, Commit(1)).inflight == [a] && Step(c, s2, Commit(1)).logged == [b];
  }

  lemma Unfold4(c: Codec, s: State, a1: Action, a2: Action, a3: Action, a4: Action)
    requires Sound(c)
    ensures Exec(c, s, [a1, a2, a3, a4]) == Step(c, Step(c, Step(c, Step(c, s, a1), a2), a3), a4)
  {
    assert [a1, a2, a3, a4][..3] == [a1, a2, a3] && [a1, a2, a3][..2] == [a1, a2];
    assert [a1, a2][..1] == [a1] && [a1][..0] == [];
    hide Step;
    assert Exec(c, s, [a1]) == Step(c, s, a1);
    assert Exec(c, s, [a1, a2]) == Step(c, Step(c, s, a1), a2);
    assert Exec(c, s, [a1, a2, a3]) == Step(c, Step(c, Step(c, s, a1), a2), a3);
  }
}
