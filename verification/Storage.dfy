/** The metric store of internal/repository/storage.go. */
module Storage {
  import opened Wrappers
  import opened Numbers

  // ---------- association lists ----------

  datatype Entry<T> = Entry(name: string, value: T)

  function Lookup<T>(s: seq<Entry<T>>, name: string): Option<T> {
    if |s| == 0 then None
    else if s[0].name == name then Some(s[0].value)
    else Lookup(s[1..], name)
  }

  /** Overwrite the first entry called name, or append a new one. */
  function Put<T>(s: seq<Entry<T>>, name: string, value: T): seq<Entry<T>> {
    if |s| == 0 then [Entry(name, value)]
    else if s[0].name == name then [Entry(name, value)] + s[1..]
    else [s[0]] + Put(s[1..], name, value)
  }

  function Names<T>(s: seq<Entry<T>>): (ns: seq<string>)
    ensures |ns| == |s|
  {
    seq(|s|, i requires 0 <= i < |s| => s[i].name)
  }

  ghost predicate Unique<T>(s: seq<Entry<T>>) {
    forall i, j :: 0 <= i < j < |s| ==> s[i].name != s[j].name
  }

  /** Put changes the value of one name only. */
  lemma {:induction false} LookupPut<T>(s: seq<Entry<T>>, name: string, value: T, n: string)
    ensures Lookup(Put(s, name, value), n) == if n == name then Some(value) else Lookup(s, n)
  {
    if |s| > 0 && s[0].name != name {
      LookupPut(s[1..], name, value, n);
      assert Put(s, name, value)[1..] == Put(s[1..], name, value);
    }
  }

  /** Put never moves an entry: a known name keeps its position, a new one goes last. */
  lemma {:induction false} NamesPut<T>(s: seq<Entry<T>>, name: string, value: T)
    ensures Names(Put(s, name, value)) == Add(Names(s), name)
  {
    if |s| == 0 {
    } else if s[0].name == name {
      assert Names(s)[0] == name;
    } else {
      NamesPut(s[1..], name, value);
      assert Names(s) == [s[0].name] + Names(s[1..]);
      assert Names(Put(s, name, value)) == [s[0].name] + Names(Put(s[1..], name, value));
      assert name in Names(s) <==> name in Names(s[1..]);
    }
  }

  /** The loop's view of Put: the first match, if any, is at index i. */
  lemma {:induction false} PutAt<T>(s: seq<Entry<T>>, name: string, value: T, i: nat)
    requires i <= |s| && forall j :: 0 <= j < i ==> s[j].name != name
    requires i < |s| ==> s[i].name == name
    ensures Put(s, name, value) == if i < |s| then s[i := Entry(name, value)] else s + [Entry(name, value)]
    ensures Lookup(s, name) == if i < |s| then Some(s[i].value) else None
  {
    if i > 0 {
      PutAt(s[1..], name, value, i - 1);
    }
  }

  lemma {:induction false} LookupAt<T>(s: seq<Entry<T>>, i: nat)
    requires Unique(s) && i < |s|
    ensures Lookup(s, s[i].name) == Some(s[i].value)
  {
    if i > 0 {
      LookupAt(s[1..], i - 1);
    }
  }

  lemma {:induction false} LookupKnown<T>(s: seq<Entry<T>>, name: string)
    ensures Lookup(s, name).Some? <==> name in Names(s)
  {
    if |s| > 0 {
      LookupKnown(s[1..], name);
      assert Names(s) == [s[0].name] + Names(s[1..]);
    }
  }

  /** Lists without repeated names are equal when their name order and lookups are. */
  lemma Extensional<T>(a: seq<Entry<T>>, b: seq<Entry<T>>)
    requires Unique(a) && Unique(b) && Names(a) == Names(b)
    requires forall n :: Lookup(a, n) == Lookup(b, n)
    ensures a == b
  {
    forall i | 0 <= i < |a| ensures a[i] == b[i] {
      LookupAt(a, i);
      LookupAt(b, i);
      assert Names(a)[i] == Names(b)[i];
    }
  }

  // ---------- insertion-ordered names ----------

  function Add(ns: seq<string>, n: string): seq<string> {
    if n in ns then ns else ns + [n]
  }

  /** ns followed by the names of ms it lacks, in order of first occurrence. */
  function Extend(ns: seq<string>, ms: seq<string>): seq<string> {
    if ms == [] then ns else Add(Extend(ns, ms[..|ms| - 1]), ms[|ms| - 1])
  }

  ghost predicate Distinct(ns: seq<string>) {
    forall i, j :: 0 <= i < j < |ns| ==> ns[i] != ns[j]
  }

  /** A list of new and distinct names is appended as it stands. */
  lemma {:induction false} ExtendDistinct(ns: seq<string>, ms: seq<string>)
    requires Distinct(ns + ms)
    ensures Extend(ns, ms) == ns + ms
  {
    if ms == [] {
      assert ns + ms == ns;
    } else {
      var k := |ms| - 1;
      assert ns + ms == ns + ms[..k] + [ms[k]];
      forall i, j | 0 <= i < j < |ns + ms[..k]| ensures (ns + ms[..k])[i] != (ns + ms[..k])[j] {
        assert (ns + ms)[i] != (ns + ms)[j];
      }
      ExtendDistinct(ns, ms[..k]);
      forall i | 0 <= i < |ns + ms[..k]| ensures (ns + ms[..k])[i] != ms[k] {
        assert (ns + ms)[i] != (ns + ms)[|ns| + k];
      }
    }
  }

  /** Extend adds exactly the names of ms. */
  lemma {:induction false} ExtendMembers(ns: seq<string>, ms: seq<string>, n: string)
    ensures n in Extend(ns, ms) <==> n in ns || n in ms
  {
    if ms != [] {
      var k := |ms| - 1;
      ExtendMembers(ns, ms[..k], n);
      assert ms == ms[..k] + [ms[k]];
    }
  }

  // ---------- the store and its updates ----------

  datatype Store = Store(gauges: seq<Entry<Float64>>, counters: seq<Entry<int64>>)

  const EMPTY := Store([], [])

  /** One call of AddGauge or AddCounter. */
  datatype Update = SetGauge(name: string, value: Float64) | AddDelta(name: string, delta: int64)

  ghost predicate WellFormed(s: Store) {
    Unique(s.gauges) && Unique(s.counters)
  }

  /** A counter's value, 0 when it does not exist. */
  function CounterValue(cs: seq<Entry<int64>>, n: string): int64 {
    Lookup<int64>(cs, n).GetOr(0)
  }

  function Apply(s: Store, u: Update): Store {
    match u
    case SetGauge(n, v) => s.(gauges := Put(s.gauges, n, v))
    case AddDelta(n, d) => s.(counters := Put(s.counters, n, Wrap(CounterValue(s.counters, n) + d)))
  }

  function Replay(s: Store, us: seq<Update>): Store {
    if us == [] then s else Apply(Replay(s, us[..|us| - 1]), us[|us| - 1])
  }

  lemma {:induction false} ReplayConcat(s: Store, us: seq<Update>, vs: seq<Update>)
    ensures Replay(s, us + vs) == Replay(Replay(s, us), vs)
  {
    if vs == [] {
      assert us + vs == us;
    } else {
      assert (us + vs)[..|us + vs| - 1] == us + vs[..|vs| - 1];
      ReplayConcat(s, us, vs[..|vs| - 1]);
    }
  }

  // ---------- what a sequence of updates means, name by name ----------

  /** The last value written to gauge n. */
  function LastGauge(us: seq<Update>, n: string): Option<Float64> {
    if us == [] then None
    else
      var u := us[|us| - 1];
      if u.SetGauge? && u.name == n then Some(u.value) else LastGauge(us[..|us| - 1], n)
  }

  function DeltaFor(u: Update, n: string): int {
    if u.AddDelta? && u.name == n then u.delta else 0
  }

  /** The exact integer sum of the deltas of counter n. */
  function Sum(us: seq<Update>, n: string): int {
    if us == [] then 0 else Sum(us[..|us| - 1], n) + DeltaFor(us[|us| - 1], n)
  }

  function GaugeNames(us: seq<Update>): seq<string> {
    if us == [] then []
    else
      var u := us[|us| - 1];
      GaugeNames(us[..|us| - 1]) + if u.SetGauge? then [u.name] else []
  }

  function CounterNames(us: seq<Update>): seq<string> {
    if us == [] then []
    else
      var u := us[|us| - 1];
      CounterNames(us[..|us| - 1]) + if u.AddDelta? then [u.name] else []
  }

  /** A gauge equals its last write. */
  lemma {:induction false} ReplayGauge(s: Store, us: seq<Update>, n: string)
    ensures Lookup(Replay(s, us).gauges, n)
         == if LastGauge(us, n).Some? then LastGauge(us, n) else Lookup(s.gauges, n)
  {
    if us != [] {
      var k := |us| - 1;
      ReplayGauge(s, us[..k], n);
      if us[k].SetGauge? {
        LookupPut(Replay(s, us[..k]).gauges, us[k].name, us[k].value, n);
      }
    }
  }

  /** One update changes at most the counter it names. */
  lemma ApplyCounter(s: Store, u: Update, n: string)
    ensures Lookup(Apply(s, u).counters, n)
         == if u.AddDelta? && u.name == n then Some(Wrap(CounterValue(s.counters, n) + u.delta))
            else Lookup(s.counters, n)
  {
    if u.AddDelta? {
      var v: int64 := Wrap(CounterValue(s.counters, u.name) + u.delta);
      LookupPut<int64>(s.counters, u.name, v, n);
    }
  }

  /** A counter equals the wrapped exact sum of all its deltas, however often it overflowed on the way. */
  lemma {:induction false} ReplayCounter(s: Store, us: seq<Update>, n: string)
    ensures Lookup(Replay(s, us).counters, n)
         == if n in CounterNames(us) || Lookup(s.counters, n).Some?
            then Some(Wrap(CounterValue(s.counters, n) + Sum(us, n)))
            else None
  {
    hide Apply, Put, Lookup, Wrap;
    var base := CounterValue(s.counters, n);
    if us == [] {
      WrapUnique(base, base);
    } else {
      var k := |us| - 1;
      ReplayCounter(s, us[..k], n);
      ApplyCounter(Replay(s, us[..k]), us[k], n);
      if us[k].AddDelta? && us[k].name == n {
        WrapAdd(base + Sum(us[..k], n), us[k].delta);
        if n !in CounterNames(us[..k]) {
          SumUntouched(us[..k], n);
          WrapUnique(base, base);
        }
      }
    }
  }

  /** What replaying updates into an empty store gives under one name. */
  lemma FromEmpty(us: seq<Update>, n: string)
    ensures var got := Replay(EMPTY, us);
      && Lookup(got.gauges, n) == LastGauge(us, n)
      && Lookup<int64>(got.counters, n) == if n in CounterNames(us) then Some(Wrap(Sum(us, n))) else None
  {
    assert Lookup(EMPTY.gauges, n) == None && Lookup<int64>(EMPTY.counters, n) == None;
    assert CounterValue(EMPTY.counters, n) == 0;
    hide *;
    ReplayGauge(EMPTY, us, n);
    ReplayCounter(EMPTY, us, n);
  }

  lemma {:induction false} SumUntouched(us: seq<Update>, n: string)
    requires n !in CounterNames(us)
    ensures Sum(us, n) == 0
  {
    if us != [] {
      SumUntouched(us[..|us| - 1], n);
    }
  }

  /** One update appends its name to its own list if it is new, and touches no other name or position. */
  lemma ApplyNames(s: Store, u: Update)
    requires WellFormed(s)
    ensures WellFormed(Apply(s, u))
    ensures Names(Apply(s, u).gauges) == if u.SetGauge? then Add(Names(s.gauges), u.name) else Names(s.gauges)
    ensures Names(Apply(s, u).counters) == if u.AddDelta? then Add(Names(s.counters), u.name) else Names(s.counters)
  {
    match u
    case SetGauge(n, v) =>
      NamesPut(s.gauges, n, v);
      UniqueByNames(s.gauges, Put(s.gauges, n, v), n);
    case AddDelta(n, d) =>
      var v: int64 := Wrap(CounterValue(s.counters, n) + d);
      NamesPut<int64>(s.counters, n, v);
      UniqueByNames<int64>(s.counters, Put<int64>(s.counters, n, v), n);
  }

  /** Entries keep their first-insertion position, and names stay unique. */
  lemma {:induction false} ReplayNames(s: Store, us: seq<Update>)
    requires WellFormed(s)
    ensures WellFormed(Replay(s, us))
    ensures Names(Replay(s, us).gauges) == Extend(Names(s.gauges), GaugeNames(us))
    ensures Names(Replay(s, us).counters) == Extend(Names(s.counters), CounterNames(us))
  {
    hide Apply, WellFormed, Names;
    if us != [] {
      hide Extend, Add;
      var k := |us| - 1;
      ReplayNames(s, us[..k]);
      ApplyNames(Replay(s, us[..k]), us[k]);
      if us[k].SetGauge? {
        ExtendSnoc(Names(s.gauges), GaugeNames(us[..k]), us[k].name);
        assert CounterNames(us) == CounterNames(us[..k]);
      } else {
        ExtendSnoc(Names(s.counters), CounterNames(us[..k]), us[k].name);
        assert GaugeNames(us) == GaugeNames(us[..k]);
      }
    }
  }

  lemma UniqueByNames<T>(a: seq<Entry<T>>, b: seq<Entry<T>>, n: string)
    requires Unique(a) && Names(b) == Add(Names(a), n)
    ensures Unique(b)
  {
    forall i, j | 0 <= i < j < |b| ensures b[i].name != b[j].name {
      assert Names(b)[i] == b[i].name && Names(b)[j] == b[j].name;
      assert i < |a| ==> Names(a)[i] == a[i].name;
      assert j < |a| ==> Names(a)[j] == a[j].name;
    }
  }

  lemma ExtendSnoc(ns: seq<string>, ms: seq<string>, n: string)
    ensures Extend(ns, ms + [n]) == Add(Extend(ns, ms), n)
  {
    assert (ms + [n])[..|ms|] == ms;
  }

  // ---------- order independence of counters ----------

  lemma {:induction false} SumConcat(us: seq<Update>, vs: seq<Update>, n: string)
    ensures Sum(us + vs, n) == Sum(us, n) + Sum(vs, n)
  {
    if vs == [] {
      assert us + vs == us;
    } else {
      assert (us + vs)[..|us + vs| - 1] == us + vs[..|vs| - 1];
      SumConcat(us, vs[..|vs| - 1], n);
    }
  }

  lemma {:induction false} CounterNamesMember(us: seq<Update>, n: string)
    ensures n in CounterNames(us) <==> exists d: int64 :: AddDelta(n, d) in us
  {
    if us != [] {
      var k := |us| - 1;
      CounterNamesMember(us[..k], n);
      assert us == us[..k] + [us[k]];
    }
  }

  lemma RemoveAt<T>(s: seq<T>, j: nat)
    requires j < |s|
    ensures multiset(s) == multiset(s[..j] + s[j + 1..]) + multiset{s[j]}
  {
    assert s == s[..j] + ([s[j]] + s[j + 1..]);
  }

  lemma SumRemove(us: seq<Update>, j: nat, n: string)
    requires j < |us|
    ensures Sum(us, n) == Sum(us[..j] + us[j + 1..], n) + DeltaFor(us[j], n)
  {
    assert us == us[..j] + [us[j]] + us[j + 1..];
    SumConcat(us[..j] + [us[j]], us[j + 1..], n);
    SumConcat(us[..j], [us[j]], n);
    SumConcat(us[..j], us[j + 1..], n);
    assert [us[j]][..0] == [];
  }

  /** Reordering updates leaves every exact delta sum unchanged. */
  lemma {:induction false} SumPermuted(us: seq<Update>, vs: seq<Update>, n: string)
    requires multiset(us) == multiset(vs)
    ensures Sum(us, n) == Sum(vs, n)
    decreases |us|
  {
    if us == [] {
      assert |multiset(vs)| == |multiset(us)|;
    } else {
      var k := |us| - 1;
      assert us == us[..k] + [us[k]];
      assert us[k] in multiset(vs);
      var j :| 0 <= j < |vs| && vs[j] == us[k];
      RemoveAt(vs, j);
      assert multiset(us) == multiset(us[..k]) + multiset{us[k]};
      assert multiset(us[..k]) == multiset(us) - multiset{us[k]};
      assert multiset(vs[..j] + vs[j + 1..]) == multiset(vs) - multiset{vs[j]};
      SumPermuted(us[..k], vs[..j] + vs[j + 1..], n);
      SumRemove(vs, j, n);
    }
  }

  /** Reordering updates leaves every counter unchanged, wrap-around included. */
  lemma CountersCommute(s: Store, us: seq<Update>, vs: seq<Update>, n: string)
    requires multiset(us) == multiset(vs)
    ensures Lookup(Replay(s, us).counters, n) == Lookup(Replay(s, vs).counters, n)
  {
    hide Replay, Lookup, Sum, CounterNames, Wrap;
    ReplayCounter(s, us, n);
    ReplayCounter(s, vs, n);
    SumPermuted(us, vs, n);
    CounterNamesMember(us, n);
    CounterNamesMember(vs, n);
    assert forall u: Update :: u in us <==> u in multiset(us);
    assert forall u: Update :: u in vs <==> u in multiset(vs);
  }

  // ---------- the class ----------

  /** MemStorage; the mutex makes each call one step, so the methods are sequential here. */
  class MemStorage {
    var counterSlice: seq<Entry<int64>>
    var gaugeSlice: seq<Entry<Float64>>

    function View(): Store
      reads this
    {
      Store(gaugeSlice, counterSlice)
    }

    constructor ()
      ensures View() == EMPTY
    {
      counterSlice, gaugeSlice := [], [];
    }

    method AddGauge(name: string, value: Float64)
      modifies this
      ensures View() == Apply(old(View()), SetGauge(name, value))
    {
      hide Put, Lookup;
      for i := 0 to |gaugeSlice|
        invariant gaugeSlice == old(gaugeSlice) && counterSlice == old(counterSlice)
        invariant forall j :: 0 <= j < i ==> gaugeSlice[j].name != name
      {
        if gaugeSlice[i].name == name {
          PutAt(gaugeSlice, name, value, i);
          gaugeSlice := gaugeSlice[i := Entry(name, value)];
          return;
        }
      }
      PutAt(gaugeSlice, name, value, |gaugeSlice|);
      gaugeSlice := gaugeSlice + [Entry(name, value)];
    }

    method AddCounter(name: string, value: int64)
      modifies this
      ensures View() == Apply(old(View()), AddDelta(name, value))
    {
      hide Put, Lookup, Wrap;
      for i := 0 to |counterSlice|
        invariant gaugeSlice == old(gaugeSlice) && counterSlice == old(counterSlice)
        invariant forall j :: 0 <= j < i ==> counterSlice[j].name != name
      {
        if counterSlice[i].name == name {
          PutAt(counterSlice, name, Wrap(counterSlice[i].value + value), i);
          counterSlice := counterSlice[i := Entry(name, Wrap(counterSlice[i].value + value))];
          return;
        }
      }
      PutAt(counterSlice, name, value, |counterSlice|);
      WrapUnique(value, value);
      counterSlice := counterSlice + [Entry(name, value)];
    }
  }
}
