/** What a backup is worth: dump, rotate, restore. */
module Recovery {
  import opened Wrappers
  import opened Numbers
  import opened Storage
  import opened Codec
  import opened FileSystem
  import opened Journal
  import opened Backup

  // ---------- the updates a dump performs ----------

  lemma {:induction false} NamesConcat(us: seq<Update>, vs: seq<Update>)
    ensures GaugeNames(us + vs) == GaugeNames(us) + GaugeNames(vs)
    ensures CounterNames(us + vs) == CounterNames(us) + CounterNames(vs)
  {
    if vs == [] {
      assert us + vs == us;
    } else {
      assert (us + vs)[..|us + vs| - 1] == us + vs[..|vs| - 1];
      NamesConcat(us, vs[..|vs| - 1]);
    }
  }

  lemma {:induction false} LastGaugeConcat(us: seq<Update>, vs: seq<Update>, n: string)
    ensures LastGauge(us + vs, n) == if LastGauge(vs, n).Some? then LastGauge(vs, n) else LastGauge(us, n)
  {
    if vs == [] {
      assert us + vs == us;
    } else {
      assert (us + vs)[..|us + vs| - 1] == us + vs[..|vs| - 1];
      LastGaugeConcat(us, vs[..|vs| - 1], n);
    }
  }

  lemma {:induction false} LookupSnoc<T>(s: seq<Entry<T>>, e: Entry<T>, n: string)
    requires Unique(s + [e])
    ensures Lookup(s + [e], n) == if e.name == n then Some(e.value) else Lookup(s, n)
  {
    if |s| > 0 {
      assert (s + [e])[0].name != (s + [e])[|s|].name;
      assert (s + [e])[1..] == s[1..] + [e];
      LookupSnoc(s[1..], e, n);
    } else {
      assert Lookup((s + [e])[1..], n) == None;
    }
  }

  function GaugeUpdates(gs: seq<Entry<Float64>>): seq<Update> {
    seq(|gs|, i requires 0 <= i < |gs| => SetGauge(gs[i].name, gs[i].value))
  }

  function CounterUpdates(cs: seq<Entry<int64>>): seq<Update> {
    seq(|cs|, i requires 0 <= i < |cs| => AddDelta(cs[i].name, cs[i].value))
  }

  lemma {:induction false} GaugePart(gs: seq<Entry<Float64>>, n: string)
    requires Unique(gs)
    ensures GaugeNames(GaugeUpdates(gs)) == Names(gs) && CounterNames(GaugeUpdates(gs)) == []
    ensures LastGauge(GaugeUpdates(gs), n) == Lookup(gs, n) && Sum(GaugeUpdates(gs), n) == 0
  {
    if gs != [] {
      var k := |gs| - 1;
      assert gs == gs[..k] + [gs[k]];
      GaugePart(gs[..k], n);
      LookupSnoc(gs[..k], gs[k], n);
      assert GaugeUpdates(gs)[..k] == GaugeUpdates(gs[..k]);
    }
  }

  lemma {:induction false} CounterPart(cs: seq<Entry<int64>>, n: string)
    requires Unique(cs)
    ensures CounterNames(CounterUpdates(cs)) == Names(cs) && GaugeNames(CounterUpdates(cs)) == []
    ensures LastGauge(CounterUpdates(cs), n) == None && Sum(CounterUpdates(cs), n) == CounterValue(cs, n)
  {
    if cs != [] {
      var k := |cs| - 1;
      assert cs == cs[..k] + [cs[k]];
      CounterPart(cs[..k], n);
      CounterSnoc(cs[..k], cs[k], n);
      hide Lookup, CounterValue, Unique;
      assert CounterUpdates(cs)[..k] == CounterUpdates(cs[..k]);
      assert Names(cs) == Names(cs[..k]) + [cs[k].name];
    }
  }

  lemma CounterSnoc(cs: seq<Entry<int64>>, e: Entry<int64>, n: string)
    requires Unique(cs + [e])
    ensures CounterValue(cs + [e], n) == CounterValue(cs, n) + if e.name == n then e.value else 0
  {
    LookupSnoc<int64>(cs, e, n);
    LookupKnown<int64>(cs, n);
    forall i | 0 <= i < |cs| ensures Names(cs)[i] != e.name {
      assert (cs + [e])[i].name != (cs + [e])[|cs|].name;
    }
  }

  /** A dump writes each gauge once with its value and adds each counter's value once, in list order. */
  lemma DumpMeaning(s: Store, n: string)
    requires WellFormed(s)
    ensures GaugeNames(Dump(s)) == Names(s.gauges) && CounterNames(Dump(s)) == Names(s.counters)
    ensures LastGauge(Dump(s), n) == Lookup(s.gauges, n)
    ensures Sum(Dump(s), n) == CounterValue(s.counters, n)
  {
    var g, c := GaugeUpdates(s.gauges), CounterUpdates(s.counters);
    assert Dump(s) == g + c;
    GaugePart(s.gauges, n);
    CounterPart(s.counters, n);
    NamesConcat(g, c);
    LastGaugeConcat(g, c, n);
    SumConcat(g, c, n);
  }

  // ---------- restoring ----------

  /** Restoring a dump into any store overrides its gauges and adds the counters, pointwise and wrapped. */
  lemma {:induction false} RestoreInto(t: Store, s: Store, n: string)
    requires WellFormed(t) && WellFormed(s)
    ensures var r := Replay(t, Dump(s));
      && WellFormed(r)
      && Names(r.gauges) == Extend(Names(t.gauges), Names(s.gauges))
      && Names(r.counters) == Extend(Names(t.counters), Names(s.counters))
      && Lookup(r.gauges, n) == (if Lookup(s.gauges, n).Some? then Lookup(s.gauges, n) else Lookup(t.gauges, n))
      && Lookup(r.counters, n)
         == if Lookup(s.counters, n).Some? || Lookup(t.counters, n).Some?
            then Some(Wrap(CounterValue(t.counters, n) + CounterValue(s.counters, n)))
            else None
  {
    hide Dump, Replay, LastGauge, Sum, Wrap, Lookup, Extend, Names, GaugeNames, CounterNames;
    DumpMeaning(s, n);
    ReplayNames(t, Dump(s));
    ReplayGauge(t, Dump(s), n);
    ReplayCounter(t, Dump(s), n);
    LookupKnown(s.counters, n);
  }

  /** Restoring a dump into an empty store gives back the store, list order included. */
  lemma DumpRoundTrip(s: Store)
    requires WellFormed(s)
    ensures Replay(EMPTY, Dump(s)) == s
  {
    var r := Replay(EMPTY, Dump(s));
    forall n ensures Lookup(r.gauges, n) == Lookup(s.gauges, n)
             ensures Lookup(r.counters, n) == Lookup(s.counters, n)
    {
      RestoreInto(EMPTY, s, n);
      WrapUnique(CounterValue(s.counters, n), CounterValue(s.counters, n));
    }
    RestoreInto(EMPTY, s, "");
    NamesDistinct(s.gauges);
    NamesDistinct(s.counters);
    ExtendDistinct([], Names(s.gauges));
    ExtendDistinct([], Names(s.counters));
    Extensional(r.gauges, s.gauges);
    Extensional<int64>(r.counters, s.counters);
  }

  lemma NamesDistinct<T>(s: seq<Entry<T>>)
    requires Unique(s)
    ensures Distinct([] + Names(s)) && [] + Names(s) == Names(s)
  {
    assert [] + Names(s) == Names(s);
  }

  // ---------- rotation ----------

  lemma OldPathDiffers(path: string)
    ensures OldPath(path) != path
  {
    assert |OldPath(path)| == |path| + 4;
  }

  lemma RotatedContent(d: Disk, path: string)
    requires d.Valid()
    ensures var r := Rotated(d, path);
      r.Valid() && path !in r.names && OldPath(path) != path && r.Content(OldPath(path)) == d.Content(path)
  {
    OldPathDiffers(path);
  }

  lemma OpenedFresh(r: Disk, path: string, other: string, text: string)
    requires r.Valid() && path !in r.names && other != path
    ensures var (d, i) := r.Open(path);
      var d' := d.Append(i, text);
      d'.Valid() && d'.Content(path) == Some(text) && d'.Content(other) == r.Content(other)
  {
    assert "" + text == text;
  }

  /** One run: the previous file moves to path_old whole, and path holds the written part of the dump. */
  lemma BackupContent(c: Codec, d: Disk, path: string, s: Store)
    requires Sound(c) && d.Valid()
    ensures var d' := BackedUp(c, d, path, s);
      && d'.Valid()
      && d'.Content(path) == Some(Text(c, WrittenPart(Dump(s))))
      && d'.Content(path + "_old") == d.Content(path)
  {
    RotatedContent(d, path);
    assert OldPath(path) == path + "_old";
    hide Rotated, Text, WrittenPart, Dump, OldPath;
    OpenedFresh(Rotated(d, path), path, OldPath(path), Text(c, WrittenPart(Dump(s))));
  }

  lemma {:induction false} NamesLength(us: seq<Update>)
    ensures |GaugeNames(us)| + |CounterNames(us)| == |us|
  {
    if us != [] {
      NamesLength(us[..|us| - 1]);
    }
  }

  lemma {:induction false} ExtendLength(ms: seq<string>)
    ensures |Extend([], ms)| <= |ms|
  {
    if ms != [] {
      ExtendLength(ms[..|ms| - 1]);
    }
  }

  /** Fewer records than a dump has cannot introduce all its names. */
  lemma EveryNameNeeded(s: Store, us: seq<Update>)
    ensures Replay(EMPTY, us) == s ==> |us| >= |Dump(s)|
  {
    ReplayNames(EMPTY, us);
    assert Names(EMPTY.gauges) == [] && Names(EMPTY.counters) == [];
    ExtendLength(GaugeNames(us));
    ExtendLength(CounterNames(us));
    NamesLength(us);
    assert |Dump(s)| == |Names(s.gauges)| + |Names(s.counters)|;
  }

  /**
   * A finished run leaves a file that restores, into an empty store, exactly the store it was taken
   * from if and only if no gauge is a NaN or an infinity.
   */
  lemma BackupRestores(c: Codec, d: Disk, path: string, s: Store)
    requires Sound(c) && d.Valid() && WellFormed(s)
    ensures var text := BackedUp(c, d, path, s).Content(path).GetOr("");
      Restorable(c, text) && (Replay(EMPTY, Restored(c, text)) == s <==> FiniteGauges(s))
  {
    DumpWritable(s);
    var us := WrittenPart(Dump(s));
    BackupContent(c, d, path, s);
    ReadBack(c, us, "");
    assert Text(c, us) + "" == Text(c, us);
    if AllWritable(Dump(s)) {
      DumpRoundTrip(s);
    } else {
      EveryNameNeeded(s, us);
    }
  }

  /** The disk after one backup of each store, in turn. */
  function BackedUpAll(c: Codec, d: Disk, path: string, ss: seq<Store>): (d': Disk)
    requires Sound(c) && d.Valid()
    ensures d'.Valid()
  {
    if ss == [] then d
    else
      BackupContent(c, BackedUpAll(c, d, path, ss[..|ss| - 1]), path, ss[|ss| - 1]);
      BackedUp(c, BackedUpAll(c, d, path, ss[..|ss| - 1]), path, ss[|ss| - 1])
  }

  /** After m runs the path holds run m and path_old run m-1, whatever the runs before them did. */
  lemma {:induction false} SerialRuns(c: Codec, d: Disk, path: string, ss: seq<Store>)
    requires Sound(c) && d.Valid() && |ss| >= 2
    ensures var d', m := BackedUpAll(c, d, path, ss), |ss|;
      && d'.Content(path) == Some(Text(c, WrittenPart(Dump(ss[m - 1]))))
      && d'.Content(path + "_old") == Some(Text(c, WrittenPart(Dump(ss[m - 2]))))
  {
    var m := |ss|;
    var d1 := BackedUpAll(c, d, path, ss[..m - 1]);
    assert ss[..m - 1][..m - 2] == ss[..m - 2];
    BackupContent(c, BackedUpAll(c, d, path, ss[..m - 2]), path, ss[m - 2]);
    BackupContent(c, d1, path, ss[m - 1]);
  }

  /**
   * A gauge the encoder refuses makes every run fail until it is overwritten. One failed run
   * keeps the last good backup at path_old; the second failed run destroys it: from then on both
   * files hold only the gauges before the refused one.
   */
  lemma TwoFailedRunsLoseTheBackup(c: Codec, d: Disk, path: string, s: Store, bad: nat)
    requires Sound(c) && d.Valid() && WellFormed(s)
    requires bad < |s.gauges| && !Finite(s.gauges[bad].value)
    requires forall i | 0 <= i < bad :: Finite(s.gauges[i].value)
    ensures var d1, d2 := BackedUp(c, d, path, s), BackedUpAll(c, d, path, [s, s]);
      var partial := Dump(s)[..bad];
      && AllWritable(partial)
      && d1.Content(path) == Some(Text(c, partial)) && d1.Content(path + "_old") == d.Content(path)
      && d2.Content(path) == Some(Text(c, partial)) && d2.Content(path + "_old") == Some(Text(c, partial))
  {
    assert forall i | 0 <= i < bad :: Writable(Dump(s)[i]);
    WrittenUpTo(Dump(s), bad);
    BackupContent(c, d, path, s);
    SerialRuns(c, d, path, [s, s]);
  }
}
