/**
 * The two implementations of the batch request (internal/handler/handlers.go): a fold over the
 * in-memory lists, and a transaction of upserts into the tables of migrations/.
 */
module Batches {
  import opened Wrappers
  import opened Numbers
  import opened Storage
  import opened Codec
  import opened Journal
  import opened Recovery
  import opened Handlers

  predicate KnownType(m: Metrics) {
    m.mtype == "gauge" || m.mtype == "counter"
  }

  /** The position of the first entry of unknown type, or the length of the batch. */
  function FirstUnknown(batch: seq<Metrics>): (k: nat)
    ensures k <= |batch| && (forall i | 0 <= i < k :: batch[i].mtype == "gauge" || batch[i].mtype == "counter")
    ensures k < |batch| ==> batch[k].mtype != "gauge" && batch[k].mtype != "counter"
  {
    if batch == [] || !KnownType(batch[0]) then 0 else 1 + FirstUnknown(batch[1..])
  }

  // ---------- in memory ----------

  /**
   * UpdatesGaugesBatch: entries take effect one by one, so those before the first unknown type
   * stay applied when the request is refused. A known type without its payload would be a nil
   * dereference in the source.
   */
  method UpdatesGaugesBatch(storage: MemStorage, batch: seq<Metrics>) returns (status: Status)
    requires AllPayloads(batch[..FirstUnknown(batch)])
    modifies storage
    ensures status == if FirstUnknown(batch) == |batch| then OK else BadRequest
    ensures storage.View() == Replay(old(storage.View()), Updates(batch[..FirstUnknown(batch)]))
  {
    ghost var known := batch[..FirstUnknown(batch)];
    assert Updates([]) == [];
    for i := 0 to |batch|
      invariant i <= |known|
      invariant AllPayloads(batch[..i])
      invariant storage.View() == Replay(old(storage.View()), Updates(batch[..i]))
    {
      var m := batch[i];
      if m.mtype != "gauge" && m.mtype != "counter" {
        assert i == |known|;
        return BadRequest;
      }
      assert m == known[i] && m in known;
      assert batch[..i + 1] == batch[..i] + [m];
      UpdatesSnoc(batch[..i], m);
      ReplayConcat(old(storage.View()), Updates(batch[..i]), UpdateOf(m));
      ApplyOne(storage.View(), m);
      if m.mtype == "gauge" {
        storage.AddGauge(m.id, m.value.value);
      } else {
        storage.AddCounter(m.id, m.delta.value);
      }
    }
    assert batch[..|batch|] == batch;
    status := OK;
  }

  lemma ApplyOne(s: Store, m: Metrics)
    requires HasPayload(m) && KnownType(m)
    ensures Replay(s, UpdateOf(m)) == Apply(s, UpdateOf(m)[0]) && |UpdateOf(m)| == 1
  {
    assert UpdateOf(m)[..0] == [];
  }

  // ---------- in the database ----------

  /** gauge_metrics and counter_metrics: a unique name column makes each table a map. */
  datatype Tables = Tables(gauges: map<string, Float64>, counters: map<string, int64>)

  const COLUMN_WIDTH := 255

  /**
   * What a VARCHAR(255) column makes of a name: the NUL character is refused, and so are excess
   * characters, unless all of them are spaces; then they are cut off.
   */
  function Column(name: string): Option<string> {
    if '\0' in name then None
    else if |name| <= COLUMN_WIDTH then Some(name)
    else if forall i | COLUMN_WIDTH <= i < |name| :: name[i] == ' ' then Some(name[..COLUMN_WIDTH])
    else None
  }

  /** A stored name is the name itself, or its first 255 characters when only spaces follow them. */
  lemma ColumnExactly(name: string, stored: string)
    ensures Column(name) == Some(stored)
       <==> (&& '\0' !in name && |stored| <= 255
             && exists spaces: string :: (&& name == stored + spaces && (forall c <- spaces :: c == ' ')
                                          && (spaces != [] ==> |stored| == 255)))
  {
    if Column(name) == Some(stored) {
      var spaces := name[|stored|..];
      assert name == stored + spaces;
    }
    forall spaces: string | (&& '\0' !in name && |stored| <= 255 && name == stored + spaces
                             && (forall c <- spaces :: c == ' ') && (spaces != [] ==> |stored| == 255))
      ensures Column(name) == Some(stored)
    {
      if spaces == [] {
        assert name == stored;
      } else {
        assert forall i | 255 <= i < |name| :: name[i] == spaces[i - 255] && spaces[i - 255] in spaces;
        assert name[..255] == stored;
      }
    }
  }

  /** Every name in the tables fits its column. */
  ghost predicate Columns(t: Tables) {
    (forall n <- t.gauges :: |n| <= COLUMN_WIDTH) && (forall n <- t.counters :: |n| <= COLUMN_WIDTH)
  }

  /**
   * INSERT ... ON CONFLICT (name) DO UPDATE: replaces a gauge, adds to a counter. None stands for
   * an error of the statement: a missing payload is a NULL in a NOT NULL column, and a sum outside
   * BIGINT is out of range.
   */
  function Upsert(t: Tables, m: Metrics): Option<Tables>
    requires KnownType(m)
  {
    var name :- Column(m.id);
    if !HasPayload(m) then None
    else if m.mtype == "gauge" then Some(t.(gauges := t.gauges[name := m.value.value]))
    else
      var sum := CounterRow(t, name) + m.delta.value;
      if -TWO_63 <= sum < TWO_63 then Some(t.(counters := t.counters[name := sum])) else None
  }

  function CounterRow(t: Tables, n: string): int64 {
    if n in t.counters then t.counters[n] else 0
  }

  /** The tables after all upserts, or None at the first entry that is refused. */
  function Upserts(t: Tables, batch: seq<Metrics>): Option<Tables> {
    if batch == [] then Some(t)
    else
      var before :- Upserts(t, batch[..|batch| - 1]);
      if KnownType(batch[|batch| - 1]) then Upsert(before, batch[|batch| - 1]) else None
  }

  class Database {
    var tables: Tables

    /** UpdatesGaugesBatchPostgres: commits all entries or none. */
    method UpdatesGaugesBatchPostgres(batch: seq<Metrics>) returns (status: Status)
      modifies this
      ensures tables == Upserts(old(tables), batch).GetOr(old(tables))
      ensures status == OK <==> Upserts(old(tables), batch).Some?
      ensures status == BadRequest <==>
        FirstUnknown(batch) < |batch| && Upserts(old(tables), batch[..FirstUnknown(batch)]).Some?
      ensures status in {OK, BadRequest, ServerError}
    {
      var tx := tables;
      for i := 0 to |batch|
        invariant tables == old(tables) && Upserts(tables, batch[..i]) == Some(tx)
        invariant i <= FirstUnknown(batch)
      {
        assert batch[..i + 1][..i] == batch[..i];
        if batch[i].mtype != "gauge" && batch[i].mtype != "counter" {
          RefusedPrefix(tables, batch, i, |batch|);
          return BadRequest;
        }
        var next := Upsert(tx, batch[i]);
        if next.None? {
          RefusedPrefix(tables, batch, i, |batch|);
          RefusedPrefix(tables, batch, i, FirstUnknown(batch));
          return ServerError;
        }
        tx := next.value;
      }
      assert batch[..|batch|] == batch;
      tables := tx;
      status := OK;
    }
  }

  /** Whatever follows a refused entry, the whole is refused. */
  lemma {:induction false} RefusedPrefix(t: Tables, batch: seq<Metrics>, i: nat, k: nat)
    requires i < k <= |batch| && Upserts(t, batch[..i + 1]).None?
    ensures Upserts(t, batch[..k]).None?
    ensures k == |batch| ==> Upserts(t, batch).None?
  {
    assert batch[..|batch|] == batch;
    if i + 1 < k {
      RefusedPrefix(t, batch, i, k - 1);
      assert batch[..k][..k - 1] == batch[..k - 1];
    }
  }

  // ---------- which batches the database commits ----------

  /**
   * Every entry is of a known type with its payload and a name the column takes, and no row leaves
   * int64 at any point of the batch.
   */
  ghost predicate Acceptable(t: Tables, batch: seq<Metrics>) {
    forall j | 1 <= j <= |batch| :: EntryOk(t, batch[..j])
  }

  /** The exact sum of the deltas a batch brings to the row of counter n. */
  function Deltas(batch: seq<Metrics>, n: string): int {
    if batch == [] then 0
    else
      var m := batch[|batch| - 1];
      Deltas(batch[..|batch| - 1], n)
      + if m.mtype == "counter" && Column(m.id) == Some(n) && m.delta.Some? then m.delta.value else 0
  }

  predicate InRange(t: Tables, batch: seq<Metrics>, n: string) {
    -TWO_63 <= CounterRow(t, n) + Deltas(batch, n) < TWO_63
  }

  /** One entry of an acceptable batch: the last one of this prefix. */
  predicate EntryOk(t: Tables, prefix: seq<Metrics>)
    requires prefix != []
  {
    var m := prefix[|prefix| - 1];
    && ((m.mtype == "gauge" && m.value.Some?) || (m.mtype == "counter" && m.delta.Some?))
    && Column(m.id).Some?
    && (m.mtype == "counter" ==> InRange(t, prefix, Column(m.id).value))
  }

  lemma AcceptableSnoc(t: Tables, batch: seq<Metrics>)
    requires batch != []
    ensures Acceptable(t, batch) <==> Acceptable(t, batch[..|batch| - 1]) && EntryOk(t, batch)
  {
    hide EntryOk;
    var k := |batch| - 1;
    assert batch[..k + 1] == batch;
    assert forall j | 1 <= j <= k :: batch[..k][..j] == batch[..j];
  }

  /** The transaction commits exactly the acceptable batches, and its counters are exact sums. */
  lemma {:induction false} CommitsExactly(t: Tables, batch: seq<Metrics>)
    ensures Upserts(t, batch).Some? <==> Acceptable(t, batch)
    ensures Upserts(t, batch).Some? ==>
      forall n :: CounterRow(Upserts(t, batch).value, n) == CounterRow(t, n) + Deltas(batch, n)
  {
    if batch != [] {
      CommitsExactly(t, batch[..|batch| - 1]);
      AcceptableSnoc(t, batch);
      hide Acceptable, Column;
    }
  }

  // ---------- the two backends together ----------

  /** Same gauges and same counters, name by name. */
  ghost predicate Represents(s: Store, t: Tables) {
    && (forall n :: Lookup(s.gauges, n) == if n in t.gauges then Some(t.gauges[n]) else None)
    && (forall n :: Lookup(s.counters, n) == if n in t.counters then Some(t.counters[n]) else None)
  }

  lemma EntriesKnown(t: Tables, batch: seq<Metrics>)
    requires Acceptable(t, batch)
    ensures forall m <- batch :: KnownType(m) && HasPayload(m)
  {
    forall i | 0 <= i < |batch| ensures KnownType(batch[i]) && HasPayload(batch[i]) {
      assert batch[..i + 1][i] == batch[i];
      assert EntryOk(t, batch[..i + 1]);
    }
  }

  lemma LastEntry(s: Store, batch: seq<Metrics>)
    requires batch != [] && forall m <- batch :: KnownType(m) && HasPayload(m)
    ensures var k := |batch| - 1;
      && AllPayloads(batch) && AllPayloads(batch[..k]) && |UpdateOf(batch[k])| == 1
      && Replay(s, Updates(batch)) == Apply(Replay(s, Updates(batch[..k])), UpdateOf(batch[k])[0])
  {
    var k := |batch| - 1;
    assert batch == batch[..k] + [batch[k]];
    assert forall m <- batch[..k] :: m in batch;
    UpdatesSnoc(batch[..k], batch[k]);
    ReplayConcat(s, Updates(batch[..k]), UpdateOf(batch[k]));
    ApplyOne(Replay(s, Updates(batch[..k])), batch[k]);
  }

  /** The column keeps every name of the batch as it is. */
  ghost predicate KeepsNames(batch: seq<Metrics>) {
    forall m <- batch :: Column(m.id) == Some(m.id)
  }

  lemma CommittedPayloads(t: Tables, batch: seq<Metrics>)
    requires Upserts(t, batch).Some?
    ensures FirstUnknown(batch) == |batch| && AllPayloads(batch)
    ensures forall m <- batch :: KnownType(m) && HasPayload(m)
  {
    hide Upserts, Acceptable;
    CommitsExactly(t, batch);
    EntriesKnown(t, batch);
    assert forall i | 0 <= i < |batch| :: batch[i] in batch;
  }

  lemma NoUpdates(s: Store)
    ensures Replay(s, Updates([])) == s
  {
  }

  lemma {:induction false} KeptCommit(s: Store, t: Tables, batch: seq<Metrics>)
    requires Represents(s, t) && Upserts(t, batch).Some? && KeepsNames(batch)
    ensures FirstUnknown(batch) == |batch| && AllPayloads(batch)
    ensures Represents(Replay(s, Updates(batch)), Upserts(t, batch).value)
  {
    hide Acceptable, Represents, Replay, Updates, Upsert, Column;
    CommittedPayloads(t, batch);
    if batch == [] {
      NoUpdates(s);
    } else {
      var k := |batch| - 1;
      assert batch[k] in batch && forall m <- batch[..k] :: m in batch;
      KeptCommit(s, t, batch[..k]);
      LastEntry(s, batch);
      UpsertRefines(Replay(s, Updates(batch[..k])), Upserts(t, batch[..k]).value, batch[k]);
    }
  }

  lemma UpsertRefines(s: Store, t: Tables, m: Metrics)
    requires Represents(s, t) && KnownType(m) && Upsert(t, m).Some? && Column(m.id) == Some(m.id)
    ensures HasPayload(m) && Represents(Apply(s, UpdateOf(m)[0]), Upsert(t, m).value)
  {
    hide Column;
    var s', t' := Apply(s, UpdateOf(m)[0]), Upsert(t, m).value;
    forall n ensures Lookup(s'.gauges, n) == if n in t'.gauges then Some(t'.gauges[n]) else None
             ensures Lookup(s'.counters, n) == if n in t'.counters then Some(t'.counters[n]) else None
    {
      ApplyCounter(s, UpdateOf(m)[0], n);
      if m.mtype == "gauge" {
        LookupPut(s.gauges, m.id, m.value.value, n);
      } else {
        WrapUnique(CounterRow(t, m.id) + m.delta.value, CounterRow(t, m.id) + m.delta.value);
      }
    }
  }

  lemma {:induction false} UpsertsColumns(t: Tables, batch: seq<Metrics>)
    requires Columns(t) && Upserts(t, batch).Some?
    ensures Columns(Upserts(t, batch).value)
  {
    if batch != [] {
      UpsertsColumns(t, batch[..|batch| - 1]);
    }
  }

  /** A name no row can have. */
  ghost predicate HasLong(s: Store) {
    exists n: string :: |n| > COLUMN_WIDTH && (Lookup(s.gauges, n).Some? || Lookup(s.counters, n).Some?)
  }

  lemma {:induction false} LongStays(s: Store, us: seq<Update>)
    requires HasLong(s)
    ensures HasLong(Replay(s, us))
  {
    var n: string :| |n| > COLUMN_WIDTH && (Lookup(s.gauges, n).Some? || Lookup(s.counters, n).Some?);
    ReplayGauge(s, us, n);
    ReplayCounter(s, us, n);
  }

  lemma LongDisagrees(s: Store, t: Tables)
    requires HasLong(s) && Columns(t)
    ensures !Represents(s, t)
  {
    var n: string :| |n| > COLUMN_WIDTH && (Lookup(s.gauges, n).Some? || Lookup(s.counters, n).Some?);
    assert n !in t.gauges && n !in t.counters;
  }

  /** A batch writes the name of each of its entries. */
  lemma {:induction false} WritesName(batch: seq<Metrics>, m: Metrics)
    requires AllPayloads(batch) && m in batch && KnownType(m)
    ensures if m.mtype == "gauge" then LastGauge(Updates(batch), m.id).Some? else m.id in CounterNames(Updates(batch))
  {
    var k := |batch| - 1;
    assert batch == batch[..k] + [batch[k]] && batch[k] in batch;
    assert forall e <- batch[..k] :: e in batch;
    UpdatesSnoc(batch[..k], batch[k]);
    var us, vs := Updates(batch[..k]), UpdateOf(batch[k]);
    LastGaugeConcat(us, vs, m.id);
    NamesConcat(us, vs);
    if batch[k] == m {
      assert vs[..0] == [] && |vs| == 1;
    } else {
      WritesName(batch[..k], m);
    }
  }

  lemma LongEntry(t: Tables, batch: seq<Metrics>)
    requires Acceptable(t, batch) && !KeepsNames(batch)
    ensures exists m <- batch :: |m.id| > COLUMN_WIDTH
  {
    var m :| m in batch && Column(m.id) != Some(m.id);
    var j :| 0 <= j < |batch| && batch[j] == m;
    assert EntryOk(t, batch[..j + 1]) && batch[..j + 1][j] == m;
  }

  lemma {:induction false} LongCommit(s: Store, t: Tables, batch: seq<Metrics>)
    requires Upserts(t, batch).Some? && !KeepsNames(batch)
    ensures FirstUnknown(batch) == |batch| && AllPayloads(batch) && HasLong(Replay(s, Updates(batch)))
  {
    hide Acceptable, Upserts, Column, KeepsNames, Replay, Updates, LastGauge, CounterNames;
    CommittedPayloads(t, batch);
    CommitsExactly(t, batch);
    LongEntry(t, batch);
    var m :| m in batch && |m.id| > COLUMN_WIDTH;
    WritesName(batch, m);
    ReplayGauge(s, Updates(batch), m.id);
    ReplayCounter(s, Updates(batch), m.id);
  }

  /**
   * Whatever the database commits, memory has applied too; the result is the same two maps if and
   * only if the column kept every name.
   */
  lemma {:induction false} CommitRefines(s: Store, t: Tables, batch: seq<Metrics>)
    requires Represents(s, t) && Columns(t) && Upserts(t, batch).Some?
    ensures FirstUnknown(batch) == |batch| && AllPayloads(batch) && Columns(Upserts(t, batch).value)
    ensures Represents(Replay(s, Updates(batch)), Upserts(t, batch).value) <==> KeepsNames(batch)
  {
    UpsertsColumns(t, batch);
    hide Represents, KeepsNames, Upserts, Replay, Updates, Columns, HasLong;
    if KeepsNames(batch) {
      KeptCommit(s, t, batch);
    } else {
      LongCommit(s, t, batch);
      LongDisagrees(Replay(s, Updates(batch)), Upserts(t, batch).value);
    }
  }

  /** The two states after a sequence of batches, each committed by the database. */
  function MemoryAfter(s: Store, batches: seq<seq<Metrics>>): Store
    requires forall b <- batches :: AllPayloads(b)
  {
    if batches == [] then s
    else
      assert batches[|batches| - 1] in batches;
      Replay(MemoryAfter(s, batches[..|batches| - 1]), Updates(batches[|batches| - 1]))
  }

  function TablesAfter(t: Tables, batches: seq<seq<Metrics>>): Option<Tables> {
    if batches == [] then Some(t)
    else
      var before :- TablesAfter(t, batches[..|batches| - 1]);
      Upserts(before, batches[|batches| - 1])
  }

  /**
   * Over any sequence of batches the database commits, the two backends stay the same two maps if
   * and only if the column kept every name.
   */
  lemma {:induction false} BackendsAgree(s: Store, t: Tables, batches: seq<seq<Metrics>>)
    requires Represents(s, t) && Columns(t) && TablesAfter(t, batches).Some?
    ensures forall b <- batches :: AllPayloads(b)
    ensures Represents(MemoryAfter(s, batches), TablesAfter(t, batches).value)
       <==> forall b <- batches :: KeepsNames(b)
  {
    Together(s, t, batches);
    if !forall b <- batches :: KeepsNames(b) {
      LongDisagrees(MemoryAfter(s, batches), TablesAfter(t, batches).value);
    }
  }

  lemma {:induction false} Together(s: Store, t: Tables, batches: seq<seq<Metrics>>)
    requires Represents(s, t) && Columns(t) && TablesAfter(t, batches).Some?
    ensures (forall b <- batches :: AllPayloads(b)) && Columns(TablesAfter(t, batches).value)
    ensures if forall b <- batches :: KeepsNames(b)
            then Represents(MemoryAfter(s, batches), TablesAfter(t, batches).value)
            else HasLong(MemoryAfter(s, batches))
  {
    hide Represents, KeepsNames, Upserts, Replay, Updates, Columns, HasLong, AllPayloads;
    if batches != [] {
      var k := |batches| - 1;
      Together(s, t, batches[..k]);
      assert batches == batches[..k] + [batches[k]];
      var mem, tables := MemoryAfter(s, batches[..k]), TablesAfter(t, batches[..k]).value;
      UpsertsColumns(tables, batches[k]);
      CommittedPayloads(tables, batches[k]);
      if !forall b <- batches[..k] :: KeepsNames(b) {
        LongStays(mem, Updates(batches[k]));
      } else if KeepsNames(batches[k]) {
        KeptCommit(mem, tables, batches[k]);
      } else {
        LongCommit(mem, tables, batches[k]);
      }
    }
  }

  // ---------- when the two backends agree ----------

  /** The entries the in-memory handler applies. */
  function Applied(batch: seq<Metrics>): seq<Metrics> {
    batch[..FirstUnknown(batch)]
  }

  /**
   * These updates would change nothing: each gauge already has the last value written to it, and
   * each counter exists and its deltas cancel out modulo 2^64.
   */
  ghost predicate NoEffect(s: Store, us: seq<Update>) {
    && (forall n | LastGauge(us, n).Some? :: Lookup(s.gauges, n) == LastGauge(us, n))
    && (forall n | n in CounterNames(us) :: Lookup(s.counters, n).Some? && Sum(us, n) % TWO_64 == 0)
  }

  lemma {:induction false} UnchangedGauge(s: Store, us: seq<Update>, n: string)
    ensures Lookup(Replay(s, us).gauges, n) == Lookup(s.gauges, n)
       <==> (LastGauge(us, n).Some? ==> Lookup(s.gauges, n) == LastGauge(us, n))
  {
    ReplayGauge(s, us, n);
  }

  lemma {:induction false} UnchangedCounter(s: Store, us: seq<Update>, n: string)
    ensures Lookup(Replay(s, us).counters, n) == Lookup(s.counters, n)
       <==> (n in CounterNames(us) ==> Lookup(s.counters, n).Some? && Sum(us, n) % TWO_64 == 0)
  {
    hide Replay, CounterNames, Sum, Lookup;
    ReplayCounter(s, us, n);
    var base, sum := CounterValue(s.counters, n), Sum(us, n);
    if n !in CounterNames(us) {
      SumUntouched(us, n);
      WrapUnique(base, base);
    } else if sum % TWO_64 == 0 {
      WrapUnique(base + sum, base);
    } else {
      assert (base + sum - base) % TWO_64 != 0;
    }
  }

  /** Tables that were not touched still represent memory exactly if memory's updates had no effect. */
  lemma {:induction false} UntouchedAgrees(s: Store, t: Tables, us: seq<Update>)
    requires Represents(s, t)
    ensures Represents(Replay(s, us), t) <==> NoEffect(s, us)
  {
    hide Replay, LastGauge, CounterNames, Sum, Lookup;
    forall n
      ensures Lookup(Replay(s, us).gauges, n) == Lookup(s.gauges, n)
         <==> (LastGauge(us, n).Some? ==> Lookup(s.gauges, n) == LastGauge(us, n))
      ensures Lookup(Replay(s, us).counters, n) == Lookup(s.counters, n)
         <==> (n in CounterNames(us) ==> Lookup(s.counters, n).Some? && Sum(us, n) % TWO_64 == 0)
    {
      UnchangedGauge(s, us, n);
      UnchangedCounter(s, us, n);
    }
    if Represents(Replay(s, us), t) {
      assert NoEffect(s, us);
    }
  }

  /** What the column does not keep has an effect on memory. */
  lemma {:induction false} LongHasEffect(s: Store, t: Tables, batch: seq<Metrics>)
    requires Represents(s, t) && Columns(t) && Upserts(t, batch).Some? && !KeepsNames(batch)
    ensures AllPayloads(batch) && !NoEffect(s, Updates(batch))
  {
    LongCommit(s, t, batch);
    LongDisagrees(Replay(s, Updates(batch)), t);
    hide Represents, Replay, Updates, Columns, HasLong, NoEffect;
    UntouchedAgrees(s, t, Updates(batch));
  }

  /**
   * After any batch, committed or refused, the two backends hold the same two maps if and only if
   * the database commits the batch with its names kept, or what memory applied of it had no effect.
   */
  lemma {:induction false} AgreesExactly(s: Store, t: Tables, batch: seq<Metrics>)
    requires Represents(s, t) && Columns(t) && AllPayloads(Applied(batch))
    ensures Represents(Replay(s, Updates(Applied(batch))), Upserts(t, batch).GetOr(t))
       <==> (Acceptable(t, batch) && KeepsNames(batch)) || NoEffect(s, Updates(Applied(batch)))
  {
    hide Represents, NoEffect, Acceptable, Updates, Replay, Upserts, KeepsNames, Columns;
    CommitsExactly(t, batch);
    if Upserts(t, batch).Some? {
      CommitRefines(s, t, batch);
      assert Applied(batch) == batch;
      if !KeepsNames(batch) {
        LongHasEffect(s, t, batch);
      }
    } else {
      UntouchedAgrees(s, t, Updates(Applied(batch)));
    }
  }

  /**
   * The first unknown type is at position i: the database is unchanged, whatever the entries before
   * it are, and memory holds exactly the effect of those i entries. That is what the database would
   * hold after them if it would commit them, names kept, and what it does hold only if they had no
   * effect.
   */
  lemma {:induction false} UnknownTypeDivergence(s: Store, t: Tables, batch: seq<Metrics>)
    requires Represents(s, t) && FirstUnknown(batch) < |batch| && AllPayloads(Applied(batch))
    ensures var good := Applied(batch);
      && Upserts(t, batch).None?
      && (Represents(Replay(s, Updates(good)), t) <==> NoEffect(s, Updates(good)))
      && (Acceptable(t, good) && KeepsNames(good) ==>
            Upserts(t, good).Some? && Represents(Replay(s, Updates(good)), Upserts(t, good).value))
  {
    var i := FirstUnknown(batch);
    assert batch[..i + 1][i] == batch[i];
    assert !EntryOk(t, batch[..i + 1]);
    CommitsExactly(t, batch);
    CommitsExactly(t, batch[..i]);
    hide Represents, NoEffect, Acceptable, Updates, Replay, Upserts, KeepsNames;
    UntouchedAgrees(s, t, Updates(batch[..i]));
    if Acceptable(t, batch[..i]) && KeepsNames(batch[..i]) {
      KeptCommit(s, t, batch[..i]);
    }
  }

  /**
   * Any batch of known types in which some row leaves int64 at some point: the database refuses it,
   * and in memory every counter it names becomes its row plus its exact deltas, wrapped.
   */
  lemma {:induction false} OverflowDivergence(s: Store, t: Tables, batch: seq<Metrics>, j: nat)
    requires Represents(s, t) && FirstUnknown(batch) == |batch| && AllPayloads(batch)
    requires 1 <= j <= |batch| && batch[j - 1].mtype == "counter" && Column(batch[j - 1].id).Some?
    requires !InRange(t, batch[..j], Column(batch[j - 1].id).value)
    ensures Upserts(t, batch).None?
    ensures forall n | n in CounterNames(Updates(batch)) ::
      Lookup(Replay(s, Updates(batch)).counters, n) == Some(Wrap(CounterRow(t, n) + Sum(Updates(batch), n)))
    ensures Represents(Replay(s, Updates(batch)), t) <==> NoEffect(s, Updates(batch))
  {
    hide *;
    OverflowRefused(t, batch, j);
    forall n | n in CounterNames(Updates(batch))
      ensures Lookup(Replay(s, Updates(batch)).counters, n) == Some(Wrap(CounterRow(t, n) + Sum(Updates(batch), n)))
    {
      CounterFromRow(s, t, Updates(batch), n);
    }
    UntouchedAgrees(s, t, Updates(batch));
  }

  lemma {:induction false} OverflowRefused(t: Tables, batch: seq<Metrics>, j: nat)
    requires 1 <= j <= |batch| && batch[j - 1].mtype == "counter" && Column(batch[j - 1].id).Some?
    requires !InRange(t, batch[..j], Column(batch[j - 1].id).value)
    ensures Upserts(t, batch).None?
  {
    hide Upserts, Deltas, Column, InRange;
    assert batch[..j][j - 1] == batch[j - 1];
    assert !EntryOk(t, batch[..j]);
    CommitsExactly(t, batch);
  }

  lemma {:induction false} CounterFromRow(s: Store, t: Tables, us: seq<Update>, n: string)
    requires Represents(s, t) && n in CounterNames(us)
    ensures Lookup(Replay(s, us).counters, n) == Some(Wrap(CounterRow(t, n) + Sum(us, n)))
  {
    assert CounterValue(s.counters, n) == CounterRow(t, n);
    hide *;
    ReplayCounter(s, us, n);
  }

  /** Two entries are enough: the largest int64, then one more. */
  lemma OverflowHappens(n: string)
    requires Column(n) == Some(n)
    ensures var top, one := Metrics(n, "counter", Some(TWO_63 - 1), None), Metrics(n, "counter", Some(1), None);
      var batch := [top, one];
      && Upserts(Tables(map[], map[]), batch).None?
      && AllPayloads(batch)
      && Lookup(Replay(EMPTY, Updates(batch)).counters, n) == Some(-TWO_63)
  {
    var top, one := Metrics(n, "counter", Some(TWO_63 - 1), None), Metrics(n, "counter", Some(1), None);
    var batch := [top, one];
    assert batch[..1] == [top] && [top][..0] == [];
    assert Upserts(Tables(map[], map[]), [top]) == Some(Tables(map[], map[n := TWO_63 - 1]));
    var us := [AddDelta(n, TWO_63 - 1), AddDelta(n, 1)];
    UpdatesOfEvents(us, batch);
    WrapsAround(n, us);
  }

  lemma WrapsAround(n: string, us: seq<Update>)
    requires us == [AddDelta(n, TWO_63 - 1), AddDelta(n, 1)]
    ensures Lookup(Replay(EMPTY, us).counters, n) == Some(-TWO_63)
  {
    assert us[..1] == [us[0]] && us[..1][..0] == [];
    assert Sum(us[..1], n) == TWO_63 - 1 && Sum(us, n) == TWO_63;
    assert n in CounterNames(us);
    ReplayCounter(EMPTY, us, n);
  }
}
