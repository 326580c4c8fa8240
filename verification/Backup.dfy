/** internal/repository/backup.go: producers, consumers, restore and the rotating backup. */
module Backup {
  import opened Wrappers
  import opened Numbers
  import opened Storage
  import opened Codec
  import opened FileSystem
  import opened Journal

  datatype Error = UnsupportedValue | FileClosed | EndOfFile

  // ---------- writing ----------

  class Producer {
    const volume: Volume
    const codec: Codec
    var inode: Inode
    var open: bool
    var buffer: string  // bytes accepted by the bufio.Writer and not yet flushed

    ghost predicate Valid()
      reads this, volume
    {
      Sound(codec) && (open ==> inode in volume.disk.data && buffer == "")
    }

    /** NewProducer: append to the file at path, creating it if need be. */
    constructor (volume: Volume, codec: Codec, path: string)
      requires Sound(codec) && volume.disk.Valid()
      modifies volume
      ensures this.volume == volume && this.codec == codec && open && Valid() && volume.disk.Valid()
      ensures (volume.disk, inode) == old(volume.disk).Open(path)
    {
      this.volume, this.codec, buffer, open := volume, codec, "", true;
      inode := volume.disk.Open(path).1;
      new;
      volume.disk := volume.disk.Open(path).0;
    }

    method Close()
      requires Valid()
      modifies this
      ensures Valid() && !open && inode == old(inode)
    {
      open := false;
    }

    /**
     * One record and its newline are appended to the open file, in one piece; a record the encoder
     * refuses, or a closed file, leaves the disk as it was.
     */
    method WriteEvent(event: Metrics) returns (err: Option<Error>)
      requires Valid()
      modifies this, volume
      ensures Valid() && open == old(open) && inode == old(inode)
      ensures err == if event.value.Some? && event.value.value % TWO_63 >= INFINITY then Some(UnsupportedValue)
                     else if !open then Some(FileClosed) else None
      ensures volume.disk == if err.Some? then old(volume.disk)
                             else old(volume.disk).Append(inode, codec.encode(event).value + "\n")
    {
      EncodableExactly(event);
      var data := codec.encode(event);
      if data.None? {
        return Some(UnsupportedValue);
      }
      buffer := buffer + data.value;
      buffer := buffer + "\n";
      if !open {
        return Some(FileClosed);
      }
      assert buffer == data.value + "\n";
      volume.disk := volume.disk.Append(inode, buffer);
      buffer := "";
      err := None;
    }
  }

  // ---------- reading ----------

  class Consumer {
    const codec: Codec
    var unread: string

    constructor (volume: Volume, codec: Codec, path: string)
      requires volume.disk.Valid()
      modifies volume
      ensures volume.disk == old(volume.disk).Open(path).0
      ensures this.codec == codec && unread == old(volume.disk).Content(path).GetOr("")
    {
      this.codec := codec;
      unread := volume.disk.Content(path).GetOr("");
      new;
      volume.disk := volume.disk.Open(path).0;
    }

    /** Takes one line; the next record, or an error at an unterminated or undecodable line. */
    method ReadEvent() returns (event: Option<Metrics>)
      modifies this
      ensures unread == AfterLine(old(unread))
      ensures Records(codec, old(unread)) == if event.None? then [] else [event.value] + Records(codec, unread)
    {
      var k := LineEnd(unread);
      if k == |unread| {
        unread := "";
        return None;
      }
      event := codec.decode(unread[..k]);
      unread := unread[k + 1..];
    }
  }

  /** The switch on the record type; any other type changes nothing. */
  method ApplyRecord(storage: MemStorage, m: Metrics)
    requires HasPayload(m)
    modifies storage
    ensures storage.View() == Replay(old(storage.View()), UpdateOf(m))
  {
    ReplayOne(storage.View(), UpdateOf(m));
    if m.mtype == "gauge" {
      storage.AddGauge(m.id, m.value.value);
    } else if m.mtype == "counter" {
      storage.AddCounter(m.id, m.delta.value);
    }
  }

  /**
   * RestoreFromBackup: replays the readable prefix of the file into the storage. It reports an
   * error exactly when not even the first record can be read, an empty file included.
   */
  method RestoreFromBackup(storage: MemStorage, volume: Volume, codec: Codec, path: string) returns (err: Option<Error>)
    requires volume.disk.Valid() && Restorable(codec, volume.disk.Content(path).GetOr(""))
    modifies storage, volume
    ensures volume.disk == old(volume.disk).Open(path).0
    ensures storage.View() == Replay(old(storage.View()), Restored(codec, old(volume.disk).Content(path).GetOr("")))
    ensures err.Some? <==> Records(codec, old(volume.disk).Content(path).GetOr("")) == []
  {
    hide Records, UpdateOf, Replay, Updates;
    ghost var ms := Records(codec, volume.disk.Content(path).GetOr(""));
    ReplayOne(storage.View(), []);
    NoUpdates();
    var consumer := new Consumer(volume, codec, path);
    var event := consumer.ReadEvent();
    if event.None? {
      return Some(EndOfFile);
    }
    ghost var done: seq<Metrics> := [];
    while event.Some?
      invariant consumer.codec == codec && fresh(consumer)
      invariant volume.disk == old(volume.disk).Open(path).0
      invariant ms == done + if event.None? then [] else [event.value] + Records(codec, consumer.unread)
      invariant AllPayloads(done) && storage.View() == Replay(old(storage.View()), Updates(done))
      decreases |ms| - |done|, event.Some?
    {
      ReplaySnoc(old(storage.View()), ms, done, event.value, Records(codec, consumer.unread));
      ApplyRecord(storage, event.value);
      done := done + [event.value];
      assert ms == done + Records(codec, consumer.unread);
      event := consumer.ReadEvent();
    }
    assert ms == done;
    err := None;
  }

  lemma NoUpdates()
    ensures Updates([]) == []
  {
  }

  lemma ReplaySnoc(s: Store, ms: seq<Metrics>, done: seq<Metrics>, m: Metrics, rest: seq<Metrics>)
    requires AllPayloads(ms) && ms == done + ([m] + rest)
    ensures AllPayloads(done) && HasPayload(m) && AllPayloads(done + [m])
    ensures Replay(s, Updates(done + [m])) == Replay(Replay(s, Updates(done)), UpdateOf(m))
  {
    assert ms[|done|] == m && m in ms;
    assert forall d <- done :: d in ms;
    UpdatesSnoc(done, m);
    ReplayConcat(s, Updates(done), UpdateOf(m));
  }

  lemma ReplayOne(s: Store, us: seq<Update>)
    requires |us| <= 1
    ensures Replay(s, us) == if us == [] then s else Apply(s, us[0])
  {
    assert |us| == 1 ==> us[..0] == [];
  }

  // ---------- dumping ----------

  /** The records of a backup: every gauge, then every counter. */
  function Dump(s: Store): seq<Update> {
    seq(|s.gauges|, i requires 0 <= i < |s.gauges| => SetGauge(s.gauges[i].name, s.gauges[i].value))
    + seq(|s.counters|, i requires 0 <= i < |s.counters| => AddDelta(s.counters[i].name, s.counters[i].value))
  }

  /** No gauge is a NaN or an infinity. */
  predicate FiniteGauges(s: Store) {
    forall i | 0 <= i < |s.gauges| :: s.gauges[i].value % TWO_63 < INFINITY
  }

  lemma DumpWritable(s: Store)
    ensures AllWritable(Dump(s)) <==> FiniteGauges(s)
  {
    forall i | 0 <= i < |s.gauges| ensures Dump(s)[i] == SetGauge(s.gauges[i].name, s.gauges[i].value) {
    }
    forall i | 0 <= i < |s.gauges| ensures Writable(Dump(s)[i]) <==> s.gauges[i].value % TWO_63 < INFINITY {
      FiniteExactly(s.gauges[i].value);
    }
    assert forall i | 0 <= i < |Dump(s)| :: Dump(s)[i] in Dump(s);
  }

  /** The records of the dump, by position. */
  lemma DumpEvents(s: Store)
    ensures |Dump(s)| == |s.gauges| + |s.counters|
    ensures forall i | 0 <= i < |s.gauges| ::
      EventOf(Dump(s)[i]) == Metrics(s.gauges[i].name, "gauge", None, Some(s.gauges[i].value))
    ensures forall i | 0 <= i < |s.counters| ::
      EventOf(Dump(s)[|s.gauges| + i]) == Metrics(s.counters[i].name, "counter", Some(s.counters[i].value), None)
  {
  }

  /** What gets written before the first value the encoder refuses. */
  function WrittenPart(us: seq<Update>): (r: seq<Update>)
    ensures AllWritable(r) && r <= us
    ensures r == us <==> AllWritable(us)
    ensures |r| < |us| ==> !Writable(us[|r|])
  {
    if us == [] || !Writable(us[0]) then [] else [us[0]] + WrittenPart(us[1..])
  }

  function OldPath(path: string): string {
    path + "_old"
  }

  /** The renaming half of performBackup: what was at path is at path_old, and path is free. */
  function Rotated(d: Disk, path: string): Disk {
    d.Unlink(OldPath(path)).Move(path, OldPath(path))
  }

  /** The disk after performBackup. */
  function BackedUp(c: Codec, d: Disk, path: string, s: Store): Disk
    requires Sound(c) && d.Valid()
  {
    var (d', i) := Rotated(d, path).Open(path);
    d'.Append(i, Text(c, WrittenPart(Dump(s))))
  }

  lemma TextNone(c: Codec)
    requires Sound(c)
    ensures Text(c, []) == ""
  {
  }

  lemma TextWritten(c: Codec, d: Disk, i: Inode, us: seq<Update>, u: Update)
    requires Sound(c) && i in d.data && AllWritable(us) && Writable(u)
    ensures d.Append(i, Text(c, us)).Append(i, LineOf(c, u) + "\n") == d.Append(i, Text(c, us + [u]))
  {
    TextConcat(c, us, [u]);
    TextOne(c, u);
    AppendTwice(d, i, Text(c, us), LineOf(c, u) + "\n");
  }

  lemma {:induction false} WrittenUpTo(us: seq<Update>, k: nat)
    requires k < |us| && AllWritable(us[..k]) && !Writable(us[k])
    ensures WrittenPart(us) == us[..k] && !AllWritable(us)
  {
    assert us[k] in us;
    if k > 0 {
      assert us[0] == us[..k][0] && us[1..][..k - 1] == us[..k][1..];
      WrittenUpTo(us[1..], k - 1);
      assert us[..k] == [us[0]] + us[1..][..k - 1];
    }
  }

  /** One iteration of either backup loop: the file at ino gains the next record, or nothing at all. */
  method WriteUpdate(p: Producer, ghost start: Disk, ghost dump: seq<Update>, ghost k: nat, event: Metrics)
    returns (err: Option<Error>)
    requires p.Valid() && p.open && k < |dump| && event == EventOf(dump[k])
    requires p.inode in start.data && AllWritable(dump[..k])
    requires p.volume.disk == start.Append(p.inode, Text(p.codec, dump[..k]))
    modifies p, p.volume
    ensures p.Valid() && p.open && p.inode == old(p.inode)
    ensures err == if Writable(dump[k]) then None else Some(UnsupportedValue)
    ensures if err.None? then AllWritable(dump[..k + 1]) else !AllWritable(dump)
    ensures p.volume.disk
         == start.Append(p.inode, Text(p.codec, if err.None? then dump[..k + 1] else WrittenPart(dump)))
  {
    err := p.WriteEvent(event);
    if err.Some? {
      WrittenUpTo(dump, k);
    } else {
      TextWritten(p.codec, start, p.inode, dump[..k], dump[k]);
      assert dump[..k] + [dump[k]] == dump[..k + 1];
    }
  }

  /**
   * performBackup. It closes the shared producer for good, and fails exactly when some gauge is a
   * NaN or an infinity, leaving at path the records before it.
   */
  method PerformBackup(storage: MemStorage, producer: Producer, path: string) returns (err: Option<Error>)
    requires producer.Valid() && producer.volume.disk.Valid()
    modifies producer, producer.volume
    ensures producer.Valid() && !producer.open && producer.volume.disk.Valid()
    ensures producer.volume.disk == BackedUp(producer.codec, old(producer.volume.disk), path, storage.View())
    ensures err == if FiniteGauges(storage.View()) then None else Some(UnsupportedValue)
  {
    hide Text, WrittenPart, Sound, FiniteGauges, Dump;
    var volume, codec := producer.volume, producer.codec;
    producer.Close();
    volume.disk := volume.disk.Unlink(OldPath(path));
    volume.disk := volume.disk.Move(path, OldPath(path));
    var newProducer := new Producer(volume, codec, path);
    ghost var start, ino, dump := volume.disk, newProducer.inode, Dump(storage.View());
    DumpWritable(storage.View());
    DumpEvents(storage.View());
    AppendNothing(start, ino);
    TextNone(codec);
    assert dump[..0] == [];
    for i := 0 to |storage.gaugeSlice|
      invariant newProducer.Valid() && newProducer.open && newProducer.inode == ino && !producer.open
      invariant AllWritable(dump[..i]) && volume.disk == start.Append(ino, Text(codec, dump[..i]))
    {
      var gauge := storage.gaugeSlice[i];
      var backup := Metrics(gauge.name, "gauge", None, Some(gauge.value));
      err := WriteUpdate(newProducer, start, dump, i, backup);
      if err.Some? {
        return err;
      }
    }
    for i := 0 to |storage.counterSlice|
      invariant newProducer.Valid() && newProducer.open && newProducer.inode == ino && !producer.open
      invariant var k := |storage.gaugeSlice| + i;
        AllWritable(dump[..k]) && volume.disk == start.Append(ino, Text(codec, dump[..k]))
    {
      var counter := storage.counterSlice[i];
      var backup := Metrics(counter.name, "counter", Some(counter.value), None);
      err := WriteUpdate(newProducer, start, dump, |storage.gaugeSlice| + i, backup);
      if err.Some? {
        return err;
      }
    }
    assert dump[..|dump|] == dump;
    err := None;
  }
}
