/** internal/handler/handlers.go over the in-memory store: single updates, queries and batches. */
module Handlers {
  import opened Wrappers
  import opened Numbers
  import opened Storage
  import opened Codec
  import opened Journal
  import opened Backup

  /** The HTTP status of an answer. */
  datatype Status = OK | BadRequest | NotFound | NotAcceptable | ServerError

  // ---------- synchronous update ----------

  /** The update a well-formed request asks for; None is answered with NotAcceptable. */
  function Requested(body: Option<Metrics>): (u: Option<Update>)
    ensures u.None? <==> (
      || body.None? || body.value.id == ""
      || !(|| (body.value.mtype == "gauge" && body.value.value.Some?)
           || (body.value.mtype == "counter" && body.value.delta.Some?)))
    ensures u.Some? && body.value.mtype == "gauge" ==> u.value == SetGauge(body.value.id, body.value.value.value)
    ensures u.Some? && body.value.mtype == "counter" ==> u.value == AddDelta(body.value.id, body.value.delta.value)
    ensures u.Some? ==> HasPayload(body.value) && UpdateOf(body.value) == [u.value]
  {
    if body.None? || body.value.id == "" || !HasPayload(body.value) then None
    else if body.value.mtype == "gauge" then Some(SetGauge(body.value.id, body.value.value.value))
    else if body.value.mtype == "counter" then Some(AddDelta(body.value.id, body.value.delta.value))
    else None
  }

  /**
   * PostUpdateSyncBackup without interference. A rejected request changes nothing. An accepted one
   * always changes memory; its record reaches the file only if the producer is open and the value
   * can be encoded, and the answer carries the metric even when the file does not.
   */
  method PostUpdateSyncBackup(storage: MemStorage, producer: Producer, body: Option<Metrics>)
    returns (status: Status, echo: Option<Metrics>)
    requires producer.Valid()
    modifies storage, producer, producer.volume
    ensures producer.Valid() && producer.open == old(producer.open) && producer.inode == old(producer.inode)
    ensures status == NotAcceptable <==> (
      || body.None? || body.value.id == ""
      || !(|| (body.value.mtype == "gauge" && body.value.value.Some?)
           || (body.value.mtype == "counter" && body.value.delta.Some?)))
    ensures status == NotAcceptable ==>
      echo == None && storage.View() == old(storage.View()) && producer.volume.disk == old(producer.volume.disk)
    ensures status != NotAcceptable ==>
      var m := body.value;
      var update := if m.mtype == "gauge" then SetGauge(m.id, m.value.value) else AddDelta(m.id, m.delta.value);
      var record := if m.mtype == "gauge" then Metrics(m.id, "gauge", None, m.value)
                    else Metrics(m.id, "counter", m.delta, None);
      var unsupported := m.mtype == "gauge" && m.value.value % TWO_63 >= INFINITY;
      && storage.View() == Apply(old(storage.View()), update)
      && echo == (if unsupported then None else Some(record))
      && status == (if producer.open && !unsupported then OK else ServerError)
      && producer.volume.disk
         == if producer.open && !unsupported
            then old(producer.volume.disk).Append(producer.inode, producer.codec.encode(record).value + "\n")
            else old(producer.volume.disk)
  {
    hide Apply;
    if body.None? || body.value.id == "" {
      return NotAcceptable, None;
    }
    var decoded := body.value;
    var encoded: Metrics;
    if decoded.mtype == "gauge" {
      if decoded.value.None? {
        return NotAcceptable, None;
      }
      storage.AddGauge(decoded.id, decoded.value.value);
      encoded := Metrics(decoded.id, "gauge", None, decoded.value);
    } else if decoded.mtype == "counter" {
      if decoded.delta.None? {
        return NotAcceptable, None;
      }
      storage.AddCounter(decoded.id, decoded.delta.value);
      encoded := Metrics(decoded.id, "counter", decoded.delta, None);
    } else {
      return NotAcceptable, None;
    }
    status := OK;
    var err := producer.WriteEvent(encoded);
    if err.Some? {
      status := ServerError;
    }
    EncodableExactly(encoded);
    echo := if Encodable(encoded) then Some(encoded) else None;
  }

  // ---------- queries ----------

  /** Every value stored under the name, in list order. */
  function Matches<T>(s: seq<Entry<T>>, name: string): seq<T> {
    if |s| == 0 then []
    else Matches(s[..|s| - 1], name) + if s[|s| - 1].name == name then [s[|s| - 1].value] else []
  }

  /** In a list without repeated names a scan that never stops early still finds exactly one value. */
  lemma {:induction false} OneMatch<T>(s: seq<Entry<T>>, name: string)
    requires Unique(s)
    ensures Matches(s, name) == if Lookup(s, name).Some? then [Lookup(s, name).value] else []
  {
    if |s| > 0 {
      var k := |s| - 1;
      OneMatch(s[..k], name);
      LookupTake(s, k, name);
      if s[k].name == name {
        LookupAt(s, k);
        assert Lookup(s[..k], name).None? by {
          LookupKnown(s[..k], name);
          assert forall i | 0 <= i < k :: Names(s[..k])[i] == s[i].name != s[k].name;
        }
      }
    }
  }

  lemma {:induction false} LookupTake<T>(s: seq<Entry<T>>, k: nat, name: string)
    requires k < |s| && k == |s| - 1
    ensures s[k].name != name ==> Lookup(s, name) == Lookup(s[..k], name)
  {
    if k > 0 {
      LookupTake(s[1..], k - 1, name);
      assert s[1..][..k - 1] == s[..k][1..];
    }
  }

  datatype Shown = ShownGauge(Float64) | ShownCounter(int64)

  /** GetHandler over the gauges: prints every match and remembers that there was one. */
  method PrintGauges(all: seq<Entry<Float64>>, name: string) returns (found: bool, body: seq<Shown>)
    requires Unique(all)
    ensures found <==> Lookup(all, name).Some?
    ensures body == if found then [ShownGauge(Lookup(all, name).value)] else []
  {
    hide Lookup, Unique;
    found, body := false, [];
    for i := 0 to |all|
      invariant found <==> body != []
      invariant |body| == |Matches(all[..i], name)|
      invariant forall j | 0 <= j < |body| :: body[j] == ShownGauge(Matches(all[..i], name)[j])
    {
      assert all[..i + 1][..i] == all[..i];
      if all[i].name == name {
        found := true;
        body := body + [ShownGauge(all[i].value)];
      }
    }
    assert all[..|all|] == all;
    OneMatch(all, name);
  }

  /** GetHandler over the counters. */
  method PrintCounters(all: seq<Entry<int64>>, name: string) returns (found: bool, body: seq<Shown>)
    requires Unique(all)
    ensures found <==> Lookup<int64>(all, name).Some?
    ensures body == if found then [ShownCounter(Lookup<int64>(all, name).value)] else []
  {
    hide Lookup, Unique;
    found, body := false, [];
    for i := 0 to |all|
      invariant found <==> body != []
      invariant |body| == |Matches<int64>(all[..i], name)|
      invariant forall j | 0 <= j < |body| :: body[j] == ShownCounter(Matches<int64>(all[..i], name)[j])
    {
      assert all[..i + 1][..i] == all[..i];
      if all[i].name == name {
        found := true;
        body := body + [ShownCounter(all[i].value)];
      }
    }
    assert all[..|all|] == all;
    OneMatch<int64>(all, name);
  }

  /** GetHandler: the values it prints and the status; the message of an error answer is not among them. */
  method GetHandler(storage: MemStorage, metric: string, name: string) returns (status: Status, body: seq<Shown>)
    requires WellFormed(storage.View())
    ensures metric == "gauge" ==>
      match Lookup(storage.gaugeSlice, name)
      case None => status == NotFound && body == []
      case Some(v) => status == OK && body == [ShownGauge(v)]
    ensures metric == "counter" ==>
      match Lookup(storage.counterSlice, name)
      case None => status == NotFound && body == []
      case Some(v) => status == OK && body == [ShownCounter(v)]
    ensures metric != "gauge" && metric != "counter" ==> status == NotFound && body == []
  {
    status, body := OK, [];
    var found := false;
    if metric == "gauge" {
      found, body := PrintGauges(storage.gaugeSlice, name);
    } else if metric == "counter" {
      found, body := PrintCounters(storage.counterSlice, name);
    }
    if !found {
      status := NotFound;
    }
  }

  /** PostValue: the records written to the answer, and the status. */
  method PostValue(storage: MemStorage, body: Option<Metrics>) returns (status: Status, answer: seq<Metrics>)
    requires WellFormed(storage.View())
    ensures status == NotAcceptable
       <==> body.None? || body.value.id == "" || body.value.mtype !in ["gauge", "counter"]
    ensures status == NotAcceptable ==> answer == []
    ensures status != NotAcceptable && body.value.mtype == "gauge" ==>
      match Lookup(storage.gaugeSlice, body.value.id)
      case None => status == NotFound && answer == []
      case Some(v) => status == OK && answer == [Metrics(body.value.id, "gauge", None, Some(v))]
    ensures status != NotAcceptable && body.value.mtype == "counter" ==>
      match Lookup<int64>(storage.counterSlice, body.value.id)
      case None => status == NotFound && answer == []
      case Some(v) => status == OK && answer == [Metrics(body.value.id, "counter", Some(v), None)]
  {
    if body.None? || body.value.id == "" || body.value.mtype !in ["gauge", "counter"] {
      return NotAcceptable, [];
    }
    var shown;
    status, shown := GetHandler(storage, body.value.mtype, body.value.id);
    answer := [];
    for i := 0 to |shown|
      invariant |answer| == i
      invariant forall j | 0 <= j < i :: answer[j] == match shown[j]
        case ShownGauge(v) => EventOf(SetGauge(body.value.id, v))
        case ShownCounter(v) => EventOf(AddDelta(body.value.id, v))
    {
      answer := answer + [match shown[i]
        case ShownGauge(v) => Metrics(body.value.id, "gauge", None, Some(v))
        case ShownCounter(v) => Metrics(body.value.id, "counter", Some(v), None)];
    }
  }
}
