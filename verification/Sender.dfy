/** internal/agent/send_functions.go: building the two batches and retrying them. */
module Sender {
  import opened Wrappers
  import opened Numbers
  import opened Storage
  import opened Codec
  import opened Journal
  import opened Recovery

  // ---------- the batches ----------

  datatype Built = NothingToSend | UnknownType | Batch(metrics: seq<Metrics>)

  /**
   * The list SendMetricsBatch puts on the wire: the stored gauges as they are, or every stored
   * counter's name with the poll count in place of its value. A batch size beyond the list would
   * be an index out of range in the source.
   */
  method BuildBatch(storage: MemStorage, metricType: string, batchSize: nat, pollCounter: int64) returns (b: Built)
    requires metricType == "gauge" ==> batchSize <= |storage.gaugeSlice| || |storage.gaugeSlice| == 0
    requires metricType == "counter" ==> batchSize <= |storage.counterSlice| || |storage.counterSlice| == 0
    ensures b.UnknownType? <==> metricType != "gauge" && metricType != "counter"
    ensures metricType == "gauge" ==>
      if |storage.gaugeSlice| == 0 then b.NothingToSend?
      else (
        && b.Batch? && |b.metrics| == batchSize
        && forall i | 0 <= i < batchSize ::
          b.metrics[i] == EventOf(SetGauge(storage.gaugeSlice[i].name, storage.gaugeSlice[i].value)))
    ensures metricType == "counter" ==>
      if |storage.counterSlice| == 0 then b.NothingToSend?
      else (
        && b.Batch? && |b.metrics| == batchSize
        && forall i | 0 <= i < batchSize ::
          b.metrics[i] == EventOf(AddDelta(storage.counterSlice[i].name, pollCounter)))
  {
    var metrics: seq<Metrics> := [];
    if metricType == "gauge" {
      if |storage.gaugeSlice| == 0 {
        return NothingToSend;
      }
      for i := 0 to batchSize
        invariant |metrics| == i
        invariant forall j | 0 <= j < i ::
          metrics[j] == EventOf(SetGauge(storage.gaugeSlice[j].name, storage.gaugeSlice[j].value))
      {
        var value := storage.gaugeSlice[i].value;
        metrics := metrics + [Metrics(storage.gaugeSlice[i].name, "gauge", None, Some(value))];
      }
    } else if metricType == "counter" {
      if |storage.counterSlice| == 0 {
        return NothingToSend;
      }
      for i := 0 to batchSize
        invariant |metrics| == i
        invariant forall j | 0 <= j < i :: metrics[j] == EventOf(AddDelta(storage.counterSlice[j].name, pollCounter))
      {
        var delta := pollCounter;
        metrics := metrics + [Metrics(storage.counterSlice[i].name, "counter", Some(delta), None)];
      }
    } else {
      return UnknownType;
    }
    b := Batch(metrics);
  }

  /** The counter batch as updates: one addition of the poll count for each stored counter. */
  function CounterBatch(agent: Store, pollCounter: int64): seq<Update> {
    seq(|agent.counters|, i requires 0 <= i < |agent.counters| => AddDelta(agent.counters[i].name, pollCounter))
  }

  lemma {:induction false} SumOfCounterBatch(cs: seq<Entry<int64>>, p: int64, n: string)
    requires Unique(cs)
    ensures Sum(CounterBatch(Store([], cs), p), n) == if Lookup(cs, n).Some? then p else 0
    ensures n in CounterNames(CounterBatch(Store([], cs), p)) <==> Lookup(cs, n).Some?
  {
    if cs != [] {
      var k := |cs| - 1;
      assert cs == cs[..k] + [cs[k]];
      SumOfCounterBatch(cs[..k], p, n);
      LookupSnoc<int64>(cs[..k], cs[k], n);
      LookupKnown<int64>(cs[..k], n);
      forall i | 0 <= i < k ensures Names(cs[..k])[i] != cs[k].name {
        assert cs[i].name != cs[k].name;
      }
      assert CounterBatch(Store([], cs), p)[..k] == CounterBatch(Store([], cs[..k]), p);
    }
  }

  /** Delivering the counter batch adds the poll count, once, to each counter the agent knows. */
  lemma DeliveredCounters(server: Store, agent: Store, p: int64, n: string)
    requires WellFormed(agent)
    ensures var after := Replay(server, CounterBatch(agent, p));
      Lookup(after.counters, n)
      == if Lookup(agent.counters, n).Some? then Some(Wrap(CounterValue(server.counters, n) + p))
         else Lookup(server.counters, n)
  {
    hide Replay, Lookup, Sum, CounterNames, Wrap;
    assert CounterBatch(agent, p) == CounterBatch(Store([], agent.counters), p);
    hide CounterBatch;
    SumOfCounterBatch(agent.counters, p, n);
    ReplayCounter(server, CounterBatch(agent, p), n);
    UntouchedCounter(server, n);
  }

  lemma UntouchedCounter(server: Store, n: string)
    ensures Wrap(CounterValue(server.counters, n) + 0) == CounterValue(server.counters, n)
  {
    WrapUnique(CounterValue(server.counters, n), CounterValue(server.counters, n));
  }

  // ---------- retrying ----------

  /** What client.Do and the status check can report; only net.Error values are worth a retry. */
  datatype SendError = NetError(code: nat) | OtherError(code: nat)

  type Outcome = Option<SendError>

  /** isRetriableError; a nil error is not retriable either. */
  predicate Retriable(o: Outcome) {
    o.Some? && o.value.NetError?
  }

  datatype Attempt = Attempt(gauges: Outcome, counters: Outcome)

  const MAX_RETRIES := 3
  const RETRY_DELAYS: seq<nat> := [1, 3, 5]

  /** The loop goes round again only when both sends failed with network errors. */
  predicate TryAgain(a: Attempt) {
    Retriable(a.gauges) && Retriable(a.counters)
  }

  /** The attempts one call makes: all but the last failed twice, and the last one ends the loop. */
  ghost predicate Attempts(log: seq<Attempt>) {
    && 1 <= |log| <= MAX_RETRIES + 1
    && (forall i | 0 <= i < |log| - 1 :: TryAgain(log[i]))
    && (|log| <= MAX_RETRIES ==> !TryAgain(log[|log| - 1]))
  }

  /**
   * SendWithRetry against any network: net(k) is what the two sends of attempt k report. It tries
   * again, at most three times and after 1, 3 and 5 seconds, while both sends fail with network
   * errors; it stops at the first attempt where they do not. The call
   * returns nil exactly when the last counter batch got through, whatever happened to the gauges.
   */
  method SendWithRetry(net: nat -> Attempt) returns (err: Outcome, log: seq<Attempt>, slept: seq<nat>)
    ensures Attempts(log) && forall i | 0 <= i < |log| :: log[i] == net(i)
    ensures 1 <= |log| <= 4
    ensures forall i | 0 <= i < |log| - 1 ::
      (exists g, c :: log[i] == Attempt(Some(NetError(g)), Some(NetError(c))))
    ensures |log| <= 3 ==> forall g, c :: log[|log| - 1] != Attempt(Some(NetError(g)), Some(NetError(c)))
    ensures err == log[|log| - 1].counters
    ensures slept == [1, 3, 5][..|log| - 1]
  {
    var lastErr: Outcome := None;
    log, slept := [], [];
    var attempt := 0;
    while attempt <= MAX_RETRIES
      invariant 0 <= attempt <= MAX_RETRIES + 1 && |log| == attempt
      invariant forall i | 0 <= i < attempt :: log[i] == net(i) && TryAgain(log[i])
      invariant slept == RETRY_DELAYS[..if attempt == 0 then 0 else attempt - 1]
      invariant attempt > 0 ==> lastErr == log[attempt - 1].counters
    {
      if attempt > 0 {
        slept := slept + [RETRY_DELAYS[attempt - 1]];
      }
      var errG := net(attempt).gauges;
      if errG.Some? {
        lastErr := errG;
      }
      lastErr := errG;
      var errC := net(attempt).counters;
      log := log + [net(attempt)];
      if errC.None? {
        return None, log, slept;
      }
      lastErr := errC;
      if !Retriable(errG) || !Retriable(errC) {
        break;
      }
      attempt := attempt + 1;
    }
    err := lastErr;
  }

  /** The attempts of a call depend on the network only: no other run of the loop is possible. */
  lemma AttemptsUnique(net: nat -> Attempt, a: seq<Attempt>, b: seq<Attempt>)
    requires Attempts(a) && Attempts(b)
    requires forall i | 0 <= i < |a| :: a[i] == net(i)
    requires forall i | 0 <= i < |b| :: b[i] == net(i)
    ensures a == b
  {
    assert net(|a| - 1) == a[|a| - 1] && net(|b| - 1) == b[|b| - 1];
  }

  function Delivered(log: seq<Attempt>, counters: bool): nat {
    if log == [] then 0
    else Delivered(log[..|log| - 1], counters)
         + if (if counters then log[|log| - 1].counters else log[|log| - 1].gauges).None? then 1 else 0
  }

  /** Per call at most one gauge batch and at most one counter batch report success. */
  lemma DeliveredOnce(log: seq<Attempt>, counters: bool)
    requires Attempts(log)
    ensures Delivered(log, counters) <= 1
    ensures Delivered(log, true) == 1 <==> log[|log| - 1].counters.None?
  {
    NoneDelivered(log[..|log| - 1], counters);
    NoneDelivered(log[..|log| - 1], true);
  }

  lemma {:induction false} NoneDelivered(log: seq<Attempt>, counters: bool)
    requires forall i | 0 <= i < |log| :: TryAgain(log[i])
    ensures Delivered(log, counters) == 0
  {
    if log != [] {
      NoneDelivered(log[..|log| - 1], counters);
    }
  }
}
