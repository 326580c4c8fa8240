/** The backup file of internal/repository/backup.go as text: newline-terminated records. */
module Journal {
  import opened Wrappers
  import opened Numbers
  import opened Storage
  import opened Codec

  // ---------- updates as lines ----------

  function EventOf(u: Update): Metrics {
    match u
    case SetGauge(n, v) => Metrics(n, "gauge", None, Some(v))
    case AddDelta(n, d) => Metrics(n, "counter", Some(d), None)
  }

  /** A record the restore loop can apply without dereferencing a missing payload. */
  predicate HasPayload(m: Metrics) {
    (m.mtype == "gauge" ==> m.value.Some?) && (m.mtype == "counter" ==> m.delta.Some?)
  }

  /** Records of any other type are read and skipped. */
  function UpdateOf(m: Metrics): seq<Update>
    requires HasPayload(m)
  {
    if m.mtype == "gauge" then [SetGauge(m.id, m.value.value)]
    else if m.mtype == "counter" then [AddDelta(m.id, m.delta.value)]
    else []
  }

  /** What a record read back does: a gauge or a counter with its number one update, any other type none. */
  lemma RecordMeaning(m: Metrics, u: Update)
    ensures HasPayload(m) && u in UpdateOf(m)
       <==> (m.mtype == "gauge" && m.value.Some? && u == SetGauge(m.id, m.value.value))
            || (m.mtype == "counter" && m.delta.Some? && u == AddDelta(m.id, m.delta.value))
    ensures !HasPayload(m) <==> (m.mtype == "gauge" && m.value.None?) || (m.mtype == "counter" && m.delta.None?)
    ensures m.mtype != "gauge" && m.mtype != "counter" ==> HasPayload(m) && UpdateOf(m) == []
    ensures HasPayload(m) ==> |UpdateOf(m)| <= 1
  {
    assert HasPayload(m) ==> UpdateOf(m) == [] || UpdateOf(m) == [UpdateOf(m)[0]];
  }

  predicate Writable(u: Update) {
    u.SetGauge? ==> Finite(u.value)
  }

  predicate AllWritable(us: seq<Update>) {
    forall u <- us :: Writable(u)
  }

  /** The keys are those of the struct tags. */
  lemma KeysSpelled()
    ensures ID_KEY == "{\"id\":\"" && TYPE_KEY == ",\"type\":\""
    ensures DELTA_KEY == ",\"delta\":" && VALUE_KEY == ",\"value\":"
  {
  }

  lemma MarshalParts(m: Metrics)
    requires Encodable(m)
    ensures Marshal(m) == Some(Field(ID_KEY, m.id) + (Field(TYPE_KEY, m.mtype)
                               + (Payload(DELTA_KEY, m.delta) + (Payload(VALUE_KEY, m.value) + "}"))))
  {
    hide Field, Payload;
  }

  lemma OneField(key: string, text: string)
    ensures Field(key, text) == key + Escape(text) + "\""
  {
  }

  lemma Regrouped(a: string, b: string, c: string, d: string)
    ensures a + (b + ([] + (c + d))) == a + b + c + d && a + (b + (c + ([] + d))) == a + b + c + d
  {
  }

  /** The line of a record with one number, whose type needs no escapes. */
  lemma LineText(m: Metrics)
    requires Encodable(m) && Escape(m.mtype) == m.mtype && (m.delta.Some? <==> m.value.None?)
    ensures Marshal(m) == Some((ID_KEY + Escape(m.id) + "\"") + (TYPE_KEY + m.mtype + "\"")
      + (if m.delta.Some? then DELTA_KEY + Int(m.delta.value) else VALUE_KEY + Int(m.value.value)) + "}")
  {
    var number := if m.delta.Some? then DELTA_KEY + Int(m.delta.value) else VALUE_KEY + Int(m.value.value);
    MarshalParts(m);
    OneField(ID_KEY, m.id);
    OneField(TYPE_KEY, m.mtype);
    assert Payload(DELTA_KEY, m.delta) == if m.delta.Some? then number else [];
    assert Payload(VALUE_KEY, m.value) == if m.delta.Some? then [] else number;
    hide *;
    Regrouped(ID_KEY + Escape(m.id) + "\"", TYPE_KEY + m.mtype + "\"", number, "}");
  }

  lemma PlainTypes()
    ensures Escape("gauge") == "gauge" && Escape("counter") == "counter"
  {
    hide Escape;
    var g, c := "gauge", "counter";
    assert g[0] == 'g' && g[1] == 'a' && g[2] == 'u' && g[3] == 'g' && g[4] == 'e';
    assert c[0] == 'c' && c[1] == 'o' && c[2] == 'u' && c[3] == 'n' && c[4] == 't' && c[5] == 'e' && c[6] == 'r';
    PlainText(g);
    PlainText(c);
  }

  /** The line of a gauge, written out: name, type and value, and no delta. */
  lemma GaugeText(n: string, v: Float64)
    requires v % TWO_63 < INFINITY
    ensures Marshal(EventOf(SetGauge(n, v)))
         == Some((ID_KEY + Escape(n) + "\"") + (TYPE_KEY + "gauge" + "\"") + (VALUE_KEY + Int(v)) + "}")
  {
    FiniteExactly(v);
    PlainTypes();
    hide Escape, Int, Marshal;
    LineText(EventOf(SetGauge(n, v)));
  }

  /** The line of a counter, written out: name, type and delta, and no value. */
  lemma CounterText(n: string, d: int64)
    ensures Marshal(EventOf(AddDelta(n, d)))
         == Some((ID_KEY + Escape(n) + "\"") + (TYPE_KEY + "counter" + "\"") + (DELTA_KEY + Int(d)) + "}")
  {
    PlainTypes();
    hide Escape, Int, Marshal;
    LineText(EventOf(AddDelta(n, d)));
  }

  predicate OneLine(s: string) {
    forall i | 0 <= i < |s| :: s[i] != '\n'
  }

  /** The record of an update, without its newline. */
  function LineOf(c: Codec, u: Update): (t: string)
    requires Sound(c) && Writable(u)
    ensures OneLine(t) && c.decode(t) == Some(EventOf(u))
  {
    assert Encodable(EventOf(u));
    c.encode(EventOf(u)).value
  }

  function LinesOf(c: Codec, us: seq<Update>): (ts: seq<string>)
    requires Sound(c) && AllWritable(us)
    ensures |ts| == |us| && forall i | 0 <= i < |us| :: ts[i] == LineOf(c, us[i])
  {
    seq(|us|, i requires 0 <= i < |us| => assert us[i] in us; LineOf(c, us[i]))
  }

  /** The text of a file to which exactly these updates were written. */
  function Text(c: Codec, us: seq<Update>): string
    requires Sound(c) && AllWritable(us)
  {
    Join(LinesOf(c, us))
  }

  lemma TextConcat(c: Codec, us: seq<Update>, vs: seq<Update>)
    requires Sound(c) && AllWritable(us) && AllWritable(vs)
    ensures Text(c, us + vs) == Text(c, us) + Text(c, vs)
  {
    assert LinesOf(c, us + vs) == LinesOf(c, us) + LinesOf(c, vs);
    JoinConcat(LinesOf(c, us), LinesOf(c, vs));
  }

  lemma TextOne(c: Codec, u: Update)
    requires Sound(c) && Writable(u)
    ensures Text(c, [u]) == LineOf(c, u) + "\n"
  {
    var ts := LinesOf(c, [u]);
    assert ts[0] == LineOf(c, u) && ts[1..] == [];
    assert Join(ts) == ts[0] + "\n" + Join(ts[1..]);
    assert LineOf(c, u) + "\n" + "" == LineOf(c, u) + "\n";
  }

  // ---------- newline-terminated lines ----------

  /** Every line followed by its newline. */
  function Join(ts: seq<string>): string {
    if ts == [] then "" else ts[0] + "\n" + Join(ts[1..])
  }

  lemma {:induction false} JoinConcat(ts: seq<string>, us: seq<string>)
    ensures Join(ts + us) == Join(ts) + Join(us)
  {
    if ts == [] {
      assert ts + us == us;
    } else {
      JoinConcat(ts[1..], us);
      assert (ts + us)[1..] == ts[1..] + us;
    }
  }

  /** The index of the first newline, or the length when there is none. */
  function LineEnd(s: string): (k: nat)
    ensures k <= |s| && OneLine(s[..k])
    ensures k < |s| ==> s[k] == '\n'
  {
    if s == [] || s[0] == '\n' then 0 else 1 + LineEnd(s[1..])
  }

  /** What is left to read once the first line has been taken, with its newline if it has one. */
  function AfterLine(s: string): (rest: string)
    ensures if OneLine(s) then rest == "" else LineEnd(s) < |s| && s == s[..LineEnd(s)] + "\n" + rest
  {
    var k := LineEnd(s);
    if k == |s| then "" else s[k + 1..]
  }

  lemma FirstLine(t: string, rest: string)
    requires OneLine(t)
    ensures LineEnd(t + "\n" + rest) == |t|
  {
    var s := t + "\n" + rest;
    assert s[|t|] == '\n' && s[..|t|] == t;
  }

  /** The records ReadEvent yields before its first error: an unterminated or an undecodable line. */
  function Records(c: Codec, s: string): seq<Metrics>
    decreases |s|
  {
    var k := LineEnd(s);
    if k == |s| || c.decode(s[..k]).None? then []
    else [c.decode(s[..k]).value] + Records(c, s[k + 1..])
  }

  lemma FirstRecord(c: Codec, t: string, rest: string)
    requires OneLine(t) && c.decode(t).Some?
    ensures Records(c, t + "\n" + rest) == [c.decode(t).value] + Records(c, rest)
  {
    var s := t + "\n" + rest;
    FirstLine(t, rest);
    assert s[..|t|] == t && s[|t| + 1..] == rest;
  }

  /** Decodable lines are read one by one, then whatever follows them. */
  lemma {:induction false} ReadLines(c: Codec, ts: seq<string>, ms: seq<Metrics>, rest: string)
    requires |ts| == |ms|
    requires forall i | 0 <= i < |ts| :: OneLine(ts[i]) && c.decode(ts[i]) == Some(ms[i])
    ensures Records(c, Join(ts) + rest) == ms + Records(c, rest)
  {
    hide Records;
    if ts == [] {
      assert Join(ts) + rest == rest;
      assert ms + Records(c, rest) == Records(c, rest);
    } else {
      var more := Join(ts[1..]) + rest;
      ReadLines(c, ts[1..], ms[1..], rest);
      assert Join(ts) + rest == ts[0] + "\n" + more;
      FirstRecord(c, ts[0], more);
      assert [ms[0]] + (ms[1..] + Records(c, rest)) == ms + Records(c, rest);
    }
  }

  function Newlines(s: string): nat {
    if s == [] then 0 else (if s[0] == '\n' then 1 else 0) + Newlines(s[1..])
  }

  lemma {:induction false} NewlinesConcat(s: string, t: string)
    ensures Newlines(s + t) == Newlines(s) + Newlines(t)
  {
    if s == [] {
      assert s + t == t;
    } else {
      NewlinesConcat(s[1..], t);
      assert (s + t)[1..] == s[1..] + t;
    }
  }

  lemma {:induction false} NoNewlines(s: string)
    requires OneLine(s)
    ensures Newlines(s) == 0
  {
    if s != [] {
      NoNewlines(s[1..]);
    }
  }

  /** Cutting the text at any byte leaves the whole lines before the cut and an unterminated rest. */
  lemma {:induction false} Cut(ts: seq<string>, cut: nat) returns (j: nat, tail: string)
    requires (forall t <- ts :: OneLine(t)) && cut <= |Join(ts)|
    ensures j == Newlines(Join(ts)[..cut]) <= |ts|
    ensures OneLine(tail) && Join(ts)[..cut] == Join(ts[..j]) + tail
    ensures if j < |ts| then tail <= ts[j] else tail == ""
  {
    if ts == [] {
      j, tail := 0, "";
    } else if cut <= |ts[0]| {
      j, tail := 0, ts[0][..cut];
      assert Join(ts)[..cut] == tail;
      assert OneLine(ts[0]);
      NoNewlines(tail);
    } else {
      var l := ts[0] + "\n";
      assert Join(ts)[..cut] == l + Join(ts[1..])[..cut - |l|];
      j, tail := Cut(ts[1..], cut - |l|);
      NoNewlines(ts[0]);
      NewlinesConcat(ts[0], "\n");
      NewlinesConcat(l, Join(ts[1..])[..cut - |l|]);
      assert "\n"[1..] == [];
      assert ts[..j + 1][1..] == ts[1..][..j];
      assert j + 1 < |ts| ==> ts[1..][j] == ts[j + 1];
      j := j + 1;
    }
  }

  // ---------- reading back ----------

  predicate AllPayloads(ms: seq<Metrics>) {
    forall m <- ms :: HasPayload(m)
  }

  function Updates(ms: seq<Metrics>): seq<Update>
    requires AllPayloads(ms)
  {
    if ms == [] then [] else UpdateOf(ms[0]) + Updates(ms[1..])
  }

  lemma {:induction false} UpdatesSnoc(ms: seq<Metrics>, m: Metrics)
    requires AllPayloads(ms) && HasPayload(m)
    ensures AllPayloads(ms + [m]) && Updates(ms + [m]) == Updates(ms) + UpdateOf(m)
  {
    if ms == [] {
      assert ([m])[1..] == [] && ms + [m] == [m];
    } else {
      UpdatesSnoc(ms[1..], m);
      assert (ms + [m])[1..] == ms[1..] + [m];
    }
  }

  /** Text that restores without dereferencing a missing payload. */
  predicate Restorable(c: Codec, s: string) {
    AllPayloads(Records(c, s))
  }

  /** The updates a restore of this text performs. */
  function Restored(c: Codec, s: string): seq<Update>
    requires Restorable(c, s)
  {
    Updates(Records(c, s))
  }

  lemma {:induction false} UpdatesOfEvents(us: seq<Update>, ms: seq<Metrics>)
    requires |ms| == |us| && forall i | 0 <= i < |us| :: ms[i] == EventOf(us[i])
    ensures AllPayloads(ms) && Updates(ms) == us
  {
    if us != [] {
      UpdatesOfEvents(us[1..], ms[1..]);
      assert us == [us[0]] + us[1..];
      assert ms == [ms[0]] + ms[1..];
    }
  }

  lemma {:induction false} UpdatesConcat(ms: seq<Metrics>, ns: seq<Metrics>)
    requires AllPayloads(ms) && AllPayloads(ns)
    ensures AllPayloads(ms + ns) && Updates(ms + ns) == Updates(ms) + Updates(ns)
  {
    if ms == [] {
      assert ms + ns == ns;
    } else {
      UpdatesConcat(ms[1..], ns);
      assert (ms + ns)[1..] == ms[1..] + ns;
    }
  }

  /** Reading a journal yields its updates, then whatever the text after it yields. */
  lemma ReadOn(c: Codec, us: seq<Update>, rest: string)
    requires Sound(c) && AllWritable(us) && Restorable(c, rest)
    ensures Restorable(c, Text(c, us) + rest)
    ensures Restored(c, Text(c, us) + rest) == us + Restored(c, rest)
  {
    var ms := seq(|us|, i requires 0 <= i < |us| => EventOf(us[i]));
    ReadLines(c, LinesOf(c, us), ms, rest);
    UpdatesOfEvents(us, ms);
    UpdatesConcat(ms, Records(c, rest));
  }

  /** Reading back a journal and an unterminated tail gives exactly what was written before the tail. */
  lemma ReadBack(c: Codec, us: seq<Update>, tail: string)
    requires Sound(c) && AllWritable(us) && OneLine(tail)
    ensures Restorable(c, Text(c, us) + tail)
    ensures Restored(c, Text(c, us) + tail) == us
  {
    assert Records(c, tail) == [];
    ReadOn(c, us, tail);
    assert us + [] == us;
  }

  /** Every line is terminated and decodes, so reading reaches the end of the text. */
  predicate Complete(c: Codec, s: string)
    decreases |s|
  {
    var k := LineEnd(s);
    s == [] || (k < |s| && c.decode(s[..k]).Some? && Complete(c, s[k + 1..]))
  }

  lemma NothingToRead(c: Codec)
    ensures Records(c, "") == []
  {
  }

  /** Appending to a complete file appends to what is read from it. */
  lemma {:induction false} ReadAppended(c: Codec, s: string, rest: string)
    requires Complete(c, s)
    ensures Records(c, s + rest) == Records(c, s) + Records(c, rest)
    decreases |s|
  {
    hide Records;
    if s == [] {
      assert s + rest == rest;
      NothingToRead(c);
      assert [] + Records(c, rest) == Records(c, rest);
    } else {
      var k := LineEnd(s);
      var more := s[k + 1..] + rest;
      ReadAppended(c, s[k + 1..], rest);
      assert s == s[..k] + "\n" + s[k + 1..];
      FirstRecord(c, s[..k], s[k + 1..]);
      assert s + rest == s[..k] + "\n" + more;
      FirstRecord(c, s[..k], more);
    }
  }

  lemma {:induction false} TextComplete(c: Codec, us: seq<Update>)
    requires Sound(c) && AllWritable(us)
    ensures Complete(c, Text(c, us))
  {
    if us != [] {
      var t, more := LineOf(c, us[0]), Text(c, us[1..]);
      TextComplete(c, us[1..]);
      assert us == [us[0]] + us[1..];
      TextConcat(c, [us[0]], us[1..]);
      TextOne(c, us[0]);
      FirstLine(t, more);
      assert (t + "\n" + more)[..|t|] == t && (t + "\n" + more)[|t| + 1..] == more;
    }
  }

  /** Where a tear is: after j whole records, tail bytes into the next one. */
  lemma TearWhere(c: Codec, us: seq<Update>, cut: nat) returns (j: nat, tail: string)
    requires Sound(c) && AllWritable(us) && cut <= |Text(c, us)|
    ensures j == Newlines(Text(c, us)[..cut]) <= |us|
    ensures Text(c, us)[..cut] == Text(c, us[..j]) + tail
    ensures OneLine(tail) && (tail != "" ==> j < |us| && us[j] in us && tail <= LineOf(c, us[j]))
  {
    j, tail := Cut(LinesOf(c, us), cut);
    assert LinesOf(c, us[..j]) == LinesOf(c, us)[..j];
  }

  /** A backup torn at any byte restores exactly the updates whose terminating newline survived. */
  lemma TornRestore(c: Codec, us: seq<Update>, cut: nat)
    requires Sound(c) && AllWritable(us) && cut <= |Text(c, us)|
    ensures var torn := Text(c, us)[..cut];
      && Newlines(torn) <= |us|
      && Restorable(c, torn)
      && Restored(c, torn) == us[..Newlines(torn)]
  {
    var j, tail := TearWhere(c, us, cut);
    ReadBack(c, us[..j], tail);
  }

  /**
   * The next run of the server appends to the torn file it has just restored, so its first line
   * is glued to the torn tail. When the glued line does not decode, every later restore stops
   * there: nothing written after the tear is ever read again.
   */
  lemma AppendAfterTear(c: Codec, us: seq<Update>, tail: string, more: seq<Update>)
    requires Sound(c) && AllWritable(us) && AllWritable(more) && OneLine(tail) && more != []
    requires c.decode(tail + LineOf(c, more[0])).None?
    ensures Restorable(c, Text(c, us) + (tail + Text(c, more)))
    ensures Restored(c, Text(c, us) + (tail + Text(c, more))) == us
  {
    var first := tail + LinesOf(c, more)[0];
    var glued := tail + Text(c, more);
    var later := Join(LinesOf(c, more)[1..]);
    assert glued == first + "\n" + later;
    FirstLine(first, later);
    assert glued[..|first|] == first;
    ReadOn(c, us, glued);
    assert us + [] == us;
  }
}
