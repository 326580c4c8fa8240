/**
 * Names that are not valid UTF-8 (the URL route of internal/handler/handlers.go accepts them):
 * encoding/json writes U+FFFD for each byte it cannot decode, so such a name does not come back.
 * Here a name is the string of its bytes, one char for each.
 */
module NameEncoding {
  import opened Wrappers
  import opened Numbers
  import opened Storage
  import opened Codec
  import opened Journal
  import opened Backup
  import opened Recovery

  // ---------- UTF-8 ----------

  predicate ByteIn(s: string, i: nat, lo: int, hi: int) {
    i < |s| && lo <= s[i] as int <= hi
  }

  predicate Tail(s: string, i: nat) {
    ByteIn(s, i, 0x80, 0xBF)
  }

  /** The length of the well-formed sequence at the head (table 3-7 of the Unicode Standard), or 0. */
  function RuneWidth(s: string): (w: nat)
    ensures w <= |s| && w <= 4
  {
    if ByteIn(s, 0, 0x00, 0x7F) then 1
    else if ByteIn(s, 0, 0xC2, 0xDF) && Tail(s, 1) then 2
    else if Tail(s, 2) && (|| (ByteIn(s, 0, 0xE0, 0xE0) && ByteIn(s, 1, 0xA0, 0xBF))
                           || (ByteIn(s, 0, 0xE1, 0xEC) && Tail(s, 1))
                           || (ByteIn(s, 0, 0xED, 0xED) && ByteIn(s, 1, 0x80, 0x9F))
                           || (ByteIn(s, 0, 0xEE, 0xEF) && Tail(s, 1))) then 3
    else if Tail(s, 2) && Tail(s, 3) && (|| (ByteIn(s, 0, 0xF0, 0xF0) && ByteIn(s, 1, 0x90, 0xBF))
                                         || (ByteIn(s, 0, 0xF1, 0xF3) && Tail(s, 1))
                                         || (ByteIn(s, 0, 0xF4, 0xF4) && ByteIn(s, 1, 0x80, 0x8F))) then 4
    else 0
  }

  predicate ValidUtf8(s: string)
    decreases |s|
  {
    s == [] || (RuneWidth(s) > 0 && ValidUtf8(s[RuneWidth(s)..]))
  }

  /** U+FFFD in UTF-8. */
  const REPLACEMENT: string := [0xEF as char, 0xBF as char, 0xBD as char]

  /** The name as encoding/json writes it: every byte that starts no well-formed sequence is replaced. */
  function Coerce(s: string): string
    decreases |s|
  {
    if s == [] then []
    else
      var w := RuneWidth(s);
      if w == 0 then REPLACEMENT + Coerce(s[1..]) else s[..w] + Coerce(s[w..])
  }

  lemma WidthOfPrefix(s: string, rest: string)
    requires RuneWidth(s) > 0
    ensures RuneWidth(s[..RuneWidth(s)] + rest) == RuneWidth(s)
  {
    var w := RuneWidth(s);
    var t := s[..w] + rest;
    assert forall i | 0 <= i < w :: t[i] == s[i];
  }

  lemma {:induction false} CoercedIsValid(s: string)
    ensures ValidUtf8(Coerce(s))
    decreases |s|
  {
    if s != [] {
      var w := RuneWidth(s);
      var head := if w == 0 then REPLACEMENT else s[..w];
      var rest := Coerce(if w == 0 then s[1..] else s[w..]);
      CoercedIsValid(if w == 0 then s[1..] else s[w..]);
      if w == 0 {
        assert RuneWidth(REPLACEMENT) == 3 && REPLACEMENT[..3] == REPLACEMENT;
        WidthOfPrefix(REPLACEMENT, rest);
      } else {
        WidthOfPrefix(s, rest);
      }
      assert (head + rest)[|head|..] == rest;
    }
  }

  lemma {:induction false} CoerceGrows(s: string)
    ensures if ValidUtf8(s) then Coerce(s) == s else |Coerce(s)| > |s|
    decreases |s|
  {
    if s != [] {
      var w := RuneWidth(s);
      if w == 0 {
        CoerceGrows(s[1..]);
      } else {
        CoerceGrows(s[w..]);
        assert s == s[..w] + s[w..];
      }
    }
  }

  // ---------- the code points behind the bytes ----------

  /** A Unicode scalar value: surrogates are not encoded. */
  type Rune = c: int | 0 <= c < 0xD800 || 0xE000 <= c < 0x11_0000

  function Byte(b: int): char
    requires 0 <= b < 256
  {
    b as char
  }

  /** Section 3 of RFC 3629: six bits in each byte after the first. */
  function EncodeRune(c: Rune): (s: string)
    ensures s != []
  {
    if c < 0x80 then [Byte(c)]
    else if c < 0x800 then [Byte(0xC0 + c / 64), Byte(0x80 + c % 64)]
    else if c < 0x1_0000 then [Byte(0xE0 + c / 4096), Byte(0x80 + c / 64 % 64), Byte(0x80 + c % 64)]
    else [Byte(0xF0 + c / 262144), Byte(0x80 + c / 4096 % 64), Byte(0x80 + c / 64 % 64), Byte(0x80 + c % 64)]
  }

  function EncodeRunes(cs: seq<Rune>): string {
    if cs == [] then [] else EncodeRune(cs[0]) + EncodeRunes(cs[1..])
  }

  lemma EncodedWidth(c: Rune, rest: string)
    ensures RuneWidth(EncodeRune(c) + rest) == |EncodeRune(c)|
  {
    hide EncodeRune, RuneWidth;
    var e := EncodeRune(c);
    RuneOfWidth(c);
    WidthOfPrefix(e, rest);
    assert e[..|e|] == e;
  }

  lemma RuneOfWidth(c: Rune)
    ensures RuneWidth(EncodeRune(c)) == |EncodeRune(c)|
  {
    if 0x1_0000 <= c {
      assert c / 262144 <= 4 && 64 * (c / 262144) + c / 4096 % 64 == c / 4096;
    } else if 0x800 <= c {
      assert 64 * (c / 4096) + c / 64 % 64 == c / 64;
    }
  }

  lemma SixBits(high: nat, low: nat)
    requires low < 64
    ensures (64 * high + low) / 64 == high && (64 * high + low) % 64 == low
  {
  }

  lemma TwoBytes(s: string)
    requires |s| == 2 && RuneWidth(s) == 2
    ensures exists c: Rune :: EncodeRune(c) == s
  {
    var h, l := s[0] as int - 0xC0, s[1] as int - 0x80;
    SixBits(h, l);
    var c: Rune := 64 * h + l;
    assert EncodeRune(c) == s;
  }

  lemma ThreeBytes(s: string)
    requires |s| == 3 && RuneWidth(s) == 3
    ensures exists c: Rune :: EncodeRune(c) == s
  {
    var h, m, l := s[0] as int - 0xE0, s[1] as int - 0x80, s[2] as int - 0x80;
    SixBits(h, m);
    SixBits(64 * h + m, l);
    var c: Rune := 64 * (64 * h + m) + l;
    hide RuneWidth;
    assert c / 4096 == h;
    assert EncodeRune(c) == s;
  }

  lemma FourBytes(s: string)
    requires |s| == 4 && RuneWidth(s) == 4
    ensures exists c: Rune :: EncodeRune(c) == s
  {
    var h, m, n, l := s[0] as int - 0xF0, s[1] as int - 0x80, s[2] as int - 0x80, s[3] as int - 0x80;
    SixBits(h, m);
    SixBits(64 * h + m, n);
    SixBits(64 * (64 * h + m) + n, l);
    var c: Rune := 64 * (64 * (64 * h + m) + n) + l;
    hide RuneWidth;
    assert c / 4096 == 64 * h + m && c / 262144 == h;
    assert EncodeRune(c) == s;
  }

  lemma SameWidth(s: string)
    requires RuneWidth(s) > 0
    ensures RuneWidth(s[..RuneWidth(s)]) == RuneWidth(s)
  {
    WidthOfPrefix(s, []);
    assert s[..RuneWidth(s)] + [] == s[..RuneWidth(s)];
  }

  /** The code point of the sequence at the head. */
  lemma HeadRune(s: string)
    requires RuneWidth(s) > 0
    ensures exists c: Rune :: EncodeRune(c) == s[..RuneWidth(s)]
  {
    var w := RuneWidth(s);
    SameWidth(s);
    if w == 1 {
      var c: Rune := s[0] as int;
      assert EncodeRune(c) == s[..1];
    } else {
      hide RuneWidth, EncodeRune;
      match w {
        case 2 => TwoBytes(s[..w]);
        case 3 => ThreeBytes(s[..w]);
        case _ => FourBytes(s[..w]);
      }
    }
  }

  /** Valid names are exactly the encodings of sequences of code points. */
  lemma {:induction false} ValidExactly(s: string)
    ensures ValidUtf8(s) <==> exists cs: seq<Rune> :: EncodeRunes(cs) == s
  {
    if ValidUtf8(s) {
      ValidIsEncoded(s);
    }
    forall cs: seq<Rune> | EncodeRunes(cs) == s ensures ValidUtf8(s) {
      EncodedIsValid(cs);
    }
  }

  lemma {:induction false} EncodedIsValid(cs: seq<Rune>)
    ensures ValidUtf8(EncodeRunes(cs))
  {
    hide EncodeRune, RuneWidth;
    if cs != [] {
      EncodedIsValid(cs[1..]);
      EncodedWidth(cs[0], EncodeRunes(cs[1..]));
      var s := EncodeRunes(cs);
      assert s[|EncodeRune(cs[0])|..] == EncodeRunes(cs[1..]);
    }
  }

  lemma {:induction false} ValidIsEncoded(s: string)
    requires ValidUtf8(s)
    ensures exists cs: seq<Rune> :: EncodeRunes(cs) == s
    decreases |s|
  {
    hide EncodeRune, RuneWidth;
    if s == [] {
      assert EncodeRunes([]) == s;
    } else {
      var w := RuneWidth(s);
      HeadRune(s);
      ValidIsEncoded(s[w..]);
      var c: Rune :| EncodeRune(c) == s[..w];
      var rest: seq<Rune> :| EncodeRunes(rest) == s[w..];
      assert ([c] + rest)[1..] == rest;
      assert EncodeRunes([c] + rest) == s[..w] + s[w..];
    }
  }

  /**
   * What is written, from left to right: encoded code points as they are, and U+FFFD for one byte
   * where no code point is encoded.
   */
  lemma {:induction false} CoerceExactly(cs: seq<Rune>, bad: string)
    requires bad == [] || forall c: Rune :: !(EncodeRune(c) <= bad)
    ensures Coerce(EncodeRunes(cs) + bad)
         == EncodeRunes(cs) + if bad == [] then [] else REPLACEMENT + Coerce(bad[1..])
  {
    hide EncodeRune, RuneWidth, Coerce;
    if cs == [] {
      assert EncodeRunes(cs) + bad == bad;
      CoerceBad(bad);
    } else {
      CoerceExactly(cs[1..], bad);
      EncodedWidth(cs[0], EncodeRunes(cs[1..]) + bad);
      CoerceHead(EncodeRune(cs[0]), EncodeRunes(cs[1..]) + bad);
      var tail := if bad == [] then [] else REPLACEMENT + Coerce(bad[1..]);
      Associated(EncodeRune(cs[0]), EncodeRunes(cs[1..]), bad);
      Associated(EncodeRune(cs[0]), EncodeRunes(cs[1..]), tail);
    }
  }

  lemma Associated(a: string, b: string, c: string)
    ensures (a + b) + c == a + (b + c)
  {
  }

  lemma CoerceBad(bad: string)
    requires bad == [] || forall c: Rune :: !(EncodeRune(c) <= bad)
    ensures Coerce(bad) == if bad == [] then [] else REPLACEMENT + Coerce(bad[1..])
  {
    hide EncodeRune, RuneWidth;
    HeadPrefix(bad);
  }

  lemma HeadPrefix(s: string)
    ensures RuneWidth(s) > 0 ==> exists c: Rune :: EncodeRune(c) <= s
  {
    hide EncodeRune, RuneWidth;
    if RuneWidth(s) > 0 {
      HeadRune(s);
      assert s[..RuneWidth(s)] <= s;
    }
  }

  lemma CoerceHead(e: string, rest: string)
    requires e != [] && RuneWidth(e + rest) == |e|
    ensures Coerce(e + rest) == e + Coerce(rest)
  {
    assert (e + rest)[|e|..] == rest && (e + rest)[..|e|] == e;
  }

  // ---------- what comes back ----------

  function Coerced(us: seq<Update>): seq<Update> {
    seq(|us|, i requires 0 <= i < |us| => us[i].(name := Coerce(us[i].name)))
  }

  ghost predicate ValidNames(ns: seq<string>) {
    forall n <- ns :: ValidUtf8(n)
  }

  lemma {:induction false} CoercedNames(us: seq<Update>)
    ensures ValidNames(GaugeNames(Coerced(us))) && ValidNames(CounterNames(Coerced(us)))
  {
    if us != [] {
      var k := |us| - 1;
      assert Coerced(us)[..k] == Coerced(us[..k]);
      CoercedNames(us[..k]);
      CoercedIsValid(us[k].name);
      hide ValidUtf8, Coerce;
    }
  }

  lemma {:induction false} NothingCoerced(us: seq<Update>)
    requires ValidNames(GaugeNames(us)) && ValidNames(CounterNames(us))
    ensures Coerced(us) == us
  {
    if us != [] {
      var k := |us| - 1;
      NothingCoerced(us[..k]);
      assert us[k].name in if us[k].SetGauge? then GaugeNames(us) else CounterNames(us);
      CoerceGrows(us[k].name);
      hide ValidUtf8, Coerce;
      assert Coerced(us) == Coerced(us[..k]) + [us[k]] && us == us[..k] + [us[k]];
    }
  }

  /** A restored store has valid names only. */
  lemma {:induction false} RestoredNames(us: seq<Update>)
    ensures var r := Replay(EMPTY, Coerced(us)); ValidNames(Names(r.gauges)) && ValidNames(Names(r.counters))
  {
    hide Replay, ValidUtf8, Coerced;
    CoercedNames(us);
    ReplayNames(EMPTY, Coerced(us));
    forall n { ExtendMembers([], GaugeNames(Coerced(us)), n); }
    forall n { ExtendMembers([], CounterNames(Coerced(us)), n); }
  }

  /** What the names are after a backup and a restore, for any store with finite gauges. */
  lemma {:induction false} NamesComeBackExactly(c: Codec, s: Store)
    requires Sound(c) && WellFormed(s) && AllWritable(Dump(s))
    ensures AllWritable(Coerced(Dump(s)))
    ensures var text := Text(c, Coerced(Dump(s)));
      && Restorable(c, text)
      && (Replay(EMPTY, Restored(c, text)) == s <==> ValidNames(Names(s.gauges)) && ValidNames(Names(s.counters)))
  {
    var us := Coerced(Dump(s));
    forall i | 0 <= i < |us| ensures Writable(us[i]) {
      assert Dump(s)[i] in Dump(s);
    }
    ReadBack(c, us, "");
    assert Text(c, us) + "" == Text(c, us);
    hide Replay, Restored, Restorable, Text, ValidNames, Dump;
    DumpMeaning(s, "");
    RestoredNames(Dump(s));
    if ValidNames(Names(s.gauges)) && ValidNames(Names(s.counters)) {
      NothingCoerced(Dump(s));
      DumpRoundTrip(s);
    }
  }

  /** The counters of this list that are written under the name m, added up. */
  function WrittenAs(cs: seq<Entry<int64>>, m: string): int {
    if cs == [] then 0
    else WrittenAs(cs[..|cs| - 1], m) + if Coerce(cs[|cs| - 1].name) == m then cs[|cs| - 1].value else 0
  }

  /** The last gauge of this list that is written under the name m. */
  function LastWrittenAs(gs: seq<Entry<Float64>>, m: string): Option<Float64> {
    if gs == [] then None
    else if Coerce(gs[|gs| - 1].name) == m then Some(gs[|gs| - 1].value)
    else LastWrittenAs(gs[..|gs| - 1], m)
  }

  lemma {:induction false} CoercedGauges(gs: seq<Entry<Float64>>, m: string)
    ensures var us := Coerced(GaugeUpdates(gs));
      && LastGauge(us, m) == LastWrittenAs(gs, m) && Sum(us, m) == 0 && CounterNames(us) == []
  {
    hide Coerce;
    if gs != [] {
      var k := |gs| - 1;
      CoercedGauges(gs[..k], m);
      assert Coerced(GaugeUpdates(gs))[..k] == Coerced(GaugeUpdates(gs[..k]));
    }
  }

  lemma {:induction false} CoercedCounters(cs: seq<Entry<int64>>, m: string)
    ensures var us := Coerced(CounterUpdates(cs));
      && Sum(us, m) == WrittenAs(cs, m) && LastGauge(us, m) == None
      && (m in CounterNames(us) <==> exists i | 0 <= i < |cs| :: Coerce(cs[i].name) == m)
  {
    hide Coerce;
    if cs != [] {
      var k := |cs| - 1;
      CoercedCounters(cs[..k], m);
      assert Coerced(CounterUpdates(cs))[..k] == Coerced(CounterUpdates(cs[..k]));
      assert forall i | 0 <= i < k :: cs[..k][i] == cs[i];
    }
  }

  /**
   * Names that are written alike merge: after a backup and a restore a counter is the wrapped sum of
   * all counters written under its name, and a gauge is the last one in list order.
   */
  lemma {:induction false} NamesMerge(s: Store, m: string)
    ensures var got := Replay(EMPTY, Coerced(Dump(s)));
      && Lookup<int64>(got.counters, m)
         == (if exists i | 0 <= i < |s.counters| :: Coerce(s.counters[i].name) == m
             then Some(Wrap(WrittenAs(s.counters, m))) else None)
      && Lookup(got.gauges, m) == LastWrittenAs(s.gauges, m)
  {
    CoercedDump(s, m);
    hide *;
    FromEmpty(Coerced(Dump(s)), m);
  }

  lemma CoercedDump(s: Store, m: string)
    ensures var us := Coerced(Dump(s));
      && Sum(us, m) == WrittenAs(s.counters, m) && LastGauge(us, m) == LastWrittenAs(s.gauges, m)
      && (m in CounterNames(us) <==> exists i | 0 <= i < |s.counters| :: Coerce(s.counters[i].name) == m)
  {
    var g, c := GaugeUpdates(s.gauges), CounterUpdates(s.counters);
    assert Dump(s) == g + c && Coerced(g + c) == Coerced(g) + Coerced(c);
    hide Coerced, Coerce, Sum, LastGauge, CounterNames, Dump, WrittenAs, LastWrittenAs;
    CoercedGauges(s.gauges, m);
    CoercedCounters(s.counters, m);
    NamesConcat(Coerced(g), Coerced(c));
    LastGaugeConcat(Coerced(g), Coerced(c), m);
    SumConcat(Coerced(g), Coerced(c), m);
  }

  lemma OneByte(c: char)
    requires c as int >= 0xFE
    ensures Coerce([c]) == REPLACEMENT
  {
    assert RuneWidth([c]) == 0 && [c][1..] == [] && Coerce([]) == [];
    assert REPLACEMENT + [] == REPLACEMENT;
  }

  /** For instance, the counters named by the single bytes FF and FE come back as one. */
  lemma {:induction false} CountersMerge(a: int64, b: int64)
    ensures var s := Store([], [Entry([0xFF as char], a), Entry([0xFE as char], b)]);
      Replay(EMPTY, Coerced(Dump(s))) == Store([], [Entry(REPLACEMENT, Wrap(a + b))])
  {
    var s := Store([], [Entry([0xFF as char], a), Entry([0xFE as char], b)]);
    OneByte(0xFF as char);
    OneByte(0xFE as char);
    var us := Coerced(Dump(s));
    assert us == [AddDelta(REPLACEMENT, a), AddDelta(REPLACEMENT, b)];
    assert us[..1] == [us[0]] && us[..1][..0] == [];
    WrapUnique(a, a);
    assert Replay(EMPTY, us[..1]) == Store([], [Entry(REPLACEMENT, a)]);
  }
}
