/**
 * The wire form of a metric (internal/models/metrics.go) and the newline-terminated
 * lines of the backup file. The JSON text is the one encoding/json writes: strings escape what it
 * escapes, absent payloads are omitted, numbers are decimal digits. The text of a float64 is the
 * decimal form of its bits, standing for the shortest decimal that parses back to them.
 */
module Codec {
  import opened Wrappers
  import opened Numbers

  datatype Metrics = Metrics(id: string, mtype: string, delta: Option<int64>, value: Option<Float64>)

  // ---------- strings ----------

  const HEX := "0123456789abcdef"

  function Hex4(n: nat): (r: string)
    requires n < 0x1_0000
    ensures |r| == 4
  {
    var m := n / 0x10;
    var l := m / 0x10;
    [HEX[l / 0x10], HEX[l % 0x10], HEX[m % 0x10], HEX[n % 0x10]]
  }

  function HexDigit(c: char): Option<nat> {
    if '0' <= c <= '9' then Some((c as int - '0' as int) as nat)
    else if 'a' <= c <= 'f' then Some((c as int - 'a' as int + 10) as nat)
    else None
  }

  /** The character four hexadecimal digits stand for; surrogates are not decoded. */
  function ParseHex4(s: string): Option<char>
    requires |s| >= 4
  {
    var a :- HexDigit(s[0]);
    var b :- HexDigit(s[1]);
    var c :- HexDigit(s[2]);
    var d :- HexDigit(s[3]);
    var n := ((a * 0x10 + b) * 0x10 + c) * 0x10 + d;
    if n < 0xD800 || 0xE000 <= n < 0x1_0000 then Some(n as char) else None
  }

  lemma HexDigitRoundTrip(n: nat)
    requires n < 0x10
    ensures HexDigit(HEX[n]) == Some(n)
  {
  }

  lemma HexRoundTrip(c: char, rest: string)
    requires c as int < 0xD800
    ensures ParseHex4(Hex4(c as int) + rest) == Some(c)
  {
    var n: nat := c as int;
    var s := Hex4(n) + rest;
    assert s[0] == Hex4(n)[0] && s[1] == Hex4(n)[1] && s[2] == Hex4(n)[2] && s[3] == Hex4(n)[3];
    var m := n / 0x10;
    var l := m / 0x10;
    HexDigitRoundTrip(l / 0x10);
    HexDigitRoundTrip(l % 0x10);
    HexDigitRoundTrip(m % 0x10);
    HexDigitRoundTrip(n % 0x10);
    hide HexDigit;
    HexSum(n);
  }

  lemma HexSum(n: nat)
    ensures var m, l := n / 0x10, n / 0x10 / 0x10;
      ((l / 0x10 * 0x10 + l % 0x10) * 0x10 + m % 0x10) * 0x10 + n % 0x10 == n
  {
  }

  const BACKSPACE: char := 8 as char
  const FORM_FEED: char := 12 as char

  /** The letter after the backslash, for the characters that have one. */
  function ShortEscape(c: char): Option<char> {
    if c == '"' || c == '\\' then Some(c)
    else if c == '\n' then Some('n')
    else if c == '\r' then Some('r')
    else if c == '\t' then Some('t')
    else if c == BACKSPACE then Some('b')
    else if c == FORM_FEED then Some('f')
    else None
  }

  function Unescape(c: char): Option<char> {
    if c == '"' || c == '\\' then Some(c)
    else if c == 'n' then Some('\n')
    else if c == 'r' then Some('\r')
    else if c == 't' then Some('\t')
    else if c == 'b' then Some(BACKSPACE)
    else if c == 'f' then Some(FORM_FEED)
    else None
  }

  /** Other control characters, the characters of HTML, and the two line separators of JavaScript. */
  predicate EscapedByNumber(c: char) {
    c < ' ' || c in ['<', '>', '&', 0x2028 as char, 0x2029 as char]
  }

  lemma HexIsPrintable(n: nat)
    requires n < 0x1_0000
    ensures '\n' !in Hex4(n)
  {
    assert forall i | 0 <= i < 0x10 :: HEX[i] != '\n';
  }

  function EscapeChar(c: char): (r: string)
    ensures r != [] && '\n' !in r
    ensures r[0] == '\\' ==> |r| == 2 || (|r| == 6 && r[1] == 'u')
    ensures r[0] != '\\' ==> r == [c] && c != '"'
  {
    if ShortEscape(c).Some? then ['\\', ShortEscape(c).value]
    else if EscapedByNumber(c) then
      HexIsPrintable(c as int);
      ['\\', 'u'] + Hex4(c as int)
    else [c]
  }

  function Escape(s: string): (r: string)
    ensures '\n' !in r
  {
    if s == [] then [] else EscapeChar(s[0]) + Escape(s[1..])
  }

  /** A character read from a string, and how much text it took. */
  datatype Character = Character(value: char, width: nat)

  /** Reads one character, escaped or not, other than the closing quote; control characters must be escaped. */
  function ParseChar(s: string): (r: Option<Character>)
    ensures r.Some? ==> 0 < r.value.width <= |s|
  {
    if s == [] || s[0] < ' ' then None
    else if s[0] != '\\' then Some(Character(s[0], 1))
    else if |s| == 1 then None
    else if s[1] == 'u' then
      if |s| < 6 then None
      else
        var c :- ParseHex4(s[2..]);
        Some(Character(c, 6))
    else
      var c :- Unescape(s[1]);
      Some(Character(c, 2))
  }

  /** Reads up to the closing quote; gives the text and what follows the quote. */
  function ParseString(s: string): Option<(string, string)>
    decreases |s|
  {
    if s == [] then None
    else if s[0] == '"' then Some(([], s[1..]))
    else
      var c :- ParseChar(s);
      var p :- ParseString(s[c.width..]);
      Some(([c.value] + p.0, p.1))
  }

  /** The characters encoding/json writes as they are: all but these. */
  lemma PlainExactly(c: char)
    ensures EscapeChar(c) == [c]
       <==> c >= ' ' && c !in ['"', '\\', '<', '>', '&', 0x2028 as char, 0x2029 as char]
  {
  }

  lemma {:induction false} PlainText(s: string)
    requires forall i | 0 <= i < |s| :: 'a' <= s[i] <= 'z'
    ensures Escape(s) == s
  {
    if s != [] {
      PlainExactly(s[0]);
      PlainText(s[1..]);
      assert s == [s[0]] + s[1..];
    }
  }

  lemma ReadEscaped(c: char, tail: string)
    ensures ParseChar(EscapeChar(c) + tail) == Some(Character(c, |EscapeChar(c)|))
  {
    var e := EscapeChar(c);
    var whole := e + tail;
    assert whole[0] == e[0];
    if ShortEscape(c).Some? {
      assert whole[1] == e[1];
    } else if EscapedByNumber(c) {
      ReadNumber(c, tail);
    }
  }

  lemma ReadNumber(c: char, tail: string)
    requires ShortEscape(c).None? && EscapedByNumber(c)
    ensures ParseChar(EscapeChar(c) + tail) == Some(Character(c, |EscapeChar(c)|))
  {
    HexRoundTrip(c, tail);
    assert EscapeChar(c) == ['\\', 'u'] + Hex4(c as int);
    hide *;
    ParseNumber(c, Hex4(c as int), tail);
  }

  lemma ParseNumber(c: char, digits: string, tail: string)
    requires |digits| == 4 && ParseHex4(digits + tail) == Some(c)
    ensures ParseChar(['\\', 'u'] + digits + tail) == Some(Character(c, 6))
  {
    hide ParseHex4;
    var s := ['\\', 'u'] + digits + tail;
    assert s[0] == '\\' && s[1] == 'u' && s[2..] == digits + tail;
  }

  /** One escaped character is read back as itself, whatever follows it. */
  lemma CharRoundTrip(c: char, tail: string)
    ensures ParseString(EscapeChar(c) + tail)
         == match ParseString(tail)
            case None => None
            case Some(p) => Some(([c] + p.0, p.1))
  {
    ReadEscaped(c, tail);
    var e := EscapeChar(c);
    assert (e + tail)[0] == e[0] && (e + tail)[|e|..] == tail;
    hide EscapeChar, ParseChar;
  }

  lemma Regroup(e: string, more: string, quote: string, rest: string)
    ensures e + more + quote + rest == e + (more + quote + rest)
  {
  }

  lemma {:induction false} StringRoundTrip(s: string, rest: string)
    ensures ParseString(Escape(s) + ['"'] + rest) == Some((s, rest))
  {
    if s == [] {
      assert Escape(s) + ['"'] + rest == ['"'] + rest;
      assert (['"'] + rest)[1..] == rest;
    } else {
      var e, more := EscapeChar(s[0]), Escape(s[1..]);
      StringRoundTrip(s[1..], rest);
      CharRoundTrip(s[0], more + ['"'] + rest);
      assert Escape(s) == e + more;
      hide *;
      Regroup(e, more, ['"'], rest);
      assert [s[0]] + s[1..] == s;
    }
  }

  // ---------- numbers ----------

  const DIGITS := "0123456789"

  predicate IsDigit(c: char) {
    '0' <= c <= '9'
  }

  function Digits(n: nat): (r: string)
    ensures r != [] && forall i | 0 <= i < |r| :: IsDigit(r[i])
    ensures r[0] == '0' ==> n == 0  // no leading zeros
  {
    (if n < 10 then [] else Digits(n / 10)) + [DIGITS[n % 10]]
  }

  function ToNat(s: string): nat
    requires forall i | 0 <= i < |s| :: IsDigit(s[i])
  {
    if s == [] then 0
    else
      assert IsDigit(s[|s| - 1]);
      ToNat(s[..|s| - 1]) * 10 + (s[|s| - 1] as int - '0' as int)
  }

  lemma {:induction false} DigitsRoundTrip(n: nat)
    ensures ToNat(Digits(n)) == n
  {
    var head := if n < 10 then [] else Digits(n / 10);
    assert Digits(n) == head + [DIGITS[n % 10]];
    assert (head + [DIGITS[n % 10]])[..|head|] == head;
    assert DIGITS[n % 10] as int - '0' as int == n % 10;
    if n >= 10 {
      DigitsRoundTrip(n / 10);
      assert n == n / 10 * 10 + n % 10;
    }
  }

  /** The longest prefix of digits. */
  function Span(s: string): (k: nat)
    ensures k <= |s| && forall i | 0 <= i < k :: IsDigit(s[i])
    ensures k < |s| ==> !IsDigit(s[k])
  {
    if s == [] || !IsDigit(s[0]) then 0 else 1 + Span(s[1..])
  }

  function ParseNat(s: string): Option<(int, string)> {
    var k := Span(s);
    if k == 0 then None else Some((ToNat(s[..k]), s[k..]))
  }

  lemma NatRoundTrip(n: nat, rest: string)
    requires rest == [] || !IsDigit(rest[0])
    ensures ParseNat(Digits(n) + rest) == Some((n, rest))
  {
    var s, d := Digits(n) + rest, |Digits(n)|;
    assert forall i | 0 <= i < d :: s[i] == Digits(n)[i];
    assert rest != [] ==> s[d] == rest[0];
    assert Span(s) == d;
    assert s[..d] == Digits(n) && s[d..] == rest;
    DigitsRoundTrip(n);
  }

  function Int(x: int): (r: string)
    ensures '\n' !in r
  {
    if x < 0 then ['-'] + Digits(-x) else Digits(x)
  }

  function ParseInt(s: string): Option<(int, string)> {
    if s != [] && s[0] == '-' then
      var p :- ParseNat(s[1..]);
      Some((-p.0, p.1))
    else
      ParseNat(s)
  }

  lemma IntRoundTrip(x: int, rest: string)
    requires rest == [] || !IsDigit(rest[0])
    ensures ParseInt(Int(x) + rest) == Some((x, rest))
  {
    hide Digits, ParseNat;
    var digits := Digits(if x < 0 then -x else x);
    NatRoundTrip(if x < 0 then -x else x, rest);
    if x < 0 {
      assert Int(x) + rest == ['-'] + (digits + rest);
    } else {
      assert IsDigit(digits[0]) && Int(x) + rest == digits + rest;
    }
  }

  // ---------- records ----------

  const ID_KEY := "{\"id\":\""
  const TYPE_KEY := ",\"type\":\""
  const DELTA_KEY := ",\"delta\":"
  const VALUE_KEY := ",\"value\":"

  /** The encoder refuses NaN and the infinities. */
  predicate Encodable(m: Metrics) {
    m.value.Some? ==> Finite(m.value.value)
  }

  /** In terms of bits. */
  lemma EncodableExactly(m: Metrics)
    ensures Encodable(m) <==> !(m.value.Some? && m.value.value % TWO_63 >= INFINITY)
  {
    if m.value.Some? {
      FiniteExactly(m.value.value);
    }
  }

  /** A payload with the omitempty rule: nothing at all when it is absent. */
  function Payload(key: string, x: Option<int>): (r: string)
    ensures '\n' !in key ==> '\n' !in r
  {
    if x.None? then [] else key + Int(x.value)
  }

  function ParsePayload(key: string, s: string): Option<(Option<int>, string)> {
    if !(key <= s) then Some((None, s))
    else
      var p :- ParseInt(s[|key|..]);
      Some((Some(p.0), p.1))
  }

  lemma PayloadRoundTrip(key: string, x: Option<int>, rest: string)
    requires rest != [] && !IsDigit(rest[0]) && !(key <= rest)
    ensures ParsePayload(key, Payload(key, x) + rest) == Some((x, rest))
  {
    hide Int, ParseInt;
    if x.Some? {
      IntRoundTrip(x.value, rest);
      assert Payload(key, x) + rest == key + (Int(x.value) + rest);
    } else {
      assert Payload(key, x) + rest == rest;
    }
  }

  function Field(key: string, text: string): (r: string)
    ensures '\n' !in key ==> '\n' !in r
  {
    key + Escape(text) + ['"']
  }

  function ParseField(key: string, s: string): Option<(string, string)> {
    if key <= s then ParseString(s[|key|..]) else None
  }

  lemma NoNewline(a: string, b: string, c: string, d: string)
    requires '\n' !in a && '\n' !in b && '\n' !in c && '\n' !in d
    ensures '\n' !in a + (b + (c + (d + ['}']))) && a + (b + (c + (d + ['}']))) != []
  {
  }

  function Marshal(m: Metrics): (r: Option<string>)
    ensures r.Some? <==> Encodable(m)
    ensures r.None? <==> m.value.Some? && m.value.value % TWO_63 >= INFINITY
    ensures r.Some? ==> '\n' !in r.value && r.value != []
  {
    EncodableExactly(m);
    if !Encodable(m) then None
    else
      NoNewline(Field(ID_KEY, m.id), Field(TYPE_KEY, m.mtype),
                Payload(DELTA_KEY, m.delta), Payload(VALUE_KEY, m.value));
      Some(Field(ID_KEY, m.id)
           + (Field(TYPE_KEY, m.mtype) + (Payload(DELTA_KEY, m.delta) + (Payload(VALUE_KEY, m.value) + ['}']))))
  }

  /** Conversion of parsed numbers to the record's types; out of range is a decoding error. */
  function Typed(id: string, mtype: string, d: Option<int>, v: Option<int>): Option<Metrics> {
    if d.Some? && !(-TWO_63 <= d.value < TWO_63) then None
    else if v.Some? && !(0 <= v.value < TWO_64 && Finite(v.value)) then None
    else
      var delta: Option<int64> := if d.None? then None else Some(d.value as int64);
      var value: Option<Float64> := if v.None? then None else Some(v.value as Float64);
      Some(Metrics(id, mtype, delta, value))
  }

  function Unmarshal(s: string): Option<Metrics> {
    var id :- ParseField(ID_KEY, s);
    var ty :- ParseField(TYPE_KEY, id.1);
    var d :- ParsePayload(DELTA_KEY, ty.1);
    var v :- ParsePayload(VALUE_KEY, d.1);
    if v.1 == ['}'] then Typed(id.0, ty.0, d.0, v.0) else None
  }

  lemma FieldRoundTrip(key: string, text: string, rest: string)
    ensures ParseField(key, Field(key, text) + rest) == Some((text, rest))
  {
    hide Escape, ParseString;
    Regroup(key, Escape(text), ['"'], rest);
    StringRoundTrip(text, rest);
    assert (key + (Escape(text) + ['"'] + rest))[|key|..] == Escape(text) + ['"'] + rest;
  }

  /** Decoding gives back every record the encoder accepts. */
  lemma RoundTrip(m: Metrics)
    requires Encodable(m)
    ensures Unmarshal(Marshal(m).value) == Some(m)
  {
    var r3 := Payload(VALUE_KEY, m.value) + ['}'];
    var r2 := Payload(DELTA_KEY, m.delta) + r3;
    FieldRoundTrip(ID_KEY, m.id, Field(TYPE_KEY, m.mtype) + r2);
    FieldRoundTrip(TYPE_KEY, m.mtype, r2);
    KeysDiffer(m.value);
    PayloadRoundTrip(DELTA_KEY, m.delta, r3);
    PayloadRoundTrip(VALUE_KEY, m.value, ['}']);
    hide ParseField, ParsePayload, Field, Payload, IsDigit;
  }

  lemma KeysDiffer(v: Option<int>)
    ensures !(DELTA_KEY <= Payload(VALUE_KEY, v) + ['}']) && !(VALUE_KEY <= ['}'])
    ensures !IsDigit((Payload(VALUE_KEY, v) + ['}'])[0])
  {
    assert DELTA_KEY[2] == 'd' && VALUE_KEY[0] == ',' && VALUE_KEY[2] == 'v';
  }

  // ---------- the codec as its users see it ----------

  /** encoding/json as a pair of functions. */
  datatype Codec = Codec(encode: Metrics -> Option<string>, decode: string -> Option<Metrics>)

  /**
   * What the backup needs of the encoder: it accepts exactly the encodable records, its output
   * has no newline (section 7 of RFC 8259 makes control characters in strings escaped), and
   * decoding is its inverse. Of encoding/json the last is true for names in valid UTF-8, and a
   * Dafny string is taken to be one; module NameEncoding has the names that are not.
   */
  ghost predicate Sound(c: Codec) {
    forall m: Metrics ::
      && (c.encode(m).Some? <==> Encodable(m))
      && (Encodable(m) ==> '\n' !in c.encode(m).value && c.decode(c.encode(m).value) == Some(m))
  }

  const JSON: Codec := Codec(Marshal, Unmarshal)

  /** The concrete codec above is one such pair. */
  lemma JsonIsSound()
    ensures Sound(JSON)
  {
    forall m: Metrics
      ensures JSON.encode(m).Some? <==> Encodable(m)
      ensures Encodable(m) ==> '\n' !in JSON.encode(m).value && JSON.decode(JSON.encode(m).value) == Some(m)
    {
      if Encodable(m) {
        RoundTrip(m);
      }
    }
  }
}
