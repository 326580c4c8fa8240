/**
 * What happens after a crash tore the backup file (internal/repository/backup.go): the server
 * restores what it can and then appends to the same file, so its first new record lands on the
 * torn line. For the JSON text of Codec this decides whether later records can ever be read.
 */
module TornTail {
  import opened Wrappers
  import opened Storage
  import opened Codec
  import opened Journal

  /** The start of every record, as far as telling records apart goes. */
  predicate StartsRecord(next: string) {
    |next| > 2 && next[0] == '{' && next[1] == '"' && next[2] == 'i'
  }

  lemma LineStarts(u: Update)
    requires Sound(JSON) && Writable(u)
    ensures StartsRecord(LineOf(JSON, u)) && LineOf(JSON, u) == Marshal(EventOf(u)).value
  {
    hide Escape, Payload;
    var line := Marshal(EventOf(u)).value;
    assert line[..3] == ID_KEY[..3] == "{\"i";
    assert line[0] == line[..3][0] && line[1] == line[..3][1] && line[2] == line[..3][2];
  }

  /** A string torn in its text takes the next record's first quote for its own. */
  lemma {:induction false} TornString(text: string, p: string, next: string)
    requires p <= Escape(text) && StartsRecord(next)
    ensures var r := ParseString(p + next); r.Some? ==> r.value.1 == next[2..]
  {
    if p == [] {
      assert p + next == next && next[1..][1..] == next[2..];
    } else {
      var e, more := EscapeChar(text[0]), Escape(text[1..]);
      assert Escape(text) == e + more;
      hide Escape;
      if |p| < |e| {
        TornChar(text[0], more, p, next);
      } else {
        TornAfter(e, more, p, next);
        TornString(text[1..], p[|e|..], next);
        CharRoundTrip(text[0], p[|e|..] + next);
        hide ParseString, EscapeChar;
      }
    }
  }

  /** A torn escape with a record behind it is no escape. */
  lemma TornChar(c: char, more: string, p: string, next: string)
    requires p != [] && |p| < |EscapeChar(c)| && p <= EscapeChar(c) + more && StartsRecord(next)
    ensures (p + next)[0] != '"' && ParseChar(p + next) == None
  {
    var e, s := EscapeChar(c), p + next;
    assert p[0] == (e + more)[0] && s[0] == p[0] && s[|p|] == '{';
    if |p| > 1 {
      assert p[1] == (e + more)[1] && s[1] == p[1];
      assert |s| >= 6 ==> s[2..][|p| - 2] == '{';
    }
  }

  lemma TornAfter(e: string, more: string, p: string, next: string)
    requires p <= e + more && |p| >= |e|
    ensures p[|e|..] <= more && p + next == e + (p[|e|..] + next)
  {
    assert p[..|e|] == (e + more)[..|e|] == e;
    assert p[|e|..] == (e + more)[|e|..|p|];
  }

  /** A field followed by the next record: it is cut short, misread, or whole. */
  lemma TornField(key: string, text: string, after: string, tail: string, next: string)
    requires tail <= Field(key, text) + after && StartsRecord(next)
    requires |tail| < |key| ==> key[|tail|] != '{'
    ensures var r, whole := ParseField(key, tail + next), |Field(key, text)|;
      || r.None?
      || r.value.1 == next[2..]
      || (|tail| >= whole && tail[whole..] <= after && r.value.1 == tail[whole..] + next)
  {
    hide Escape, ParseString;
    var f := Field(key, text);
    if |tail| < |key| {
      assert (tail + next)[|tail|] == '{';
    } else if |tail| < |f| {
      assert tail <= f && tail == key + tail[|key|..];
      assert tail[|key|..] <= Escape(text) by {
        assert f[|key|..] == Escape(text) + ['"'] && tail[|key|..] <= f[|key|..];
      }
      assert tail + next == key + (tail[|key|..] + next);
      TornString(text, tail[|key|..], next);
    } else {
      assert tail == f + tail[|f|..];
      assert tail + next == f + (tail[|f|..] + next);
      FieldRoundTrip(key, text, tail[|f|..] + next);
    }
  }

  /** What a number parser consumes holds no brace. */
  lemma NumberHasNoBrace(s: string)
    ensures var r := ParseInt(s);
      r.Some? ==> |r.value.1| <= |s| && '{' !in s[..|s| - |r.value.1|] && s[|s| - |r.value.1|..] == r.value.1
  {
    var t := if s != [] && s[0] == '-' then s[1..] else s;
    var k := Span(t);
    assert forall i | 0 <= i < k :: IsDigit(t[i]);
    if s != [] && s[0] == '-' {
      assert s[..k + 1] == ['-'] + t[..k] && s[k + 1..] == t[k..];
    }
  }

  lemma PayloadHasNoBrace(key: string, s: string)
    requires '{' !in key
    ensures var r := ParsePayload(key, s);
      r.Some? ==> |r.value.1| <= |s| && ('{' in s ==> '{' in r.value.1)
  {
    if key <= s {
      var t := s[|key|..];
      NumberHasNoBrace(t);
      hide ParseInt;
      assert s == key + t;
      if ParseInt(t).Some? {
        var rest := ParseInt(t).value.1;
        assert t == t[..|t| - |rest|] + rest;
      }
    }
  }

  /** A torn record with another record glued to it never decodes, wherever the tear is. */
  lemma GluedIsUnreadable(m: Metrics, tail: string, next: string)
    requires Encodable(m) && tail != [] && tail <= Marshal(m).value && StartsRecord(next)
    ensures Unmarshal(tail + next) == None
  {
    var rest := Payload(DELTA_KEY, m.delta) + (Payload(VALUE_KEY, m.value) + ['}']);
    assert Marshal(m).value == Field(ID_KEY, m.id) + (Field(TYPE_KEY, m.mtype) + rest);
    hide Marshal, Field, ParseField, ParseString, ParsePayload;
    TornField(ID_KEY, m.id, Field(TYPE_KEY, m.mtype) + rest, tail, next);
    var id := ParseField(ID_KEY, tail + next);
    if id.Some? {
      if id.value.1 == next[2..] {
        NotAField(next[2..]);
      } else {
        var tail' := tail[|Field(ID_KEY, m.id)|..];
        TornField(TYPE_KEY, m.mtype, rest, tail', next);
        var ty := ParseField(TYPE_KEY, tail' + next);
        if ty.Some? {
          NoEnd(ty.value.1, next);
        }
      }
    }
  }

  lemma NotAField(s: string)
    requires s != [] && s[0] == 'i'
    ensures ParseField(TYPE_KEY, s) == None
  {
    assert TYPE_KEY[0] == ',';
  }

  /** Neither the middle of a record nor anything with a brace in it is two payloads and the end. */
  lemma {:induction false} NoEnd(s: string, next: string)
    requires StartsRecord(next) && (s == next[2..] || '{' in s)
    ensures var d := ParsePayload(DELTA_KEY, s);
      d.Some? ==> var v := ParsePayload(VALUE_KEY, d.value.1); v.Some? ==> v.value.1 != ['}']
  {
    var d := ParsePayload(DELTA_KEY, s);
    PayloadHasNoBrace(DELTA_KEY, s);
    if d.Some? {
      PayloadHasNoBrace(VALUE_KEY, d.value.1);
      if s == next[2..] {
        assert DELTA_KEY[0] == ',' && VALUE_KEY[0] == ',' && s[0] == 'i';
      }
    }
  }

  /** Never does a non-empty piece of one record, whole or torn, with another record behind it decode. */
  ghost predicate RejectsGlue(c: Codec)
    requires Sound(c)
  {
    forall u: Update, v: Update, tail: string ::
      Writable(u) && Writable(v) && tail != "" && tail <= LineOf(c, u) ==> c.decode(tail + LineOf(c, v)) == None
  }

  /** The JSON text has this property. */
  lemma JsonRejectsGlue()
    requires Sound(JSON)
    ensures RejectsGlue(JSON)
  {
    forall u: Update, v: Update, tail: string | Writable(u) && Writable(v) && tail != "" && tail <= LineOf(JSON, u)
      ensures JSON.decode(tail + LineOf(JSON, v)) == None
    {
      LineStarts(u);
      LineStarts(v);
      hide LineOf, Marshal;
      GluedIsUnreadable(EventOf(u), tail, LineOf(JSON, v));
    }
  }

  /**
   * A backup torn at any byte, then appended to: what was whole before the tear is restored, and
   * the records appended after it are restored if and only if the tear fell between two records.
   */
  lemma {:induction false} TearDecides(c: Codec, us: seq<Update>, cut: nat, more: seq<Update>)
    requires Sound(c) && RejectsGlue(c) && AllWritable(us) && AllWritable(more) && cut <= |Text(c, us)|
    ensures var torn := Text(c, us)[..cut];
      && Newlines(torn) <= |us|
      && Restorable(c, torn + Text(c, more))
      && Restored(c, torn + Text(c, more))
         == us[..Newlines(torn)] + if torn == "" || torn[|torn| - 1] == '\n' then more else []
  {
    var j, tail := TearWhere(c, us, cut);
    if tail == "" {
      TornBetween(c, us[..j], more);
      assert Text(c, us[..j]) + tail == Text(c, us[..j]);
    } else {
      TornInside(c, us[..j], us[j], tail, more);
    }
    hide *;
  }

  lemma {:induction false} TornBetween(c: Codec, us: seq<Update>, more: seq<Update>)
    requires Sound(c) && AllWritable(us) && AllWritable(more)
    ensures var t := Text(c, us);
      && (t == "" || t[|t| - 1] == '\n')
      && Restorable(c, t + Text(c, more)) && Restored(c, t + Text(c, more)) == us + more
  {
    BetweenRecords(c, us);
    ReadBack(c, more, "");
    assert Text(c, more) + "" == Text(c, more);
    ReadOn(c, us, Text(c, more));
  }

  lemma Glue(a: string, tail: string, b: string)
    requires tail != "" && OneLine(tail)
    ensures a + tail != "" && (a + tail)[|a + tail| - 1] != '\n' && a + tail + b == a + (tail + b)
  {
  }

  lemma {:induction false} TornInside(c: Codec, us: seq<Update>, u: Update, tail: string, more: seq<Update>)
    requires Sound(c) && RejectsGlue(c) && AllWritable(us) && Writable(u) && AllWritable(more)
    requires tail != "" && OneLine(tail) && tail <= LineOf(c, u)
    ensures var torn := Text(c, us) + tail;
      && torn != "" && torn[|torn| - 1] != '\n'
      && Restorable(c, torn + Text(c, more)) && Restored(c, torn + Text(c, more)) == us + []
  {
    hide Records;
    Glue(Text(c, us), tail, Text(c, more));
    assert us + [] == us;
    if more == [] {
      assert tail + Text(c, more) == tail;
      ReadBack(c, us, tail);
    } else {
      assert more[0] in more;
      assert c.decode(tail + LineOf(c, more[0])) == None;
      hide LineOf, Text, Restorable, Restored;
      AppendAfterTear(c, us, tail, more);
    }
  }

  lemma {:induction false} BetweenRecords(c: Codec, us: seq<Update>)
    requires Sound(c) && AllWritable(us)
    ensures var t := Text(c, us); t == "" || t[|t| - 1] == '\n'
  {
    if us != [] {
      var k := |us| - 1;
      assert us == us[..k] + [us[k]];
      TextConcat(c, us[..k], [us[k]]);
      TextOne(c, us[k]);
    }
  }
}
