/**
  * Where the parts of an RFC 5424 message end up, field by field: the header's names, the time, the parameters
  * under their keys, the text, and everything else as it was.
  */
module SyslogFields {
  import opened Wrappers
  import opened Sequences
  import opened StructuredData
  import opened Text

  /** A field is set to the value, or left as it was when the value is nil. */
  ghost predicate SetOrKept(before: Fields, after: Fields, key: string, value: string) {
    if value != "-" then key in after && after[key] == value
    else (key in after <==> key in before) && (key in after ==> after[key] == before[key])
  }

  /** The key does not belong to structured data. */
  predicate NoSdKey(key: string) { !("sd." <= key) }

  lemma HeaderFieldsAre(fields: Fields, host: string, app: string, procid: string, msgid: string)
    ensures var f := HeaderFields(fields, host, app, procid, msgid);
            && SetOrKept(fields, f, "host", host) && SetOrKept(fields, f, "program", app)
            && SetOrKept(fields, f, "procid", procid) && SetOrKept(fields, f, "msgid", msgid)
            && forall key :: key !in {"host", "program", "procid", "msgid"} ==> SetOrKept(fields, f, key, "-")
  {
    NamesDiffer();
  }

  lemma NamesDiffer()
    ensures "host" != "program" && "host" != "procid" && "host" != "msgid"
    ensures "program" != "procid" && "program" != "msgid" && "procid" != "msgid"
    ensures NoSdKey("host") && NoSdKey("program") && NoSdKey("procid") && NoSdKey("msgid")
  {
    assert "host"[0] == 'h' && "program"[0] == 'p' && "procid"[0] == 'p' && "msgid"[0] == 'm' && "sd."[0] == 's';
    assert "program"[3] == 'g' && "procid"[3] == 'c';
  }

  lemma NoSdEntry(es: seq<Element>, key: string, k: nat)
    requires NoSdKey(key) && k < |Pairs(es)|
    ensures PairKey(Pairs(es)[k]) != key
  {
    var p := Pairs(es)[k];
    assert PairKey(p)[..3] == "sd.";
  }

  /** Structured data sets no field but its own. */
  lemma OthersKept(before: Fields, header: Fields, es: seq<Element>, key: string, value: string)
    requires NoSdKey(key) && SetOrKept(before, header, key, value)
    ensures SetOrKept(before, Update(header, Entries(es)), key, value)
  {
    hide PairKey, Pairs, Update, Entries;
    forall k | 0 <= k < |Pairs(es)| ensures PairKey(Pairs(es)[k]) != key {
      NoSdEntry(es, key, k);
    }
    OtherFieldsKept(header, es, key);
  }

  /** What a message says, field by field; before is the message that the decoder started from. */
  ghost predicate HeaderRead(before: Msg, h: Header, parseTime: string -> Option<int>, after: Msg) {
    && after.source == (if h.host == "-" then before.source else h.host)
    && (h.time == "-" || parseTime(h.time) == None ==> after.timestamp == before.timestamp)
    && (h.time != "-" && parseTime(h.time).Some? ==> parseTime(h.time) == Some(after.timestamp))
    && SetOrKept(before.fields, after.fields, "host", h.host)
    && SetOrKept(before.fields, after.fields, "program", h.app)
    && SetOrKept(before.fields, after.fields, "procid", h.procid)
    && SetOrKept(before.fields, after.fields, "msgid", h.msgid)
    && forall key :: NoSdKey(key) && key !in {"host", "program", "procid", "msgid"} ==>
         SetOrKept(before.fields, after.fields, key, "-")
  }

  lemma HeaderIsRead(m: Msg, h: Header, es: seq<Element>, body: string, parseTime: string -> Option<int>)
    ensures var fields := HeaderFields(m.fields, h.host, h.app, h.procid, h.msgid);
            var source := if h.host == "-" then m.source else h.host;
            var read := Msg(source, Time(m.timestamp, h.time, parseTime), Update(fields, Entries(es)), body);
            HeaderRead(m, h, parseTime, read)
  {
    hide HeaderFields, Update, Entries, SetOrKept, NoSdKey;
    var fields := HeaderFields(m.fields, h.host, h.app, h.procid, h.msgid);
    NamesDiffer();
    HeaderFieldsAre(m.fields, h.host, h.app, h.procid, h.msgid);
    OthersKept(m.fields, fields, es, "host", h.host);
    OthersKept(m.fields, fields, es, "program", h.app);
    OthersKept(m.fields, fields, es, "procid", h.procid);
    OthersKept(m.fields, fields, es, "msgid", h.msgid);
    forall key | NoSdKey(key) && key !in {"host", "program", "procid", "msgid"}
      ensures SetOrKept(m.fields, Update(fields, Entries(es)), key, "-")
    {
      OthersKept(m.fields, fields, es, key, "-");
    }
  }

  /**
    * A message printed by RFC 5424, ids without dots and no parameter twice, is read back field by field: the
    * header's parts under their names, each parameter's value under sd, id and name, exactly when no quote is
    * at its ends, the text without the white space around it, and every other field as it was.
    */
  lemma MessageFields(m: Msg, h: Header, es: seq<Element>, rest: string, parseTime: string -> Option<int>)
    requires HeaderOk(h) && (rest == "" || rest[0] != '[')
    requires es != [] && forall i :: 0 <= i < |es| ==> ElementOk(es[i]) && PlainNames(es[i])
    requires DotFreeIds(es) && forall i, j :: 0 <= i < j < |Pairs(es)| ==>
               Pairs(es)[i].0 != Pairs(es)[j].0 || Pairs(es)[i].1.name != Pairs(es)[j].1.name
    ensures var read := Parse5424(m, PrintHeader(h) + (PrintAll(es) + rest), parseTime);
            && HeaderRead(m, h, parseTime, read)
            && read.body == TrimSpace(rest)
            && forall k :: 0 <= k < |Pairs(es)| ==> Stored(read.fields, Pairs(es)[k].0, Pairs(es)[k].1)
  {
    hide HeaderFields, Update, Entries, Pairs, PairKey, HeaderRead, TrimSpace, Parse5424, Stored, PrintHeader, PrintAll;
    MessageReadBack(m, h, es, rest, parseTime);
    var fields := HeaderFields(m.fields, h.host, h.app, h.procid, h.msgid);
    HeaderIsRead(m, h, es, TrimSpace(rest), parseTime);
    forall k | 0 <= k < |Pairs(es)| ensures Stored(Update(fields, Entries(es)), Pairs(es)[k].0, Pairs(es)[k].1) {
      DistinctParametersStored(fields, es, k);
      KeyOf(Pairs(es)[k]);
      StoredIs(Update(fields, Entries(es)), Pairs(es)[k].0, Pairs(es)[k].1);
    }
  }

  /** The parameter's field holds its value exactly when no double quote is at the value's ends. */
  ghost predicate Stored(fields: Fields, id: string, p: Param) {
    var key := "sd." + id + "." + p.name;
    && key in fields
    && (fields[key] == p.value <==> !("\"" <= p.value) && (p.value == "" || p.value[|p.value| - 1] != '"'))
  }

  lemma StoredIs(fields: Fields, id: string, p: Param)
    requires Key(id, p.name) in fields && (fields[Key(id, p.name)] == p.value <==> QuotesInside(p.value))
    ensures Stored(fields, id, p)
  {
  }

  lemma KeyOf(p: (string, Param))
    ensures PairKey(p) == Key(p.0, p.1.name)
  {
  }

  /** Without structured data the text follows the dash. */
  lemma NilMessageFields(m: Msg, h: Header, rest: string, parseTime: string -> Option<int>)
    requires HeaderOk(h)
    ensures var read := Parse5424(m, PrintHeader(h) + ("-" + rest), parseTime);
            && HeaderRead(m, h, parseTime, read) && read.body == TrimSpace(rest)
            && forall key :: key !in {"host", "program", "procid", "msgid"} ==>
                 SetOrKept(m.fields, read.fields, key, "-")
  {
    hide HeaderFields, HeaderRead, TrimSpace, SplitN, PrintHeader, SetOrKept;
    SplitHeader(h, "-" + rest);
    NilFollows(rest);
    TrimTwice(rest);
    HeaderIsRead(m, h, [], TrimSpace(rest), parseTime);
    HeaderFieldsAre(m.fields, h.host, h.app, h.procid, h.msgid);
    NoEntries(HeaderFields(m.fields, h.host, h.app, h.procid, h.msgid));
  }

  lemma NilFollows(rest: string)
    ensures forall fields :: ParseStructuredData(fields, "-" + rest) == (fields, TrimSpace(rest))
  {
    hide ReadElements;
    assert ("-" + rest)[1..] == rest;
  }

  lemma NoEntries(fields: Fields)
    ensures Update(fields, Entries([])) == fields
  {
  }

  // ---- what is no parameter ----

  /** Text that is no element, or an element that is never closed, is left to the message. */
  lemma LeftToMessage(fields: Fields, s: string)
    requires s == "" || (s[0] != '-' && (s[0] != '[' || Close(s, false) == None))
    ensures ParseStructuredData(fields, s) == (fields, TrimSpace(s))
  {
    hide Close, TrimSpace;
  }

  /** A token without an equals sign sets nothing; any other sets the text behind it, quotes at its ends trimmed. */
  lemma TokenSetsTrimmed(fields: Fields, id: string, name: string, value: string)
    requires '=' !in name
    ensures SetFrom(fields, id, [name]) == fields
    ensures SetFrom(fields, id, [name + "=" + value]) == fields["sd." + id + "." + name := TrimQuotes(value)]
  {
    hide TrimQuotes, IndexOf;
    var kv := name + "=" + value;
    IndexAfter(name, '=', value);
    assert kv[..|name|] == name && kv[|name| + 1..] == value;
    var bare, whole := [name], [kv];
    assert |bare[..0]| == 0 && |whole[..0]| == 0;
    assert SetFrom(fields, id, bare[..0]) == fields == SetFrom(fields, id, whole[..0]);
  }

  /** Exactly the quotes at the ends of a value go. */
  lemma {:induction false} TrimQuotesOf(a: string, v: string, b: string)
    requires (forall i :: 0 <= i < |a| ==> a[i] == '"') && (forall i :: 0 <= i < |b| ==> b[i] == '"')
    requires v != "" && v[0] != '"' && v[|v| - 1] != '"'
    ensures TrimQuotes(a + v + b) == v
    decreases |a| + |b|
  {
    hide TrimQuotes;
    var s := a + v + b;
    if a != "" {
      assert s[1..] == a[1..] + v + b && s[0] == '"';
      TrimQuotesOf(a[1..], v, b);
      TrimFirst(s);
    } else {
      assert s == v + b && s[0] == v[0];
      TrimRightQuotes(v, b);
      StaysLeft(s);
    }
  }

  lemma TrimFirst(s: string)
    requires s != "" && s[0] == '"'
    ensures TrimQuotes(s) == TrimQuotes(s[1..])
  {
  }

  lemma StaysLeft(s: string)
    requires s != "" && s[0] != '"'
    ensures TrimQuotes(s) == TrimQuotesRight(s)
  {
  }

  lemma {:induction false} TrimRightQuotes(v: string, b: string)
    requires (forall i :: 0 <= i < |b| ==> b[i] == '"') && v != "" && v[|v| - 1] != '"'
    ensures TrimQuotesRight(v + b) == v
    decreases |b|
  {
    if b == "" {
      assert v + b == v;
    } else {
      var n := |b| - 1;
      assert (v + b)[..|v + b| - 1] == v + b[..n];
      TrimRightQuotes(v, b[..n]);
    }
  }

  // ---- messages that are too short ----

  function Blanks(s: string): nat { if s == "" then 0 else (if s[0] == ' ' then 1 else 0) + Blanks(s[1..]) }

  lemma {:induction false} FieldsByBlanks(s: string, n: nat)
    requires n > 0
    ensures |SplitN(s, ' ', n)| == Min(n, Blanks(s) + 1)
    decreases n
  {
    var i := IndexOf(s, ' ');
    if i == None {
      NoBlanks(s);
    } else {
      BlanksSplit(s, i.value);
      if n > 1 {
        FieldsByBlanks(s[i.value + 1..], n - 1);
      }
    }
  }

  lemma {:induction false} NoBlanks(s: string)
    requires ' ' !in s
    ensures Blanks(s) == 0
  {
    if s != "" {
      NoBlanks(s[1..]);
    }
  }

  lemma {:induction false} BlanksSplit(s: string, i: nat)
    requires i < |s| && s[i] == ' ' && ' ' !in s[..i]
    ensures Blanks(s) == 1 + Blanks(s[i + 1..])
  {
    if i > 0 {
      assert s[..i][0] == s[0] && s[1..][..i - 1] == s[..i][1..];
      assert s[1..][i..] == s[i + 1..];
      BlanksSplit(s[1..], i - 1);
    }
  }

  /** A message with fewer than six blanks is its own text, and nothing of it is read. */
  lemma ShortIsText(m: Msg, s: string, parseTime: string -> Option<int>)
    requires Blanks(s) < 6
    ensures Parse5424(m, s, parseTime) == m.(body := s)
  {
    hide SplitN, Blanks;
    FieldsByBlanks(s, 7);
  }
}
