/**
 `logsqlite_log`: one row per resource record, with columns that carry over from earlier records.
 */
module LogRows {
  import opened Types
  import opened Messages

  datatype Row = Row(
    ts: int, querier: string, id: int, qtype: string, qclass: string, qname: string,
    rcode: string, rcount: int, rname: string, rtype: string, rclass: string, rttl: int,
    rdata: string, policy: string)

  /** The last record up to the i-th that has the field. */
  function Latest(rrs: seq<Record>, i: nat, has: Record -> bool): (j: Option<nat>)
    requires i <= |rrs|
    ensures j.Some? ==> j.value < i && has(rrs[j.value])
                        && forall k :: j.value < k < i ==> !has(rrs[k])
    ensures j.None? ==> forall k :: 0 <= k < i ==> !has(rrs[k])
  {
    if i == 0 then None else if has(rrs[i - 1]) then Some(i - 1) else Latest(rrs, i - 1, has)
  }

  const HAS_TYPE := (rr: Record) => rr.kind.Some?
  const HAS_CLASS := (rr: Record) => rr.class_.Some?
  const HAS_TTL := (rr: Record) => rr.ttl.Some?
  const HAS_RDATA := (rr: Record) => rr.rdata.Some?

  /** A record's data as text, judged by that record's own type. */
  function DataText(names: Names, rr: Record): string
    requires rr.rdata.Some?
  {
    match KindOfData(rr)
    case Address4 => names.ipv4(rr.rdata.value)
    case Address6 => names.ipv6(rr.rdata.value)
    case PlainText => names.text(rr.rdata.value)
    case Unsupported => "[Not Supported]"
  }

  /** The columns that the record loop does not touch. */
  function BaseRow(names: Names, msg: Message): Row
    requires msg.response.Some?
  {
    var r := msg.response.value;
    var q := msg.question;
    Row(
      if msg.timeSec.Some? then AsInt(msg.timeSec.value) else 0,
      QuerierText(names, msg),
      if msg.id.Some? then AsInt(msg.id.value) else 0,
      if q.Some? && q.value.qtype.Some? then OrEmpty(names.typeName(q.value.qtype.value)) else "",
      if q.Some? && q.value.qclass.Some? then OrEmpty(names.className(q.value.qclass.value)) else "",
      if q.Some? then OrEmpty(q.value.qname) else "",
      if r.rcode.Some? then OrEmpty(names.rcodeName(r.rcode.value)) else "",
      |r.rrs|, "", "", "", 0, "",
      OrEmpty(r.appliedPolicy))
  }

  function QuerierText(names: Names, msg: Message): string {
    if msg.from.None? then ""
    else if |msg.from.value| == 4 then names.ipv4(msg.from.value)
    else if |msg.from.value| == 16 then names.ipv6(msg.from.value)
    else ""
  }

  function QType(msg: Message): Option<uint32> {
    if msg.question.Some? then msg.question.value.qtype else None
  }

  function QClass(msg: Message): Option<uint32> {
    if msg.question.Some? then msg.question.value.qclass else None
  }

  function QName(msg: Message): Option<string> {
    if msg.question.Some? then msg.question.value.qname else None
  }

  /** Each of these columns depends on its own field and on nothing else in the message: messages that
      agree on the field agree on the column. */
  lemma ColumnsDoNotMix(names: Names, a: Message, b: Message)
    requires a.response.Some? && b.response.Some?
    ensures var r, s := BaseRow(names, a), BaseRow(names, b);
            && (a.timeSec == b.timeSec ==> r.ts == s.ts)
            && (a.from == b.from ==> r.querier == s.querier)
            && (a.id == b.id ==> r.id == s.id)
            && (QType(a) == QType(b) ==> r.qtype == s.qtype)
            && (QClass(a) == QClass(b) ==> r.qclass == s.qclass)
            && (QName(a) == QName(b) ==> r.qname == s.qname)
            && (a.response.value.rcode == b.response.value.rcode ==> r.rcode == s.rcode)
            && (|a.response.value.rrs| == |b.response.value.rrs| ==> r.rcount == s.rcount)
            && (a.response.value.appliedPolicy == b.response.value.appliedPolicy ==> r.policy == s.policy)
  {
  }

  /** The columns that carry over from record to record. */
  datatype Columns = Columns(rtype: Option<string>, rclass: Option<string>, rttl: int, rdata: string)

  /** After t records, each column is that of the latest record that has the field. */
  function ColumnsAt(names: Names, rrs: seq<Record>, t: nat): Columns
    requires t <= |rrs|
  {
    var kind, class_ := Latest(rrs, t, HAS_TYPE), Latest(rrs, t, HAS_CLASS);
    var ttl, data := Latest(rrs, t, HAS_TTL), Latest(rrs, t, HAS_RDATA);
    Columns(
      if kind.Some? then names.typeName(rrs[kind.value].kind.value) else None,
      if class_.Some? then names.className(rrs[class_.value].class_.value) else None,
      if ttl.Some? then AsInt(rrs[ttl.value].ttl.value) else 0,
      if data.Some? then DataText(names, rrs[data.value]) else "")
  }

  lemma ColumnsNext(names: Names, rrs: seq<Record>, t: nat)
    requires t < |rrs|
    ensures var c, c', rr := ColumnsAt(names, rrs, t), ColumnsAt(names, rrs, t + 1), rrs[t];
            && c'.rtype == (if rr.kind.Some? then names.typeName(rr.kind.value) else c.rtype)
            && c'.rclass == (if rr.class_.Some? then names.className(rr.class_.value) else c.rclass)
            && c'.rttl == (if rr.ttl.Some? then AsInt(rr.ttl.value) else c.rttl)
            && c'.rdata == (if rr.rdata.Some? then DataText(names, rr) else c.rdata)
  {
  }

  /** `prepare_sql` in the record loop. */
  function Fill(base: Row, name: Option<string>, c: Columns): Row {
    base.(rname := OrEmpty(name), rtype := OrEmpty(c.rtype), rclass := OrEmpty(c.rclass),
          rttl := c.rttl, rdata := c.rdata)
  }

  /** The row for the i-th record: its own name, and type, class, ttl and data each from the latest
      record up to it that has the field. */
  function RowAt(names: Names, msg: Message, i: nat): Row
    requires msg.response.Some? && i < |msg.response.value.rrs|
  {
    var rrs := msg.response.value.rrs;
    Fill(BaseRow(names, msg), rrs[i].name, ColumnsAt(names, rrs, i + 1))
  }

  function RowsOf(names: Names, msg: Message): (rows: seq<Row>)
    requires msg.response.Some?
    ensures var n := |msg.response.value.rrs|; |rows| == if n == 0 then 1 else n
  {
    var n := |msg.response.value.rrs|;
    if n == 0 then [BaseRow(names, msg)]
    else seq(n, i requires 0 <= i < n => RowAt(names, msg, i))
  }

  /** Where the `rdata` pointer points: nowhere, at one of the two address buffers, or at other
      text. */
  datatype Ref = Null | Ip4 | Ip6 | Other(text: string)

  function Deref(ref: Ref, ip4: string, ip6: string): string {
    match ref
    case Null => ""
    case Ip4 => ip4
    case Ip6 => ip6
    case Other(text) => text
  }

  /** `logsqlite_log`: the rows that are pushed, in order. The two address buffers are written again
      and again, but `rdata` always leads to the text of the latest data. */
  method LogRow(settings: Settings, names: Names, msg: Option<Message>) returns (rows: seq<Row>)
    ensures rows == if msg.Some? && Accepted(settings, msg.value) then RowsOf(names, msg.value) else []
  {
    rows := [];
    if settings.disabled || msg.None? || msg.value.response.None? {
      return;
    }
    var m, r := msg.value, msg.value.response.value;
    if settings.rewritesOnly && IsEmpty(r.appliedPolicy) {
      return;
    }
    var row := PrepareRow(names, m);
    if |r.rrs| == 0 {
      return [row];
    }
    rows := LogRecords(names, m, row);
  }

  /** The assignments before the record loop. */
  method PrepareRow(names: Names, msg: Message) returns (row: Row)
    requires msg.response.Some?
    ensures row == BaseRow(names, msg)
  {
    var ts, from, msgid := 0, "", 0;
    var qtype: Option<string>, qclass: Option<string>, qname: Option<string> := None, None, None;
    var rcode: Option<string>, policy: Option<string> := None, None;
    if msg.timeSec.Some? {
      ts := AsInt(msg.timeSec.value);
    }
    if msg.from.Some? {
      if |msg.from.value| == 4 {
        from := names.ipv4(msg.from.value);
      } else if |msg.from.value| == 16 {
        from := names.ipv6(msg.from.value);
      }
    }
    if msg.id.Some? {
      msgid := AsInt(msg.id.value);
    }
    if msg.question.Some? {
      var q := msg.question.value;
      if q.qtype.Some? {
        qtype := names.typeName(q.qtype.value);
      }
      if q.qclass.Some? {
        qclass := names.className(q.qclass.value);
      }
      qname := q.qname;
    }
    var r := msg.response.value;
    if r.rcode.Some? {
      rcode := names.rcodeName(r.rcode.value);
    }
    if !IsEmpty(r.appliedPolicy) {
      policy := r.appliedPolicy;
    }
    row := Row(ts, from, msgid, OrEmpty(qtype), OrEmpty(qclass), OrEmpty(qname), OrEmpty(rcode), |r.rrs|,
               "", "", "", 0, "", OrEmpty(policy));
  }

  /** The record loop. */
  method LogRecords(names: Names, msg: Message, row: Row) returns (rows: seq<Row>)
    requires msg.response.Some? && msg.response.value.rrs != [] && row == BaseRow(names, msg)
    ensures rows == RowsOf(names, msg)
  {
    hide BaseRow, DataText, ColumnsAt;
    var rrs := msg.response.value.rrs;
    var rtype: Option<string>, rclass: Option<string>, rttl := None, None, 0;
    var rdata, ip4, ip6 := Null, "", "";
    rows := [];
    NoColumns(names, rrs);
    for t := 0 to |rrs|
      invariant rows == RowsOf(names, msg)[..t]
      invariant ColumnsAt(names, rrs, t) == Columns(rtype, rclass, rttl, Deref(rdata, ip4, ip6))
    {
      ColumnsNext(names, rrs, t);
      var rr := rrs[t];
      if rr.kind.Some? {
        rtype := names.typeName(rr.kind.value);
      }
      if rr.class_.Some? {
        rclass := names.className(rr.class_.value);
      }
      if rr.ttl.Some? {
        rttl := AsInt(rr.ttl.value);
      }
      rdata, ip4, ip6 := PointToData(names, rr, rdata, ip4, ip6);
      rows := rows + [Fill(row, rr.name, Columns(rtype, rclass, rttl, Deref(rdata, ip4, ip6)))];
    }
  }

  lemma NoColumns(names: Names, rrs: seq<Record>)
    ensures ColumnsAt(names, rrs, 0) == Columns(None, None, 0, "")
  {
  }

  /** The `has_rdata` branch: the pointer and the two buffers after a record. */
  method PointToData(names: Names, rr: Record, rdata: Ref, ip4: string, ip6: string)
    returns (rdata': Ref, ip4': string, ip6': string)
    ensures Deref(rdata', ip4', ip6') ==
            if rr.rdata.Some? then DataText(names, rr) else Deref(rdata, ip4, ip6)
  {
    rdata', ip4', ip6' := rdata, ip4, ip6;
    if rr.rdata.Some? {
      var data := rr.rdata.value;
      if rr.kind.Some? && rr.kind.value == 1 && |data| == 4 {
        ip4' := names.ipv4(data);
        rdata' := Ip4;
      } else if rr.kind.Some? && rr.kind.value == 28 && |data| == 16 {
        ip6' := names.ipv6(data);
        rdata' := Ip6;
      } else if rr.kind.Some? && rr.kind.value in {2, 5, 6, 15} {
        rdata' := Other(names.text(data));
      } else {
        rdata' := Other("[Not Supported]");
      }
    }
  }

  /** Row i depends on no record after the i-th. */
  lemma {:induction false} LaterRecordsDoNotMatter(names: Names, msg: Message, other: Message, i: nat)
    requires msg.response.Some? && other.response.Some?
    requires i < |msg.response.value.rrs| && i < |other.response.value.rrs|
    requires msg.response.value.rrs[..i + 1] == other.response.value.rrs[..i + 1]
    ensures var a, b := RowAt(names, msg, i), RowAt(names, other, i);
            a.rname == b.rname && a.rtype == b.rtype && a.rclass == b.rclass
            && a.rttl == b.rttl && a.rdata == b.rdata
  {
    hide ColumnsAt, BaseRow;
    var s, t := msg.response.value.rrs, other.response.value.rrs;
    assert forall k :: 0 <= k <= i ==> s[k] == s[..i + 1][k] == t[..i + 1][k] == t[k];
    SameColumns(names, s, t, i + 1);
  }

  lemma SameColumns(names: Names, s: seq<Record>, t: seq<Record>, i: nat)
    requires i <= |s| && i <= |t| && forall k :: 0 <= k < i ==> s[k] == t[k]
    ensures ColumnsAt(names, s, i) == ColumnsAt(names, t, i)
  {
    SameLatest(s, t, i, HAS_TYPE);
    SameLatest(s, t, i, HAS_CLASS);
    SameLatest(s, t, i, HAS_TTL);
    SameLatest(s, t, i, HAS_RDATA);
  }

  lemma {:induction false} SameLatest(s: seq<Record>, t: seq<Record>, i: nat, has: Record -> bool)
    requires i <= |s| && i <= |t| && forall k :: 0 <= k < i ==> s[k] == t[k]
    ensures Latest(s, i, has) == Latest(t, i, has)
  {
    if i > 0 {
      SameLatest(s, t, i - 1, has);
    }
  }

  lemma LatestIs(rrs: seq<Record>, i: nat, j: nat, has: Record -> bool)
    requires j <= i < |rrs| && has(rrs[j]) && forall k :: j < k <= i ==> !has(rrs[k])
    ensures Latest(rrs, i + 1, has) == Some(j)
  {
    var l := Latest(rrs, i + 1, has);
    assert l.Some? ==> l.value <= j && l.value >= j;
  }

  lemma LatestIsNone(rrs: seq<Record>, i: nat, has: Record -> bool)
    requires i < |rrs| && forall k :: 0 <= k <= i ==> !has(rrs[k])
    ensures Latest(rrs, i + 1, has) == None
  {
  }

  /** The row for record i has that record's name. */
  lemma {:induction false} NameColumn(names: Names, msg: Message, i: nat)
    requires msg.response.Some? && i < |msg.response.value.rrs|
    ensures var name := msg.response.value.rrs[i].name;
            RowsOf(names, msg)[i].rname == if name.Some? then name.value else ""
  {
    hide BaseRow, ColumnsAt;
  }

  /** Where record j is the last up to record i with a type, the type column of row i is the name of that
      type, or empty if it has none. */
  lemma {:induction false} TypeColumn(names: Names, msg: Message, i: nat, j: nat)
    requires msg.response.Some? && j <= i < |msg.response.value.rrs|
    requires msg.response.value.rrs[j].kind.Some?
    requires forall k :: j < k <= i ==> msg.response.value.rrs[k].kind.None?
    ensures var name := names.typeName(msg.response.value.rrs[j].kind.value);
            RowsOf(names, msg)[i].rtype == if name.Some? then name.value else ""
  {
    hide BaseRow, Latest;
    LatestIs(msg.response.value.rrs, i, j, HAS_TYPE);
  }

  /** The class column likewise. */
  lemma {:induction false} ClassColumn(names: Names, msg: Message, i: nat, j: nat)
    requires msg.response.Some? && j <= i < |msg.response.value.rrs|
    requires msg.response.value.rrs[j].class_.Some?
    requires forall k :: j < k <= i ==> msg.response.value.rrs[k].class_.None?
    ensures var name := names.className(msg.response.value.rrs[j].class_.value);
            RowsOf(names, msg)[i].rclass == if name.Some? then name.value else ""
  {
    hide BaseRow, Latest;
    LatestIs(msg.response.value.rrs, i, j, HAS_CLASS);
  }

  /** The ttl column is that of the last record with one, as a signed number. */
  lemma {:induction false} TtlColumn(names: Names, msg: Message, i: nat, j: nat)
    requires msg.response.Some? && j <= i < |msg.response.value.rrs|
    requires msg.response.value.rrs[j].ttl.Some?
    requires forall k :: j < k <= i ==> msg.response.value.rrs[k].ttl.None?
    ensures RowsOf(names, msg)[i].rttl == AsInt(msg.response.value.rrs[j].ttl.value)
  {
    hide BaseRow, Latest;
    LatestIs(msg.response.value.rrs, i, j, HAS_TTL);
  }

  /** The data column is that of the last record with data, shown by that record's own type and length:
      an A or AAAA address, the text of an NS, CNAME, SOA or MX record, or a note. */
  lemma {:induction false} DataColumn(names: Names, msg: Message, i: nat, j: nat)
    requires msg.response.Some? && j <= i < |msg.response.value.rrs|
    requires msg.response.value.rrs[j].rdata.Some?
    requires forall k :: j < k <= i ==> msg.response.value.rrs[k].rdata.None?
    ensures var kind, data := msg.response.value.rrs[j].kind, msg.response.value.rrs[j].rdata.value;
            RowsOf(names, msg)[i].rdata ==
            if kind == Some(1) && |data| == 4 then names.ipv4(data)
            else if kind == Some(28) && |data| == 16 then names.ipv6(data)
            else if kind.Some? && kind.value in {2, 5, 6, 15} then names.text(data)
            else "[Not Supported]"
  {
    hide BaseRow, Latest;
    LatestIs(msg.response.value.rrs, i, j, HAS_RDATA);
  }

  /** A column is empty, or 0, as long as no record has had its field. */
  lemma {:induction false} AbsentColumns(names: Names, msg: Message, i: nat)
    requires msg.response.Some? && i < |msg.response.value.rrs|
    ensures var rrs, row := msg.response.value.rrs, RowsOf(names, msg)[i];
            && ((forall k :: 0 <= k <= i ==> rrs[k].kind.None?) ==> row.rtype == "")
            && ((forall k :: 0 <= k <= i ==> rrs[k].class_.None?) ==> row.rclass == "")
            && ((forall k :: 0 <= k <= i ==> rrs[k].ttl.None?) ==> row.rttl == 0)
            && ((forall k :: 0 <= k <= i ==> rrs[k].rdata.None?) ==> row.rdata == "")
  {
    hide BaseRow, Latest;
    var rrs := msg.response.value.rrs;
    if forall k :: 0 <= k <= i ==> rrs[k].kind.None? {
      LatestIsNone(rrs, i, HAS_TYPE);
    }
    if forall k :: 0 <= k <= i ==> rrs[k].class_.None? {
      LatestIsNone(rrs, i, HAS_CLASS);
    }
    if forall k :: 0 <= k <= i ==> rrs[k].ttl.None? {
      LatestIsNone(rrs, i, HAS_TTL);
    }
    if forall k :: 0 <= k <= i ==> rrs[k].rdata.None? {
      LatestIsNone(rrs, i, HAS_RDATA);
    }
  }

  /** Of a message without records there is one row, with nothing in those columns. */
  lemma NoRecordColumns(names: Names, msg: Message)
    requires msg.response.Some? && msg.response.value.rrs == []
    ensures var row := RowsOf(names, msg)[0];
            row.rname == "" && row.rtype == "" && row.rclass == "" && row.rttl == 0 && row.rdata == ""
  {
  }

  /** A column for a name that may be absent, or unknown to its table. */
  predicate NameOf(column: string, number: Option<uint32>, name: uint32 -> Option<string>) {
    column == if number.Some? && name(number.value).Some? then name(number.value).value else ""
  }

  /** The columns of every row that come from the rest of the message, each from its own field. */
  lemma {:induction false} HeadColumns(names: Names, msg: Message, i: nat)
    requires msg.response.Some? && i < |RowsOf(names, msg)|
    ensures var r, row := msg.response.value, RowsOf(names, msg)[i];
            && row.ts == (if msg.timeSec.Some? then AsInt(msg.timeSec.value) else 0)
            && row.id == (if msg.id.Some? then AsInt(msg.id.value) else 0)
            && (msg.from.None? ==> row.querier == "")
            && (msg.from.Some? ==>
                  row.querier ==
                  if |msg.from.value| == 4 then names.ipv4(msg.from.value)
                  else if |msg.from.value| == 16 then names.ipv6(msg.from.value) else "")
            && (msg.question.None? ==> row.qtype == "" && row.qclass == "" && row.qname == "")
            && (msg.question.Some? ==>
                  var q := msg.question.value;
                  && NameOf(row.qtype, q.qtype, names.typeName)
                  && NameOf(row.qclass, q.qclass, names.className)
                  && row.qname == if q.qname.Some? then q.qname.value else "")
            && NameOf(row.rcode, r.rcode, names.rcodeName)
            && row.rcount == |r.rrs|
            && row.policy == (if r.appliedPolicy.Some? then r.appliedPolicy.value else "")
  {
    RecordsKeepHead(names, msg, i);
    hide RowsOf;
  }

  /** The record loop leaves the columns set before it alone. */
  lemma RecordsKeepHead(names: Names, msg: Message, i: nat)
    requires msg.response.Some? && i < |RowsOf(names, msg)|
    ensures var row, base := RowsOf(names, msg)[i], BaseRow(names, msg);
            row == base.(rname := row.rname, rtype := row.rtype, rclass := row.rclass,
                         rttl := row.rttl, rdata := row.rdata)
  {
    hide ColumnsAt, BaseRow;
  }
}
