/**
 Reading log lines back. What a message logs under which label is stated field by field, and proved to
 be what a reader of the line's text finds there.
 */
module LogReader {
  import opened Types
  import opened Messages
  import F = LogFile

  /** The fields that a line can have. Those of records are counted from 1. `Opaque` is data of a kind
      that the log file does not show. */
  datatype Label =
    | Id | From | QType | QClass | QName | RCode | RRCount | Policy
    | RName(k: nat) | RType(k: nat) | RClass(k: nat) | RTtl(k: nat) | RData(k: nat) | Opaque(k: nat)

  /** A label as it stands on the line, and its value. */
  datatype Field = Field(name: string, value: string)

  function Text(names: Names, l: Label): string {
    match l
    case Id => "QID:"
    case From => "from:"
    case QType => "qtype:"
    case QClass => "qclass:"
    case QName => "qname:"
    case RCode => "rcode:"
    case RRCount => "rrcount:"
    case Policy => "policy:"
    case RName(k) => "rname-" + names.decimal(k) + ":"
    case RType(k) => "rtype-" + names.decimal(k) + ":"
    case RClass(k) => "rclass-" + names.decimal(k) + ":"
    case RTtl(k) => "rttl-" + names.decimal(k) + ":"
    case RData(k) => "rdata-" + names.decimal(k) + ":"
    case Opaque(_) => "rdata"
  }

  const HEAD := [Id, From, QType, QClass, QName, RCode, RRCount, Policy]

  /** The fields of one record that have a label of their own. */
  function Numbered(k: nat): seq<Label> {
    [RName(k), RType(k), RClass(k), RTtl(k), RData(k)]
  }

  /** The order of the fields on a line that ends with record n. */
  function Labels(n: nat): seq<Label> {
    if n == 0 then HEAD else Labels(n - 1) + Numbered(n) + [Opaque(n)]
  }

  /** The data as text, if it is of a kind that is shown: an address under type 1 or 28 with the
      right length, a name under type 2, 5, 6 or 15. */
  function Data(names: Names, rr: Record): Option<string> {
    if rr.rdata.None? || rr.kind.None? then None
    else
      var kind, data := rr.kind.value, rr.rdata.value;
      if kind == 1 && |data| == 4 then Some(names.ipv4(data))
      else if kind == 28 && |data| == 16 then Some(names.ipv6(data))
      else if kind in {2, 5, 6, 15} then Some(names.text(data))
      else None
  }

  function Address(names: Names, from: Option<seq<byte>>): Option<string> {
    if from.None? then None
    else if |from.value| == 4 then Some(names.ipv4(from.value))
    else if |from.value| == 16 then Some(names.ipv6(from.value))
    else None
  }

  /** What the message logs under a label; `None` if it leaves no trace. */
  function Logged(names: Names, msg: Message, l: Label): Option<string>
    requires msg.response.Some?
  {
    var q, r := msg.question, msg.response.value;
    match l
    case Id => if msg.id.Some? then Some(names.decimal(AsInt(msg.id.value))) else None
    case From => Address(names, msg.from)
    case QType => if q.Some? then Named(q.value.qtype, names.typeName) else None
    case QClass => if q.Some? then Named(q.value.qclass, names.className) else None
    case QName => if q.Some? then Some(F.Shown(q.value.qname)) else None
    case RCode => Named(r.rcode, names.rcodeName)
    case RRCount => Some(names.decimal(|r.rrs|))
    case Policy => if r.appliedPolicy.Some? && r.appliedPolicy.value != ""
                   then Some("'" + r.appliedPolicy.value + "'") else None
    case _ => if 1 <= l.k <= |r.rrs| then LoggedOf(names, r.rrs[l.k - 1], l) else None
  }

  /** What a record logs under a label of records. */
  function LoggedOf(names: Names, rr: Record, l: Label): Option<string> {
    match l
    case RName(_) => Some(F.Shown(rr.name))
    case RType(_) => Named(rr.kind, names.typeName)
    case RClass(_) => Named(rr.class_, names.className)
    case RTtl(_) => if rr.ttl.Some? then Some(names.decimal(AsInt(rr.ttl.value))) else None
    case RData(_) => Data(names, rr)
    case Opaque(_) => if rr.rdata.Some? && Data(names, rr).None? then Some("(not supported)") else None
    case _ => None
  }

  function Named(number: Option<uint32>, name: uint32 -> Option<string>): Option<string> {
    if number.Some? then Some(F.Shown(name(number.value))) else None
  }

  /** The fields that are present, in the order of the labels. */
  function Present(names: Names, msg: Message, labels: seq<Label>): seq<Field>
    requires msg.response.Some?
  {
    if labels == [] then []
    else Entry(names, msg, labels[0]) + Present(names, msg, labels[1..])
  }

  function Entry(names: Names, msg: Message, l: Label): seq<Field>
    requires msg.response.Some?
  {
    var v := Logged(names, msg, l);
    if v.Some? then [Field(Text(names, l), v.value)] else []
  }

  function Print(fields: seq<Field>): string {
    if fields == [] then "" else fields[0].name + " " + fields[0].value + " " + Print(fields[1..])
  }

  /** The number of records on the i-th line. */
  function RecordsOn(msg: Message, i: nat): nat
    requires msg.response.Some?
  {
    if msg.response.value.rrs == [] then 0 else i + 1
  }

  // ----- The line is the printed fields.

  lemma {:induction false} PresentAppend(names: Names, msg: Message, a: seq<Label>, b: seq<Label>)
    requires msg.response.Some?
    ensures Present(names, msg, a + b) == Present(names, msg, a) + Present(names, msg, b)
  {
    hide Entry;
    if a == [] {
      assert a + b == b;
    } else {
      PresentAppend(names, msg, a[1..], b);
      assert (a + b)[1..] == a[1..] + b;
    }
  }

  lemma {:induction false} PrintAppend(a: seq<Field>, b: seq<Field>)
    ensures Print(a + b) == Print(a) + Print(b)
  {
    if a == [] {
      assert a + b == b;
    } else {
      PrintAppend(a[1..], b);
      assert (a + b)[1..] == a[1..] + b;
      Associative(a[0].name + " " + a[0].value + " ", Print(a[1..]), Print(b));
    }
  }

  /** Fragment by fragment, the parts print the fields. */
  ghost predicate Prints(parts: seq<string>, fields: seq<Field>) {
    |parts| == |fields|
    && forall i :: 0 <= i < |parts| ==> parts[i] == fields[i].name + " " + fields[i].value + " "
  }

  lemma PrintsAppend(a: seq<string>, f: seq<Field>, b: seq<string>, g: seq<Field>)
    requires Prints(a, f) && Prints(b, g)
    ensures Prints(a + b, f + g)
  {
  }

  lemma {:induction false} FlattenPrints(parts: seq<string>, fields: seq<Field>)
    requires Prints(parts, fields)
    ensures Flatten(parts) == Print(fields)
  {
    if parts != [] {
      FlattenPrints(parts[1..], fields[1..]);
    }
  }

  lemma PresentOne(names: Names, msg: Message, l: Label)
    requires msg.response.Some?
    ensures Present(names, msg, [l]) == Entry(names, msg, l)
  {
    hide Entry;
    assert Present(names, msg, [l]) == Entry(names, msg, l) + Present(names, msg, []);
  }

  lemma PresentTwo(names: Names, msg: Message, a: Label, b: Label)
    requires msg.response.Some?
    ensures Present(names, msg, [a, b]) == Entry(names, msg, a) + Entry(names, msg, b)
  {
    hide Entry, Present;
    assert [a, b] == [a] + [b];
    PresentAppend(names, msg, [a], [b]);
    PresentOne(names, msg, a);
    PresentOne(names, msg, b);
  }

  lemma PresentThree(names: Names, msg: Message, a: Label, b: Label, c: Label)
    requires msg.response.Some?
    ensures Present(names, msg, [a, b, c]) == Entry(names, msg, a) + Entry(names, msg, b) + Entry(names, msg, c)
  {
    hide Entry, Present;
    assert [a, b, c] == [a, b] + [c];
    PresentAppend(names, msg, [a, b], [c]);
    PresentTwo(names, msg, a, b);
    PresentOne(names, msg, c);
  }

  /** The fragment of a field that may be absent. */
  lemma Fragment(names: Names, msg: Message, l: Label, lead: string, parts: seq<string>)
    requires msg.response.Some? && lead == Text(names, l) + " "
    requires var v := Logged(names, msg, l); parts == if v.Some? then [lead + v.value + " "] else []
    ensures Prints(parts, Entry(names, msg, l))
  {
    hide Logged, Text;
  }

  lemma PrintsThree(
      a: seq<string>, f: seq<Field>, b: seq<string>, g: seq<Field>, c: seq<string>, h: seq<Field>)
    requires Prints(a, f) && Prints(b, g) && Prints(c, h)
    ensures Prints(a + b + c, f + g + h)
  {
    hide Prints;
    PrintsAppend(a, f, b, g);
    PrintsAppend(a + b, f + g, c, h);
  }

  lemma SenderPrints(names: Names, msg: Message)
    requires msg.response.Some?
    ensures Prints(F.SenderParts(names, msg), Entry(names, msg, Id) + Entry(names, msg, From))
  {
    hide Prints, Entry;
    var id := if msg.id.Some? then ["QID: " + names.decimal(AsInt(msg.id.value)) + " "] else [];
    Fragment(names, msg, Id, "QID: ", id);
    Fragment(names, msg, From, "from: ", F.FromParts(names, msg));
    PrintsAppend(id, Entry(names, msg, Id), F.FromParts(names, msg), Entry(names, msg, From));
  }

  lemma QuestionPrints(names: Names, msg: Message)
    requires msg.response.Some? && msg.question.Some?
    ensures Prints(F.QuestionParts(names, msg.question.value),
                   Entry(names, msg, QType) + Entry(names, msg, QClass) + Entry(names, msg, QName))
  {
    hide Prints, Entry, F.Shown;
    var q := msg.question.value;
    var qtype := if q.qtype.Some? then ["qtype: " + F.Shown(names.typeName(q.qtype.value)) + " "] else [];
    var qclass := if q.qclass.Some? then ["qclass: " + F.Shown(names.className(q.qclass.value)) + " "] else [];
    var qname := ["qname: " + F.Shown(q.qname) + " "];
    Fragment(names, msg, QType, "qtype: ", qtype);
    Fragment(names, msg, QClass, "qclass: ", qclass);
    Fragment(names, msg, QName, "qname: ", qname);
    PrintsThree(qtype, Entry(names, msg, QType), qclass, Entry(names, msg, QClass), qname, Entry(names, msg, QName));
  }

  lemma ResponsePrints(names: Names, msg: Message)
    requires msg.response.Some?
    ensures Prints(F.ResponseParts(names, msg.response.value),
                   Entry(names, msg, RCode) + Entry(names, msg, RRCount) + Entry(names, msg, Policy))
  {
    hide Prints, Entry, F.Shown;
    var r := msg.response.value;
    var rcode := if r.rcode.Some? then ["rcode: " + F.Shown(names.rcodeName(r.rcode.value)) + " "] else [];
    var count := ["rrcount: " + names.decimal(|r.rrs|) + " "];
    var policy := if IsEmpty(r.appliedPolicy) then [] else ["policy: '" + r.appliedPolicy.value + "' "];
    Fragment(names, msg, RCode, "rcode: ", rcode);
    Fragment(names, msg, RRCount, "rrcount: ", count);
    PolicyPrints(names, msg, policy);
    PrintsThree(rcode, Entry(names, msg, RCode), count, Entry(names, msg, RRCount), policy, Entry(names, msg, Policy));
  }

  lemma PolicyPrints(names: Names, msg: Message, parts: seq<string>)
    requires msg.response.Some?
    requires var p := msg.response.value.appliedPolicy;
             parts == if IsEmpty(p) then [] else ["policy: '" + p.value + "' "]
    ensures Prints(parts, Entry(names, msg, Policy))
  {
    hide Prints, Entry;
    var p := msg.response.value.appliedPolicy;
    if !IsEmpty(p) {
      assert "policy: '" + p.value + "' " == "policy: " + ("'" + p.value + "'") + " ";
    }
    Fragment(names, msg, Policy, "policy: ", parts);
  }

  lemma HeadPrints(names: Names, msg: Message)
    requires msg.response.Some?
    ensures Prints(F.HeadParts(names, msg), Present(names, msg, HEAD))
  {
    hide Entry, Present, Prints, F.SenderParts, F.QuestionParts, F.ResponseParts;
    var sender, question, response := [Id, From], [QType, QClass, QName], [RCode, RRCount, Policy];
    assert HEAD == sender + question + response;
    PresentAppend(names, msg, sender + question, response);
    PresentAppend(names, msg, sender, question);
    PresentTwo(names, msg, Id, From);
    PresentThree(names, msg, QType, QClass, QName);
    PresentThree(names, msg, RCode, RRCount, Policy);
    SenderPrints(names, msg);
    ResponsePrints(names, msg);
    if msg.question.Some? {
      QuestionPrints(names, msg);
    } else {
      NoQuestion(names, msg);
    }
    var parts := if msg.question.Some? then F.QuestionParts(names, msg.question.value) else [];
    PrintsAppend(F.SenderParts(names, msg), Present(names, msg, sender), parts, Present(names, msg, question));
    PrintsAppend(F.SenderParts(names, msg) + parts, Present(names, msg, sender + question),
                 F.ResponseParts(names, msg.response.value), Present(names, msg, response));
  }

  lemma NoQuestion(names: Names, msg: Message)
    requires msg.response.Some? && msg.question.None?
    ensures Prints([], Entry(names, msg, QType) + Entry(names, msg, QClass) + Entry(names, msg, QName))
  {
  }

  /** The label of a record's field with the blank behind it. */
  lemma Lead(stem: string, tag: string)
    ensures stem + tag + ": " == (stem + tag + ":") + " "
  {
  }

  lemma KindPrints(names: Names, msg: Message, n: nat)
    requires msg.response.Some? && 1 <= n <= |msg.response.value.rrs|
    ensures Prints(F.KindParts(names, names.decimal(n), msg.response.value.rrs[n - 1]),
                   Entry(names, msg, RType(n)) + Entry(names, msg, RClass(n)))
  {
    hide Prints, Entry, F.Shown;
    var rr, tag := msg.response.value.rrs[n - 1], names.decimal(n);
    Lead("rtype-", tag);
    Lead("rclass-", tag);
    var kind := if rr.kind.Some? then ["rtype-" + tag + ": " + F.Shown(names.typeName(rr.kind.value)) + " "] else [];
    var class_ := if rr.class_.Some? then ["rclass-" + tag + ": " + F.Shown(names.className(rr.class_.value)) + " "] else [];
    Fragment(names, msg, RType(n), "rtype-" + tag + ": ", kind);
    Fragment(names, msg, RClass(n), "rclass-" + tag + ": ", class_);
    PrintsAppend(kind, Entry(names, msg, RType(n)), class_, Entry(names, msg, RClass(n)));
  }

  lemma DataPrints(names: Names, msg: Message, n: nat)
    requires msg.response.Some? && 1 <= n <= |msg.response.value.rrs|
    requires msg.response.value.rrs[n - 1].rdata.Some?
    ensures Prints([F.DataPart(names, names.decimal(n), msg.response.value.rrs[n - 1])],
                   Entry(names, msg, RData(n)) + Entry(names, msg, Opaque(n)))
  {
    hide Prints;
    var rr, tag := msg.response.value.rrs[n - 1], names.decimal(n);
    var part := F.DataPart(names, tag, rr);
    if Data(names, rr).Some? {
      Lead("rdata-", tag);
      Fragment(names, msg, RData(n), "rdata-" + tag + ": ", [part]);
      assert Entry(names, msg, RData(n)) + Entry(names, msg, Opaque(n)) == Entry(names, msg, RData(n));
    } else {
      Fragment(names, msg, Opaque(n), "rdata ", [part]) by {
        assert "rdata " + "(not supported)" + " " == "rdata (not supported) ";
      }
      assert Entry(names, msg, RData(n)) + Entry(names, msg, Opaque(n)) == Entry(names, msg, Opaque(n));
    }
  }

  lemma ContentPrints(names: Names, msg: Message, n: nat)
    requires msg.response.Some? && 1 <= n <= |msg.response.value.rrs|
    ensures Prints(F.ContentParts(names, names.decimal(n), msg.response.value.rrs[n - 1]),
                   Entry(names, msg, RTtl(n)) + (Entry(names, msg, RData(n)) + Entry(names, msg, Opaque(n))))
  {
    hide Prints, F.DataPart;
    var rr, tag := msg.response.value.rrs[n - 1], names.decimal(n);
    Lead("rttl-", tag);
    var ttl := if rr.ttl.Some? then ["rttl-" + tag + ": " + names.decimal(AsInt(rr.ttl.value)) + " "] else [];
    Fragment(names, msg, RTtl(n), "rttl-" + tag + ": ", ttl);
    var data := if rr.rdata.Some? then [F.DataPart(names, tag, rr)] else [];
    if rr.rdata.Some? {
      DataPrints(names, msg, n);
    } else {
      NoData(names, msg, n);
    }
    PrintsAppend(ttl, Entry(names, msg, RTtl(n)), data, Entry(names, msg, RData(n)) + Entry(names, msg, Opaque(n)));
  }

  lemma NoData(names: Names, msg: Message, n: nat)
    requires msg.response.Some? && 1 <= n <= |msg.response.value.rrs|
    requires msg.response.value.rrs[n - 1].rdata.None?
    ensures Prints([], Entry(names, msg, RData(n)) + Entry(names, msg, Opaque(n)))
  {
  }

  lemma RecordPrints(names: Names, msg: Message, n: nat)
    requires msg.response.Some? && 1 <= n <= |msg.response.value.rrs|
    ensures Prints(F.RecordParts(names, n, msg.response.value.rrs[n - 1]),
                   Present(names, msg, Numbered(n) + [Opaque(n)]))
  {
    hide Present, Prints, F.KindParts, F.ContentParts;
    var rr, tag := msg.response.value.rrs[n - 1], names.decimal(n);
    var kind, content := [RType(n), RClass(n)], [RTtl(n), RData(n), Opaque(n)];
    assert Numbered(n) + [Opaque(n)] == [RName(n)] + kind + content;
    PresentAppend(names, msg, [RName(n)] + kind, content);
    PresentAppend(names, msg, [RName(n)], kind);
    PresentOne(names, msg, RName(n));
    PresentTwo(names, msg, RType(n), RClass(n));
    PresentThree(names, msg, RTtl(n), RData(n), Opaque(n));
    var name := ["rname-" + tag + ": " + F.Shown(rr.name) + " "];
    Lead("rname-", tag);
    Fragment(names, msg, RName(n), "rname-" + tag + ": ", name);
    KindPrints(names, msg, n);
    ContentPrints(names, msg, n);
    assert Present(names, msg, content) ==
           Entry(names, msg, RTtl(n)) + (Entry(names, msg, RData(n)) + Entry(names, msg, Opaque(n)));
    PrintsAppend(name, Present(names, msg, [RName(n)]), F.KindParts(names, tag, rr), Present(names, msg, kind));
    PrintsAppend(name + F.KindParts(names, tag, rr), Present(names, msg, [RName(n)] + kind),
                 F.ContentParts(names, tag, rr), Present(names, msg, content));
  }

  lemma {:induction false} PartsPrint(names: Names, msg: Message, n: nat)
    requires msg.response.Some? && n <= |msg.response.value.rrs|
    ensures Prints(F.Parts(names, msg, n), Present(names, msg, Labels(n)))
  {
    hide Present, Prints, F.HeadParts, F.RecordParts;
    if n == 0 {
      HeadPrints(names, msg);
    } else {
      var m, more := n - 1, Numbered(n) + [Opaque(n)];
      PartsPrint(names, msg, m);
      RecordPrints(names, msg, n);
      assert Labels(n) == Labels(m) + more;
      PresentAppend(names, msg, Labels(m), more);
      PrintsAppend(F.Parts(names, msg, m), Present(names, msg, Labels(m)),
                   F.RecordParts(names, n, msg.response.value.rrs[m]), Present(names, msg, more));
    }
  }

  /** Line i is exactly the present fields up to its last record, in order, each with a blank behind
      its label and its value, cut off after 1023 characters. */
  lemma {:induction false} LineText(names: Names, msg: Message, i: nat)
    requires msg.response.Some? && i < |F.LinesOf(names, msg)|
    ensures var text := Print(Present(names, msg, Labels(RecordsOn(msg, i))));
            F.LinesOf(names, msg)[i] == if |text| <= 1023 then text else text[..1023]
  {
    hide Present, Labels, Print, F.Parts, Flatten, Prints;
    var n := RecordsOn(msg, i);
    PartsPrint(names, msg, n);
    FlattenPrints(F.Parts(names, msg, n), Present(names, msg, Labels(n)));
  }

  // ----- Reading a line.

  /** The position of the first blank, or the end. */
  function Blank(s: string): (i: nat)
    ensures i <= |s| && ' ' !in s[..i] && (i < |s| ==> s[i] == ' ')
  {
    if s == "" || s[0] == ' ' then 0
    else
      var i := Blank(s[1..]);
      assert s[..1 + i] == [s[0]] + s[1..][..i];
      1 + i
  }

  /** Where a value ends: at the first blank, but after "rdata" at the second. */
  function ValueEnd(name: string, rest: string): (b: nat)
    ensures b <= |rest|
  {
    var first := Blank(rest);
    if name == "rdata" && first < |rest| then first + 1 + Blank(rest[first + 1..]) else first
  }

  /** The fields of a line. */
  function Read(line: string): seq<Field>
    decreases |line|
  {
    var a := Blank(line);
    if a == |line| then []
    else
      var rest := line[a + 1..];
      var b := ValueEnd(line[..a], rest);
      if b == |rest| then [] else [Field(line[..a], rest[..b])] + Read(rest[b + 1..])
  }

  /** The field is read as it is printed. */
  predicate Legible(f: Field) {
    ' ' !in f.name && if f.name == "rdata" then f.value == "(not supported)" else ' ' !in f.value
  }

  predicate AllLegible(fields: seq<Field>) {
    forall i :: 0 <= i < |fields| ==> Legible(fields[i])
  }

  lemma {:induction false} BlankAfter(word: string, tail: string)
    requires ' ' !in word
    ensures Blank(word + " " + tail) == |word|
  {
    var s := word + " " + tail;
    if word != "" {
      BlankAfter(word[1..], tail);
      assert s[1..] == word[1..] + " " + tail && s[0] == word[0];
    }
  }

  lemma ValueEnds(f: Field, tail: string)
    requires Legible(f)
    ensures ValueEnd(f.name, f.value + " " + tail) == |f.value|
  {
    hide Blank;
    if f.name == "rdata" {
      var rest := "supported)" + " " + tail;
      assert f.value + " " + tail == "(not" + " " + rest;
      BlankAfter("(not", rest);
      assert ("(not" + " " + rest)[5..] == rest;
      BlankAfter("supported)", tail);
    } else {
      BlankAfter(f.value, tail);
    }
  }

  /** The first field of a line. */
  lemma ReadOne(f: Field, tail: string)
    requires Legible(f)
    ensures Read(f.name + " " + f.value + " " + tail) == [f] + Read(tail)
  {
    hide Blank, ValueEnd;
    var after := f.value + " " + tail;
    var line := f.name + " " + after;
    assert f.name + " " + f.value + " " + tail == line;
    BlankAfter(f.name, after);
    ValueEnds(f, tail);
    assert line[..|f.name|] == f.name && line[|f.name| + 1..] == after;
    assert after[..|f.value|] == f.value && after[|f.value| + 1..] == tail;
  }

  lemma {:induction false} ReadPrint(fields: seq<Field>)
    requires AllLegible(fields)
    ensures Read(Print(fields)) == fields
  {
    hide Legible, Read;
    if fields == [] {
      ReadNothing();
    } else {
      var f, rest := fields[0], fields[1..];
      ReadPrint(rest);
      ReadOne(f, Print(rest));
      assert Print(fields) == f.name + " " + f.value + " " + Print(rest);
      assert [f] + rest == fields;
    }
  }

  lemma ReadNothing()
    ensures Read("") == []
  {
  }

  /** Numbers are written without blanks, and different numbers differently. */
  ghost predicate Decimals(names: Names) {
    && (forall x :: ' ' !in names.decimal(x))
    && (forall x, y :: names.decimal(x) == names.decimal(y) ==> x == y)
  }

  /** No value that the message logs under the labels contains a blank. */
  ghost predicate BlankFree(names: Names, msg: Message, labels: seq<Label>)
    requires msg.response.Some?
  {
    forall i :: 0 <= i < |labels| && !labels[i].Opaque? && Logged(names, msg, labels[i]).Some? ==>
                  ' ' !in Logged(names, msg, labels[i]).value
  }

  /** The first three characters tell kinds of labels apart, but for `RData` and `Opaque`. */
  function Initials(l: Label): string {
    match l
    case Id => "QID"
    case From => "fro"
    case QType => "qty"
    case QClass => "qcl"
    case QName => "qna"
    case RCode => "rco"
    case RRCount => "rrc"
    case Policy => "pol"
    case RName(_) => "rna"
    case RType(_) => "rty"
    case RClass(_) => "rcl"
    case RTtl(_) => "rtt"
    case RData(_) => "rda"
    case Opaque(_) => "rda"
  }

  lemma TextHasInitials(names: Names, l: Label)
    ensures |Text(names, l)| >= 3 && Text(names, l)[..3] == Initials(l)
  {
  }

  /** Only opaque data is labelled "rdata", and no label has a blank. */
  lemma TextIsWord(names: Names, l: Label)
    requires Decimals(names)
    ensures ' ' !in Text(names, l) && (Text(names, l) == "rdata" <==> l.Opaque?)
  {
    TextHasInitials(names, l);
  }

  /** A number between a stem and a colon can be read off. */
  lemma SameNumber(names: Names, stem: string, j: nat, k: nat)
    requires Decimals(names) && stem + names.decimal(j) + ":" == stem + names.decimal(k) + ":"
    ensures j == k
  {
    var s, t := stem + names.decimal(j) + ":", stem + names.decimal(k) + ":";
    assert s[|stem|..|s| - 1] == names.decimal(j);
    assert t[|stem|..|t| - 1] == names.decimal(k);
  }

  lemma SameInitials(a: Label, b: Label)
    requires Initials(a) == Initials(b) && !a.Opaque? && !b.Opaque?
    ensures a.RName? == b.RName? && a.RType? == b.RType? && a.RClass? == b.RClass?
    ensures a.RTtl? == b.RTtl? && a.RData? == b.RData?
    ensures a.RName? || a.RType? || a.RClass? || a.RTtl? || a.RData? || a == b
  {
  }

  /** Different labels are written differently, but for opaque data. */
  lemma TextInjective(names: Names, a: Label, b: Label)
    requires Decimals(names) && Text(names, a) == Text(names, b) && !a.Opaque?
    ensures a == b
  {
    TextIsWord(names, a);
    TextIsWord(names, b);
    TextHasInitials(names, a);
    TextHasInitials(names, b);
    SameInitials(a, b);
    hide Decimals;
    match a
    case RName(k) => SameNumber(names, "rname-", k, b.k);
    case RType(k) => SameNumber(names, "rtype-", k, b.k);
    case RClass(k) => SameNumber(names, "rclass-", k, b.k);
    case RTtl(k) => SameNumber(names, "rttl-", k, b.k);
    case RData(k) => SameNumber(names, "rdata-", k, b.k);
    case _ =>
  }

  lemma EntryLegible(names: Names, msg: Message, l: Label)
    requires msg.response.Some? && Decimals(names) && BlankFree(names, msg, [l])
    ensures AllLegible(Entry(names, msg, l))
  {
    hide Text;
    TextIsWord(names, l);
    assert [l][0] == l;
  }

  lemma {:induction false} PresentLegible(names: Names, msg: Message, labels: seq<Label>)
    requires msg.response.Some? && Decimals(names) && BlankFree(names, msg, labels)
    ensures AllLegible(Present(names, msg, labels))
  {
    hide Entry, Legible, Logged, Decimals;
    if labels != [] {
      var l := labels[0];
      assert BlankFree(names, msg, [l]);
      EntryLegible(names, msg, l);
      PresentLegible(names, msg, labels[1..]);
    }
  }

  /** While the line fits and no value contains a blank, reading it gives back exactly the present
      fields, in order. */
  lemma {:induction false} LineReadsBack(names: Names, msg: Message, i: nat)
    requires msg.response.Some? && i < |F.LinesOf(names, msg)| && Decimals(names)
    requires var labels := Labels(RecordsOn(msg, i));
             BlankFree(names, msg, labels) && |Print(Present(names, msg, labels))| <= 1023
    ensures Read(F.LinesOf(names, msg)[i]) == Present(names, msg, Labels(RecordsOn(msg, i)))
  {
    hide Present, Labels, Print, Read, AllLegible, F.LinesOf, BlankFree, Decimals;
    var labels := Labels(RecordsOn(msg, i));
    LineText(names, msg, i);
    PresentLegible(names, msg, labels);
    ReadPrint(Present(names, msg, labels));
  }

  /** The value read under a name. */
  function Value(fields: seq<Field>, name: string): Option<string> {
    if fields == [] then None
    else if fields[0].name == name then Some(fields[0].value)
    else Value(fields[1..], name)
  }

  lemma {:induction false} ValuePresent(names: Names, msg: Message, labels: seq<Label>, l: Label)
    requires msg.response.Some? && Decimals(names) && !l.Opaque?
    ensures Value(Present(names, msg, labels), Text(names, l)) ==
            if l in labels then Logged(names, msg, l) else None
  {
    hide Text, Logged, Decimals;
    if labels != [] {
      ValuePresent(names, msg, labels[1..], l);
      var p := Present(names, msg, labels[1..]);
      if Text(names, l) == Text(names, labels[0]) {
        TextInjective(names, l, labels[0]);
      }
      if Logged(names, msg, labels[0]).Some? {
        assert Present(names, msg, labels)[1..] == p;
      } else {
        assert Present(names, msg, labels) == p;
      }
    }
  }

  /** The label belongs on a line that ends with record n. */
  predicate OnLine(l: Label, n: nat) {
    match l
    case RName(k) => 1 <= k <= n
    case RType(k) => 1 <= k <= n
    case RClass(k) => 1 <= k <= n
    case RTtl(k) => 1 <= k <= n
    case RData(k) => 1 <= k <= n
    case Opaque(k) => 1 <= k <= n
    case _ => true
  }

  lemma {:induction false} LabelsAre(n: nat, l: Label)
    ensures l in Labels(n) <==> OnLine(l, n)
  {
    if n > 0 {
      LabelsAre(n - 1, l);
    }
  }

  /** The i-th line is not cut off, and no value on it contains a blank. */
  ghost predicate Readable(names: Names, msg: Message, i: nat)
    requires msg.response.Some?
  {
    && i < |F.LinesOf(names, msg)| && Decimals(names)
    && BlankFree(names, msg, Labels(RecordsOn(msg, i)))
    && |Print(Present(names, msg, Labels(RecordsOn(msg, i))))| <= 1023
  }

  /** What is read on line i under any label is what the message logs there, and nothing for the
      records behind the i-th. */
  lemma {:induction false} FieldOnLine(names: Names, msg: Message, i: nat, l: Label)
    requires msg.response.Some? && Readable(names, msg, i) && !l.Opaque?
    ensures Value(Read(F.LinesOf(names, msg)[i]), Text(names, l)) ==
            if OnLine(l, RecordsOn(msg, i)) then Logged(names, msg, l) else None
  {
    hide Present, Labels, Print, Read, F.LinesOf, BlankFree, Decimals, Logged, Text, Value, OnLine;
    LineReadsBack(names, msg, i);
    LabelsAre(RecordsOn(msg, i), l);
    ValuePresent(names, msg, Labels(RecordsOn(msg, i)), l);
  }

  /** The fields before the records, on every line. */
  lemma {:induction false} HeadOnLine(names: Names, msg: Message, i: nat)
    requires msg.response.Some? && Readable(names, msg, i)
    ensures
      var fields, q, r := Read(F.LinesOf(names, msg)[i]), msg.question, msg.response.value;
      && Value(fields, "QID:") == (if msg.id.Some? then Some(names.decimal(AsInt(msg.id.value))) else None)
      && Value(fields, "from:") == Address(names, msg.from)
      && Value(fields, "qtype:") == (if q.Some? then Named(q.value.qtype, names.typeName) else None)
      && Value(fields, "qclass:") == (if q.Some? then Named(q.value.qclass, names.className) else None)
      && Value(fields, "qname:") == (if q.Some? then Some(F.Shown(q.value.qname)) else None)
      && Value(fields, "rcode:") == Named(r.rcode, names.rcodeName)
      && Value(fields, "rrcount:") == Some(names.decimal(|r.rrs|))
      && Value(fields, "policy:") == (if r.appliedPolicy.Some? && r.appliedPolicy.value != ""
                                      then Some("'" + r.appliedPolicy.value + "'") else None)
  {
    hide Read, Value, Readable, F.LinesOf, Address, Named, F.Shown;
    FieldOnLine(names, msg, i, Id);
    FieldOnLine(names, msg, i, From);
    FieldOnLine(names, msg, i, QType);
    FieldOnLine(names, msg, i, QClass);
    FieldOnLine(names, msg, i, QName);
    FieldOnLine(names, msg, i, RCode);
    FieldOnLine(names, msg, i, RRCount);
    FieldOnLine(names, msg, i, Policy);
  }

  /** The fields of record k, on its own line and all later ones. */
  lemma {:induction false} RecordOnLine(names: Names, msg: Message, i: nat, k: nat)
    requires msg.response.Some? && Readable(names, msg, i)
    requires 1 <= k <= RecordsOn(msg, i)
    ensures k <= |msg.response.value.rrs|
    ensures
      var fields, rr, tag := Read(F.LinesOf(names, msg)[i]), msg.response.value.rrs[k - 1], names.decimal(k);
      && Value(fields, "rname-" + tag + ":") == Some(F.Shown(rr.name))
      && Value(fields, "rtype-" + tag + ":") == Named(rr.kind, names.typeName)
      && Value(fields, "rclass-" + tag + ":") == Named(rr.class_, names.className)
      && Value(fields, "rttl-" + tag + ":")
         == (if rr.ttl.Some? then Some(names.decimal(AsInt(rr.ttl.value))) else None)
      && Value(fields, "rdata-" + tag + ":") == Data(names, rr)
  {
    hide Read, Value, Named, F.Shown, Data, Labels, Present, Print, BlankFree, Decimals;
    FieldOnLine(names, msg, i, RName(k));
    FieldOnLine(names, msg, i, RType(k));
    FieldOnLine(names, msg, i, RClass(k));
    FieldOnLine(names, msg, i, RTtl(k));
    FieldOnLine(names, msg, i, RData(k));
  }

  // ----- Lines tell messages apart.

  ghost predicate SameLogged(names: Names, a: Message, b: Message, labels: seq<Label>)
    requires a.response.Some? && b.response.Some?
  {
    forall i :: 0 <= i < |labels| ==> Logged(names, a, labels[i]) == Logged(names, b, labels[i])
  }

  lemma {:induction false} PresentSame(names: Names, a: Message, b: Message, labels: seq<Label>)
    requires a.response.Some? && b.response.Some? && SameLogged(names, a, b, labels)
    ensures Present(names, a, labels) == Present(names, b, labels)
  {
    hide Logged, Text;
    if labels != [] {
      PresentSame(names, a, b, labels[1..]);
    }
  }

  /** The fields that a record always or sometimes has under its number: at least its name, and none
      that reads like opaque data. */
  lemma NumberedNames(names: Names, msg: Message, n: nat)
    requires msg.response.Some? && 1 <= n <= |msg.response.value.rrs| && Decimals(names)
    ensures var p := Present(names, msg, Numbered(n)); p != [] && Value(p, "rdata").None?
  {
    hide Decimals, Text;
    assert Numbered(n)[0] == RName(n);
    NoneOpaque(names, msg, Numbered(n));
  }

  lemma {:induction false} NoneOpaque(names: Names, msg: Message, labels: seq<Label>)
    requires msg.response.Some? && Decimals(names)
    requires forall i :: 0 <= i < |labels| ==> !labels[i].Opaque?
    ensures Value(Present(names, msg, labels), "rdata").None?
  {
    hide Decimals, Text, Logged;
    if labels != [] {
      NoneOpaque(names, msg, labels[1..]);
      TextIsWord(names, labels[0]);
      var p := Present(names, msg, labels[1..]);
      if Logged(names, msg, labels[0]).Some? {
        assert Present(names, msg, labels)[1..] == p;
      } else {
        assert Present(names, msg, labels) == p;
      }
    }
  }

  lemma {:induction false} ValueNone(fields: seq<Field>, name: string, i: nat)
    requires Value(fields, name).None? && i < |fields|
    ensures fields[i].name != name
  {
    if i > 0 {
      ValueNone(fields[1..], name, i - 1);
    }
  }

  /** Two lists that end alike, but for an opaque field that one of them may have at its end. */
  lemma SameEnds(p: seq<Field>, q: seq<Field>, x: seq<Field>, u: seq<Field>, v: seq<Field>, f: Field)
    requires p + x + u == q + x + v
    requires x != [] && x[|x| - 1].name != f.name
    requires (u == [] || u == [f]) && (v == [] || v == [f])
    ensures u == v && p == q
  {
    var s, t := p + x + u, q + x + v;
    assert u == [] ==> s[|s| - 1] == x[|x| - 1];
    assert v == [] ==> t[|t| - 1] == x[|x| - 1];
    assert u == [f] ==> s[|s| - 1] == f;
    assert v == [f] ==> t[|t| - 1] == f;
    assert u == v;
    assert p == s[..|p|] && q == t[..|q|];
  }

  /** Only the order tells which record opaque data belongs to, and it does. */
  lemma {:induction false} SamePresent(names: Names, a: Message, b: Message, n: nat)
    requires a.response.Some? && b.response.Some? && Decimals(names)
    requires n <= |a.response.value.rrs| && n <= |b.response.value.rrs|
    requires Present(names, a, Labels(n)) == Present(names, b, Labels(n))
    ensures SameLogged(names, a, b, Labels(n))
  {
    hide Decimals, Logged, Present, Text, Entry;
    if n == 0 {
      SameNumbered(names, a, b, 0, HEAD);
    } else {
      var m := n - 1;
      SameNumbered(names, a, b, n, Numbered(n));
      PresentSame(names, a, b, Numbered(n));
      var x := Present(names, a, Numbered(n));
      Split(names, a, n);
      Split(names, b, n);
      NumberedNames(names, a, n);
      ValueNone(x, "rdata", |x| - 1);
      OpaqueEntry(names, a, n);
      OpaqueEntry(names, b, n);
      SameEnds(Present(names, a, Labels(m)), Present(names, b, Labels(m)), x,
               Entry(names, a, Opaque(n)), Entry(names, b, Opaque(n)), Field("rdata", "(not supported)"));
      SamePresent(names, a, b, m);
    }
  }

  lemma Split(names: Names, msg: Message, n: nat)
    requires msg.response.Some? && n > 0
    ensures var m := n - 1;
            Present(names, msg, Labels(n)) ==
            Present(names, msg, Labels(m)) + Present(names, msg, Numbered(n)) + Entry(names, msg, Opaque(n))
  {
    hide Present, Entry;
    var m := n - 1;
    PresentAppend(names, msg, Labels(m) + Numbered(n), [Opaque(n)]);
    PresentAppend(names, msg, Labels(m), Numbered(n));
    PresentOne(names, msg, Opaque(n));
  }

  lemma OpaqueEntry(names: Names, msg: Message, n: nat)
    requires msg.response.Some?
    ensures var e, v := Entry(names, msg, Opaque(n)), Logged(names, msg, Opaque(n));
            || (e == [] && v.None?)
            || (e == [Field("rdata", "(not supported)")] && v == Some("(not supported)"))
  {
  }

  lemma SameNumbered(names: Names, a: Message, b: Message, n: nat, labels: seq<Label>)
    requires a.response.Some? && b.response.Some? && Decimals(names)
    requires Present(names, a, Labels(n)) == Present(names, b, Labels(n))
    requires forall i :: 0 <= i < |labels| ==> !labels[i].Opaque? && OnLine(labels[i], n)
    ensures SameLogged(names, a, b, labels)
  {
    hide Decimals, Logged, Present, Text, Labels, OnLine, Value;
    forall i | 0 <= i < |labels|
      ensures Logged(names, a, labels[i]) == Logged(names, b, labels[i])
    {
      LabelsAre(n, labels[i]);
      ValuePresent(names, a, Labels(n), labels[i]);
      ValuePresent(names, b, Labels(n), labels[i]);
    }
  }

  /** Two messages have the same i-th line exactly when they log the same under every label of it. */
  lemma {:induction false} SameLineExactly(names: Names, a: Message, b: Message, i: nat)
    requires a.response.Some? && b.response.Some? && Readable(names, a, i) && Readable(names, b, i)
    ensures F.LinesOf(names, a)[i] == F.LinesOf(names, b)[i] <==>
            forall l :: OnLine(l, RecordsOn(a, i)) ==> Logged(names, a, l) == Logged(names, b, l)
  {
    hide Logged, Present, Text, Labels, OnLine, Value, Read, BlankFree, Print, Decimals;
    var x, y := F.LinesOf(names, a)[i], F.LinesOf(names, b)[i];
    var n := RecordsOn(a, i);
    if x == y {
      HeadOnLine(names, a, i);
      HeadOnLine(names, b, i);
      SameCount(names, a, b);
      LineReadsBack(names, a, i);
      LineReadsBack(names, b, i);
      SamePresent(names, a, b, n);
      forall l | OnLine(l, n)
        ensures Logged(names, a, l) == Logged(names, b, l)
      {
        LabelsAre(n, l);
      }
    }
    if forall l :: OnLine(l, n) ==> Logged(names, a, l) == Logged(names, b, l) {
      CountIsLogged(names, a, b, n);
      forall j | 0 <= j < |Labels(n)|
        ensures Logged(names, a, Labels(n)[j]) == Logged(names, b, Labels(n)[j])
      {
        LabelsAre(n, Labels(n)[j]);
      }
      PresentSame(names, a, b, Labels(n));
      LineText(names, a, i);
      LineText(names, b, i);
    }
  }

  lemma SameCount(names: Names, a: Message, b: Message)
    requires a.response.Some? && b.response.Some? && Decimals(names)
    requires names.decimal(|a.response.value.rrs|) == names.decimal(|b.response.value.rrs|)
    ensures |a.response.value.rrs| == |b.response.value.rrs|
  {
  }

  lemma CountIsLogged(names: Names, a: Message, b: Message, n: nat)
    requires a.response.Some? && b.response.Some? && Decimals(names)
    requires forall l :: OnLine(l, n) ==> Logged(names, a, l) == Logged(names, b, l)
    ensures |a.response.value.rrs| == |b.response.value.rrs|
  {
    assert OnLine(RRCount, n);
    assert Logged(names, a, RRCount) == Logged(names, b, RRCount);
  }
}
