/**
 `logfile_log`: a line that grows fragment by fragment in a fixed buffer, under a byte budget, and is
 written out after every resource record.
 */
module LogFile {
  import opened Types
  import opened CStrings
  import opened Messages

  const LINE_SIZE := 1024
  const BUDGET := 1023

  /** `%s` of a pointer that may be null. */
  function Shown(s: Option<string>): string {
    if s.Some? then s.value else "(null)"
  }

  function FromParts(names: Names, msg: Message): seq<string> {
    if msg.from.None? then []
    else if |msg.from.value| == 4 then ["from: " + names.ipv4(msg.from.value) + " "]
    else if |msg.from.value| == 16 then ["from: " + names.ipv6(msg.from.value) + " "]
    else []
  }

  function QuestionParts(names: Names, q: Question): seq<string> {
    (if q.qtype.Some? then ["qtype: " + Shown(names.typeName(q.qtype.value)) + " "] else [])
    + (if q.qclass.Some? then ["qclass: " + Shown(names.className(q.qclass.value)) + " "] else [])
    + ["qname: " + Shown(q.qname) + " "]
  }

  function ResponseParts(names: Names, r: Response): seq<string> {
    (if r.rcode.Some? then ["rcode: " + Shown(names.rcodeName(r.rcode.value)) + " "] else [])
    + ["rrcount: " + names.decimal(|r.rrs|) + " "]
    + (if IsEmpty(r.appliedPolicy) then [] else ["policy: '" + r.appliedPolicy.value + "' "])
  }

  function SenderParts(names: Names, msg: Message): seq<string> {
    (if msg.id.Some? then ["QID: " + names.decimal(AsInt(msg.id.value)) + " "] else [])
    + FromParts(names, msg)
  }

  /** The fragments before the first record. */
  function HeadParts(names: Names, msg: Message): seq<string>
    requires msg.response.Some?
  {
    SenderParts(names, msg)
    + (if msg.question.Some? then QuestionParts(names, msg.question.value) else [])
    + ResponseParts(names, msg.response.value)
  }

  function DataPart(names: Names, tag: string, rr: Record): string
    requires rr.rdata.Some?
  {
    match KindOfData(rr)
    case Address4 => "rdata-" + tag + ": " + names.ipv4(rr.rdata.value) + " "
    case Address6 => "rdata-" + tag + ": " + names.ipv6(rr.rdata.value) + " "
    case PlainText => "rdata-" + tag + ": " + names.text(rr.rdata.value) + " "
    case Unsupported => "rdata (not supported) "
  }

  function KindParts(names: Names, tag: string, rr: Record): seq<string> {
    (if rr.kind.Some? then ["rtype-" + tag + ": " + Shown(names.typeName(rr.kind.value)) + " "] else [])
    + (if rr.class_.Some? then ["rclass-" + tag + ": " + Shown(names.className(rr.class_.value)) + " "] else [])
  }

  function ContentParts(names: Names, tag: string, rr: Record): seq<string> {
    (if rr.ttl.Some? then ["rttl-" + tag + ": " + names.decimal(AsInt(rr.ttl.value)) + " "] else [])
    + (if rr.rdata.Some? then [DataPart(names, tag, rr)] else [])
  }

  /** The fragments of the t-th record, counted from 1. */
  function RecordParts(names: Names, t: nat, rr: Record): seq<string> {
    var tag := names.decimal(t);
    ["rname-" + tag + ": " + Shown(rr.name) + " "]
    + KindParts(names, tag, rr)
    + ContentParts(names, tag, rr)
  }

  /** All fragments of the message up to and including its first n records. */
  function Parts(names: Names, msg: Message, n: nat): seq<string>
    requires msg.response.Some? && n <= |msg.response.value.rrs|
    decreases n
  {
    if n == 0 then HeadParts(names, msg)
    else Parts(names, msg, n - 1) + RecordParts(names, n, msg.response.value.rrs[n - 1])
  }

  /** The text that fits the buffer. */
  function Clip(s: string): string {
    if |s| <= BUDGET then s else s[..BUDGET]
  }

  /** The lines of a message: one per record, or a single one. */
  function LinesOf(names: Names, msg: Message): (lines: seq<string>)
    requires msg.response.Some?
    ensures var n := |msg.response.value.rrs|; |lines| == if n == 0 then 1 else n
  {
    var n := |msg.response.value.rrs|;
    if n == 0 then [Clip(Flatten(Parts(names, msg, 0)))]
    else seq(n, i requires 0 <= i < n => Clip(Flatten(Parts(names, msg, i + 1))))
  }

  /** Every fragment is a C string, and the budget is not overdrawn before the last one. (Beyond
      that point the code's budget is negative; that is not part of this model.) */
  ghost predicate WithinBudget(parts: seq<string>) {
    && (forall i :: 0 <= i < |parts| ==> NUL !in parts[i])
    && (parts != [] ==> |Flatten(parts[..|parts| - 1])| <= BUDGET)
  }

  lemma ClipGrows(a: string, b: string)
    ensures Clip(a) <= Clip(a + b)
  {
  }

  /** Every line of a message is a prefix of the next. */
  lemma {:induction false} LinesGrow(names: Names, msg: Message, i: nat)
    requires msg.response.Some? && i + 1 < |LinesOf(names, msg)|
    ensures LinesOf(names, msg)[i] <= LinesOf(names, msg)[i + 1]
  {
    hide HeadParts, RecordParts, Flatten, Clip;
    var a := Parts(names, msg, i + 1);
    var more := RecordParts(names, i + 2, msg.response.value.rrs[i + 1]);
    assert Parts(names, msg, i + 2) == a + more;
    FlattenAppend(a, more);
    ClipGrows(Flatten(a), Flatten(more));
  }

  /** As long as everything fits, no line is clipped. */
  lemma {:induction false} LinesExact(names: Names, msg: Message, i: nat)
    requires msg.response.Some? && i < |LinesOf(names, msg)|
    requires var n := |msg.response.value.rrs|; |Flatten(Parts(names, msg, n))| <= BUDGET
    ensures var n := |msg.response.value.rrs|;
            LinesOf(names, msg)[i] == Flatten(Parts(names, msg, if n == 0 then 0 else i + 1))
  {
    hide Parts, Flatten;
    var n := |msg.response.value.rrs|;
    if n > 0 {
      PartsGrow(names, msg, i + 1, n);
    }
  }

  lemma {:induction false} PartsGrow(names: Names, msg: Message, i: nat, n: nat)
    requires msg.response.Some? && i <= n <= |msg.response.value.rrs|
    ensures Parts(names, msg, i) <= Parts(names, msg, n)
    ensures |Flatten(Parts(names, msg, i))| <= |Flatten(Parts(names, msg, n))|
    decreases n
  {
    hide HeadParts, RecordParts;
    if i < n {
      PartsGrow(names, msg, i, n - 1);
      FlattenAppend(Parts(names, msg, n - 1), RecordParts(names, n, msg.response.value.rrs[n - 1]));
    }
  }

  lemma FlattenPrefix(a: seq<string>, b: seq<string>)
    requires a <= b
    ensures |Flatten(a)| <= |Flatten(b)|
  {
    assert b == a + b[|a|..];
    FlattenAppend(a, b[|a|..]);
  }

  /** `snprintf` of a finished text into `tmp`: what does not fit is cut off, the full length is
      returned. */
  method Print(tmp: array<char>, part: string) returns (pc: nat)
    requires tmp.Length == LINE_SIZE && NUL !in part
    modifies tmp
    ensures pc == |part| && StrAt(tmp[..], 0, Clip(part))
  {
    var n := if |part| < LINE_SIZE then |part| else LINE_SIZE - 1;
    for k := 0 to n
      invariant tmp[..k] == part[..k]
    {
      tmp[k] := part[k];
    }
    tmp[n] := NUL;
    assert tmp[..][0..n] == part[..n];
    pc := |part|;
  }

  /** `strncat`: at most n characters of `src`, and a NUL. */
  method StrNCat(dest: array<char>, src: array<char>, n: nat, ghost s: string, ghost t: string)
    requires dest != src && StrAt(dest[..], 0, s) && StrAt(src[..], 0, t)
    requires |s| + Min(n, |t|) < dest.Length
    modifies dest
    ensures StrAt(dest[..], 0, s + t[..Min(n, |t|)])
  {
    var at := StrLen(dest, 0, s);
    var k := 0;
    CharAt(src[..], 0, t, 0);
    while k < n && src[k] != NUL
      invariant k <= n && k <= |t|
      invariant dest[..at + k] == s + t[..k]
      invariant src[k] == if k < |t| then t[k] else NUL
    {
      CharAt(src[..], 0, t, k);
      dest[at + k] := src[k];
      k := k + 1;
      CharAt(src[..], 0, t, k);
    }
    CharAt(src[..], 0, t, k);
    dest[at + k] := NUL;
    assert dest[..][0..at + k] == s + t[..k];
  }

  /** The local variables `str`, `tmp`, `sz`. `parts` are the fragments put so far. */
  class LineBuffer {
    const str: array<char>
    const tmp: array<char>
    var sz: int
    ghost var parts: seq<string>

    /** The line is the concatenation of the fragments, and what is left of the budget is exactly
        what the line has not used. */
    ghost predicate Valid()
      reads this, str
    {
      && str.Length == LINE_SIZE && tmp.Length == LINE_SIZE && str != tmp
      && StrAt(str[..], 0, Clip(Flatten(parts)))
      && sz == BUDGET - |Flatten(parts)|
    }

    constructor ()
      ensures Valid() && parts == [] && fresh(str) && fresh(tmp)
    {
      str := new char[LINE_SIZE](_ => NUL);
      tmp := new char[LINE_SIZE](_ => NUL);
      sz := BUDGET;
      parts := [];
    }

    method Put(part: string, ghost all: seq<string>)
      requires Valid() && parts + [part] <= all && WithinBudget(all)
      modifies this, str, tmp
      ensures Valid() && parts == old(parts) + [part]
    {
      ghost var line := Flatten(parts);
      Affordable(parts, part, all);
      var pc := Print(tmp, part);
      StrNCat(str, tmp, sz, line, Clip(part));
      sz := sz - pc;
      ClipAppend(line, part);
      FlattenAppend(parts, [part]);
      FlattenOne(part);
      parts := parts + [part];
    }

    method PutHead(names: Names, msg: Message, ghost all: seq<string>)
      requires Valid() && parts == [] && msg.response.Some?
      requires HeadParts(names, msg) <= all && WithinBudget(all)
      modifies this, str, tmp
      ensures Valid() && parts == HeadParts(names, msg)
    {
      hide SenderParts, QuestionParts, ResponseParts, WithinBudget;
      PutSender(names, msg, all);
      if msg.question.Some? {
        PutQuestion(names, msg.question.value, all);
      }
      PutResponse(names, msg.response.value, all);
    }

    method PutSender(names: Names, msg: Message, ghost all: seq<string>)
      requires Valid() && parts + SenderParts(names, msg) <= all && WithinBudget(all)
      modifies this, str, tmp
      ensures Valid() && parts == old(parts) + SenderParts(names, msg)
    {
      hide WithinBudget;
      if msg.id.Some? {
        Put("QID: " + names.decimal(AsInt(msg.id.value)) + " ", all);
      }
      if msg.from.Some? {
        if |msg.from.value| == 4 {
          Put("from: " + names.ipv4(msg.from.value) + " ", all);
        } else if |msg.from.value| == 16 {
          Put("from: " + names.ipv6(msg.from.value) + " ", all);
        }
      }
    }

    method PutQuestion(names: Names, q: Question, ghost all: seq<string>)
      requires Valid() && parts + QuestionParts(names, q) <= all && WithinBudget(all)
      modifies this, str, tmp
      ensures Valid() && parts == old(parts) + QuestionParts(names, q)
    {
      if q.qtype.Some? {
        Put("qtype: " + Shown(names.typeName(q.qtype.value)) + " ", all);
      }
      if q.qclass.Some? {
        Put("qclass: " + Shown(names.className(q.qclass.value)) + " ", all);
      }
      Put("qname: " + Shown(q.qname) + " ", all);
    }

    method PutResponse(names: Names, r: Response, ghost all: seq<string>)
      requires Valid() && parts + ResponseParts(names, r) <= all && WithinBudget(all)
      modifies this, str, tmp
      ensures Valid() && parts == old(parts) + ResponseParts(names, r)
    {
      if r.rcode.Some? {
        Put("rcode: " + Shown(names.rcodeName(r.rcode.value)) + " ", all);
      }
      Put("rrcount: " + names.decimal(|r.rrs|) + " ", all);
      if !IsEmpty(r.appliedPolicy) {
        Put("policy: '" + r.appliedPolicy.value + "' ", all);
      }
    }

    method PutRecord(names: Names, t: nat, rr: Record, ghost all: seq<string>)
      requires Valid() && parts + RecordParts(names, t, rr) <= all && WithinBudget(all)
      modifies this, str, tmp
      ensures Valid() && parts == old(parts) + RecordParts(names, t, rr)
    {
      hide KindParts, ContentParts, WithinBudget;
      var tag := names.decimal(t);
      Put("rname-" + tag + ": " + Shown(rr.name) + " ", all);
      PutKind(names, tag, rr, all);
      PutContent(names, tag, rr, all);
    }

    method PutKind(names: Names, tag: string, rr: Record, ghost all: seq<string>)
      requires Valid() && parts + KindParts(names, tag, rr) <= all && WithinBudget(all)
      modifies this, str, tmp
      ensures Valid() && parts == old(parts) + KindParts(names, tag, rr)
    {
      if rr.kind.Some? {
        Put("rtype-" + tag + ": " + Shown(names.typeName(rr.kind.value)) + " ", all);
      }
      if rr.class_.Some? {
        Put("rclass-" + tag + ": " + Shown(names.className(rr.class_.value)) + " ", all);
      }
    }

    method PutContent(names: Names, tag: string, rr: Record, ghost all: seq<string>)
      requires Valid() && parts + ContentParts(names, tag, rr) <= all && WithinBudget(all)
      modifies this, str, tmp
      ensures Valid() && parts == old(parts) + ContentParts(names, tag, rr)
    {
      hide WithinBudget, DataPart;
      if rr.ttl.Some? {
        Put("rttl-" + tag + ": " + names.decimal(AsInt(rr.ttl.value)) + " ", all);
      }
      if rr.rdata.Some? {
        PutData(names, tag, rr, all);
      }
    }

    method PutData(names: Names, tag: string, rr: Record, ghost all: seq<string>)
      requires Valid() && rr.rdata.Some? && parts + [DataPart(names, tag, rr)] <= all && WithinBudget(all)
      modifies this, str, tmp
      ensures Valid() && parts == old(parts) + [DataPart(names, tag, rr)]
    {
      hide WithinBudget;
      var data := rr.rdata.value;
      if rr.kind.Some? && rr.kind.value == 1 && |data| == 4 {
        Put("rdata-" + tag + ": " + names.ipv4(data) + " ", all);
      } else if rr.kind.Some? && rr.kind.value == 28 && |data| == 16 {
        Put("rdata-" + tag + ": " + names.ipv6(data) + " ", all);
      } else if rr.kind.Some? && rr.kind.value in {2, 5, 6, 15} {
        Put("rdata-" + tag + ": " + names.text(data) + " ", all);
      } else {
        Put("rdata (not supported) ", all);
      }
    }
  }

  /** Before any fragment of a list within budget, the budget is not overdrawn. */
  lemma Affordable(parts: seq<string>, part: string, all: seq<string>)
    requires parts + [part] <= all && WithinBudget(all)
    ensures |Flatten(parts)| <= BUDGET && NUL !in part
  {
    assert all[|parts|] == part;
    assert parts <= all[..|all| - 1];
    FlattenPrefix(parts, all[..|all| - 1]);
  }

  lemma ClipAppend(line: string, part: string)
    requires |line| <= BUDGET
    ensures var n := Min(BUDGET - |line|, |Clip(part)|);
            Clip(line + part) == line + Clip(part)[..n]
  {
  }

  /** The static variables of the module. The file is the sequence of its lines. */
  class Log {
    const settings: Settings
    var open: bool
    var lines: seq<string>

    constructor (settings: Settings, open: bool)
      ensures this.settings == settings && this.open == open && lines == []
    {
      this.settings, this.open, lines := settings, open, [];
    }

    /** `write_log`. */
    method WriteLog(b: LineBuffer)
      requires b.Valid()
      modifies this`lines
      ensures lines == old(lines) + if open then [Clip(Flatten(b.parts))] else []
    {
      if open {
        var line := Text(b.str, 0, Clip(Flatten(b.parts)));
        lines := lines + [line];
      }
    }

    /** `logfile_log`. */
    method LogMessage(names: Names, msg: Option<Message>) returns (status: Status)
      requires msg.Some? && Accepted(settings, msg.value) ==>
                 WithinBudget(Parts(names, msg.value, |msg.value.response.value.rrs|))
      modifies this`lines
      ensures status == OK
      ensures lines == old(lines) + if open && msg.Some? && Accepted(settings, msg.value)
                                    then LinesOf(names, msg.value) else []
    {
      hide HeadParts, RecordParts, Flatten, Clip, WithinBudget;
      status := OK;
      if settings.disabled || msg.None? || msg.value.response.None? {
        return;
      }
      var m, r := msg.value, msg.value.response.value;
      if settings.rewritesOnly && IsEmpty(r.appliedPolicy) {
        return;
      }
      var b := new LineBuffer();
      ghost var all := Parts(names, m, |r.rrs|);
      PartsGrow(names, m, 0, |r.rrs|);
      b.PutHead(names, m, all);
      if |r.rrs| > 0 {
        LogRecords(names, m, b);
      } else {
        WriteLog(b);
      }
    }

    method LogRecords(names: Names, msg: Message, b: LineBuffer)
      requires msg.response.Some? && msg.response.value.rrs != []
      requires b.Valid() && b.parts == HeadParts(names, msg)
      requires WithinBudget(Parts(names, msg, |msg.response.value.rrs|))
      modifies this`lines, b, b.str, b.tmp
      ensures lines == old(lines) + if open then LinesOf(names, msg) else []
    {
      hide HeadParts, RecordParts, Flatten, Clip, WithinBudget;
      var rrs := msg.response.value.rrs;
      ghost var all := Parts(names, msg, |rrs|);
      for t := 0 to |rrs|
        invariant b.Valid() && b.parts == Parts(names, msg, t)
        invariant lines == old(lines) + if open then LinesOf(names, msg)[..t] else []
      {
        PartsGrow(names, msg, t + 1, |rrs|);
        b.PutRecord(names, t + 1, rrs[t], all);
        WriteLog(b);
      }
    }
  }
}
