/**
 A decoded PowerDNS message, with the fields that the loggers use. An absent optional field is
 `None`. Name tables, address rendering and number formatting belong to code outside this model and
 are parameters (`Names`).
 */
module Messages {
  import opened Types

  type uint32 = x: int | 0 <= x < 0x1_0000_0000

  datatype Record = Record(
    name: Option<string>, kind: Option<uint32>, class_: Option<uint32>, ttl: Option<uint32>,
    rdata: Option<seq<byte>>)

  datatype Question = Question(
    qtype: Option<uint32>, qclass: Option<uint32>, qname: Option<string>)

  datatype Response = Response(
    rcode: Option<uint32>, appliedPolicy: Option<string>, rrs: seq<Record>)

  datatype Message = Message(
    id: Option<uint32>, timeSec: Option<uint32>, from: Option<seq<byte>>,
    question: Option<Question>, response: Option<Response>)

  /** The name tables answer a null pointer for numbers beyond their end. */
  datatype Names = Names(
    typeName: uint32 -> Option<string>,
    className: uint32 -> Option<string>,
    rcodeName: uint32 -> Option<string>,
    decimal: int -> string,
    ipv4: seq<byte> -> string,
    ipv6: seq<byte> -> string,
    text: seq<byte> -> string)

  /** An unsigned value passed where a signed int is expected. */
  function AsInt(x: uint32): (i: int)
    ensures -0x8000_0000 <= i < 0x8000_0000 && (i - x) % 0x1_0000_0000 == 0
  {
    if x < 0x8000_0000 then x else x - 0x1_0000_0000
  }

  /** `zstr`. */
  predicate IsEmpty(s: Option<string>) {
    s.None? || s.value == []
  }

  function OrEmpty(s: Option<string>): string {
    if s.Some? then s.value else ""
  }

  /** What distinguishes the settings of a logger. */
  datatype Settings = Settings(disabled: bool, rewritesOnly: bool)

  /** The message gets past the tests at the head of a log function. */
  predicate Accepted(settings: Settings, msg: Message) {
    && !settings.disabled
    && msg.response.Some?
    && !(settings.rewritesOnly && IsEmpty(msg.response.value.appliedPolicy))
  }

  /** How a record's data is shown. */
  datatype DataKind = Address4 | Address6 | PlainText | Unsupported

  function KindOfData(rr: Record): DataKind
    requires rr.rdata.Some?
  {
    if rr.kind == Some(1) && |rr.rdata.value| == 4 then Address4
    else if rr.kind == Some(28) && |rr.rdata.value| == 16 then Address6
    else if rr.kind == Some(2) || rr.kind == Some(5) || rr.kind == Some(6) || rr.kind == Some(15) then PlainText
    else Unsupported
  }
}
