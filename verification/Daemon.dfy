/**
 From bytes on a connection to lines in the log file and rows in the database: `protobuf_parse`,
 the fan-out of `pdns_loggers_log`, and the results that span the components. Decoding is a
 parameter; a payload that cannot be decoded is passed over.
 */
module Daemon {
  import opened Types
  import opened Framing
  import C = Connections
  import M = Messages
  import F = LogFile
  import R = LogRows
  import P = Pipeline
  import D = Database

  type Decoder = seq<byte> -> Option<M.Message>

  /** What the loggers make of one payload. */
  function PayloadLines(decode: Decoder, settings: M.Settings, names: M.Names, payload: seq<byte>): seq<string> {
    var m := decode(payload);
    if m.Some? && M.Accepted(settings, m.value) then F.LinesOf(names, m.value) else []
  }

  function PayloadRows(decode: Decoder, settings: M.Settings, names: M.Names, payload: seq<byte>): seq<R.Row> {
    var m := decode(payload);
    if m.Some? && M.Accepted(settings, m.value) then R.RowsOf(names, m.value) else []
  }

  /** The log of a sequence of payloads is the concatenation over them, in order. */
  function FileLog(decode: Decoder, settings: M.Settings, names: M.Names, payloads: seq<seq<byte>>): seq<string> {
    Flatten(seq(|payloads|, i requires 0 <= i < |payloads| =>
                  PayloadLines(decode, settings, names, payloads[i])))
  }

  function RowLog(decode: Decoder, settings: M.Settings, names: M.Names, payloads: seq<seq<byte>>): seq<R.Row> {
    Flatten(seq(|payloads|, i requires 0 <= i < |payloads| =>
                  PayloadRows(decode, settings, names, payloads[i])))
  }

  lemma FileLogAppend(decode: Decoder, settings: M.Settings, names: M.Names, a: seq<seq<byte>>, b: seq<seq<byte>>)
    ensures FileLog(decode, settings, names, a + b) ==
            FileLog(decode, settings, names, a) + FileLog(decode, settings, names, b)
  {
    hide PayloadLines;
    var la := seq(|a|, i requires 0 <= i < |a| => PayloadLines(decode, settings, names, a[i]));
    var lb := seq(|b|, i requires 0 <= i < |b| => PayloadLines(decode, settings, names, b[i]));
    var c := a + b;
    assert seq(|c|, i requires 0 <= i < |c| => PayloadLines(decode, settings, names, c[i])) == la + lb;
    FlattenAppend(la, lb);
  }

  lemma RowLogAppend(decode: Decoder, settings: M.Settings, names: M.Names, a: seq<seq<byte>>, b: seq<seq<byte>>)
    ensures RowLog(decode, settings, names, a + b) ==
            RowLog(decode, settings, names, a) + RowLog(decode, settings, names, b)
  {
    hide PayloadRows;
    var la := seq(|a|, i requires 0 <= i < |a| => PayloadRows(decode, settings, names, a[i]));
    var lb := seq(|b|, i requires 0 <= i < |b| => PayloadRows(decode, settings, names, b[i]));
    var c := a + b;
    assert seq(|c|, i requires 0 <= i < |c| => PayloadRows(decode, settings, names, c[i])) == la + lb;
    FlattenAppend(la, lb);
  }

  /** The message has a response, the logger is not disabled, and if it only logs rewrites, a policy
      was applied. */
  predicate Wanted(settings: M.Settings, msg: M.Message) {
    && msg.response.Some? && !settings.disabled
    && (settings.rewritesOnly ==>
          msg.response.value.appliedPolicy.Some? && msg.response.value.appliedPolicy.value != "")
  }

  /** The wanted messages among the payloads, in order. */
  function WantedMessages(decode: Decoder, settings: M.Settings, payloads: seq<seq<byte>>): (ms: seq<M.Message>)
    ensures forall i :: 0 <= i < |ms| ==> ms[i].response.Some? && Wanted(settings, ms[i])
  {
    if payloads == [] then []
    else
      var m := decode(payloads[0]);
      (if m.Some? && Wanted(settings, m.value) then [m.value] else [])
      + WantedMessages(decode, settings, payloads[1..])
  }

  /** The lines and the rows of messages, one message after the other. */
  function AllLines(names: M.Names, ms: seq<M.Message>): seq<string>
    requires forall i :: 0 <= i < |ms| ==> ms[i].response.Some?
  {
    if ms == [] then [] else F.LinesOf(names, ms[0]) + AllLines(names, ms[1..])
  }

  function AllRows(names: M.Names, ms: seq<M.Message>): seq<R.Row>
    requires forall i :: 0 <= i < |ms| ==> ms[i].response.Some?
  {
    if ms == [] then [] else R.RowsOf(names, ms[0]) + AllRows(names, ms[1..])
  }

  /** A wanted message adds exactly its lines and its rows to the log, in the order of the payloads;
      a payload that cannot be decoded or holds any other message adds none. */
  lemma {:induction false} LogOfWanted(
      decode: Decoder, settings: M.Settings, names: M.Names, payloads: seq<seq<byte>>)
    ensures var ms := WantedMessages(decode, settings, payloads);
            && FileLog(decode, settings, names, payloads) == AllLines(names, ms)
            && RowLog(decode, settings, names, payloads) == AllRows(names, ms)
  {
    hide FileLog, RowLog, F.LinesOf, R.RowsOf;
    if payloads == [] {
      NoPayloads(decode, settings, settings, names);
    } else {
      var p, rest := payloads[0], payloads[1..];
      assert payloads == [p] + rest;
      FileLogAppend(decode, settings, names, [p], rest);
      RowLogAppend(decode, settings, names, [p], rest);
      OnePayload(decode, settings, settings, names, p);
      LogOfWanted(decode, settings, names, rest);
      var later := WantedMessages(decode, settings, rest);
      var m := decode(p);
      if m.Some? && Wanted(settings, m.value) {
        assert ([m.value] + later)[1..] == later;
      } else {
        assert [] + later == later;
      }
    }
  }

  /** The log of what a connection has delivered is at any time a prefix of the log of everything
      deliverable in its stream, however the stream was sliced; once a connection that was not broken
      off has ended, it is all of it. `Connect` ties it to the file. */
  lemma {:induction false} ConnectionLog(
      decode: Decoder, settings: M.Settings, names: M.Names,
      stack: seq<byte>, stream: seq<byte>, arrivals: seq<C.Arrival>)
    requires |stack| == CAPACITY
    ensures var log := FileLog(decode, settings, names, C.Run(stack, stream, arrivals).delivered);
            var whole := FileLog(decode, settings, names, Deliverable(stream).payloads);
            log <= whole && (C.Completed(C.Run(stack, stream, arrivals)) ==> log == whole)
  {
    hide C.Run, Deliverable, FileLog;
    DeliveredIsPrefix(stack, stream, arrivals);
    var done, all := C.Run(stack, stream, arrivals).delivered, Deliverable(stream).payloads;
    assert all == done + all[|done|..];
    FileLogAppend(decode, settings, names, done, all[|done|..]);
    if C.Completed(C.Run(stack, stream, arrivals)) {
      C.ConnectionExact(stack, stream, arrivals);
    }
  }

  lemma DeliveredIsPrefix(stack: seq<byte>, stream: seq<byte>, arrivals: seq<C.Arrival>)
    requires |stack| == CAPACITY
    ensures C.Run(stack, stream, arrivals).delivered <= Deliverable(stream).payloads
  {
    hide C.Run, Deliverable;
    C.RunOnCourse(stack, stream, arrivals);
  }

  /** The rows that the events try to push. */
  ghost function Attempts<Row>(events: seq<P.Event<Row>>): seq<Row>
    decreases |events|
  {
    if events == [] then []
    else
      var e := events[|events| - 1];
      Attempts(events[..|events| - 1])
      + if e.Push? && e.value.Some? then [e.value.value] else []
  }

  /** Only attempted rows get into the queue, in their order. */
  lemma {:induction false} PushedWereAttempted<Row(!new)>(
      fails: D.Faults<Row>, autocommit: bool, openOk: bool, events: seq<P.Event<Row>>)
    ensures P.Subsequence(P.Pushed(P.Run(fails, autocommit, openOk, events).queue.heap), Attempts(events))
    decreases |events|
  {
    if events != [] {
      var n := |events| - 1;
      PushedWereAttempted(fails, autocommit, openOk, events[..n]);
      var p := P.Run(fails, autocommit, openOk, events[..n]);
      var before, tried := P.Pushed(p.queue.heap), Attempts(events[..n]);
      HeapGrows(fails, p, events[n]);
      var e := events[n];
      if e.Push? && e.value.Some? {
        var now := if e.mallocOk then [e.value.value] else [];
        assert P.Subsequence(now, [e.value.value]) by {
          assert [e.value.value][..0] == [];
        }
        P.SubsequenceConcat(before, tried, now, [e.value.value]);
      } else {
        assert tried + [] == tried && before + [] == before;
      }
    }
  }

  lemma HeapGrows<Row>(fails: D.Faults<Row>, p: P.Pipe<Row>, e: P.Event<Row>)
    ensures P.Pushed(P.Step(fails, p, e).queue.heap) ==
            P.Pushed(p.queue.heap)
            + if e.Push? && e.value.Some? && e.mallocOk then [e.value.value] else []
  {
  }

  /** A row with the connection whose message it comes from. */
  datatype Tagged = Tagged(conn: nat, row: R.Row)

  /** The rows of one connection, in order. */
  ghost function RowsFrom(conn: nat, rows: seq<Tagged>): seq<Tagged> {
    P.Filter((t: Tagged) => t.conn == conn, rows)
  }

  ghost function Tag(conn: nat, rows: seq<R.Row>): seq<Tagged> {
    seq(|rows|, i requires 0 <= i < |rows| => Tagged(conn, rows[i]))
  }

  lemma {:induction false} TagPrefix(conn: nat, a: seq<R.Row>, b: seq<R.Row>)
    requires a <= b
    ensures Tag(conn, a) <= Tag(conn, b)
  {
    assert Tag(conn, b)[..|a|] == Tag(conn, a);
  }

  /** End to end, for any number of connections at once: if what a connection tries to push is, in
      order, part of the rows of the frames delivered to it (a message may be half done, a statement
      may not have been built), then whatever the slicing of its stream, the interleaving with the
      other connections and the writer thread, the failures and the rotations, the rows that the
      database holds of it are a subsequence of the rows of its stream's frames. */
  lemma {:induction false} DatabaseFollowsStream(
      decode: Decoder, settings: M.Settings, names: M.Names,
      conn: nat, stack: seq<byte>, stream: seq<byte>, arrivals: seq<C.Arrival>,
      fails: D.Faults<Tagged>, autocommit: bool, openOk: bool, events: seq<P.Event<Tagged>>)
    requires |stack| == CAPACITY
    requires P.Subsequence(
               RowsFrom(conn, Attempts(events)),
               Tag(conn, RowLog(decode, settings, names, C.Run(stack, stream, arrivals).delivered)))
    ensures P.Subsequence(
              RowsFrom(conn, P.Run(fails, autocommit, openOk, events).life.writer.engine.committed),
              Tag(conn, RowLog(decode, settings, names, Deliverable(stream).payloads)))
  {
    hide C.Run, Deliverable, RowLog, P.Run, P.Subsequence, P.Filter, Tag;
    var done, all := C.Run(stack, stream, arrivals).delivered, Deliverable(stream).payloads;
    DeliveredIsPrefix(stack, stream, arrivals);
    assert all == done + all[|done|..];
    RowLogAppend(decode, settings, names, done, all[|done|..]);
    var part, whole := RowLog(decode, settings, names, done), RowLog(decode, settings, names, all);
    TagPrefix(conn, part, whole);
    P.PrefixIsSubsequence(Tag(conn, part), Tag(conn, whole));
    CommittedWereAttempted(fails, autocommit, openOk, events);
    var committed := P.Run(fails, autocommit, openOk, events).life.writer.engine.committed;
    P.SubsequenceFilter((t: Tagged) => t.conn == conn, committed, Attempts(events));
    P.SubsequenceTransitive(RowsFrom(conn, committed), RowsFrom(conn, Attempts(events)), Tag(conn, part));
    P.SubsequenceTransitive(RowsFrom(conn, committed), Tag(conn, part), Tag(conn, whole));
  }

  lemma CommittedWereAttempted<Row(!new)>(
      fails: D.Faults<Row>, autocommit: bool, openOk: bool, events: seq<P.Event<Row>>)
    ensures P.Subsequence(P.Run(fails, autocommit, openOk, events).life.writer.engine.committed,
                          Attempts(events))
  {
    hide P.Run, P.Subsequence;
    var p := P.Run(fails, autocommit, openOk, events);
    PushedWereAttempted(fails, autocommit, openOk, events);
    P.FileIsSubsequenceOfPushes(fails, autocommit, openOk, events);
    P.SubsequenceTransitive(p.life.writer.engine.committed, P.Pushed(p.queue.heap), Attempts(events));
  }

  /** Whenever the payload is a message to be logged, its fragments stay within the line budget. */
  ghost predicate Loggable(decode: Decoder, settings: M.Settings, names: M.Names, payload: seq<byte>) {
    var m := decode(payload);
    m.Some? && M.Accepted(settings, m.value) ==>
      F.WithinBudget(F.Parts(names, m.value, |m.value.response.value.rrs|))
  }

  /** `protobuf_parse` and `pdns_loggers_log`. */
  method DispatchOne(
      decode: Decoder, names: M.Names, log: F.Log, dbSettings: M.Settings, payload: seq<byte>)
    returns (rows: seq<R.Row>)
    requires Loggable(decode, log.settings, names, payload)
    modifies log`lines
    ensures log.lines == old(log.lines) +
            if log.open then PayloadLines(decode, log.settings, names, payload) else []
    ensures rows == PayloadRows(decode, dbSettings, names, payload)
  {
    rows := [];
    var msg := decode(payload);
    if msg.Some? {
      var _ := log.LogMessage(names, msg);
      rows := R.LogRow(dbSettings, names, msg);
    }
  }

  /** Every logger is given every decoded message, in the order of the frames. */
  method Dispatch(
      decode: Decoder, names: M.Names, log: F.Log, dbSettings: M.Settings, payloads: seq<seq<byte>>)
    returns (rows: seq<R.Row>)
    requires forall i :: 0 <= i < |payloads| ==> Loggable(decode, log.settings, names, payloads[i])
    modifies log`lines
    ensures log.lines == old(log.lines) +
            if log.open then FileLog(decode, log.settings, names, payloads) else []
    ensures rows == RowLog(decode, dbSettings, names, payloads)
  {
    hide FileLog, RowLog, PayloadLines, PayloadRows, Loggable;
    rows := [];
    NoPayloads(decode, log.settings, dbSettings, names);
    for i := 0 to |payloads|
      invariant log.lines == old(log.lines) +
                if log.open then FileLog(decode, log.settings, names, payloads[..i]) else []
      invariant rows == RowLog(decode, dbSettings, names, payloads[..i])
    {
      assert payloads[..i + 1] == payloads[..i] + [payloads[i]];
      FileLogAppend(decode, log.settings, names, payloads[..i], [payloads[i]]);
      RowLogAppend(decode, dbSettings, names, payloads[..i], [payloads[i]]);
      OnePayload(decode, log.settings, dbSettings, names, payloads[i]);
      var more := DispatchOne(decode, names, log, dbSettings, payloads[i]);
      rows := rows + more;
    }
    assert payloads[..|payloads|] == payloads;
  }

  /** A connection with its loggers, from the first read on: the lines that it adds to the open file,
      and the rows that it hands on, are a prefix of the log of its deliverable frames, and all of it
      once the connection has ended without being broken off. */
  method Connect(
      decode: Decoder, names: M.Names, log: F.Log, dbSettings: M.Settings,
      stream: seq<byte>, arrivals: seq<C.Arrival>)
    returns (phase: C.Phase, rows: seq<R.Row>)
    requires forall i :: 0 <= i < |Deliverable(stream).payloads| ==>
               Loggable(decode, log.settings, names, Deliverable(stream).payloads[i])
    modifies log`lines
    ensures var whole := if log.open
                         then FileLog(decode, log.settings, names, Deliverable(stream).payloads) else [];
            && old(log.lines) <= log.lines <= old(log.lines) + whole
            && (phase.Full? || phase.Eof? ==> log.lines == old(log.lines) + whole)
    ensures var whole := RowLog(decode, dbSettings, names, Deliverable(stream).payloads);
            rows <= whole && (phase.Full? || phase.Eof? ==> rows == whole)
    ensures phase.Full? ==> Jams(stream)
  {
    hide FileLog, RowLog, Deliverable, Loggable, C.Run;
    var conn := new C.Connection();
    ghost var stack := conn.buffer[..];
    var consumed;
    consumed, phase := conn.Serve(stream, arrivals);
    ghost var s := C.Run(stack, stream, arrivals);
    ghost var done, all := s.delivered, Deliverable(stream).payloads;
    DeliveredIsPrefix(stack, stream, arrivals);
    assert all == done + all[|done|..];
    ConnectionLog(decode, log.settings, names, stack, stream, arrivals);
    RowLogAppend(decode, dbSettings, names, done, all[|done|..]);
    if C.Completed(s) {
      C.ConnectionExact(stack, stream, arrivals);
    }
    rows := Dispatch(decode, names, log, dbSettings, conn.delivered);
  }

  lemma NoPayloads(decode: Decoder, settings: M.Settings, dbSettings: M.Settings, names: M.Names)
    ensures FileLog(decode, settings, names, []) == [] && RowLog(decode, dbSettings, names, []) == []
  {
  }

  lemma OnePayload(decode: Decoder, settings: M.Settings, dbSettings: M.Settings, names: M.Names, p: seq<byte>)
    ensures FileLog(decode, settings, names, [p]) == PayloadLines(decode, settings, names, p)
    ensures RowLog(decode, dbSettings, names, [p]) == PayloadRows(decode, dbSettings, names, p)
  {
    hide PayloadLines, PayloadRows;
    var l, r := PayloadLines(decode, settings, names, p), PayloadRows(decode, dbSettings, names, p);
    var one := [p];
    assert seq(1, i requires 0 <= i < 1 => PayloadLines(decode, settings, names, one[i])) == [l];
    assert seq(1, i requires 0 <= i < 1 => PayloadRows(decode, dbSettings, names, one[i])) == [r];
    FlattenOne(l);
    FlattenOne(r);
  }
}
