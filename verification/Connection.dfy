/**
 One client connection: the fixed receive buffer, `protobuf_extract`, and the read loop of
 `socket_thread_exec`.

 `Extract` follows the C loop on the raw buffer, stale bytes included; `ExtractIsParse` shows that
 only the valid bytes matter. `Run` is a whole connection under an arbitrary slicing of the stream
 into reads; the theorems about it quantify over all streams and all slicings.
 */
module Connections {
  import opened Types
  import opened Framing

  datatype Extraction = Extraction(
    buffer: seq<byte>, blen: nat, payloads: seq<seq<byte>>, status: Status)

  /** The buffer after `memmove(buf, buf + src, n)`. */
  function Moved(buffer: seq<byte>, src: nat, n: nat): (b: seq<byte>)
    requires src + n <= |buffer|
    ensures |b| == |buffer| && b[..n] == buffer[src..src + n]
  {
    buffer[src..src + n] + buffer[n..]
  }

  /** One round of the `while (1)` loop; `more` says that the loop goes on. */
  datatype Round = Round(
    buffer: seq<byte>, blen: nat, payloads: seq<seq<byte>>, more: bool, status: Status)

  /** The length word is read from the buffer even when fewer than two of its bytes are valid. */
  function OneRound(buffer: seq<byte>, blen: nat): (r: Round)
    requires PREFIX <= |buffer| && blen <= |buffer|
    ensures |r.buffer| == |buffer| && r.blen <= blen && (r.more ==> 0 < r.blen <= blen - PREFIX)
  {
    var plen := DeclaredLength(buffer);
    if blen >= plen + PREFIX then
      var left := blen - plen - PREFIX;
      Round(Moved(buffer, plen + PREFIX, left), left, [buffer[PREFIX..plen + PREFIX]], left != 0, OK)
    else
      Round(buffer, blen, [], false, RETRY)
  }

  function ExtractLoop(buffer: seq<byte>, blen: nat): (e: Extraction)
    requires PREFIX <= |buffer| && blen <= |buffer|
    ensures |e.buffer| == |buffer| && e.blen <= blen
    decreases blen
  {
    var r := OneRound(buffer, blen);
    if r.more then
      var e := ExtractLoop(r.buffer, r.blen);
      e.(payloads := r.payloads + e.payloads)
    else
      Extraction(r.buffer, r.blen, r.payloads, r.status)
  }

  /** `protobuf_extract`. */
  function Extract(buffer: seq<byte>, blen: nat): (e: Extraction)
    requires PREFIX <= |buffer| && blen <= |buffer|
    ensures |e.buffer| == |buffer| && e.blen <= blen
  {
    if blen < PREFIX then Extraction(buffer, blen, [], RETRY) else ExtractLoop(buffer, blen)
  }

  /** A round takes the first whole frame off the valid bytes, if there is one. */
  lemma RoundIsFirst(buffer: seq<byte>, blen: nat)
    requires PREFIX <= |buffer| && 0 < blen <= |buffer|
    ensures var s, r := buffer[..blen], OneRound(buffer, blen);
            if Incomplete(s) then r == Round(buffer, blen, [], false, RETRY)
            else r.payloads == [FirstPayload(s)] && r.buffer[..r.blen] == AfterFirst(s)
                 && r.more == (r.blen != 0) && r.status == OK
  {
    var s, plen := buffer[..blen], DeclaredLength(buffer);
    if blen >= PREFIX {
      assert DeclaredLength(s) == plen;
    }
    if blen >= plen + PREFIX {
      SliceOfPrefix(buffer, blen, PREFIX, plen + PREFIX);
      SliceOfPrefix(buffer, blen, plen + PREFIX, blen);
      assert AfterFirst(s) == s[plen + PREFIX..blen];
    }
  }

  lemma {:induction false} LoopIsParse(buffer: seq<byte>, blen: nat)
    requires PREFIX <= |buffer| && 0 < blen <= |buffer|
    ensures var e := ExtractLoop(buffer, blen);
            && Parse(buffer[..blen]) == Parsed(e.payloads, e.buffer[..e.blen])
            && e.status == (if e.blen == 0 then OK else RETRY)
    decreases blen
  {
    hide OneRound, DeclaredLength;
    RoundIsFirst(buffer, blen);
    var r := OneRound(buffer, blen);
    if r.more {
      LoopIsParse(r.buffer, r.blen);
    } else if r.blen == 0 {
      assert r.buffer[..0] == [];
    }
  }

  /** Extraction delivers exactly the whole frames among the valid bytes and keeps the rest; on a
      non-empty buffer it answers OK exactly when it emptied it, otherwise RETRY. */
  lemma {:induction false} ExtractIsParse(buffer: seq<byte>, blen: nat)
    requires PREFIX <= |buffer| && blen <= |buffer|
    ensures var e := Extract(buffer, blen);
            && Parse(buffer[..blen]) == Parsed(e.payloads, e.buffer[..e.blen])
            && e.status == (if 0 < blen && e.blen == 0 then OK else RETRY)
  {
    if blen >= PREFIX {
      LoopIsParse(buffer, blen);
    }
  }

  /** Bytes beyond `blen` influence neither the payloads, nor the status, nor the remainder. */
  lemma {:induction false} StaleBytesDoNotMatter(a: seq<byte>, b: seq<byte>, blen: nat)
    requires PREFIX <= |a| && PREFIX <= |b|
    requires blen <= |a| && blen <= |b| && a[..blen] == b[..blen]
    ensures var e, f := Extract(a, blen), Extract(b, blen);
            && e.payloads == f.payloads && e.status == f.status
            && e.blen == f.blen && e.buffer[..e.blen] == f.buffer[..f.blen]
  {
    ExtractIsParse(a, blen);
    ExtractIsParse(b, blen);
    var e, f := Extract(a, blen), Extract(b, blen);
    assert |e.buffer[..e.blen]| == |f.buffer[..f.blen]|;
  }

  /** Still in the loop, or why it was left. */
  datatype Phase = Reading | Full | Eof | Failed

  /** `consumed` counts the bytes of the client's stream read so far; `delivered` is what
      `protobuf_parse` was given. */
  datatype State = State(
    buffer: seq<byte>, bsize: nat, consumed: nat, delivered: seq<seq<byte>>, phase: Phase)

  /** What the next `read` meets: some bytes ready (the kernel hands over as many of them as there
      is room for, and none once the stream is exhausted), or an error. */
  datatype Arrival = Ready(count: Positive) | Broken

  /** The number of bytes `read` returns. */
  function ReadCount(room: nat, remaining: nat, count: Positive): (n: nat)
    ensures n <= room && n <= remaining && n <= count
    ensures n == room || n == remaining || n == count
    ensures room > 0 ==> (n == 0 <==> remaining == 0)
  {
    Min(count, Min(room, remaining))
  }

  predicate Valid(stream: seq<byte>, s: State) {
    |s.buffer| == CAPACITY && s.bsize <= CAPACITY && s.consumed <= |stream|
  }

  /** The buffer once `chunk` has been read in behind its valid bytes. */
  function Filled(buffer: seq<byte>, bsize: nat, chunk: seq<byte>): (b: seq<byte>)
    requires bsize + |chunk| <= |buffer|
    ensures |b| == |buffer| && b[..bsize + |chunk|] == buffer[..bsize] + chunk
  {
    buffer[..bsize] + chunk + buffer[bsize + |chunk|..]
  }

  /** Append what was read, extract, and make the full-buffer test of the next round. */
  function Receive(s: State, chunk: seq<byte>): (s': State)
    requires |s.buffer| == CAPACITY && s.bsize + |chunk| <= CAPACITY
    ensures |s'.buffer| == CAPACITY && s'.bsize <= CAPACITY
  {
    var e := Extract(Filled(s.buffer, s.bsize, chunk), s.bsize + |chunk|);
    State(e.buffer, e.blen, s.consumed + |chunk|, s.delivered + e.payloads,
          if e.blen == CAPACITY then Full else Reading)
  }

  /** One round of the loop. */
  function Step(stream: seq<byte>, s: State, a: Arrival): (s': State)
    requires Valid(stream, s)
    ensures Valid(stream, s')
  {
    if s.phase != Reading then s
    else if a.Broken? then s.(phase := Failed)
    else
      var n := ReadCount(CAPACITY - s.bsize, |stream| - s.consumed, a.count);
      if n == 0 then s.(phase := Eof)
      else Receive(s, stream[s.consumed..s.consumed + n])
  }

  /** The connection after the given arrivals, from an uninitialised stack buffer. */
  function Run(stack: seq<byte>, stream: seq<byte>, arrivals: seq<Arrival>): (s: State)
    requires |stack| == CAPACITY
    ensures Valid(stream, s)
    decreases |arrivals|
  {
    if arrivals == [] then State(stack, 0, 0, [], Reading)
    else
      var last := |arrivals| - 1;
      Step(stream, Run(stack, stream, arrivals[..last]), arrivals[last])
  }

  lemma FilledNone(buffer: seq<byte>, bsize: nat)
    requires bsize <= |buffer|
    ensures Filled(buffer, bsize, []) == buffer
  {
  }

  lemma StepCases(stream: seq<byte>, s: State, a: Arrival)
    requires Valid(stream, s) && s.phase == Reading
    ensures a.Broken? ==> Step(stream, s, a) == s.(phase := Failed)
    ensures a.Ready? ==>
              var n := ReadCount(CAPACITY - s.bsize, |stream| - s.consumed, a.count);
              Step(stream, s, a) ==
              if n == 0 then s.(phase := Eof) else Receive(s, stream[s.consumed..s.consumed + n])
  {
    hide Receive;
  }

  lemma EndedStays(stream: seq<byte>, s: State, a: Arrival)
    requires Valid(stream, s)
    ensures s.phase != Reading ==> Step(stream, s, a) == s
  {
  }

  /** The valid bytes of the buffer. */
  function Tail(s: State): seq<byte>
    requires s.bsize <= |s.buffer|
  {
    s.buffer[..s.bsize]
  }

  /** The connection has so far done what a one-shot parse of the bytes read would do. */
  ghost predicate InStep(stream: seq<byte>, s: State)
    requires Valid(stream, s)
  {
    && Parse(stream[..s.consumed]) == Progress(s)
    && (s.phase == Reading ==> s.bsize < CAPACITY)
    && (s.phase == Full <==> s.bsize == CAPACITY)
    && (s.phase == Eof ==> s.consumed == |stream|)
  }

  /** What a connection has delivered and still holds, as a parse. */
  function Progress(s: State): Parsed
    requires s.bsize <= |s.buffer|
  {
    Parsed(s.delivered, Tail(s))
  }

  lemma {:induction false} ReceiveIsParse(s: State, chunk: seq<byte>)
    requires |s.buffer| == CAPACITY && s.bsize + |chunk| <= CAPACITY
    ensures Progress(Receive(s, chunk)) == Progress(s).Then(Parse(Tail(s) + chunk))
  {
    hide Extract, Parse, Filled;
    var n, filled := s.bsize + |chunk|, Filled(s.buffer, s.bsize, chunk);
    ExtractIsParse(filled, n);
    var e := Extract(filled, n);
    assert filled[..n] == Tail(s) + chunk;
    assert Progress(Receive(s, chunk)) == Parsed(s.delivered + e.payloads, e.buffer[..e.blen]);
  }

  lemma {:induction false} ReceiveInStep(before: seq<byte>, s: State, chunk: seq<byte>)
    requires |s.buffer| == CAPACITY && s.bsize + |chunk| <= CAPACITY
    requires Parse(before) == Progress(s)
    ensures Parse(before + chunk) == Progress(Receive(s, chunk))
  {
    ReceiveIsParse(s, chunk);
    ParseResume(before, chunk);
  }

  lemma {:induction false} StepInStep(stream: seq<byte>, s: State, a: Arrival)
    requires Valid(stream, s) && InStep(stream, s)
    ensures InStep(stream, Step(stream, s, a))
  {
    hide Extract, ExtractLoop, Parse;
    if s.phase == Reading && a.Ready? {
      var n := ReadCount(CAPACITY - s.bsize, |stream| - s.consumed, a.count);
      if n > 0 {
        var chunk := stream[s.consumed..s.consumed + n];
        ReceiveInStep(stream[..s.consumed], s, chunk);
        assert stream[..s.consumed] + chunk == stream[..s.consumed + n];
      }
    }
  }

  lemma {:induction false} RunInStep(stack: seq<byte>, stream: seq<byte>, arrivals: seq<Arrival>)
    requires |stack| == CAPACITY
    ensures InStep(stream, Run(stack, stream, arrivals))
    decreases |arrivals|
  {
    if arrivals == [] {
      assert stream[..0] == [];
    } else {
      var last := |arrivals| - 1;
      RunInStep(stack, stream, arrivals[..last]);
      StepInStep(stream, Run(stack, stream, arrivals[..last]), arrivals[last]);
    }
  }

  /** Byte conservation in every reachable state. */
  lemma {:induction false} RunConservesBytes(stack: seq<byte>, stream: seq<byte>, arrivals: seq<Arrival>)
    requires |stack| == CAPACITY
    ensures var s := Run(stack, stream, arrivals);
            && Encodable(s.delivered)
            && EncodeAll(s.delivered) + Tail(s) == stream[..s.consumed]
            && Incomplete(Tail(s))
  {
    RunInStep(stack, stream, arrivals);
    ParseSound(stream[..Run(stack, stream, arrivals).consumed]);
  }

  /** Two connections that read the same bytes, sliced in any two ways, delivered the same payloads
      and hold the same tail. */
  lemma {:induction false} SlicingIndependence(
      stack1: seq<byte>, arrivals1: seq<Arrival>, stack2: seq<byte>, arrivals2: seq<Arrival>,
      stream: seq<byte>)
    requires |stack1| == CAPACITY && |stack2| == CAPACITY
    requires Run(stack1, stream, arrivals1).consumed == Run(stack2, stream, arrivals2).consumed
    ensures var s, t := Run(stack1, stream, arrivals1), Run(stack2, stream, arrivals2);
            s.delivered == t.delivered && Tail(s) == Tail(t)
  {
    RunInStep(stack1, stream, arrivals1);
    RunInStep(stack2, stream, arrivals2);
  }

  /** The buffer fills only on a frame declaring more than 8190 bytes, which is not delivered; and
      while the connection lasts, the next `read` has room. */
  lemma {:induction false} BufferFullExact(stack: seq<byte>, stream: seq<byte>, arrivals: seq<Arrival>)
    requires |stack| == CAPACITY
    ensures var s := Run(stack, stream, arrivals);
            && (s.phase == Full <==> s.bsize == CAPACITY)
            && (s.bsize == CAPACITY ==> Oversized(Tail(s)))
            && (s.phase == Reading ==> s.bsize < CAPACITY)
            && (s.phase == Eof ==> s.consumed == |stream|)
  {
    RunInStep(stack, stream, arrivals);
    RunConservesBytes(stack, stream, arrivals);
  }

  /** What is delivered, then what is deliverable from the tail on, is what the stream can deliver. */
  ghost predicate OnCourse(stream: seq<byte>, s: State)
    requires Valid(stream, s)
  {
    Deliverable(stream) == Progress(s).Then(Deliverable(Tail(s) + stream[s.consumed..]))
  }

  lemma ReceiveOnCourse(s: State, chunk: seq<byte>, more: seq<byte>)
    requires |s.buffer| == CAPACITY && s.bsize + |chunk| <= CAPACITY
    ensures var s' := Receive(s, chunk);
            Progress(s).Then(Deliverable(Tail(s) + chunk + more)) ==
            Progress(s').Then(Deliverable(Tail(s') + more))
  {
    ReceiveIsParse(s, chunk);
    DeliverableResume(Tail(s) + chunk, more);
    var p := Parse(Tail(s) + chunk);
    ThenThen(Progress(s), p, Deliverable(p.rest + more));
  }

  lemma {:induction false} StepOnCourse(stream: seq<byte>, s: State, a: Arrival)
    requires Valid(stream, s) && OnCourse(stream, s)
    ensures OnCourse(stream, Step(stream, s, a))
  {
    hide Extract, ExtractLoop, Deliverable;
    if s.phase == Reading && a.Ready? {
      var n := ReadCount(CAPACITY - s.bsize, |stream| - s.consumed, a.count);
      if n > 0 {
        var chunk, more := stream[s.consumed..s.consumed + n], stream[s.consumed + n..];
        assert Tail(s) + stream[s.consumed..] == Tail(s) + chunk + more;
        ReceiveOnCourse(s, chunk, more);
      }
    }
  }

  lemma {:induction false} RunOnCourse(stack: seq<byte>, stream: seq<byte>, arrivals: seq<Arrival>)
    requires |stack| == CAPACITY
    ensures OnCourse(stream, Run(stack, stream, arrivals))
    decreases |arrivals|
  {
    if arrivals == [] {
      assert Tail(Run(stack, stream, [])) + stream[0..] == stream;
    } else {
      var last := |arrivals| - 1;
      RunOnCourse(stack, stream, arrivals[..last]);
      StepOnCourse(stream, Run(stack, stream, arrivals[..last]), arrivals[last]);
    }
  }

  ghost predicate NoErrors(arrivals: seq<Arrival>) {
    forall i :: 0 <= i < |arrivals| ==> arrivals[i].Ready?
  }

  /** Every successful read consumes at least one byte, so a connection that does not break ends. */
  lemma {:induction false} RunProgresses(stack: seq<byte>, stream: seq<byte>, arrivals: seq<Arrival>)
    requires |stack| == CAPACITY && NoErrors(arrivals)
    ensures var s := Run(stack, stream, arrivals);
            s.phase != Failed && (s.phase == Reading ==> s.consumed >= |arrivals|)
    decreases |arrivals|
  {
    hide Step, Parse, Extract;
    if arrivals != [] {
      var last := |arrivals| - 1;
      var s := Run(stack, stream, arrivals[..last]);
      RunProgresses(stack, stream, arrivals[..last]);
      RunInStep(stack, stream, arrivals[..last]);
      EndedStays(stream, s, arrivals[last]);
      if s.phase == Reading {
        StepCases(stream, s, arrivals[last]);
      }
    }
  }

  lemma {:induction false} UnbrokenEnds(stack: seq<byte>, stream: seq<byte>, arrivals: seq<Arrival>)
    requires |stack| == CAPACITY && NoErrors(arrivals) && |arrivals| > |stream|
    ensures Completed(Run(stack, stream, arrivals))
  {
    RunProgresses(stack, stream, arrivals);
  }

  /** The loop was left by itself, not because of a failing read. */
  predicate Completed(s: State) {
    s.phase.Full? || s.phase.Eof?
  }

  /** The whole behaviour of a connection that was not broken off, for every stream and every slicing:
      it has delivered exactly the deliverable frames, in order. It ended full exactly when the stream
      jams, which blocks everything behind the oversized frame, and otherwise at the end of the
      stream. */
  lemma {:induction false} ConnectionExact(stack: seq<byte>, stream: seq<byte>, arrivals: seq<Arrival>)
    requires |stack| == CAPACITY && Completed(Run(stack, stream, arrivals))
    ensures var s := Run(stack, stream, arrivals);
            && s.delivered == Deliverable(stream).payloads
            && s.phase == (if Jams(stream) then Full else Eof)
            && (if Jams(stream) then Tail(s) == Deliverable(stream).rest[..CAPACITY]
                else s.consumed == |stream| && Tail(s) == Deliverable(stream).rest)
  {
    RunInStep(stack, stream, arrivals);
    RunOnCourse(stack, stream, arrivals);
    RunConservesBytes(stack, stream, arrivals);
    EndedExact(stream, Run(stack, stream, arrivals));
  }

  lemma EndedExact(stream: seq<byte>, s: State)
    requires Valid(stream, s) && InStep(stream, s) && OnCourse(stream, s) && Incomplete(Tail(s))
    requires Completed(s)
    ensures s.delivered == Deliverable(stream).payloads
    ensures s.phase == (if Jams(stream) then Full else Eof)
    ensures if Jams(stream) then Tail(s) == Deliverable(stream).rest[..CAPACITY]
            else s.consumed == |stream| && Tail(s) == Deliverable(stream).rest
  {
    hide Parse, Deliverable;
    var more := stream[s.consumed..];
    NothingFurther(Tail(s), more);
    assert s.delivered + [] == s.delivered;
    if s.phase == Full {
      assert Deliverable(stream).rest[..CAPACITY] == Tail(s);
    } else {
      assert Tail(s) + more == Tail(s);
    }
  }

  /** Nothing more is deliverable behind a full buffer, or at the end of the stream. */
  lemma NothingFurther(tail: seq<byte>, more: seq<byte>)
    requires Incomplete(tail) && |tail| <= CAPACITY && (|tail| == CAPACITY || more == [])
    ensures Deliverable(tail + more) == Parsed([], tail + more)
  {
    if |tail| == CAPACITY {
      assert DeclaredLength(tail + more) == DeclaredLength(tail);
    } else {
      assert tail + more == tail;
    }
  }

  /** When every frame fits, any slicing delivers the one-shot parse of the whole stream. */
  lemma {:induction false} FittingStreamIsParsedWhole(stack: seq<byte>, stream: seq<byte>, arrivals: seq<Arrival>)
    requires |stack| == CAPACITY && Completed(Run(stack, stream, arrivals)) && AllFit(stream)
    ensures var s := Run(stack, stream, arrivals);
            Parse(stream) == Parsed(s.delivered, Tail(s)) && s.phase == Eof
  {
    AllFitDeliversAll(stream);
    ConnectionExact(stack, stream, arrivals);
  }

  /** An oversized frame is never delivered, nor is anything behind it, however long the run. */
  lemma {:induction false} OversizedBlocks(
      stack: seq<byte>, before: seq<seq<byte>>, jam: seq<byte>, arrivals: seq<Arrival>)
    requires |stack| == CAPACITY && Encodable(before) && Oversized(jam)
    requires forall i :: 0 <= i < |before| ==> |before[i]| <= CAPACITY - PREFIX
    ensures Run(stack, EncodeAll(before) + jam, arrivals).delivered <= before
  {
    var stream := EncodeAll(before) + jam;
    RunOnCourse(stack, stream, arrivals);
    DeliverableBefore(before, jam);
  }

  /** The buffer does fill: behind any frames that fit, 8192 bytes of an oversized one end the
      connection, with exactly the frames before it delivered. */
  lemma {:induction false} OversizedFills(
      stack: seq<byte>, before: seq<seq<byte>>, jam: seq<byte>, arrivals: seq<Arrival>)
    requires |stack| == CAPACITY && Encodable(before) && Oversized(jam) && |jam| >= CAPACITY
    requires forall i :: 0 <= i < |before| ==> |before[i]| <= CAPACITY - PREFIX
    requires Completed(Run(stack, EncodeAll(before) + jam, arrivals))
    ensures var s := Run(stack, EncodeAll(before) + jam, arrivals);
            s.phase == Full && s.delivered == before && Tail(s) == jam[..CAPACITY]
  {
    hide Run, Deliverable, EncodeAll;
    DeliverableBefore(before, jam);
    ConnectionExact(stack, EncodeAll(before) + jam, arrivals);
  }

  /** A stream and a slicing on which it does: a length word of 65535, all of it ready at once. */
  lemma {:induction false} FullIsReached(stack: seq<byte>)
    requires |stack| == CAPACITY
    ensures var jam := seq(8192, _ => 255);
            var s := Run(stack, jam, [Ready(8192)]);
            s.phase == Full && s.delivered == [] && Tail(s) == jam
  {
    var jam: seq<byte> := seq(CAPACITY, _ => 255);
    var s := State(stack, 0, 0, [], Reading);
    assert [Ready(CAPACITY)][..0] == [];
    assert Run(stack, jam, []) == s;
    assert jam[0..CAPACITY] == jam && Filled(stack, 0, jam) == jam;
    assert DeclaredLength(jam) == 65535;
    assert Run(stack, jam, [Ready(CAPACITY)]) == Receive(s, jam);
  }

  lemma {:induction false} DeliverableBefore(before: seq<seq<byte>>, rest: seq<byte>)
    requires Encodable(before) && (Oversized(rest) || Incomplete(rest))
    requires forall i :: 0 <= i < |before| ==> |before[i]| <= CAPACITY - PREFIX
    ensures Deliverable(EncodeAll(before) + rest) == Parsed(before, rest)
    decreases |before|
  {
    if before == [] {
      assert EncodeAll(before) + rest == rest;
    } else {
      hide Deliverable, Encode, Oversized, Incomplete;
      var more := EncodeAll(before[1..]) + rest;
      DeliverableBefore(before[1..], rest);
      DeliverableFirst(before[0], more);
      assert EncodeAll(before) + rest == Encode(before[0]) + more;
      assert before == [before[0]] + before[1..];
    }
  }

  lemma DeliverableFirst(payload: seq<byte>, more: seq<byte>)
    requires |payload| <= CAPACITY - PREFIX
    ensures Deliverable(Encode(payload) + more) == Deliverable(more).Prepend(payload)
  {
    hide Encode;
    FirstOfEncoded(payload, more);
  }

  /** A frame as the client writes it: two length bytes, the high one first, and the payload. */
  datatype Wire = Wire(high: byte, low: byte, payload: seq<byte>)

  predicate OnWire(f: Wire) {
    |f.payload| == 256 * f.high as int + f.low as int && |f.payload| <= 8190
  }

  function WireBytes(f: Wire): seq<byte> {
    [f.high, f.low] + f.payload
  }

  lemma WireIsEncoded(f: Wire)
    requires OnWire(f)
    ensures Encode(f.payload) == WireBytes(f)
  {
    assert |f.payload| / 256 == f.high && |f.payload| % 256 == f.low;
  }

  /** The length word is big-endian: a buffer that holds just such a frame gives its payload and is
      emptied. */
  lemma {:induction false} ExtractsWireFrame(buffer: seq<byte>, f: Wire)
    requires OnWire(f) && |buffer| == 8192 && buffer[..2 + |f.payload|] == WireBytes(f)
    ensures var e := Extract(buffer, 2 + |f.payload|);
            e.payloads == [f.payload] && e.blen == 0 && e.status == OK
  {
    hide Extract;
    ExtractIsParse(buffer, 2 + |f.payload|);
    WireIsEncoded(f);
    assert Incomplete([]);
    FirstOfEncoded(f.payload, []);
    assert Encode(f.payload) + [] == WireBytes(f);
    assert Parse(WireBytes(f)) == Parsed([f.payload], []);
  }

  function WireStream(frames: seq<Wire>): seq<byte> {
    Flatten(seq(|frames|, i requires 0 <= i < |frames| => WireBytes(frames[i])))
  }

  function WirePayloads(frames: seq<Wire>): seq<seq<byte>> {
    seq(|frames|, i requires 0 <= i < |frames| => frames[i].payload)
  }

  lemma {:induction false} WireStreamIsEncoded(frames: seq<Wire>)
    requires forall i :: 0 <= i < |frames| ==> OnWire(frames[i])
    ensures Encodable(WirePayloads(frames)) && EncodeAll(WirePayloads(frames)) == WireStream(frames)
    decreases |frames|
  {
    if frames != [] {
      WireStreamIsEncoded(frames[1..]);
      WireIsEncoded(frames[0]);
      assert WirePayloads(frames)[1..] == WirePayloads(frames[1..]);
      var parts := seq(|frames|, i requires 0 <= i < |frames| => WireBytes(frames[i]));
      assert parts[1..] == seq(|frames| - 1, i requires 0 <= i < |frames| - 1 => WireBytes(frames[1..][i]));
    }
  }

  /** A connection on which such frames arrive, in whatever slices, delivers exactly their payloads. */
  lemma {:induction false} ServesWireFrames(stack: seq<byte>, frames: seq<Wire>, arrivals: seq<Arrival>)
    requires |stack| == CAPACITY && Completed(Run(stack, WireStream(frames), arrivals))
    requires forall i :: 0 <= i < |frames| ==> OnWire(frames[i])
    ensures var s := Run(stack, WireStream(frames), arrivals);
            s.delivered == WirePayloads(frames) && s.phase == Eof && Tail(s) == []
  {
    hide Run, Deliverable, EncodeAll;
    WireStreamIsEncoded(frames);
    DeliverableBefore(WirePayloads(frames), []);
    assert WireStream(frames) + [] == WireStream(frames);
    ConnectionExact(stack, WireStream(frames), arrivals);
  }

  /** Running the loop on from here, with `done` delivered already, ends in `goal`. */
  ghost predicate Leads(done: seq<seq<byte>>, buffer: seq<byte>, blen: nat, goal: Extraction)
    requires PREFIX <= |buffer| && blen <= |buffer|
  {
    var e := ExtractLoop(buffer, blen);
    goal == e.(payloads := done + e.payloads)
  }

  lemma RoundLeads(done: seq<seq<byte>>, buffer: seq<byte>, blen: nat, goal: Extraction)
    requires PREFIX <= |buffer| && blen <= |buffer|
    requires Leads(done, buffer, blen, goal)
    ensures var r := OneRound(buffer, blen);
            if r.more then Leads(done + r.payloads, r.buffer, r.blen, goal)
            else goal == Extraction(r.buffer, r.blen, done + r.payloads, r.status)
  {
    var r := OneRound(buffer, blen);
    if r.more {
      Associative(done, r.payloads, ExtractLoop(r.buffer, r.blen).payloads);
    }
  }

  /** The thread's own variables. */
  class Connection {
    const buffer: array<byte>
    var bsize: nat
    var delivered: seq<seq<byte>>

    ghost predicate Valid()
      reads this
    {
      buffer.Length == CAPACITY && bsize <= CAPACITY
    }

    constructor ()
      ensures Valid() && fresh(buffer) && bsize == 0 && delivered == []
    {
      buffer := new byte[CAPACITY];
      bsize := 0;
      delivered := [];
    }

    /** `memmove` towards the front of the buffer, where the two areas may overlap. */
    method MoveDown(src: nat, n: nat)
      requires Valid() && src + n <= buffer.Length
      modifies buffer
      ensures buffer[..] == Moved(old(buffer[..]), src, n)
    {
      for i := 0 to n
        invariant buffer[..i] == old(buffer[src..src + i])
        invariant buffer[i..] == old(buffer[i..])
      {
        assert buffer[i..][src] == old(buffer[i..])[src];
        buffer[i] := buffer[src + i];
      }
      assert buffer[..] == buffer[..n] + buffer[n..];
    }

    method ExtractFrames() returns (status: Status)
      requires Valid()
      modifies this, buffer
      ensures Valid()
      ensures var e := Extract(old(buffer[..]), old(bsize));
              && buffer[..] == e.buffer && bsize == e.blen && status == e.status
              && delivered == old(delivered) + e.payloads
      ensures status != NO
    {
      ExtractIsParse(buffer[..], bsize);
      hide Parse;
      if bsize < PREFIX {
        return RETRY;
      }
      hide ExtractLoop;
      ghost var e := ExtractLoop(buffer[..], bsize);
      ghost var goal := e.(payloads := delivered + e.payloads);
      var more := true;
      status := RETRY;
      while more
        invariant Valid()
        invariant more ==> Leads(delivered, buffer[..], bsize, goal)
        invariant !more ==> goal == Extraction(buffer[..], bsize, delivered, status)
        decreases more, bsize
      {
        RoundLeads(delivered, buffer[..], bsize, goal);
        more, status := ExtractOne();
      }
    }

    /** One round of the loop. */
    method ExtractOne() returns (more: bool, status: Status)
      requires Valid()
      modifies this, buffer
      ensures Valid()
      ensures var r := OneRound(old(buffer[..]), old(bsize));
              && r == Round(buffer[..], bsize, r.payloads, more, status)
              && delivered == old(delivered) + r.payloads
    {
      var plen := buffer[0] as int * 256 + buffer[1];
      if bsize >= plen + PREFIX {
        delivered := delivered + [buffer[PREFIX..plen + PREFIX]];
        assert buffer[PREFIX..plen + PREFIX] == buffer[..][PREFIX..plen + PREFIX];
        MoveDown(plen + PREFIX, bsize - plen - PREFIX);
        bsize := bsize - plen - PREFIX;
        more, status := bsize != 0, OK;
      } else {
        more, status := false, RETRY;
      }
    }

    /** `read` into the free part of the buffer. */
    method Read(stream: seq<byte>, at: nat, count: Positive) returns (n: nat)
      requires Valid() && at <= |stream|
      modifies this`bsize, buffer
      ensures n == ReadCount(CAPACITY - old(bsize), |stream| - at, count)
      ensures Valid() && bsize == old(bsize) + n
      ensures buffer[..] == Filled(old(buffer[..]), old(bsize), stream[at..at + n])
    {
      n := ReadCount(CAPACITY - bsize, |stream| - at, count);
      forall i | 0 <= i < n {
        buffer[bsize + i] := stream[at + i];
      }
      bsize := bsize + n;
    }

    /** The object's fields with the loop's local variables. */
    ghost function View(consumed: nat, phase: Phase): State
      requires Valid()
      reads this, buffer
    {
      State(buffer[..], bsize, consumed, delivered, phase)
    }

    /** One round of the read loop; `consumed` is how far into its stream the client is. */
    method ServeOne(stream: seq<byte>, consumed: nat, a: Arrival) returns (n: nat, phase: Phase)
      requires Valid() && bsize < CAPACITY && consumed <= |stream|
      modifies this, buffer
      ensures Valid() && consumed + n <= |stream|
      ensures View(consumed + n, phase) == Step(stream, old(View(consumed, Reading)), a)
    {
      hide Extract, Filled, Step;
      ghost var s := View(consumed, Reading);
      StepCases(stream, s, a);
      n := 0;
      if a.Broken? {
        return n, Failed;
      }
      n := Read(stream, consumed, a.count);
      if n == 0 {
        FilledNone(s.buffer, s.bsize);
        return n, Eof;
      }
      var status := ExtractFrames();
      assert status != NO;
      phase := if bsize == CAPACITY then Full else Reading;
    }

    /** The loop of `socket_thread_exec`. */
    method Serve(stream: seq<byte>, arrivals: seq<Arrival>) returns (consumed: nat, phase: Phase)
      requires Valid() && bsize == 0 && delivered == []
      modifies this, buffer
      ensures Valid()
      ensures View(consumed, phase) == Run(old(buffer[..]), stream, arrivals)
    {
      hide Step, Parse;
      consumed, phase := 0, Reading;
      for i := 0 to |arrivals|
        invariant Valid() && consumed <= |stream|
        invariant View(consumed, phase) == Run(old(buffer[..]), stream, arrivals[..i])
      {
        assert arrivals[..i + 1][..i] == arrivals[..i];
        RunInStep(old(buffer[..]), stream, arrivals[..i]);
        EndedStays(stream, View(consumed, phase), arrivals[i]);
        if phase == Reading {
          var n;
          n, phase := ServeOne(stream, consumed, arrivals[i]);
          consumed := consumed + n;
        }
      }
      assert arrivals[..|arrivals|] == arrivals;
    }
  }
}
