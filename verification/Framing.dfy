/**
 Messages on a connection are framed with a two-byte big-endian length.

 `Parse` is the one-shot reading of a whole byte stream. It is pinned down independently of how it
 computes: it is the only way to write a stream as encoded payloads followed by an incomplete frame
 (`ParseSound`, `ParseUnique`).
 */
module Framing {
  import opened Types

  const CAPACITY := 8192   // MAX_BUFFER_SIZE
  const PREFIX := 2        // sizeof(uint16_t)

  /** The length word at the front of `s`, as `ntohs` reads it. */
  function DeclaredLength(s: seq<byte>): (n: nat)
    requires |s| >= PREFIX
    ensures n < 0x1_0000
  {
    s[0] as int * 256 + s[1]
  }

  function Encode(payload: seq<byte>): (frame: seq<byte>)
    requires |payload| < 0x1_0000
    ensures |frame| == |payload| + PREFIX
    ensures DeclaredLength(frame) == |payload| && frame[PREFIX..] == payload
  {
    [|payload| / 256, |payload| % 256] + payload
  }

  ghost predicate Encodable(payloads: seq<seq<byte>>) {
    forall i :: 0 <= i < |payloads| ==> |payloads[i]| < 0x1_0000
  }

  ghost function EncodeAll(payloads: seq<seq<byte>>): seq<byte>
    requires Encodable(payloads)
  {
    if payloads == [] then [] else Encode(payloads[0]) + EncodeAll(payloads[1..])
  }

  /** No whole frame at the front of `s`. */
  predicate Incomplete(s: seq<byte>) {
    |s| < PREFIX || |s| < DeclaredLength(s) + PREFIX
  }

  function FirstPayload(s: seq<byte>): (payload: seq<byte>)
    requires !Incomplete(s)
    ensures |payload| == DeclaredLength(s)
  {
    s[PREFIX..DeclaredLength(s) + PREFIX]
  }

  function AfterFirst(s: seq<byte>): (tail: seq<byte>)
    requires !Incomplete(s)
    ensures |tail| == |s| - DeclaredLength(s) - PREFIX
  {
    s[DeclaredLength(s) + PREFIX..]
  }

  lemma FirstDecomposes(s: seq<byte>)
    requires !Incomplete(s)
    ensures s == Encode(FirstPayload(s)) + AfterFirst(s)
  {
    var n := DeclaredLength(s);
    var frame := Encode(FirstPayload(s));
    assert frame[0] == s[0] && frame[1] == s[1];
    assert s == s[..PREFIX] + s[PREFIX..n + PREFIX] + s[n + PREFIX..];
  }

  lemma FirstOfEncoded(payload: seq<byte>, more: seq<byte>)
    requires |payload| < 0x1_0000
    ensures var s := Encode(payload) + more;
            !Incomplete(s) && FirstPayload(s) == payload && AfterFirst(s) == more
  {
    var s := Encode(payload) + more;
    assert s[0] == Encode(payload)[0] && s[1] == Encode(payload)[1];
    assert DeclaredLength(s) == |payload|;
    assert s[PREFIX..|payload| + PREFIX] == payload;
    assert s[|payload| + PREFIX..] == more;
  }

  /** Bytes that arrive later do not change the first whole frame. */
  lemma FirstOfExtended(s: seq<byte>, more: seq<byte>)
    requires !Incomplete(s)
    ensures !Incomplete(s + more) && DeclaredLength(s + more) == DeclaredLength(s)
    ensures FirstPayload(s + more) == FirstPayload(s)
    ensures AfterFirst(s + more) == AfterFirst(s) + more
  {
  }

  datatype Parsed = Parsed(payloads: seq<seq<byte>>, rest: seq<byte>) {
    function Prepend(payload: seq<byte>): Parsed {
      Parsed([payload] + payloads, rest)
    }
    /** This parse, followed by one of the bytes left over and more. */
    function Then(next: Parsed): Parsed {
      Parsed(payloads + next.payloads, next.rest)
    }
  }

  lemma PrependThen(payload: seq<byte>, a: Parsed, b: Parsed)
    ensures a.Prepend(payload).Then(b) == a.Then(b).Prepend(payload)
  {
    assert [payload] + (a.payloads + b.payloads) == ([payload] + a.payloads) + b.payloads;
  }

  lemma ThenThen(a: Parsed, b: Parsed, c: Parsed)
    ensures a.Then(b.Then(c)) == a.Then(b).Then(c)
  {
    assert a.payloads + (b.payloads + c.payloads) == (a.payloads + b.payloads) + c.payloads;
  }

  /** All whole frames of `s`, in order, and what is left. */
  function Parse(s: seq<byte>): Parsed
    decreases |s|
  {
    if Incomplete(s) then Parsed([], s) else Parse(AfterFirst(s)).Prepend(FirstPayload(s))
  }

  lemma EncodePrepended(payload: seq<byte>, payloads: seq<seq<byte>>)
    requires |payload| < 0x1_0000 && Encodable(payloads)
    ensures Encodable([payload] + payloads)
    ensures EncodeAll([payload] + payloads) == Encode(payload) + EncodeAll(payloads)
  {
    assert ([payload] + payloads)[1..] == payloads;
  }

  lemma PrependKeepsBytes(s: seq<byte>, tail: Parsed)
    requires !Incomplete(s) && Encodable(tail.payloads)
    requires EncodeAll(tail.payloads) + tail.rest == AfterFirst(s)
    ensures Encodable(tail.Prepend(FirstPayload(s)).payloads)
    ensures EncodeAll(tail.Prepend(FirstPayload(s)).payloads) + tail.rest == s
  {
    var frame, rest := Encode(FirstPayload(s)), EncodeAll(tail.payloads);
    EncodePrepended(FirstPayload(s), tail.payloads);
    FirstDecomposes(s);
    assert (frame + rest) + tail.rest == frame + (rest + tail.rest);
  }

  /** Nothing is lost or invented: re-encoding the payloads gives the stream back. */
  lemma {:induction false} ParseSound(s: seq<byte>)
    ensures Encodable(Parse(s).payloads)
    ensures EncodeAll(Parse(s).payloads) + Parse(s).rest == s
    ensures Incomplete(Parse(s).rest)
    decreases |s|
  {
    if Incomplete(s) {
    } else {
      ParseSound(AfterFirst(s));
      PrependKeepsBytes(s, Parse(AfterFirst(s)));
    }
  }

  /** The decomposition found by `Parse` is the only one. */
  lemma {:induction false} ParseUnique(payloads: seq<seq<byte>>, rest: seq<byte>)
    requires Encodable(payloads) && Incomplete(rest)
    ensures Parse(EncodeAll(payloads) + rest) == Parsed(payloads, rest)
    decreases |payloads|
  {
    if payloads == [] {
      assert EncodeAll(payloads) + rest == rest;
    } else {
      hide EncodeAll, Encode;
      ParseUnique(payloads[1..], rest);
      var first, others := payloads[0], payloads[1..];
      assert payloads == [first] + others;
      EncodePrepended(first, others);
      Associative(Encode(first), EncodeAll(others), rest);
      FirstOfEncoded(first, EncodeAll(others) + rest);
    }
  }

  /** A parse can be suspended at any byte and resumed from its leftover. */
  lemma {:induction false} ParseResume(s: seq<byte>, more: seq<byte>)
    ensures Parse(s + more) == Parse(s).Then(Parse(Parse(s).rest + more))
    decreases |s|
  {
    if Incomplete(s) {
    } else {
      FirstOfExtended(s, more);
      ParseResume(AfterFirst(s), more);
      var tail := Parse(AfterFirst(s));
      PrependThen(FirstPayload(s), tail, Parse(tail.rest + more));
    }
  }

  /** A frame too long ever to fit in the buffer together with its prefix. */
  predicate Oversized(s: seq<byte>) {
    |s| >= PREFIX && DeclaredLength(s) > CAPACITY - PREFIX
  }

  /** The frames that precede the first incomplete or oversized one. */
  function Deliverable(s: seq<byte>): Parsed
    decreases |s|
  {
    if Incomplete(s) || Oversized(s) then
      Parsed([], s)
    else
      Deliverable(AfterFirst(s)).Prepend(FirstPayload(s))
  }

  /** The stream holds a whole buffer's worth of an oversized frame. */
  predicate Jams(s: seq<byte>) {
    |Deliverable(s).rest| >= CAPACITY
  }

  /** Every frame of the stream, the unfinished last one included, fits the buffer. */
  predicate AllFit(s: seq<byte>)
    decreases |s|
  {
    !Oversized(s) && (!Incomplete(s) ==> AllFit(AfterFirst(s)))
  }

  lemma {:induction false} AllFitDeliversAll(s: seq<byte>)
    requires AllFit(s)
    ensures Deliverable(s) == Parse(s) && !Jams(s)
    decreases |s|
  {
    if !Incomplete(s) {
      AllFitDeliversAll(AfterFirst(s));
    }
  }

  /** What jams a stream is an oversized frame, with all deliverable frames before it. */
  lemma {:induction false} DeliverableSound(s: seq<byte>)
    ensures Encodable(Deliverable(s).payloads)
    ensures EncodeAll(Deliverable(s).payloads) + Deliverable(s).rest == s
    ensures Incomplete(Deliverable(s).rest) || Oversized(Deliverable(s).rest)
    ensures Jams(s) ==> Oversized(Deliverable(s).rest)
    ensures forall i :: 0 <= i < |Deliverable(s).payloads| ==>
              |Deliverable(s).payloads[i]| <= CAPACITY - PREFIX
    decreases |s|
  {
    if Incomplete(s) || Oversized(s) {
    } else {
      DeliverableSound(AfterFirst(s));
      PrependKeepsBytes(s, Deliverable(AfterFirst(s)));
    }
  }

  /** Parsing a buffer's worth of bytes, then going on, finds the same deliverable frames. */
  lemma {:induction false} DeliverableResume(s: seq<byte>, more: seq<byte>)
    requires |s| <= CAPACITY
    ensures Deliverable(s + more) == Parse(s).Then(Deliverable(Parse(s).rest + more))
    decreases |s|
  {
    if Incomplete(s) {
    } else {
      FirstOfExtended(s, more);
      DeliverableResume(AfterFirst(s), more);
      var tail := Parse(AfterFirst(s));
      PrependThen(FirstPayload(s), tail, Deliverable(tail.rest + more));
    }
  }
}
