/**
 How `ini_reader_string` cuts a text into the lines that the parser sees. `Chunks` is the only
 partition with the properties of `Proper` (`ChunksProper`, `ChunksUnique`).
 */
module IniReader {
  import opened Types

  const MAX_LINE := 200   // INI_MAX_LINE
  const ROOM := 199       // characters beside the terminating NUL

  /** How many characters one call takes from `s` when `room` fit. */
  function ChunkLength(s: string, room: nat): (n: nat)
    ensures n <= |s| && n <= room && (s != [] && room > 0 ==> n > 0)
    decreases room
  {
    if s == [] || room == 0 then 0
    else if s[0] == '\n' then 1
    else 1 + ChunkLength(s[1..], room - 1)
  }

  function Chunks(s: string): (chunks: seq<string>)
    decreases |s|
  {
    if s == [] then []
    else
      var n := ChunkLength(s, ROOM);
      [s[..n]] + Chunks(s[n..])
  }

  predicate EndsLine(s: string) {
    s != [] && s[|s| - 1] == '\n'
  }

  /** Not empty, not too long, and with a newline at most at its end. */
  predicate OneLine(s: string, room: nat) {
    0 < |s| <= room && forall i :: 0 <= i < |s| - 1 ==> s[i] != '\n'
  }

  /** Every chunk is such a line; it lacks a newline only if it is full or the last. */
  predicate Proper(chunks: seq<string>) {
    && (forall i :: 0 <= i < |chunks| ==> OneLine(chunks[i], ROOM))
    && (forall i :: 0 <= i < |chunks| - 1 ==> EndsLine(chunks[i]) || |chunks[i]| == ROOM)
  }

  lemma {:induction false} ChunkIsOneLine(s: string, room: nat)
    requires s != [] && room > 0
    ensures var n := ChunkLength(s, room);
            OneLine(s[..n], room) && (EndsLine(s[..n]) || n == room || n == |s|)
    decreases room
  {
    if s[0] != '\n' && |s| > 1 && room > 1 {
      ChunkIsOneLine(s[1..], room - 1);
      var n := ChunkLength(s, room);
      assert s[1..][..n - 1] == s[..n][1..];
      forall i | 0 <= i < n - 1 ensures s[..n][i] != '\n' {
        if i > 0 {
          assert s[..n][1..][i - 1] == s[i];
        }
      }
    }
  }

  lemma ProperCons(line: string, rest: seq<string>)
    requires OneLine(line, ROOM) && Proper(rest) && (rest == [] || EndsLine(line) || |line| == ROOM)
    ensures Proper([line] + rest)
  {
    var chunks := [line] + rest;
    assert forall i :: 0 < i < |chunks| ==> chunks[i] == rest[i - 1];
  }

  /** The chunks concatenate to the text, and are proper. */
  lemma {:induction false} ChunksProper(s: string)
    ensures Flatten(Chunks(s)) == s && Proper(Chunks(s))
    ensures forall i :: 0 <= i < |Chunks(s)| ==> 0 < |Chunks(s)[i]| <= 199
    decreases |s|
  {
    hide ChunkLength, EndsLine;
    if s != [] {
      var n := ChunkLength(s, ROOM);
      var line, rest := s[..n], Chunks(s[n..]);
      ChunkIsOneLine(s, ROOM);
      ChunksProper(s[n..]);
      assert rest == [] <==> n == |s|;
      ProperCons(line, rest);
      assert ([line] + rest)[1..] == rest;
      assert line + s[n..] == s;
    }
  }

  lemma {:induction false} FirstChunk(line: string, rest: string, room: nat)
    requires OneLine(line, room) && (rest == [] || EndsLine(line) || |line| == room)
    ensures ChunkLength(line + rest, room) == |line|
    decreases room
  {
    var s := line + rest;
    if |line| > 1 {
      assert line[0] != '\n' && s[1..] == line[1..] + rest;
      assert forall i :: 0 <= i < |line| - 2 ==> line[1..][i] == line[i + 1];
      FirstChunk(line[1..], rest, room - 1);
    }
  }

  /** No other partition of a text is proper. */
  lemma {:induction false} ChunksUnique(chunks: seq<string>)
    requires Proper(chunks)
    ensures Chunks(Flatten(chunks)) == chunks
    decreases |chunks|
  {
    if chunks != [] {
      var line, rest := chunks[0], Flatten(chunks[1..]);
      ChunksUnique(chunks[1..]);
      assert chunks == [line] + chunks[1..];
      FirstChunk(line, rest, ROOM);
      assert (line + rest)[..|line|] == line && (line + rest)[|line|..] == rest;
    }
  }

  /** A text can be cut at any end of line and the pieces read on their own. */
  lemma {:induction false} ChunksConcat(a: string, b: string)
    requires a == [] || EndsLine(a)
    ensures Chunks(a + b) == Chunks(a) + Chunks(b)
  {
    ChunksProper(a);
    ChunksProper(b);
    FlattenAppend(Chunks(a), Chunks(b));
    if a == [] {
      assert a + b == b;
    } else {
      LastEndsLine(Chunks(a));
      ProperConcat(Chunks(a), Chunks(b));
      ChunksUnique(Chunks(a) + Chunks(b));
    }
  }

  lemma {:induction false} LastEndsLine(chunks: seq<string>)
    requires Proper(chunks) && EndsLine(Flatten(chunks))
    ensures chunks != [] && EndsLine(chunks[|chunks| - 1])
  {
    if chunks != [] {
      var n := |chunks| - 1;
      assert chunks == chunks[..n] + [chunks[n]];
      FlattenAppend(chunks[..n], [chunks[n]]);
      FlattenOne(chunks[n]);
    }
  }

  lemma ProperConcat(a: seq<string>, b: seq<string>)
    requires Proper(a) && Proper(b) && (a == [] || EndsLine(a[|a| - 1]))
    ensures Proper(a + b)
  {
  }
}
