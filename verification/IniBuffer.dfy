/**
 The parser as it works: NULs written into the line buffer, names copied into fixed arrays.
 Its contract is the machine on sequences, `IniMachine`.
 */
module IniBuffer {
  import opened CStrings
  import opened IniText
  import opened IniReader
  import opened IniMachine

  /** `rstrip`: blanks at the end are overwritten with NULs. */
  method RStrip(a: array<char>, i: nat, ghost s: string)
    requires StrAt(a[..], i, s)
    modifies a
    ensures StrAt(a[..], i, RTrim(s))
    ensures forall k :: 0 <= k < a.Length && !(i <= k < i + |s|) ==> a[k] == old(a[k])
  {
    hide RTrim;
    var n := StrLen(a, i, s);
    var p := i + n;
    assert a[i..i + n] == a[..][i..i + n] == s;
    while p > i && IsSpace(a[p - 1])
      invariant i <= p <= i + n && a[p] == NUL
      invariant a[i..p] == s[..p - i]
      invariant forall j :: p - i <= j < n ==> IsSpace(s[j])
      invariant forall k :: 0 <= k < a.Length && !(i <= k < i + |s|) ==> a[k] == old(a[k])
    {
      assert a[p - 1] == a[i..p][p - 1 - i] == s[p - 1 - i];
      p := p - 1;
      a[p] := NUL;
    }
    assert p > i ==> a[p - 1] == a[i..p][p - 1 - i] == s[p - 1 - i];
    RTrimIs(s, p - i);
    assert a[..][i..p] == s[..p - i];
  }

  /** `lskip`. */
  method LSkip(a: array<char>, i: nat, ghost s: string) returns (p: nat)
    requires StrAt(a[..], i, s)
    ensures p == i + |s| - |LTrim(s)| && StrAt(a[..], p, LTrim(s))
  {
    hide LTrim;
    p := i;
    ghost var b := a[..];
    CharAt(b, i, s, 0);
    while a[p] != NUL && IsSpace(a[p])
      invariant i <= p <= i + |s|
      invariant forall j :: 0 <= j < p - i ==> IsSpace(s[j])
      invariant a[p] == if p < i + |s| then s[p - i] else NUL
      decreases i + |s| - p
    {
      p := p + 1;
      CharAt(b, i, s, p - i);
    }
    CharAt(b, i, s, p - i);
    LTrimIs(s, p - i);
    SuffixAt(b, i, s, p - i);
  }

  /** `find_chars_or_comment`; no delimiters stand for a null `chars`. */
  method FindCharsOrComment(a: array<char>, i: nat, delimiters: string, ghost s: string) returns (p: nat)
    requires StrAt(a[..], i, s)
    ensures p == i + Find(s, delimiters)
  {
    p := i;
    var wasSpace := false;
    CharAt(a[..], i, s, 0);
    while a[p] != NUL && a[p] !in delimiters && !(wasSpace && a[p] == ';')
      invariant i <= p <= i + |s| && NoStop(s, delimiters, p - i)
      invariant a[p] == if p < i + |s| then s[p - i] else NUL
      invariant wasSpace == (p > i && IsSpace(s[p - i - 1]))
      decreases i + |s| - p
    {
      wasSpace := IsSpace(a[p]);
      p := p + 1;
      CharAt(a[..], i, s, p - i);
    }
    CharAt(a[..], i, s, p - i);
    FindIs(s, delimiters, p - i);
  }

  /** `strncpy0` into an array of 50. */
  method StrNCpy0(dest: array<char>, a: array<char>, i: nat, ghost s: string)
    requires dest.Length == NAME_LIMIT + 1 && dest != a && StrAt(a[..], i, s)
    modifies dest
    ensures StrAt(dest[..], 0, Truncate(s))
  {
    var size := dest.Length;
    var j := 0;
    CharAt(a[..], i, s, 0);
    while j < size && a[i + j] != NUL
      invariant 0 <= j <= size && j <= |s|
      invariant dest[..j] == s[..j]
      invariant a[i + j] == if j < |s| then s[j] else NUL
    {
      CharAt(a[..], i, s, j);
      dest[j] := a[i + j];
      j := j + 1;
      CharAt(a[..], i, s, j);
    }
    CharAt(a[..], i, s, j);
    ghost var n := j;
    while j < size
      invariant n <= j <= size
      invariant dest[..n] == s[..n]
      invariant forall k :: n <= k < j ==> dest[k] == NUL
    {
      dest[j] := NUL;
      j := j + 1;
    }
    dest[size - 1] := NUL;
    ghost var t := Truncate(s);
    assert dest[..][0..|t|] == t;
  }

  /** The variables of `ini_parse_stream` and the context of `ini_reader_string`. */
  class Parser {
    const line: array<char>
    const section: array<char>
    const prevName: array<char>
    var lineno: nat
    var error: nat
    var calls: seq<Call>
    const text: string
    var pos: nat

    ghost predicate Valid()
      reads this, section, prevName
    {
      && line.Length == MAX_LINE
      && section.Length == NAME_LIMIT + 1 && prevName.Length == NAME_LIMIT + 1
      && line != section && line != prevName && section != prevName
      && StrAt(section[..], 0, CStr(section[..])) && StrAt(prevName[..], 0, CStr(prevName[..]))
      && pos <= |text| && NUL !in text
    }

    ghost function View(): State
      reads this, section, prevName
    {
      State(CStr(section[..]), CStr(prevName[..]), lineno, error, calls)
    }

    constructor (text: string)
      requires NUL !in text
      ensures Valid() && View() == START && fresh(line) && fresh(section) && fresh(prevName)
      ensures this.text == text && pos == 0
    {
      line := new char[MAX_LINE];
      section := new char[NAME_LIMIT + 1](_ => NUL);
      prevName := new char[NAME_LIMIT + 1](_ => NUL);
      lineno, error, calls := 0, 0, [];
      this.text, pos := text, 0;
      new;
      CStrOf(section[..], 0, "");
      CStrOf(prevName[..], 0, "");
    }

    method Fail()
      requires Valid()
      modifies this
      ensures Valid() && pos == old(pos)
      ensures View() == IniMachine.Fail(old(View()))
    {
      if error == 0 {
        error := lineno;
      }
    }

    /** `HANDLER`. */
    method Invoke(accepts: Handler, name: string, value: string)
      requires Valid()
      modifies this
      ensures Valid() && pos == old(pos)
      ensures View() == IniMachine.Invoke(accepts, old(View()), name, value)
    {
      var sec := Text(section, 0, CStr(section[..]));
      calls := calls + [Call(sec, name, value, lineno)];
      if !accepts(calls) {
        Fail();
      }
    }

    /** A line whose first character is '['. */
    method SectionBranch(accepts: Handler, start: nat, ghost body: string)
      requires Valid() && StrAt(line[..], start, body) && body != []
      modifies this, line, section, prevName
      ensures Valid() && pos == old(pos)
      ensures View() == Effect(accepts, old(View()), SectionLine(body))
    {
      hide Find, CStr, Truncate, IniMachine.Fail;
      SuffixAt(line[..], start, body, 1);
      ghost var rest := body[1..];
      var end := FindCharsOrComment(line, start + 1, "]", rest);
      ghost var e := Find(rest, "]");
      CharAt(line[..], start + 1, rest, e);
      if line[end] == ']' {
        CutAt(line[..], start + 1, rest, e);
        line[end] := NUL;
        StrNCpy0(section, line, start + 1, rest[..e]);
        prevName[0] := NUL;
        CStrOf(section[..], 0, Truncate(rest[..e]));
        CStrOf(prevName[..], 0, "");
      } else {
        Fail();
      }
    }

    /** A line that must be a pair. */
    method PairBranch(accepts: Handler, start: nat, ghost body: string)
      requires Valid() && StrAt(line[..], start, body)
      modifies this, line, prevName
      ensures Valid() && pos == old(pos)
      ensures View() == Effect(accepts, old(View()), PairLine(body))
    {
      hide RTrim, Find, CStr, ValueOf, Effect;
      var end := FindCharsOrComment(line, start, "=:", body);
      ghost var e := Find(body, "=:");
      CharAt(line[..], start, body, e);
      if line[end] == '=' || line[end] == ':' {
        ghost var raw, key := body[e + 1..], RTrim(body[..e]);
        CutKey(start, end, body);
        var value := ValueBranch(start, key, end + 1, raw);
        Record(accepts, start, key, value, ValueOf(raw));
      } else {
        MalformedLine(accepts);
      }
    }

    method MalformedLine(accepts: Handler)
      requires Valid()
      modifies this
      ensures Valid() && pos == old(pos)
      ensures View() == Effect(accepts, old(View()), Malformed)
    {
      Fail();
    }

    /** A valid pair: remember its name and call the handler. */
    method Record(accepts: Handler, name: nat, ghost key: string, value: nat, ghost val: string)
      requires Valid() && StrAt(line[..], name, key) && StrAt(line[..], value, val)
      modifies this, prevName
      ensures Valid() && pos == old(pos)
      ensures View() == Effect(accepts, old(View()), Pair(key, val))
    {
      hide CStr, IniMachine.Invoke;
      StrNCpy0(prevName, line, name, key);
      CStrOf(prevName[..], 0, Truncate(key));
      var n := Text(line, name, key);
      var v := Text(line, value, val);
      Invoke(accepts, n, v);
    }

    /** Ends the key at the delimiter and trims it; the value is behind. */
    method CutKey(start: nat, end: nat, ghost body: string)
      requires Valid() && StrAt(line[..], start, body) && start <= end < start + |body|
      modifies line
      ensures StrAt(line[..], start, RTrim(body[..end - start]))
      ensures StrAt(line[..], end + 1, body[end - start + 1..])
    {
      hide RTrim;
      ghost var before := line[..];
      CutAt(before, start, body, end - start);
      line[end] := NUL;
      ghost var cut := line[..];
      assert cut == before[end := NUL];
      RStrip(line, start, body[..end - start]);
      Untouched(cut, line[..], end + 1, body[end - start + 1..]);
    }

    /** Cuts the comment off the value behind the key and trims it. */
    method ValueBranch(start: nat, ghost key: string, at: nat, ghost raw: string) returns (value: nat)
      requires Valid() && StrAt(line[..], start, key) && start + |key| < at
      requires StrAt(line[..], at, raw)
      modifies line
      ensures StrAt(line[..], start, key) && StrAt(line[..], value, ValueOf(raw))
    {
      hide RTrim, LTrim, Find;
      CutComment(start, key, at, raw);
      ghost var v := raw[..Find(raw, "")];
      value := LSkip(line, at, v);
      ghost var before := line[..];
      RStrip(line, value, LTrim(v));
      Untouched(before, line[..], start, key);
    }

    method CutComment(start: nat, ghost key: string, at: nat, ghost raw: string)
      requires Valid() && StrAt(line[..], start, key) && start + |key| < at
      requires StrAt(line[..], at, raw)
      modifies line
      ensures StrAt(line[..], start, key) && StrAt(line[..], at, raw[..Find(raw, "")])
    {
      hide Find;
      var end := FindCharsOrComment(line, at, "", raw);
      ghost var before, e := line[..], Find(raw, "");
      CharAt(before, at, raw, e);
      if line[end] != NUL {
        CutAt(before, at, raw, e);
        line[end] := NUL;
        assert line[..] == before[end := NUL];
        Untouched(before, line[..], start, key);
      } else {
        assert raw[..e] == raw;
      }
    }

    /** The body of the loop: one line in the buffer. */
    method ParseLine(accepts: Handler, ghost s: string)
      requires Valid() && StrAt(line[..], 0, s)
      modifies this, line, section, prevName
      ensures Valid() && pos == old(pos)
      ensures View() == Step(accepts, old(View()), s)
    {
      hide ClassifyBody, Body, Indented, CStr, Effect;
      var first := lineno == 0;
      lineno := lineno + 1;
      var start := Locate(first, s);
      Dispatch(accepts, start, Body(s, first));
    }

    /** The chain of tests on the first character of the body. */
    method Dispatch(accepts: Handler, start: nat, ghost body: string)
      requires Valid() && StrAt(line[..], start, body)
      modifies this, line, section, prevName
      ensures Valid() && pos == old(pos)
      ensures View() == Effect(accepts, old(View()), ClassifyBody(body, start > 0, old(View().prevName)))
    {
      hide SectionLine, PairLine, CStr, IniMachine.Invoke, IniMachine.Fail;
      ghost var prev := CStr(prevName[..]);
      CharAt(line[..], start, body, 0);
      CharAt(prevName[..], 0, prev, 0);
      if line[start] == ';' || line[start] == '#' {
      } else if prevName[0] != NUL && line[start] != NUL && start > 0 {
        var name := Text(prevName, 0, prev);
        var value := Text(line, start, body);
        Invoke(accepts, name, value);
      } else if line[start] == '[' {
        SectionBranch(accepts, start, body);
      } else if line[start] != NUL {
        PairBranch(accepts, start, body);
      }
    }

    /** Strips the line and finds where its body starts. */
    method Locate(first: bool, ghost s: string) returns (start: nat)
      requires Valid() && StrAt(line[..], 0, s)
      modifies line
      ensures StrAt(line[..], start, Body(s, first))
      ensures start > 0 <==> Indented(s, first)
    {
      hide RTrim, LTrim;
      start := SkipBom(first, s);
      ghost var t := AfterBom(s, first);
      RStrip(line, start, t);
      start := LSkip(line, start, RTrim(t));
    }

    /** The start of the line behind a byte order mark, if this is the first line. */
    method SkipBom(first: bool, ghost s: string) returns (start: nat)
      requires Valid() && StrAt(line[..], 0, s)
      ensures start == |s| - |AfterBom(s, first)| && StrAt(line[..], start, AfterBom(s, first))
    {
      forall k | 0 <= k <= |s| ensures line[k] == if k < |s| then s[k] else NUL {
        CharAt(line[..], 0, s, k);
      }
      start := 0;
      if first && line[0] == BOM[0] && line[1] == BOM[1] && line[2] == BOM[2] {
        assert BOM <= s;
        SuffixAt(line[..], 0, s, 3);
        start := 3;
      }
    }

    /** `ini_reader_string`. */
    method ReadLine() returns (ok: bool)
      requires Valid()
      modifies this`pos, line
      ensures Valid() && View() == old(View())
      ensures ok <==> old(pos) < |text|
      ensures var left := text[old(pos)..];
              if ok then var n := ChunkLength(left, ROOM);
                         pos == old(pos) + n && StrAt(line[..], 0, left[..n])
              else pos == old(pos)
    {
      if pos == |text| {
        return false;
      }
      ghost var left := text[pos..];
      var k := CopyLine();
      line[k] := NUL;
      assert line[..][0..k] == left[..k];
      return true;
    }

    /** The loop of `ini_reader_string`. */
    method CopyLine() returns (k: nat)
      requires Valid()
      modifies this`pos, line
      ensures var left := text[old(pos)..];
              k == ChunkLength(left, ROOM) && pos == old(pos) + k && line[..k] == left[..k]
    {
      hide ChunkLength;
      ghost var left := text[pos..];
      var num, ended := MAX_LINE, false;
      k := 0;
      ChunkUnfolds(left, 0, ROOM);
      while num > 1 && pos < |text| && !ended
        invariant 0 <= k < MAX_LINE && pos == old(pos) + k && pos <= |text|
        invariant if ended then k == ChunkLength(left, ROOM)
                  else num == MAX_LINE - k && k + ChunkLength(left[k..], ROOM - k) == ChunkLength(left, ROOM)
        invariant line[..k] == left[..k]
      {
        ChunkUnfolds(left, k, ROOM - k);
        var c := text[pos];
        line[k] := c;
        pos, k := pos + 1, k + 1;
        if c == '\n' {
          ended := true;
        } else {
          num := num - 1;
        }
      }
      if !ended {
        ChunkUnfolds(left, k, ROOM - k);
      }
    }

    /** `ini_parse_stream` over the string reader. */
    method Parse(accepts: Handler) returns (result: nat)
      requires Valid() && pos == 0 && View() == START
      modifies this, line, section, prevName
      ensures Valid() && pos == |text|
      ensures View() == ParseText(accepts, text)
      ensures result == ParseText(accepts, text).error
    {
      hide Step, Chunks, CStr;
      ghost var read: seq<string> := [];
      assert text[0..] == text && [] + Chunks(text) == Chunks(text);
      var more := true;
      while more
        invariant Valid()
        invariant View() == Run(accepts, read)
        invariant Chunks(text) == read + Chunks(text[pos..])
        invariant !more ==> pos == |text|
        decreases |text| - pos, more
      {
        ghost var left := text[pos..];
        more := ReadLine();
        if more {
          ghost var chunk := left[..ChunkLength(left, ROOM)];
          ReadOn(read, left);
          assert left[|chunk|..] == text[pos..];
          ParseLine(accepts, chunk);
          assert (read + [chunk])[..|read|] == read;
          read := read + [chunk];
        }
      }
      NoChunks(text[pos..]);
      assert read + [] == read;
      result := error;
    }
  }

  lemma ChunkUnfolds(s: string, k: nat, room: nat)
    requires k <= |s|
    ensures ChunkLength(s[k..], room) ==
            if k == |s| || room == 0 then 0
            else if s[k] == '\n' then 1
            else 1 + ChunkLength(s[k + 1..], room - 1)
    ensures k == 0 ==> s[k..] == s
  {
    if k < |s| {
      assert s[k..][1..] == s[k + 1..];
    }
  }

  lemma ReadOn(read: seq<string>, left: string)
    requires left != []
    ensures var n := ChunkLength(left, ROOM);
            read + Chunks(left) == (read + [left[..n]]) + Chunks(left[n..])
  {
  }

  /** `ini_parse_string`: the text before the terminating NUL, parsed. */
  method ParseString(accepts: Handler, text: string) returns (result: nat, calls: seq<Call>)
    requires NUL !in text
    ensures result == ParseText(accepts, text).error
    ensures calls == ParseText(accepts, text).calls
  {
    var parser := new Parser(text);
    result := parser.Parse(accepts);
    calls := parser.calls;
  }
}
