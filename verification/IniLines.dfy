/**
 What a line does, read off its text: the cases of `ini_parse_stream` for lines of every shape.
 */
module IniLines {
  import opened Types
  import opened IniText
  import opened IniMachine

  /** The step made exactly one call, for the section in force. */
  predicate Called(accepts: Handler, s: State, s': State, name: string, value: string) {
    && s'.calls == s.calls + [Call(s.section, name, value, s.lineno + 1)]
    && s'.section == s.section && s'.lineno == s.lineno + 1
    && s'.error == if s.error == 0 && !accepts(s'.calls) then s.lineno + 1 else s.error
  }

  /** A byte order mark would be skipped. */
  predicate StartsWithBom(s: State, line: string) {
    s.lineno == 0 && BOM <= line
  }

  /** While a name is in force, an indented text that is no comment is passed to the handler, whole,
      under that name. */
  lemma {:induction false} ContinuationStep(accepts: Handler, s: State, l: string, core: string, r: string)
    requires AllSpace(l) && l != [] && AllSpace(r) && s.prevName != ""
    requires Trimmed(core) && core != [] && core[0] != ';' && core[0] != '#'
    ensures var s' := Step(accepts, s, l + core + r);
            Called(accepts, s, s', s.prevName, core) && s'.prevName == s.prevName
  {
    hide Body, Indented, SectionLine, PairLine;
    IndentedBody(l, core, r, s.lineno == 0);
  }

  lemma IndentedBody(l: string, core: string, r: string, first: bool)
    requires AllSpace(l) && l != [] && AllSpace(r) && Trimmed(core) && core != []
    ensures Body(l + core + r, first) == core && Indented(l + core + r, first)
  {
    hide LTrim, RTrim;
    var line := l + core + r;
    assert line[0] == l[0] && IsSpace(l[0]) && !IsSpace(BOM[0]);
    assert AfterBom(line, first) == line;
    TrimUnique(line, l, core, r);
    assert (l + core)[|l + core| - 1] == core[|core| - 1];
    TrimmedBack(l + core, r);
  }

  lemma UnindentedBody(line: string, first: bool)
    requires line != [] && !IsSpace(line[0]) && (first ==> !(BOM <= line))
    ensures Body(line, first) == RTrim(line) && !Indented(line, first)
    ensures Body(line, first) != [] && Body(line, first)[0] == line[0]
  {
    hide LTrim, RTrim;
    var t := RTrim(line);
    assert t != [] && t[0] == line[0];
    LTrimIs(t, 0);
    assert t[0..] == t;
  }

  /** What a line that starts with a non-blank does, by its trimmed text. */
  lemma UnindentedEffect(accepts: Handler, s: State, line: string)
    requires line != [] && !IsSpace(line[0]) && !StartsWithBom(s, line)
    requires line[0] != ';' && line[0] != '#'
    ensures var body := RTrim(line);
            && body != [] && body[0] == line[0]
            && Step(accepts, s, line) ==
               Effect(accepts, s.(lineno := s.lineno + 1),
                      if line[0] == '[' then SectionLine(body) else PairLine(body))
  {
    hide Body, Indented, SectionLine, PairLine, Effect, RTrim;
    UnindentedBody(line, s.lineno == 0);
  }

  lemma KeyIsPrefix(line: string)
    ensures var p := PairLine(RTrim(line)); p.Pair? ==> p.key <= line
    ensures !PairLine(RTrim(line)).Continuation?
  {
    hide RTrim, Find, ValueOf;
    var body := RTrim(line);
    var cut := body[..Find(body, "=:")];
    assert RTrim(cut) <= cut <= body <= line;
  }

  /** A line that starts with a non-blank is never a continuation: the name of a call made for it
      stands at its front and becomes the name in force. */
  lemma {:induction false} UnindentedStep(accepts: Handler, s: State, line: string)
      returns (name: string, value: string)
    requires line != [] && !IsSpace(line[0]) && !StartsWithBom(s, line)
    ensures var s' := Step(accepts, s, line);
            s'.calls == s.calls ||
            (Called(accepts, s, s', name, value) && name <= line && s'.prevName == Truncate(name))
  {
    hide Step, SectionLine, PairLine, RTrim, Effect, Truncate, Called;
    name, value := "", "";
    if line[0] == ';' || line[0] == '#' {
      UnindentedComment(accepts, s, line);
    } else {
      UnindentedEffect(accepts, s, line);
      KeyIsPrefix(line);
      var kind := if line[0] == '[' then SectionLine(RTrim(line)) else PairLine(RTrim(line));
      HeaderIsNoPair(RTrim(line));
      EffectOf(accepts, s, kind);
      if kind.Pair? {
        name, value := kind.key, kind.value;
      }
    }
  }

  lemma UnindentedComment(accepts: Handler, s: State, line: string)
    requires line != [] && (line[0] == ';' || line[0] == '#')
    ensures Step(accepts, s, line) == s.(lineno := s.lineno + 1)
  {
    hide Body, Indented, SectionLine, PairLine;
    assert BOM[0] != line[0];
    UnindentedBody(line, s.lineno == 0);
  }

  lemma HeaderIsNoPair(body: string)
    requires body != []
    ensures SectionLine(body).Section? || SectionLine(body).Malformed?
  {
  }

  lemma EffectOf(accepts: Handler, s: State, kind: Line)
    requires !kind.Continuation?
    ensures var s' := Effect(accepts, s.(lineno := s.lineno + 1), kind);
            if kind.Pair? then Called(accepts, s, s', kind.key, kind.value) && s'.prevName == Truncate(kind.key)
            else s'.calls == s.calls
  {
  }

  lemma {:induction false} ValueInContext(l: string, value: string, r: string, comment: string)
    requires AllSpace(l) && AllSpace(r) && WellFormedValue(value)
    requires l != [] && value != [] ==> value[0] != ';'
    requires comment != [] ==> comment[0] == ';' && (r != [] || (value == [] && l != []))
    ensures ValueOf(RTrim(l + value + r + comment)) == value
  {
    hide LTrim, RTrim, Find;
    var lvr := l + value + r;
    NoStopAround(l, value, r);
    if comment == [] {
      assert lvr + comment == lvr;
      if value == [] {
        assert AllSpace(lvr);
        AllBlank(lvr);
        AllBlank([]);
        FindIs([], "", 0);
      } else {
        var lv := l + value;
        assert lv[|lv| - 1] == value[|value| - 1];
        TrimmedBack(lv, r);
        NoStopAround(l, value, []);
        assert lv + [] == lv;
        FindIs(lv, "", |lv|);
        assert lv[..|lv|] == lv;
        TrimUnique(lv, l, value, []);
      }
    } else {
      CommentIsKept(lvr, comment);
      var c := RTrim(comment);
      var raw := lvr + c;
      assert raw[..|lvr|] == lvr;
      forall i | 0 <= i < |lvr| ensures !Stop(raw, "", i) {
        assert !Stop(lvr, "", i);
      }
      assert IsSpace(lvr[|lvr| - 1]);
      FindIs(raw, "", |lvr|);
      TrimUnique(lvr, l, value, r);
    }
  }

  lemma CommentIsKept(s: string, comment: string)
    requires comment != [] && comment[0] == ';'
    ensures RTrim(comment) != [] && RTrim(comment)[0] == ';'
    ensures RTrim(s + comment) == s + RTrim(comment)
  {
    hide RTrim;
    var c := RTrim(comment);
    assert !IsSpace(';');
    assert s + comment == (s + comment[..|c|]) + comment[|c|..];
    assert AllSpace(comment[|c|..]);
    assert (s + c)[|s + c| - 1] == c[|c| - 1];
    TrimmedBack(s + c, comment[|c|..]);
  }

  lemma NoStopAround(l: string, value: string, r: string)
    requires AllSpace(l) && AllSpace(r) && NoStop(value, "", |value|)
    requires l != [] && value != [] ==> value[0] != ';'
    ensures NoStop(l + value + r, "", |l + value + r|)
  {
    var s := l + value + r;
    forall i | 0 <= i < |s| ensures !Stop(s, "", i) {
      if |l| < i < |l| + |value| {
        assert !Stop(value, "", i - |l|);
        assert s[i - 1] == value[i - 1 - |l|];
      }
    }
  }

  lemma KeyEnd(key: string, k: string, d: char, tail: string)
    requires WellFormedKey(key) && AllSpace(k) && (d == '=' || d == ':')
    ensures Find(key + k + [d] + tail, "=:") == |key| + |k|
  {
    hide Find;
    var s := key + k + [d] + tail;
    forall i | 0 <= i < |key| + |k| ensures !Stop(s, "=:", i) {
      if i < |key| {
        assert !Stop(key, "=:", i);
      } else {
        assert IsSpace(k[i - |key|]);
      }
    }
    FindIs(s, "=:", |key| + |k|);
  }

  /** A pair with either delimiter, blanks around key and value, and an inline comment: the handler is
      given the bare key and value, and the key is the name in force. */
  lemma {:induction false} PairStep(
      accepts: Handler, s: State, key: string, k: string, d: char, l: string, value: string, r: string,
      comment: string)
    requires WellFormedKey(key) && AllSpace(k) && (key == [] ==> k == []) && (d == '=' || d == ':')
    requires AllSpace(l) && AllSpace(r) && WellFormedValue(value)
    requires l != [] && value != [] ==> value[0] != ';'
    requires comment != [] ==> comment[0] == ';' && (r != [] || (value == [] && l != []))
    requires !StartsWithBom(s, key + k + [d] + (l + value + r + comment))
    ensures var s' := Step(accepts, s, key + k + [d] + (l + value + r + comment));
            Called(accepts, s, s', key, value) && s'.prevName == Truncate(key)
  {
    hide RTrim, PairLine, Step, WellFormedValue, NoStop, ValueOf, Effect, Truncate, Called;
    var front, raw := key + k + [d], l + value + r + comment;
    var line := front + raw;
    assert line[0] == if key == [] then d else key[0];
    UnindentedEffect(accepts, s, line);
    RTrimBehind(front, raw);
    PairInContext(key, k, d, RTrim(raw));
    ValueInContext(l, value, r, comment);
    EffectOf(accepts, s, Pair(key, value));
  }

  lemma PairInContext(key: string, k: string, d: char, tail: string)
    requires WellFormedKey(key) && AllSpace(k) && (d == '=' || d == ':')
    ensures PairLine(key + k + [d] + tail) == Pair(key, ValueOf(tail))
  {
    hide RTrim, Find, ValueOf;
    var body, e := key + k + [d] + tail, |key| + |k|;
    KeyEnd(key, k, d, tail);
    assert body[..e] == key + k && body[e] == d && body[e + 1..] == tail;
    TrimmedBack(key, k);
  }

  /** A section header, whatever follows its bracket: the name is in force from here on, truncated, and
      no pair's name is. */
  lemma {:induction false} SectionStep(accepts: Handler, s: State, name: string, tail: string)
    requires NoStop(name, "]", |name|)
    ensures Step(accepts, s, "[" + name + "]" + tail) ==
            s.(section := Truncate(name), prevName := "", lineno := s.lineno + 1)
  {
    hide RTrim, SectionLine, Step, NoStop;
    var front := "[" + name + "]";
    var line := front + tail;
    assert line[0] == '[' && BOM[0] != '[';
    UnindentedEffect(accepts, s, line);
    RTrimBehind(front, tail);
    SectionInContext(name, RTrim(tail));
  }

  lemma SectionInContext(name: string, tail: string)
    requires NoStop(name, "]", |name|)
    ensures SectionLine("[" + name + "]" + tail) == Section(name)
  {
    hide Find;
    var rest := ("[" + name + "]" + tail)[1..];
    assert rest == name + "]" + tail;
    forall i | 0 <= i < |name| ensures !Stop(rest, "]", i) {
      assert !Stop(name, "]", i);
    }
    FindIs(rest, "]", |name|);
    assert rest[..|name|] == name;
  }

  /** A line without its bracket or delimiter is an error and nothing else. */
  lemma {:induction false} MalformedStep(accepts: Handler, s: State, line: string)
    requires line != [] && !IsSpace(line[0]) && !StartsWithBom(s, line)
    requires line[0] != ';' && line[0] != '#'
    requires if line[0] == '[' then ']' !in line else '=' !in line && ':' !in line
    ensures Step(accepts, s, line) ==
            s.(lineno := s.lineno + 1, error := if s.error == 0 then s.lineno + 1 else s.error)
  {
    hide RTrim, Find, Step;
    UnindentedEffect(accepts, s, line);
    var body := RTrim(line);
    assert forall c :: c in body ==> c in line;
    assert forall c :: c in body[1..] ==> c in body;
  }
}
