/**
 The state machine of `ini_parse_stream`: section, previous name, line number and first error, over
 the lines of a text, and what its history says about them.
 */
module IniMachine {
  import opened Types
  import opened IniText
  import opened IniReader

  /** One call of the handler. */
  datatype Call = Call(section: string, name: string, value: string, lineno: nat)

  /** The handler's answer to a call may depend on all calls so far. */
  type Handler = seq<Call> -> bool

  datatype State = State(
    section: string, prevName: string, lineno: nat, error: nat, calls: seq<Call>)

  const START := State("", "", 0, 0, [])

  function Fail(s: State): State {
    if s.error == 0 then s.(error := s.lineno) else s
  }

  function Invoke(accepts: Handler, s: State, name: string, value: string): State {
    var s' := s.(calls := s.calls + [Call(s.section, name, value, s.lineno)]);
    if accepts(s'.calls) then s' else Fail(s')
  }

  /** The effect of a line of the given kind. */
  function Effect(accepts: Handler, s: State, line: Line): State {
    match line
    case Blank => s
    case Comment => s
    case Malformed => Fail(s)
    case Continuation(text) => Invoke(accepts, s, s.prevName, text)
    case Section(name) => s.(section := Truncate(name), prevName := "")
    case Pair(key, value) => Invoke(accepts, s.(prevName := Truncate(key)), key, value)
  }

  function Step(accepts: Handler, s: State, line: string): State {
    Effect(accepts, s.(lineno := s.lineno + 1), Classify(line, s.lineno == 0, s.prevName))
  }

  function RunFrom(accepts: Handler, s: State, lines: seq<string>): State
    decreases |lines|
  {
    if lines == [] then s
    else Step(accepts, RunFrom(accepts, s, lines[..|lines| - 1]), lines[|lines| - 1])
  }

  function Run(accepts: Handler, lines: seq<string>): State {
    RunFrom(accepts, START, lines)
  }

  /** `ini_parse_string`. */
  function ParseText(accepts: Handler, text: string): State {
    Run(accepts, Chunks(text))
  }

  lemma {:induction false} RunFromAppend(accepts: Handler, s: State, a: seq<string>, b: seq<string>)
    ensures RunFrom(accepts, s, a + b) == RunFrom(accepts, RunFrom(accepts, s, a), b)
    decreases |b|
  {
    hide Step;
    if b == [] {
      assert a + b == a;
    } else {
      RunFromAppend(accepts, s, a, b[..|b| - 1]);
      assert (a + b)[..|a + b| - 1] == a + b[..|b| - 1];
    }
  }

  /** The state before the k-th line, and what the parser takes that line for. */
  function Before(accepts: Handler, lines: seq<string>, k: nat): State
    requires k <= |lines|
  {
    Run(accepts, lines[..k])
  }

  function KindAt(accepts: Handler, lines: seq<string>, k: nat): Line
    requires k < |lines|
  {
    Classify(lines[k], k == 0, Before(accepts, lines, k).prevName)
  }

  lemma BeforeNext(accepts: Handler, lines: seq<string>, k: nat)
    requires k < |lines|
    ensures Before(accepts, lines, k).lineno == k
    ensures Before(accepts, lines, k + 1) ==
            Effect(accepts, Before(accepts, lines, k).(lineno := k + 1), KindAt(accepts, lines, k))
  {
    hide Classify, Effect;
    LinesAreCounted(accepts, lines[..k]);
    assert lines[..k + 1][..k] == lines[..k];
  }

  lemma {:induction false} LinesAreCounted(accepts: Handler, lines: seq<string>)
    ensures Run(accepts, lines).lineno == |lines|
    decreases |lines|
  {
    hide Classify;
    if lines != [] {
      LinesAreCounted(accepts, lines[..|lines| - 1]);
    }
  }

  /** Line k set the previous name, and no line after it, up to n, reset or changed it. */
  ghost predicate NamedBy(accepts: Handler, lines: seq<string>, n: nat, k: nat)
    requires n <= |lines|
  {
    && k < n && KindAt(accepts, lines, k).Pair?
    && forall j :: k < j < n ==> !Renames(KindAt(accepts, lines, j))
  }

  predicate Renames(line: Line) {
    line.Pair? || line.Section?
  }

  ghost predicate SectionedBy(accepts: Handler, lines: seq<string>, n: nat, k: nat)
    requires n <= |lines|
  {
    && k < n && KindAt(accepts, lines, k).Section?
    && forall j :: k < j < n ==> !KindAt(accepts, lines, j).Section?
  }

  /** At every line, the previous name is the truncated name of the latest pair since the last valid
      section header, or empty. */
  lemma {:induction false} NameHistory(accepts: Handler, lines: seq<string>, n: nat)
    requires n <= |lines|
    ensures var s := Before(accepts, lines, n);
            && (forall k :: NamedBy(accepts, lines, n, k) ==>
                  s.prevName == Truncate(KindAt(accepts, lines, k).key))
            && ((forall k :: !NamedBy(accepts, lines, n, k)) ==> s.prevName == "")
    decreases n
  {
    hide Run, Classify;
    if n == 0 {
      NothingBefore(accepts, lines);
    } else {
      var m := n - 1;
      NameHistory(accepts, lines, m);
      BeforeNext(accepts, lines, m);
      var kind := KindAt(accepts, lines, m);
      hide Before, KindAt;
      if kind.Pair? {
        assert NamedBy(accepts, lines, n, m);
      } else if k: nat :| NamedBy(accepts, lines, m, k) && !kind.Section? {
        assert NamedBy(accepts, lines, n, k);
      }
      assert forall k: nat :: k < m && NamedBy(accepts, lines, n, k) ==>
               NamedBy(accepts, lines, m, k) && !Renames(kind);
    }
  }

  /** At every line, the section is the truncated name of the last valid header, or empty. */
  lemma {:induction false} SectionHistory(accepts: Handler, lines: seq<string>, n: nat)
    requires n <= |lines|
    ensures var s := Before(accepts, lines, n);
            && (forall k :: SectionedBy(accepts, lines, n, k) ==>
                  s.section == Truncate(KindAt(accepts, lines, k).name))
            && ((forall k :: !SectionedBy(accepts, lines, n, k)) ==> s.section == "")
    decreases n
  {
    hide Run, Classify;
    if n == 0 {
      NothingBefore(accepts, lines);
    } else {
      var m := n - 1;
      SectionHistory(accepts, lines, m);
      BeforeNext(accepts, lines, m);
      var kind := KindAt(accepts, lines, m);
      hide Before, KindAt;
      if kind.Section? {
        assert SectionedBy(accepts, lines, n, m);
      } else if k: nat :| SectionedBy(accepts, lines, m, k) {
        assert SectionedBy(accepts, lines, n, k);
      }
      assert forall k: nat :: k < m && SectionedBy(accepts, lines, n, k) ==>
               SectionedBy(accepts, lines, m, k) && !kind.Section?;
    }
  }

  lemma NothingBefore(accepts: Handler, lines: seq<string>)
    ensures Before(accepts, lines, 0) == START
  {
  }

  /** So the first line, with or without a byte order mark, is never a continuation. */
  lemma {:induction false} FirstLineNeverContinues(accepts: Handler, lines: seq<string>)
    requires lines != []
    ensures !KindAt(accepts, lines, 0).Continuation?
  {
    NothingBefore(accepts, lines);
  }

  /** Line k was malformed, or the handler refused what it was given for it. */
  predicate Bad(accepts: Handler, lines: seq<string>, k: nat)
    requires k < |lines|
  {
    match KindAt(accepts, lines, k)
    case Malformed => true
    case Pair(_, _) => !accepts(Before(accepts, lines, k + 1).calls)
    case Continuation(_) => !accepts(Before(accepts, lines, k + 1).calls)
    case _ => false
  }

  /** The result is the number of the first bad line, or 0 if there is none. */
  lemma {:induction false} ErrorHistory(accepts: Handler, lines: seq<string>, n: nat)
    requires n <= |lines|
    ensures var e := Before(accepts, lines, n).error;
            && (e == 0 <==> forall k :: 0 <= k < n ==> !Bad(accepts, lines, k))
            && (e > 0 ==> e <= n && Bad(accepts, lines, e - 1)
                          && forall k :: 0 <= k < e - 1 ==> !Bad(accepts, lines, k))
    decreases n
  {
    hide Run, Classify;
    if n == 0 {
      NothingBefore(accepts, lines);
    } else {
      ErrorHistory(accepts, lines, n - 1);
      BeforeNext(accepts, lines, n - 1);
      BadExactly(accepts, lines, n - 1);
    }
  }

  lemma BadExactly(accepts: Handler, lines: seq<string>, k: nat)
    requires k < |lines|
    ensures var e := Before(accepts, lines, k).error;
            Before(accepts, lines, k + 1).error ==
            if e == 0 && Bad(accepts, lines, k) then k + 1 else e
  {
    hide Run, Classify;
    BeforeNext(accepts, lines, k);
  }

  /** Section, name and value of a call. */
  function Triple(c: Call): (string, string, string) {
    (c.section, c.name, c.value)
  }

  function Triples(calls: seq<Call>): seq<(string, string, string)> {
    seq(|calls|, i requires 0 <= i < |calls| => Triple(calls[i]))
  }

  lemma TriplesAppend(calls: seq<Call>, c: Call)
    ensures Triples(calls + [c]) == Triples(calls) + [Triple(c)]
  {
  }

  /** The two states differ at most in line numbers and errors. */
  ghost predicate Alike(s: State, t: State) {
    s.section == t.section && s.prevName == t.prevName && Triples(s.calls) == Triples(t.calls)
  }

  lemma EffectAlike(accepts1: Handler, accepts2: Handler, s: State, t: State, line: Line)
    requires Alike(s, t)
    ensures Alike(Effect(accepts1, s, line), Effect(accepts2, t, line))
    ensures Effect(accepts1, s, line).lineno == s.lineno && Effect(accepts2, t, line).lineno == t.lineno
  {
    match line {
      case Continuation(text) =>
        TriplesAppend(s.calls, Call(s.section, s.prevName, text, s.lineno));
        TriplesAppend(t.calls, Call(t.section, t.prevName, text, t.lineno));
      case Pair(key, value) =>
        TriplesAppend(s.calls, Call(s.section, key, value, s.lineno));
        TriplesAppend(t.calls, Call(t.section, key, value, t.lineno));
      case _ =>
    }
  }

  lemma OnlyBomMatters(line: string, prevName: string)
    requires !(BOM <= line)
    ensures Classify(line, true, prevName) == Classify(line, false, prevName)
  {
    hide ClassifyBody, LTrim, RTrim;
    assert AfterBom(line, true) == AfterBom(line, false);
  }

  /** Lines have the same meaning wherever they stand, except that a byte order mark counts only on
      the first line of a text; and whatever the handlers answer. */
  lemma {:induction false} RunAlike(
      accepts1: Handler, accepts2: Handler, s: State, t: State, lines: seq<string>)
    requires Alike(s, t)
    requires (s.lineno == 0 <==> t.lineno == 0) || lines == [] || !(BOM <= lines[0])
    ensures Alike(RunFrom(accepts1, s, lines), RunFrom(accepts2, t, lines))
    ensures lines != [] ==> RunFrom(accepts1, s, lines).lineno > 0 && RunFrom(accepts2, t, lines).lineno > 0
    decreases |lines|
  {
    hide Classify, Triples, Effect;
    if lines != [] {
      var n := |lines| - 1;
      RunAlike(accepts1, accepts2, s, t, lines[..n]);
      var s', t' := RunFrom(accepts1, s, lines[..n]), RunFrom(accepts2, t, lines[..n]);
      if n == 0 {
        assert lines[..n] == [];
      }
      if s'.lineno != t'.lineno && (s'.lineno == 0 || t'.lineno == 0) {
        OnlyBomMatters(lines[n], s'.prevName);
      }
      var kind := Classify(lines[n], s'.lineno == 0, s'.prevName);
      EffectAlike(accepts1, accepts2, s'.(lineno := s'.lineno + 1), t'.(lineno := t'.lineno + 1), kind);
    }
  }

  /** Whatever the handler answers, all later lines are still processed in the same way. */
  lemma {:induction false} HandlerDoesNotSteer(accepts1: Handler, accepts2: Handler, lines: seq<string>)
    ensures Alike(Run(accepts1, lines), Run(accepts2, lines))
  {
    RunAlike(accepts1, accepts2, START, START, lines);
  }

  /** A comment or an empty line. */
  predicate Skippable(line: string) {
    forall first :: var b := Body(line, first); b == [] || b[0] == ';' || b[0] == '#'
  }

  /** Inserting a comment or blank line between lines changes no section, name or value that the
      handler is given, unless it pushes a byte order mark off the first line. */
  lemma {:induction false} CommentsAreInvisible(
      accepts1: Handler, accepts2: Handler, a: string, line: string, b: string)
    requires a == [] || EndsLine(a)
    requires Skippable(line) && OneLine(line, ROOM) && EndsLine(line)
    requires a == [] ==> !(BOM <= b)
    ensures Alike(ParseText(accepts1, a + b), ParseText(accepts2, a + line + b))
  {
    hide RunFrom, Chunks, Skippable, Triples, Classify;
    ChunksConcat(a, b);
    ChunksConcat(a + line, b);
    ChunksConcat(a, line);
    ChunksUnique([line]);
    FlattenOne(line);
    var ca, cb := Chunks(a), Chunks(b);
    RunFromAppend(accepts1, START, ca, cb);
    RunFromAppend(accepts2, START, ca + [line], cb);
    RunFromAppend(accepts2, START, ca, [line]);
    RunAlike(accepts1, accepts2, START, START, ca);
    var s, t := Run(accepts1, ca), Run(accepts2, ca);
    SkipOne(accepts2, t, line);
    LinesAreCounted(accepts1, ca);
    LinesAreCounted(accepts2, ca);
    if a == [] {
      FirstChunkBom(b);
    }
    NoChunks(a);
    RunAlike(accepts1, accepts2, s, RunFrom(accepts2, t, [line]), cb);
  }

  lemma SkipOne(accepts: Handler, s: State, line: string)
    requires Skippable(line)
    ensures RunFrom(accepts, s, [line]) == s.(lineno := s.lineno + 1)
  {
    assert [line][..0] == [];
    assert RunFrom(accepts, s, [line][..0]) == s;
    var kind := Classify(line, s.lineno == 0, s.prevName);
    assert kind.Blank? || kind.Comment?;
  }

  lemma NoChunks(s: string)
    ensures Chunks(s) == [] <==> s == []
  {
  }

  lemma FirstChunkBom(b: string)
    requires !(BOM <= b)
    ensures Chunks(b) == [] || !(BOM <= Chunks(b)[0])
  {
    if b != [] {
      var n := ChunkLength(b, ROOM);
      assert Chunks(b)[0] == b[..n];
      assert BOM <= b[..n] ==> BOM <= b;
    }
  }

  /** The proviso is needed: a line put before a byte order mark makes the mark part of a name. */
  lemma {:induction false} BomMustStayFirst(accepts: Handler)
    ensures var bom := "\U{EF}\U{BB}\U{BF}";
            var b := bom + "a=1\n";
            && Triples(ParseText(accepts, b).calls) == [("", "a", "1")]
            && Triples(ParseText(accepts, "\n" + b).calls) == [("", bom + "a", "1")]
  {
    hide Classify, Chunks;
    var b := BOM + "a=1\n";
    BomLine();
    ChunksUnique([b]);
    FlattenOne(b);
    ChunksUnique(["\n", b]);
    assert ["\n", b][1..] == [b];
    assert [b][..0] == [] && ["\n", b][..1] == ["\n"] && ["\n"][..0] == [];
    assert Skippable("\n") by {
      AllBlank("\n");
    }
    SkipOne(accepts, START, "\n");
  }

  lemma IndentNeedsName(body: string)
    ensures forall i, j :: ClassifyBody(body, i, "") == ClassifyBody(body, j, "")
  {
  }

  lemma BomLine()
    ensures Classify(BOM + "a=1\n", true, "") == Pair("a", "1")
    ensures Classify(BOM + "a=1\n", false, "") == Pair(BOM + "a", "1")
  {
    hide ClassifyBody, Body, Indented;
    var b, key := BOM + "a=1\n", BOM + "a";
    assert b == RenderPair(key, "1") && "a=1\n" == RenderPair("a", "1");
    assert WellFormedKey(key) && WellFormedKey("a") && WellFormedValue("1");
    WellFormedPairParses(key, "1", false, "");
    WellFormedPairParses("a", "1", false, "");
    BodyAfterBom("a=1\n");
    IndentNeedsName(Body(b, true));
  }

  lemma BodyAfterBom(line: string)
    ensures Body(BOM + line, true) == Body(line, false)
  {
    hide LTrim, RTrim;
    assert BOM <= BOM + line;
    assert (BOM + line)[|BOM|..] == line;
  }
}
