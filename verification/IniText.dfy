/**
 The meaning of one line of an INI file, on sequences: trim, cut at a delimiter or inline comment,
 classify. `IniBuffer` shows that the parser's in-place editing computes the same.
 */
module IniText {

  /** `isspace` in the C locale. */
  predicate IsSpace(c: char) {
    c == ' ' || c == '\t' || c == '\n' || c == '\U{0B}' || c == '\U{0C}' || c == '\r'
  }

  predicate Trimmed(s: string) {
    s == [] || (!IsSpace(s[0]) && !IsSpace(s[|s| - 1]))
  }

  predicate AllSpace(s: string) {
    forall i :: 0 <= i < |s| ==> IsSpace(s[i])
  }

  function RTrim(s: string): (t: string)
    ensures |t| <= |s| && t == s[..|t|]
    ensures forall i :: |t| <= i < |s| ==> IsSpace(s[i])
    ensures t == [] || !IsSpace(t[|t| - 1])
    decreases |s|
  {
    if s != [] && IsSpace(s[|s| - 1]) then RTrim(s[..|s| - 1]) else s
  }

  function LTrim(s: string): (t: string)
    ensures |t| <= |s| && t == s[|s| - |t|..]
    ensures forall i :: 0 <= i < |s| - |t| ==> IsSpace(s[i])
    ensures t == [] || !IsSpace(t[0])
    decreases |s|
  {
    if s != [] && IsSpace(s[0]) then LTrim(s[1..]) else s
  }

  lemma {:induction false} LTrimIs(s: string, k: nat)
    requires k <= |s| && (k < |s| ==> !IsSpace(s[k]))
    requires forall i :: 0 <= i < k ==> IsSpace(s[i])
    ensures LTrim(s) == s[k..]
    decreases k
  {
    if k == 0 {
      assert s[0..] == s;
    } else {
      LTrimIs(s[1..], k - 1);
      assert s[1..][k - 1..] == s[k..];
    }
  }

  lemma {:induction false} RTrimIs(s: string, k: nat)
    requires k <= |s| && (k > 0 ==> !IsSpace(s[k - 1]))
    requires forall i :: k <= i < |s| ==> IsSpace(s[i])
    ensures RTrim(s) == s[..k]
    decreases |s|
  {
    if k == |s| {
      assert s[..k] == s;
    } else {
      RTrimIs(s[..|s| - 1], k);
      assert s[..|s| - 1][..k] == s[..k];
    }
  }

  lemma TrimmedFront(l: string, core: string)
    requires AllSpace(l) && (core == [] || !IsSpace(core[0]))
    ensures LTrim(l + core) == core
  {
    hide LTrim;
    var s := l + core;
    assert forall i :: 0 <= i < |l| ==> s[i] == l[i];
    LTrimIs(s, |l|);
    assert s[|l|..] == core;
  }

  lemma TrimmedBack(core: string, r: string)
    requires AllSpace(r) && (core == [] || !IsSpace(core[|core| - 1]))
    ensures RTrim(core + r) == core
  {
    hide RTrim;
    var s := core + r;
    assert forall i :: |core| <= i < |s| ==> s[i] == r[i - |core|];
    RTrimIs(s, |core|);
    assert s[..|core|] == core;
  }

  /** What stands behind a non-blank is trimmed on its own. */
  lemma RTrimBehind(core: string, tail: string)
    requires core != [] && !IsSpace(core[|core| - 1])
    ensures RTrim(core + tail) == core + RTrim(tail)
  {
    hide RTrim;
    var s, t := core + tail, RTrim(tail);
    assert forall i :: |core| + |t| <= i < |s| ==> s[i] == tail[i - |core|];
    RTrimIs(s, |core| + |t|);
    assert s[..|core| + |t|] == core + t;
  }

  lemma TrimmedStays(s: string)
    requires Trimmed(s)
    ensures LTrim(s) == s && RTrim(s) == s
  {
  }

  lemma AllBlank(s: string)
    requires AllSpace(s)
    ensures RTrim(s) == [] && LTrim(s) == []
  {
    hide LTrim, RTrim;
    LTrimIs(s, |s|);
    RTrimIs(s, 0);
  }

  /** Trimming is the removal of blanks around a trimmed core, in either order. */
  lemma {:induction false} TrimUnique(s: string, l: string, core: string, r: string)
    requires s == l + core + r && AllSpace(l) && AllSpace(r) && Trimmed(core)
    ensures LTrim(RTrim(s)) == core && RTrim(LTrim(s)) == core
  {
    hide RTrim, LTrim;
    if core == [] {
      assert AllSpace(s);
      AllBlank(s);
      AllBlank([]);
    } else {
      hide AllSpace;
      var lc, cr := l + core, core + r;
      assert s == lc + r && s == l + cr;
      TrimmedBack(lc, r);
      TrimmedFront(l, core);
      TrimmedFront(l, cr);
      TrimmedBack(core, r);
    }
  }

  /** A delimiter, or a semicolon after a blank. */
  predicate Stop(s: string, delimiters: string, i: nat)
    requires i < |s|
  {
    s[i] in delimiters || (i > 0 && IsSpace(s[i - 1]) && s[i] == ';')
  }

  predicate NoStop(s: string, delimiters: string, upTo: nat)
    requires upTo <= |s|
  {
    forall i :: 0 <= i < upTo ==> !Stop(s, delimiters, i)
  }

  /** The first stop, or the end of the string. */
  function Find(s: string, delimiters: string, from: nat := 0): (e: nat)
    requires from <= |s| && NoStop(s, delimiters, from)
    ensures from <= e <= |s| && NoStop(s, delimiters, e)
    ensures e < |s| ==> Stop(s, delimiters, e)
    decreases |s| - from
  {
    if from == |s| || Stop(s, delimiters, from) then from else Find(s, delimiters, from + 1)
  }

  lemma FindIs(s: string, delimiters: string, e: nat)
    requires e <= |s| && NoStop(s, delimiters, e) && (e < |s| ==> Stop(s, delimiters, e))
    ensures Find(s, delimiters) == e
  {
  }

  const BOM: string := "\U{EF}\U{BB}\U{BF}"

  const NAME_LIMIT := 49   // MAX_SECTION - 1, MAX_NAME - 1

  function Truncate(s: string): (t: string)
    ensures t <= s && |t| == if |s| <= 49 then |s| else 49
  {
    if |s| <= NAME_LIMIT then s else s[..NAME_LIMIT]
  }

  datatype Line = Blank | Comment | Malformed
                | Continuation(text: string) | Section(name: string)
                | Pair(key: string, value: string)

  /** What is left of a byte order mark, on the first line only. */
  function AfterBom(line: string, first: bool): string {
    if first && BOM <= line then line[|BOM|..] else line
  }

  function Body(line: string, first: bool): (b: string)
    ensures |b| <= |line| && Trimmed(b)
  {
    LTrim(RTrim(AfterBom(line, first)))
  }

  /** The body does not start where the line does. */
  predicate Indented(line: string, first: bool) {
    |AfterBom(line, first)| < |line| ||
    |Body(line, first)| < |RTrim(AfterBom(line, first))|
  }

  function SectionLine(body: string): Line
    requires body != []
  {
    var rest := body[1..];
    var e := Find(rest, "]");
    if e < |rest| && rest[e] == ']' then Section(rest[..e]) else Malformed
  }

  function ValueOf(raw: string): string {
    RTrim(LTrim(raw[..Find(raw, "")]))
  }

  function PairLine(body: string): Line {
    var e := Find(body, "=:");
    if e < |body| && (body[e] == '=' || body[e] == ':') then
      Pair(RTrim(body[..e]), ValueOf(body[e + 1..]))
    else
      Malformed
  }

  function ClassifyBody(body: string, indented: bool, prevName: string): Line {
    if body == [] then Blank
    else if body[0] == ';' || body[0] == '#' then Comment
    else if prevName != [] && indented then Continuation(body)
    else if body[0] == '[' then SectionLine(body)
    else PairLine(body)
  }

  /** The branch that `ini_parse_stream` takes on a line. */
  function Classify(line: string, first: bool, prevName: string): Line {
    ClassifyBody(Body(line, first), Indented(line, first), prevName)
  }

  predicate WellFormedKey(key: string) {
    && Trimmed(key) && NoStop(key, "=:", |key|)
    && (key == [] || (key[0] != ';' && key[0] != '#' && key[0] != '['))
  }

  predicate WellFormedValue(value: string) {
    Trimmed(value) && NoStop(value, "", |value|)
  }

  lemma StopInSlice(s: string, delimiters: string, lo: nat, hi: nat, i: nat)
    requires lo <= hi <= |s| && i < hi - lo && Stop(s[lo..hi], delimiters, i)
    ensures Stop(s, delimiters, lo + i)
  {
  }

  lemma NoStopInSlice(s: string, delimiters: string, lo: nat, hi: nat)
    requires lo <= hi <= |s| && NoStop(s, delimiters, hi)
    ensures NoStop(s[lo..hi], delimiters, hi - lo)
  {
    forall i | 0 <= i < hi - lo ensures !Stop(s[lo..hi], delimiters, i) {
      if Stop(s[lo..hi], delimiters, i) {
        StopInSlice(s, delimiters, lo, hi, i);
      }
    }
  }

  lemma KeyIsWellFormed(body: string)
    requires body != [] && Trimmed(body) && body[0] != ';' && body[0] != '#' && body[0] != '['
    ensures WellFormedKey(RTrim(body[..Find(body, "=:")]))
  {
    hide RTrim, Find;
    var e := Find(body, "=:");
    var key := RTrim(body[..e]);
    NoStopInSlice(body, "=:", 0, |key|);
    assert key == body[0..|key|];
  }

  lemma ValueIsWellFormed(raw: string)
    ensures WellFormedValue(ValueOf(raw))
  {
    hide RTrim, LTrim, Find;
    var end := Find(raw, "");
    var cut := raw[..end];
    var l := LTrim(cut);
    var lo := end - |l|;
    assert l == raw[lo..end];
    var value := RTrim(l);
    assert value == l[..|value|];
    assert raw[lo..end][..|value|] == raw[lo..lo + |value|];
    NoStopInSlice(raw, "", lo, lo + |value|);
    assert value != [] ==> value[0] == l[0];
  }

  /** Whatever the line, the key and value found on it are well formed. */
  lemma {:induction false} PairsAreWellFormed(line: string, first: bool, prevName: string)
    requires Classify(line, first, prevName).Pair?
    ensures var p := Classify(line, first, prevName);
            WellFormedKey(p.key) && WellFormedValue(p.value)
  {
    hide Find, RTrim, LTrim, ValueOf, WellFormedKey, WellFormedValue, Indented;
    var body := Body(line, first);
    KeyIsWellFormed(body);
    ValueIsWellFormed(body[Find(body, "=:") + 1..]);
  }

  function RenderPair(key: string, value: string): string {
    key + "=" + value + "\n"
  }

  /** A key and a value survive being written on a line exactly when they are well formed (on the
      first line, if the text does not also begin with a byte order mark). */
  lemma {:induction false} PairRoundTrip(key: string, value: string, first: bool, prevName: string)
    requires first ==> !(BOM <= RenderPair(key, value))
    ensures Classify(RenderPair(key, value), first, prevName) == Pair(key, value)
            <==> WellFormedKey(key) && WellFormedValue(value)
  {
    if Classify(RenderPair(key, value), first, prevName) == Pair(key, value) {
      PairsAreWellFormed(RenderPair(key, value), first, prevName);
    }
    if WellFormedKey(key) && WellFormedValue(value) {
      WellFormedPairParses(key, value, first, prevName);
    }
  }

  /** A line that is a trimmed text and a newline. */
  lemma PlainLine(body: string, first: bool)
    requires Trimmed(body) && body != [] && (first ==> !(BOM <= body + "\n"))
    ensures Body(body + "\n", first) == body && !Indented(body + "\n", first)
  {
    hide LTrim, RTrim;
    TrimmedBack(body, "\n");
    TrimmedStays(body);
  }

  lemma {:induction false} WellFormedPairParses(key: string, value: string, first: bool, prevName: string)
    requires first ==> !(BOM <= RenderPair(key, value))
    requires WellFormedKey(key) && WellFormedValue(value)
    ensures Classify(RenderPair(key, value), first, prevName) == Pair(key, value)
  {
    hide PairLine, Find, Body, Indented, NoStop;
    var body := key + "=" + value;
    assert body[0] == if key == [] then '=' else key[0];
    assert body[|body| - 1] == if value == [] then '=' else value[|value| - 1];
    PlainLine(body, first);
    PairBody(key, value);
  }

  lemma {:induction false} PairBody(key: string, value: string)
    requires WellFormedKey(key) && WellFormedValue(value)
    ensures PairLine(key + "=" + value) == Pair(key, value)
  {
    hide Find, LTrim, RTrim;
    var body := key + "=" + value;
    forall i | 0 <= i < |key| ensures !Stop(body, "=:", i) {
      assert !Stop(key, "=:", i);
    }
    FindIs(body, "=:", |key|);
    assert body[..|key|] == key && body[|key| + 1..] == value;
    FindIs(value, "", |value|);
    assert value[..|value|] == value;
    TrimmedStays(value);
    TrimmedBack(key, []);
    assert key + [] == key;
  }

  function RenderSection(name: string): string {
    "[" + name + "]\n"
  }

  /** A section name survives exactly when nothing in it ends it early. */
  lemma {:induction false} SectionRoundTrip(name: string, first: bool, prevName: string)
    ensures Classify(RenderSection(name), first, prevName) == Section(name)
            <==> NoStop(name, "]", |name|)
  {
    hide SectionLine, Body, Indented, NoStop;
    var body := "[" + name + "]";
    assert RenderSection(name) == body + "\n";
    assert (body + "\n")[0] != BOM[0];
    PlainLine(body, first);
    SectionBody(name);
  }

  lemma {:induction false} SectionBody(name: string)
    ensures SectionLine("[" + name + "]") == Section(name) <==> NoStop(name, "]", |name|)
  {
    var rest := ("[" + name + "]")[1..];
    assert rest == name + "]";
    if NoStop(name, "]", |name|) {
      forall i | 0 <= i < |name| ensures !Stop(rest, "]", i) {
        assert !Stop(name, "]", i);
      }
      FindIs(rest, "]", |name|);
      assert rest[..|name|] == name;
    } else {
      var i :| 0 <= i < |name| && Stop(name, "]", i);
      assert Stop(rest, "]", i);
    }
  }
}
