/**
 Printing a configuration and parsing it back. Which single lines survive is settled exactly in
 `IniText` (`PairRoundTrip`, `SectionRoundTrip`); here for whole texts.
 */
module IniRoundTrip {
  import opened Types
  import opened IniText
  import opened IniReader
  import opened IniMachine
  import opened IniLines
  import opened CStrings
  import IniBuffer

  /** A section header, a pair, or a further line of the last pair's value. */
  datatype Item = Header(name: string) | Entry(key: string, value: string) | More(indent: string, text: string)

  function Render(item: Item): string {
    match item
    case Header(name) => RenderSection(name)
    case Entry(key, value) => RenderPair(key, value)
    case More(indent, text) => indent + text + "\n"
  }

  /** The item's text is well formed, without newline, and fits: 49 characters for a section name,
      198 before the newline for a line. */
  predicate Printable(item: Item) {
    match item
    case Header(name) =>
      '\n' !in name && |name| <= NAME_LIMIT && NoStop(name, "]", |name|)
    case Entry(key, value) =>
      && '\n' !in key && '\n' !in value && |key| + 1 + |value| <= ROOM - 1
      && WellFormedKey(key) && WellFormedValue(value)
    case More(indent, text) =>
      && '\n' !in indent && '\n' !in text && |indent| + |text| <= ROOM - 1
      && indent != [] && AllSpace(indent)
      && Trimmed(text) && text != [] && text[0] != ';' && text[0] != '#'
  }

  /** All items are printable, every further line has a pair to belong to, and the text does not happen
      to start with a byte order mark. */
  predicate PrintableAll(items: seq<Item>) {
    && (forall i :: 0 <= i < |items| ==> Printable(items[i]))
    && (forall i :: 0 <= i < |items| && items[i].More? ==> NameAfter(items[..i]) != "")
    && (items != [] ==> !(BOM <= Render(items[0])))
  }

  function Lines(items: seq<Item>): seq<string> {
    seq(|items|, i requires 0 <= i < |items| => Render(items[i]))
  }

  /** The section in force after the items. */
  function SectionAfter(items: seq<Item>): string {
    if items == [] then ""
    else match items[|items| - 1]
      case Header(name) => name
      case _ => SectionAfter(items[..|items| - 1])
  }

  /** The name, as far as it is remembered, of the last pair since the last header. */
  function NameAfter(items: seq<Item>): string {
    if items == [] then ""
    else match items[|items| - 1]
      case Header(_) => ""
      case Entry(key, _) => Truncate(key)
      case More(_, _) => NameAfter(items[..|items| - 1])
  }

  /** The calls that the items stand for, with the numbers of their lines. */
  function Expected(items: seq<Item>): seq<Call> {
    if items == [] then []
    else
      var before := items[..|items| - 1];
      match items[|items| - 1]
      case Header(_) => Expected(before)
      case Entry(key, value) => Expected(before) + [Call(SectionAfter(before), key, value, |items|)]
      case More(_, text) => Expected(before) + [Call(SectionAfter(before), NameAfter(before), text, |items|)]
  }

  lemma RenderedIsOneLine(item: Item)
    requires Printable(item)
    ensures OneLine(Render(item), ROOM) && EndsLine(Render(item))
  {
  }

  lemma LinesAreRead(items: seq<Item>)
    requires PrintableAll(items)
    ensures Chunks(Flatten(Lines(items))) == Lines(items)
  {
    forall i | 0 <= i < |items| ensures OneLine(Lines(items)[i], ROOM) && EndsLine(Lines(items)[i]) {
      RenderedIsOneLine(items[i]);
    }
    ChunksUnique(Lines(items));
  }

  lemma ItemStep(accepts: Handler, s: State, item: Item)
    requires Printable(item) && !StartsWithBom(s, Render(item))
    requires item.More? ==> s.prevName != ""
    ensures var s' := Step(accepts, s, Render(item));
            match item
            case Header(name) => s' == s.(section := name, prevName := "", lineno := s.lineno + 1)
            case Entry(key, value) => Called(accepts, s, s', key, value) && s'.prevName == Truncate(key)
            case More(_, text) => Called(accepts, s, s', s.prevName, text) && s'.prevName == s.prevName
  {
    hide Classify, Stop, Step, Effect, Called, WellFormedValue;
    match item {
      case Header(name) =>
        assert Render(item) == "[" + name + "]" + "\n";
        SectionStep(accepts, s, name, "\n");
      case Entry(key, value) =>
        assert Render(item) == key + [] + ['='] + ([] + value + "\n" + []);
        PairStep(accepts, s, key, [], '=', [], value, "\n", []);
      case More(indent, text) =>
        ContinuationStep(accepts, s, indent, text, "\n");
    }
  }

  lemma {:induction false} LinesRoundTrip(accepts: Handler, items: seq<Item>)
    requires PrintableAll(items)
    ensures var s := Run(accepts, Lines(items));
            && s.calls == Expected(items) && s.section == SectionAfter(items)
            && s.prevName == NameAfter(items) && s.lineno == |items|
            && ((forall k :: 0 < k <= |s.calls| ==> accepts(s.calls[..k])) ==> s.error == 0)
    decreases |items|
  {
    hide Step, Render, Printable;
    if items != [] {
      var n := |items| - 1;
      assert forall i :: 0 <= i <= n ==> items[..n][..i] == items[..i];
      LinesRoundTrip(accepts, items[..n]);
      assert Lines(items)[..n] == Lines(items[..n]);
      var s := Run(accepts, Lines(items[..n]));
      ItemStep(accepts, s, items[n]);
      var s' := Run(accepts, Lines(items));
      assert forall k :: 0 <= k <= |s.calls| ==> s'.calls[..k] == s.calls[..k];
      assert s'.calls[..|s'.calls|] == s'.calls;
    }
  }

  /** Parsing the rendered items calls the handler with exactly their triples, in order, with the
      right line numbers, and returns 0 if the handler accepts every call. */
  lemma {:induction false} RoundTrip(accepts: Handler, items: seq<Item>)
    requires PrintableAll(items)
    ensures var s := ParseText(accepts, Flatten(Lines(items)));
            && s.calls == Expected(items)
            && ((forall calls :: accepts(calls)) ==> s.error == 0)
  {
    LinesAreRead(items);
    LinesRoundTrip(accepts, items);
  }

  /** The call that stands for the item on line i + 1. */
  predicate IsCallOf(c: Call, items: seq<Item>, i: nat)
    requires i < |items|
  {
    && c.section == SectionAfter(items[..i]) && c.lineno == i + 1
    && match items[i]
       case Header(_) => false
       case Entry(key, value) => c.name == key && c.value == value
       case More(_, text) => c.name == NameAfter(items[..i]) && c.value == text
  }

  /** An expected call is the item on the line that it names, under the section in force there. */
  lemma {:induction false} ExpectedEntries(items: seq<Item>, k: nat)
    requires k < |Expected(items)|
    ensures var n := Expected(items)[k].lineno;
            0 < n <= |items| && IsCallOf(Expected(items)[k], items, n - 1)
    decreases |items|
  {
    var before := items[..|items| - 1];
    if k < |Expected(before)| {
      ExpectedEntries(before, k);
      var c := Expected(items)[k];
      assert before[..c.lineno - 1] == items[..c.lineno - 1];
    }
  }

  /** Every entry and every further line has its call. */
  lemma {:induction false} EntriesAreExpected(items: seq<Item>, i: nat)
    requires i < |items| && !items[i].Header?
    ensures exists k :: 0 <= k < |Expected(items)| && IsCallOf(Expected(items)[k], items, i)
    decreases |items|
  {
    var before := items[..|items| - 1];
    if i < |before| {
      EntriesAreExpected(before, i);
      var k :| 0 <= k < |Expected(before)| && IsCallOf(Expected(before)[k], before, i);
      assert before[..i] == items[..i];
      assert IsCallOf(Expected(items)[k], items, i);
    } else {
      assert IsCallOf(Expected(items)[|Expected(items)| - 1], items, i);
    }
  }

  /** The items hold no NUL, as C strings do not. */
  predicate NulFree(items: seq<Item>) {
    forall i :: 0 <= i < |items| ==> NUL !in Render(items[i])
  }

  lemma {:induction false} FlattenNulFree(lines: seq<string>)
    requires forall i :: 0 <= i < |lines| ==> NUL !in lines[i]
    ensures NUL !in Flatten(lines)
    decreases |lines|
  {
    if lines != [] {
      FlattenNulFree(lines[1..]);
    }
  }

  /** The round trip through the parser that works in place. */
  method PrintAndParse(accepts: Handler, items: seq<Item>) returns (result: nat, calls: seq<Call>)
    requires PrintableAll(items) && NulFree(items)
    ensures calls == Expected(items)
    ensures (forall c :: accepts(c)) ==> result == 0
  {
    FlattenNulFree(Lines(items));
    RoundTrip(accepts, items);
    result, calls := IniBuffer.ParseString(accepts, Flatten(Lines(items)));
  }
}
