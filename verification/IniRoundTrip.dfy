/** Writing an INI document and reading it back. */
module IniRoundTrip {
  import opened Text
  import opened CString
  import opened IniSpec
  import IniParser

  datatype Item =
    | Head(section: string)
    | Entry(name: string, value: string)
    | More(value: string)
    | Note(mark: char, text: string)
    | Blank

  function Written(item: Item): string {
    match item
    case Head(section) => "[" + section + "]\n"
    case Entry(name, value) => name + " = " + value + "\n"
    case More(value) => " " + value + "\n"
    case Note(mark, text) => [mark] + text + "\n"
    case Blank => "\n"
  }

  predicate OneLine(s: string) {
    '\n' !in s
  }

  /** No ';' that the parser would take for the start of an inline comment. */
  predicate NoInner(s: string) {
    forall k :: 0 < k < |s| && s[k] == ';' ==> !IsSpace(s[k - 1])
  }

  /** A value the written form preserves: no outer whitespace, and no ';' at its start or after
      a whitespace character. */
  predicate CleanValue(v: string) {
    Outer(v) && NoInner(v) && (v != "" ==> v[0] != ';')
  }

  predicate CleanName(n: string) {
    && n != "" && Outer(n) && NoInner(n) && OneLine(n)
    && n[0] !in ";#["
    && '=' !in n && ':' !in n
  }

  /** A value for a line of its own: it must not look like a comment. */
  predicate CleanMore(v: string) {
    v != "" && v[0] != '#' && CleanValue(v) && OneLine(v)
  }

  predicate OpenSection(s: string) {
    ']' !in s && NoInner(s) && OneLine(s)
  }

  predicate CleanSection(s: string) {
    |s| <= 49 && OpenSection(s)
  }

  predicate Fits(line: string) {
    |line| <= MAX_LINE - 1
  }

  predicate CleanItem(item: Item) {
    && Fits(Written(item))
    && match item
       case Head(section) => CleanSection(section)
       case Entry(name, value) => CleanName(name) && CleanValue(value) && OneLine(value)
       case More(value) => CleanMore(value)
       case Note(mark, text) => (mark == ';' || mark == '#') && OneLine(text)
       case Blank => true
  }

  // ---------- A header line ----------

  lemma HeadTrim(section: string)
    ensures Trim(Written(Head(section))) == "[" + section + "]"
  {
    var text := "[" + section + "]";
    var line := text + "\n";
    assert Written(Head(section)) == line;
    assert line[0] == '[' && line[|text| - 1] == ']' && line[|text|] == '\n';
    TrimIs(line, 0, |text|);
    assert line[0..|text|] == text;
  }

  lemma HeadClosed(section: string)
    requires OpenSection(section)
    ensures ClassifyHeader("[" + section + "]") == Header(Take(section, 49))
  {
    var text := "[" + section + "]";
    var inner := section + "]";
    assert text[1..] == inner;
    forall j | 0 <= j < |section| ensures !StopsAt(inner, "]", j) {
      assert inner[j] == section[j] && section[j] in section;
    }
    FindStopIs(inner, "]", 0, |section|);
    assert text[1..1 + |section|] == section;
  }

  /** A heading is read as its section, cut to 49 bytes. */
  lemma HeadRead(section: string, first: bool, prev: string)
    requires OpenSection(section) && Fits(Written(Head(section)))
    ensures Judge(Written(Head(section)), first, prev) == Header(Take(section, 49))
  {
    hide ClassifyHeader, ClassifyPair, Trim, Uncommented, RStrip, OpenSection;
    HeadTrim(section);
    HeadClosed(section);
    assert Written(Head(section))[0] == '[';
  }

  /** A heading that is not closed is an error. */
  lemma UnclosedHead(section: string, first: bool, prev: string)
    requires OpenSection(section) && Outer(section) && Fits("[" + section + "\n")
    ensures Judge("[" + section + "\n", first, prev) == Malformed
  {
    hide ClassifyPair, Trim, Uncommented, RStrip;
    var text := "[" + section;
    var line := text + "\n";
    assert line[0] == '[' && line[|text|] == '\n' && (section != "" ==> line[|text| - 1] == section[|section| - 1]);
    TrimIs(line, 0, |text|);
    assert line[0..|text|] == text && text[1..] == section;
    forall j | 0 <= j < |section| ensures !StopsAt(section, "]", j) {
      assert section[j] in section;
    }
    FindStopIs(section, "]", 0, |section|);
  }

  // ---------- Comment, blank and continuation lines ----------

  lemma TrimFirst(s: string)
    requires s != "" && !IsSpace(s[0])
    ensures Trim(s) != "" && Trim(s)[0] == s[0]
  {
    FirstIs(s, 0, 0);
    assert LStrip(s) == s;
    LastFound(s, |s|);
    LastPositive(s, |s|);
  }

  lemma {:induction false} LastPositive(s: string, to: nat)
    requires 0 < to <= |s| && !IsSpace(s[0])
    ensures Last(s, to) > 0
  {
    if IsSpace(s[to - 1]) { LastPositive(s, to - 1); }
  }

  lemma NoteRead(mark: char, text: string, first: bool, prev: string)
    requires (mark == ';' || mark == '#') && Fits(Written(Note(mark, text)))
    ensures Judge(Written(Note(mark, text)), first, prev) == Ignored
  {
    hide ClassifyHeader, ClassifyPair, Trim, Uncommented, RStrip;
    TrimFirst(Written(Note(mark, text)));
  }

  lemma BlankRead(first: bool, prev: string)
    ensures Judge("\n", first, prev) == Ignored
  {
    hide ClassifyHeader, ClassifyPair, Uncommented, RStrip;
    TrimIs("\n", 0, 0);
    assert "\n"[0..0] == "";
  }

  /** Nothing in a clean value starts a comment. */
  lemma NothingCut(v: string)
    requires CleanValue(v)
    ensures Uncommented(v) == v && Trim(v) == v && RStrip(v) == v
  {
    forall j | 0 <= j < |v| ensures !StopsAt(v, "", j) { }
    FindStopIs(v, "", 0, |v|);
    assert v[..|v|] == v && v[0..|v|] == v;
    TrimIs(v, 0, |v|);
    LastIs(v, |v|, |v|);
  }

  /** An indented line after a pair continues it, even if it looks like a heading or a pair. */
  lemma MoreRead(v: string, prev: string)
    requires CleanMore(v) && Fits(Written(More(v))) && prev != ""
    ensures Judge(Written(More(v)), false, prev) == Continued(v)
  {
    hide ClassifyHeader, ClassifyPair, Trim, Uncommented, RStrip, NoInner;
    var line := " " + v + "\n";
    MoreTrim(v);
    NothingCut(v);
    assert line[0] == ' ';
  }

  lemma MoreTrim(v: string)
    requires v != "" && Outer(v)
    ensures Trim(" " + v + "\n") == v
  {
    var line := " " + v + "\n";
    assert line[1] == v[0] && line[|v|] == v[|v| - 1] && line[|v| + 1] == '\n';
    TrimIs(line, 1, 1 + |v|);
    assert line[1..1 + |v|] == v;
  }

  /** Without a pair to continue, the indentation does not matter. */
  lemma MoreAlone(v: string)
    requires CleanMore(v) && Fits(Written(More(v)))
    ensures Judge(Written(More(v)), false, "") == Judge(v + "\n", false, "")
  {
    hide ClassifyHeader, ClassifyPair, Trim, Uncommented, RStrip, NoInner;
    MoreTrim(v);
    assert (v + "\n")[0] == v[0] && (v + "\n")[|v| - 1] == v[|v| - 1];
    TrimIs(v + "\n", 0, |v|);
    assert (v + "\n")[0..|v|] == v;
  }

  // ---------- A pair line ----------

  function PairText(name: string, value: string): string {
    if value == "" then name + " =" else name + " = " + value
  }

  lemma PairTrim(name: string, value: string)
    requires CleanName(name) && Outer(value)
    ensures Trim(Written(Entry(name, value))) == PairText(name, value)
  {
    var line := name + " = " + value + "\n";
    var text := PairText(name, value);
    assert line[..|text|] == text;
    assert line[0] == name[0];
    assert forall k :: |text| <= k < |line| ==> IsSpace(line[k]);
    assert value != "" ==> text[|text| - 1] == value[|value| - 1];
    assert !IsSpace(text[|text| - 1]) && line[|text| - 1] == text[|text| - 1];
    TrimIs(line, 0, |text|);
  }

  lemma PairSplit(name: string, value: string)
    requires CleanName(name) && Outer(value)
    ensures ClassifyPair(PairText(name, value)) ==
            Pair(name, if value == "" then "" else Trim(Uncommented(" " + value)))
  {
    var text := PairText(name, value);
    var k := |name| + 1;
    assert text[k] == '=' && text[k - 1] == ' ';
    forall j | 0 <= j < k ensures !StopsAt(text, "=:", j) {
      assert j < |name| ==> text[j] == name[j] && text[j] in name;
    }
    FindStopIs(text, "=:", 0, k);
    var front := text[..k];
    assert front == name + " ";
    LastIs(front, |front|, |name|);
    assert front[..|name|] == name;
    assert text[k + 1..] == if value == "" then "" else " " + value;
  }

  /** A value without outer whitespace comes back unchanged exactly if no ';' in it starts a comment. */
  lemma ValueRead(value: string)
    requires value != "" && Outer(value)
    ensures Trim(Uncommented(" " + value)) == value <==> CleanValue(value)
  {
    var raw := " " + value;
    var k := FindStop(raw, "", 0);
    assert forall j :: 0 < j < |raw| ==> raw[j] == value[j - 1];
    if CleanValue(value) {
      forall j | 0 <= j < |raw| ensures !StopsAt(raw, "", j) {
        assert j > 1 ==> raw[j - 1] == value[j - 2];
      }
      FindStopIs(raw, "", 0, |raw|);
      assert raw[..k] == raw;
      TrimIs(raw, 1, |raw|);
      assert raw[1..] == value;
    } else {
      var bad :| 0 <= bad < |value| && value[bad] == ';' && (bad == 0 || IsSpace(value[bad - 1]));
      assert StopsAt(raw, "", bad + 1);
      FindStopLeast(raw, "", 0, bad + 1);
      assert raw[..k][0] == ' ';
      TrimShorter(raw[..k]);
    }
  }

  lemma {:induction false} FindStopLeast(s: string, chars: string, from: nat, k: nat)
    requires from <= k < |s| && StopsAt(s, chars, k)
    ensures FindStop(s, chars, from) <= k
    decreases k - from
  {
    if from < k && !StopsAt(s, chars, from) { FindStopLeast(s, chars, from + 1, k); }
  }

  lemma TrimShorter(s: string)
    ensures s != "" && IsSpace(s[0]) ==> |Trim(s)| < |s|
    ensures Outer(Trim(s))
  {
    var l := LStrip(s);
    FirstFound(s, 0);
    LastFound(l, |l|);
  }

  lemma {:induction false} FirstFound(s: string, from: nat)
    requires from <= |s|
    ensures from < |s| && IsSpace(s[from]) ==> First(s, from) > from
    ensures First(s, from) < |s| ==> !IsSpace(s[First(s, from)])
    decreases |s| - from
  {
    if from < |s| && IsSpace(s[from]) { FirstFound(s, from + 1); }
  }

  lemma {:induction false} LastFound(s: string, to: nat)
    requires to <= |s|
    ensures Last(s, to) > 0 ==> !IsSpace(s[Last(s, to) - 1])
  {
    if to > 0 && IsSpace(s[to - 1]) { LastFound(s, to - 1); }
  }

  /** `name = value` reads back as that pair, whatever line came before, exactly if the value is clean. */
  lemma EntryRead(name: string, value: string, first: bool, prev: string)
    requires CleanName(name) && Fits(Written(Entry(name, value)))
    requires first ==> name[0] != '\U{EF}'
    ensures Judge(Written(Entry(name, value)), first, prev) == Pair(name, value) <==> CleanValue(value)
  {
    hide ClassifyHeader, ClassifyPair, Trim, Uncommented, RStrip;
    var line := Written(Entry(name, value));
    assert line[0] == name[0] && !Indented(line, first);
    if Outer(value) {
      PairTrim(name, value);
      PairSplit(name, value);
      var text := PairText(name, value);
      assert text[0] == name[0];
      if value != "" { ValueRead(value); }
    } else {
      PairValueOuter(Trim(Body(line, first)), Indented(line, first), prev);
    }
  }

  /** An inline comment, a ';' after whitespace, is cut off. */
  lemma CommentCut(name: string, v: string, comment: string, first: bool, prev: string)
    requires CleanName(name) && v != "" && CleanValue(v) && Outer(v + " ;" + comment)
    requires Fits(Written(Entry(name, v + " ;" + comment))) && (first ==> name[0] != '\U{EF}')
    ensures Judge(Written(Entry(name, v + " ;" + comment)), first, prev) == Pair(name, v)
  {
    hide ClassifyHeader, ClassifyPair, Trim, Uncommented, RStrip, NoInner, CleanValue;
    var value := v + " ;" + comment;
    var line := Written(Entry(name, value));
    assert line[0] == name[0] && !Indented(line, first);
    PairTrim(name, value);
    PairSplit(name, value);
    ValueCut(v, comment);
    assert PairText(name, value)[0] == name[0];
  }

  lemma ValueCut(v: string, comment: string)
    requires v != "" && CleanValue(v)
    ensures Trim(Uncommented(" " + (v + " ;" + comment))) == v
  {
    var raw := " " + (v + " ;" + comment);
    var k := |v| + 2;
    assert raw[k] == ';' && raw[k - 1] == ' ' && raw[0] == ' ';
    assert forall j :: 0 < j <= |v| ==> raw[j] == v[j - 1];
    forall j | 0 <= j < k ensures !StopsAt(raw, "", j) { }
    FindStopIs(raw, "", 0, k);
    var front := raw[..k];
    assert front[1] == v[0] && front[|v|] == v[|v| - 1];
    TrimIs(front, 1, 1 + |v|);
    assert front[1..1 + |v|] == v;
  }

  /** A colon separates name and value like an equals sign. */
  lemma ColonRead(name: string, v: string, first: bool, prev: string)
    requires CleanName(name) && v != "" && CleanValue(v) && Fits(name + ":" + v + "\n") && (first ==> name[0] != '\U{EF}')
    ensures Judge(name + ":" + v + "\n", first, prev) == Pair(name, v)
  {
    hide ClassifyHeader, ClassifyPair, Trim, Uncommented, RStrip, NoInner;
    var text := name + ":" + v;
    var line := text + "\n";
    assert line[0] == name[0] && !Indented(line, first);
    assert text[0] == name[0] && text[|text| - 1] == v[|v| - 1];
    PlainTrim(text);
    ColonSplit(name, v);
  }

  lemma ColonSplit(name: string, v: string)
    requires CleanName(name) && CleanValue(v)
    ensures ClassifyPair(name + ":" + v) == Pair(name, v)
  {
    hide Trim, Uncommented, RStrip, CleanValue;
    var text, k := name + ":" + v, |name|;
    assert text[k] == ':';
    forall j | 0 <= j < k ensures !StopsAt(text, "=:", j) {
      assert text[j] == name[j] && text[j] in name;
      assert j > 0 ==> text[j - 1] == name[j - 1];
    }
    FindStopIs(text, "=:", 0, k);
    assert text[..k] == name && text[k + 1..] == v;
    NothingCut(v);
    NameKept(name);
  }

  lemma NameKept(name: string)
    requires Outer(name)
    ensures RStrip(name) == name
  {
    LastIs(name, |name|, |name|);
    assert name[..|name|] == name;
  }

  /** A line with neither separator is an error. */
  lemma NoSeparator(text: string, first: bool, prev: string)
    requires CleanName(text) && Fits(text + "\n") && (first ==> text[0] != '\U{EF}')
    ensures Judge(text + "\n", first, prev) == Malformed
  {
    hide ClassifyHeader, Trim, Uncommented, RStrip;
    var line := text + "\n";
    assert line[0] == text[0] && !Indented(line, first);
    PlainTrim(text);
    forall j | 0 <= j < |text| ensures !StopsAt(text, "=:", j) {
      assert text[j] in text;
    }
    FindStopIs(text, "=:", 0, |text|);
  }

  lemma PlainTrim(text: string)
    requires text != "" && Outer(text)
    ensures Trim(text + "\n") == text
  {
    var line := text + "\n";
    assert line[0] == text[0] && line[|text| - 1] == text[|text| - 1] && line[|text|] == '\n';
    TrimIs(line, 0, |text|);
    assert line[0..|text|] == text;
  }

  /** Whatever value a pair line yields has no outer whitespace. */
  lemma PairValueOuter(text: string, indented: bool, prev: string)
    ensures var v := Classify(text, indented, prev); v.Pair? ==> Outer(v.value)
  {
    var k := FindStop(text, "=:", 0);
    if k < |text| { TrimShorter(Uncommented(text[k + 1..])); }
  }

  // ---------- A document ----------

  function LinesOf(items: seq<Item>): (lines: seq<string>)
    ensures |lines| == |items|
    ensures forall i :: 0 <= i < |items| ==> lines[i] == Written(items[i])
  {
    if items == [] then [] else [Written(items[0])] + LinesOf(items[1..])
  }

  function Render(items: seq<Item>): string {
    Concat(LinesOf(items))
  }

  function SectionAt(items: seq<Item>, n: nat): string
    requires n <= |items|
  {
    if n == 0 then "" else if items[n - 1].Head? then items[n - 1].section else SectionAt(items, n - 1)
  }

  /** The name that a continuation line after the first `n` items extends, or "". */
  function NameAt(items: seq<Item>, n: nat): string
    requires n <= |items|
  {
    if n == 0 then ""
    else match items[n - 1]
         case Head(_) => ""
         case Entry(name, _) => Take(name, 49)
         case _ => NameAt(items, n - 1)
  }

  /** The entries of the first `n` items, each under the heading that precedes it. */
  function Meaning(items: seq<Item>, n: nat): seq<Event>
    requires n <= |items|
  {
    if n == 0 then []
    else Meaning(items, n - 1) +
         match items[n - 1]
         case Entry(name, value) => [Event(SectionAt(items, n - 1), name, value)]
         case More(value) => [Event(SectionAt(items, n - 1), NameAt(items, n - 1), value)]
         case _ => []
  }

  predicate Writable(items: seq<Item>) {
    && (forall i :: 0 <= i < |items| ==> CleanItem(items[i]))
    && (items != [] && items[0].Entry? ==> items[0].name[0] != '\U{EF}')
    && (forall i :: 0 <= i < |items| && items[i].More? ==> NameAt(items, i) != "")
  }

  function Expected(item: Item): Verdict {
    match item
    case Head(section) => Header(section)
    case Entry(name, value) => Pair(name, value)
    case More(value) => Continued(value)
    case _ => Ignored
  }

  ghost predicate Reads(lines: seq<string>, items: seq<Item>, i: nat)
    requires i < |items| == |lines|
  {
    VerdictAt(lines, i) == Expected(items[i])
  }

  /** Item `i` is read as what it is, from a line that fits. */
  ghost predicate ReadsWell(items: seq<Item>, i: nat)
    requires i < |items|
  {
    Reads(LinesOf(items), items, i) && !Overlong(LinesOf(items)[i])
  }

  lemma ItemRead(items: seq<Item>, i: nat)
    requires Writable(items) && i < |items| && Agrees(items, i)
    ensures ReadsWell(items, i)
  {
    hide Judge, ContextAt, CleanName, CleanValue, NameAt;
    var prev := ContextAt(LinesOf(items), i).prev;
    assert CleanItem(items[i]);
    match items[i]
    case Head(section) => HeadRead(section, i == 0, prev);
    case Entry(name, value) => EntryRead(name, value, i == 0, prev);
    case More(value) => NoNameYet(items); MoreRead(value, prev);
    case Note(mark, text) => NoteRead(mark, text, i == 0, prev);
    case Blank => BlankRead(i == 0, prev);
  }

  lemma NoNameYet(items: seq<Item>)
    ensures NameAt(items, 0) == ""
  {
  }

  lemma LineStep(lines: seq<string>, i: nat, v: Verdict)
    requires i < |lines| && VerdictAt(lines, i) == v
    ensures ContextAt(lines, i + 1) == After(ContextAt(lines, i), v)
    ensures Events(lines, i + 1) == Events(lines, i) + Calls(ContextAt(lines, i), v)
  {
    hide Judge;
  }

  /** What the first `n` lines leave is what the first `n` items mean. */
  ghost predicate Agrees(items: seq<Item>, n: nat)
    requires n <= |items|
  {
    && Events(LinesOf(items), n) == Meaning(items, n)
    && ContextAt(LinesOf(items), n) == Context(SectionAt(items, n), NameAt(items, n))
  }

  lemma ItemStep(items: seq<Item>, n: nat)
    requires n < |items| && ReadsWell(items, n) && Agrees(items, n)
    requires items[n].Head? ==> |items[n].section| <= 49
    ensures Agrees(items, n + 1)
  {
    hide VerdictAt, Judge, Events, ContextAt, LinesOf, Overlong;
    LineStep(LinesOf(items), n, Expected(items[n]));
  }

  lemma {:induction false} ItemsRead(items: seq<Item>, n: nat)
    requires Writable(items) && n <= |items|
    ensures Agrees(items, n) && forall i :: 0 <= i < n ==> ReadsWell(items, i)
  {
    hide Agrees, ReadsWell, Writable;
    if n == 0 {
      NothingAgrees(items);
    } else {
      ItemsRead(items, n - 1);
      ItemRead(items, n - 1);
      HeadShort(items, n - 1);
      ItemStep(items, n - 1);
    }
  }

  lemma NothingAgrees(items: seq<Item>)
    ensures Agrees(items, 0)
  {
  }

  lemma HeadShort(items: seq<Item>, i: nat)
    requires Writable(items) && i < |items|
    ensures items[i].Head? ==> |items[i].section| <= 49
  {
  }

  lemma OneLineConcat(a: string, b: string)
    requires OneLine(a) && OneLine(b)
    ensures OneLine(a + b)
  {
  }

  lemma LineOf(body: string)
    requires OneLine(body)
    ensures IsLine(body + "\n") && Ended(body + "\n")
  {
    var line := body + "\n";
    assert forall i :: 0 <= i < |body| ==> line[i] == body[i] && body[i] in body;
  }

  lemma WrittenIsLine(item: Item)
    requires CleanItem(item)
    ensures IsLine(Written(item)) && Ended(Written(item))
  {
    hide IsLine, Ended, OneLine, CleanValue, NoInner;
    match item
    case Head(section) =>
      OneLineIs("[");
      OneLineIs("]");
      OneLineConcat("[", section);
      OneLineConcat("[" + section, "]");
      LineOf("[" + section + "]");
      assert Written(item) == ("[" + section + "]") + "\n";
    case Entry(name, value) =>
      OneLineIs(" = ");
      OneLineConcat(name, " = ");
      OneLineConcat(name + " = ", value);
      LineOf(name + " = " + value);
      assert Written(item) == (name + " = " + value) + "\n";
    case More(value) =>
      OneLineIs(" ");
      OneLineConcat(" ", value);
      LineOf(" " + value);
      assert Written(item) == (" " + value) + "\n";
    case Note(mark, text) =>
      OneLineIs([mark]);
      OneLineConcat([mark], text);
      LineOf([mark] + text);
      assert Written(item) == ([mark] + text) + "\n";
    case Blank =>
      OneLineIs("");
      LineOf("");
      assert "" + "\n" == "\n";
  }

  lemma OneLineIs(s: string)
    requires |s| <= 3 && forall i :: 0 <= i < |s| ==> s[i] != '\n'
    ensures OneLine(s)
  {
  }

  lemma DocumentLines(items: seq<Item>)
    requires Writable(items)
    ensures Lines(Render(items)) == LinesOf(items)
  {
    var lines := LinesOf(items);
    forall l | l in lines ensures IsLine(l) && Ended(l) {
      var i :| 0 <= i < |lines| && lines[i] == l;
      assert CleanItem(items[i]);
      WrittenIsLine(items[i]);
    }
    LinesOfConcat(lines);
  }

  /** Any document of clean items, written out and parsed, makes exactly its own entries as
      handler calls, and no line is rejected unless the handler refuses an entry. */
  lemma DocumentRoundTrip(items: seq<Item>, accepts: Handler)
    requires Writable(items)
    ensures |Lines(Render(items))| == |items|
    ensures Events(Lines(Render(items)), |items|) == Meaning(items, |items|)
    ensures (forall calls :: accepts(calls)) ==> FirstError(Lines(Render(items)), accepts, |items|, 0)
  {
    hide Judge, VerdictAt, ContextAt, Events, Meaning, CleanItem, Lines, Render, Writable;
    DocumentLines(items);
    ItemsRead(items, |items|);
    if forall calls :: accepts(calls) {
      forall i | 0 <= i < |items| ensures !Rejected(LinesOf(items), accepts, i) {
        assert ReadsWell(items, i);
      }
    }
  }

  /** The parser itself, on a written document. */
  method ParseDocument(items: seq<Item>, accepts: Handler) returns (error: nat, events: seq<Event>)
    requires Writable(items) && NulFree(Render(items))
    ensures events == Meaning(items, |items|)
    ensures (forall calls :: accepts(calls)) ==> error == 0
  {
    hide Writable, Render, FirstError, Events, Meaning, Lines, LineOk;
    error, events := IniParser.ParseStream(Render(items), accepts);
    DocumentRoundTrip(items, accepts);
    if forall calls :: accepts(calls) {
      FirstErrorMeans(Lines(Render(items)), accepts, |items|, 0);
      FirstErrorMeans(Lines(Render(items)), accepts, |items|, error);
    }
  }
}
