/** What the INI parser of src/ini.c computes, as functions over the physical lines of a text:
    no buffer, no chunks, no pointers.  Default build switches of src/ini.h. */
module IniSpec {
  import opened Text
  import opened CString

  const MAX_LINE: nat := 200
  const MAX_SECTION: nat := 50
  const MAX_NAME: nat := 50

  /** One call of the handler. */
  datatype Event = Event(section: string, name: string, value: string)

  /** What a line turns out to be, given the name a continuation would extend. */
  datatype Verdict =
    | Ignored
    | Continued(value: string)
    | Header(section: string)
    | Pair(name: string, value: string)
    | Malformed

  /** A stateful handler, as the answer it gives to the last of all calls made so far. */
  type Handler = seq<Event> -> bool

  // ---------- Physical lines ----------

  /** Index just after the line that starts at `pos`: past its newline, or the end of the text. */
  function LineEnd(text: string, pos: nat): (e: nat)
    requires pos <= |text|
    ensures pos <= e <= |text|
    ensures pos < |text| ==> pos < e
    ensures forall i :: pos <= i < e - 1 ==> text[i] != '\n'
    ensures e < |text| ==> text[e - 1] == '\n'
    decreases |text| - pos
  {
    if pos == |text| then pos else if text[pos] == '\n' then pos + 1 else LineEnd(text, pos + 1)
  }

  function Lines(text: string, pos: nat := 0): seq<string>
    requires pos <= |text|
    decreases |text| - pos
  {
    if pos == |text| then [] else [text[pos..LineEnd(text, pos)]] + Lines(text, LineEnd(text, pos))
  }

  predicate Overlong(line: string) {
    |line| > MAX_LINE - 1
  }

  function Visible(line: string): string {
    Take(line, MAX_LINE - 1)
  }

  // ---------- One line ----------

  predicate HasBom(s: string) {
    |s| >= 3 && s[0] == '\U{EF}' && s[1] == '\U{BB}' && s[2] == '\U{BF}'
  }

  function Body(line: string, first: bool): string {
    if first && HasBom(Visible(line)) then Visible(line)[3..] else Visible(line)
  }

  predicate Indented(line: string, first: bool) {
    (first && HasBom(Visible(line))) || (line != "" && IsSpace(line[0]))
  }

  /** The text before an inline comment: a ';' that follows a whitespace character. */
  function Uncommented(s: string): string {
    s[..FindStop(s, "", 0)]
  }

  function ClassifyHeader(text: string): Verdict
    requires text != ""
  {
    var k := FindStop(text[1..], "]", 0);
    if k < |text| - 1 && text[1 + k] == ']' then Header(Take(text[1..1 + k], MAX_SECTION - 1)) else Malformed
  }

  function ClassifyPair(text: string): Verdict {
    var k := FindStop(text, "=:", 0);
    if k < |text| && text[k] in "=:" then Pair(RStrip(text[..k]), Trim(Uncommented(text[k + 1..]))) else Malformed
  }

  function Classify(text: string, indented: bool, prev: string): Verdict {
    if text == "" || text[0] in ";#" then Ignored
    else if prev != "" && indented then Continued(RStrip(Uncommented(text)))
    else if text[0] == '[' then ClassifyHeader(text)
    else ClassifyPair(text)
  }

  function Judge(line: string, first: bool, prev: string): Verdict {
    Classify(Trim(Body(line, first)), Indented(line, first), prev)
  }

  // ---------- All lines ----------

  /** What earlier lines leave behind: the current section and the name to continue. */
  datatype Context = Context(section: string, prev: string)

  function After(c: Context, v: Verdict): Context {
    match v
    case Header(section) => Context(section, "")
    case Pair(name, _) => Context(c.section, Take(name, MAX_NAME - 1))
    case _ => c
  }

  /** The handler calls of one line: at most one. */
  function Calls(c: Context, v: Verdict): seq<Event> {
    match v
    case Continued(value) => [Event(c.section, c.prev, value)]
    case Pair(name, value) => [Event(c.section, name, value)]
    case _ => []
  }

  function ContextAt(lines: seq<string>, i: nat): Context
    requires i <= |lines|
  {
    if i == 0 then Context("", "")
    else var c := ContextAt(lines, i - 1); After(c, Judge(lines[i - 1], i == 1, c.prev))
  }

  function VerdictAt(lines: seq<string>, i: nat): Verdict
    requires i < |lines|
  {
    Judge(lines[i], i == 0, ContextAt(lines, i).prev)
  }

  /** All handler calls of the first `n` lines, in order. */
  function Events(lines: seq<string>, n: nat): seq<Event>
    requires n <= |lines|
  {
    if n == 0 then [] else Events(lines, n - 1) + Calls(ContextAt(lines, n - 1), VerdictAt(lines, n - 1))
  }

  /** Line `i` is an error: too long, not a header or pair, or refused by the handler. */
  predicate Rejected(lines: seq<string>, accepts: Handler, i: nat)
    requires i < |lines|
  {
    || Overlong(lines[i])
    || VerdictAt(lines, i).Malformed?
    || (Calls(ContextAt(lines, i), VerdictAt(lines, i)) != [] && !accepts(Events(lines, i + 1)))
  }

  /** `error` is the 1-based number of the first rejected line among the first `n`, or 0. */
  ghost predicate FirstError(lines: seq<string>, accepts: Handler, n: nat, error: nat)
    requires n <= |lines|
  {
    && error <= n
    && (error == 0 ==> forall i :: 0 <= i < n ==> !Rejected(lines, accepts, i))
    && (error > 0 ==> Rejected(lines, accepts, error - 1))
    && (forall i :: 0 <= i < error - 1 ==> !Rejected(lines, accepts, i))
  }

  // ---------- Properties of the specification ----------

  /** The result is 0 exactly if every line is at most 199 bytes long, newline included, is not
      malformed, and has its call, if any, accepted; otherwise it is the first other line. */
  lemma FirstErrorMeans(lines: seq<string>, accepts: Handler, n: nat, error: nat)
    requires n <= |lines| && FirstError(lines, accepts, n, error)
    ensures error == 0 <==> forall i :: 0 <= i < n ==> LineOk(lines, accepts, i)
    ensures error > 0 ==> error <= n && !LineOk(lines, accepts, error - 1) && forall i :: 0 <= i < error - 1 ==> LineOk(lines, accepts, i)
  {
    hide VerdictAt, ContextAt, Events;
    assert forall i :: 0 <= i < n ==> (LineOk(lines, accepts, i) <==> !Rejected(lines, accepts, i));
  }

  predicate LineOk(lines: seq<string>, accepts: Handler, i: nat)
    requires i < |lines|
  {
    && |lines[i]| <= 199 && VerdictAt(lines, i) != Malformed
    && (VerdictAt(lines, i).Pair? || VerdictAt(lines, i).Continued? ==> accepts(Events(lines, i + 1)))
  }

  /** Of a longer line the first 199 bytes are still read as if they were all. */
  lemma OverlongRead(line: string, first: bool, prev: string)
    requires |line| > 199
    ensures Judge(line, first, prev) == Judge(line[..199], first, prev)
  {
    hide Classify;
    assert Visible(line) == line[..199] == Visible(line[..199]);
  }

  /** A byte order mark is skipped on the first line. */
  lemma MarkSkipped(line: string)
    requires |line| <= 196
    ensures Judge("\U{EF}\U{BB}\U{BF}" + line, true, "") == Judge(line, false, "")
  {
    hide ClassifyHeader, ClassifyPair, Trim, Uncommented, RStrip;
    var marked := "\U{EF}\U{BB}\U{BF}" + line;
    assert Visible(marked) == marked && marked[3..] == line && Visible(line) == line;
  }

  function Concat(lines: seq<string>): string {
    if lines == [] then "" else lines[0] + Concat(lines[1..])
  }

  /** A physical line: not empty, and a newline only as its last character. */
  predicate IsLine(l: string) {
    l != "" && forall i :: 0 <= i < |l| - 1 ==> l[i] != '\n'
  }

  predicate Ended(l: string) {
    l != "" && l[|l| - 1] == '\n'
  }

  /** Splitting loses nothing and every piece is one physical line, all but the last one ended. */
  lemma {:induction false} LinesPartition(text: string, pos: nat)
    requires pos <= |text|
    ensures Concat(Lines(text, pos)) == text[pos..]
    ensures forall l :: l in Lines(text, pos) ==> IsLine(l)
    ensures forall i :: 0 <= i < |Lines(text, pos)| - 1 ==> Ended(Lines(text, pos)[i])
    decreases |text| - pos
  {
    if pos < |text| {
      var e := LineEnd(text, pos);
      var rest := Lines(text, e);
      LinesPartition(text, e);
      assert Lines(text, pos) == [text[pos..e]] + rest;
      assert text[pos..e] + text[e..] == text[pos..];
      assert rest != [] ==> e < |text| && text[pos..e][e - pos - 1] == '\n';
    }
  }

  /** ... and it is the only way to do so: any ended lines, written one after the other, come
      back as themselves. */
  lemma {:induction false} LinesOfConcat(lines: seq<string>)
    requires forall l :: l in lines ==> IsLine(l) && Ended(l)
    ensures Lines(Concat(lines)) == lines
  {
    LinesFrom(Concat(lines), 0, lines);
  }

  lemma {:induction false} LinesFrom(text: string, pos: nat, lines: seq<string>)
    requires forall l :: l in lines ==> IsLine(l) && Ended(l)
    requires pos <= |text| && text[pos..] == Concat(lines)
    ensures Lines(text, pos) == lines
    decreases |lines|
  {
    if lines != [] {
      var l := lines[0];
      assert l in lines && IsLine(l) && Ended(l);
      var e := pos + |l|;
      assert text[pos..][..|l|] == l && text[pos..][|l|..] == Concat(lines[1..]);
      assert forall i :: pos <= i < e ==> text[i] == text[pos..][i - pos] == l[i - pos];
      LineEndIs(text, pos, e);
      assert text[pos..e] == l && text[e..] == Concat(lines[1..]);
      LinesFrom(text, e, lines[1..]);
    }
  }

  lemma {:induction false} LineEndIs(text: string, pos: nat, e: nat)
    requires pos < e <= |text| && text[e - 1] == '\n'
    requires forall i :: pos <= i < e - 1 ==> text[i] != '\n'
    ensures LineEnd(text, pos) == e
    decreases e - pos
  {
    if pos < e - 1 { LineEndIs(text, pos + 1, e); }
  }

  /** Contexts and calls of the first `n` lines depend on those lines only. */
  lemma {:induction false} PrefixOnly(lines: seq<string>, other: seq<string>, n: nat)
    requires n <= |lines| && n <= |other| && lines[..n] == other[..n]
    ensures ContextAt(lines, n) == ContextAt(other, n) && Events(lines, n) == Events(other, n)
  {
    hide Judge;
    if n > 0 {
      assert lines[..n - 1] == lines[..n][..n - 1] == other[..n - 1];
      assert lines[n - 1] == lines[..n][n - 1] == other[n - 1];
      PrefixOnly(lines, other, n - 1);
    }
  }

  /** A blank or comment line may be put anywhere after the first line: it changes no handler
      call, and in particular it does not end a continued value. */
  lemma {:induction false} CommentTransparent(lines: seq<string>, at: nat, comment: string, n: nat)
    requires 0 < at <= n <= |lines|
    requires var t := Trim(Body(comment, false)); t == "" || t[0] in ";#"
    ensures var more := lines[..at] + [comment] + lines[at..];
            ContextAt(more, n + 1) == ContextAt(lines, n) && Events(more, n + 1) == Events(lines, n)
  {
    hide Judge, ContextAt, Events, VerdictAt;
    var more := lines[..at] + [comment] + lines[at..];
    assert more[at] == comment && more[..at] == lines[..at];
    if n == at {
      PrefixOnly(lines, more, at);
      CommentIgnored(more, at);
    } else {
      CommentTransparent(lines, at, comment, n - 1);
      assert more[n] == lines[n - 1];
      SameStep(lines, n - 1, more, n);
    }
  }

  lemma CommentIgnored(lines: seq<string>, i: nat)
    requires 0 < i < |lines| && var t := Trim(Body(lines[i], false)); t == "" || t[0] in ";#"
    ensures ContextAt(lines, i + 1) == ContextAt(lines, i) && Events(lines, i + 1) == Events(lines, i)
  {
    hide Trim, Body;
    assert VerdictAt(lines, i) == Ignored;
  }

  lemma SameStep(lines: seq<string>, i: nat, other: seq<string>, j: nat)
    requires 0 < i < |lines| && 0 < j < |other| && lines[i] == other[j]
    requires ContextAt(lines, i) == ContextAt(other, j) && Events(lines, i) == Events(other, j)
    ensures ContextAt(lines, i + 1) == ContextAt(other, j + 1) && Events(lines, i + 1) == Events(other, j + 1)
  {
    hide Judge;
  }
}
