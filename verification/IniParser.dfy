/** The parser of src/ini.c: a fixed line buffer filled in pieces by a reader and edited in
    place, proved to make exactly the handler calls of `IniSpec`. */
module IniParser {
  import opened Text
  import opened CString
  import opened IniSpec

  /** `ini_reader_string` and its context; `fgets` behaves the same on NUL-free input. */
  class StringReader {
    const text: string
    var pos: nat

    ghost predicate Valid()
      reads this
    {
      pos <= |text| && NulFree(text)
    }

    constructor (text: string)
      requires NulFree(text)
      ensures this.text == text && pos == 0 && Valid()
    {
      this.text, this.pos := text, 0;
    }

    /** Hands out the rest of the current line, or as much of it as `num - 1` bytes hold. */
    method Read(dst: array<char>, num: nat) returns (ok: bool)
      requires Valid() && num <= dst.Length
      modifies this`pos, dst
      ensures Valid()
      ensures ok == (old(pos) < |text| && num >= 2)
      ensures !ok ==> pos == old(pos) && dst[..] == old(dst[..])
      ensures ok ==> pos == Min(LineEnd(text, old(pos)), old(pos) + num - 1)
      ensures ok ==> Terminated(dst[..], 0) && At(dst[..], 0) == text[old(pos)..pos]
    {
      if pos == |text| || num < 2 { return false; }
      var start := pos;
      var at := pos;
      var left := num;
      while left > 1 && at != |text|
        invariant start <= at <= LineEnd(text, start) && left == num - (at - start) && left >= 1
        invariant forall i :: start <= i < at ==> text[i] != '\n'
        invariant forall i :: 0 <= i < at - start ==> dst[i] == text[start + i]
      {
        var c := text[at];
        dst[at - start] := c;
        at := at + 1;
        if c == '\n' { break; }
        left := left - 1;
      }
      dst[at - start] := NUL;
      EndIs(dst[..], 0, at - start);
      assert dst[..][..at - start] == text[start..at];
      pos := at;
      return true;
    }
  }

  /** The discard loop: swallows the rest of an overlong line in pieces of at most 15 bytes.
      `any` tells whether there was anything to swallow. */
  method Discard(reader: StringReader, abyss: array<char>) returns (any: bool)
    requires reader.Valid() && abyss.Length == 16
    modifies reader`pos, abyss
    ensures reader.Valid() && reader.pos == LineEnd(reader.text, old(reader.pos))
    ensures any == (old(reader.pos) < |reader.text|)
  {
    any := false;
    ghost var text, start := reader.text, reader.pos;
    while true
      invariant reader.Valid() && start <= reader.pos
      invariant any == (start < reader.pos)
      invariant LineEnd(text, reader.pos) == LineEnd(text, start)
      decreases |text| - reader.pos
    {
      ghost var from := reader.pos;
      var ok := reader.Read(abyss, 16);
      if !ok { break; }
      any := true;
      var len := StrEnd(abyss, 0);
      assert abyss[..][len - 1] == At(abyss[..], 0)[len - 1] == text[reader.pos - 1];
      if abyss[len - 1] == '\n' {
        LineEndIs(text, from, reader.pos);
        break;
      }
      LineEndSkip(text, from, reader.pos);
    }
  }

  /** Reading on inside a line does not change where it ends. */
  lemma {:induction false} LineEndSkip(text: string, from: nat, till: nat)
    requires from <= till <= |text| && till <= LineEnd(text, from)
    requires forall i :: from <= i < till ==> text[i] != '\n'
    ensures LineEnd(text, till) == LineEnd(text, from)
    decreases till - from
  {
    if from < till { LineEndSkip(text, from + 1, till); }
  }

  /** One turn of the outer loop up to the discard: consumes exactly one physical line, keeps
      its first 199 bytes, and reports whether anything of it, even just the newline, was lost. */
  method NextLine(reader: StringReader, line: array<char>, abyss: array<char>) returns (ok: bool, overlong: bool)
    requires reader.Valid() && line.Length == MAX_LINE && abyss.Length == 16 && line != abyss
    modifies reader`pos, line, abyss
    ensures reader.Valid()
    ensures ok == (old(reader.pos) < |reader.text|)
    ensures reader.pos == LineEnd(reader.text, old(reader.pos))
    ensures ok ==> var l := reader.text[old(reader.pos)..reader.pos];
                   Terminated(line[..], 0) && At(line[..], 0) == Visible(l) && overlong == Overlong(l)
  {
    overlong := false;
    ghost var text, start := reader.text, reader.pos;
    ok := reader.Read(line, MAX_LINE);
    if !ok { return; }
    ghost var mid := reader.pos;
    var offset := StrEnd(line, 0);
    assert line[..][offset - 1] == At(line[..], 0)[offset - 1] == text[mid - 1];
    if offset == MAX_LINE - 1 && line[offset - 1] != '\n' {
      LineEndSkip(text, start, mid);
      overlong := Discard(reader, abyss);
    } else if line[offset - 1] == '\n' {
      LineEndIs(text, start, mid);
    }
    assert text[start..mid] == Take(text[start..reader.pos], MAX_LINE - 1);
  }

  // ---------- One line in the buffer ----------

  ghost predicate Buffers(line: array<char>, section: array<char>, prev: array<char>)
    reads section, prev
  {
    && line.Length == MAX_LINE && section.Length == MAX_SECTION && prev.Length == MAX_NAME
    && line != section && line != prev && section != prev
    && Terminated(section[..], 0) && Terminated(prev[..], 0)
  }

  ghost function Saved(section: array<char>, prev: array<char>): Context
    requires Terminated(section[..], 0) && Terminated(prev[..], 0)
    reads section, prev
  {
    Context(At(section[..], 0), At(prev[..], 0))
  }

  /** Skips the byte order mark of the first line, then the whitespace around the text. */
  method Isolate(line: array<char>, lineno: nat, ghost l: string) returns (start: nat)
    requires line.Length == MAX_LINE && Terminated(line[..], 0) && At(line[..], 0) == Visible(l)
    modifies line
    ensures Terminated(line[..], start) && At(line[..], start) == Trim(Body(l, lineno == 1))
    ensures At(line[..], start) != "" ==> (start > 0 <==> Indented(l, lineno == 1))
  {
    ghost var b, seen := line[..], Visible(l);
    assert forall i :: 0 <= i < |seen| ==> b[i] == seen[i];
    start := 0;
    if lineno == 1 && line[0] == '\U{EF}' && line[1] == '\U{BB}' && line[2] == '\U{BF}' {
      start := 3;
      assert HasBom(seen);
      AtSuffix(b, 0, 3);
    } else {
      assert !(lineno == 1 && HasBom(seen));
    }
    var from := start;
    start := LSkip(line, from);
    RStripInPlace(line, start);
    assert start - from == First(Body(l, lineno == 1));
  }

  /** Cuts the string at `s` before an inline comment. */
  method DropComment(line: array<char>, s: nat)
    requires Terminated(line[..], s)
    modifies line
    ensures Terminated(line[..], s) && At(line[..], s) == Uncommented(old(At(line[..], s)))
    ensures SameOutside(line[..], old(line[..]), s, line.Length)
  {
    ghost var text := At(line[..], s);
    var end := FindCharsOrComment(line, s, "");
    if line[end] != NUL {
      CutAt(line, s, end);
    } else {
      assert text == text[..end - s];
    }
  }

  method ReadContinuation(line: array<char>, start: nat)
    requires Terminated(line[..], start)
    modifies line
    ensures Terminated(line[..], start) && At(line[..], start) == RStrip(Uncommented(old(At(line[..], start))))
  {
    DropComment(line, start);
    RStripInPlace(line, start);
  }

  method ReadHeader(line: array<char>, start: nat, section: array<char>, prev: array<char>) returns (ok: bool)
    requires Buffers(line, section, prev) && Terminated(line[..], start) && At(line[..], start) != ""
    modifies line, section, prev
    ensures Terminated(section[..], 0) && Terminated(prev[..], 0)
    ensures var v := ClassifyHeader(old(At(line[..], start)));
            (if ok then v.Header? else v.Malformed?) && Saved(section, prev) == After(old(Saved(section, prev)), v)
  {
    hide Take, End;
    AtSuffix(line[..], start, start + 1);
    ghost var text := At(line[..], start);
    ghost var rest := text[1..];
    var end := FindCharsOrComment(line, start + 1, "]");
    ok := line[end] == ']';
    if ok {
      assert rest[..end - start - 1] == text[1..end - start];
      CutAt(line, start + 1, end);
      StrNCpy0(section, line, start + 1, MAX_SECTION);
      prev[0] := NUL;
      EndIs(prev[..], 0, 0);
    }
  }

  /** Cuts an inline comment off a raw value and trims it, touching only bytes of the value. */
  method ReadValue(line: array<char>, raw: nat) returns (value: nat)
    requires Terminated(line[..], raw)
    modifies line
    ensures Terminated(line[..], value) && At(line[..], value) == Trim(Uncommented(old(At(line[..], raw))))
    ensures SameOutside(line[..], old(line[..]), raw, line.Length)
  {
    DropComment(line, raw);
    ghost var b := line[..];
    value := LSkip(line, raw);
    RStripInPlace(line, value);
  }

  /** Ends the name before the separator at `end`; the raw value starts after it. */
  method SplitAt(line: array<char>, start: nat, end: nat)
    requires Terminated(line[..], start) && start <= end < End(line[..], start)
    modifies line
    ensures Terminated(line[..], start) && Terminated(line[..], end + 1)
    ensures At(line[..], start) == RStrip(old(At(line[..], start))[..end - start]) && End(line[..], start) <= end
    ensures At(line[..], end + 1) == old(At(line[..], start))[end + 1 - start..]
  {
    AtSuffix(line[..], start, end + 1);
    ghost var b := line[..];
    CutAt(line, start, end);
    RStripInPlace(line, start);
    AtAgree(b, line[..], end + 1);
  }

  /** Splits a pair in place; the name stays at `start`, the value is found at `value`. */
  method ReadPair(line: array<char>, start: nat) returns (ok: bool, value: nat)
    requires Terminated(line[..], start)
    modifies line
    ensures var v := ClassifyPair(old(At(line[..], start)));
            && ok == v.Pair?
            && (ok ==> Terminated(line[..], start) && Terminated(line[..], value))
            && (ok ==> v == Pair(At(line[..], start), At(line[..], value)))
  {
    hide Trim, RStrip, Uncommented, At;
    ghost var text := At(line[..], start);
    value := 0;
    var end := FindCharsOrComment(line, start, "=:");
    ok := line[end] == '=' || line[end] == ':';
    if !ok { return; }
    ghost var k := end - start;
    assert ClassifyPair(text) == Pair(RStrip(text[..k]), Trim(Uncommented(text[k + 1..])));
    SplitAt(line, start, end);
    ghost var b := line[..];
    value := ReadValue(line, end + 1);
    AtAgree(b, line[..], start);
  }

  method HandlePair(line: array<char>, start: nat, section: array<char>, prev: array<char>)
    returns (calls: seq<Event>, malformed: bool)
    requires Buffers(line, section, prev) && Terminated(line[..], start)
    modifies line, prev
    ensures Terminated(prev[..], 0)
    ensures var c := old(Saved(section, prev));
            var v := ClassifyPair(old(At(line[..], start)));
            && Saved(section, prev) == After(c, v)
            && calls == Calls(c, v)
            && malformed == v.Malformed?
  {
    calls, malformed := [], false;
    var ok, value := ReadPair(line, start);
    if ok {
      StrNCpy0(prev, line, start, MAX_NAME);
      calls := [Event(Extract(section, 0), Extract(line, start), Extract(line, value))];
    } else {
      malformed := true;
    }
  }

  /** One turn of the outer loop after the line is in the buffer. */
  method HandleLine(line: array<char>, lineno: nat, section: array<char>, prev: array<char>, ghost l: string)
    returns (calls: seq<Event>, malformed: bool)
    requires Buffers(line, section, prev)
    requires Terminated(line[..], 0) && At(line[..], 0) == Visible(l)
    modifies line, section, prev
    ensures Terminated(section[..], 0) && Terminated(prev[..], 0)
    ensures var c := old(Saved(section, prev));
            var v := Judge(l, lineno == 1, c.prev);
            && Saved(section, prev) == After(c, v)
            && calls == Calls(c, v)
            && malformed == v.Malformed?
  {
    hide ClassifyHeader, ClassifyPair, Uncommented, Trim, RStrip, Body, Indented;
    calls, malformed := [], false;
    var start := Isolate(line, lineno, l);
    ghost var text := At(line[..], start);
    assert line[start] == if text == "" then NUL else text[0];
    assert prev[0] == NUL <==> Saved(section, prev).prev == "";
    if line[start] == NUL || line[start] == ';' || line[start] == '#' {
      // A comment, or a blank line: strchr also finds the terminator of ";#".
    } else if prev[0] != NUL && start > 0 {
      ReadContinuation(line, start);
      calls := [Event(Extract(section, 0), Extract(prev, 0), Extract(line, start))];
    } else if line[start] == '[' {
      var ok := ReadHeader(line, start, section, prev);
      malformed := !ok;
    } else {
      calls, malformed := HandlePair(line, start, section, prev);
    }
  }

  // ---------- The whole text ----------

  /** What holds at the top of the outer loop after `n` lines. */
  ghost predicate Scanning(reader: StringReader, line: array<char>, abyss: array<char>, section: array<char>,
                           prev: array<char>, accepts: Handler, n: nat, error: nat, events: seq<Event>)
    reads reader, section, prev
  {
    && reader.Valid() && Buffers(line, section, prev) && abyss.Length == 16 && line != abyss
    && abyss != section && abyss != prev
    && var lines := Lines(reader.text);
       && n <= |lines| && Lines(reader.text, reader.pos) == lines[n..]
       && Saved(section, prev) == ContextAt(lines, n)
       && events == Events(lines, n) && FirstError(lines, accepts, n, error)
  }

  /** One turn of the outer loop: the next line is read, handled and counted. */
  method Turn(reader: StringReader, line: array<char>, abyss: array<char>, section: array<char>, prev: array<char>,
              accepts: Handler, n: nat, error: nat, events: seq<Event>)
    returns (ok: bool, error': nat, events': seq<Event>)
    requires Scanning(reader, line, abyss, section, prev, accepts, n, error, events)
    modifies reader`pos, line, abyss, section, prev
    ensures ok == (old(reader.pos) < |reader.text|)
    ensures ok ==> reader.pos > old(reader.pos)
    ensures ok ==> Scanning(reader, line, abyss, section, prev, accepts, n + 1, error', events')
    ensures !ok ==> error' == error && events' == events
  {
    hide Judge, Visible, Overlong, At, FirstError, Events, ContextAt;
    error', events' := error, events;
    ghost var text, start, lines := reader.text, reader.pos, Lines(reader.text);
    var overlong;
    ok, overlong := NextLine(reader, line, abyss);
    if !ok { return; }
    TakeLine(text, start, lines, n);
    var calls, malformed := HandleLine(line, n + 1, section, prev, text[start..reader.pos]);
    events' := events + calls;
    var bad := overlong || malformed || (calls != [] && !accepts(events'));
    CountLine(lines, accepts, n, overlong, malformed, calls, events');
    ExtendError(lines, accepts, n, error);
    if bad && error == 0 {
      error' := n + 1;
    }
  }

  /** `ini_parse_stream` over any NUL-free text and any handler: the handler calls are those of
      the specification, and the result is the number of the first rejected line, or 0. */
  method ParseStream(text: string, accepts: Handler) returns (error: nat, events: seq<Event>)
    requires NulFree(text)
    ensures events == Events(Lines(text), |Lines(text)|)
    ensures FirstError(Lines(text), accepts, |Lines(text)|, error)
  {
    hide Judge, FirstError;
    var reader := new StringReader(text);
    var line, abyss := new char[MAX_LINE], new char[16];
    var section, prev := new char[MAX_SECTION], new char[MAX_NAME];
    section[0], prev[0] := NUL, NUL;
    EndIs(section[..], 0, 0);
    EndIs(prev[..], 0, 0);
    NoError(Lines(text), accepts);
    error, events := 0, [];
    var lineno, more := 0, true;
    while more
      invariant fresh(reader) && fresh(line) && fresh(abyss) && fresh(section) && fresh(prev) && reader.text == text
      invariant more ==> Scanning(reader, line, abyss, section, prev, accepts, lineno, error, events)
      invariant !more ==> events == Events(Lines(text), |Lines(text)|)
      invariant !more ==> FirstError(Lines(text), accepts, |Lines(text)|, error)
      decreases if more then |text| - reader.pos else -1
    {
      more, error, events := Turn(reader, line, abyss, section, prev, accepts, lineno, error, events);
      lineno := lineno + 1;
    }
  }

  lemma NoError(lines: seq<string>, accepts: Handler)
    ensures FirstError(lines, accepts, 0, 0)
  {
  }

  /** The verdict and calls of one line make it rejected or not, and extend the calls so far. */
  lemma CountLine(lines: seq<string>, accepts: Handler, n: nat, overlong: bool, malformed: bool, calls: seq<Event>,
                  events: seq<Event>)
    requires n < |lines| && overlong == Overlong(lines[n]) && events == Events(lines, n) + calls
    requires var c := ContextAt(lines, n); var v := Judge(lines[n], n == 0, c.prev);
             calls == Calls(c, v) && malformed == v.Malformed?
    ensures events == Events(lines, n + 1)
    ensures ContextAt(lines, n + 1) == After(ContextAt(lines, n), Judge(lines[n], n == 0, ContextAt(lines, n).prev))
    ensures Rejected(lines, accepts, n) == (overlong || malformed || (calls != [] && !accepts(events)))
  {
    hide Judge, Overlong;
  }

  lemma TakeLine(text: string, pos: nat, lines: seq<string>, n: nat)
    requires pos < |text| && n <= |lines| && Lines(text, pos) == lines[n..]
    ensures n < |lines| && lines[n] == text[pos..LineEnd(text, pos)]
    ensures Lines(text, LineEnd(text, pos)) == lines[n + 1..]
  {
    assert lines[n..][0] == lines[n] && lines[n..][1..] == lines[n + 1..];
  }

  lemma ExtendError(lines: seq<string>, accepts: Handler, n: nat, error: nat)
    requires n < |lines| && FirstError(lines, accepts, n, error)
    ensures FirstError(lines, accepts, n + 1, if Rejected(lines, accepts, n) && error == 0 then n + 1 else error)
  {
    hide Rejected;
  }
}
